/** A lacrosse player in the league, with the guardians registered for them. */
module LaxLeague {
  import opened Wrappers

  /** `Player`; `G` stands for the league's `Guardian`, whose definition is not
      part of this model. */
  class Player<G> {
    var firstName: string
    var lastName: string
    var guardians: seq<G>

    /** `Player(first_name, last_name)`: the guardian list starts empty. */
    constructor (firstName: string, lastName: string)
      ensures this.firstName == firstName && this.lastName == lastName
      ensures guardians == []
      ensures PrimaryGuardian() == None
    {
      this.firstName := firstName;
      this.lastName := lastName;
      guardians := [];
    }

    /** `Player(first_name, last_name, guardians)`, the dataclass with the list given. */
    constructor WithGuardians(firstName: string, lastName: string, guardians: seq<G>)
      ensures this.firstName == firstName && this.lastName == lastName
      ensures this.guardians == guardians
    {
      this.firstName := firstName;
      this.lastName := lastName;
      this.guardians := guardians;
    }

    /** `add_guardian`: append one guardian. The earlier guardians keep their places, the
        names do not change, and the primary guardian stays unless there was none. */
    method AddGuardian(guardian: G)
      modifies this`guardians
      ensures guardians == old(guardians) + [guardian]
      ensures |guardians| == |old(guardians)| + 1 && guardians[|guardians| - 1] == guardian
      ensures forall i :: 0 <= i < |old(guardians)| ==> guardians[i] == old(guardians)[i]
      ensures firstName == old(firstName) && lastName == old(lastName)
      ensures PrimaryGuardian() == if old(guardians) == [] then Some(guardian) else old(PrimaryGuardian())
    {
      guardians := guardians + [guardian];
    }

    /** `add_guardians`: extend the list by `newGuardians`, in their order. The names do not
        change, and the primary guardian stays unless there was none. */
    method AddGuardians(newGuardians: seq<G>)
      modifies this`guardians
      ensures guardians == old(guardians) + newGuardians
      ensures |guardians| == |old(guardians)| + |newGuardians|
      ensures firstName == old(firstName) && lastName == old(lastName)
      ensures old(guardians) != [] ==> PrimaryGuardian() == old(PrimaryGuardian())
      ensures old(guardians) == [] ==> PrimaryGuardian() == FirstOf(newGuardians)
    {
      if guardians != [] {
        FirstOfStable(guardians, newGuardians);
      }
      guardians := guardians + newGuardians;
    }

    /** `primary_guardian`: the first guardian, or `None` when there is none. */
    function PrimaryGuardian(): (r: Option<G>)
      reads this
      ensures r.None? <==> guardians == []
      ensures r.Some? ==> r.value == guardians[0] && r.value in guardians
    {
      FirstOf(guardians)
    }
  }

  /** The first element of a list, if any. */
  function FirstOf<T>(s: seq<T>): Option<T>
  {
    if s == [] then None else Some(s[0])
  }

  /** Extending a non-empty list never changes its first element. */
  lemma FirstOfStable<T>(s: seq<T>, t: seq<T>)
    requires s != []
    ensures FirstOf(s + t) == FirstOf(s)
  {
    assert (s + t)[0] == s[0];
  }
}
