/** POSIX pure paths as Python's `pathlib.PurePosixPath` parses and prints them:
    a root ("", "/" or "//") and a sequence of non-empty segments. */
module PurePaths {

  const Sep: char := '/'

  /** The '/'-separated fields of `s`, empty fields included (Python's `s.split("/")`). */
  function Split(s: string): (r: seq<string>)
    ensures |r| >= 1
    decreases |s|
  {
    if s == [] then [""]
    else
      var rest := Split(s[1..]);
      if s[0] == Sep then [""] + rest
      else [[s[0]] + rest[0]] + rest[1..]
  }

  /** Python's `"/".join(parts)`. */
  function Join(parts: seq<string>): string
  {
    if parts == [] then ""
    else if |parts| == 1 then parts[0]
    else parts[0] + [Sep] + Join(parts[1..])
  }

  function Last<T>(s: seq<T>): T
    requires s != []
  {
    s[|s| - 1]
  }

  /** Joining the fields of a string gives the string back. */
  lemma {:induction false} JoinSplit(s: string)
    ensures Join(Split(s)) == s
    decreases |s|
  {
    if s != [] {
      JoinSplit(s[1..]);
      var rest := Split(s[1..]);
      if s[0] == Sep {
        assert Split(s) == [""] + rest;
        assert ([""] + rest)[1..] == rest;
      } else {
        var first := [s[0]] + rest[0];
        assert Split(s) == [first] + rest[1..];
        if |rest| == 1 {
          assert Join(Split(s)) == first;
          assert Join(rest) == rest[0];
        } else {
          assert ([first] + rest[1..])[1..] == rest[1..];
          assert Join(Split(s)) == first + [Sep] + Join(rest[1..]);
          assert Join(rest) == rest[0] + [Sep] + Join(rest[1..]);
        }
      }
    }
  }

  /** A string without separators is a single field. */
  lemma {:induction false} SplitNoSep(s: string)
    requires Sep !in s
    ensures Split(s) == [s]
    decreases |s|
  {
    if s != [] {
      assert s[0] in s;
      assert forall c :: c in s[1..] ==> c in s;
      SplitNoSep(s[1..]);
      assert [s[0]] + s[1..] == s;
    }
  }

  /** A leading separator contributes one empty field. */
  lemma SplitSepPrefix(t: string)
    ensures Split([Sep] + t) == [""] + Split(t)
  {
    assert ([Sep] + t)[1..] == t;
  }

  /** No field contains the separator. */
  lemma {:induction false} SplitFieldsNoSep(s: string)
    ensures forall i :: 0 <= i < |Split(s)| ==> Sep !in Split(s)[i]
    decreases |s|
  {
    if s != [] {
      SplitFieldsNoSep(s[1..]);
      var rest := Split(s[1..]);
      if s[0] != Sep {
        var r := Split(s);
        forall i | 0 <= i < |r| ensures Sep !in r[i] {
          if i == 0 {
            assert forall c :: c in r[0] ==> c == s[0] || c in rest[0];
          } else {
            assert r[i] == rest[i];
          }
        }
      }
    }
  }

  /** Growing the first field at its front commutes with appending more fields. */
  lemma WidenFirstAppend(c: char, ra: seq<string>, rb: seq<string>)
    requires ra != []
    ensures var rest := ra + rb;
      [[c] + rest[0]] + rest[1..] == ([[c] + ra[0]] + ra[1..]) + rb
  {
    var rest := ra + rb;
    assert rest[0] == ra[0];
    assert rest[1..] == ra[1..] + rb;
  }

  /** Splitting at a separator splits the fields. */
  lemma {:induction false} SplitAppend(a: string, b: string)
    ensures Split(a + [Sep] + b) == Split(a) + Split(b)
    decreases |a|
  {
    if a == [] {
      assert a + [Sep] + b == [Sep] + b;
      SplitSepPrefix(b);
    } else {
      var s := a + [Sep] + b;
      assert s[0] == a[0];
      assert s[1..] == a[1..] + [Sep] + b;
      SplitAppend(a[1..], b);
      var ra := Split(a[1..]);
      if a[0] == Sep {
        assert [""] + (ra + Split(b)) == ([""] + ra) + Split(b);
      } else {
        WidenFirstAppend(a[0], ra, Split(b));
      }
    }
  }

  /** Joining two non-empty lists of parts puts one separator between them. */
  lemma {:induction false} JoinAppend(p: seq<string>, q: seq<string>)
    requires p != [] && q != []
    ensures Join(p + q) == Join(p) + [Sep] + Join(q)
    decreases |p|
  {
    assert (p + q)[0] == p[0];
    assert (p + q)[1..] == p[1..] + q;
    if |p| > 1 {
      JoinAppend(p[1..], q);
    }
  }

  /** Splitting a join of separator-free parts gives the parts back. */
  lemma {:induction false} SplitJoin(parts: seq<string>)
    requires parts != []
    requires forall i :: 0 <= i < |parts| ==> Sep !in parts[i]
    ensures Split(Join(parts)) == parts
    decreases |parts|
  {
    if |parts| == 1 {
      SplitNoSep(parts[0]);
    } else {
      SplitJoin(parts[1..]);
      SplitNoSep(parts[0]);
      SplitAppend(parts[0], Join(parts[1..]));
      assert [parts[0]] + parts[1..] == parts;
    }
  }

  /** A join starts with its first part. */
  lemma JoinStartsWithFirst(parts: seq<string>)
    requires parts != []
    ensures |parts[0]| <= |Join(parts)| && Join(parts)[..|parts[0]|] == parts[0]
  {
    if |parts| > 1 {
      assert Join(parts) == parts[0] + ([Sep] + Join(parts[1..]));
    }
  }

  /** Extending the last field commutes with putting a field in front. */
  lemma ExtendLastPrepend(x: string, g: seq<string>, t: string)
    requires g != []
    ensures var f := [x] + g;
      [x] + (g[..|g| - 1] + [Last(g) + t]) == f[..|f| - 1] + [Last(f) + t]
  {
    var f := [x] + g;
    assert f[..|f| - 1] == [x] + g[..|g| - 1];
  }

  /** Extending the last field commutes with growing the first field at its front. */
  lemma ExtendLastWiden(c: char, g: seq<string>, t: string)
    requires g != []
    ensures var r := g[..|g| - 1] + [Last(g) + t];
      var f := [[c] + g[0]] + g[1..];
      [[c] + r[0]] + r[1..] == f[..|f| - 1] + [Last(f) + t]
  {
    var r := g[..|g| - 1] + [Last(g) + t];
    var f := [[c] + g[0]] + g[1..];
    if |g| == 1 {
      assert r == [g[0] + t];
      assert [c] + (g[0] + t) == ([c] + g[0]) + t;
    } else {
      var n := |g|;
      assert g[..n - 1][1..] == g[1..n - 1];
      assert r[0] == g[0] && r[1..] == g[1..n - 1] + [Last(g) + t];
      assert g[1..][..n - 2] == g[1..n - 1];
      assert f[..|f| - 1] == [[c] + g[0]] + g[1..n - 1];
    }
  }

  /** Appending separator-free text extends the last field. */
  lemma {:induction false} SplitExtendLast(a: string, t: string)
    requires Sep !in t
    ensures var f := Split(a);
      Split(a + t) == f[..|f| - 1] + [Last(f) + t]
    decreases |a|
  {
    if a == [] {
      assert a + t == t;
      SplitNoSep(t);
    } else {
      var s := a + t;
      assert s[0] == a[0] && s[1..] == a[1..] + t;
      SplitExtendLast(a[1..], t);
      var g := Split(a[1..]);
      if a[0] == Sep {
        ExtendLastPrepend("", g, t);
      } else {
        ExtendLastWiden(a[0], g, t);
      }
    }
  }

  /** Python drops empty fields and "." fields when it parses a path. */
  predicate Dropped(field: string)
  {
    field == "" || field == "."
  }

  /** The fields that survive parsing, in order. */
  function Clean(fields: seq<string>): (r: seq<string>)
    ensures forall i :: 0 <= i < |r| ==> !Dropped(r[i])
    ensures forall x :: x in r ==> x in fields
    ensures |r| <= |fields|
  {
    if fields == [] then []
    else if Dropped(fields[0]) then Clean(fields[1..])
    else [fields[0]] + Clean(fields[1..])
  }

  lemma {:induction false} CleanAppend(a: seq<string>, b: seq<string>)
    ensures Clean(a + b) == Clean(a) + Clean(b)
    decreases |a|
  {
    if a == [] {
      assert a + b == b;
    } else {
      assert (a + b)[0] == a[0];
      assert (a + b)[1..] == a[1..] + b;
      CleanAppend(a[1..], b);
      if Dropped(a[0]) {
        assert Clean(a + b) == Clean(a[1..] + b);
        assert Clean(a) == Clean(a[1..]);
      } else {
        assert Clean(a + b) == [a[0]] + Clean(a[1..] + b);
        assert Clean(a) == [a[0]] + Clean(a[1..]);
        assert [a[0]] + (Clean(a[1..]) + Clean(b)) == ([a[0]] + Clean(a[1..])) + Clean(b);
      }
    }
  }

  /** Fields that are never dropped are all kept. */
  lemma {:induction false} CleanKeeps(fields: seq<string>)
    requires forall i :: 0 <= i < |fields| ==> !Dropped(fields[i])
    ensures Clean(fields) == fields
    decreases |fields|
  {
    if fields != [] {
      CleanKeeps(fields[1..]);
      assert [fields[0]] + fields[1..] == fields;
    }
  }

  /** `PurePosixPath.root`: exactly two leading slashes are kept as "//",
      one or three and more become "/". */
  function RootOf(s: string): (r: string)
  {
    if |s| >= 2 && s[0] == Sep && s[1] == Sep && (|s| == 2 || s[2] != Sep) then "//"
    else if |s| >= 1 && s[0] == Sep then "/"
    else ""
  }

  datatype PurePath = PurePath(root: string, segs: seq<string>)

  /** A parsed path: one of the three roots, and segments that are neither empty,
      nor ".", nor contain a separator. */
  predicate Valid(p: PurePath)
  {
    (p.root == "" || p.root == "/" || p.root == "//") &&
    forall i :: 0 <= i < |p.segs| ==> !Dropped(p.segs[i]) && Sep !in p.segs[i]
  }

  /** `PurePosixPath(s)`. */
  function Parse(s: string): (p: PurePath)
    ensures Valid(p)
  {
    var segs := Clean(Split(s));
    SplitFieldsNoSep(s);
    assert forall i :: 0 <= i < |segs| ==> segs[i] in Split(s);
    PurePath(RootOf(s), segs)
  }

  /** `str(path)`: the root followed by the joined segments, or "." for the empty path. */
  function Str(p: PurePath): string
  {
    if p.root == "" && p.segs == [] then "." else p.root + Join(p.segs)
  }

  /** `path.parts`: the root, when there is one, then the segments. */
  function Parts(p: PurePath): seq<string>
  {
    (if p.root == "" then [] else [p.root]) + p.segs
  }

  /** `path.name`: the last segment, or "" when there is none. */
  function Name(p: PurePath): string
  {
    if p.segs == [] then "" else Last(p.segs)
  }

  /** Python's `s.rfind(c)`: the index of the last `c` in `s`, or -1. */
  function RFind(s: string, c: char): (r: int)
    ensures -1 <= r < |s|
    ensures r >= 0 ==> s[r] == c
    ensures forall j :: r < j < |s| ==> s[j] != c
    decreases |s|
  {
    if s == [] then -1
    else if s[|s| - 1] == c then |s| - 1
    else RFind(s[..|s| - 1], c)
  }

  /** `PurePath.stem` of a file name: the name up to its last dot, provided that dot
      is neither the first nor the last character; otherwise the whole name. */
  function StemOf(name: string): (r: string)
    ensures |r| <= |name| && r == name[..|r|]
    ensures name != "" ==> r != ""
    ensures r == name || name[|r|] == '.'
  {
    var i := RFind(name, '.');
    if 0 < i < |name| - 1 then name[..i] else name
  }

  /** `PurePath.suffix` of a file name: what the stem leaves over. */
  function SuffixOf(name: string): (r: string)
    ensures StemOf(name) + r == name
    ensures r != "" ==> |r| >= 2 && r[0] == '.' && '.' !in r[1..]
  {
    var i := RFind(name, '.');
    if 0 < i < |name| - 1 then name[i..] else ""
  }

  function Stem(p: PurePath): string
  {
    StemOf(Name(p))
  }

  /** Only the final extension goes: a name ending in an extension (a dot followed
      by at least one dot-free character) longer than the extension loses exactly it. */
  lemma StemDropsExtension(name: string, ext: string)
    requires |ext| >= 2 && ext[0] == '.' && '.' !in ext[1..]
    requires |name| > |ext| && name[|name| - |ext|..] == ext
    ensures StemOf(name) == name[..|name| - |ext|]
    ensures SuffixOf(name) == ext
  {
    var k := |name| - |ext|;
    var i := RFind(name, '.');
    assert name[k] == ext[0];
    forall j | k < j < |name|
      ensures name[j] != '.'
    {
      assert name[j] == ext[j - k];
      assert ext[j - k] == ext[1..][j - k - 1];
    }
    assert i == k;
  }

  /** A leading separator adds nothing to the parsed segments. */
  lemma CleanSepPrefix(t: string)
    ensures Clean(Split([Sep] + t)) == Clean(Split(t))
  {
    SplitSepPrefix(t);
    assert ([""] + Split(t))[1..] == Split(t);
  }

  /** The joined segments of a parsed path parse back to those segments, with no root. */
  lemma ParseJoin(segs: seq<string>)
    requires forall i :: 0 <= i < |segs| ==> !Dropped(segs[i]) && Sep !in segs[i]
    ensures Clean(Split(Join(segs))) == segs
    ensures segs != [] ==> Join(segs) != [] && Join(segs)[0] != Sep
  {
    if segs == [] {
      assert Split("") == [""];
    } else {
      SplitJoin(segs);
      CleanKeeps(segs);
      JoinStartsWithFirst(segs);
      assert segs[0][0] in segs[0];
    }
  }

  /** A name that is nothing but an extension, like ".mp4", is its own stem. */
  lemma StemOfBareExtension(name: string)
    requires |name| >= 1 && name[0] == '.' && '.' !in name[1..]
    ensures StemOf(name) == name
  {
    var i := RFind(name, '.');
    forall j | 0 < j < |name| ensures name[j] != '.' {
      assert name[j] == name[1..][j - 1];
    }
    assert i == 0;
  }

  /** Printing a parsed path and parsing it again gives the same path. */
  lemma ParseStr(p: PurePath)
    requires Valid(p)
    ensures Parse(Str(p)) == p
  {
    ParseJoin(p.segs);
    if p.root == "" {
      ParseStrRelative(p);
    } else {
      ParseStrRooted(p);
    }
  }

  lemma ParseStrRelative(p: PurePath)
    requires Valid(p) && p.root == ""
    requires Clean(Split(Join(p.segs))) == p.segs
    requires p.segs != [] ==> Join(p.segs) != [] && Join(p.segs)[0] != Sep
    ensures Parse(Str(p)) == p
  {
    if p.segs == [] {
      SplitNoSep(".");
      assert Clean(Split(Str(p))) == Clean(["."]) == [];
    } else {
      assert Str(p) == Join(p.segs);
    }
  }

  lemma ParseStrRooted(p: PurePath)
    requires Valid(p) && p.root != ""
    requires Clean(Split(Join(p.segs))) == p.segs
    requires p.segs != [] ==> Join(p.segs) != [] && Join(p.segs)[0] != Sep
    ensures Parse(Str(p)) == p
  {
    var j := Join(p.segs);
    if p.root == "/" {
      assert Str(p) == [Sep] + j;
      CleanSepPrefix(j);
    } else {
      ParseStrDoubleSlash(p.segs, j);
    }
  }

  lemma ParseStrDoubleSlash(segs: seq<string>, j: string)
    requires j == Join(segs)
    requires Clean(Split(j)) == segs
    requires segs != [] ==> j != [] && j[0] != Sep
    ensures Parse("//" + j) == PurePath("//", segs)
  {
    assert "//" + j == [Sep] + ([Sep] + j);
    CleanSepPrefix([Sep] + j);
    CleanSepPrefix(j);
  }
}
