/** The path and string logic of the video-on-demand Lambda: an uploaded object key
    becomes an extension-less CDN key, and from it the CloudFront invalidation path,
    the HLS and thumbnail destinations and the MediaConvert asset ID are derived. */
module VodLambda {
  import opened Wrappers
  import opened PurePaths

  /** What the handler raises before any AWS call is made. */
  datatype Error =
    | IndexError          // `parts[-1]` on an empty list in pathlib_parents
    | NotMp4(key: string) // the ValueError of the `.mp4` guard

  const Mp4: string := ".mp4"

  /** `pathlib_parents`: the parts of the path without a "/" root, the last one
      replaced by the stem, joined with "/". It fails, with the IndexError of
      `parts[-1]`, exactly when no part is left once a "/" root is dropped; a bare "//"
      root is its own last part and gives the empty string. */
  function PathlibParents(p: PurePath): (r: Result<string, Error>)
    ensures r.Err? <==> p.segs == [] && (p.root == "" || p.root == "/")
    ensures r.Err? ==> r.error == IndexError
    ensures p.root == "//" && p.segs == [] ==> r == Ok("")
  {
    var parts := if p.root == "/" then Parts(p)[1..] else Parts(p);
    if parts == [] then Err(IndexError)
    else Ok(Join(parts[..|parts| - 1] + [Stem(p)]))
  }

  /** For a relative path or one under "/", the result has one "/"-separated segment per
      path segment: the directories unchanged and in order, then the stem of the file
      name. It is never empty and never starts with "/". */
  lemma ParentsSegments(p: PurePath)
    requires Valid(p) && p.segs != [] && p.root != "//"
    ensures PathlibParents(p).Ok?
    ensures var joined := PathlibParents(p).value;
      Split(joined) == p.segs[..|p.segs| - 1] + [Stem(p)] &&
      joined != [] && joined[0] != Sep
  {
    var n := |p.segs|;
    var parts := p.segs[..n - 1] + [Stem(p)];
    if p.root == "/" {
      assert Parts(p)[1..] == p.segs;
    } else {
      assert Parts(p) == p.segs;
    }
    var joined := Join(parts);
    assert PathlibParents(p) == Ok(joined);
    var stem := Stem(p);
    assert Name(p) == Last(p.segs);
    assert stem != "" && Sep !in stem by {
      assert Sep !in Name(p);
      assert stem == Name(p)[..|stem|];
      assert forall c :: c in stem ==> c in Name(p);
    }
    forall i | 0 <= i < |parts|
      ensures Sep !in parts[i] && parts[i] != ""
    {
      if i < n - 1 { assert parts[i] == p.segs[i]; }
    }
    SplitJoin(parts);
    JoinStartsWithFirst(parts);
    assert parts[0][0] in parts[0];
  }

  /** Only a single "/" root is dropped: under a "//" root the root stays the first part,
      so the result starts with three slashes. */
  lemma ParentsKeepDoubleSlashRoot(p: PurePath)
    requires p.root == "//" && p.segs != []
    ensures PathlibParents(p) == Ok("//" + [Sep] + Join(p.segs[..|p.segs| - 1] + [Stem(p)]))
  {
    var parts := Parts(p);
    assert parts == ["//"] + p.segs;
    var rest := p.segs[..|p.segs| - 1] + [Stem(p)];
    assert parts[..|parts| - 1] + [Stem(p)] == ["//"] + rest;
    JoinAppend(["//"], rest);
  }

  predicate EndsWithMp4(key: string)
  {
    |key| >= 4 && key[|key| - 4..] == Mp4
  }

  /** A key ending in ".mp4" always names a file: its last field survives parsing and
      is the path's name, and that name ends in ".mp4". */
  lemma KeyFileName(key: string)
    requires EndsWithMp4(key)
    ensures Parse(key).segs != []
    ensures Name(Parse(key)) == Last(Split(key))
    ensures var name := Name(Parse(key)); |name| >= 4 && name[|name| - 4..] == Mp4
  {
    var a := key[..|key| - 4];
    assert key == a + Mp4;
    SplitExtendLast(a, Mp4);
    var f := Split(a);
    var x := Last(f) + Mp4;
    assert Split(key) == f[..|f| - 1] + [x];
    assert x[|x| - 4..] == Mp4;
    CleanAppend(f[..|f| - 1], [x]);
    assert Clean([x]) == [x];
  }

  /** `PurePath(f"s3://{bucket}/{key}")`. */
  function SourcePath(bucket: string, key: string): PurePath
  {
    Parse("s3://" + bucket + "/" + key)
  }

  /** "<scheme>//<rest>" parses to the scheme followed by the segments of rest. */
  lemma SchemeSegments(scheme: string, rest: string)
    requires Sep !in scheme && !Dropped(scheme)
    ensures Clean(Split(scheme + "//" + rest)) == [scheme] + Clean(Split(rest))
  {
    assert scheme + "//" + rest == scheme + [Sep] + ("" + [Sep] + rest);
    SplitAppend(scheme, "" + [Sep] + rest);
    SplitAppend("", rest);
    SplitNoSep(scheme);
    CleanAppend([scheme], [""] + Split(rest));
    CleanAppend([""], Split(rest));
  }

  /** Parsing "<a>/<b>" gives the segments of a, then those of b. */
  lemma CleanSplitAppend(a: string, b: string)
    ensures Clean(Split(a + "/" + b)) == Clean(Split(a)) + Clean(Split(b))
  {
    SplitAppend(a, b);
    CleanAppend(Split(a), Split(b));
  }

  /** The source path is the "s3:" segment followed by the segments of bucket and key. */
  lemma SourceSegments(bucket: string, key: string)
    ensures SourcePath(bucket, key).root == ""
    ensures SourcePath(bucket, key).segs == ["s3:"] + Clean(Split(bucket + "/" + key))
    ensures Clean(Split(bucket + "/" + key)) == Clean(Split(bucket)) + Clean(Split(key))
  {
    var bk := bucket + "/" + key;
    assert "s3://" + bucket + "/" + key == "s3:" + "//" + bk;
    SchemeSegments("s3:", bk);
    CleanSplitAppend(bucket, key);
  }

  /** The source file's stem is the stem of the key's own path. */
  lemma SourceStem(bucket: string, key: string)
    requires Parse(key).segs != []
    ensures Stem(SourcePath(bucket, key)) == Stem(Parse(key))
  {
    SourceSegments(bucket, key);
    var tail := Clean(Split(key));
    var segs := ["s3:"] + Clean(Split(bucket)) + tail;
    assert Last(segs) == Last(tail);
  }

  /** `"s3://" + str(s3_source_path)[4:]`, cutting the "s3:/" that printing the path leaves. */
  function FileInput(source: PurePath): string
  {
    var s := Str(source);
    "s3://" + (if |s| >= 4 then s[4..] else "")
  }

  /** The MediaConvert input is the canonical URI of the uploaded object: bucket and key
      joined with single slashes, empty and "." segments gone. */
  lemma FileInputCanonical(bucket: string, key: string)
    ensures FileInput(SourcePath(bucket, key)) == "s3://" + Join(Clean(Split(bucket + "/" + key)))
  {
    SourceSegments(bucket, key);
    var c := Clean(Split(bucket + "/" + key));
    var s := Str(SourcePath(bucket, key));
    assert s == Join(["s3:"] + c);
    if c != [] {
      JoinAppend(["s3:"], c);
      assert s == "s3:/" + Join(c);
    }
  }

  function CdnPath(joined: string): string
  {
    "/assets/" + joined + "/HLS/*"
  }

  function HlsDestination(destinationS3: string, joined: string, basename: string): string
  {
    destinationS3 + "/assets/" + joined + "/HLS/" + basename
  }

  function ThumbnailsDestination(destinationS3: string, joined: string, basename: string): string
  {
    destinationS3 + "/assets/" + joined + "/Thumbnails/" + basename
  }

  /** What one accepted upload produces before the AWS calls. */
  datatype Job = Job(
    fileInput: string,               // Inputs[0].FileInput of the job settings
    cdnPath: string,                 // the one path of the CloudFront invalidation
    hlsDestination: string,          // output group 0, HLS
    thumbnailsDestination: string,   // output group 1, file group
    metadata: map<string, string>)   // the job's UserMetadata

  /** The handler's derivations, in the handler's order: stem, pathlib_parents, the
      ".mp4" guard, then the strings. */
  function PlanJob(bucket: string, key: string, destinationBucket: string): Result<Job, Error>
  {
    var source := SourcePath(bucket, key);
    var basename := Stem(source);
    match PathlibParents(Parse(key))
    case Err(e) => Err(e)
    case Ok(joined) =>
      if !EndsWithMp4(key) then Err(NotMp4(key))
      else
        var destinationS3 := "s3://" + destinationBucket;
        Ok(Job(
          FileInput(source),
          CdnPath(joined),
          HlsDestination(destinationS3, joined, basename),
          ThumbnailsDestination(destinationS3, joined, basename),
          map["assetID" := basename]))
  }

  /** The stem of a parsed path never contains a separator. */
  lemma StemNoSep(p: PurePath)
    requires Valid(p)
    ensures Sep !in Stem(p)
  {
    var stem := Stem(p);
    if p.segs != [] {
      assert Name(p) == Last(p.segs);
      assert Sep !in Name(p);
    }
    assert forall c :: c in stem ==> c in Name(p);
  }

  /** For a ".mp4" key the plan is the templates applied to the CDN key and the stem
      of the key's file name. */
  lemma PlanOfMp4Key(bucket: string, key: string, destinationBucket: string)
    requires EndsWithMp4(key)
    ensures PathlibParents(Parse(key)).Ok?
    ensures var joined := PathlibParents(Parse(key)).value;
      var basename := Stem(Parse(key));
      var d := "s3://" + destinationBucket;
      PlanJob(bucket, key, destinationBucket) == Ok(Job(
        FileInput(SourcePath(bucket, key)),
        CdnPath(joined),
        HlsDestination(d, joined, basename),
        ThumbnailsDestination(d, joined, basename),
        map["assetID" := basename]))
  {
    KeyFileName(key);
    SourceStem(bucket, key);
  }

  /** A job is planned exactly for keys ending in ".mp4". A key that names no file at all
      fails in pathlib_parents first; any other key fails the ".mp4" guard. */
  lemma PlanAcceptsOnlyMp4(bucket: string, key: string, destinationBucket: string)
    ensures PlanJob(bucket, key, destinationBucket).Ok? <==> EndsWithMp4(key)
    ensures !EndsWithMp4(key) ==>
      PlanJob(bucket, key, destinationBucket).error ==
        if Parse(key).segs == [] && RootOf(key) != "//" then IndexError else NotMp4(key)
  {
    if EndsWithMp4(key) {
      KeyFileName(key);
    }
  }

  /** The last field of a join is its last part, when that part has no separator. */
  lemma JoinLastField(init: seq<string>, last: string)
    requires Sep !in last
    ensures Last(Split(Join(init + [last]))) == last
  {
    SplitNoSep(last);
    if init == [] {
      assert init + [last] == [last];
    } else {
      JoinAppend(init, [last]);
      SplitAppend(Join(init), last);
    }
  }

  /** Whatever the root, the last "/"-separated segment of pathlib_parents is the stem. */
  lemma JoinedEndsWithStem(p: PurePath)
    requires Valid(p) && p.segs != []
    ensures PathlibParents(p).Ok?
    ensures Last(Split(PathlibParents(p).value)) == Stem(p)
  {
    var parts := if p.root == "/" then Parts(p)[1..] else Parts(p);
    assert parts != [];
    StemNoSep(p);
    JoinLastField(parts[..|parts| - 1], Stem(p));
  }

  /** The stem of a ".mp4" key's file name is the last segment of its CDN key, and is the
      name without ".mp4" unless the name is just ".mp4". */
  lemma KeyStem(key: string)
    requires EndsWithMp4(key)
    ensures PathlibParents(Parse(key)).Ok?
    ensures var stem := Stem(Parse(key));
      var name := Name(Parse(key));
      stem == Last(Split(PathlibParents(Parse(key)).value)) &&
      (name != Mp4 ==> stem + Mp4 == name) &&
      (name == Mp4 ==> stem == Mp4)
  {
    KeyFileName(key);
    JoinedEndsWithStem(Parse(key));
    Mp4Stem(Name(Parse(key)));
  }

  /** On success the asset ID is the last segment of the CDN key, and it is the uploaded
      file's name without ".mp4" (a file named just ".mp4" keeps its name, having no suffix). */
  lemma AssetIdIsStem(bucket: string, key: string, destinationBucket: string)
    requires EndsWithMp4(key)
    ensures PlanJob(bucket, key, destinationBucket).Ok?
    ensures var job := PlanJob(bucket, key, destinationBucket).value;
      var joined := PathlibParents(Parse(key)).value;
      var name := Name(Parse(key));
      job.metadata.Keys == {"assetID"} &&
      job.metadata["assetID"] == Last(Split(joined)) &&
      (name != Mp4 ==> job.metadata["assetID"] + Mp4 == name) &&
      (name == Mp4 ==> job.metadata["assetID"] == Mp4)
  {
    PlanOfMp4Key(bucket, key, destinationBucket);
    KeyStem(key);
  }

  /** The stem of a ".mp4" file name is the name without ".mp4", unless the name is
      ".mp4" itself, a hidden file without extension. */
  lemma Mp4Stem(name: string)
    requires |name| >= 4 && name[|name| - 4..] == Mp4
    ensures name != Mp4 ==> StemOf(name) + Mp4 == name
    ensures name == Mp4 ==> StemOf(name) == Mp4
  {
    var ext := Mp4;
    assert |ext| == 4 && ext[0] == '.' && '.' !in ext[1..];
    if name != ext {
      StemDropsExtension(name, ext);
      assert name == name[..|name| - 4] + ext;
    } else {
      StemOfBareExtension(ext);
    }
  }

  /** The key's own segments reach the CDN key unchanged when the key is relative or under
      a single "/" root. */
  lemma PlanKeepsKeySegments(bucket: string, key: string, destinationBucket: string)
    requires EndsWithMp4(key) && RootOf(key) != "//"
    ensures PathlibParents(Parse(key)).Ok? && PlanJob(bucket, key, destinationBucket).Ok?
    ensures var segs := Parse(key).segs;
      var joined := PathlibParents(Parse(key)).value;
      segs != [] &&
      Split(joined) == segs[..|segs| - 1] + [PlanJob(bucket, key, destinationBucket).value.metadata["assetID"]]
  {
    PlanOfMp4Key(bucket, key, destinationBucket);
    KeyFileName(key);
    ParentsSegments(Parse(key));
  }

  /** The HLS destination is the invalidation pattern, with its wildcard replaced by the
      stem, inside the destination bucket; the thumbnail destination is outside it.
      Prefixing `d` to a CloudFront path relates the two only on the assumption that the
      distribution's origin is the root of the destination bucket; the handler does not
      show the distribution's configuration. */
  lemma TemplatesCover(d: string, joined: string, basename: string)
    ensures var cdn := CdnPath(joined);
      var covered := d + cdn[..|cdn| - 1];
      cdn[|cdn| - 1] == '*' &&
      HlsDestination(d, joined, basename) == covered + basename &&
      !(covered <= ThumbnailsDestination(d, joined, basename))
  {
    var cdn := CdnPath(joined);
    var prefix := d + "/assets/" + joined + "/";
    assert cdn[..|cdn| - 1] == "/assets/" + joined + "/HLS/";
    var covered := d + cdn[..|cdn| - 1];
    assert covered == prefix + "HLS/";
    var k := |prefix|;
    assert covered[k] == 'H';
    assert ThumbnailsDestination(d, joined, basename) == prefix + ("Thumbnails/" + basename);
    assert ThumbnailsDestination(d, joined, basename)[k] == 'T';
  }

  /** The invalidation path ends in a wildcard, and the HLS output is written exactly where
      that wildcard points, in the destination bucket, under the asset ID; the thumbnails
      are outside it, so they are not invalidated. As for TemplatesCover, this reads as
      coverage only if the distribution serves the destination bucket from its root. */
  lemma InvalidationCoversHls(bucket: string, key: string, destinationBucket: string)
    requires EndsWithMp4(key)
    ensures PlanJob(bucket, key, destinationBucket).Ok?
    ensures var job := PlanJob(bucket, key, destinationBucket).value;
      var cdn := job.cdnPath;
      var covered := "s3://" + destinationBucket + cdn[..|cdn| - 1];
      |cdn| >= 1 && cdn[|cdn| - 1] == '*' &&
      job.hlsDestination == covered + job.metadata["assetID"] &&
      !(covered <= job.thumbnailsDestination)
  {
    PlanOfMp4Key(bucket, key, destinationBucket);
    TemplatesCover("s3://" + destinationBucket, PathlibParents(Parse(key)).value, Stem(Parse(key)));
  }

  /** The fields of "<a>/<x>/<b>" for a separator-free x. */
  lemma SplitFieldBetween(a: string, x: string, b: string)
    requires Sep !in x
    ensures Split(a + ([Sep] + x + [Sep]) + b) == Split(a) + [x] + Split(b)
  {
    assert a + ([Sep] + x + [Sep]) + b == a + [Sep] + (x + [Sep] + b);
    SplitNoSep(x);
    SplitAppend(x, b);
    SplitAppend(a, x + [Sep] + b);
  }

  /** The fields of "<d>/<x>/<joined>/<y>/<z>" for separator-free x, y and z. */
  lemma SplitFrame(d: string, x: string, joined: string, y: string, z: string)
    requires Sep !in x && Sep !in y && Sep !in z
    ensures Split(d + ([Sep] + x + [Sep]) + joined + ([Sep] + y + [Sep]) + z)
         == Split(d) + [x] + Split(joined) + [y, z]
  {
    SplitFieldBetween(d, x, joined);
    SplitFieldBetween(d + ([Sep] + x + [Sep]) + joined, y, z);
    SplitNoSep(z);
  }

  lemma CdnPathFields(joined: string)
    ensures Split(CdnPath(joined)) == ["", "assets"] + Split(joined) + ["HLS", "*"]
  {
    var assets: string := "/assets/";
    var hls: string := "/HLS/";
    assert assets == [Sep] + "assets" + [Sep];
    assert hls == [Sep] + "HLS" + [Sep];
    assert CdnPath(joined) == "" + assets + joined + hls + "*";
    SplitFrame("", "assets", joined, "HLS", "*");
  }

  lemma HlsDestinationFields(d: string, joined: string, basename: string)
    requires Sep !in basename
    ensures Split(HlsDestination(d, joined, basename)) == Split(d) + ["assets"] + Split(joined) + ["HLS", basename]
  {
    var assets: string := "/assets/";
    var hls: string := "/HLS/";
    assert assets == [Sep] + "assets" + [Sep];
    assert hls == [Sep] + "HLS" + [Sep];
    SplitFrame(d, "assets", joined, "HLS", basename);
  }

  lemma ThumbnailsDestinationFields(d: string, joined: string, basename: string)
    requires Sep !in basename
    ensures Split(ThumbnailsDestination(d, joined, basename)) == Split(d) + ["assets"] + Split(joined) + ["Thumbnails", basename]
  {
    var assets: string := "/assets/";
    var thumbnails: string := "/Thumbnails/";
    assert assets == [Sep] + "assets" + [Sep];
    assert thumbnails == [Sep] + "Thumbnails" + [Sep];
    SplitFrame(d, "assets", joined, "Thumbnails", basename);
  }

  /** Field by field, the CDN path and the two destinations are the CDN key framed by fixed
      segments; the two destinations differ only in their "HLS" and "Thumbnails" segment. */
  lemma DestinationLayout(bucket: string, key: string, destinationBucket: string)
    requires EndsWithMp4(key)
    ensures PlanJob(bucket, key, destinationBucket).Ok? && PathlibParents(Parse(key)).Ok?
    ensures var job := PlanJob(bucket, key, destinationBucket).value;
      var joined := PathlibParents(Parse(key)).value;
      var asset := job.metadata["assetID"];
      var bucketFields := Split("s3://" + destinationBucket);
      Split(job.cdnPath) == ["", "assets"] + Split(joined) + ["HLS", "*"] &&
      Split(job.hlsDestination) == bucketFields + ["assets"] + Split(joined) + ["HLS", asset] &&
      Split(job.thumbnailsDestination) == bucketFields + ["assets"] + Split(joined) + ["Thumbnails", asset]
  {
    PlanOfMp4Key(bucket, key, destinationBucket);
    StemNoSep(Parse(key));
    var joined := PathlibParents(Parse(key)).value;
    CdnPathFields(joined);
    HlsDestinationFields("s3://" + destinationBucket, joined, Stem(Parse(key)));
    ThumbnailsDestinationFields("s3://" + destinationBucket, joined, Stem(Parse(key)));
  }

  /** The HLS and thumbnail destinations have the same number of fields and differ in
      exactly one of them. */
  lemma DestinationsDifferInOneField(bucket: string, key: string, destinationBucket: string)
    requires EndsWithMp4(key)
    ensures PlanJob(bucket, key, destinationBucket).Ok?
    ensures var job := PlanJob(bucket, key, destinationBucket).value;
      var hls := Split(job.hlsDestination);
      var thumbs := Split(job.thumbnailsDestination);
      var k := |hls| - 2;
      |hls| == |thumbs| && |hls| >= 2 && hls[k] == "HLS" && thumbs[k] == "Thumbnails" &&
      forall i :: 0 <= i < |hls| && i != k ==> hls[i] == thumbs[i]
  {
    DestinationLayout(bucket, key, destinationBucket);
  }

  /** The mutable part of the MediaConvert job settings read from job.json. */
  class JobSettings {
    var fileInput: string              // Inputs[0].FileInput
    var hlsDestination: string         // OutputGroups[0].OutputGroupSettings.HlsGroupSettings.Destination
    var thumbnailsDestination: string  // OutputGroups[1].OutputGroupSettings.FileGroupSettings.Destination

    constructor (fileInput: string, hlsDestination: string, thumbnailsDestination: string)
      ensures this.fileInput == fileInput
      ensures this.hlsDestination == hlsDestination
      ensures this.thumbnailsDestination == thumbnailsDestination
    {
      this.fileInput := fileInput;
      this.hlsDestination := hlsDestination;
      this.thumbnailsDestination := thumbnailsDestination;
    }
  }

  /** The CloudFront distribution whose cache is invalidated. */
  const DistributionId: string := "E1166YMX8A3BF5"

  /** What the handler hands to CloudFront and MediaConvert besides the settings. */
  datatype Submission = Submission(
    distributionId: string,
    invalidationPaths: seq<string>,  // the invalidation batch's Items
    metadata: map<string, string>)   // the job's UserMetadata

  /** `lambda_handler` up to the AWS calls: the settings loaded from job.json are updated
      in place, and the invalidation path and job metadata are returned. A rejected key
      leaves the settings untouched. */
  method LambdaHandler(bucket: string, key: string, destinationBucket: string, settings: JobSettings)
    returns (r: Result<Submission, Error>)
    modifies settings
    ensures r.Ok? <==> PlanJob(bucket, key, destinationBucket).Ok?
    ensures r.Err? ==> r.error == PlanJob(bucket, key, destinationBucket).error && unchanged(settings)
    ensures r.Ok? ==>
      var job := PlanJob(bucket, key, destinationBucket).value;
      r.value == Submission(DistributionId, [job.cdnPath], job.metadata) &&
      settings.fileInput == job.fileInput &&
      settings.hlsDestination == job.hlsDestination &&
      settings.thumbnailsDestination == job.thumbnailsDestination
  {
    var source := SourcePath(bucket, key);
    var basename := Stem(source);
    var parents := PathlibParents(Parse(key));
    if parents.Err? {
      return Err(parents.error);
    }
    var joined := parents.value;
    if !EndsWithMp4(key) {
      return Err(NotMp4(key));
    }
    var metadata := map["assetID" := basename];
    settings.fileInput := FileInput(source);
    var destinationS3 := "s3://" + destinationBucket;
    var cdnPath := CdnPath(joined);
    settings.hlsDestination := HlsDestination(destinationS3, joined, basename);
    settings.thumbnailsDestination := ThumbnailsDestination(destinationS3, joined, basename);
    r := Ok(Submission(DistributionId, [cdnPath], metadata));
  }
}
