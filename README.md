# JetBrains Guide: video upload Lambda and league players, in Dafny

This project models two small pieces of logic from the JetBrains Guide repository.

**The video-on-demand Lambda** (`aws_video/vod_lambda.py`). An upload event names an S3
bucket and an object key such as `pwe/failed_tests.mp4`. `pathlib_parents` turns the key into
an extension-less CDN key, here `pwe/failed_tests`. The handler rejects keys that do not end
in `.mp4`. From the CDN key and the file's stem it then derives:

- the CloudFront invalidation path `/assets/pwe/failed_tests/HLS/*`;
- the HLS destination `s3://<dest>/assets/pwe/failed_tests/HLS/failed_tests`;
- the thumbnail destination `s3://<dest>/assets/pwe/failed_tests/Thumbnails/failed_tests`;
- the `assetID` user metadata, which is the stem.

The MediaConvert input URI comes from the bucket and the key instead: it is the printed
path `s3://<bucket>/<key>` with its collapsed `s3:/` scheme restored.

Python's `PurePosixPath` is modelled in module `PurePaths` (`pure_paths.dfy`). A path is a
root (`""`, `"/"` or `"//"`) and a sequence of segments. `Parse` follows POSIX parsing: it
splits on `/` and drops empty fields and `.` fields. Exactly two leading slashes give the root
`"//"`; one slash, or three or more, give `"/"`. `Str`, `Parts`, `Name` and `Stem` are
`str()`, `.parts`, `.name` and `.stem`; `StemOf` is the stem rule applied to a name string. Module `VodLambda` (`vod_lambda.dfy`) holds:

- `PathlibParents`;
- the pure plan `PlanJob`, which computes every derived string or the error raised;
- the class `JobSettings`, the three fields of `job.json` that the handler overwrites;
- the method `LambdaHandler`, which updates those fields in place, step by step as the
  handler does, and is proved to agree with `PlanJob`.

**The `Player` record** (`.../testing_exceptions/player.py`). A class `LaxLeague.Player<G>`
has the two names and a `seq<G>` of guardians. The type parameter `G` stands for `Guardian`.
The methods append and extend the list in place. `PrimaryGuardian` is the first guardian, if
there is one.

The code is followed where it behaves in unexpected ways:

- `pathlib_parents` runs before the `.mp4` guard (lines 47 and 53). So a key that names no
  file at all (`""`, `"/"`, `"."`) fails with an `IndexError` from `parts[-1]`, not with the
  `ValueError`.
- Only a root equal to `"/"` is dropped (line 14). A key that starts with exactly `//` and
  names a file keeps its root as a part, so its CDN key starts with three slashes
  (`ParentsKeepDoubleSlashRoot`). A key that is just `//` (or `//.`) names no file; its
  root is its only part, and `pathlib_parents` returns the empty string.
- A file named just `.mp4` passes the guard, and its stem is the whole name `.mp4`.

## Model

| member | source | states |
|---|---|---|
| PurePaths.Split | aws_video/vod_lambda.py:47 | models the `str.split("/")` that `PurePath` parsing applies to the key (also to the source path at line 27); the lemmas also use it to read the fields of the line 20 join. A string always has at least one `/`-separated field |
| PurePaths.SplitFieldsNoSep | aws_video/vod_lambda.py:20 | no field of a split contains `/` |
| PurePaths.Join | aws_video/vod_lambda.py:20 | models `"/".join`; JoinSplit and SplitJoin make it the inverse of Split, JoinAppend says how it distributes over concatenation, and JoinStartsWithFirst that it starts with its first part |
| PurePaths.JoinSplit | aws_video/vod_lambda.py:20 | `"/".join` of the fields of a string gives the string back |
| PurePaths.SplitJoin | aws_video/vod_lambda.py:20 | splitting the join of non-empty, slash-free parts gives exactly those parts back |
| PurePaths.SplitAppend | aws_video/vod_lambda.py:20 | the fields of `a/b` are the fields of `a` followed by those of `b` |
| PurePaths.JoinAppend | aws_video/vod_lambda.py:20 | joining two non-empty part lists puts exactly one `/` between their joins |
| PurePaths.SplitExtendLast | aws_video/vod_lambda.py:53 | appending slash-free text such as `.mp4` only extends the last field |
| PurePaths.Clean | aws_video/vod_lambda.py:47 | parsing keeps only non-empty, non-`.` fields, each one taken from the input |
| PurePaths.CleanAppend | aws_video/vod_lambda.py:27 | the cleaning of a concatenation is the concatenation of the cleanings |
| PurePaths.Parse | aws_video/vod_lambda.py:47 | a parsed path has one of the three roots and segments that are non-empty, not `.`, and free of `/` |
| PurePaths.ParseStr | aws_video/vod_lambda.py:70 | printing a parsed path with `str()` and parsing the result again gives the same path |
| PurePaths.RootOf | aws_video/vod_lambda.py:47 | models the root `PurePath(...)` finds; Parse's ensures limit it to `""`, `/` and `//`, and ParseStr shows the root survives printing and parsing again |
| PurePaths.Str | aws_video/vod_lambda.py:70 | models `str(path)`; ParseStr makes it a right inverse of Parse on valid paths, and FileInputCanonical gives its value on the S3 source path |
| PurePaths.Parts | aws_video/vod_lambda.py:16-18 | models `path.parts`; PathlibParents' ensures, ParentsSegments and ParentsKeepDoubleSlashRoot give what remains of it with a `/` and a `//` root |
| PurePaths.Name | aws_video/vod_lambda.py:19 | models `path.name`; KeyFileName shows it is the key's last field for every `.mp4` key, ending in `.mp4` |
| PurePaths.RFind | aws_video/vod_lambda.py:19 | the result is the index of the last occurrence of the character, or -1 when it does not occur |
| PurePaths.StemOf | aws_video/vod_lambda.py:19 | the stem is a prefix of the name, is non-empty for a non-empty name, and is either the whole name or stops at a dot |
| PurePaths.SuffixOf | aws_video/vod_lambda.py:19 | stem followed by suffix is the name; a non-empty suffix is one dot followed by at least one dot-free character |
| PurePaths.Stem | aws_video/vod_lambda.py:19 | models `path.stem` as StemOf of the name; StemNoSep, KeyStem and SourceStem state its properties |
| PurePaths.StemDropsExtension | aws_video/vod_lambda.py:46 | only the final extension is removed: `failed_tests.mp4` has the stem `failed_tests` |
| PurePaths.StemOfBareExtension | aws_video/vod_lambda.py:46 | a name that is only an extension, such as `.mp4`, is its own stem |
| VodLambda.PathlibParents | aws_video/vod_lambda.py:12-20 | raises `IndexError` exactly when no part is left after a `/` root is dropped, and gives `""` for a bare `//` root; ParentsSegments, ParentsKeepDoubleSlashRoot and JoinedEndsWithStem describe the joined result |
| VodLambda.EndsWithMp4 | aws_video/vod_lambda.py:53 | models the `.mp4` guard; PlanAcceptsOnlyMp4 shows a job is planned exactly for the keys it accepts, and KeyFileName that every such key names a file |
| VodLambda.SourcePath | aws_video/vod_lambda.py:27 | models `PurePath(f"s3://{bucket}/{key}")`; SourceSegments gives its root and segments, SourceStem its stem |
| VodLambda.FileInput | aws_video/vod_lambda.py:70 | models the input URI expression; FileInputCanonical shows it is `s3://` followed by the canonical bucket/key join |
| VodLambda.CdnPath | aws_video/vod_lambda.py:81 | models the invalidation path template; CdnPathFields gives its fields, and TemplatesCover and InvalidationCoversHls what it covers |
| VodLambda.HlsDestination | aws_video/vod_lambda.py:93 | models the HLS destination template; HlsDestinationFields gives its fields, and TemplatesCover puts it under the invalidation path |
| VodLambda.ThumbnailsDestination | aws_video/vod_lambda.py:100-101 | models the thumbnail destination template; ThumbnailsDestinationFields gives its fields, and DestinationsDifferInOneField relates it to the HLS destination |
| VodLambda.PlanJob | aws_video/vod_lambda.py:44-104 | models the handler's derivations in their order; PlanAcceptsOnlyMp4 gives when it succeeds and which error it raises, and PlanOfMp4Key, AssetIdIsStem, PlanKeepsKeySegments, DestinationLayout and InvalidationCoversHls what it computes |
| VodLambda.ParentsSegments | aws_video/vod_lambda.py:14-20 | for a relative key or one under `/`, the result has one segment per path segment; the segments before the last are unchanged and in order; the last is the stem; the result is non-empty and does not start with `/` |
| VodLambda.ParentsKeepDoubleSlashRoot | aws_video/vod_lambda.py:14-20 | a `//` root is not dropped: it becomes the first part of the join |
| VodLambda.JoinedEndsWithStem | aws_video/vod_lambda.py:19-20 | for any root, the last `/`-separated segment of the result is the stem |
| VodLambda.StemNoSep | aws_video/vod_lambda.py:19 | the stem of a parsed path contains no `/` |
| VodLambda.KeyFileName | aws_video/vod_lambda.py:47-54 | a key ending in `.mp4` always names a file: its last field is the path's name, and that name ends in `.mp4` |
| VodLambda.SourceSegments | aws_video/vod_lambda.py:27 | `PurePath("s3://bucket/key")` has no root; its segments are `s3:` followed by the segments of the bucket and then of the key |
| VodLambda.SourceStem | aws_video/vod_lambda.py:27-46 | the stem of the full S3 source path equals the stem of the key's own path |
| VodLambda.FileInputCanonical | aws_video/vod_lambda.py:70 | the MediaConvert input is `s3://` followed by bucket and key joined with single slashes, without empty or `.` segments |
| VodLambda.PlanOfMp4Key | aws_video/vod_lambda.py:44-104 | for a `.mp4` key the plan is the four templates applied to the CDN key and the key's stem |
| VodLambda.PlanAcceptsOnlyMp4 | aws_video/vod_lambda.py:47-54 | a job is planned if and only if the key ends in `.mp4`; otherwise nothing is computed, and the error is `IndexError` for a key naming no file and the `.mp4` `ValueError` for every other key |
| VodLambda.Mp4Stem | aws_video/vod_lambda.py:46 | the stem of a `.mp4` file name is the name without `.mp4`, except for the bare name `.mp4` |
| VodLambda.KeyStem | aws_video/vod_lambda.py:46-47 | the key's stem is the last segment of its CDN key, and is the file name without `.mp4` |
| VodLambda.AssetIdIsStem | aws_video/vod_lambda.py:46-58 | the job metadata has the single key `assetID`; its value is the last CDN-key segment, and it is the uploaded file's name without `.mp4` |
| VodLambda.PlanKeepsKeySegments | aws_video/vod_lambda.py:47 | for a key without a `//` root, the CDN key's segments are the key's directories, in order, followed by the asset ID |
| VodLambda.TemplatesCover | aws_video/vod_lambda.py:81-101 | the HLS destination is the invalidation path with its `*` replaced by the stem, under the destination bucket; the thumbnail destination lies outside that path (read as coverage on the assumption that the distribution's origin is the root of the destination bucket) |
| VodLambda.InvalidationCoversHls | aws_video/vod_lambda.py:81-101 | for every accepted key, the CloudFront invalidation covers the HLS output and not the thumbnails, on the same assumption about the distribution's origin |
| VodLambda.SplitFrame | aws_video/vod_lambda.py:81 | the fields of `d/x/joined/y/z` are the fields of `d`, then `x`, then the fields of `joined`, then `y` and `z` |
| VodLambda.CdnPathFields | aws_video/vod_lambda.py:81 | the invalidation path's fields are `""`, `assets`, the CDN key's fields, `HLS` and `*` |
| VodLambda.HlsDestinationFields | aws_video/vod_lambda.py:93 | the HLS destination's fields are the destination's fields, `assets`, the CDN key's fields, `HLS` and the stem |
| VodLambda.ThumbnailsDestinationFields | aws_video/vod_lambda.py:100-101 | the same layout as the HLS destination, with `Thumbnails` in place of `HLS` |
| VodLambda.DestinationLayout | aws_video/vod_lambda.py:76-101 | for every accepted key, the invalidation path and both destinations have this layout, with the asset ID as the stem |
| VodLambda.DestinationsDifferInOneField | aws_video/vod_lambda.py:93-101 | the two destinations have the same number of fields and differ in exactly one field, `HLS` against `Thumbnails` |
| VodLambda.JobSettings.constructor | aws_video/vod_lambda.py:60-62 | the settings start with the values loaded from `job.json` |
| VodLambda.LambdaHandler | aws_video/vod_lambda.py:44-104 | it succeeds exactly when the plan does. A rejected key leaves the settings untouched. An accepted key gets the input and both destinations written into the settings and returns one invalidation path for distribution `E1166YMX8A3BF5` and the `assetID` metadata |
| LaxLeague.Player.constructor | sites/pycharm-guide/demos/tutorials/visual_pytest/testing_exceptions/player.py:11-13 | a new player has the given names, no guardians and no primary guardian |
| LaxLeague.Player.WithGuardians | sites/pycharm-guide/demos/tutorials/visual_pytest/testing_exceptions/player.py:11-13 | a player built with a guardian list holds exactly that list |
| LaxLeague.Player.AddGuardian | sites/pycharm-guide/demos/tutorials/visual_pytest/testing_exceptions/player.py:15-16 | the list grows by one, with the new guardian last and the earlier ones in their places. The names do not change. The primary guardian does not change, unless the list was empty, in which case it becomes the new guardian |
| LaxLeague.Player.AddGuardians | sites/pycharm-guide/demos/tutorials/visual_pytest/testing_exceptions/player.py:18-19 | the new list is the old one followed by the given guardians, so it grows by their number. The names do not change. A primary guardian that already exists stays the same |
| LaxLeague.Player.PrimaryGuardian | sites/pycharm-guide/demos/tutorials/visual_pytest/testing_exceptions/player.py:21-23 | `None` exactly when there are no guardians; otherwise the first guardian |
| LaxLeague.FirstOfStable | sites/pycharm-guide/demos/tutorials/visual_pytest/testing_exceptions/player.py:19-23 | extending a non-empty list never changes its first element |

## Left out

- The boto3 calls are left out: the MediaConvert client, `describe_endpoints`, `create_job` and CloudFront `create_invalidation`. These are network calls to foreign services. The model stops at the values handed to them (`Submission`, `JobSettings`).
- Reading `job.json` is left out; the loaded settings are the `JobSettings` object passed in. The `os.environ` lookups are left out too; the destination bucket is a parameter, and the region and role are not modelled.
- The `print` logging and the `time.time()` caller reference are side effects and depend on the clock, so they are left out.
- The `finally` block that returns the response envelope is left out. It answers with `statusCode` 200 on success, and with 500 when a failure inside the `try` block is swallowed. The two errors modelled here are raised before that block.
- `get_s3_source_key_path` is left out beyond its result. The event's bucket name and key are parameters.
- The `VideoRecord` dataclass is left out, because nothing uses it.
- Python's parsing of Windows paths is left out. The Lambda runs on Linux, so `PurePath` is `PurePosixPath`.
- PurePaths.StemOf: follows the stem rule of CPython up to 3.13 (the last dot, when it is neither the first nor the last character of the name). From 3.14 on the rule differs in two cases: for a name ending in a dot, and for a name whose stem would be made only of dots. In the second case, an accepted key such as `v/..mp4` has the stem `.` here but keeps `..mp4` as its stem under 3.14.
- LaxLeague.Player.WithGuardians: keeps a copy of the given list. In Python the dataclass shares the caller's list, so later appends are visible to the caller; this aliasing is not modelled.
- The CloudFront distribution's origin is not shown by the handler. TemplatesCover and InvalidationCoversHls relate CloudFront paths to S3 destinations only under the assumption that the distribution serves the destination bucket from its root.
- `Guardian`'s own definition is not part of this model; `Player` is generic in it.
- The two TSX pages (`sites/intellij-guide/src/pages/index.tsx`, `src/components/navbar/NavbarStart.tsx`) are static markup over an external theme, with no behaviour to verify.
