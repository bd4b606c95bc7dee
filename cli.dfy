/** The settings derivation, the video-file search and the batch bookkeeping of cli.py.
    The file system is given: each command-line path arrives already classified, with
    what listing or globbing it yields, and each compression's outcome is an input. */
module Cli {

  import opened Wrappers
  import opened Text
  import opened Paths
  import opened CompressorSettings

  // ---------------------------------------------------------------------------
  // --resolution

  /** `width, height = map(int, text.split("x"))`: exactly two fields, both integers;
      anything else is the ValueError the CLI reports. */
  function ParseResolution(text: string): (r: Result<(int, int), string>)
    ensures r.Ok? <==> |Split(text, 'x')| == 2 && ParseInt(Split(text, 'x')[0]).Some? && ParseInt(Split(text, 'x')[1]).Some?
    ensures r.Ok? ==> r.value == (ParseInt(Split(text, 'x')[0]).value, ParseInt(Split(text, 'x')[1]).value)
  {
    var parts := Split(text, 'x');
    if |parts| != 2 then Err("Invalid resolution format: " + text)
    else
      match (ParseInt(parts[0]), ParseInt(parts[1]))
      case (Some(w), Some(h)) => Ok((w, h))
      case _ => Err("Invalid resolution format: " + text)
  }

  /** Any `WxH` written from two integers reads back as those integers; in particular a
      probed resolution does. */
  lemma ResolutionRoundTrip(w: int, h: int)
    ensures ParseResolution(IntToString(w) + "x" + IntToString(h)) == Ok((w, h))
  {
    IntToStringNoX(w);
    IntToStringNoX(h);
    SplitTwo(IntToString(w), IntToString(h), 'x');
    assert IntToString(w) + "x" + IntToString(h) == IntToString(w) + ['x'] + IntToString(h);
    ParseIntToString(w);
    ParseIntToString(h);
  }

  lemma ProbedResolutionReads(v: VideoInfo)
    ensures ParseResolution(Resolution(v)) == Ok((v.width, v.height))
  {
    ResolutionRoundTrip(v.width, v.height);
  }

  /** A value with three fields is refused. */
  lemma ThreeFieldsRefused(a: string, b: string, c: string)
    requires 'x' !in a && 'x' !in b && 'x' !in c
    ensures ParseResolution(a + "x" + b + "x" + c).Err?
  {
    SplitTwo(b, c, 'x');
    assert a + "x" + b + "x" + c == a + ['x'] + (b + ['x'] + c);
    SplitCons(a, b + ['x'] + c, 'x');
  }

  // ---------------------------------------------------------------------------
  // create_compression_settings

  /** The options `create_compression_settings` reads; an option not given is None. */
  datatype CliArgs = CliArgs(
    preset: string,
    crf: Option<int>,
    presetSpeed: Option<string>,
    videoCodec: Option<string>,
    audioCodec: Option<string>,
    audioBitrate: Option<string>,
    resolution: Option<string>,
    twoPass: bool)

  /** A string option counts only when it is given and not empty. */
  predicate Given(o: Option<string>) { o.Some? && o.value != "" }

  function BaseSettings(preset: string): Settings
  {
    if preset in Presets() then Presets()[preset] else Default()
  }

  /** The fields of `s` are those of `base` with each given option written over it. */
  predicate Overrides(args: CliArgs, base: Settings, s: Settings)
    requires Given(args.resolution) ==> ParseResolution(args.resolution.value).Ok?
  {
    s.crf == (if args.crf.Some? then args.crf.value else base.crf)
    && s.preset == (if Given(args.presetSpeed) then args.presetSpeed.value else base.preset)
    && s.videoCodec == (if Given(args.videoCodec) then args.videoCodec.value else base.videoCodec)
    && s.audioCodec == (if Given(args.audioCodec) then args.audioCodec.value else base.audioCodec)
    && s.audioBitrate == (if Given(args.audioBitrate) then args.audioBitrate.value else base.audioBitrate)
    && (s.width, s.height) ==
         (if Given(args.resolution)
          then (Some(ParseResolution(args.resolution.value).value.0), Some(ParseResolution(args.resolution.value).value.1))
          else (base.width, base.height))
    && s.twoPass == (base.twoPass || args.twoPass)
    && s.scaleFilter == base.scaleFilter && s.targetSize == base.targetSize
    && s.maxBitrate == base.maxBitrate && s.containerFormat == base.containerFormat
  }

  /** `create_compression_settings(args)`: start from the named preset (the defaults
      for an unknown name) and overwrite each field whose option was given; a
      malformed `--resolution` is an error. */
  method CreateCompressionSettings(args: CliArgs) returns (r: Result<Settings, string>)
    ensures r.Err? <==> Given(args.resolution) && ParseResolution(args.resolution.value).Err?
    ensures r.Ok? ==> Overrides(args, BaseSettings(args.preset), r.value)
  {
    var base := BaseSettings(args.preset);
    var settings := ApplyOptions(args, base);
    if Given(args.resolution) {
      var parsed := ParseResolution(args.resolution.value);
      if parsed.Err? {
        return Err(parsed.error);
      }
      settings := settings.(width := Some(parsed.value.0), height := Some(parsed.value.1));
    }
    if args.twoPass {
      settings := settings.(twoPass := true);
    }
    return Ok(settings);
  }

  /** The overrides that cannot fail: CRF, speed preset, codecs and audio bitrate. */
  method ApplyOptions(args: CliArgs, base: Settings) returns (settings: Settings)
    ensures settings == base.(
      crf := if args.crf.Some? then args.crf.value else base.crf,
      preset := if Given(args.presetSpeed) then args.presetSpeed.value else base.preset,
      videoCodec := if Given(args.videoCodec) then args.videoCodec.value else base.videoCodec,
      audioCodec := if Given(args.audioCodec) then args.audioCodec.value else base.audioCodec,
      audioBitrate := if Given(args.audioBitrate) then args.audioBitrate.value else base.audioBitrate)
  {
    settings := base;
    if args.crf.Some? {
      settings := settings.(crf := args.crf.value);
    }
    if Given(args.presetSpeed) {
      settings := settings.(preset := args.presetSpeed.value);
    }
    if Given(args.videoCodec) {
      settings := settings.(videoCodec := args.videoCodec.value);
    }
    if Given(args.audioCodec) {
      settings := settings.(audioCodec := args.audioCodec.value);
    }
    if Given(args.audioBitrate) {
      settings := settings.(audioBitrate := args.audioBitrate.value);
    }
  }

  /** With no option given, a known preset is used unchanged and an unknown name gives
      the defaults. */
  lemma NoOptionsKeepPreset(args: CliArgs, s: Settings)
    requires args.crf.None? && !Given(args.presetSpeed) && !Given(args.videoCodec) && !Given(args.audioCodec)
    requires !Given(args.audioBitrate) && !Given(args.resolution) && !args.twoPass
    requires Overrides(args, BaseSettings(args.preset), s)
    ensures s == BaseSettings(args.preset)
    ensures args.preset !in Presets() ==> s == Default()
  {
  }

  // ---------------------------------------------------------------------------
  // find_video_files

  /** The eight extensions the CLI accepts. */
  const AcceptedExtensions: set<string> := {".mp4", ".avi", ".mov", ".mkv", ".wmv", ".flv", ".webm", ".m4v"}

  predicate IsAcceptedVideo(path: string) { LowerSuffix(path) in AcceptedExtensions }

  /** One entry of a listing or glob: its absolute path and whether it is a regular file. */
  datatype Entry = Entry(path: string, isFile: bool)

  /** A command-line path as the file system classifies it: a file (its absolute path), a
      directory, or neither, in which case it is a glob pattern. A directory or pattern
      carries what the flat and the recursive search yield. */
  datatype InputPath =
    | AFile(absolute: string)
    | ADir(flat: seq<Entry>, deep: seq<Entry>)
    | AGlob(flat: seq<Entry>, deep: seq<Entry>)

  /** The files of a listing that are kept, in listing order. */
  function Kept(es: seq<Entry>): seq<string>
  {
    if es == [] then []
    else Kept(es[..|es| - 1]) + (var e := es[|es| - 1]; if e.isFile && IsAcceptedVideo(e.path) then [e.path] else [])
  }

  function Contribution(p: InputPath, recursive: bool): seq<string>
  {
    match p
    case AFile(a) => if IsAcceptedVideo(a) then [a] else []
    case ADir(flat, deep) => Kept(if recursive then deep else flat)
    case AGlob(flat, deep) => Kept(if recursive then deep else flat)
  }

  /** The list `find_video_files` builds before sorting. */
  function Found(inputs: seq<InputPath>, recursive: bool): seq<string>
  {
    if inputs == [] then []
    else Found(inputs[..|inputs| - 1], recursive) + Contribution(inputs[|inputs| - 1], recursive)
  }

  lemma {:induction false} KeptVideo(es: seq<Entry>)
    ensures forall y :: y in Kept(es) ==> IsAcceptedVideo(y)
  {
    if es != [] {
      KeptVideo(es[..|es| - 1]);
    }
  }

  lemma {:induction false} FoundVideo(inputs: seq<InputPath>, recursive: bool)
    ensures forall y :: y in Found(inputs, recursive) ==> IsAcceptedVideo(y)
  {
    if inputs != [] {
      FoundVideo(inputs[..|inputs| - 1], recursive);
      match inputs[|inputs| - 1]
      case AFile(a) =>
      case ADir(flat, deep) => KeptVideo(if recursive then deep else flat);
      case AGlob(flat, deep) => KeptVideo(if recursive then deep else flat);
    }
  }

  /** Python's `<` on strings: lexicographic by code point, a proper prefix first. */
  predicate Below(a: string, b: string)
    decreases |a|
  {
    if a == [] then b != []
    else if b == [] then false
    else if a[0] != b[0] then a[0] < b[0]
    else Below(a[1..], b[1..])
  }

  lemma {:induction false} BelowIrreflexive(a: string)
    ensures !Below(a, a)
    decreases |a|
  {
    if a != [] {
      BelowIrreflexive(a[1..]);
    }
  }

  lemma {:induction false} BelowTotal(a: string, b: string)
    requires a != b
    ensures Below(a, b) || Below(b, a)
    decreases |a|
  {
    if a != [] && b != [] && a[0] == b[0] {
      assert a == [a[0]] + a[1..] && b == [b[0]] + b[1..];
      BelowTotal(a[1..], b[1..]);
    }
  }

  lemma {:induction false} BelowTransitive(a: string, b: string, c: string)
    requires Below(a, b) && Below(b, c)
    ensures Below(a, c)
    decreases |a|
  {
    if a != [] && a[0] == b[0] && b[0] == c[0] {
      BelowTransitive(a[1..], b[1..], c[1..]);
    }
  }

  lemma BelowAsymmetric(a: string, b: string)
    requires Below(a, b)
    ensures !Below(b, a)
  {
    if Below(b, a) {
      BelowTransitive(a, b, a);
      BelowIrreflexive(a);
    }
  }

  predicate Ascending(s: seq<string>) { forall i :: 0 <= i < |s| - 1 ==> Below(s[i], s[i + 1]) }

  /** Insert x into an ascending list without repeats, unless it is already there. */
  function Insert(s: seq<string>, x: string): (r: seq<string>)
    requires Ascending(s)
    ensures Ascending(r) && r != []
    ensures forall y :: y in r <==> y in s || y == x
    ensures s != [] ==> r[0] == s[0] || r[0] == x
  {
    if s == [] then [x]
    else if x == s[0] then s
    else if Below(x, s[0]) then [x] + s
    else
      var rest := Insert(s[1..], x);
      BelowTotal(x, s[0]);
      assert Ascending(s[1..]);
      assert s[1..] != [] ==> Below(s[0], s[1..][0]);
      assert s == [s[0]] + s[1..];
      [s[0]] + rest
  }

  /** `sorted(set(xs))`. */
  function SortedUnique(xs: seq<string>): (r: seq<string>)
    ensures Ascending(r)
    ensures forall y :: y in r <==> y in xs
  {
    if xs == [] then []
    else
      var r := Insert(SortedUnique(xs[..|xs| - 1]), xs[|xs| - 1]);
      assert xs == xs[..|xs| - 1] + [xs[|xs| - 1]];
      r
  }

  /** An ascending list holds each element once, and every earlier element is below
      every later one. */
  lemma {:induction false} AscendingIsStrict(s: seq<string>, i: nat, j: nat)
    requires Ascending(s) && i < j < |s|
    ensures Below(s[i], s[j])
    decreases j - i
  {
    if j > i + 1 {
      AscendingIsStrict(s, i, j - 1);
      BelowTransitive(s[i], s[j - 1], s[j]);
    }
  }

  lemma AscendingDistinct(s: seq<string>)
    requires Ascending(s)
    ensures forall i, j :: 0 <= i < j < |s| ==> s[i] != s[j]
  {
    forall i, j | 0 <= i < j < |s|
      ensures s[i] != s[j]
    {
      AscendingIsStrict(s, i, j);
      BelowIrreflexive(s[i]);
    }
  }

  /** `find_video_files(paths, recursive)`: collects the accepted files of every path in
      turn, then sorts and removes duplicates. */
  method FindVideoFiles(inputs: seq<InputPath>, recursive: bool) returns (r: seq<string>)
    ensures r == SortedUnique(Found(inputs, recursive))
    ensures Ascending(r) && forall i, j :: 0 <= i < j < |r| ==> r[i] != r[j]
    ensures forall y :: y in r <==> y in Found(inputs, recursive)
    ensures forall y :: y in r ==> IsAcceptedVideo(y)
  {
    var found: seq<string> := [];
    for i := 0 to |inputs|
      invariant found == Found(inputs[..i], recursive)
    {
      assert inputs[..i + 1][..i] == inputs[..i];
      match inputs[i] {
        case AFile(a) =>
          if IsAcceptedVideo(a) {
            found := found + [a];
          }
        case ADir(flat, deep) =>
          found := KeepFiles(found, if recursive then deep else flat);
        case AGlob(flat, deep) =>
          found := KeepFiles(found, if recursive then deep else flat);
      }
    }
    assert inputs[..|inputs|] == inputs;
    r := SortedUnique(found);
    AscendingDistinct(r);
    FoundVideo(inputs, recursive);
  }

  /** The inner loop over one listing. */
  method KeepFiles(found: seq<string>, es: seq<Entry>) returns (r: seq<string>)
    ensures r == found + Kept(es)
  {
    var kept: seq<string> := [];
    for j := 0 to |es|
      invariant kept == Kept(es[..j])
    {
      assert es[..j + 1][..j] == es[..j];
      if es[j].isFile && IsAcceptedVideo(es[j].path) {
        kept := kept + [es[j].path];
      }
    }
    assert es[..|es|] == es;
    r := found + kept;
  }

  // ---------------------------------------------------------------------------
  // Output naming and the batch loop of main

  /** Where the outputs go: one named file, or a directory. */
  datatype OutputMode = SingleFile(path: string) | Directory(dir: string)

  /** A single output file only for exactly one input and a non-empty `-o`; otherwise
      the `-d` directory, or the current directory. */
  function ChooseOutput(fileCount: nat, output: Option<string>, outputDir: Option<string>): (m: OutputMode)
    ensures m.SingleFile? <==> fileCount == 1 && Given(output)
    ensures m.Directory? ==> m.dir == (if Given(outputDir) then outputDir.value else ".")
  {
    if fileCount == 1 && Given(output) then SingleFile(output.value)
    else if Given(outputDir) then Directory(outputDir.value)
    else Directory(".")
  }

  /** The output name of a file in directory mode: its base name without extension,
      then "_compressed.mkv". */
  function CompressedName(inputFile: string): string
  {
    SplitExtRoot(Basename(inputFile)) + "_compressed.mkv"
  }

  function OutputFor(mode: OutputMode, inputFile: string): string
  {
    match mode
    case SingleFile(p) => p
    case Directory(d) => JoinPath(d, CompressedName(inputFile))
  }

  lemma SplitExtRootNoSlash(name: string)
    requires '/' !in name
    ensures '/' !in SplitExtRoot(name)
  {
    match RFind(name, '.')
    case Some(i) =>
      assert forall k :: 0 <= k < i ==> name[..i][k] == name[k];
    case None =>
  }

  /** The compressed name is a plain file name: it holds no '/'. */
  lemma CompressedNameNoSlash(inputFile: string)
    ensures '/' !in CompressedName(inputFile)
  {
    var n := CompressedName(inputFile);
    var stem := SplitExtRoot(Basename(inputFile));
    SplitExtRootNoSlash(Basename(inputFile));
    var suffix := "_compressed.mkv";
    assert forall k :: 0 <= k < |n| ==> n[k] == (if k < |stem| then stem[k] else suffix[k - |stem|]);
  }

  /** In directory mode the output lies in the output directory and is named
      `<stem>_compressed.mkv`. */
  lemma DirectoryOutputName(dir: string, inputFile: string)
    ensures Basename(OutputFor(Directory(dir), inputFile)) == CompressedName(inputFile)
    ensures dir != "" && dir[|dir| - 1] != '/' ==> OutputFor(Directory(dir), inputFile) == dir + "/" + CompressedName(inputFile)
  {
    var n := CompressedName(inputFile);
    CompressedNameNoSlash(inputFile);
    assert n == [] || n[0] != '/' by {
      if n != [] {
        assert n[0] in n;
      }
    }
    if dir == "" {
      assert JoinPath(dir, n) == n;
    } else if dir[|dir| - 1] == '/' {
      BasenameAfterSlash(dir, n);
    } else {
      assert dir + "/" + n == (dir + "/") + n;
      BasenameAfterSlash(dir + "/", n);
    }
  }


  /** The base name of `head + name` is `name` when `head` ends in '/' and `name` has none. */
  lemma BasenameAfterSlash(head: string, name: string)
    requires head != [] && head[|head| - 1] == '/' && '/' !in name
    ensures Basename(head + name) == name
  {
    var s := head + name;
    assert s[|head|..] == name;
    RFindAt(s, '/', |head| - 1);
  }

  /** A file is skipped when its output exists and `--overwrite` is not given. */
  predicate Skipped(mode: OutputMode, existing: set<string>, overwrite: bool, inputFile: string)
  {
    OutputFor(mode, inputFile) in existing && !overwrite
  }

  /** The output files that exist when the loop reaches file `n`: the ones existing
      at the start, updated by each earlier file that was not skipped, whose output
      exists afterwards exactly when `written` says so. */
  function ExistingBefore(files: seq<string>, mode: OutputMode, existing: set<string>, overwrite: bool,
                          written: seq<bool>, n: nat): set<string>
    requires n <= |files| == |written|
  {
    if n == 0 then existing
    else
      var prev := ExistingBefore(files, mode, existing, overwrite, written, n - 1);
      var out := OutputFor(mode, files[n - 1]);
      if Skipped(mode, prev, overwrite, files[n - 1]) then prev
      else if written[n - 1] then prev + {out}
      else prev - {out}
  }

  /** For each file, whether it is skipped, tested against the outputs existing when
      the loop reaches it. */
  function SkipFlags(files: seq<string>, mode: OutputMode, existing: set<string>, overwrite: bool,
                     written: seq<bool>): (skipped: seq<bool>)
    requires |written| == |files|
    ensures |skipped| == |files|
  {
    seq(|files|, k requires 0 <= k < |files| =>
      Skipped(mode, ExistingBefore(files, mode, existing, overwrite, written, k), overwrite, files[k]))
  }

  /** Without `--overwrite`, an output that exists stays existing for the rest of the loop. */
  lemma {:induction false} ExistingStays(files: seq<string>, mode: OutputMode, existing: set<string>,
                                         written: seq<bool>, m: nat, n: nat, out: string)
    requires m <= n <= |files| == |written|
    requires out in ExistingBefore(files, mode, existing, false, written, m)
    ensures out in ExistingBefore(files, mode, existing, false, written, n)
  {
    if m < n {
      ExistingStays(files, mode, existing, written, m, n - 1, out);
      ExistingStep(files, mode, existing, written, n - 1, out);
    }
  }

  /** One step of `ExistingStays`: file `n` either is skipped or has another output. */
  lemma ExistingStep(files: seq<string>, mode: OutputMode, existing: set<string>,
                     written: seq<bool>, n: nat, out: string)
    requires n < |files| == |written|
    requires out in ExistingBefore(files, mode, existing, false, written, n)
    ensures out in ExistingBefore(files, mode, existing, false, written, n + 1)
  {
    var prev := ExistingBefore(files, mode, existing, false, written, n);
    var o := OutputFor(mode, files[n]);
    if o !in prev {
      assert o != out;
    }
  }

  /** Without `--overwrite`, a later file with the same output as an earlier file whose
      output exists afterwards is skipped. */
  lemma DuplicateOutputSkipped(files: seq<string>, mode: OutputMode, existing: set<string>,
                               written: seq<bool>, i: nat, j: nat)
    requires i < j < |files| == |written|
    requires OutputFor(mode, files[i]) == OutputFor(mode, files[j]) && written[i]
    ensures SkipFlags(files, mode, existing, false, written)[j]
  {
    var out := OutputFor(mode, files[i]);
    WrittenExists(files, mode, existing, written, i);
    ExistingStays(files, mode, existing, written, i + 1, j, out);
    assert Skipped(mode, ExistingBefore(files, mode, existing, false, written, j), false, files[j]);
  }

  /** Without `--overwrite`, the output of a file that leaves it behind exists after it,
      whether the file was skipped or compressed. */
  lemma WrittenExists(files: seq<string>, mode: OutputMode, existing: set<string>,
                      written: seq<bool>, i: nat)
    requires i < |files| == |written| && written[i]
    ensures OutputFor(mode, files[i]) in ExistingBefore(files, mode, existing, false, written, i + 1)
  {
  }

  /** How many of the first `n` files count as compressed: not skipped, and the
      compression succeeded. */
  function Successes(skipped: seq<bool>, outcomes: seq<bool>, n: nat): (c: nat)
    requires n <= |skipped| == |outcomes|
    ensures c <= n
  {
    if n == 0 then 0
    else Successes(skipped, outcomes, n - 1) + (if !skipped[n - 1] && outcomes[n - 1] then 1 else 0)
  }

  /** A skipped file is never counted, so any skip means fewer successes than files. */
  lemma {:induction false} SkipCostsSuccess(skipped: seq<bool>, outcomes: seq<bool>, n: nat, i: nat)
    requires n <= |skipped| == |outcomes| && i < n && skipped[i]
    ensures Successes(skipped, outcomes, n) < n
  {
    if i < n - 1 {
      SkipCostsSuccess(skipped, outcomes, n - 1, i);
    }
  }

  /** Two files with the same output, the first leaving it behind: without `--overwrite`
      the second is skipped, so the batch cannot end with status 0. */
  lemma DuplicateOutputFailsBatch(files: seq<string>, mode: OutputMode, existing: set<string>,
                                  outcomes: seq<bool>, written: seq<bool>, i: nat, j: nat)
    requires i < j < |files| == |written| == |outcomes|
    requires OutputFor(mode, files[i]) == OutputFor(mode, files[j]) && written[i]
    ensures Successes(SkipFlags(files, mode, existing, false, written), outcomes, |files|) < |files|
  {
    DuplicateOutputSkipped(files, mode, existing, written, i, j);
    SkipCostsSuccess(SkipFlags(files, mode, existing, false, written), outcomes, |files|, j);
  }

  /** The process status at the end of `main`: 1 when no input was named, when no video
      file was found, or when fewer files succeeded than were found; 0 otherwise. */
  function ExitStatus(inputCount: nat, fileCount: nat, successful: nat): (status: int)
    requires successful <= fileCount
    ensures status == 0 <==> inputCount > 0 && fileCount > 0 && successful == fileCount
    ensures status == 0 || status == 1
  {
    if inputCount == 0 || fileCount == 0 then 1
    else if successful < fileCount then 1
    else 0
  }

  /** The processing loop of `main`: skip files whose output exists when the loop
      reaches them unless overwriting, compress the others (with the given outcomes,
      `written` telling whether each attempt leaves its output file behind) and count
      the successes. */
  method RunBatch(files: seq<string>, mode: OutputMode, existing: set<string>, overwrite: bool,
                  outcomes: seq<bool>, written: seq<bool>)
    returns (successful: nat, status: int)
    requires |outcomes| == |files| == |written| && |files| > 0
    ensures successful == Successes(SkipFlags(files, mode, existing, overwrite, written), outcomes, |files|)
    ensures status == (if successful < |files| then 1 else 0)
  {
    ghost var skipped := SkipFlags(files, mode, existing, overwrite, written);
    var present := existing;
    successful := 0;
    for i := 0 to |files|
      invariant present == ExistingBefore(files, mode, existing, overwrite, written, i)
      invariant successful == Successes(skipped, outcomes, i)
    {
      var outputFile := OutputFor(mode, files[i]);
      var skip := outputFile in present && !overwrite;
      assert skip == skipped[i];
      if skip {
        continue;
      }
      if outcomes[i] {
        successful := successful + 1;
      }
      present := if written[i] then present + {outputFile} else present - {outputFile};
    }
    status := ExitStatus(1, |files|, successful);
  }
}
