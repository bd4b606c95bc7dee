/** The encode pipeline of `VideoCompressor` in core/compressor.py: the two-pass command
    lines, the single-pass output graph, the per-pass sequencing with its progress
    callback, the pass-log cleanup, and the guard order of `compress_video`.
    Processes are inputs: each run is the chunks its diagnostic stream yields and its
    exit code, or a failure to start. */
module Encoder {

  import opened Wrappers
  import opened Text
  import opened Values
  import opened Paths
  import opened CompressorSettings
  import opened ProgressParsing
  import opened ProgressMonitor

  // ---------------------------------------------------------------------------
  // Command lines of the two passes

  /** `_build_pass1_command`: analysis only, written to the null muxer. */
  function BuildPass1Command(ffmpegPath: string, inputPath: string, s: Settings): (cmd: seq<string>)
    ensures |cmd| == 15 && cmd[0] == ffmpegPath && cmd[3] == inputPath && cmd[14] == "-"
  {
    [ffmpegPath, "-y", "-i", inputPath,
     "-c:v", s.videoCodec, "-preset", s.preset, "-crf", IntToString(s.crf),
     "-pass", "1", "-f", "null", "-"]
  }

  /** `_build_pass2_command`: the real encode, with the audio options and the container. */
  function BuildPass2Command(ffmpegPath: string, inputPath: string, outputPath: string, s: Settings): (cmd: seq<string>)
    ensures |cmd| == 19 && cmd[0] == ffmpegPath && cmd[3] == inputPath && cmd[18] == outputPath
  {
    [ffmpegPath, "-y", "-i", inputPath,
     "-c:v", s.videoCodec, "-preset", s.preset, "-crf", IntToString(s.crf),
     "-pass", "2", "-c:a", s.audioCodec, "-b:a", s.audioBitrate,
     "-f", s.containerFormat, outputPath]
  }

  /** How FFmpeg reads such a command line: the program, the overwrite flag, one
      input, then option/value pairs, then the output. */
  datatype Invocation = Invocation(program: string, input: string, options: seq<(string, string)>, output: string)

  function Pairs(xs: seq<string>): seq<(string, string)>
    requires |xs| % 2 == 0
  {
    if xs == [] then [] else [(xs[0], xs[1])] + Pairs(xs[2..])
  }

  /** The independent reading of a command: None unless it has the shape
      `program -y -i input (option value)* output`. */
  function ReadCommand(cmd: seq<string>): Option<Invocation>
  {
    if |cmd| >= 5 && |cmd| % 2 == 1 && cmd[1] == "-y" && cmd[2] == "-i" then
      Some(Invocation(cmd[0], cmd[3], Pairs(cmd[4..|cmd| - 1]), cmd[|cmd| - 1]))
    else None
  }

  /** The value of the first occurrence of `flag`. */
  function OptionValue(opts: seq<(string, string)>, flag: string): Option<string>
  {
    if opts == [] then None
    else if opts[0].0 == flag then Some(opts[0].1)
    else OptionValue(opts[1..], flag)
  }

  predicate HasOption(opts: seq<(string, string)>, flag: string)
  {
    exists k :: 0 <= k < |opts| && opts[k].0 == flag
  }

  function Pass1Options(s: Settings): seq<(string, string)>
  {
    [("-c:v", s.videoCodec), ("-preset", s.preset), ("-crf", IntToString(s.crf)), ("-pass", "1"), ("-f", "null")]
  }

  function Pass2Options(s: Settings): seq<(string, string)>
  {
    [("-c:v", s.videoCodec), ("-preset", s.preset), ("-crf", IntToString(s.crf)), ("-pass", "2"),
     ("-c:a", s.audioCodec), ("-b:a", s.audioBitrate), ("-f", s.containerFormat)]
  }

  /** The command-line words of a list of option/value pairs. */
  function FlatPairs(opts: seq<(string, string)>): (xs: seq<string>)
    ensures |xs| == 2 * |opts|
  {
    if opts == [] then [] else [opts[0].0, opts[0].1] + FlatPairs(opts[1..])
  }

  /** Reading pairs back from their words gives the pairs. */
  lemma {:induction false} PairsFlat(opts: seq<(string, string)>)
    ensures Pairs(FlatPairs(opts)) == opts
    decreases |opts|
  {
    if opts != [] {
      var xs := FlatPairs(opts);
      assert xs[2..] == FlatPairs(opts[1..]);
      PairsFlat(opts[1..]);
    }
  }

  lemma FlatCons(p: (string, string), rest: seq<(string, string)>)
    ensures FlatPairs([p] + rest) == [p.0, p.1] + FlatPairs(rest)
  {
    assert ([p] + rest)[1..] == rest;
  }

  lemma FlatPairs5(a: (string, string), b: (string, string), c: (string, string), d: (string, string), e: (string, string))
    ensures FlatPairs([a, b, c, d, e]) == [a.0, a.1, b.0, b.1, c.0, c.1, d.0, d.1, e.0, e.1]
  {
    FlatCons(e, []);
    assert [e] + [] == [e];
    FlatCons(d, [e]);
    assert [d] + [e] == [d, e];
    FlatCons(c, [d, e]);
    assert [c] + [d, e] == [c, d, e];
    FlatCons(b, [c, d, e]);
    assert [b] + [c, d, e] == [b, c, d, e];
    FlatCons(a, [b, c, d, e]);
    assert [a] + [b, c, d, e] == [a, b, c, d, e];
  }

  /** The first pair with the flag decides its value. */
  lemma {:induction false} OptionValueAt(opts: seq<(string, string)>, flag: string, k: nat)
    requires k < |opts| && opts[k].0 == flag
    requires forall j :: 0 <= j < k ==> opts[j].0 != flag
    ensures OptionValue(opts, flag) == Some(opts[k].1)
    decreases k
  {
    if k > 0 {
      OptionValueAt(opts[1..], flag, k - 1);
    }
  }

  lemma ReadShaped(program: string, input: string, opts: seq<(string, string)>, output: string)
    ensures ReadCommand([program, "-y", "-i", input] + FlatPairs(opts) + [output])
            == Some(Invocation(program, input, opts, output))
  {
    var cmd := [program, "-y", "-i", input] + FlatPairs(opts) + [output];
    assert cmd[4..|cmd| - 1] == FlatPairs(opts);
    PairsFlat(opts);
  }

  /** Pass 1 reads back as codec, preset, crf, `-pass 1` and the null muxer, writing to
      "-"; it carries no audio option. */
  lemma Pass1Reads(ffmpegPath: string, inputPath: string, s: Settings)
    ensures ReadCommand(BuildPass1Command(ffmpegPath, inputPath, s))
            == Some(Invocation(ffmpegPath, inputPath, Pass1Options(s), "-"))
    ensures !HasOption(Pass1Options(s), "-c:a") && !HasOption(Pass1Options(s), "-b:a")
  {
    var opts := Pass1Options(s);
    FlatPairs5(opts[0], opts[1], opts[2], opts[3], opts[4]);
    assert BuildPass1Command(ffmpegPath, inputPath, s) == [ffmpegPath, "-y", "-i", inputPath] + FlatPairs(opts) + ["-"];
    ReadShaped(ffmpegPath, inputPath, opts, "-");
  }

  /** Pass 2 reads back as codec, preset, crf, `-pass 2`, the audio codec and bitrate and
      the container, writing to the output path. */
  lemma Pass2Reads(ffmpegPath: string, inputPath: string, outputPath: string, s: Settings)
    ensures ReadCommand(BuildPass2Command(ffmpegPath, inputPath, outputPath, s))
            == Some(Invocation(ffmpegPath, inputPath, Pass2Options(s), outputPath))
    ensures OptionValue(Pass2Options(s), "-c:a") == Some(s.audioCodec)
    ensures OptionValue(Pass2Options(s), "-b:a") == Some(s.audioBitrate)
    ensures OptionValue(Pass2Options(s), "-f") == Some(s.containerFormat)
  {
    var opts := Pass2Options(s);
    FlatPairs5(opts[2], opts[3], opts[4], opts[5], opts[6]);
    FlatCons(opts[1], opts[2..]);
    FlatCons(opts[0], opts[1..]);
    assert opts == [opts[0]] + opts[1..] && opts[1..] == [opts[1]] + opts[2..];
    assert opts[2..] == [opts[2], opts[3], opts[4], opts[5], opts[6]];
    OptionValueAt(opts, "-c:a", 4);
    OptionValueAt(opts, "-b:a", 5);
    OptionValueAt(opts, "-f", 6);
    assert BuildPass2Command(ffmpegPath, inputPath, outputPath, s)
           == [ffmpegPath, "-y", "-i", inputPath] + FlatPairs(opts) + [outputPath];
    ReadShaped(ffmpegPath, inputPath, opts, outputPath);
  }

  /** The quality value survives the trip through either command line. */
  lemma CrfReadsBack(s: Settings)
    ensures OptionValue(Pass1Options(s), "-crf") == Some(IntToString(s.crf))
    ensures OptionValue(Pass2Options(s), "-crf") == Some(IntToString(s.crf))
    ensures ParseInt(OptionValue(Pass1Options(s), "-crf").value) == Some(s.crf)
  {
    OptionValueAt(Pass1Options(s), "-crf", 2);
    OptionValueAt(Pass2Options(s), "-crf", 2);
    ParseIntToString(s.crf);
  }

  /** Neither pass command looks at width, height, scale filter, maximum bitrate or
      target size: two settings that agree elsewhere give the same commands. */
  lemma PassCommandsIgnoreScaling(ffmpegPath: string, inputPath: string, outputPath: string, s: Settings, t: Settings)
    requires s.videoCodec == t.videoCodec && s.preset == t.preset && s.crf == t.crf
    requires s.audioCodec == t.audioCodec && s.audioBitrate == t.audioBitrate && s.containerFormat == t.containerFormat
    ensures BuildPass1Command(ffmpegPath, inputPath, s) == BuildPass1Command(ffmpegPath, inputPath, t)
    ensures BuildPass2Command(ffmpegPath, inputPath, outputPath, s) == BuildPass2Command(ffmpegPath, inputPath, outputPath, t)
  {
  }

  // ---------------------------------------------------------------------------
  // The single-pass output graph

  /** Python truthiness of the optional fields. */
  predicate IntSet(o: Option<int>) { o.Some? && o.value != 0 }

  predicate StrSet(o: Option<string>) { o.Some? && o.value != "" }

  datatype ScaleChoice = NoScale | ScaleToSize(width: int, height: int) | ScaleByFilter(filter: string)

  /** The scale filter put on the video stream: both dimensions if both are set, else the
      filter expression if set, else none. */
  function ChooseScale(s: Settings): (c: ScaleChoice)
    ensures c.ScaleToSize? <==> IntSet(s.width) && IntSet(s.height)
    ensures c.ScaleToSize? ==> c == ScaleToSize(s.width.value, s.height.value)
    ensures c.ScaleByFilter? <==> !(IntSet(s.width) && IntSet(s.height)) && StrSet(s.scaleFilter)
    ensures c.ScaleByFilter? ==> c.filter == s.scaleFilter.value
  {
    if IntSet(s.width) && IntSet(s.height) then ScaleToSize(s.width.value, s.height.value)
    else if StrSet(s.scaleFilter) then ScaleByFilter(s.scaleFilter.value)
    else NoScale
  }

  /** The keyword arguments of `ffmpeg.output`: video codec, crf and preset, the audio
      codec and bitrate, and maxrate and bufsize when a maximum bitrate is set. */
  function OutputArgs(s: Settings): (args: map<string, Value>)
    ensures args.Keys == {"vcodec", "crf", "preset", "acodec", "audio_bitrate"}
                         + (if StrSet(s.maxBitrate) then {"maxrate", "bufsize"} else {})
    ensures args["crf"] == VInt(s.crf) && args["vcodec"] == VStr(s.videoCodec)
    ensures StrSet(s.maxBitrate) ==> args["maxrate"] == args["bufsize"] == VStr(s.maxBitrate.value)
  {
    var video := map["vcodec" := VStr(s.videoCodec), "crf" := VInt(s.crf), "preset" := VStr(s.preset)];
    var video := if StrSet(s.maxBitrate) then video["maxrate" := VStr(s.maxBitrate.value)]["bufsize" := VStr(s.maxBitrate.value)] else video;
    var audio := map["acodec" := VStr(s.audioCodec), "audio_bitrate" := VStr(s.audioBitrate)];
    video + audio
  }

  /** The single-pass job: input, video stream with its scale, the input's audio, the
      output path and container, the arguments, and `overwrite_output`. */
  datatype OutputGraph = OutputGraph(input: string, scale: ScaleChoice, output: string, format: string,
                                     args: map<string, Value>)

  function BuildOutputGraph(inputPath: string, outputPath: string, s: Settings): OutputGraph
  {
    OutputGraph(inputPath, ChooseScale(s), outputPath, s.containerFormat, OutputArgs(s))
  }

  // ---------------------------------------------------------------------------
  // Runs, outcomes and what the callback receives

  /** One FFmpeg process: the chunks read from its diagnostic stream before it is seen
      to have exited, and its exit code; or a failure to start it. */
  datatype PassRun = Spawned(chunks: seq<string>, exitCode: int) | SpawnFailed

  /** A job that was started: the single-pass graph or one of the pass commands. */
  datatype Job = Graph(graph: OutputGraph) | Command(args: seq<string>)

  predicate Succeeded(run: PassRun) { run.Spawned? && run.exitCode == 0 }

  /** The values the callback receives while a run is monitored. */
  function PassSent(run: PassRun, d: real, twoPass: bool, pass: int, cb: bool): (r: seq<real>)
    ensures forall k :: 0 <= k < |r| ==> 0.0 <= r[k] <= 99.0
  {
    if run.Spawned? then SentFor(MonitoredLines(run.chunks), d, twoPass, pass, cb) else []
  }

  function Hundred(ok: bool, cb: bool): seq<real>
  {
    if ok && cb then [100.0] else []
  }

  function SinglePassSent(run: PassRun, d: real, twoPass: bool, cb: bool): seq<real>
  {
    PassSent(run, d, twoPass, 1, cb) + Hundred(Succeeded(run), cb)
  }

  predicate TwoPassOk(run1: PassRun, run2: PassRun) { Succeeded(run1) && Succeeded(run2) }

  function TwoPassSent(run1: PassRun, run2: PassRun, d: real, twoPass: bool, cb: bool): seq<real>
  {
    PassSent(run1, d, twoPass, 1, cb)
    + (if Succeeded(run1) then PassSent(run2, d, twoPass, 2, cb) + Hundred(TwoPassOk(run1, run2), cb) else [])
  }

  /** Pass 2 is started only after pass 1 exits with code 0. */
  function TwoPassJobs(ffmpegPath: string, inputPath: string, outputPath: string, s: Settings, run1: PassRun): seq<Job>
  {
    [Command(BuildPass1Command(ffmpegPath, inputPath, s))]
    + (if Succeeded(run1) then [Command(BuildPass2Command(ffmpegPath, inputPath, outputPath, s))] else [])
  }

  /** The pass-log files are deleted exactly when pass 2 was started. */
  predicate CleansUp(run1: PassRun, run2: PassRun) { Succeeded(run1) && run2.Spawned? }

  lemma HundredNotMonitored(xs: seq<real>)
    requires forall k :: 0 <= k < |xs| ==> 0.0 <= xs[k] <= 99.0
    ensures 100.0 !in xs
  {
  }

  /** The single-pass callback receives 100 exactly when the process exits with code 0
      (and a callback is set); a value below 100 is all that a failed run ever shows. */
  lemma SinglePassHundred(run: PassRun, d: real, twoPass: bool, cb: bool)
    ensures 100.0 in SinglePassSent(run, d, twoPass, cb) <==> cb && Succeeded(run)
    ensures cb && Succeeded(run) ==> SinglePassSent(run, d, twoPass, cb)[|SinglePassSent(run, d, twoPass, cb)| - 1] == 100.0
  {
    HundredNotMonitored(PassSent(run, d, twoPass, 1, cb));
  }

  /** The two-pass callback receives 100 exactly when both passes exit with code 0. */
  lemma TwoPassHundred(run1: PassRun, run2: PassRun, d: real, twoPass: bool, cb: bool)
    ensures 100.0 in TwoPassSent(run1, run2, d, twoPass, cb) <==> cb && TwoPassOk(run1, run2)
  {
    var a := PassSent(run1, d, twoPass, 1, cb);
    HundredNotMonitored(a);
    if Succeeded(run1) {
      var b := PassSent(run2, d, twoPass, 2, cb);
      HundredNotMonitored(b);
      assert 100.0 !in a + b;
      assert TwoPassSent(run1, run2, d, twoPass, cb) == a + (b + Hundred(TwoPassOk(run1, run2), cb));
    } else {
      assert TwoPassSent(run1, run2, d, twoPass, cb) == a + [];
    }
  }

  lemma SentAfterSingle(run: PassRun, d: real, tp: bool, cb: bool, start: seq<real>, mid: seq<real>, now: seq<real>)
    requires mid == start + PassSent(run, d, tp, 1, cb)
    requires now == mid + Hundred(Succeeded(run), cb)
    ensures now == start + SinglePassSent(run, d, tp, cb)
  {
    assert (start + PassSent(run, d, tp, 1, cb)) + Hundred(Succeeded(run), cb)
        == start + (PassSent(run, d, tp, 1, cb) + Hundred(Succeeded(run), cb));
  }

  lemma SentAfterFirst(run1: PassRun, run2: PassRun, d: real, tp: bool, cb: bool, start: seq<real>, now: seq<real>)
    requires !Succeeded(run1)
    requires now == start + PassSent(run1, d, tp, 1, cb)
    ensures now == start + TwoPassSent(run1, run2, d, tp, cb)
  {
    assert PassSent(run1, d, tp, 1, cb) + [] == PassSent(run1, d, tp, 1, cb);
  }

  lemma SentAfterSecond(run1: PassRun, run2: PassRun, d: real, tp: bool, cb: bool,
                        start: seq<real>, mid: seq<real>, mid2: seq<real>, now: seq<real>)
    requires Succeeded(run1)
    requires mid == start + PassSent(run1, d, tp, 1, cb)
    requires mid2 == mid + PassSent(run2, d, tp, 2, cb)
    requires now == mid2 + Hundred(TwoPassOk(run1, run2), cb)
    ensures now == start + TwoPassSent(run1, run2, d, tp, cb)
  {
    var a, b, c := PassSent(run1, d, tp, 1, cb), PassSent(run2, d, tp, 2, cb), Hundred(TwoPassOk(run1, run2), cb);
    assert TwoPassSent(run1, run2, d, tp, cb) == a + (b + c);
    Regroup3(start, a, b, c, mid, mid2, now);
  }

  lemma Regroup3(start: seq<real>, a: seq<real>, b: seq<real>, c: seq<real>, mid: seq<real>, mid2: seq<real>, now: seq<real>)
    requires mid == start + a && mid2 == mid + b && now == mid2 + c
    ensures now == start + (a + (b + c))
  {
    assert ((start + a) + b) + c == start + (a + (b + c));
  }

  /** A failed first pass starts nothing more and cleans nothing. */
  lemma FailedFirstPass(ffmpegPath: string, inputPath: string, outputPath: string, s: Settings,
                        run1: PassRun, run2: PassRun)
    requires !Succeeded(run1)
    ensures TwoPassJobs(ffmpegPath, inputPath, outputPath, s, run1) == [Command(BuildPass1Command(ffmpegPath, inputPath, s))]
    ensures !CleansUp(run1, run2) && !TwoPassOk(run1, run2)
  {
  }

  // ---------------------------------------------------------------------------
  // The working directory and the pass-log cleanup

  predicate IsPassLog(name: string) { StartsWith(name, "ffmpeg2pass") }

  /** `xs` without the names in `dead`, in order. */
  function Without(xs: seq<string>, dead: set<string>): (r: seq<string>)
    ensures forall x :: x in r <==> x in xs && x !in dead
  {
    if xs == [] then [] else (if xs[0] in dead then [] else [xs[0]]) + Without(xs[1..], dead)
  }

  function PassLogsIn(xs: seq<string>): set<string>
  {
    set x | x in xs && IsPassLog(x)
  }

  lemma PassLogsStep(xs: seq<string>, i: nat)
    requires i < |xs|
    ensures PassLogsIn(xs[..i + 1]) == PassLogsIn(xs[..i]) + (if IsPassLog(xs[i]) then {xs[i]} else {})
  {
    assert xs[..i + 1] == xs[..i] + [xs[i]];
  }

  lemma {:induction false} WithoutTwice(xs: seq<string>, a: set<string>, b: set<string>)
    ensures Without(Without(xs, a), b) == Without(xs, a + b)
    decreases |xs|
  {
    if xs != [] {
      WithoutTwice(xs[1..], a, b);
      var x, rest := xs[0], Without(xs[1..], a);
      if x in a {
        assert Without(xs, a) == rest;
        assert Without(xs, a + b) == Without(xs[1..], a + b);
      } else {
        assert Without(xs, a) == [x] + rest;
        assert ([x] + rest)[1..] == rest;
      }
    }
  }

  lemma WithoutNothing(xs: seq<string>)
    ensures Without(xs, {}) == xs
  {
  }

  /** The current directory, as `os.listdir(".")` lists it. */
  class WorkDir {
    var names: seq<string>

    constructor(names: seq<string>)
      ensures this.names == names
    {
      this.names := names;
    }

    /** `os.remove(name)`. */
    method Remove(name: string)
      modifies this
      ensures names == Without(old(names), {name})
    {
      names := Without(names, {name});
    }
  }

  // ---------------------------------------------------------------------------
  // The compressor

  /** Why `compress_video` gave up before encoding. */
  datatype CompressError = InputMissing | OutputExists | OutputDirFailed | ProbeFailed | BadProbe(e: ProbeError)

  /** The steps before encoding, in order: the input must exist; an existing output
      needs `overwrite`; the output directory is created; the input is probed. `probe`
      is None when FFmpeg's probe itself fails. This is the definition the model uses:
      an output path without a directory part needs no directory (see PrepareAsWritten). */
  function Prepare(inputPath: string, outputPath: string, existing: set<string>, overwrite: bool,
                   probe: Option<Probe>): (r: Result<VideoInfo, CompressError>)
    ensures inputPath !in existing ==> r == Err(InputMissing)
    ensures inputPath in existing && outputPath in existing && !overwrite ==> r == Err(OutputExists)
    ensures inputPath in existing && (outputPath !in existing || overwrite) && probe.Some?
            ==> (r.Ok? <==> GetVideoInfo(inputPath, probe.value).Ok?)
  {
    if inputPath !in existing then Err(InputMissing)
    else if outputPath in existing && !overwrite then Err(OutputExists)
    else if probe.None? then Err(ProbeFailed)
    else
      match GetVideoInfo(inputPath, probe.value)
      case Ok(info) => Ok(info)
      case Err(e) => Err(BadProbe(e))
  }

  /** The same steps as the code has them: `os.makedirs(os.path.dirname(output_path))`
      raises for an output path with no directory part, since the directory name is "". */
  function PrepareAsWritten(inputPath: string, outputPath: string, existing: set<string>, overwrite: bool,
                            probe: Option<Probe>): (r: Result<VideoInfo, CompressError>)
    ensures Dirname(outputPath) != "" ==> r == Prepare(inputPath, outputPath, existing, overwrite, probe)
    ensures inputPath !in existing ==> r == Err(InputMissing)
  {
    if inputPath !in existing then Err(InputMissing)
    else if outputPath in existing && !overwrite then Err(OutputExists)
    else if Dirname(outputPath) == "" then Err(OutputDirFailed)
    else Prepare(inputPath, outputPath, existing, overwrite, probe)
  }

  /** A bare output file name such as "out.mkv" makes the code as written fail wherever
      the probe would succeed, while the intended reading goes on to the probe. */
  lemma BareOutputNameFails(inputPath: string, outputPath: string, existing: set<string>, probe: Probe)
    requires '/' !in outputPath
    requires inputPath in existing && outputPath !in existing
    requires GetVideoInfo(inputPath, probe).Ok?
    ensures PrepareAsWritten(inputPath, outputPath, existing, false, Some(probe)) == Err(OutputDirFailed)
    ensures Prepare(inputPath, outputPath, existing, false, Some(probe)).Ok?
  {
    assert Dirname(outputPath) == "";
  }

  /** The guards come before the probe: a missing input, or an existing output without
      overwrite, fails whatever the probe would have said. */
  lemma GuardsBeforeProbe(inputPath: string, outputPath: string, existing: set<string>, overwrite: bool,
                          p: Option<Probe>, q: Option<Probe>)
    requires inputPath !in existing || (outputPath in existing && !overwrite)
    ensures Prepare(inputPath, outputPath, existing, overwrite, p) == Prepare(inputPath, outputPath, existing, overwrite, q)
    ensures Prepare(inputPath, outputPath, existing, overwrite, p).Err?
  {
  }

  class VideoCompressor {
    const ffmpegPath: string

    /** `VideoCompressor(ffmpeg_path)`: an absent or empty path means "ffmpeg". The
        `-version` check at construction is not part of this model. */
    constructor(path: Option<string>)
      ensures ffmpegPath == (if path.Some? && path.value != "" then path.value else "ffmpeg")
    {
      ffmpegPath := if path.Some? && path.value != "" then path.value else "ffmpeg";
    }

    /** `_single_pass_encode`: run, monitor as pass 1, and report 100 on exit code 0. */
    method SinglePassEncode(run: PassRun, progress: CompressionProgress) returns (ok: bool)
      modifies progress
      ensures ok == Succeeded(run)
      ensures progress.sent == old(progress.sent)
              + SinglePassSent(run, progress.totalDuration, progress.isTwoPass, progress.hasCallback)
      ensures progress.totalDuration == old(progress.totalDuration) && progress.isTwoPass == old(progress.isTwoPass)
      ensures progress.hasCallback == old(progress.hasCallback)
    {
      ghost var d, tp, cb := progress.totalDuration, progress.isTwoPass, progress.hasCallback;
      ghost var start := progress.sent;
      if run.SpawnFailed? {
        SentAfterSingle(run, d, tp, cb, start, start, start);
        return false;
      }
      MonitorProgress(run.chunks, progress, 1);
      ghost var mid := progress.sent;
      if run.exitCode == 0 {
        progress.Notify(100.0);
        ok := true;
      } else {
        ok := false;
      }
      SentAfterSingle(run, d, tp, cb, start, mid, progress.sent);
    }

    /** `_two_pass_encode`: pass 1; on exit code 0, pass 2 and then the cleanup whatever
        pass 2's exit code; 100 after a successful pass 2. Returns the commands attempted,
        pass 2 included when it fails to start. */
    method TwoPassEncode(inputPath: string, outputPath: string, s: Settings, progress: CompressionProgress,
                         run1: PassRun, run2: PassRun, cwd: WorkDir) returns (ok: bool, jobs: seq<Job>)
      modifies progress, cwd
      ensures ok == TwoPassOk(run1, run2)
      ensures jobs == (if run1.Spawned? then TwoPassJobs(ffmpegPath, inputPath, outputPath, s, run1) else [])
      ensures progress.sent == old(progress.sent)
              + TwoPassSent(run1, run2, progress.totalDuration, progress.isTwoPass, progress.hasCallback)
      ensures cwd.names == (if CleansUp(run1, run2) then Without(old(cwd.names), PassLogsIn(old(cwd.names)))
                            else old(cwd.names))
      ensures progress.totalDuration == old(progress.totalDuration) && progress.isTwoPass == old(progress.isTwoPass)
      ensures progress.hasCallback == old(progress.hasCallback)
    {
      ghost var d, tp, cb := progress.totalDuration, progress.isTwoPass, progress.hasCallback;
      ghost var start := progress.sent;
      var pass1 := BuildPass1Command(ffmpegPath, inputPath, s);
      if run1.SpawnFailed? {
        SentAfterFirst(run1, run2, d, tp, cb, start, start);
        return false, [];
      }
      jobs := [Command(pass1)];
      MonitorProgress(run1.chunks, progress, 1);
      if run1.exitCode != 0 {
        SentAfterFirst(run1, run2, d, tp, cb, start, progress.sent);
        return false, jobs;
      }
      var pass2 := BuildPass2Command(ffmpegPath, inputPath, outputPath, s);
      ghost var afterPass1 := progress.sent;
      if run2.SpawnFailed? {
        SentAfterSecond(run1, run2, d, tp, cb, start, afterPass1, afterPass1, afterPass1);
        return false, jobs + [Command(pass2)];
      }
      jobs := jobs + [Command(pass2)];
      MonitorProgress(run2.chunks, progress, 2);
      CleanupPassFiles(cwd);
      ghost var afterPass2 := progress.sent;
      if run2.exitCode == 0 {
        progress.Notify(100.0);
        ok := true;
      } else {
        ok := false;
      }
      SentAfterSecond(run1, run2, d, tp, cb, start, afterPass1, afterPass2, progress.sent);
    }

    /** `_cleanup_pass_files`: every listed name starting with "ffmpeg2pass" is removed;
        the other names stay, in order. */
    method CleanupPassFiles(cwd: WorkDir)
      modifies cwd
      ensures cwd.names == Without(old(cwd.names), PassLogsIn(old(cwd.names)))
    {
      var listing := cwd.names;
      WithoutNothing(listing);
      assert PassLogsIn(listing[..0]) == {};
      var i := 0;
      while i < |listing|
        invariant 0 <= i <= |listing|
        invariant cwd.names == Without(listing, PassLogsIn(listing[..i]))
      {
        var file := listing[i];
        PassLogsStep(listing, i);
        if IsPassLog(file) {
          cwd.Remove(file);
          WithoutTwice(listing, PassLogsIn(listing[..i]), {file});
        } else {
          assert PassLogsIn(listing[..i + 1]) == PassLogsIn(listing[..i]);
        }
        i := i + 1;
      }
      assert listing[..i] == listing;
    }

    /** `compress_video`. `existing` holds the paths that exist, `probe` is what FFmpeg's
        probe reports (None when it fails), `hasCallback` whether a progress callback is
        given, `run1` the single-pass or first-pass process and `run2` the second pass.
        Returns the result, the commands attempted, and the progress object, if one was made. */
    method CompressVideo(inputPath: string, outputPath: string, s: Settings, existing: set<string>,
                         overwrite: bool, probe: Option<Probe>, hasCallback: bool,
                         run1: PassRun, run2: PassRun, cwd: WorkDir)
      returns (ok: bool, jobs: seq<Job>, progress: CompressionProgress?)
      modifies cwd
      ensures Prepare(inputPath, outputPath, existing, overwrite, probe).Err?
              ==> !ok && jobs == [] && progress == null && cwd.names == old(cwd.names)
      ensures Prepare(inputPath, outputPath, existing, overwrite, probe).Ok? ==>
                progress != null && fresh(progress)
                && progress.totalDuration == Prepare(inputPath, outputPath, existing, overwrite, probe).value.duration
                && progress.isTwoPass == s.twoPass && progress.hasCallback == hasCallback
      ensures Prepare(inputPath, outputPath, existing, overwrite, probe).Ok? && !s.twoPass ==>
                ok == Succeeded(run1) && cwd.names == old(cwd.names)
                && jobs == (if run1.Spawned? then [Graph(BuildOutputGraph(inputPath, outputPath, s))] else [])
                && progress.sent == SinglePassSent(run1, progress.totalDuration, false, hasCallback)
      ensures Prepare(inputPath, outputPath, existing, overwrite, probe).Ok? && s.twoPass ==>
                ok == TwoPassOk(run1, run2)
                && jobs == (if run1.Spawned? then TwoPassJobs(ffmpegPath, inputPath, outputPath, s, run1) else [])
                && progress.sent == TwoPassSent(run1, run2, progress.totalDuration, true, hasCallback)
                && cwd.names == (if CleansUp(run1, run2) then Without(old(cwd.names), PassLogsIn(old(cwd.names)))
                                 else old(cwd.names))
    {
      var prepared := Prepare(inputPath, outputPath, existing, overwrite, probe);
      if prepared.Err? {
        return false, [], null;
      }
      var info := prepared.value;
      progress := new CompressionProgress(info.duration);
      if hasCallback {
        progress.SetCallback();
      }
      var graph := BuildOutputGraph(inputPath, outputPath, s);
      if s.twoPass {
        progress.isTwoPass := true;
        ok, jobs := TwoPassEncode(inputPath, outputPath, s, progress, run1, run2, cwd);
      } else {
        progress.isTwoPass := false;
        ok := SinglePassEncode(run1, progress);
        jobs := if run1.Spawned? then [Graph(graph)] else [];
      }
    }
  }
}
