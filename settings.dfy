/** `CompressionSettings`, `VideoInfo`, the preset table and the stream selection of
    `get_video_info`, from core/compressor.py. */
module CompressorSettings {

  import opened Wrappers
  import opened Text
  import opened Values
  import opened Paths

  /** A `CompressionSettings` dataclass value. */
  datatype Settings = Settings(
    videoCodec: string,
    crf: int,
    preset: string,
    audioCodec: string,
    audioBitrate: string,
    width: Option<int>,
    height: Option<int>,
    scaleFilter: Option<string>,
    twoPass: bool,
    targetSize: Option<string>,
    maxBitrate: Option<string>,
    containerFormat: string)

  /** `CompressionSettings()` with every field at its declared default. */
  function Default(): (s: Settings)
    ensures s.videoCodec == "libx264" && s.crf == 23 && s.preset == "medium"
    ensures s.audioCodec == "aac" && s.audioBitrate == "128k" && !s.twoPass
    ensures s.width.None? && s.height.None? && s.scaleFilter.None?
    ensures s.targetSize.None? && s.maxBitrate.None? && s.containerFormat == "matroska"
  {
    Settings("libx264", 23, "medium", "aac", "128k", None, None, None, false, None, None, "matroska")
  }

  /** The twelve keys of `to_dict`, which are also the keyword arguments the dataclass
      constructor accepts. */
  const FieldNames: set<string> := {
    "video_codec", "crf", "preset", "audio_codec", "audio_bitrate", "width", "height",
    "scale_filter", "two_pass", "target_size", "max_bitrate", "container_format" }

  function OptIntValue(o: Option<int>): Value
  {
    match o
    case Some(i) => VInt(i)
    case None => VNull
  }

  function OptStrValue(o: Option<string>): Value
  {
    match o
    case Some(s) => VStr(s)
    case None => VNull
  }

  /** `to_dict`: every field under its own name; None becomes null. */
  function ToDict(s: Settings): (d: map<string, Value>)
    ensures d.Keys == FieldNames
    ensures d["crf"] == VInt(s.crf) && d["preset"] == VStr(s.preset)
    ensures d["two_pass"] == VBool(s.twoPass) && d["audio_bitrate"] == VStr(s.audioBitrate)
  {
    map[
      "video_codec" := VStr(s.videoCodec),
      "crf" := VInt(s.crf),
      "preset" := VStr(s.preset),
      "audio_codec" := VStr(s.audioCodec),
      "audio_bitrate" := VStr(s.audioBitrate),
      "width" := OptIntValue(s.width),
      "height" := OptIntValue(s.height),
      "scale_filter" := OptStrValue(s.scaleFilter),
      "two_pass" := VBool(s.twoPass),
      "target_size" := OptStrValue(s.targetSize),
      "max_bitrate" := OptStrValue(s.maxBitrate),
      "container_format" := VStr(s.containerFormat)]
  }

  /** Why `from_dict` could not build settings. */
  datatype DictError = UnknownKeys(keys: set<string>) | WrongType(key: string)

  function StrField(d: map<string, Value>, k: string, dflt: string): Result<string, DictError>
  {
    if k !in d then Ok(dflt)
    else if d[k].VStr? then Ok(d[k].s)
    else Err(WrongType(k))
  }

  function IntField(d: map<string, Value>, k: string, dflt: int): Result<int, DictError>
  {
    if k !in d then Ok(dflt)
    else if d[k].VInt? then Ok(d[k].i)
    else Err(WrongType(k))
  }

  function BoolField(d: map<string, Value>, k: string, dflt: bool): Result<bool, DictError>
  {
    if k !in d then Ok(dflt)
    else if d[k].VBool? then Ok(d[k].b)
    else Err(WrongType(k))
  }

  function OptIntField(d: map<string, Value>, k: string): Result<Option<int>, DictError>
  {
    if k !in d || d[k].VNull? then Ok(None)
    else if d[k].VInt? then Ok(Some(d[k].i))
    else Err(WrongType(k))
  }

  function OptStrField(d: map<string, Value>, k: string): Result<Option<string>, DictError>
  {
    if k !in d || d[k].VNull? then Ok(None)
    else if d[k].VStr? then Ok(Some(d[k].s))
    else Err(WrongType(k))
  }

  /** `from_dict(data)`, that is `CompressionSettings(**data)`: a key that is not a field
      is an error; a missing key takes the field's default. */
  function FromDict(d: map<string, Value>): (r: Result<Settings, DictError>)
    ensures d.Keys - FieldNames != {} <==> r.Err? && r.error.UnknownKeys?
    ensures r.Err? && r.error.UnknownKeys? ==> r.error.keys == d.Keys - FieldNames
    ensures r.Err? && r.error.WrongType? ==> r.error.key in d
  {
    if d.Keys - FieldNames != {} then Err(UnknownKeys(d.Keys - FieldNames))
    else
      var dflt := Default();
      var vc := StrField(d, "video_codec", dflt.videoCodec);
      var crf := IntField(d, "crf", dflt.crf);
      var pr := StrField(d, "preset", dflt.preset);
      var ac := StrField(d, "audio_codec", dflt.audioCodec);
      var ab := StrField(d, "audio_bitrate", dflt.audioBitrate);
      var w := OptIntField(d, "width");
      var h := OptIntField(d, "height");
      var sf := OptStrField(d, "scale_filter");
      var tp := BoolField(d, "two_pass", dflt.twoPass);
      var ts := OptStrField(d, "target_size");
      var mb := OptStrField(d, "max_bitrate");
      var cf := StrField(d, "container_format", dflt.containerFormat);
      if vc.Err? then Err(vc.error)
      else if crf.Err? then Err(crf.error)
      else if pr.Err? then Err(pr.error)
      else if ac.Err? then Err(ac.error)
      else if ab.Err? then Err(ab.error)
      else if w.Err? then Err(w.error)
      else if h.Err? then Err(h.error)
      else if sf.Err? then Err(sf.error)
      else if tp.Err? then Err(tp.error)
      else if ts.Err? then Err(ts.error)
      else if mb.Err? then Err(mb.error)
      else if cf.Err? then Err(cf.error)
      else Ok(Settings(vc.value, crf.value, pr.value, ac.value, ab.value, w.value, h.value,
                       sf.value, tp.value, ts.value, mb.value, cf.value))
  }

  /** `from_dict(to_dict(s))` rebuilds `s`. */
  lemma FromDictToDict(s: Settings)
    ensures FromDict(ToDict(s)) == Ok(s)
  {
    var d := ToDict(s);
    assert d.Keys - FieldNames == {};
    var dflt := Default();
    assert StrField(d, "video_codec", dflt.videoCodec) == Ok(s.videoCodec);
    assert IntField(d, "crf", dflt.crf) == Ok(s.crf);
    assert StrField(d, "preset", dflt.preset) == Ok(s.preset);
    assert StrField(d, "audio_codec", dflt.audioCodec) == Ok(s.audioCodec);
    assert StrField(d, "audio_bitrate", dflt.audioBitrate) == Ok(s.audioBitrate);
    OptIntRoundTrip(d, "width", s.width);
    OptIntRoundTrip(d, "height", s.height);
    OptStrRoundTrip(d, "scale_filter", s.scaleFilter);
    assert BoolField(d, "two_pass", dflt.twoPass) == Ok(s.twoPass);
    OptStrRoundTrip(d, "target_size", s.targetSize);
    OptStrRoundTrip(d, "max_bitrate", s.maxBitrate);
    assert StrField(d, "container_format", dflt.containerFormat) == Ok(s.containerFormat);
  }

  lemma OptIntRoundTrip(d: map<string, Value>, k: string, o: Option<int>)
    requires k in d && d[k] == OptIntValue(o)
    ensures OptIntField(d, k) == Ok(o)
  {
  }

  lemma OptStrRoundTrip(d: map<string, Value>, k: string, o: Option<string>)
    requires k in d && d[k] == OptStrValue(o)
    ensures OptStrField(d, k) == Ok(o)
  {
  }

  /** An empty dictionary gives the default settings. */
  lemma FromDictEmpty()
    ensures FromDict(map[]) == Ok(Default())
  {
  }

  /** The dictionary of the settings test: the three given fields are taken, the
      others keep their defaults. */
  lemma FromDictPartial(crf: int, preset: string, audioBitrate: string)
    ensures FromDict(map["crf" := VInt(crf), "preset" := VStr(preset), "audio_bitrate" := VStr(audioBitrate)])
         == Ok(Default().(crf := crf, preset := preset, audioBitrate := audioBitrate))
  {
    var d := map["crf" := VInt(crf), "preset" := VStr(preset), "audio_bitrate" := VStr(audioBitrate)];
    assert d.Keys == {"crf", "preset", "audio_bitrate"};
  }

  /** `get_compression_presets`. */
  function Presets(): (p: map<string, Settings>)
    ensures p.Keys == {"High Quality", "Balanced", "Small Size", "Mobile", "Web Optimized"}
    ensures p["Balanced"] == Default()
    ensures forall n :: n in p ==>
              (p[n].videoCodec == "libx264" && !p[n].twoPass && p[n].containerFormat == "matroska"
               && 18 <= p[n].crf <= 28)
  {
    var d := Default();
    map[
      "High Quality" := d.(crf := 18, preset := "slow", audioBitrate := "192k"),
      "Balanced" := d.(crf := 23, preset := "medium", audioBitrate := "128k"),
      "Small Size" := d.(crf := 28, preset := "fast", audioBitrate := "96k"),
      "Mobile" := d.(crf := 26, preset := "fast", width := Some(1280), height := Some(720), audioBitrate := "96k"),
      "Web Optimized" := d.(crf := 24, preset := "medium", maxBitrate := Some("2000k"), audioBitrate := "128k")]
  }

  // ---------------------------------------------------------------------------
  // Probing

  /** One entry of the probe's `streams` list; an absent key is None. */
  datatype Stream = Stream(
    codecType: Option<string>,
    codecName: Option<string>,
    width: Option<int>,
    height: Option<int>,
    frameRate: Option<string>)

  /** The probe's `format` entry, with its numbers already converted. */
  datatype ProbeFormat = ProbeFormat(duration: Option<real>, size: Option<int>, bitRate: Option<int>)

  datatype Probe = Probe(streams: seq<Stream>, format: ProbeFormat)

  /** A `VideoInfo` dataclass value. */
  datatype VideoInfo = VideoInfo(
    filename: string,
    duration: real,
    width: int,
    height: int,
    fps: real,
    fileSize: int,
    videoCodec: string,
    audioCodec: string,
    bitrate: int)

  /** Why `get_video_info` raised. */
  datatype ProbeError = MissingCodecType | NoVideoStream | MissingField(name: string) | BadFrameRate

  /** The generator `next(s for s in streams if s["codec_type"] == t)`: the first stream
      of type `t`, None when there is none, and an error when a stream without a
      `codec_type` is reached first. */
  function FirstOfType(ss: seq<Stream>, t: string): (r: Result<Option<Stream>, ProbeError>)
    ensures r.Ok? && r.value.Some? ==> exists i :: 0 <= i < |ss| && ss[i] == r.value.value && IsFirstOfType(ss, t, i)
    ensures r.Ok? && r.value.None? ==> forall i :: 0 <= i < |ss| ==> ss[i].codecType.Some? && ss[i].codecType.value != t
    ensures r.Err? ==> r.error == MissingCodecType && exists i :: 0 <= i < |ss| && ss[i].codecType.None? && OtherTypesBefore(ss, t, i)
  {
    if ss == [] then Ok(None)
    else if ss[0].codecType.None? then Err(MissingCodecType)
    else if ss[0].codecType.value == t then Ok(Some(ss[0]))
    else
      var r := FirstOfType(ss[1..], t);
      assert forall i :: 1 <= i <= |ss[1..]| ==> OtherTypesBefore(ss[1..], t, i - 1) ==> OtherTypesBefore(ss, t, i);
      r
  }

  /** Every stream before index `i` has a type, and it is not `t`. */
  predicate OtherTypesBefore(ss: seq<Stream>, t: string, i: nat)
    requires i <= |ss|
  {
    forall j :: 0 <= j < i ==> ss[j].codecType.Some? && ss[j].codecType.value != t
  }

  predicate IsFirstOfType(ss: seq<Stream>, t: string, i: nat)
    requires i < |ss|
  {
    ss[i].codecType == Some(t) && OtherTypesBefore(ss, t, i)
  }

  /** `fps_str.split("/")` then the quotient of the first two parts. */
  function FrameRate(text: string): Result<real, ProbeError>
  {
    var parts := Split(text, '/');
    if |parts| < 2 then Err(BadFrameRate)
    else
      match (ParseInt(parts[0]), ParseInt(parts[1]))
      case (Some(num), Some(den)) => if den == 0 then Err(BadFrameRate) else Ok(num as real / den as real)
      case _ => Err(BadFrameRate)
  }

  function OrElse(o: Option<string>, dflt: string): string
  {
    match o
    case Some(s) => s
    case None => dflt
  }

  /** `get_video_info(input_path)` over the probe result. */
  function GetVideoInfo(inputPath: string, probe: Probe): (r: Result<VideoInfo, ProbeError>)
    ensures r.Ok? ==> (r.value.filename == Basename(inputPath)
                       && probe.format.duration == Some(r.value.duration)
                       && probe.format.size == Some(r.value.fileSize))
  {
    var video := FirstOfType(probe.streams, "video");
    var audio := FirstOfType(probe.streams, "audio");
    if video.Err? then Err(video.error)
    else if audio.Err? then Err(audio.error)
    else if video.value.None? then Err(NoVideoStream)
    else
      var v := video.value.value;
      var f := probe.format;
      if f.duration.None? then Err(MissingField("duration"))
      else if f.size.None? then Err(MissingField("size"))
      else if v.width.None? then Err(MissingField("width"))
      else if v.height.None? then Err(MissingField("height"))
      else
        var fps := FrameRate(OrElse(v.frameRate, "25/1"));
        if fps.Err? then Err(fps.error)
        else
          var audioCodec := if audio.value.Some? then OrElse(audio.value.value.codecName, "unknown") else "none";
          Ok(VideoInfo(Basename(inputPath), f.duration.value, v.width.value, v.height.value, fps.value,
                       f.size.value, OrElse(v.codecName, "unknown"), audioCodec,
                       if f.bitRate.Some? then f.bitRate.value else 0))
  }

  /** On success the picture fields come from the first video stream, with "unknown"
      for a missing codec name and 25 frames per second for a missing frame rate, and
      the bit rate defaults to 0. */
  lemma GetVideoInfoVideo(inputPath: string, probe: Probe)
    requires GetVideoInfo(inputPath, probe).Ok?
    ensures exists i :: 0 <= i < |probe.streams| && IsFirstOfType(probe.streams, "video", i)
                        && VideoFieldsFrom(GetVideoInfo(inputPath, probe).value, probe.streams[i])
    ensures GetVideoInfo(inputPath, probe).value.bitrate == (if probe.format.bitRate.Some? then probe.format.bitRate.value else 0)
  {
    var info := GetVideoInfo(inputPath, probe).value;
    var video := FirstOfType(probe.streams, "video");
    assert video.Ok? && video.value.Some?;
    var v := video.value.value;
    assert v.width == Some(info.width) && v.height == Some(info.height);
    assert info.videoCodec == OrElse(v.codecName, "unknown");
    if v.frameRate.None? {
      DefaultFrameRate();
    }
    assert VideoFieldsFrom(info, v);
  }

  predicate VideoFieldsFrom(info: VideoInfo, v: Stream)
  {
    v.width == Some(info.width) && v.height == Some(info.height)
    && info.videoCodec == OrElse(v.codecName, "unknown")
    && (v.frameRate.None? ==> info.fps == 25.0)
  }

  /** On success the audio codec is "none" exactly when there is no audio stream,
      and otherwise the first audio stream's codec name, or "unknown". */
  lemma GetVideoInfoAudio(inputPath: string, probe: Probe)
    requires GetVideoInfo(inputPath, probe).Ok?
    ensures FirstOfType(probe.streams, "audio").Ok?
    ensures FirstOfType(probe.streams, "audio").value.None? ==> GetVideoInfo(inputPath, probe).value.audioCodec == "none"
    ensures forall i :: 0 <= i < |probe.streams| && IsFirstOfType(probe.streams, "audio", i) ==>
              GetVideoInfo(inputPath, probe).value.audioCodec == OrElse(probe.streams[i].codecName, "unknown")
  {
    forall i | 0 <= i < |probe.streams| && IsFirstOfType(probe.streams, "audio", i)
      ensures FirstOfType(probe.streams, "audio") == Ok(Some(probe.streams[i]))
    {
      FirstOfTypeAt(probe.streams, "audio", i);
    }
  }

  /** The first stream of a type is the one `FirstOfType` returns. */
  lemma FirstOfTypeAt(ss: seq<Stream>, t: string, i: nat)
    requires i < |ss| && IsFirstOfType(ss, t, i)
    ensures FirstOfType(ss, t) == Ok(Some(ss[i]))
    decreases i
  {
    if i > 0 {
      assert IsFirstOfType(ss[1..], t, i - 1);
      FirstOfTypeAt(ss[1..], t, i - 1);
    }
  }

  /** Streams that all carry a type but none of them "video" make the probe fail. */
  lemma NoVideoFails(inputPath: string, probe: Probe)
    requires forall i :: 0 <= i < |probe.streams| ==> probe.streams[i].codecType.Some? && probe.streams[i].codecType.value != "video"
    ensures GetVideoInfo(inputPath, probe) == Err(NoVideoStream)
  {
  }

  /** A missing frame rate means 25 frames per second. */
  lemma DefaultFrameRate()
    ensures FrameRate("25/1") == Ok(25.0)
  {
    SplitDefaultRate();
    ParseDefaultRate();
    FrameRateOfParts("25/1", "25", "1", 25, 1);
  }

  /** A rate whose two parts read as `num` and a non-zero `den` is their quotient. */
  lemma FrameRateOfParts(text: string, a: string, b: string, num: int, den: int)
    requires Split(text, '/') == [a, b] && ParseInt(a) == Some(num) && ParseInt(b) == Some(den) && den != 0
    ensures FrameRate(text) == Ok(num as real / den as real)
  {
  }

  lemma SplitDefaultRate()
    ensures Split("25/1", '/') == ["25", "1"]
  {
    assert "25/1" == "25" + ['/'] + "1";
    SplitTwo("25", "1", '/');
  }

  lemma ParseDefaultRate()
    ensures ParseInt("25") == Some(25) && ParseInt("1") == Some(1)
  {
    var two := "25";
    assert AllDigits(two) && DigitsValue(two) == 25 by {
      assert two[..1] == "2";
    }
    ParseIntDigits(two);
    ParseIntDigits("1");
  }

  /** `VideoInfo.resolution`: width, "x", height. */
  function Resolution(v: VideoInfo): (r: string)
    ensures Split(r, 'x') == [IntToString(v.width), IntToString(v.height)]
  {
    var w := IntToString(v.width);
    var h := IntToString(v.height);
    assert 'x' !in w && 'x' !in h by { IntToStringNoX(v.width); IntToStringNoX(v.height); }
    SplitTwo(w, h, 'x');
    w + "x" + h
  }

  lemma IntToStringNoX(i: int)
    ensures 'x' !in IntToString(i)
  {
    if i < 0 {
      var t := NatToString(-i);
      assert IntToString(i) == "-" + t;
      assert forall k :: 0 <= k < |t| ==> IsDigit(t[k]);
    }
  }
}
