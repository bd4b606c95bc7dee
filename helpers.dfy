/** The utilities of utils/helpers.py that are logic rather than system calls: file-name
    sanitising, duration and size formatting, the output-size estimate, the video
    extension test, the unique-name search and the file watcher. The file system is a
    parameter: a set of existing path strings, or one stat result per query. */
module Helpers {

  import opened Wrappers
  import opened Text
  import opened Paths

  // ---------------------------------------------------------------------------
  // sanitize_filename

  /** The characters `sanitize_filename` replaces by '_'. */
  const InvalidChars: string := "<>:\"/\\|?*"

  /** `s.replace(c, "_")` for a one-character pattern. */
  function ReplaceChar(s: string, c: char): (r: string)
    ensures |r| == |s|
  {
    seq(|s|, k requires 0 <= k < |s| => if s[k] == c then '_' else s[k])
  }

  /** Every character of `s` that occurs in `cs` replaced by '_'. */
  function ReplaceAll(s: string, cs: string): (r: string)
    ensures |r| == |s|
  {
    seq(|s|, k requires 0 <= k < |s| => if s[k] in cs then '_' else s[k])
  }

  predicate IsSpaceOrDot(c: char) { c == ' ' || c == '.' }

  predicate NoneOf(s: string, cs: string) { forall k :: 0 <= k < |s| ==> s[k] !in cs }

  /** Replace, strip spaces and dots from both ends, fall back to "unnamed". */
  function Sanitized(name: string): string
  {
    var t := StripWith(ReplaceAll(name, InvalidChars), IsSpaceOrDot);
    if t == "" then "unnamed" else t
  }

  /** `sanitize_filename(filename)`: one replacement pass per invalid character. */
  method SanitizeFilename(filename: string) returns (r: string)
    ensures r == Sanitized(filename)
  {
    r := filename;
    var i := 0;
    while i < |InvalidChars|
      invariant 0 <= i <= |InvalidChars|
      invariant r == ReplaceAll(filename, InvalidChars[..i])
    {
      ReplaceStep(filename, InvalidChars[..i], InvalidChars[i]);
      assert InvalidChars[..i + 1] == InvalidChars[..i] + [InvalidChars[i]];
      r := ReplaceChar(r, InvalidChars[i]);
      i := i + 1;
    }
    assert InvalidChars[..i] == InvalidChars;
    r := StripWith(r, IsSpaceOrDot);
    if r == "" {
      r := "unnamed";
    }
  }

  lemma ReplaceStep(s: string, cs: string, c: char)
    requires c != '_'
    ensures ReplaceChar(ReplaceAll(s, cs), c) == ReplaceAll(s, cs + [c])
  {
    var a, b := ReplaceChar(ReplaceAll(s, cs), c), ReplaceAll(s, cs + [c]);
    forall k | 0 <= k < |s|
      ensures a[k] == b[k]
    {
      assert (s[k] in cs + [c]) <==> (s[k] in cs || s[k] == c);
    }
  }

  lemma StripKeepsNoneOf(s: string, drop: char -> bool, cs: string)
    requires NoneOf(s, cs)
    ensures NoneOf(StripWith(s, drop), cs)
  {
    var l := StripLeft(s, drop);
    SliceNoneOf(s, |s| - |l|, |s|, cs);
    var r := StripRight(l, drop);
    SliceNoneOf(l, 0, |r|, cs);
  }

  lemma SliceNoneOf(s: string, i: nat, j: nat, cs: string)
    requires i <= j <= |s| && NoneOf(s, cs)
    ensures NoneOf(s[i..j], cs)
  {
    forall k | 0 <= k < j - i
      ensures s[i..j][k] !in cs
    {
      assert s[i..j][k] == s[i + k];
    }
  }

  /** The result is never empty, holds none of `<>:"/\|?*`, and neither starts nor ends
      with a space or a dot. */
  lemma SanitizedSafe(name: string)
    ensures Sanitized(name) != ""
    ensures NoneOf(Sanitized(name), InvalidChars)
    ensures !IsSpaceOrDot(Sanitized(name)[0]) && !IsSpaceOrDot(Sanitized(name)[|Sanitized(name)| - 1])
  {
    var replaced := ReplaceAll(name, InvalidChars);
    assert NoneOf(replaced, InvalidChars);
    StripKeepsNoneOf(replaced, IsSpaceOrDot, InvalidChars);
    var t := StripWith(replaced, IsSpaceOrDot);
    if t == "" {
      assert Sanitized(name) == "unnamed";
      assert forall k :: 0 <= k < 7 ==> "unnamed"[k] !in InvalidChars;
    }
  }

  /** Sanitising twice is sanitising once. */
  lemma SanitizeIdempotent(name: string)
    ensures Sanitized(Sanitized(name)) == Sanitized(name)
  {
    var r := Sanitized(name);
    SanitizedSafe(name);
    assert ReplaceAll(r, InvalidChars) == r;
    StripLeftNoop(r, IsSpaceOrDot);
    StripRightNoop(r, IsSpaceOrDot);
  }

  // ---------------------------------------------------------------------------
  // format_duration

  /** Python's `x % y` on floats, for the two divisors the formatter uses: never
      negative. */
  function FloatMod(x: real, y: real): (r: real)
    requires y == 60.0 || y == 3600.0
    ensures 0.0 <= r < y
  {
    x - y * ((x / y).Floor as real)
  }

  lemma MulMono(x: real, y: real, z: real)
    requires x <= y && z >= 0.0
    ensures x * z <= y * z
  {
  }

  lemma MulStrict(x: real, y: real, z: real)
    requires x < y && z > 0.0
    ensures x * z < y * z
  {
  }

  lemma DivMul(x: real, z: real)
    requires z > 0.0
    ensures (x / z) * z == x
  {
  }

  /** `format_duration(seconds)`: "HH:MM:SS" when there is at least an hour, else
      "MM:SS"; every field zero-padded to two digits. */
  function FormatDuration(seconds: real): string
  {
    var hours := (seconds / 3600.0).Floor;
    var minutes := (FloatMod(seconds, 3600.0) / 60.0).Floor;
    var secs := FloatMod(seconds, 60.0).Floor;
    if hours > 0 then Pad2(hours) + ":" + Pad2(minutes) + ":" + Pad2(secs)
    else Pad2(minutes) + ":" + Pad2(secs)
  }

  lemma FloorDiv(s: real, k: int)
    requires k == 60 || k == 3600
    ensures (s / k as real).Floor == s.Floor / k
  {
  }

  lemma FloorShift(s: real, m: int)
    ensures (s - m as real).Floor == s.Floor - m
  {
  }

  /** The three fields are the hours, minutes and seconds of the whole seconds. */
  lemma DurationFields(seconds: real)
    ensures (seconds / 3600.0).Floor == seconds.Floor / 3600
    ensures (FloatMod(seconds, 3600.0) / 60.0).Floor == (seconds.Floor % 3600) / 60
    ensures FloatMod(seconds, 60.0).Floor == seconds.Floor % 60
  {
    var n := seconds.Floor;
    FloorDiv(seconds, 3600);
    FloorDiv(seconds, 60);
    var h := (seconds / 3600.0).Floor;
    FloorShift(seconds, 3600 * h);
    assert FloatMod(seconds, 3600.0) == seconds - (3600 * h) as real;
    FloorDiv(FloatMod(seconds, 3600.0), 60);
    FloorShift(seconds, 60 * (seconds / 60.0).Floor);
    assert FloatMod(seconds, 60.0) == seconds - (60 * (seconds / 60.0).Floor) as real;
  }

  /** Reading a formatted duration back: two or three `:`-separated integers. */
  function ReadDuration(text: string): Option<int>
  {
    ReadFields(Split(text, ':'))
  }

  /** The seconds of two or three parsed fields, `None` for any other shape. */
  function ReadFields(parts: seq<string>): Option<int>
  {
    if |parts| == 3 then
      var h, m, sec := ParseInt(parts[0]), ParseInt(parts[1]), ParseInt(parts[2]);
      if h.Some? && m.Some? && sec.Some? then Some(h.value * 3600 + m.value * 60 + sec.value) else None
    else if |parts| == 2 then
      var m, sec := ParseInt(parts[0]), ParseInt(parts[1]);
      if m.Some? && sec.Some? then Some(m.value * 60 + sec.value) else None
    else None
  }

  lemma Pad2Reads(n: nat)
    ensures ParseInt(Pad2(n)) == Some(n) && ':' !in Pad2(n)
  {
    Pad2Value(n);
    ParseIntDigits(Pad2(n));
    assert forall k :: 0 <= k < |Pad2(n)| ==> IsDigit(Pad2(n)[k]);
  }

  lemma ReadThreeParts(a: string, b: string, c: string, h: int, m: int, s: int, n: int)
    requires n == h * 3600 + m * 60 + s
    requires ParseInt(a) == Some(h) && ParseInt(b) == Some(m) && ParseInt(c) == Some(s)
    ensures ReadFields([a, b, c]) == Some(n)
  {
  }

  lemma ReadTwoParts(a: string, b: string, m: int, s: int, n: int)
    requires n == m * 60 + s
    requires ParseInt(a) == Some(m) && ParseInt(b) == Some(s)
    ensures ReadFields([a, b]) == Some(n)
  {
  }

  lemma SplitPair(a: string, b: string)
    requires ':' !in a && ':' !in b
    ensures Split(a + ":" + b, ':') == [a, b]
  {
    SplitTwo(a, b, ':');
    assert a + ":" + b == a + [':'] + b;
  }

  lemma SplitThree(a: string, b: string, c: string)
    requires ':' !in a && ':' !in b && ':' !in c
    ensures Split(a + ":" + b + ":" + c, ':') == [a, b, c]
  {
    SplitTwo(b, c, ':');
    assert a + ":" + b + ":" + c == a + [':'] + (b + [':'] + c);
    SplitCons(a, b + [':'] + c, ':');
  }

  /** The text "HH:MM:SS" of three fields reads back as their seconds. */
  lemma ReadThreeFields(h: nat, m: nat, s: nat, n: int)
    requires n == h * 3600 + m * 60 + s
    ensures |Split(Pad2(h) + ":" + Pad2(m) + ":" + Pad2(s), ':')| == 3
    ensures ReadDuration(Pad2(h) + ":" + Pad2(m) + ":" + Pad2(s)) == Some(n)
  {
    Pad2Reads(h);
    Pad2Reads(m);
    Pad2Reads(s);
    SplitThree(Pad2(h), Pad2(m), Pad2(s));
    ReadThreeParts(Pad2(h), Pad2(m), Pad2(s), h, m, s, n);
  }

  /** The text "MM:SS" of two fields reads back as their seconds. */
  lemma ReadTwoFields(m: nat, s: nat, n: int)
    requires n == m * 60 + s
    ensures |Split(Pad2(m) + ":" + Pad2(s), ':')| == 2
    ensures ReadDuration(Pad2(m) + ":" + Pad2(s)) == Some(n)
  {
    Pad2Reads(m);
    Pad2Reads(s);
    SplitPair(Pad2(m), Pad2(s));
    ReadTwoParts(Pad2(m), Pad2(s), m, s, n);
  }

  lemma Regroup60(n: int)
    requires n >= 0
    ensures n == (n / 3600) * 3600 + ((n % 3600) / 60) * 60 + n % 60
  {
    var q, r := n / 3600, n % 3600;
    assert n == 3600 * q + r;
    assert r == 60 * (r / 60) + r % 60;
    assert n == 60 * (60 * q + r / 60) + r % 60;
    assert n % 60 == r % 60;
  }

  /** The formatted text in terms of the fields of the whole seconds. */
  lemma DurationText(seconds: real) returns (h: nat, m: nat, s: nat)
    requires seconds >= 0.0
    ensures seconds.Floor == h * 3600 + m * 60 + s
    ensures h > 0 <==> seconds.Floor >= 3600
    ensures h > 0 ==> FormatDuration(seconds) == Pad2(h) + ":" + Pad2(m) + ":" + Pad2(s)
    ensures h == 0 ==> FormatDuration(seconds) == Pad2(m) + ":" + Pad2(s)
  {
    DurationFields(seconds);
    var n := seconds.Floor;
    h, m, s := n / 3600, (n % 3600) / 60, n % 60;
    Regroup60(n);
  }

  /** For a non-negative duration the text has three fields exactly when there is at
      least one whole hour, and reading it back gives the whole seconds. */
  lemma FormatDurationRoundTrip(seconds: real)
    requires seconds >= 0.0
    ensures |Split(FormatDuration(seconds), ':')| == (if seconds.Floor >= 3600 then 3 else 2)
    ensures ReadDuration(FormatDuration(seconds)) == Some(seconds.Floor)
  {
    var h, m, s := DurationText(seconds);
    if h > 0 {
      ReadThreeFields(h, m, s, seconds.Floor);
    } else {
      ReadTwoFields(m, s, seconds.Floor);
    }
  }

  // ---------------------------------------------------------------------------
  // format_file_size

  const SizeNames: seq<string> := ["B", "KB", "MB", "GB", "TB"]

  function Pow1024(i: nat): (r: nat)
    ensures r >= 1
  {
    if i == 0 then 1 else 1024 * Pow1024(i - 1)
  }

  /** What `format_file_size` renders: "0 B", or a value and an index into SizeNames
      (the value is then printed with one decimal). */
  datatype SizeText = ZeroBytes | Scaled(value: real, unit: nat)

  /** `format_file_size(size_bytes)`: divide by 1024 while the value is at least 1024 and
      a larger unit remains. The unit is the largest i <= 4 with size >= 1024^i. */
  method FormatFileSize(sizeBytes: int) returns (r: SizeText)
    ensures r == ZeroBytes <==> sizeBytes == 0
    ensures r.Scaled? ==> r.unit < |SizeNames| && r.value == sizeBytes as real / Pow1024(r.unit) as real
    ensures r.Scaled? && r.unit > 0 ==> sizeBytes >= Pow1024(r.unit)
    ensures r.Scaled? && r.unit < 4 ==> sizeBytes < 1024 * Pow1024(r.unit)
  {
    if sizeBytes == 0 {
      return ZeroBytes;
    }
    var size: real := sizeBytes as real;
    var i := 0;
    while size >= 1024.0 && i < |SizeNames| - 1
      invariant 0 <= i <= 4
      invariant size == sizeBytes as real / Pow1024(i) as real
      invariant i > 0 ==> sizeBytes >= Pow1024(i)
    {
      ScaleUp(sizeBytes, Pow1024(i));
      size := size / 1024.0;
      i := i + 1;
    }
    if i < 4 {
      ScaleBelow(sizeBytes, Pow1024(i));
    }
    return Scaled(size, i);
  }

  lemma ScaleUp(n: int, p: nat)
    requires p >= 1 && n as real / p as real >= 1024.0
    ensures n >= 1024 * p
    ensures n as real / p as real / 1024.0 == n as real / (1024 * p) as real
  {
    DivMul(n as real, p as real);
    MulMono(1024.0, n as real / p as real, p as real);
  }

  lemma ScaleBelow(n: int, p: nat)
    requires p >= 1 && n as real / p as real < 1024.0
    ensures n < 1024 * p
  {
    DivMul(n as real, p as real);
    MulStrict(n as real / p as real, 1024.0, p as real);
  }

  // ---------------------------------------------------------------------------
  // estimate_output_size

  /** The CRF tiers of the size estimate. */
  function CompressionRatio(crf: int): real
  {
    if crf <= 18 then 0.8 else if crf <= 23 then 0.6 else if crf <= 28 then 0.4 else 0.3
  }

  /** Python's `int(x)` on a float: truncation toward zero. */
  function Truncate(x: real): (r: int)
    ensures x >= 0.0 ==> 0 <= r && r as real <= x < r as real + 1.0
  {
    if x >= 0.0 then x.Floor else -((-x).Floor)
  }

  /** `estimate_output_size(input_size, crf, scale_factor)`. */
  function EstimateOutputSize(inputSize: int, crf: int, scaleFactor: real): int
  {
    Truncate(inputSize as real * CompressionRatio(crf) * (scaleFactor * scaleFactor))
  }

  lemma RatioAntitone(a: int, b: int)
    requires a <= b
    ensures 0.3 <= CompressionRatio(b) <= CompressionRatio(a) <= 0.8
  {
  }

  lemma SquareNonNegative(x: real)
    ensures x * x >= 0.0
  {
    if x < 0.0 {
      MulMono(x, 0.0, -x);
    }
  }

  lemma TruncateMonotone(x: real, y: real)
    requires 0.0 <= x <= y
    ensures Truncate(x) <= Truncate(y)
  {
    var i, j := Truncate(x), Truncate(y);
    assert i as real <= x <= y < j as real + 1.0;
    assert i < j + 1;
  }

  /** A higher CRF never gives a larger estimate. */
  lemma EstimateAntitoneInCrf(inputSize: nat, a: int, b: int, scaleFactor: real)
    requires a <= b
    ensures EstimateOutputSize(inputSize, b, scaleFactor) <= EstimateOutputSize(inputSize, a, scaleFactor)
  {
    RatioAntitone(a, b);
    SquareNonNegative(scaleFactor);
    ScaledMono(inputSize as real, CompressionRatio(b), CompressionRatio(a), scaleFactor * scaleFactor);
  }

  lemma ScaledMono(n: real, x: real, y: real, f: real)
    requires n >= 0.0 && 0.0 <= x <= y && f >= 0.0
    ensures Truncate(n * x * f) <= Truncate(n * y * f)
  {
    ProductMono(n, x, y, f);
    TruncateMonotone(n * x * f, n * y * f);
  }

  lemma ProductMono(n: real, x: real, y: real, f: real)
    requires n >= 0.0 && 0.0 <= x <= y && f >= 0.0
    ensures 0.0 <= n * x * f <= n * y * f
  {
    MulMono(x, y, n);
    MulMono(0.0, x, n);
    MulMono(n * x, n * y, f);
    MulMono(0.0, n * x, f);
  }

  lemma SquareMono(n: real, a: real, b: real)
    requires n >= 0.0 && 0.0 <= a <= b
    ensures 0.0 <= n * (a * a) <= n * (b * b)
  {
    MulMono(a, b, a);
    MulMono(a, b, b);
    MulMono(a * a, b * b, n);
    MulMono(0.0, a * a, n);
  }

  /** Without upscaling the estimate lies between 0 and the input size. */
  lemma EstimateBounds(inputSize: nat, crf: int, scaleFactor: real)
    requires 0.0 <= scaleFactor <= 1.0
    ensures 0 <= EstimateOutputSize(inputSize, crf, scaleFactor) <= inputSize
  {
    RatioAntitone(crf, crf);
    var n := inputSize as real;
    var f := scaleFactor * scaleFactor;
    var g := n * CompressionRatio(crf);
    Shrink(scaleFactor, scaleFactor);
    Shrink(n, CompressionRatio(crf));
    Shrink(g, f);
    Below(g * f, g, n);
    assert EstimateOutputSize(inputSize, crf, scaleFactor) == Truncate(g * f);
  }

  lemma Shrink(g: real, f: real)
    requires g >= 0.0 && 0.0 <= f <= 1.0
    ensures 0.0 <= g * f <= g
  {
    MulMono(f, 1.0, g);
    MulMono(0.0, f, g);
  }

  lemma Below(a: real, b: real, c: real)
    requires 0.0 <= a <= b <= c
    ensures Truncate(a) as real <= c
  {
  }

  // ---------------------------------------------------------------------------
  // is_video_file

  /** The twelve extensions `is_video_file` accepts. */
  const VideoExtensions: set<string> :=
    {".mp4", ".avi", ".mov", ".mkv", ".wmv", ".flv", ".webm", ".m4v", ".3gp", ".ogv", ".ts", ".mts"}

  /** `is_video_file(filepath)`: the lower-cased suffix of the final component is one of
      the listed extensions. */
  predicate IsVideoFile(path: string)
  {
    LowerSuffix(path) in VideoExtensions
  }

  /** Whatever the directory and whatever the case of the extension, `stem + ext` is a
      video file when the lower-cased extension is listed. */
  lemma VideoFileByExtension(dir: string, stem: string, ext: string)
    requires stem != "" && '/' !in stem
    requires |ext| >= 2 && ext[0] == '.' && '.' !in ext[1..] && '/' !in ext
    requires Lower(ext) in VideoExtensions
    ensures IsVideoFile(dir + "/" + stem + ext)
    ensures IsVideoFile(stem + ext)
  {
    var name := stem + ext;
    assert name[|stem|] == '.';
    assert name != ".";
    assert '/' !in name by {
      assert forall k :: 0 <= k < |name| ==> name[k] == (if k < |stem| then stem[k] else ext[k - |stem|]);
    }
    NameOfJoined(dir, name);
    assert dir + "/" + stem + ext == dir + "/" + name;
    NameOfBare(name);
    SuffixOfExtension(stem, ext);
  }

  /** A final component without a dot is never a video file. */
  lemma NoDotNoVideo(path: string)
    requires '.' !in Name(Parse(path))
    ensures !IsVideoFile(path)
  {
    var name := Name(Parse(path));
    assert SuffixDot(name).None?;
    assert Lower("") == "";
  }

  /** The case-insensitive example: "clip.MOV" is a video file. */
  lemma UpperCaseExtension()
    ensures IsVideoFile("clip.MOV")
  {
    ClipParts();
    VideoFileByExtension("", "clip", ".MOV");
  }

  lemma ClipParts()
    ensures "clip" != "" && '/' !in "clip"
    ensures '.' !in ".MOV"[1..] && '/' !in ".MOV"
    ensures Lower(".MOV") in VideoExtensions
    ensures "clip" + ".MOV" == "clip.MOV"
  {
    var ext := ".MOV";
    assert ext[1..] == "MOV";
    assert Lower(ext) == ".mov";
  }

  // ---------------------------------------------------------------------------
  // get_unique_filename

  /** The path `parent / f"{stem}_{k}{suffix}"` rendered as `str` does. */
  function Candidate(p: PurePath, k: nat): string
  {
    Render(Child(Parent(p), Stem(Name(p)) + "_" + NatToString(k) + Suffix(Name(p))))
  }

  lemma CancelSides(a: string, x: string, y: string, b: string)
    requires a + x + b == a + y + b
    ensures x == y
  {
    assert |a + x + b| == |a| + |x| + |b| && |a + y + b| == |a| + |y| + |b|;
    assert x == (a + x + b)[|a|..|a| + |x|];
    assert y == (a + y + b)[|a|..|a| + |y|];
  }

  /** Different counters give different candidates. */
  lemma CandidateInjective(p: PurePath, j: nat, k: nat)
    requires Candidate(p, j) == Candidate(p, k)
    ensures j == k
  {
    var stem, suf := Stem(Name(p)), Suffix(Name(p));
    var nj, nk := NatToString(j), NatToString(k);
    ChildNameInjective(Parent(p), stem + "_" + nj + suf, stem + "_" + nk + suf);
    CancelSides(stem + "_", nj, nk, suf);
    NatToStringInjective(j, k);
  }

  /** Children of one directory render alike only when their names are equal. */
  lemma ChildNameInjective(q: PurePath, x: string, y: string)
    requires Render(Child(q, x)) == Render(Child(q, y))
    ensures x == y
  {
    RenderChild(q, x);
    RenderChild(q, y);
    var a := ChildPrefix(q);
    assert a + x == a + y;
    assert x == (a + x)[|a|..];
    assert y == (a + y)[|a|..];
  }

  lemma SubsetSize(a: set<string>, b: set<string>)
    requires a <= b
    ensures |a| <= |b|
  {
    assert b == a + (b - a);
    assert a * (b - a) == {};
  }

  /** `get_unique_filename(filepath)`. `existing` holds the rendered paths that exist. */
  method GetUniqueFilename(filepath: string, existing: set<string>) returns (r: string)
    ensures Render(Parse(filepath)) !in existing ==> r == filepath
    ensures Render(Parse(filepath)) in existing ==>
              exists k :: k >= 1 && r == Candidate(Parse(filepath), k) && r !in existing
                          && forall j :: 1 <= j < k ==> Candidate(Parse(filepath), j) in existing
  {
    var p := Parse(filepath);
    if Render(p) !in existing {
      return filepath;
    }
    var counter := 1;
    ghost var tried: set<string> := {};
    while true
      invariant counter >= 1
      invariant tried == set j | 1 <= j < counter :: Candidate(p, j)
      invariant |tried| == counter - 1
      invariant forall j :: 1 <= j < counter ==> Candidate(p, j) in existing
      decreases |existing| - |tried|
    {
      assert tried <= existing;
      SubsetSize(tried, existing);
      var newName := Stem(Name(p)) + "_" + NatToString(counter) + Suffix(Name(p));
      var newPath := Child(Parent(p), newName);
      if Render(newPath) !in existing {
        assert Render(newPath) == Candidate(p, counter);
        return Render(newPath);
      }
      assert Candidate(p, counter) !in tried by {
        forall j | 1 <= j < counter
          ensures Candidate(p, j) != Candidate(p, counter)
        {
          if Candidate(p, j) == Candidate(p, counter) {
            CandidateInjective(p, j, counter);
          }
        }
      }
      tried := tried + {Render(newPath)};
      counter := counter + 1;
      SubsetSize(tried, existing);
    }
  }

  // ---------------------------------------------------------------------------
  // FileWatcher

  /** One look at the file: it is absent, or stat gives its mtime and size, or the check
      raised. */
  datatype StatResult = Missing | Present(mtime: real, size: int) | StatFailed

  /** The pair `_update_stats` leaves: an absent file keeps the old pair, a failure clears
      it, otherwise the new pair is recorded. The time and the size are recorded together:
      a pair with both or neither set stays so. */
  function Observed(modified: Option<real>, size: Option<int>, stat: StatResult): (r: (Option<real>, Option<int>))
    ensures (modified.Some? <==> size.Some?) ==> (r.0.Some? <==> r.1.Some?)
  {
    match stat
    case Missing => (modified, size)
    case Present(m, s) => (Some(m), Some(s))
    case StatFailed => (None, None)
  }

  /** A look at a present file reports a change exactly when its mtime or size differs
      from the recorded one. */
  lemma ChangeOnPresent(modified: Option<real>, size: Option<int>, m: real, s: int)
    ensures Observed(modified, size, Present(m, s)) != (modified, size) <==> modified != Some(m) || size != Some(s)
  {
  }

  /** A missing file never reports a change. */
  lemma NoChangeWhenMissing(modified: Option<real>, size: Option<int>)
    ensures Observed(modified, size, Missing) == (modified, size)
  {
  }

  class FileWatcher {
    const filepath: PurePath
    var lastModified: Option<real>
    var lastSize: Option<int>

    /** `FileWatcher(filepath)`: starts with no pair and looks once. */
    constructor(filepath: string, stat: StatResult)
      ensures this.filepath == Parse(filepath)
      ensures (lastModified, lastSize) == Observed(None, None, stat)
    {
      this.filepath := Parse(filepath);
      lastModified := None;
      lastSize := None;
      new;
      UpdateStats(stat);
    }

    /** `_update_stats`. */
    method UpdateStats(stat: StatResult)
      modifies this
      ensures (lastModified, lastSize) == Observed(old(lastModified), old(lastSize), stat)
    {
      match stat
      case Present(m, s) =>
        lastModified := Some(m);
        lastSize := Some(s);
      case StatFailed =>
        lastModified := None;
        lastSize := None;
      case Missing =>
    }

    /** `has_changed`: looks again and compares with the pair recorded before. */
    method HasChanged(stat: StatResult) returns (changed: bool)
      modifies this
      ensures (lastModified, lastSize) == Observed(old(lastModified), old(lastSize), stat)
      ensures changed <==> (lastModified, lastSize) != (old(lastModified), old(lastSize))
    {
      var oldModified, oldSize := lastModified, lastSize;
      UpdateStats(stat);
      changed := lastModified != oldModified || lastSize != oldSize;
    }
  }
}
