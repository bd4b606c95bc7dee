/** How a line of FFmpeg's diagnostic output turns into a progress value
    (`_parse_ffmpeg_output`), and the `CompressionProgress` record, from
    core/compressor.py. */
module ProgressParsing {

  import opened Wrappers
  import opened Text

  // ---------------------------------------------------------------------------
  // The search for `time=(\d+):(\d+):(\d+\.\d+)`

  /** Splits off the longest prefix of decimal digits. Each digit group of the pattern
      is followed by a non-digit (':' or '.') or ends the pattern, so greedy matching
      takes exactly this prefix. */
  function TakeDigits(s: string): (r: (string, string))
    ensures AllDigits(r.0) && r.0 + r.1 == s
    ensures r.1 == [] || !IsDigit(r.1[0])
  {
    if s != [] && IsDigit(s[0]) then
      var rest := TakeDigits(s[1..]);
      assert [s[0]] + rest.0 + rest.1 == s;
      ([s[0]] + rest.0, rest.1)
    else ([], s)
  }

  function Pow10(n: nat): (p: nat)
    ensures p >= 1
  {
    if n == 0 then 1 else 10 * Pow10(n - 1)
  }

  /** `float("<w>.<f>")` for a whole part `w` and the digits `f` after the point. */
  function DecimalValue(w: nat, f: string): (r: real)
    requires AllDigits(f)
    ensures r >= 0.0
  {
    w as real + DigitsValue(f) as real / Pow10(|f|) as real
  }

  /** `hours * 3600 + minutes * 60 + seconds`. */
  function ClockSeconds(h: nat, m: nat, s: real): real
  {
    (h * 3600 + m * 60) as real + s
  }

  /** The seconds denoted by a match of the pattern at the start of `t`, or None when
      the pattern does not match there. The groups are read one after the other: hours
      and minutes are digit runs ended by ':', and the seconds group `\d+\.\d+` is read
      as the decimal number it spells. */
  function MatchTime(t: string): (r: Option<real>)
    ensures r.Some? ==> StartsWith(t, "time=") && r.value >= 0.0
  {
    if StartsWith(t, "time=") then HoursOf(t[5..]) else None
  }

  function HoursOf(t: string): (r: Option<real>)
    ensures r.Some? ==> r.value >= 0.0
  {
    var (d, rest) := TakeDigits(t);
    if d != [] && rest != [] && rest[0] == ':' then MinutesOf(rest[1..], DigitsValue(d)) else None
  }

  function MinutesOf(t: string, h: nat): (r: Option<real>)
    ensures r.Some? ==> r.value >= 0.0
  {
    var (d, rest) := TakeDigits(t);
    if d != [] && rest != [] && rest[0] == ':' then SecondsOf(rest[1..], h, DigitsValue(d)) else None
  }

  function SecondsOf(t: string, h: nat, m: nat): (r: Option<real>)
    ensures r.Some? ==> r.value >= 0.0
  {
    var (d, rest) := TakeDigits(t);
    if d != [] && rest != [] && rest[0] == '.' then FractionOf(rest[1..], h, m, DigitsValue(d)) else None
  }

  function FractionOf(t: string, h: nat, m: nat, w: nat): (r: Option<real>)
    ensures r.Some? ==> r.value >= 0.0
  {
    var (d, _) := TakeDigits(t);
    if d != [] then Some(ClockSeconds(h, m, DecimalValue(w, d))) else None
  }

  /** `re.search`: the match at the leftmost position `p` or later where there is one. */
  function SearchTimeFrom(line: string, p: nat): Option<real>
    requires p <= |line|
    decreases |line| - p
  {
    var here := MatchTime(line[p..]);
    if here.Some? then here
    else if p == |line| then None
    else SearchTimeFrom(line, p + 1)
  }

  function SearchTime(line: string): Option<real>
  {
    SearchTimeFrom(line, 0)
  }

  /** A successful search returns a match found at some position; a failed one means
      the pattern matches at no position. */
  lemma {:induction false} SearchTimeSound(line: string, p: nat)
    requires p <= |line|
    ensures SearchTimeFrom(line, p).Some? ==>
              exists q :: p <= q <= |line| && MatchTime(line[q..]) == SearchTimeFrom(line, p)
    ensures SearchTimeFrom(line, p).None? ==> forall q :: p <= q <= |line| ==> MatchTime(line[q..]).None?
    decreases |line| - p
  {
    var r := SearchTimeFrom(line, p);
    if MatchTime(line[p..]).Some? {
      assert MatchTime(line[p..]) == r;
    } else if p == |line| {
      forall q | p <= q <= |line|
        ensures MatchTime(line[q..]).None?
      {
        assert q == p;
      }
    } else {
      assert r == SearchTimeFrom(line, p + 1);
      SearchTimeSound(line, p + 1);
      if r.Some? {
        var q :| p + 1 <= q <= |line| && MatchTime(line[q..]) == r;
        assert p <= q <= |line| && MatchTime(line[q..]) == r;
      } else {
        forall q | p <= q <= |line|
          ensures MatchTime(line[q..]).None?
        {
          if q == p {
            assert MatchTime(line[p..]).None?;
          }
        }
      }
    }
  }

  /** The search returns the match at the first position where there is one. */
  lemma {:induction false} SearchTimeFirst(line: string, p: nat, q: nat)
    requires p <= q <= |line| && MatchTime(line[q..]).Some?
    requires forall x :: p <= x < q ==> MatchTime(line[x..]).None?
    ensures SearchTimeFrom(line, p) == MatchTime(line[q..])
    decreases q - p
  {
    if p < q {
      SearchTimeFirst(line, p + 1, q);
    }
  }

  /** A digit string followed by a non-digit (or nothing) is split off whole. */
  lemma {:induction false} TakeDigitsOf(d: string, post: string)
    requires AllDigits(d) && (post == [] || !IsDigit(post[0]))
    ensures TakeDigits(d + post) == (d, post)
    decreases |d|
  {
    if d != [] {
      assert (d + post)[1..] == d[1..] + post;
      TakeDigitsOf(d[1..], post);
      assert [d[0]] + d[1..] == d;
    } else {
      assert d + post == post;
    }
  }

  /** A time field with the given digit groups. */
  function TimeText(H: string, M: string, S: string, C: string): string
  {
    "time=" + H + ":" + M + ":" + S + "." + C
  }

  /** The text FFmpeg prints: `time=HH:MM:SS.cc`. */
  function TimeField(h: nat, m: nat, s: nat, cs: nat): string
  {
    TimeText(Pad2(h), Pad2(m), Pad2(s), Pad2(cs))
  }

  lemma HoursStep(H: string, post: string)
    requires H != [] && AllDigits(H)
    ensures HoursOf(H + ([':'] + post)) == MinutesOf(post, DigitsValue(H))
  {
    TakeDigitsOf(H, [':'] + post);
    assert ([':'] + post)[1..] == post;
  }

  lemma MinutesStep(M: string, post: string, h: nat)
    requires M != [] && AllDigits(M)
    ensures MinutesOf(M + ([':'] + post), h) == SecondsOf(post, h, DigitsValue(M))
  {
    TakeDigitsOf(M, [':'] + post);
    assert ([':'] + post)[1..] == post;
  }

  lemma SecondsStep(S: string, post: string, h: nat, m: nat)
    requires S != [] && AllDigits(S)
    ensures SecondsOf(S + (['.'] + post), h, m) == FractionOf(post, h, m, DigitsValue(S))
  {
    TakeDigitsOf(S, ['.'] + post);
    assert (['.'] + post)[1..] == post;
  }

  lemma FractionStep(C: string, rest: string, h: nat, m: nat, w: nat)
    requires C != [] && AllDigits(C) && (rest == [] || !IsDigit(rest[0]))
    ensures FractionOf(C + rest, h, m, w) == Some(ClockSeconds(h, m, DecimalValue(w, C)))
  {
    TakeDigitsOf(C, rest);
  }

  /** Reading a line that begins with a time field gives back the seconds its digit
      fields spell. */
  lemma TimeTextRoundTrip(H: string, M: string, S: string, C: string, rest: string)
    requires H != [] && M != [] && S != [] && C != []
    requires AllDigits(H) && AllDigits(M) && AllDigits(S) && AllDigits(C)
    requires rest == [] || !IsDigit(rest[0])
    ensures SearchTime(TimeText(H, M, S, C) + rest)
            == Some(ClockSeconds(DigitsValue(H), DigitsValue(M), DecimalValue(DigitsValue(S), C)))
  {
    var line := TimeText(H, M, S, C) + rest;
    var t4 := C + rest;
    var t3 := S + (['.'] + t4);
    var t2 := M + ([':'] + t3);
    var t1 := H + ([':'] + t2);
    assert line == "time=" + t1;
    assert line[0..] == line && line[5..] == t1;
    HoursStep(H, t2);
    MinutesStep(M, t3, DigitsValue(H));
    SecondsStep(S, t4, DigitsValue(H), DigitsValue(M));
    FractionStep(C, rest, DigitsValue(H), DigitsValue(M), DigitsValue(S));
  }

  /** The field as FFmpeg prints it, `time=HH:MM:SS.cc`, reads back as its seconds. */
  lemma TimeFieldRoundTrip(h: nat, m: nat, s: nat, cs: nat, rest: string)
    requires cs < 100
    requires rest == [] || !IsDigit(rest[0])
    ensures SearchTime(TimeField(h, m, s, cs) + rest) == Some(ClockSeconds(h, m, s as real + cs as real / 100.0))
  {
    Pad2Value(h);
    Pad2Value(m);
    Pad2Value(s);
    Pad2Value(cs);
    PaddedRoundTrip(Pad2(h), Pad2(m), Pad2(s), Pad2(cs), h, m, s, cs, rest);
  }

  lemma PaddedRoundTrip(H: string, M: string, S: string, C: string, h: nat, m: nat, s: nat, cs: nat, rest: string)
    requires |H| >= 2 && |M| >= 2 && |S| >= 2 && |C| == 2
    requires AllDigits(H) && AllDigits(M) && AllDigits(S) && AllDigits(C)
    requires DigitsValue(H) == h && DigitsValue(M) == m && DigitsValue(S) == s && DigitsValue(C) == cs
    requires rest == [] || !IsDigit(rest[0])
    ensures SearchTime(TimeText(H, M, S, C) + rest) == Some(ClockSeconds(h, m, s as real + cs as real / 100.0))
  {
    TimeTextRoundTrip(H, M, S, C, rest);
    CentiValue(s, C);
    assert DecimalValue(DigitsValue(S), C) == s as real + cs as real / 100.0;
    assert ClockSeconds(DigitsValue(H), DigitsValue(M), DecimalValue(DigitsValue(S), C))
        == ClockSeconds(h, m, s as real + cs as real / 100.0);
  }

  lemma CentiValue(w: nat, C: string)
    requires AllDigits(C) && |C| == 2
    ensures DecimalValue(w, C) == w as real + DigitsValue(C) as real / 100.0
  {
    assert Pow10(|C|) == 100;
  }

  /** FFmpeg's placeholder `time=N/A` contains "time=" but no match. */
  lemma NotAvailableTime()
    ensures Contains("time=N/A", "time=") && SearchTime("time=N/A").None?
  {
    var line := "time=N/A";
    assert StartsWith(line, "time=");
    forall q | 0 <= q <= |line|
      ensures MatchTime(line[q..]).None?
    {
      if q == 0 {
        assert line[0..][5..] == "N/A";
        assert TakeDigits("N/A") == ([], "N/A");
      }
    }
  }

  // ---------------------------------------------------------------------------
  // From seconds to a percentage

  /** `max(0, min(99, x))`. */
  function Clamp99(x: real): (r: real)
    ensures 0.0 <= r <= 99.0
    ensures 0.0 <= x <= 99.0 ==> r == x
  {
    if x > 99.0 then 99.0 else if x < 0.0 then 0.0 else x
  }

  /** The share of the whole job a base percentage `b` of one pass stands for: all of
      it for a single pass, the first half for pass 1 and the second half otherwise. */
  function PassPercent(b: real, isTwoPass: bool, passNumber: int): real
  {
    if !isTwoPass then b else if passNumber == 1 then b * 0.5 else 50.0 + b * 0.5
  }

  /** What `_parse_ffmpeg_output` does with one line. */
  datatype LineEffect =
    | Ignored          // nothing happens
    | Emit(value: real) // the callback receives `value`
    | Summary          // logged as FFmpeg's completion summary
    | Warning          // logged as a potential error

  /** The effect of one line, given the total duration, the pass and whether a callback
      is set. */
  function ParseOutput(line: string, totalDuration: real, isTwoPass: bool, passNumber: int, hasCallback: bool)
    : (r: LineEffect)
    ensures r.Emit? ==> 0.0 <= r.value <= 99.0
  {
    if line == "" || !hasCallback then Ignored
    else if Contains(line, "time=") then
      match SearchTime(line)
      case Some(t) =>
        if totalDuration > 0.0 then Emit(Clamp99(PassPercent(t / totalDuration * 100.0, isTwoPass, passNumber)))
        else Ignored
      case None => Ignored
    else if IsSummary(line) then Summary
    else if MentionsFailure(line) then Warning
    else Ignored
  }

  /** The conditions under which a line is forwarded, logged as the summary or logged as
      a warning; every other line is ignored. */
  lemma ParseOutputCases(line: string, totalDuration: real, isTwoPass: bool, passNumber: int, hasCallback: bool)
    ensures var r := ParseOutput(line, totalDuration, isTwoPass, passNumber, hasCallback);
      && (r.Emit? <==> line != "" && hasCallback && totalDuration > 0.0 && Contains(line, "time=")
                       && SearchTime(line).Some?)
      && (r.Emit? ==> r.value == Clamp99(PassPercent(SearchTime(line).value / totalDuration * 100.0, isTwoPass, passNumber)))
      && (r == Summary <==> line != "" && hasCallback && !Contains(line, "time=") && IsSummary(line))
      && (r == Warning <==> line != "" && hasCallback && !Contains(line, "time=") && !IsSummary(line)
                            && MentionsFailure(line))
  {
  }

  /** FFmpeg's closing statistics line. */
  predicate IsSummary(line: string)
  {
    Contains(line, "video:") && (Contains(line, "audio:") || Contains(line, "subtitle:"))
  }

  predicate MentionsFailure(line: string)
  {
    Contains(Lower(line), "error") || Contains(Lower(line), "failed")
  }

  /** The value a matched time gives in each encoding mode. */
  lemma EmittedValue(line: string, d: real, isTwoPass: bool, passNumber: int, t: real)
    requires line != "" && Contains(line, "time=") && SearchTime(line) == Some(t) && d > 0.0
    ensures var b := t / d * 100.0;
            ParseOutput(line, d, isTwoPass, passNumber, true)
            == Emit(if !isTwoPass then Clamp99(b)
                    else if passNumber == 1 then Clamp99(b / 2.0)
                    else Clamp99(50.0 + b / 2.0))
  {
  }

  /** Later times never give a smaller value within one pass. */
  lemma PassPercentMonotone(t1: real, t2: real, d: real, isTwoPass: bool, passNumber: int)
    requires d > 0.0 && t1 <= t2
    ensures Clamp99(PassPercent(t1 / d * 100.0, isTwoPass, passNumber))
            <= Clamp99(PassPercent(t2 / d * 100.0, isTwoPass, passNumber))
  {
    DivMonotone(t1, t2, d);
  }

  lemma DivMonotone(t1: real, t2: real, d: real)
    requires d > 0.0 && t1 <= t2
    ensures t1 / d * 100.0 <= t2 / d * 100.0
  {
    assert t2 / d - t1 / d == (t2 - t1) / d;
    assert (t2 - t1) / d >= 0.0;
  }

  /** Within the duration, pass 1 stays in the first half and pass 2 in the second. */
  lemma PassHalves(t: real, d: real)
    requires d > 0.0 && 0.0 <= t <= d
    ensures Clamp99(PassPercent(t / d * 100.0, true, 1)) <= 50.0
    ensures 50.0 <= Clamp99(PassPercent(t / d * 100.0, true, 2))
  {
    DivMonotone(t, d, d);
    DivMonotone(0.0, t, d);
    assert d / d == 1.0;
  }

  /** Summary lines win over warning lines. */
  lemma SummaryBeforeWarning(line: string, d: real, isTwoPass: bool, passNumber: int)
    requires line != "" && !Contains(line, "time=") && IsSummary(line) && MentionsFailure(line)
    ensures ParseOutput(line, d, isTwoPass, passNumber, true) == Summary
  {
  }

  // ---------------------------------------------------------------------------
  // CompressionProgress

  /** `min(current / total, 1.0)`, the fraction `update` passes to the callback. */
  function Fraction(current: real, total: real): real
    requires total > 0.0
  {
    if current / total < 1.0 then current / total else 1.0
  }

  /** The progress record. `sent` lists, in order, every value handed to the callback;
      `hasCallback` says whether one is set. */
  class CompressionProgress {
    var totalDuration: real
    var currentTime: real
    var speed: real
    var eta: real
    var isTwoPass: bool
    var hasCallback: bool
    var sent: seq<real>

    constructor(totalDuration: real)
      ensures this.totalDuration == totalDuration && currentTime == 0.0 && speed == 0.0 && eta == 0.0
      ensures !isTwoPass && !hasCallback && sent == []
    {
      this.totalDuration := totalDuration;
      currentTime := 0.0;
      speed := 0.0;
      eta := 0.0;
      isTwoPass := false;
      hasCallback := false;
      sent := [];
    }

    /** `set_callback`. */
    method SetCallback()
      modifies this
      ensures hasCallback
      ensures totalDuration == old(totalDuration) && currentTime == old(currentTime) && speed == old(speed)
      ensures eta == old(eta) && isTwoPass == old(isTwoPass) && sent == old(sent)
    {
      hasCallback := true;
    }

    /** The callback is called with `value`, if there is one. */
    method Notify(value: real)
      modifies this
      ensures sent == old(sent) + (if hasCallback then [value] else [])
      ensures totalDuration == old(totalDuration) && currentTime == old(currentTime) && speed == old(speed)
      ensures eta == old(eta) && isTwoPass == old(isTwoPass) && hasCallback == old(hasCallback)
    {
      if hasCallback {
        sent := sent + [value];
      }
    }

    /** `update(current_time, speed)`: records both, recomputes the ETA when the speed
        and the progress are positive, and hands the clamped fraction to the callback. */
    method Update(currentTime: real, speed: real)
      modifies this
      ensures this.currentTime == currentTime && this.speed == speed
      ensures totalDuration == old(totalDuration) && isTwoPass == old(isTwoPass) && hasCallback == old(hasCallback)
      ensures totalDuration > 0.0 && speed > 0.0 && Fraction(currentTime, totalDuration) > 0.0
              ==> eta == (totalDuration - currentTime) / speed
      ensures !(totalDuration > 0.0 && speed > 0.0 && Fraction(currentTime, totalDuration) > 0.0) ==> eta == old(eta)
      ensures sent == old(sent) + (if totalDuration > 0.0 && hasCallback then [Fraction(currentTime, totalDuration)] else [])
      ensures forall k :: |old(sent)| <= k < |sent| ==> sent[k] <= 1.0
    {
      this.currentTime := currentTime;
      this.speed := speed;
      if totalDuration > 0.0 {
        var progress := Fraction(currentTime, totalDuration);
        if speed > 0.0 && progress > 0.0 {
          eta := (totalDuration - currentTime) / speed;
        }
        if hasCallback {
          sent := sent + [progress];
        }
      }
    }

    /** The `percentage` property. */
    function Percentage(): (r: real)
      reads this
      ensures r <= 100.0
      ensures totalDuration <= 0.0 ==> r == 0.0
      ensures totalDuration > 0.0 && currentTime >= 0.0 ==> r >= 0.0
      ensures totalDuration > 0.0 && currentTime >= totalDuration ==> r == 100.0
    {
      if totalDuration > 0.0 then
        var p := currentTime / totalDuration * 100.0;
        PercentBounds(currentTime, totalDuration);
        if p < 100.0 then p else 100.0
      else 0.0
    }
  }

  lemma PercentBounds(c: real, d: real)
    requires d > 0.0
    ensures c >= 0.0 ==> c / d * 100.0 >= 0.0
    ensures c >= d ==> c / d * 100.0 >= 100.0
  {
    if c >= 0.0 {
      DivMonotone(0.0, c, d);
    }
    if c >= d {
      DivMonotone(d, c, d);
      assert d / d == 1.0;
    }
  }
}
