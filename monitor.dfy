/** The read-and-split loop of `_monitor_progress` and the per-line step
    `_parse_ffmpeg_output`, from core/compressor.py. The process's diagnostic stream
    is given as the chunks the loop reads before it sees the process has exited. */
module ProgressMonitor {

  import opened Wrappers
  import opened Text
  import opened ProgressParsing

  /** A line cut from the buffer and the delimiter that ended it. */
  datatype Piece = Piece(line: string, delim: char)

  predicate HasBreak(buf: string) { '\n' in buf || '\r' in buf }

  /** One cut: at the first '\n' if there is one, otherwise at the first '\r'. */
  function Cut(buf: string): (r: (Piece, string))
    requires HasBreak(buf)
    ensures r.0.line + [r.0.delim] + r.1 == buf
  {
    var d := if '\n' in buf then '\n' else '\r';
    var i := IndexOf(buf, d);
    assert buf == buf[..i] + [d] + buf[i + 1..];
    (Piece(buf[..i], d), buf[i + 1..])
  }

  /** A newline anywhere in the buffer takes precedence over an earlier carriage return;
      either way the line holds no newline. */
  lemma CutDelimiter(buf: string)
    requires HasBreak(buf)
    ensures '\n' in buf ==> Cut(buf).0.delim == '\n'
    ensures '\n' !in buf ==> Cut(buf).0.delim == '\r' && '\r' !in Cut(buf).0.line
    ensures '\n' !in Cut(buf).0.line
  {
    var d := if '\n' in buf then '\n' else '\r';
    var i := IndexOf(buf, d);
    assert Cut(buf).0.line == buf[..i];
    if '\n' !in buf {
      assert forall k :: 0 <= k < i ==> buf[..i][k] == buf[k];
    }
  }

  /** Cutting until no delimiter is left: the pieces in order and what remains. */
  function Drain(buf: string): (r: (seq<Piece>, string))
    ensures !HasBreak(r.1)
    decreases |buf|
  {
    if !HasBreak(buf) then ([], buf)
    else
      var c := Cut(buf);
      var d := Drain(c.1);
      ([c.0] + d.0, d.1)
  }

  /** The text the pieces were cut from. */
  function Concat(ps: seq<Piece>): string
  {
    if ps == [] then "" else ps[0].line + [ps[0].delim] + Concat(ps[1..])
  }

  function Flatten(chunks: seq<string>): string
  {
    if chunks == [] then "" else Flatten(chunks[..|chunks| - 1]) + chunks[|chunks| - 1]
  }

  /** The state after each chunk is appended and the buffer drained: all pieces cut so
      far and the buffer left over. */
  function Feed(chunks: seq<string>): (seq<Piece>, string)
  {
    if chunks == [] then ([], "")
    else
      var before := Feed(chunks[..|chunks| - 1]);
      var after := Drain(before.1 + chunks[|chunks| - 1]);
      (before.0 + after.0, after.1)
  }

  /** Nothing is lost when the buffer is drained. */
  lemma {:induction false} DrainConcat(buf: string)
    ensures Concat(Drain(buf).0) + Drain(buf).1 == buf
    decreases |buf|
  {
    if HasBreak(buf) {
      var c := Cut(buf);
      DrainConcat(c.1);
      assert Drain(buf).0[0] == c.0 && Drain(buf).0[1..] == Drain(c.1).0;
    }
  }

  lemma {:induction false} ConcatAppend(ps: seq<Piece>, qs: seq<Piece>)
    ensures Concat(ps + qs) == Concat(ps) + Concat(qs)
    decreases |ps|
  {
    if ps == [] {
      assert ps + qs == qs;
    } else {
      assert (ps + qs)[0] == ps[0];
      assert (ps + qs)[1..] == ps[1..] + qs;
      ConcatAppend(ps[1..], qs);
      var h := ps[0].line + [ps[0].delim];
      calc {
        Concat(ps + qs);
        h + Concat(ps[1..] + qs);
        h + (Concat(ps[1..]) + Concat(qs));
        (h + Concat(ps[1..])) + Concat(qs);
      }
    }
  }

  /** Every character read is in a piece or in the final buffer, in order. */
  lemma {:induction false} FeedConcat(chunks: seq<string>)
    ensures Concat(Feed(chunks).0) + Feed(chunks).1 == Flatten(chunks)
    decreases |chunks|
  {
    if chunks != [] {
      var init := chunks[..|chunks| - 1];
      var last := chunks[|chunks| - 1];
      var ps := Feed(init).0;
      var buf := Feed(init).1;
      var qs := Drain(buf + last).0;
      var rest := Drain(buf + last).1;
      assert Feed(chunks) == (ps + qs, rest);
      FeedConcat(init);
      DrainConcat(buf + last);
      ConcatAppend(ps, qs);
      assert Flatten(chunks) == Flatten(init) + last;
      Regroup(Concat(ps), Concat(qs), Concat(ps + qs), rest, buf, last, Flatten(init));
    }
  }

  lemma Regroup(a: string, b: string, ab: string, rest: string, buf: string, last: string, before: string)
    requires ab == a + b && b + rest == buf + last && a + buf == before
    ensures ab + rest == before + last
  {
    assert (a + b) + rest == a + (b + rest);
    assert a + (buf + last) == (a + buf) + last;
  }

  lemma PieceRegroup(cut: seq<Piece>, piece: Piece, later: seq<Piece>, all: seq<Piece>)
    requires all == [piece] + later
    ensures cut + all == (cut + [piece]) + later
  {
  }

  /** Two successive extensions of a trace are one extension by their concatenation. */
  lemma Extend(start: seq<real>, x: seq<real>, y: seq<real>, mid: seq<real>, now: seq<real>)
    requires mid == start + x && now == mid + y
    ensures now == start + (x + y)
  {
    assert (start + x) + y == start + (x + y);
  }

  /** The lines handed to the parser for the given pieces: stripped, blank ones skipped. */
  function ParsedLines(ps: seq<Piece>): seq<string>
  {
    FlatMap(ps, LineOf)
  }

  /** The concatenation of `f(x)` over `xs`, in order. */
  function FlatMap<T, U>(xs: seq<T>, f: T -> seq<U>): seq<U>
  {
    if xs == [] then [] else FlatMap(xs[..|xs| - 1], f) + f(xs[|xs| - 1])
  }

  lemma {:induction false} FlatMapAppend<T, U>(xs: seq<T>, ys: seq<T>, f: T -> seq<U>)
    ensures FlatMap(xs + ys, f) == FlatMap(xs, f) + FlatMap(ys, f)
    decreases |ys|
  {
    if ys == [] {
      assert xs + ys == xs;
    } else {
      var init := ys[..|ys| - 1];
      var all := xs + ys;
      assert all[..|all| - 1] == xs + init;
      assert all[|all| - 1] == ys[|ys| - 1];
      FlatMapAppend(xs, init, f);
    }
  }

  /** The line a piece contributes: its stripped text, unless that is blank. */
  function LineOf(p: Piece): (r: seq<string>)
    ensures forall k :: 0 <= k < |r| ==> r[k] != ""
  {
    var line := Strip(p.line);
    if line != "" then [line] else []
  }

  /** The values received by the callback for a sequence of parsed lines. */
  function SentFor(lines: seq<string>, d: real, twoPass: bool, pass: int, cb: bool): (r: seq<real>)
    ensures forall k :: 0 <= k < |r| ==> 0.0 <= r[k] <= 99.0
  {
    if lines == [] then []
    else SentFor(lines[..|lines| - 1], d, twoPass, pass, cb)
         + EffectSent(ParseOutput(lines[|lines| - 1], d, twoPass, pass, cb))
  }

  function EffectSent(e: LineEffect): (r: seq<real>)
    ensures e.Emit? ==> r == [e.value]
    ensures !e.Emit? ==> r == []
  {
    if e.Emit? then [e.value] else []
  }

  /** Every line the monitor parses, in order: the stripped non-blank pieces, then the
      leftover buffer as it is, when it is not empty. */
  function MonitoredLines(chunks: seq<string>): seq<string>
  {
    var f := Feed(chunks);
    ParsedLines(f.0) + (if f.1 != "" then [f.1] else [])
  }

  lemma ParsedLinesSnoc(ps: seq<Piece>, p: Piece)
    ensures ParsedLines(ps + [p]) == ParsedLines(ps) + (if Strip(p.line) != "" then [Strip(p.line)] else [])
  {
    assert (ps + [p])[..|ps|] == ps;
  }

  lemma SentForSnoc(lines: seq<string>, l: string, d: real, twoPass: bool, pass: int, cb: bool)
    ensures SentFor(lines + [l], d, twoPass, pass, cb)
            == SentFor(lines, d, twoPass, pass, cb) + EffectSent(ParseOutput(l, d, twoPass, pass, cb))
  {
    assert (lines + [l])[..|lines|] == lines;
  }

  lemma SentForSkip(lines: seq<string>, d: real, twoPass: bool, pass: int, cb: bool)
    ensures SentFor(lines + [], d, twoPass, pass, cb) == SentFor(lines, d, twoPass, pass, cb)
  {
    assert lines + [] == lines;
  }

  /** `_parse_ffmpeg_output(line, progress, pass_number)`: classifies the line and, for a
      time match, hands the value to the callback. The effect is returned so that the
      log messages it stands for are visible. */
  method ParseFfmpegOutput(line: string, progress: CompressionProgress, passNumber: int) returns (effect: LineEffect)
    modifies progress
    ensures effect == ParseOutput(line, progress.totalDuration, progress.isTwoPass, passNumber, progress.hasCallback)
    ensures progress.sent == old(progress.sent) + EffectSent(effect)
    ensures progress.totalDuration == old(progress.totalDuration) && progress.isTwoPass == old(progress.isTwoPass)
    ensures progress.hasCallback == old(progress.hasCallback) && progress.currentTime == old(progress.currentTime)
    ensures progress.speed == old(progress.speed) && progress.eta == old(progress.eta)
  {
    effect := ParseOutput(line, progress.totalDuration, progress.isTwoPass, passNumber, progress.hasCallback);
    if effect.Emit? {
      progress.Notify(effect.value);
    }
  }

  lemma DrainStep(buf: string)
    requires HasBreak(buf)
    ensures Drain(buf) == ([Cut(buf).0] + Drain(Cut(buf).1).0, Drain(Cut(buf).1).1)
  {
  }

  lemma FeedStep(chunks: seq<string>, i: nat)
    requires i < |chunks|
    ensures Feed(chunks[..i + 1])
            == (Feed(chunks[..i]).0 + Drain(Feed(chunks[..i]).1 + chunks[i]).0,
                Drain(Feed(chunks[..i]).1 + chunks[i]).1)
  {
    assert chunks[..i + 1][..i] == chunks[..i];
  }

  lemma ParsedLinesAppend(ps: seq<Piece>, qs: seq<Piece>)
    ensures ParsedLines(ps + qs) == ParsedLines(ps) + ParsedLines(qs)
  {
    FlatMapAppend(ps, qs, LineOf);
  }

  lemma Regroup3(ab: seq<real>, a: seq<real>, init: seq<real>, e: seq<real>, b: seq<real>)
    requires ab == (a + init) + e && b == init + e
    ensures ab == a + b
  {
    assert (a + init) + e == a + (init + e);
  }

  lemma {:induction false} SentForAppend(a: seq<string>, b: seq<string>, d: real, twoPass: bool, pass: int, cb: bool)
    ensures SentFor(a + b, d, twoPass, pass, cb) == SentFor(a, d, twoPass, pass, cb) + SentFor(b, d, twoPass, pass, cb)
    decreases |b|
  {
    if b == [] {
      assert a + b == a;
    } else {
      var init := b[..|b| - 1];
      var last := b[|b| - 1];
      var e := EffectSent(ParseOutput(last, d, twoPass, pass, cb));
      assert b == init + [last];
      assert a + b == (a + init) + [last];
      SentForAppend(a, init, d, twoPass, pass, cb);
      SentForSnoc(a + init, last, d, twoPass, pass, cb);
      SentForSnoc(init, last, d, twoPass, pass, cb);
      Regroup3(SentFor(a + b, d, twoPass, pass, cb), SentFor(a, d, twoPass, pass, cb),
               SentFor(init, d, twoPass, pass, cb), e, SentFor(b, d, twoPass, pass, cb));
    }
  }

  /** The loop invariant of `DrainBuffer`: the pieces cut so far followed by those still
      in the buffer are all the pieces of the first buffer, and the trace has grown by
      what the cut pieces send. */
  ghost predicate DrainedSoFar(buffer0: string, buffer: string, cut: seq<Piece>, start: seq<real>, sent: seq<real>,
                               d: real, tp: bool, pass: int, cb: bool)
  {
    cut + Drain(buffer).0 == Drain(buffer0).0 && Drain(buffer).1 == Drain(buffer0).1
    && sent == start + SentFor(ParsedLines(cut), d, tp, pass, cb)
  }

  lemma DrainStart(buffer0: string, start: seq<real>, d: real, tp: bool, pass: int, cb: bool)
    ensures DrainedSoFar(buffer0, buffer0, [], start, start, d, tp, pass, cb)
  {
    assert [] + Drain(buffer0).0 == Drain(buffer0).0;
    assert ParsedLines([]) == [];
    assert start + [] == start;
  }

  lemma DrainDone(buffer0: string, buffer: string, cut: seq<Piece>, start: seq<real>, sent: seq<real>,
                  d: real, tp: bool, pass: int, cb: bool)
    requires !HasBreak(buffer) && DrainedSoFar(buffer0, buffer, cut, start, sent, d, tp, pass, cb)
    ensures buffer == Drain(buffer0).1
    ensures sent == start + SentFor(ParsedLines(Drain(buffer0).0), d, tp, pass, cb)
  {
    assert Drain(buffer) == ([], buffer);
    assert cut + [] == cut;
  }

  /** The cut the loop makes by hand is `Cut`. */
  lemma CutAt(buffer: string, delim: char, k: nat)
    requires HasBreak(buffer) && delim == (if '\n' in buffer then '\n' else '\r')
    requires delim in buffer && k == IndexOf(buffer, delim)
    ensures Cut(buffer) == (Piece(buffer[..k], delim), buffer[k + 1..])
  {
  }

  /** One cut keeps the invariant, the trace growing by what the cut line sends. */
  lemma DrainMove(buffer0: string, buffer: string, piece: Piece, next: string, cut: seq<Piece>, start: seq<real>,
                  before: seq<real>, sends: seq<real>, after: seq<real>, d: real, tp: bool, pass: int, cb: bool)
    requires HasBreak(buffer) && (piece, next) == Cut(buffer)
    requires DrainedSoFar(buffer0, buffer, cut, start, before, d, tp, pass, cb)
    requires Strip(piece.line) != "" ==> sends == EffectSent(ParseOutput(Strip(piece.line), d, tp, pass, cb))
    requires Strip(piece.line) == "" ==> sends == []
    requires after == before + sends
    ensures DrainedSoFar(buffer0, next, cut + [piece], start, after, d, tp, pass, cb)
  {
    DrainStep(buffer);
    PieceRegroup(cut, piece, Drain(next).0, Drain(buffer).0);
    ParsedLinesSnoc(cut, piece);
    var x := SentFor(ParsedLines(cut), d, tp, pass, cb);
    var l := Strip(piece.line);
    if l != "" {
      SentForSnoc(ParsedLines(cut), l, d, tp, pass, cb);
    } else {
      SentForSkip(ParsedLines(cut), d, tp, pass, cb);
    }
    Extend(start, x, sends, before, after);
  }

  /** The inner loop of `_monitor_progress`: while the buffer holds a '\n' or '\r', cut
      the first line off and parse it, stripped, unless it is blank. */
  method DrainBuffer(buffer0: string, progress: CompressionProgress, passNumber: int) returns (rest: string)
    modifies progress
    ensures rest == Drain(buffer0).1
    ensures progress.sent == old(progress.sent)
            + SentFor(ParsedLines(Drain(buffer0).0), progress.totalDuration, progress.isTwoPass, passNumber, progress.hasCallback)
    ensures progress.totalDuration == old(progress.totalDuration) && progress.isTwoPass == old(progress.isTwoPass)
    ensures progress.hasCallback == old(progress.hasCallback) && progress.currentTime == old(progress.currentTime)
    ensures progress.speed == old(progress.speed) && progress.eta == old(progress.eta)
  {
    var d, tp, cb := progress.totalDuration, progress.isTwoPass, progress.hasCallback;
    var buffer := buffer0;
    ghost var cut: seq<Piece> := [];
    DrainStart(buffer0, old(progress.sent), d, tp, passNumber, cb);
    while '\n' in buffer || '\r' in buffer
      invariant DrainedSoFar(buffer0, buffer, cut, old(progress.sent), progress.sent, d, tp, passNumber, cb)
      invariant progress.totalDuration == d && progress.isTwoPass == tp && progress.hasCallback == cb
      invariant progress.currentTime == old(progress.currentTime) && progress.speed == old(progress.speed)
      invariant progress.eta == old(progress.eta)
      decreases |buffer|
    {
      var delim := if '\n' in buffer then '\n' else '\r';
      var k := IndexOf(buffer, delim);
      var line := buffer[..k];
      ghost var piece, previous, before := Piece(line, delim), buffer, progress.sent;
      CutAt(buffer, delim, k);
      buffer := buffer[k + 1..];
      var lineStr := Strip(line);
      ghost var sends: seq<real> := [];
      if lineStr != "" {
        var effect := ParseFfmpegOutput(lineStr, progress, passNumber);
        sends := EffectSent(effect);
      }
      DrainMove(buffer0, previous, piece, buffer, cut, old(progress.sent), before, sends, progress.sent, d, tp, passNumber, cb);
      cut := cut + [piece];
    }
    DrainDone(buffer0, buffer, cut, old(progress.sent), progress.sent, d, tp, passNumber, cb);
    rest := buffer;
  }

  /** `_monitor_progress(process, progress, pass_number)`. `chunks` are the pieces read
      from the diagnostic stream, in order, before the exit check succeeds; what is left
      in the buffer is then parsed as it is, unstripped. */
  method MonitorProgress(chunks: seq<string>, progress: CompressionProgress, passNumber: int)
    modifies progress
    ensures progress.sent == old(progress.sent)
            + SentFor(MonitoredLines(chunks), progress.totalDuration, progress.isTwoPass, passNumber, progress.hasCallback)
    ensures progress.totalDuration == old(progress.totalDuration) && progress.isTwoPass == old(progress.isTwoPass)
    ensures progress.hasCallback == old(progress.hasCallback) && progress.currentTime == old(progress.currentTime)
    ensures progress.speed == old(progress.speed) && progress.eta == old(progress.eta)
  {
    var d, tp, cb := progress.totalDuration, progress.isTwoPass, progress.hasCallback;
    var buffer := ReadChunks(chunks, progress, passNumber);
    ghost var before := progress.sent;
    if buffer != "" {
      var _ := ParseFfmpegOutput(buffer, progress, passNumber);
    }
    MonitorFinish(chunks, Feed(chunks).0, buffer, old(progress.sent), before, progress.sent, d, tp, passNumber, cb);
  }

  /** The reading loop of `_monitor_progress`: each chunk is appended to the buffer and
      the complete lines in it are parsed; the incomplete rest is returned. */
  method ReadChunks(chunks: seq<string>, progress: CompressionProgress, passNumber: int) returns (buffer: string)
    modifies progress
    ensures buffer == Feed(chunks).1
    ensures progress.sent == old(progress.sent)
            + SentFor(ParsedLines(Feed(chunks).0), progress.totalDuration, progress.isTwoPass, passNumber, progress.hasCallback)
    ensures progress.totalDuration == old(progress.totalDuration) && progress.isTwoPass == old(progress.isTwoPass)
    ensures progress.hasCallback == old(progress.hasCallback) && progress.currentTime == old(progress.currentTime)
    ensures progress.speed == old(progress.speed) && progress.eta == old(progress.eta)
  {
    var d, tp, cb := progress.totalDuration, progress.isTwoPass, progress.hasCallback;
    buffer := "";
    ghost var pieces: seq<Piece> := [];
    var i := 0;
    ReadStart(chunks, progress.sent, d, tp, passNumber, cb);
    while i < |chunks|
      invariant ReadSoFar(chunks, i, pieces, buffer, old(progress.sent), progress.sent, d, tp, passNumber, cb)
      invariant progress.totalDuration == d && progress.isTwoPass == tp && progress.hasCallback == cb
      invariant progress.currentTime == old(progress.currentTime) && progress.speed == old(progress.speed)
      invariant progress.eta == old(progress.eta)
    {
      ghost var previous, before := buffer, progress.sent;
      buffer := DrainBuffer(buffer + chunks[i], progress, passNumber);
      pieces := MonitorStep(chunks, i, pieces, previous, buffer, old(progress.sent), before, progress.sent, d, tp, passNumber, cb);
      i := i + 1;
    }
    ReadDone(chunks, pieces, buffer, old(progress.sent), progress.sent, d, tp, passNumber, cb);
  }

  lemma ReadStart(chunks: seq<string>, start: seq<real>, d: real, tp: bool, pass: int, cb: bool)
    ensures ReadSoFar(chunks, 0, [], "", start, start, d, tp, pass, cb)
  {
    assert chunks[..0] == [];
    assert start + [] == start;
  }

  lemma ReadDone(chunks: seq<string>, pieces: seq<Piece>, buffer: string,
                 start: seq<real>, sent: seq<real>, d: real, tp: bool, pass: int, cb: bool)
    requires ReadSoFar(chunks, |chunks|, pieces, buffer, start, sent, d, tp, pass, cb)
    ensures buffer == Feed(chunks).1 && sent == start + SentFor(ParsedLines(Feed(chunks).0), d, tp, pass, cb)
  {
    assert chunks[..|chunks|] == chunks;
  }

  /** The loop invariant of `ReadChunks`: after `i` chunks the pieces and buffer are those
      of `Feed`, and the callback has received the values of the parsed pieces. */
  ghost predicate ReadSoFar(chunks: seq<string>, i: nat, pieces: seq<Piece>, buffer: string,
                            start: seq<real>, sent: seq<real>, d: real, tp: bool, pass: int, cb: bool)
  {
    i <= |chunks| && pieces == Feed(chunks[..i]).0 && buffer == Feed(chunks[..i]).1
    && sent == start + SentFor(ParsedLines(pieces), d, tp, pass, cb)
  }

  lemma MonitorStep(chunks: seq<string>, i: nat, pieces: seq<Piece>, buffer: string, rest: string,
                    start: seq<real>, mid: seq<real>, now: seq<real>, d: real, tp: bool, pass: int, cb: bool)
    returns (next: seq<Piece>)
    requires i < |chunks| && ReadSoFar(chunks, i, pieces, buffer, start, mid, d, tp, pass, cb)
    requires rest == Drain(buffer + chunks[i]).1
    requires now == mid + SentFor(ParsedLines(Drain(buffer + chunks[i]).0), d, tp, pass, cb)
    ensures ReadSoFar(chunks, i + 1, next, rest, start, now, d, tp, pass, cb)
  {
    var full := buffer + chunks[i];
    next := pieces + Drain(full).0;
    FeedStep(chunks, i);
    var a, b := ParsedLines(pieces), ParsedLines(Drain(full).0);
    ParsedLinesAppend(pieces, Drain(full).0);
    SentForAppend(a, b, d, tp, pass, cb);
    Extend(start, SentFor(a, d, tp, pass, cb), SentFor(b, d, tp, pass, cb), mid, now);
  }

  lemma MonitorFinish(chunks: seq<string>, pieces: seq<Piece>, buffer: string,
                      start: seq<real>, mid: seq<real>, now: seq<real>, d: real, tp: bool, pass: int, cb: bool)
    requires pieces == Feed(chunks).0 && buffer == Feed(chunks).1
    requires mid == start + SentFor(ParsedLines(pieces), d, tp, pass, cb)
    requires buffer != "" ==> now == mid + EffectSent(ParseOutput(buffer, d, tp, pass, cb))
    requires buffer == "" ==> now == mid
    ensures now == start + SentFor(MonitoredLines(chunks), d, tp, pass, cb)
  {
    var x := SentFor(ParsedLines(pieces), d, tp, pass, cb);
    if buffer != "" {
      SentForSnoc(ParsedLines(pieces), buffer, d, tp, pass, cb);
      Extend(start, x, EffectSent(ParseOutput(buffer, d, tp, pass, cb)), mid, now);
    } else {
      SentForSkip(ParsedLines(pieces), d, tp, pass, cb);
    }
  }

  /** Every value the monitor hands to the callback lies in [0, 99]. */
  lemma MonitorSentInRange(chunks: seq<string>, d: real, twoPass: bool, pass: int, cb: bool)
    ensures forall v :: v in SentFor(MonitoredLines(chunks), d, twoPass, pass, cb) ==> 0.0 <= v <= 99.0
  {
  }

  /** A chunk of complete lines is split exactly at its line ends. */
  lemma DrainLines(a: string, b: string)
    requires !HasBreak(a) && !HasBreak(b)
    ensures Drain(a + "\n" + b) == ([Piece(a, '\n')], b)
  {
    var s := a + "\n" + b;
    IndexOfAfter(a, b, '\n');
    assert s[..|a|] == a && s[|a| + 1..] == b;
    assert Cut(s) == (Piece(a, '\n'), b);
    assert Drain(b) == ([], b);
    DrainStep(s);
    assert [Piece(a, '\n')] + [] == [Piece(a, '\n')];
  }
}
