/** Giving each failure the output recorded while it ran: one pass over the events, every window at once. */
module Correlate {
  import opened Common

  datatype Failure = Failure(startTS: int, endTS: int, output: Bytes, truncated: bool)

  datatype Line = Malformed | Event(time: real, isOut: bool, data: Bytes)

  datatype Error = BadHeader | NoSessionStart

  const NANOS: int := 1_000_000_000

  // ------------------------------------------------------------ specification

  /** Seconds from the session start, of a time in nanoseconds. */
  function Relative(ts: int, start: int): real {
    (ts - start * NANOS) as real / NANOS as real
  }

  predicate Inside(line: Line, from: real, to: real) {
    line.Event? && line.isOut && from <= line.time <= to
  }

  /** All the output of a stretch of lines that falls between two times. */
  function Captured(lines: seq<Line>, from: real, to: real): Bytes {
    if lines == [] then []
    else
      var last := lines[|lines| - 1];
      Captured(lines[..|lines| - 1], from, to) + if Inside(last, from, to) then last.data else []
  }

  predicate Stops(line: Line, maxEnd: real) {
    line.Malformed? || (line.isOut && line.time > maxEnd)
  }

  /** The first line, from i on, that ends the pass. */
  function StopAt(lines: seq<Line>, i: nat, maxEnd: real): (r: nat)
    requires i <= |lines|
    ensures i <= r <= |lines| && (r < |lines| ==> Stops(lines[r], maxEnd))
    ensures forall k :: i <= k < r ==> !Stops(lines[k], maxEnd)
    decreases |lines| - i
  {
    if i == |lines| || Stops(lines[i], maxEnd) then i else StopAt(lines, i + 1, maxEnd)
  }

  function FirstMalformed(lines: seq<Line>, i: nat): (r: nat)
    requires i <= |lines|
    ensures i <= r <= |lines| && (r < |lines| ==> lines[r].Malformed?)
    ensures forall k :: i <= k < r ==> lines[k].Event?
    decreases |lines| - i
  {
    if i == |lines| || lines[i].Malformed? then i else FirstMalformed(lines, i + 1)
  }

  /** Output times never go back. */
  predicate InOrder(lines: seq<Line>) {
    forall i, j :: 0 <= i < j < |lines| && lines[i].Event? && lines[j].Event? && lines[i].isOut && lines[j].isOut ==>
      lines[i].time <= lines[j].time
  }

  lemma {:induction false} NothingInside(lines: seq<Line>, from: real, to: real, i: nat, n: nat)
    requires i <= n <= |lines| && forall k :: i <= k < n ==> !Inside(lines[k], from, to)
    ensures Captured(lines[..n], from, to) == Captured(lines[..i], from, to)
    decreases n
  {
    if i < n {
      assert lines[..n][..n - 1] == lines[..n - 1];
      NothingInside(lines, from, to, i, n - 1);
    }
  }

  lemma CapturedNext(lines: seq<Line>, i: nat, from: real, to: real)
    requires i < |lines|
    ensures Captured(lines[..i + 1], from, to)
         == if Inside(lines[i], from, to) then Captured(lines[..i], from, to) + lines[i].data else Captured(lines[..i], from, to)
  {
    assert lines[..i + 1][..i] == lines[..i];
  }

  /** Stopping early misses nothing when times never go back: every window has closed by then. */
  lemma EarlyExitMissesNothing(lines: seq<Line>, from: real, to: real, maxEnd: real)
    requires InOrder(lines[..FirstMalformed(lines, 0)]) && to <= maxEnd
    ensures Captured(lines[..StopAt(lines, 0, maxEnd)], from, to) == Captured(lines[..FirstMalformed(lines, 0)], from, to)
  {
    var stop, bad := StopAt(lines, 0, maxEnd), FirstMalformed(lines, 0);
    if stop < bad {
      var good := lines[..bad];
      forall k | stop <= k < bad ensures !Inside(lines[k], from, to) {
        assert good[stop] == lines[stop] && good[k] == lines[k];
      }
      NothingInside(lines, from, to, stop, bad);
    } else if bad < stop {
      assert false;
    }
  }

  /** When times do go back, output inside the window that comes after the early exit is missed. */
  lemma EarlyExitCanMiss(late: Bytes)
    requires late != []
    ensures var lines := [Event(20.0, true, []), Event(7.0, true, late)];
            && FirstMalformed(lines, 0) == 2 && Captured(lines, 5.0, 10.0) == late
            && Captured(lines[..StopAt(lines, 0, 10.0)], 5.0, 10.0) == []
  {
    var lines := [Event(20.0, true, []), Event(7.0, true, late)];
    assert lines[..1] == [lines[0]];
    assert Captured(lines[..1], 5.0, 10.0) == Captured(lines[..0], 5.0, 10.0) + [];
    CapturedNext(lines, 1, 5.0, 10.0);
    assert lines[..2] == lines;
    assert StopAt(lines, 0, 10.0) == 0;
  }

  // ------------------------------------------------------------------- method

  datatype Window = Window(idx: nat, from: real, to: real, buf: Bytes, truncated: bool)

  /** What a window holds after the output `all`: its last bytes, and whether some were dropped. */
  ghost predicate Keeps(w: Window, all: Bytes, maxBytes: nat) {
    w.buf == LastN(all, maxBytes) && (w.truncated <==> |all| > maxBytes)
  }

  method AppendCapped(buf: Bytes, data: Bytes, maxBytes: nat) returns (r: Bytes, trimmed: bool)
    ensures r == LastN(buf + data, maxBytes) && (trimmed <==> |buf| + |data| > maxBytes)
  {
    r := buf + data;
    if |r| <= maxBytes {
      return r, false;
    }
    return r[|r| - maxBytes..], true;
  }

  /** The windows of the failures, in their order. */
  ghost predicate WindowsOf(ws: seq<Window>, fs: seq<Failure>, start: int) {
    && |ws| <= |fs|
    && forall k :: 0 <= k < |ws| ==>
      ws[k].idx == k && ws[k].from == Relative(fs[k].startTS, start) && ws[k].to == Relative(fs[k].endTS, start)
  }

  /** The time by which every window has closed. */
  function LatestEnd(fs: seq<Failure>, start: int): real {
    if fs == [] then 0.0
    else
      var before, e := LatestEnd(fs[..|fs| - 1], start), Relative(fs[|fs| - 1].endTS, start);
      if e > before then e else before
  }

  lemma {:induction false} LatestEndBounds(fs: seq<Failure>, start: int, k: nat)
    requires k < |fs|
    ensures Relative(fs[k].endTS, start) <= LatestEnd(fs, start)
    decreases |fs|
  {
    hide Relative;
    if k < |fs| - 1 { LatestEndBounds(fs[..|fs| - 1], start, k); }
  }

  /** It is no later than it has to be: some window ends then, unless none ends after the start. */
  lemma {:induction false} LatestEndIsMet(fs: seq<Failure>, start: int)
    ensures LatestEnd(fs, start) >= 0.0
    ensures LatestEnd(fs, start) == 0.0 || exists k :: 0 <= k < |fs| && Relative(fs[k].endTS, start) == LatestEnd(fs, start)
    decreases |fs|
  {
    hide Relative;
    if fs != [] {
      var n := |fs| - 1;
      LatestEndIsMet(fs[..n], start);
      assert forall k :: 0 <= k < n ==> fs[..n][k] == fs[k];
    }
  }

  ghost predicate AllKeep(ws: seq<Window>, lines: seq<Line>, maxBytes: nat) {
    forall k :: 0 <= k < |ws| ==> Keeps(ws[k], Captured(lines, ws[k].from, ws[k].to), maxBytes)
  }

  method MakeWindows(failures: array<Failure>, start: int, maxBytes: nat) returns (ws: array<Window>, maxEnd: real)
    ensures fresh(ws) && ws.Length == failures.Length && WindowsOf(ws[..], failures[..], start)
    ensures AllKeep(ws[..], [], maxBytes) && maxEnd == LatestEnd(failures[..], start)
  {
    hide Relative;
    ws := new Window[failures.Length](_ => Window(0, 0.0, 0.0, [], false));
    maxEnd := 0.0;
    for i := 0 to failures.Length
      invariant WindowsOf(ws[..i], failures[..], start) && maxEnd == LatestEnd(failures[..i], start)
      invariant forall k :: 0 <= k < i ==> ws[k].buf == [] && !ws[k].truncated
    {
      assert failures[..i + 1][..i] == failures[..i];
      var s := Relative(failures[i].startTS, start);
      var e := Relative(failures[i].endTS, start);
      ws[i] := Window(i, s, e, [], false);
      if e > maxEnd { maxEnd := e; }
    }
    assert ws[..] == ws[..ws.Length] && failures[..] == failures[..failures.Length];
  }

  /** One output event goes to every window it falls in. */
  method Collect(ws: array<Window>, lines: seq<Line>, i: nat, maxBytes: nat)
    requires i < |lines| && lines[i].Event? && lines[i].isOut && AllKeep(ws[..], lines[..i], maxBytes)
    modifies ws
    ensures AllKeep(ws[..], lines[..i + 1], maxBytes)
    ensures forall k :: 0 <= k < ws.Length ==> SameWindow(ws[k], old(ws[k]))
  {
    hide Captured;
    var ev := lines[i];
    for k := 0 to ws.Length
      invariant forall j :: k <= j < ws.Length ==> ws[j] == old(ws[j])
      invariant forall j :: 0 <= j < k ==>
        SameWindow(ws[j], old(ws[j])) && Keeps(ws[j], Captured(lines[..i + 1], ws[j].from, ws[j].to), maxBytes)
    {
      var w := ws[k];
      assert Keeps(old(ws[..])[k], Captured(lines[..i], w.from, w.to), maxBytes);
      CapturedNext(lines, i, w.from, w.to);
      if !(ev.time < w.from || ev.time > w.to) {
        var buf, trimmed := AppendCapped(w.buf, ev.data, maxBytes);
        KeepsNext(w, Captured(lines[..i], w.from, w.to), ev.data, maxBytes);
        ws[k] := w.(buf := buf, truncated := w.truncated || trimmed);
      }
    }
  }

  predicate SameWindow(a: Window, b: Window) {
    a.idx == b.idx && a.from == b.from && a.to == b.to
  }

  lemma KeepsNext(w: Window, all: Bytes, data: Bytes, maxBytes: nat)
    requires Keeps(w, all, maxBytes)
    ensures LastN(w.buf + data, maxBytes) == LastN(all + data, maxBytes)
    ensures w.truncated || |w.buf| + |data| > maxBytes <==> |all + data| > maxBytes
  {
    LastNSnoc(all, data, maxBytes);
  }

  lemma KeepsOther(ws: seq<Window>, lines: seq<Line>, i: nat, maxBytes: nat)
    requires i < |lines| && lines[i].Event? && !lines[i].isOut && AllKeep(ws, lines[..i], maxBytes)
    ensures AllKeep(ws, lines[..i + 1], maxBytes)
  {
    hide Captured, Keeps;
    forall k | 0 <= k < |ws| ensures Keeps(ws[k], Captured(lines[..i + 1], ws[k].from, ws[k].to), maxBytes) {
      CapturedNext(lines, i, ws[k].from, ws[k].to);
    }
  }

  lemma StopAtIs(lines: seq<Line>, i: nat, maxEnd: real)
    requires i <= |lines| && forall k :: 0 <= k < i ==> !Stops(lines[k], maxEnd)
    requires i < |lines| ==> Stops(lines[i], maxEnd)
    ensures StopAt(lines, 0, maxEnd) == i
  {
    var r := StopAt(lines, 0, maxEnd);
    assert r < |lines| ==> Stops(lines[r], maxEnd);
  }

  /** The pass over the events. */
  method Scan(ws: array<Window>, lines: seq<Line>, maxEnd: real, maxBytes: nat)
    requires AllKeep(ws[..], [], maxBytes)
    modifies ws
    ensures AllKeep(ws[..], lines[..StopAt(lines, 0, maxEnd)], maxBytes)
    ensures forall k :: 0 <= k < ws.Length ==> SameWindow(ws[k], old(ws[k]))
  {
    hide Captured, StopAt, Keeps, AllKeep;
    var i := 0;
    assert lines[..0] == [];
    while i < |lines|
      invariant 0 <= i <= |lines| && AllKeep(ws[..], lines[..i], maxBytes)
      invariant forall k :: 0 <= k < i ==> !Stops(lines[k], maxEnd)
      invariant forall k :: 0 <= k < ws.Length ==> SameWindow(ws[k], old(ws[k]))
    {
      if lines[i].Malformed? { break; }
      if !lines[i].isOut {
        KeepsOther(ws[..], lines, i, maxBytes);
        i := i + 1;
        continue;
      }
      if lines[i].time > maxEnd { break; }
      Collect(ws, lines, i, maxBytes);
      i := i + 1;
    }
    StopAtIs(lines, i, maxEnd);
  }

  /** f with the output that falls in its window among `lines`. */
  ghost predicate Filled(f: Failure, was: Failure, lines: seq<Line>, start: int, maxBytes: nat) {
    var all := Captured(lines, Relative(was.startTS, start), Relative(was.endTS, start));
    f == was.(output := LastN(all, maxBytes), truncated := |all| > maxBytes)
  }

  ghost predicate AllFilled(fs: seq<Failure>, was: seq<Failure>, lines: seq<Line>, start: int, maxBytes: nat) {
    |fs| == |was| && forall k :: 0 <= k < |fs| ==> Filled(fs[k], was[k], lines, start, maxBytes)
  }

  lemma FilledInOrder(fs: seq<Failure>, was: seq<Failure>, lines: seq<Line>, start: int, maxBytes: nat)
    requires AllFilled(fs, was, lines[..StopAt(lines, 0, LatestEnd(was, start))], start, maxBytes)
    requires InOrder(lines[..FirstMalformed(lines, 0)])
    ensures AllFilled(fs, was, lines[..FirstMalformed(lines, 0)], start, maxBytes)
  {
    hide Captured, StopAt, FirstMalformed, Relative, InOrder, LatestEnd;
    var maxEnd := LatestEnd(was, start);
    forall k | 0 <= k < |fs| ensures Filled(fs[k], was[k], lines[..FirstMalformed(lines, 0)], start, maxBytes) {
      LatestEndBounds(was, start, k);
      EarlyExitMissesNothing(lines, Relative(was[k].startTS, start), Relative(was[k].endTS, start), maxEnd);
    }
  }

  /** What the windows hold goes to their failures. */
  method Deliver(ws: array<Window>, failures: array<Failure>, ghost seen: seq<Line>, ghost start: int, ghost maxBytes: nat)
    requires ws.Length == failures.Length && WindowsOf(ws[..], failures[..], start) && AllKeep(ws[..], seen, maxBytes)
    modifies failures
    ensures AllFilled(failures[..], old(failures[..]), seen, start, maxBytes)
  {
    hide Captured, Relative;
    ghost var was := failures[..];
    for k := 0 to ws.Length
      invariant WindowsOf(ws[..], was, start) && AllKeep(ws[..], seen, maxBytes)
      invariant forall j :: 0 <= j < k ==> Filled(failures[j], was[j], seen, start, maxBytes)
      invariant forall j :: k <= j < failures.Length ==> failures[j] == was[j]
    {
      var w := ws[k];
      assert w == ws[..][k];
      failures[w.idx] := failures[w.idx].(output := w.buf, truncated := w.truncated);
    }
  }

  /**
   * Each failure gets the last maxBytes bytes of what was output in its window up to where the pass stops, which
   * is up to the first malformed line when times never go back. The session starts when the caller says, or else when
   * the header does; with no start, or no header, nothing is changed.
   */
  method CorrelateOutput(header: Option<int>, lines: seq<Line>, sessionStart: int, failures: array<Failure>, maxBytes: nat)
    returns (err: Option<Error>)
    requires maxBytes > 0
    modifies failures
    ensures err == Some(BadHeader) <==> header.None?
    ensures err == Some(NoSessionStart) <==> header.Some? && header.value <= 0 && sessionStart <= 0
    ensures err.Some? ==> failures[..] == old(failures[..])
    ensures err.None? ==>
      var start := if sessionStart > 0 then sessionStart else header.value;
      && AllFilled(failures[..], old(failures[..]), lines[..StopAt(lines, 0, LatestEnd(old(failures[..]), start))], start, maxBytes)
      && (InOrder(lines[..FirstMalformed(lines, 0)]) ==>
        AllFilled(failures[..], old(failures[..]), lines[..FirstMalformed(lines, 0)], start, maxBytes))
  {
    hide Captured, StopAt, FirstMalformed, Relative, InOrder, LatestEnd, AllFilled, AllKeep;
    if header.None? {
      return Some(BadHeader);
    }
    var start := sessionStart;
    if start <= 0 { start := header.value; }
    if start <= 0 {
      return Some(NoSessionStart);
    }
    ghost var was := failures[..];
    var ws, maxEnd := MakeWindows(failures, start, maxBytes);
    Scan(ws, lines, maxEnd, maxBytes);
    Deliver(ws, failures, lines[..StopAt(lines, 0, maxEnd)], start, maxBytes);
    if InOrder(lines[..FirstMalformed(lines, 0)]) {
      FilledInOrder(failures[..], was, lines, start, maxBytes);
    }
    return None;
  }

  // --------------------------------------------------------- what is captured

  /** A stretch of lines cut in two: what falls in a window is what falls in it of the one, then of the other. */
  lemma {:induction false} CapturedAppend(a: seq<Line>, b: seq<Line>, from: real, to: real)
    ensures Captured(a + b, from, to) == Captured(a, from, to) + Captured(b, from, to)
    decreases |b|
  {
    hide Captured, Inside;
    CapturedNone(from, to);
    if b == [] {
      assert a + b == a;
    } else {
      var front, last := b[..|b| - 1], b[|b| - 1];
      assert b == front + [last] && a + b == (a + front) + [last];
      CapturedAppend(a, front, from, to);
      CapturedSnoc(front, last, from, to);
      CapturedSnoc(a + front, last, from, to);
    }
  }

  lemma CapturedNone(from: real, to: real)
    ensures Captured([], from, to) == []
  {
  }

  lemma CapturedSnoc(lines: seq<Line>, last: Line, from: real, to: real)
    ensures Captured(lines + [last], from, to) == Captured(lines, from, to) + if Inside(last, from, to) then last.data else []
  {
    assert (lines + [last])[..|lines|] == lines;
  }

  /** One line is captured when it is output, no earlier than the window's start and no later than its end. */
  lemma OneLineCaptured(line: Line, from: real, to: real)
    ensures line.Event? && line.isOut && from <= line.time && line.time <= to ==> Captured([line], from, to) == line.data
    ensures !(line.Event? && line.isOut && from <= line.time && line.time <= to) ==> Captured([line], from, to) == []
  {
    CapturedSnoc([], line, from, to);
    assert [] + [line] == [line];
  }

  /** Window times are seconds since the start: a second is a thousand million nanoseconds, and only differences count. */
  lemma OnlyDifferencesCount(ts: int, start: int, seconds: int)
    ensures Relative(ts + seconds * 1_000_000_000, start + seconds) == Relative(ts, start)
    ensures Relative(ts + seconds * 1_000_000_000, start) == Relative(ts, start) + seconds as real
    ensures Relative(start * 1_000_000_000, start) == 0.0
  {
    Scaled(ts - start * NANOS, seconds);
  }

  lemma Scaled(x: int, n: int)
    ensures (x + n * NANOS) as real / NANOS as real == x as real / NANOS as real + n as real
  {
  }

  function Shifted(f: Failure, seconds: int): Failure {
    f.(startTS := f.startTS + seconds * 1_000_000_000, endTS := f.endTS + seconds * 1_000_000_000)
  }

  /** So a session moved in time as a whole, with its failures, captures the same. */
  lemma ShiftCapturesSame(f: Failure, was: Failure, lines: seq<Line>, start: int, seconds: int, maxBytes: nat)
    requires Filled(f, was, lines, start, maxBytes)
    ensures Filled(Shifted(f, seconds), Shifted(was, seconds), lines, start + seconds, maxBytes)
  {
    hide Relative;
    OnlyDifferencesCount(was.startTS, start, seconds);
    OnlyDifferencesCount(was.endTS, start, seconds);
  }
}
