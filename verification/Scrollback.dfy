/** The line buffer behind the scrollback viewer: an escape-sequence parser fed in arbitrary chunks. */
module Scrollback {
  import opened Common

  const BEL: Byte := 0x07
  const TAB: Byte := 0x09
  const LF: Byte := 0x0a
  const CR: Byte := 0x0d
  const ESC: Byte := 0x1b
  const OPEN_BRACKET: Byte := 0x5b
  const BACKSLASH: Byte := 0x5c
  const CLOSE_BRACKET: Byte := 0x5d

  const MAX_SCROLL_LINES: nat := 10000
  const MAX_LINE_BYTES: nat := 64 * 1024

  // -------------------------------------------------------- escape sequences

  predicate IsFinal(c: Byte) {
    0x40 <= c <= 0x7e
  }

  function CsiEnd(d: Bytes, j: nat): (r: Option<nat>)
    ensures r.Some? ==> j < r.value <= |d|
    decreases |d| - j
  {
    if j >= |d| then None else if IsFinal(d[j]) then Some(j + 1) else CsiEnd(d, j + 1)
  }

  function OscEnd(d: Bytes, j: nat): (r: Option<nat>)
    ensures r.Some? ==> j < r.value <= |d|
    decreases |d| - j
  {
    if j >= |d| then None
    else if d[j] == BEL then Some(j + 1)
    else if d[j] == ESC then if j + 1 < |d| && d[j + 1] == BACKSLASH then Some(j + 2) else None
    else OscEnd(d, j + 1)
  }

  /** The length of the escape sequence that d starts with, or None while d does not hold all of it. */
  function EscLen(d: Bytes): (r: Option<nat>)
    requires d != [] && d[0] == ESC
    ensures r.Some? ==> 2 <= r.value <= |d|
  {
    if |d| < 2 then None
    else if d[1] == OPEN_BRACKET then CsiEnd(d, 2)
    else if d[1] == CLOSE_BRACKET then OscEnd(d, 2)
    else Some(2)
  }

  lemma {:induction false} CsiEndStable(d: Bytes, e: Bytes, j: nat)
    requires CsiEnd(d, j).Some?
    ensures CsiEnd(d + e, j) == CsiEnd(d, j)
    decreases |d| - j
  {
    if !IsFinal(d[j]) { CsiEndStable(d, e, j + 1); }
  }

  lemma {:induction false} OscEndStable(d: Bytes, e: Bytes, j: nat)
    requires OscEnd(d, j).Some?
    ensures OscEnd(d + e, j) == OscEnd(d, j)
    decreases |d| - j
  {
    if d[j] != BEL && d[j] != ESC { OscEndStable(d, e, j + 1); }
  }

  lemma {:induction false} CsiEndPrefix(d: Bytes, k: nat, j: nat)
    requires CsiEnd(d, j).Some? && CsiEnd(d, j).value <= k <= |d|
    ensures CsiEnd(d[..k], j) == CsiEnd(d, j)
    decreases |d| - j
  {
    if !IsFinal(d[j]) { CsiEndPrefix(d, k, j + 1); }
  }

  lemma {:induction false} OscEndPrefix(d: Bytes, k: nat, j: nat)
    requires OscEnd(d, j).Some? && OscEnd(d, j).value <= k <= |d|
    ensures OscEnd(d[..k], j) == OscEnd(d, j)
    decreases |d| - j
  {
    if d[j] != BEL && d[j] != ESC { OscEndPrefix(d, k, j + 1); }
  }

  /** A complete sequence is recognised the same whatever follows it, and from any prefix that holds it. */
  lemma EscLenStable(d: Bytes, e: Bytes, k: nat)
    requires d != [] && d[0] == ESC && EscLen(d).Some?
    requires EscLen(d).value <= k <= |d|
    ensures EscLen(d + e) == EscLen(d)
    ensures EscLen(d[..k]) == EscLen(d)
  {
    if d[1] == OPEN_BRACKET {
      CsiEndStable(d, e, 2);
      CsiEndPrefix(d, k, 2);
    } else if d[1] == CLOSE_BRACKET {
      OscEndStable(d, e, 2);
      OscEndPrefix(d, k, 2);
    }
  }

  predicate IsSGR(s: Bytes) {
    |s| >= 3 && s[1] == OPEN_BRACKET && s[|s| - 1] == 'm' as int
  }

  predicate IsVerticalMove(s: Bytes) {
    if |s| == 2 && s[0] == ESC then s[1] == 'M' as int
    else |s| >= 3 && s[0] == ESC && s[1] == OPEN_BRACKET && s[|s| - 1] in {'H' as int, 'A' as int, 'F' as int}
  }

  // ------------------------------------------------------------ specification

  /** The buffer with every line ever committed. */
  datatype Buf = Buf(history: seq<Bytes>, cur: Bytes, pending: Bytes)

  function Commit(b: Buf): Buf {
    b.(history := b.history + [b.cur], cur := [])
  }

  function WriteCur(b: Buf, s: Bytes): Buf {
    if |b.cur| + |s| > MAX_LINE_BYTES then b else b.(cur := b.cur + s)
  }

  function Escape(b: Buf, s: Bytes): Buf {
    if IsSGR(s) then WriteCur(b, s)
    else if IsVerticalMove(s) && b.cur != [] then Commit(b)
    else b
  }

  /** How many bytes the parser takes off d at once; None when d is an unfinished escape sequence. */
  function TokenLen(d: Bytes): (r: Option<nat>)
    requires d != []
    ensures r.Some? ==> 1 <= r.value <= |d|
  {
    if d[0] == ESC then EscLen(d) else Some(1)
  }

  /** What that token does; `next` is the byte after it, if there is one yet. */
  function Token(b: Buf, token: Bytes, next: Bytes): Buf
    requires token != []
  {
    var c := token[0];
    if c == LF then Commit(b)
    else if c == CR then if next != [] && next[0] == LF then b else b.(cur := [])
    else if c == ESC then Escape(b, token)
    else if c >= 0x20 || c == TAB then WriteCur(b, [c])
    else b
  }

  function Run(b: Buf, d: Bytes): Buf
    decreases |d|
  {
    if d == [] then b
    else
      match TokenLen(d)
      case None => b.(pending := d)
      case Some(n) => Run(Token(b, d[..n], d[n..]), d[n..])
  }

  function Feed(b: Buf, data: Bytes): Buf {
    Run(b.(pending := []), b.pending + data)
  }

  predicate WellFormed(b: Buf) {
    b.pending != [] ==> b.pending[0] == ESC && EscLen(b.pending) == None
  }

  const EMPTY: Buf := Buf([], [], [])

  // ------------------------------------------------------- chunk independence

  /** Splitting between x and y would make a CR that overwrites a line out of one that belongs to a CR LF. */
  predicate SplitsCRLF(b: Buf, x: Bytes, y: Bytes) {
    && x != [] && x[|x| - 1] == CR && y != [] && y[0] == LF
    && var before := Feed(b, x[..|x| - 1]);
       before.pending == [] && before.cur != []
  }

  predicate RunSplitsCRLF(b: Buf, x: Bytes, y: Bytes) {
    && x != [] && x[|x| - 1] == CR && y != [] && y[0] == LF
    && var before := Run(b, x[..|x| - 1]);
       before.pending == [] && before.cur != []
  }

  lemma TokenStable(b: Buf, x: Bytes, y: Bytes)
    requires x != [] && TokenLen(x).Some?
    ensures var n := TokenLen(x).value;
            && TokenLen(x + y) == Some(n)
            && (x + y)[..n] == x[..n] && (x + y)[n..] == x[n..] + y
            && (n < |x| ==> Token(b, (x + y)[..n], (x + y)[n..]) == Token(b, x[..n], x[n..]))
  {
    if x[0] == ESC {
      EscLenStable(x, y, |x|);
    }
    var n := TokenLen(x).value;
    assert (x + y)[..n] == x[..n] && (x + y)[n..] == x[n..] + y;
  }

  /** The token at the start of x is also the one at the start of x without its last byte, if it ends there. */
  lemma TokenOfFront(b: Buf, x: Bytes)
    requires x != [] && TokenLen(x).Some? && TokenLen(x).value < |x| && x[|x| - 1] == CR
    ensures var n, front := TokenLen(x).value, x[..|x| - 1];
            && TokenLen(front) == Some(n)
            && front[n..] == x[n..][..|x| - n - 1]
            && Run(b, front) == Run(Token(b, x[..n], x[n..]), front[n..])
  {
    var n, front := TokenLen(x).value, x[..|x| - 1];
    if x[0] == ESC {
      EscLenStable(x, [], |x| - 1);
    }
    assert front[..n] == x[..n];
    assert front[n..] != [] ==> front[n..][0] == x[n..][0];
  }

  lemma {:induction false} RunSplit(b: Buf, x: Bytes, y: Bytes)
    requires b.pending == [] && !RunSplitsCRLF(b, x, y)
    ensures var r := Run(b, x); Run(b, x + y) == Run(r.(pending := []), r.pending + y)
    decreases |x|
  {
    if x == [] {
      assert x + y == y && [] + y == y;
    } else if TokenLen(x).Some? {
      var n := TokenLen(x).value;
      TokenStable(b, x, y);
      if n == |x| {
        assert x[n..] == [] && [] + y == y;
      } else {
        if x[|x| - 1] == CR { TokenOfFront(b, x); }
        RunSplit(Token(b, x[..n], x[n..]), x[n..], y);
      }
    }
  }

  lemma {:induction false} RunWellFormed(b: Buf, d: Bytes)
    requires b.pending == []
    ensures WellFormed(Run(b, d))
    decreases |d|
  {
    if d != [] && TokenLen(d).Some? {
      var n := TokenLen(d).value;
      RunWellFormed(Token(b, d[..n], d[n..]), d[n..]);
    }
  }

  /** Committed lines stay where they are: a run only appends to the history. */
  lemma {:induction false} RunAppends(b: Buf, d: Bytes)
    ensures b.history <= Run(b, d).history
    decreases |d|
  {
    if d != [] && TokenLen(d).Some? {
      var n := TokenLen(d).value;
      RunAppends(Token(b, d[..n], d[n..]), d[n..]);
    }
  }

  lemma FeedNothing(b: Buf)
    requires WellFormed(b)
    ensures Feed(b, []) == b
  {
    assert b.pending + [] == b.pending;
  }

  /** Feeding x then y is feeding x + y, except exactly when the split tears a CR LF that ends a non-empty line. */
  lemma ChunkIndependence(b: Buf, x: Bytes, y: Bytes)
    requires WellFormed(b)
    ensures Feed(Feed(b, x), y) == Feed(b, x + y) <==> !SplitsCRLF(b, x, y)
  {
    if x == [] {
      FeedNothing(b);
      assert x + y == y;
    } else {
      var b0, px := b.(pending := []), b.pending + x;
      assert px + y == b.pending + (x + y);
      assert px[..|px| - 1] == b.pending + x[..|x| - 1];
      assert RunSplitsCRLF(b0, px, y) == SplitsCRLF(b, x, y);
      if SplitsCRLF(b, x, y) {
        TornLineDiffers(b, x, y);
      } else {
        RunSplit(b0, px, y);
      }
    }
  }

  lemma FeedFront(b: Buf, front: Bytes, tail: Bytes)
    requires Feed(b, front).pending == [] && tail != [] && tail[0] != LF
    ensures Feed(b, front + tail) == Run(Feed(b, front), tail)
  {
    hide Run;
    Assoc(b.pending, front, tail);
    RunSplit(b.(pending := []), b.pending + front, tail);
  }

  lemma RunCR(b: Buf, y: Bytes)
    requires b.pending == [] && y != [] && y[0] == LF
    ensures Run(b, [CR]) == b.(cur := [])
    ensures Run(b, [CR] + y) == Run(b, y)
  {
    assert ([CR] + y)[1..] == y;
  }

  lemma RunLF(b: Buf, y: Bytes)
    requires y != [] && y[0] == LF
    ensures b.history + [b.cur] <= Run(b, y).history
  {
    RunAppends(Commit(b), y[1..]);
  }

  lemma TornLineDiffers(b: Buf, x: Bytes, y: Bytes)
    requires WellFormed(b) && SplitsCRLF(b, x, y)
    ensures var n := |Feed(b, x[..|x| - 1]).history|;
            && n < |Feed(Feed(b, x), y).history| && Feed(Feed(b, x), y).history[n] == []
            && n < |Feed(b, x + y).history| && Feed(b, x + y).history[n] != []
  {
    hide Run;
    var front := x[..|x| - 1];
    var before := Feed(b, front);
    assert x == front + [CR] && x + y == front + ([CR] + y) && [] + y == y;
    FeedFront(b, front, [CR]);
    FeedFront(b, front, [CR] + y);
    RunCR(before, y);
    RunLF(before.(cur := []), y);
    RunLF(before, y);
  }

  // ------------------------------------------------------------- many chunks

  function FeedAll(b: Buf, chunks: seq<Bytes>): Buf {
    if chunks == [] then b else Feed(FeedAll(b, chunks[..|chunks| - 1]), chunks[|chunks| - 1])
  }

  /** No chunk boundary falls between a CR and an LF. */
  predicate KeepsCRLF(chunks: seq<Bytes>) {
    forall i :: 0 < i < |chunks| ==>
      var front := Concat(chunks[..i]);
      !(front != [] && front[|front| - 1] == CR && chunks[i] != [] && chunks[i][0] == LF)
  }

  lemma FrontKeeps(chunks: seq<Bytes>)
    requires KeepsCRLF(chunks) && chunks != []
    ensures var n := |chunks| - 1;
            && chunks[..n] + [chunks[n]] == chunks && KeepsCRLF(chunks[..n])
            && var front := Concat(chunks[..n]);
               !(front != [] && front[|front| - 1] == CR && chunks[n] != [] && chunks[n][0] == LF)
  {
    var n := |chunks| - 1;
    var front := chunks[..n];
    forall i | 0 < i < n
      ensures front[..i] == chunks[..i] && front[i] == chunks[i]
    {
    }
    assert n == 0 ==> Concat(front) == [];
  }

  /** Any two ways of chunking the same output that keep CR LF together leave the same buffer. */
  lemma {:induction false} AnyChunking(b: Buf, chunks: seq<Bytes>)
    requires WellFormed(b) && KeepsCRLF(chunks)
    ensures FeedAll(b, chunks) == Feed(b, Concat(chunks))
    decreases |chunks|
  {
    hide Run, EscLen, Feed;
    if chunks == [] {
      FeedNothing(b);
    } else {
      var front, last := chunks[..|chunks| - 1], chunks[|chunks| - 1];
      FrontKeeps(chunks);
      AnyChunking(b, front);
      ConcatSnoc(front, last);
      hide KeepsCRLF;
      ChunkIndependence(b, Concat(front), last);
    }
  }

  // ------------------------------------------------------------ bounded lines

  predicate Bounded(b: Buf) {
    |b.cur| <= MAX_LINE_BYTES && forall l :: l in b.history ==> |l| <= MAX_LINE_BYTES
  }

  lemma {:induction false} RunBounded(b: Buf, d: Bytes)
    requires Bounded(b)
    ensures Bounded(Run(b, d))
    decreases |d|
  {
    if d != [] && TokenLen(d).Some? {
      var n := TokenLen(d).value;
      RunBounded(Token(b, d[..n], d[n..]), d[n..]);
    }
  }

  /** How many of n committed lines are kept: one more each time, cut back when twice the cap is passed. */
  function Kept(n: nat): (k: nat)
    ensures Min(n, 10000) <= k <= Min(n, 20000)
  {
    if n == 0 then 0
    else if Kept(n - 1) + 1 > 2 * MAX_SCROLL_LINES then MAX_SCROLL_LINES
    else Kept(n - 1) + 1
  }

  function Retained(history: seq<Bytes>): seq<Bytes> {
    history[|history| - Kept(|history|)..]
  }

  lemma RetainedSnoc(history: seq<Bytes>, line: Bytes)
    ensures Retained(history + [line]) ==
      var grown := Retained(history) + [line];
      if |grown| > 20000 then grown[|grown| - 10000..] else grown
  {
  }

  // ------------------------------------------------------------ the line buffer

  class LineBuf {
    var lines: seq<Bytes>
    var cur: Bytes
    var pending: Bytes
    ghost var history: seq<Bytes>

    ghost function Contents(): Buf
      reads this
    {
      Buf(history, cur, pending)
    }

    ghost predicate Valid()
      reads this
    {
      lines == Retained(history) && WellFormed(Contents()) && Bounded(Contents())
    }

    constructor ()
      ensures Valid() && Contents() == EMPTY
    {
      lines, cur, pending, history := [], [], [], [];
    }

    method CommitLine()
      requires lines == Retained(history)
      modifies this`lines, this`cur, this`history
      ensures lines == Retained(history) && Contents() == Commit(old(Contents()))
    {
      RetainedSnoc(history, cur);
      lines := lines + [cur];
      if |lines| > 2 * MAX_SCROLL_LINES {
        lines := lines[|lines| - MAX_SCROLL_LINES..];
      }
      history := history + [cur];
      cur := [];
    }

    method WriteCurrent(s: Bytes)
      modifies this`cur
      ensures Contents() == WriteCur(old(Contents()), s)
    {
      if |cur| + |s| > MAX_LINE_BYTES {
        return;
      }
      cur := cur + s;
    }

    /** Feeding a chunk does what the specification says, and the lines kept are the last ones committed. */
    method FeedChunk(chunk: Bytes)
      requires Valid()
      modifies this
      ensures Valid() && Contents() == Feed(old(Contents()), chunk)
    {
      hide Run, TokenLen, EscLen;
      var data := chunk;
      if |pending| > 0 {
        data := pending + data;
      } else {
        assert pending + chunk == chunk;
      }
      pending := [];
      ghost var start, whole := Contents(), data;
      RunWellFormed(start, data);
      RunBounded(start, data);
      var i := 0;
      while i < |data|
        invariant 0 <= i <= |data| && pending == [] && lines == Retained(history)
        invariant Run(Contents(), data[i..]) == Run(start, data)
        decreases |data| - i
      {
        var n := Step(data, i);
        if n == 0 {
          return;
        }
        i := i + n;
      }
      RunDone(Contents(), data[i..]);
    }

    /** One turn of the loop: how far to go on, or 0 once an unfinished sequence has been set aside. */
    method Step(data: Bytes, i: nat) returns (n: nat)
      requires i < |data| && pending == [] && lines == Retained(history)
      modifies this
      ensures lines == Retained(history)
      ensures n > 0 ==> i + n <= |data| && pending == [] && Run(Contents(), data[i + n..]) == old(Run(Contents(), data[i..]))
      ensures n == 0 ==> Contents() == old(Run(Contents(), data[i..]))
    {
      hide Retained, EscLen, Bounded, Run;
      var c := data[i];
      if c == ESC {
        n := StepEscape(data, i);
        return;
      }
      RunPlain(Contents(), data, i);
      if c == LF {
        CommitLine();
        return 1;
      } else if c == CR {
        if i + 1 < |data| && data[i + 1] == LF {
          return 1;
        }
        cur := [];
        return 1;
      } else if c >= 0x20 || c == TAB {
        if |cur| < MAX_LINE_BYTES {
          cur := cur + [c];
        }
        return 1;
      }
      return 1;
    }

    /** The turn at an escape sequence. */
    method StepEscape(data: Bytes, i: nat) returns (n: nat)
      requires i < |data| && data[i] == ESC && pending == [] && lines == Retained(history)
      modifies this
      ensures lines == Retained(history)
      ensures n > 0 ==> i + n <= |data| && pending == [] && Run(Contents(), data[i + n..]) == old(Run(Contents(), data[i..]))
      ensures n == 0 ==> Contents() == old(Run(Contents(), data[i..]))
    {
      hide Retained, EscLen, Bounded, Run, Token, TokenLen;
      RunEscape(Contents(), data, i);
      var complete := EscComplete(data, i);
      if !complete {
        pending := data[i..];
        return 0;
      }
      var seqn, len, isSGR := ParseESC(data, i);
      if isSGR {
        WriteCurrent(seqn);
      } else if IsVerticalMove(seqn) {
        if |cur| > 0 {
          CommitLine();
        }
      }
      return len;
    }
  }

  lemma RunDone(b: Buf, d: Bytes)
    requires d == []
    ensures Run(b, d) == b
  {
  }

  lemma RunPlain(b: Buf, data: Bytes, i: nat)
    requires i < |data| && data[i] != ESC
    ensures Run(b, data[i..]) == Run(Token(b, [data[i]], data[i + 1..]), data[i + 1..])
  {
    hide EscLen;
    var d := data[i..];
    assert d[..1] == [data[i]] && d[1..] == data[i + 1..];
  }

  lemma RunEscape(b: Buf, data: Bytes, i: nat)
    requires i < |data| && data[i] == ESC
    ensures EscLen(data[i..]).None? ==> Run(b, data[i..]) == b.(pending := data[i..])
    ensures EscLen(data[i..]).Some? ==>
      var n := EscLen(data[i..]).value;
      i + n <= |data| && Run(b, data[i..]) == Run(Escape(b, data[i..i + n]), data[i + n..])
  {
    hide EscLen;
    var d := data[i..];
    if TokenLen(d).Some? {
      var n := TokenLen(d).value;
      assert d[..n] == data[i..i + n] && d[n..] == data[i + n..];
    }
  }

  /** Whether the escape sequence at data[i] is all there. */
  method EscComplete(data: Bytes, i: nat) returns (complete: bool)
    ensures i < |data| && data[i] == ESC ==> (complete <==> EscLen(data[i..]).Some?)
    ensures i >= |data| || data[i] != ESC ==> complete
  {
    if i >= |data| || data[i] != ESC {
      return true;
    }
    ghost var d := data[i..];
    var j := i + 1;
    if j >= |data| {
      return false;
    }
    if data[j] == OPEN_BRACKET {
      j := j + 1;
      while j < |data|
        invariant i + 2 <= j <= |data| && CsiEnd(d, 2) == CsiEnd(d, j - i)
      {
        if 0x40 <= data[j] <= 0x7e {
          return true;
        }
        j := j + 1;
      }
      return false;
    } else if data[j] == CLOSE_BRACKET {
      j := j + 1;
      while j < |data|
        invariant i + 2 <= j <= |data| && OscEnd(d, 2) == OscEnd(d, j - i)
      {
        if data[j] == BEL {
          return true;
        }
        if data[j] == ESC {
          if j + 1 < |data| {
            return data[j + 1] == BACKSLASH;
          }
          return false;
        }
        j := j + 1;
      }
      return false;
    }
    return true;
  }

  /** The text and length of the sequence at data[start]: of a complete one, exactly the bytes EscLen counts. */
  method ParseESC(data: Bytes, start: nat) returns (text: Bytes, n: nat, isSGR: bool)
    ensures start >= |data| || data[start] != ESC ==> n == 0 && text == [] && !isSGR
    ensures start < |data| && data[start] == ESC ==> 0 < n <= |data| - start && text == data[start..start + n]
    ensures start < |data| && data[start] == ESC && EscLen(data[start..]).Some? ==>
      n == EscLen(data[start..]).value && (isSGR <==> IsSGR(text))
  {
    if start >= |data| || data[start] != ESC {
      return [], 0, false;
    }
    ghost var d := data[start..];
    var i := start + 1;
    if i >= |data| {
      return data[start..i], 1, false;
    }
    if data[i] == OPEN_BRACKET {
      i := i + 1;
      while i < |data|
        invariant start + 2 <= i <= |data| && CsiEnd(d, 2) == CsiEnd(d, i - start)
      {
        var b := data[i];
        if 0x40 <= b <= 0x7e {
          i := i + 1;
          return data[start..i], i - start, b == 'm' as int;
        }
        i := i + 1;
      }
      return data[start..i], i - start, false;
    } else if data[i] == CLOSE_BRACKET {
      i := i + 1;
      while i < |data|
        invariant start + 2 <= i <= |data|
        invariant OscEnd(d, 2).Some? ==> OscEnd(d, 2) == OscEnd(d, i - start)
      {
        if data[i] == BEL {
          i := i + 1;
          break;
        }
        if data[i] == ESC && i + 1 < |data| && data[i + 1] == BACKSLASH {
          i := i + 2;
          break;
        }
        i := i + 1;
      }
      return data[start..i], i - start, false;
    }
    i := i + 1;
    return data[start..i], 2, false;
  }
}
