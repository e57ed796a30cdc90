/** The cast writer's carry-over of a UTF-8 sequence that a read boundary has split. */
module CastWriter {
  import opened Common

  type Octets = seq<bv8>

  const UTF_MAX: nat := 4

  /** A byte that is not a continuation byte. */
  predicate RuneStart(c: bv8) {
    c & 0xC0 != 0x80
  }

  /** The length that a leading byte announces. */
  function RuneLen(c: bv8): (n: nat)
    ensures 1 <= n <= UTF_MAX
  {
    if c & 0x80 == 0x00 then 1
    else if c & 0xE0 == 0xC0 then 2
    else if c & 0xF0 == 0xE0 then 3
    else if c & 0xF8 == 0xF0 then 4
    else 1
  }

  /** One for a byte below 0x80, two to four as the first bits of the leading byte say, and one for any other byte. */
  lemma LengthAnnounced(c: bv8)
    ensures RuneLen(c) == if 0xC0 <= c <= 0xDF then 2 else if 0xE0 <= c <= 0xEF then 3 else if 0xF0 <= c <= 0xF7 then 4 else 1
    ensures RuneStart(c) <==> c < 0x80 || 0xC0 <= c
  {
  }

  // ------------------------------------------------ UTF-8, RFC 3629 section 4

  predicate Tail(s: Octets, i: nat) {
    i < |s| && 0x80 <= s[i] <= 0xBF
  }

  predicate Second(s: Octets, lo: bv8, hi: bv8) {
    1 < |s| && lo <= s[1] <= hi
  }

  /** The length of the character s starts with, 0 if it starts with none. */
  function CharLen(s: Octets): (n: nat)
    ensures n <= |s| && n <= UTF_MAX
  {
    if s == [] then 0
    else if s[0] <= 0x7F then 1
    else if 0xC2 <= s[0] <= 0xDF && Tail(s, 1) then 2
    else if ((s[0] == 0xE0 && Second(s, 0xA0, 0xBF)) || (0xE1 <= s[0] <= 0xEC && Tail(s, 1))
          || (s[0] == 0xED && Second(s, 0x80, 0x9F)) || (0xEE <= s[0] <= 0xEF && Tail(s, 1))) && Tail(s, 2) then 3
    else if ((s[0] == 0xF0 && Second(s, 0x90, 0xBF)) || (0xF1 <= s[0] <= 0xF3 && Tail(s, 1))
          || (s[0] == 0xF4 && Second(s, 0x80, 0x8F))) && Tail(s, 2) && Tail(s, 3) then 4
    else 0
  }

  predicate Continues(s: Octets, from: nat, to: nat) {
    to <= |s| && forall i :: from <= i < to ==> s[i] & 0xC0 == 0x80
  }

  /**
   Which bytes make a character, in the terms of section 3 of RFC 3629: a leading byte, then as many continuation bytes
   as it announces; but not the longer form of what fits a shorter one, no surrogate, and nothing above U+10FFFF.
   */
  lemma CharsAreThese(s: Octets)
    ensures CharLen(s) == 1 <==> |s| >= 1 && s[0] & 0x80 == 0x00
    ensures CharLen(s) == 2 <==> Continues(s, 1, 2) && s[0] & 0xE0 == 0xC0 && s[0] & 0x1E != 0x00
    ensures CharLen(s) == 3 <==>
      && Continues(s, 1, 3) && s[0] & 0xF0 == 0xE0
      && !(s[0] == 0xE0 && s[1] & 0x20 == 0x00) && !(s[0] == 0xED && s[1] & 0x20 == 0x20)
    ensures CharLen(s) == 4 <==>
      && Continues(s, 1, 4) && s[0] & 0xF8 == 0xF0 && !(s[0] & 0x07 > 0x04)
      && !(s[0] == 0xF0 && s[1] & 0x30 == 0x00) && !(s[0] == 0xF4 && s[1] & 0x30 != 0x00)
  {
    if s != [] { LeadKinds(s[0]); }
    if |s| > 1 { ContinuationKinds(s[1]); }
    if |s| > 2 { ContinuationKinds(s[2]); }
    if |s| > 3 { ContinuationKinds(s[3]); }
  }

  lemma LeadKinds(c: bv8)
    ensures c <= 0x7F <==> c & 0x80 == 0x00
    ensures 0xC2 <= c <= 0xDF <==> c & 0xE0 == 0xC0 && c & 0x1E != 0x00
    ensures 0xE0 <= c <= 0xEF <==> c & 0xF0 == 0xE0
    ensures 0xF0 <= c <= 0xF4 <==> c & 0xF8 == 0xF0 && !(c & 0x07 > 0x04)
  {
  }

  lemma ContinuationKinds(c: bv8)
    ensures 0x80 <= c <= 0xBF <==> c & 0xC0 == 0x80
    ensures c & 0xC0 == 0x80 ==> (c & 0x20 == 0x20 <==> c >= 0xA0) && (c & 0x20 == 0x00 <==> c <= 0x9F)
    ensures c & 0xC0 == 0x80 ==> (c & 0x30 == 0x00 <==> c <= 0x8F)
  {
  }

  predicate ValidUTF8(s: Octets) {
    s == [] || (CharLen(s) > 0 && ValidUTF8(s[CharLen(s)..]))
  }

  lemma TailIsContinuation(c: bv8)
    ensures 0x80 <= c <= 0xBF <==> !RuneStart(c)
  {
  }

  lemma LeadingByte(c: bv8)
    ensures c <= 0x7F ==> RuneLen(c) == 1 && RuneStart(c)
    ensures 0xC2 <= c <= 0xDF ==> RuneLen(c) == 2 && RuneStart(c)
    ensures 0xE0 <= c <= 0xEF ==> RuneLen(c) == 3 && RuneStart(c)
    ensures 0xF0 <= c <= 0xF4 ==> RuneLen(c) == 4 && RuneStart(c)
  {
  }

  lemma CharShape(s: Octets)
    requires CharLen(s) > 0
    ensures RuneStart(s[0]) && RuneLen(s[0]) == CharLen(s)
    ensures forall i :: 1 <= i < CharLen(s) ==> !RuneStart(s[i])
  {
    LeadingByte(s[0]);
    hide RuneStart, RuneLen;
    forall i | 1 <= i < CharLen(s)
      ensures !RuneStart(s[i])
    {
      TailIsContinuation(s[i]);
    }
  }

  lemma CharLenOfPrefix(s: Octets, k: nat)
    requires 0 < CharLen(s) <= k <= |s|
    ensures CharLen(s[..k]) == CharLen(s)
  {
  }

  // --------------------------------------------------------- completeUTF8Len

  /** The scan back from the end of b, i bytes from it. */
  function ScanBack(b: Octets, i: nat): (n: nat)
    requires i >= 1
    ensures n <= |b| && |b| - n < UTF_MAX
    decreases |b| - i
  {
    if i > |b| || i > UTF_MAX then |b|
    else if !RuneStart(b[|b| - i]) then ScanBack(b, i + 1)
    else if RuneLen(b[|b| - i]) > i then |b| - i
    else |b|
  }

  /** How much of b is kept now; the rest is a sequence still waiting for bytes. */
  function CompleteLen(b: Octets): (n: nat)
    ensures n <= |b| && |b| - n < UTF_MAX
  {
    ScanBack(b, 1)
  }

  method CompleteUTF8Len(b: Octets) returns (n: nat)
    ensures n == CompleteLen(b)
  {
    var max := UTF_MAX;
    if max > |b| {
      max := |b|;
    }
    for i := 1 to max + 1
      invariant CompleteLen(b) == ScanBack(b, i)
    {
      var start := |b| - i;
      if !RuneStart(b[start]) {
        continue;
      }
      var size := RuneLen(b[start]);
      if size > 1 && start + size > |b| {
        return start;
      }
      return |b|;
    }
    return |b|;
  }

  lemma {:induction false} ScanSkips(b: Octets, i: nat, j: nat)
    requires 1 <= i <= j <= |b| && j <= UTF_MAX
    requires forall p :: |b| - j < p <= |b| - i ==> !RuneStart(b[p])
    ensures ScanBack(b, i) == ScanBack(b, j)
    decreases j - i
  {
    hide RuneStart, RuneLen;
    if i < j {
      ScanSkips(b, i + 1, j);
    }
  }

  /** b ends, from p on, with a leading byte and some but not all of the bytes it announces. */
  ghost predicate Waiting(b: Octets, p: nat) {
    && p < |b| && RuneLen(b[p]) > |b| - p && RuneStart(b[p])
    && forall q :: p < q < |b| ==> !RuneStart(b[q])
  }

  /** What is held back is exactly a character begun and not finished, on any bytes whatever. */
  lemma HeldBackIsUnfinished(b: Octets)
    ensures CompleteLen(b) < |b| ==> Waiting(b, CompleteLen(b))
    ensures forall p :: Waiting(b, p) ==> CompleteLen(b) == p
  {
    hide RuneStart;
    ScanFinds(b, 1);
    forall p | Waiting(b, p) ensures CompleteLen(b) == p {
      ScanSkips(b, 1, |b| - p);
    }
  }

  lemma {:induction false} ScanFinds(b: Octets, i: nat)
    requires i >= 1 && forall q :: |b| - i < q < |b| ==> q < 0 || !RuneStart(b[q])
    ensures ScanBack(b, i) < |b| ==> Waiting(b, ScanBack(b, i))
    decreases |b| - i
  {
    hide RuneStart, RuneLen;
    if i <= |b| && i <= UTF_MAX && !RuneStart(b[|b| - i]) { ScanFinds(b, i + 1); }
  }

  // --------------------------------------------------------------- boundaries

  /** The last character boundary of a valid text at or before m. */
  function BoundaryAt(text: Octets, m: nat): (k: nat)
    ensures k <= m
    decreases |text|
  {
    var n := CharLen(text);
    if n == 0 || m < n then 0 else n + BoundaryAt(text[n..], m - n)
  }

  lemma {:induction false} BoundarySplits(text: Octets, m: nat)
    requires ValidUTF8(text) && m <= |text|
    ensures var k := BoundaryAt(text, m);
            && ValidUTF8(text[..k]) && ValidUTF8(text[k..])
            && (k == m || m < k + CharLen(text[k..]))
    decreases |text|
  {
    var n := CharLen(text);
    if n == 0 || m < n {
      assert text[0..] == text;
    } else {
      hide CharLen;
      var k := BoundaryAt(text[n..], m - n);
      BoundarySplits(text[n..], m - n);
      CharLenOfPrefix(text, n + k);
      SlicesShift(text, n, k);
    }
  }

  lemma SlicesShift(text: Octets, n: nat, k: nat)
    requires n + k <= |text|
    ensures text[..n + k][n..] == text[n..][..k] && text[n + k..] == text[n..][k..]
  {
  }

  /** A non-empty valid text ends with a whole character. */
  lemma {:induction false} LastChar(s: Octets) returns (p: nat)
    requires ValidUTF8(s) && s != []
    ensures p < |s| <= p + UTF_MAX
    ensures RuneStart(s[p]) && RuneLen(s[p]) == |s| - p
    ensures forall i :: p < i < |s| ==> !RuneStart(s[i])
    decreases |s|
  {
    var n := CharLen(s);
    CharShape(s);
    hide RuneStart, RuneLen, CharLen;
    if n == |s| {
      p := 0;
    } else {
      var q := LastChar(s[n..]);
      p := n + q;
      forall i | p < i < |s| ensures !RuneStart(s[i]) {
        assert s[i] == s[n..][i - n];
      }
    }
  }

  /** On what has come so far of a valid text, the cut is at the last character boundary. */
  lemma CutsAtBoundary(text: Octets, m: nat)
    requires ValidUTF8(text) && m <= |text|
    ensures CompleteLen(text[..m]) == BoundaryAt(text, m)
  {
    var b, k := text[..m], BoundaryAt(text, m);
    BoundarySplits(text, m);
    hide CharLen, BoundaryAt;
    if k < m {
      CharShape(text[k..]);
      var i := m - k;
      assert b[m - i] == text[k..][0];
      forall p | k < p < m ensures !RuneStart(b[p]) {
        assert b[p] == text[k..][p - k];
      }
      hide RuneStart, RuneLen;
      ScanSkips(b, 1, i);
    } else if m > 0 {
      var p := LastChar(b);
      hide RuneStart, RuneLen;
      ScanSkips(b, 1, m - p);
    }
  }

  // ------------------------------------------------------------------ writer

  datatype Event = Event(time: real, data: Octets)

  function Data(events: seq<Event>): Octets {
    if events == [] then [] else Data(events[..|events| - 1]) + events[|events| - 1].data
  }

  datatype State = State(events: seq<Event>, pending: Octets, lastT: real)

  const START: State := State([], [], 0.0)

  function Emitted(s: State, t: real, data: Octets): State {
    if data == [] then s else s.(events := s.events + [Event(t, data)])
  }

  function Written(s: State, t: real, chunk: Octets): State {
    var data := s.pending + chunk;
    var n := CompleteLen(data);
    Emitted(State(s.events, data[n..], t), t, data[..n])
  }

  function Closed(s: State): State {
    Emitted(s, s.lastT, s.pending).(pending := [])
  }

  class Writer {
    var events: seq<Event>
    var pending: Octets
    var lastT: real

    ghost function Contents(): State
      reads this
    {
      State(events, pending, lastT)
    }

    constructor ()
      ensures Contents() == START
    {
      events, pending, lastT := [], [], 0.0;
    }

    method WriteOutput(t: real, chunk: Octets)
      modifies this
      ensures Contents() == Written(old(Contents()), t, chunk)
    {
      var data := chunk;
      lastT := t;
      assert |pending| == 0 ==> pending + chunk == chunk;
      if |pending| > 0 {
        data := pending + data;
        pending := [];
      }
      var n := CompleteUTF8Len(data);
      assert data[|data|..] == [] && data[..|data|] == data;
      if n < |data| {
        pending := data[n..];
        data := data[..n];
      }
      if |data| == 0 {
        return;
      }
      events := events + [Event(t, data)];
    }

    method Close()
      modifies this
      ensures Contents() == Closed(old(Contents()))
    {
      if |pending| > 0 {
        events := events + [Event(lastT, pending)];
        pending := [];
      }
    }
  }

  /** A run of writes, each chunk with its time. */
  function WrittenAll(chunks: seq<Event>): State {
    if chunks == [] then START
    else
      var last := chunks[|chunks| - 1];
      Written(WrittenAll(chunks[..|chunks| - 1]), last.time, last.data)
  }

  lemma DataSnoc(events: seq<Event>, e: Event)
    ensures Data(events + [e]) == Data(events) + e.data
  {
    assert (events + [e])[..|events|] == events;
  }

  lemma WrittenKeepsData(s: State, t: real, chunk: Octets)
    ensures var z := Written(s, t, chunk);
            && Data(z.events) + z.pending == Data(s.events) + s.pending + chunk
            && Data(z.events) == Data(s.events) + (s.pending + chunk)[..CompleteLen(s.pending + chunk)]
            && |z.pending| < UTF_MAX
  {
    hide ScanBack, CompleteLen;
    var data := s.pending + chunk;
    var n := CompleteLen(data);
    DataSnoc(s.events, Event(t, data[..n]));
    Assoc(Data(s.events), s.pending, chunk);
    Assoc(Data(s.events), data[..n], data[n..]);
    assert data[..n] + data[n..] == data;
  }

  /** Whatever the bytes and the chunking, nothing is lost or invented, and at most three bytes are held back. */
  lemma {:induction false} NothingLost(chunks: seq<Event>)
    ensures var s := WrittenAll(chunks);
            Data(s.events) + s.pending == Data(chunks) && |s.pending| <= 3
    ensures Data(Closed(WrittenAll(chunks)).events) == Data(chunks)
    decreases |chunks|
  {
    hide CompleteLen, Written;
    var s := WrittenAll(chunks);
    if chunks != [] {
      var front, last := chunks[..|chunks| - 1], chunks[|chunks| - 1];
      NothingLost(front);
      WrittenKeepsData(WrittenAll(front), last.time, last.data);
    }
    DataSnoc(s.events, Event(s.lastT, s.pending));
    assert s.pending == [] ==> Data(s.events) + s.pending == Data(s.events);
  }

  /**
   If the whole input is valid UTF-8, then after any part of it every event is valid UTF-8 by itself and
   the events end at a character boundary; and once all of it is written, Close has nothing to emit.
   */
  lemma {:induction false} EventsAreValid(chunks: seq<Event>, text: Octets)
    requires ValidUTF8(text) && Data(chunks) <= text
    ensures var s := WrittenAll(chunks);
            && (forall e :: e in s.events ==> ValidUTF8(e.data))
            && Data(s.events) == text[..BoundaryAt(text, |Data(chunks)|)]
            && (Data(chunks) == text ==> s.pending == [] && Closed(s) == s)
    decreases |chunks|
  {
    hide CompleteLen, CharLen, BoundaryAt, Written, ValidUTF8;
    if chunks == [] {
      BoundaryAtStart(text);
    } else {
      var front, last := chunks[..|chunks| - 1], chunks[|chunks| - 1];
      var before, m := |Data(front)|, |Data(chunks)|;
      PrefixParts(text, Data(front), last.data);
      EventsAreValid(front, text);
      NothingLost(front);
      NextEvent(text, before, m, WrittenAll(front), last);
    }
    NothingLost(chunks);
    BoundaryAtEnd(text);
  }

  lemma PrefixParts(text: Octets, a: Octets, b: Octets)
    requires a + b <= text
    ensures a <= text && text[..|a|] == a && |a + b| <= |text| && text[|a|..|a + b|] == b
  {
    assert text[..|a + b|] == a + b;
    assert text[..|a|] == text[..|a + b|][..|a|];
    assert text[|a|..|a + b|] == text[..|a + b|][|a|..];
  }

  lemma BoundaryAtStart(text: Octets)
    ensures BoundaryAt(text, 0) == 0
  {
  }

  lemma BoundaryAtEnd(text: Octets)
    requires ValidUTF8(text)
    ensures BoundaryAt(text, |text|) == |text|
  {
    BoundarySplits(text, |text|);
  }

  lemma NextEvent(text: Octets, before: nat, m: nat, s: State, chunk: Event)
    requires ValidUTF8(text) && before <= m <= |text| && text[before..m] == chunk.data
    requires Data(s.events) == text[..BoundaryAt(text, before)] && Data(s.events) + s.pending == text[..before]
    requires forall e :: e in s.events ==> ValidUTF8(e.data)
    ensures var z := Written(s, chunk.time, chunk.data);
            && Data(z.events) == text[..BoundaryAt(text, m)]
            && forall e :: e in z.events ==> ValidUTF8(e.data)
  {
    hide ScanBack, CompleteLen, CharLen, BoundaryAt, Written, ValidUTF8, Data;
    var k := BoundaryAt(text, before);
    var data := s.pending + chunk.data;
    BoundarySplits(text, before);
    CarriedOver(text, k, before, m, Data(s.events), s.pending, chunk.data);
    CutsAtBoundary(text[k..], m - k);
    BoundaryChains(text, before, m);
    BoundarySplits(text[k..], m - k);
    WrittenKeepsData(s, chunk.time, chunk.data);
    SlicesJoin(text, k, CompleteLen(data), m);
    NewEventOnly(s, chunk);
  }

  lemma CarriedOver(text: Octets, k: nat, before: nat, m: nat, done: Octets, pending: Octets, chunk: Octets)
    requires k <= before <= m <= |text| && text[before..m] == chunk
    requires done == text[..k] && done + pending == text[..before]
    ensures pending + chunk == text[k..][..m - k]
  {
    assert pending == text[..before][k..] == text[k..before];
    assert text[k..][..m - k] == text[k..m] == text[k..before] + text[before..m];
  }

  lemma SlicesJoin(text: Octets, k: nat, n: nat, m: nat)
    requires k + n <= m <= |text|
    ensures text[..k] + text[k..][..m - k][..n] == text[..k + n]
    ensures text[k..][..m - k][..n] == text[k..][..n]
  {
  }

  lemma NewEventOnly(s: State, chunk: Event)
    ensures var z, data := Written(s, chunk.time, chunk.data), s.pending + chunk.data;
            forall e :: e in z.events ==> e in s.events || e.data == data[..CompleteLen(data)]
  {
  }

  /** Boundaries are found from any boundary on. */
  lemma {:induction false} BoundaryChains(text: Octets, before: nat, m: nat)
    requires ValidUTF8(text) && before <= m <= |text|
    ensures var k := BoundaryAt(text, before);
            BoundaryAt(text, m) == k + BoundaryAt(text[k..], m - k)
    decreases |text|
  {
    hide CharLen;
    var n := CharLen(text);
    if n == 0 || before < n {
      assert text[0..] == text;
    } else {
      BoundaryChains(text[n..], before - n, m - n);
      var k := BoundaryAt(text[n..], before - n);
      assert text[n + k..] == text[n..][k..];
    }
  }

  // ------------------------------------------------- any chunking of any bytes

  /** Bytes that wait at the end of a longer input wait at the end of its last part, and the other way round. */
  lemma WaitingAtEnd(front: Octets, back: Octets, p: nat)
    ensures Waiting(back, p) ==> Waiting(front + back, |front| + p)
    ensures p >= |front| && Waiting(front + back, p) ==> Waiting(back, p - |front|)
    ensures p < |front| && Waiting(front + back, p) ==> Waiting(front, p)
  {
    hide RuneStart, RuneLen;
    var b := front + back;
    assert forall q :: 0 <= q < |back| ==> b[|front| + q] == back[q];
    assert forall q :: 0 <= q < |front| ==> front[q] == b[q];
    if p >= |front| && Waiting(b, p) {
      forall q | p - |front| < q < |back| ensures !RuneStart(back[q]) {
        assert b[|front| + q] == back[q];
      }
    }
  }

  /** Once its unfinished end is held back, more input settles the same as if all of it had come at once. */
  lemma SettlesAlike(all: Octets, chunk: Octets)
    ensures CompleteLen(all + chunk) == CompleteLen(all) + CompleteLen(all[CompleteLen(all)..] + chunk)
  {
    hide CompleteLen, Waiting;
    var k := CompleteLen(all);
    var front, back := all[..k], all[k..] + chunk;
    assert all + chunk == front + back;
    HeldBackIsUnfinished(all);
    HeldBackIsUnfinished(back);
    HeldBackIsUnfinished(all + chunk);
    WaitingAtEnd(front, back, CompleteLen(back));
    var p := CompleteLen(all + chunk);
    WaitingAtEnd(front, back, p);
    WaitingAtEnd(all, chunk, p);
  }

  /** However the input was cut: what is pending is its unfinished end, and what has been emitted is all before. */
  lemma {:induction false} AnyChunking(chunks: seq<Event>)
    ensures var s, all := WrittenAll(chunks), Data(chunks);
            && s.pending == all[CompleteLen(all)..] && Data(s.events) == all[..CompleteLen(all)]
            && s.lastT == if chunks == [] then 0.0 else chunks[|chunks| - 1].time
    decreases |chunks|
  {
    hide CompleteLen, Written;
    if chunks == [] {
      NothingWaits();
    } else {
      var front, last := chunks[..|chunks| - 1], chunks[|chunks| - 1];
      var all, s := Data(front), WrittenAll(front);
      AnyChunking(front);
      SettlesAlike(all, last.data);
      NextSettles(s, last, all);
    }
  }

  lemma NothingWaits()
    ensures CompleteLen([]) == 0
  {
  }

  lemma NextSettles(s: State, last: Event, all: Octets)
    requires s.pending == all[CompleteLen(all)..] && Data(s.events) == all[..CompleteLen(all)]
    requires CompleteLen(all + last.data) == CompleteLen(all) + CompleteLen(s.pending + last.data)
    ensures var z, whole := Written(s, last.time, last.data), all + last.data;
            && z.pending == whole[CompleteLen(whole)..] && Data(z.events) == whole[..CompleteLen(whole)]
            && z.lastT == last.time
            && z.events == s.events + (
                if CompleteLen(all) == CompleteLen(whole) then []
                else [Event(last.time, whole[CompleteLen(all)..CompleteLen(whole)])])
  {
    hide ScanBack;
    var k, data, whole := CompleteLen(all), s.pending + last.data, all + last.data;
    var n := CompleteLen(data);
    hide CompleteLen;
    assert whole == all[..k] + data;
    assert whole[k..k + n] == data[..n] && whole[k + n..] == data[n..] && whole[..k + n] == all[..k] + data[..n];
    DataSnoc(s.events, Event(last.time, data[..n]));
    Assoc(s.events, [], []);
  }

  /** A write emits one event with its own time, of all that it has settled, or none when that is nothing. */
  lemma StampedByItsWrite(chunks: seq<Event>, last: Event)
    ensures var a, b := CompleteLen(Data(chunks)), CompleteLen(Data(chunks + [last]));
            && a <= b
            && WrittenAll(chunks + [last]).events
              == WrittenAll(chunks).events + if a == b then [] else [Event(last.time, Data(chunks + [last])[a..b])]
  {
    hide CompleteLen, Written;
    assert (chunks + [last])[..|chunks|] == chunks;
    AnyChunking(chunks);
    SettlesAlike(Data(chunks), last.data);
    DataSnoc(chunks, last);
    NextSettles(WrittenAll(chunks), last, Data(chunks));
  }

  /** Close emits an unfinished end with the time of the last write. */
  lemma CloseEmitsTheRest(chunks: seq<Event>)
    requires chunks != []
    ensures var s, all := WrittenAll(chunks), Data(chunks);
            Closed(s).events == s.events
              + if CompleteLen(all) == |all| then [] else [Event(chunks[|chunks| - 1].time, all[CompleteLen(all)..])]
  {
    hide CompleteLen, WrittenAll;
    AnyChunking(chunks);
    Assoc(WrittenAll(chunks).events, [], []);
  }
}
