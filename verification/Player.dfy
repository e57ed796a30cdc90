/** The interactive replay player: seeking, pausing, overlays and the loop that plays events on time. */
module Player {
  import opened Common
  import opened Timeline
  import SB = Scrollback

  const MIN_SPEED: real := 1.0 / 64.0
  const MAX_SPEED: real := 64.0
  const SEEK_STEP: real := 5.0
  const MAX_GOTO_LEN: nat := 8
  const SCROLL_STEP: nat := 3

  function ClampSpeed(s: real): (r: real)
    ensures Nearest(r, s, MIN_SPEED, MAX_SPEED)
  {
    if s < MIN_SPEED then MIN_SPEED else if s > MAX_SPEED then MAX_SPEED else s
  }

  function ClampWait(seconds: real): (r: real)
    ensures Nearest(r, seconds, 0.0, MAX_WAIT_SECONDS)
  {
    if !(seconds > 0.0) then 0.0 else if seconds > MAX_WAIT_SECONDS then MAX_WAIT_SECONDS else seconds
  }

  /** Twice or half the speed, within the limits; a recording started faster than they allow comes down to the upper one. */
  predicate SpeedStep(was: real, speed: real, up: bool) {
    if up then speed == if was <= 1.0 / 128.0 then 1.0 / 64.0 else if was <= 32.0 then was + was else 64.0
    else if was >= 128.0 then speed == 64.0
    else if was >= 1.0 / 32.0 then speed + speed == was
    else speed == 1.0 / 64.0
  }

  lemma SpeedSteps(s: real)
    ensures SpeedStep(s, ClampSpeed(s * 2.0), true) && SpeedStep(s, ClampSpeed(s / 2.0), false)
  {
  }

  /** Recording seconds that pass between two wall-clock times. */
  function Elapsed(anchor: real, now: real, speed: real): (r: real)
    ensures anchor <= now && speed > 0.0 ==> r >= 0.0
  {
    (now - anchor) * speed
  }

  lemma NoTimePasses(now: real, speed: real)
    ensures Elapsed(now, now, speed) == 0.0
  {
  }

  /** A second at speed 1 is a second; stretches of time add up, and so do speeds. */
  lemma ElapsedIsLinear(a: real, b: real, c: real, s: real, t: real)
    ensures Elapsed(a, b, s) + Elapsed(b, c, s) == Elapsed(a, c, s)
    ensures Elapsed(a, b, s) + Elapsed(a, b, t) == Elapsed(a, b, s + t)
    ensures Elapsed(a, a + 1.0, s) == s
  {
  }

  lemma ElapsedGrows(anchor: real, now: real, later: real, speed: real)
    requires now <= later && speed > 0.0
    ensures Elapsed(anchor, now, speed) <= Elapsed(anchor, later, speed)
  {
    assert Elapsed(anchor, later, speed) - Elapsed(anchor, now, speed) == (later - now) * speed;
  }

  /** Waiting until a gap has been divided by the speed lets the whole gap pass. */
  lemma WaitedLongEnough(anchor: real, now: real, gap: real, speed: real)
    requires speed > 0.0 && anchor <= now && gap / speed <= MAX_WAIT_SECONDS && now >= anchor + ClampWait(gap / speed)
    ensures gap <= Elapsed(anchor, now, speed)
  {
    if gap > 0.0 {
      Quotient(gap, speed);
      assert now - anchor >= gap / speed;
      MulGrows(gap / speed, now - anchor, speed);
    }
  }

  lemma Quotient(gap: real, speed: real)
    requires speed > 0.0 && gap > 0.0
    ensures gap / speed > 0.0 && (gap / speed) * speed == gap
  {
  }

  lemma WaitedTooLittle(anchor: real, now: real, gap: real, speed: real)
    requires speed > 0.0 && anchor <= now < anchor + ClampWait(gap / speed)
    ensures Elapsed(anchor, now, speed) < gap
  {
    if gap > 0.0 {
      Quotient(gap, speed);
      MulLess(now - anchor, gap / speed, speed);
    } else {
      NoQuotient(gap, speed);
    }
  }

  lemma MulLess(a: real, b: real, c: real)
    requires a < b && c > 0.0
    ensures a * c < b * c
  {
  }

  lemma NoQuotient(gap: real, speed: real)
    requires speed > 0.0 && gap <= 0.0
    ensures gap / speed <= 0.0
  {
  }

  lemma OnTheBar(x: real, width: real, frac: real, lastT: real)
    requires 0.0 <= x <= width && width > 0.0 && frac == x / width && lastT >= 0.0
    ensures 0.0 <= frac * lastT <= lastT && frac * lastT * width == x * lastT
  {
    assert frac * width == x;
    assert 0.0 <= frac <= 1.0;
    calc {
      frac * lastT * width;
      (frac * width) * lastT;
      x * lastT;
    }
  }

  lemma MulGrows(a: real, b: real, c: real)
    requires a <= b && c > 0.0
    ensures a * c <= b * c
  {
  }

  // ------------------------------------------------- output of an event prefix

  /** `shown` and `buf` are what the output events before idx leave on a clear screen and in an empty buffer. */
  ghost predicate ShowsPrefix(events: seq<Event>, idx: nat, shown: Bytes, buf: SB.Buf) {
    && idx <= |events|
    && shown == Concat(Outs(events[..idx]))
    && buf == SB.FeedAll(SB.EMPTY, Outs(events[..idx]))
  }

  lemma ShowsNothing(events: seq<Event>)
    ensures ShowsPrefix(events, 0, [], SB.EMPTY)
  {
    assert events[..0] == [];
  }

  lemma ShowsOutput(events: seq<Event>, idx: nat, shown: Bytes, buf: SB.Buf)
    requires ShowsPrefix(events, idx, shown, buf) && idx < |events| && events[idx].isOut
    ensures ShowsPrefix(events, idx + 1, shown + events[idx].data, SB.Feed(buf, events[idx].data))
  {
    hide SB.Feed;
    var outs, data := Outs(events[..idx]), events[idx].data;
    OutsSnoc(events, idx);
    ConcatSnoc(outs, data);
    assert (outs + [data])[..|outs|] == outs;
  }

  lemma ShowsOther(events: seq<Event>, idx: nat, shown: Bytes, buf: SB.Buf)
    requires ShowsPrefix(events, idx, shown, buf) && idx < |events| && !events[idx].isOut
    ensures ShowsPrefix(events, idx + 1, shown, buf)
  {
    OutsSnoc(events, idx);
    assert Outs(events[..idx]) + [] == Outs(events[..idx]);
  }

  /** The timeline ends at its last output event. */
  predicate EndsAt(events: seq<Event>, lastOut: int, lastT: real) {
    && -1 <= lastOut < |events|
    && (forall k :: lastOut < k < |events| ==> !events[k].isOut)
    && (if lastOut == -1 then lastT == 0.0 else events[lastOut].isOut && lastT == events[lastOut].time)
  }

  method FindEnd(events: seq<Event>) returns (lastOut: int, lastT: real)
    requires Playable(events)
    ensures EndsAt(events, lastOut, lastT) && lastT >= 0.0
  {
    lastOut, lastT := -1, 0.0;
    for i := 0 to |events|
      invariant EndsAt(events[..i], lastOut, lastT) && lastT >= 0.0
    {
      assert forall k :: 0 <= k < i ==> events[..i][k] == events[k];
      if events[i].isOut {
        lastOut, lastT := i, events[i].time;
      }
    }
    assert events[..|events|] == events;
  }

  lemma ForwardEnds(events: seq<Event>, i: nat, j: nat, t: real)
    requires Playable(events) && i <= j <= |events|
    requires forall k :: i <= k < j ==> events[k].time <= t
    requires j < |events| ==> events[j].time > t
    ensures j == if i < FirstAfter(events, t) then FirstAfter(events, t) else i
  {
    FirstAfterFrom(events, i, j, t);
  }

  lemma BeforeEnd(events: seq<Event>, lastOut: int, lastT: real, i: nat)
    requires Sorted(events) && EndsAt(events, lastOut, lastT) && i <= lastOut
    ensures i < |events| && events[i].time <= lastT
  {
  }

  /** The latest chapter that starts at or before t. */
  method ChapterAt(chapters: seq<real>, t: real) returns (sel: nat)
    ensures chapters != [] ==> sel < |chapters|
    ensures chapters != [] && chapters[0] <= t ==> forall k :: 0 <= k <= sel ==> chapters[k] <= t
    ensures sel + 1 < |chapters| ==> chapters[sel + 1] > t || (sel == 0 && chapters[0] > t)
    ensures chapters != [] && chapters[0] > t ==> sel == 0
  {
    sel := 0;
    for i := 0 to |chapters|
      invariant sel == if i == 0 then 0 else i - 1
      invariant forall k :: 0 <= k < i ==> chapters[k] <= t
    {
      if chapters[i] <= t {
        sel := i;
      } else {
        break;
      }
    }
  }

  // ------------------------------------------------------------------- player

  datatype Input = Key(b: Byte) | Arrow(b: Byte) | Wheel(up: bool) | Mouse(mx: int, my: int, press: bool)

  /** Where things were last drawn, and how tall the terminal is. */
  datatype Layout = Layout(barCol: int, barW: int, barRow: int, height: int, listTop: int)

  class Player {
    const events: seq<Event>
    const lastOut: int
    const lastT: real
    const chapters: seq<real>
    const parseClock: string -> Option<real>

    var idx: nat
    var vt: real
    var anchor: real
    var speed: real
    var paused: bool
    var inGoto: bool
    var gotoBuf: string
    var listMode: bool
    var listSel: nat
    var scrollMode: bool
    var scrollOffset: nat
    var barHidden: bool
    /** Recording output on the terminal since the last clear, and the one being put together for the next. */
    var screen: Bytes
    var renderBuf: Option<Bytes>
    /** A menu or the scroll view has been drawn over the recording since the last clear. */
    var covered: bool
    var scrollBuf: SB.LineBuf

    constructor (events: seq<Event>, speed: real, chapters: seq<real>, parseClock: string -> Option<real>, now: real)
      requires Playable(events)
      ensures Valid() && fresh(scrollBuf)
      ensures this.events == events && this.chapters == chapters && this.parseClock == parseClock
      ensures idx == 0 && vt == 0.0 && anchor == now && !Frozen()
      ensures this.speed == if speed <= 0.0 then 1.0 else speed
    {
      hide ShowsPrefix, EndsAt, Playable, FirstAfter, Elapsed, SB.Retained, SB.Bounded, SB.WellFormed;
      ShowsNothing(events);
      var end, time := FindEnd(events);
      var empty := new SB.LineBuf();
      this.events, this.chapters, this.parseClock := events, chapters, parseClock;
      lastOut, lastT := end, time;
      idx, vt, anchor := 0, 0.0, now;
      this.speed := if speed <= 0.0 then 1.0 else speed;
      paused, inGoto, listMode, scrollMode, barHidden, covered := false, false, false, false, false, false;
      gotoBuf, listSel, scrollOffset := "", 0, 0;
      screen, renderBuf, scrollBuf := [], None, empty;
    }

    predicate Frozen()
      reads this
    {
      paused || inGoto || listMode || scrollMode
    }

    function DisplayTime(now: real): real
      reads this
    {
      if Frozen() then vt
      else
        var d := vt + Elapsed(anchor, now, speed);
        if d > lastT then lastT else d
    }

    function Shown(): Bytes
      reads this`renderBuf, this`screen
    {
      if renderBuf.Some? then renderBuf.value else screen
    }

    /** The output emitted since the last clear, and the scrollback, are those of the events before idx. */
    ghost predicate Prefix()
      reads this`idx, this`renderBuf, this`screen, this`scrollBuf, scrollBuf
    {
      scrollBuf.Valid() && ShowsPrefix(events, idx, Shown(), scrollBuf.Contents())
    }

    ghost predicate Timed()
      reads this`vt, this`speed, this`idx
    {
      && Playable(events) && EndsAt(events, lastOut, lastT)
      && 0.0 <= vt <= lastT && speed > 0.0
      && idx <= FirstAfter(events, lastT)
    }

    ghost predicate Modes()
      reads this
    {
      && (scrollMode ==> paused && !listMode)
      && (listMode ==> !inGoto && listSel < |chapters|)
      && covered == (listMode || scrollMode)
      && |gotoBuf| <= MAX_GOTO_LEN
    }

    ghost predicate Valid()
      reads this, scrollBuf
    {
      Prefix() && renderBuf == None && Timed() && Modes()
    }

    /** Nothing later than the clock on display has been emitted. */
    ghost predicate InSync(now: real)
      reads this
    {
      idx <= FirstAfter(events, DisplayTime(now))
    }

    /** The screen is not ahead of the clock as it was last read; what `0` needs, and only a resize breaks. */
    ghost predicate NotAhead()
      reads this
    {
      idx <= FirstAfter(events, vt)
    }

    /** Time alone never puts the player out of step. */
    lemma StaysInSync(now: real, later: real)
      requires Timed() && anchor <= now <= later && InSync(now)
      ensures InSync(later)
    {
      ElapsedGrows(anchor, now, later, speed);
      FirstAfterGrows(events, DisplayTime(now), DisplayTime(later));
    }

    lemma Grows(s: real, t: real)
      requires Timed() && s <= t
      ensures FirstAfter(events, s) <= FirstAfter(events, t) && Playable(events)
    {
      FirstAfterGrows(events, s, t);
    }

    /** While it plays, the clock goes on by speed seconds a second, until the end of the recording, and stays there. */
    lemma ClockRuns(now: real, later: real)
      requires Timed() && anchor <= now <= later && !paused && !inGoto && !listMode && !scrollMode
      ensures DisplayTime(anchor) == vt
      ensures DisplayTime(later) < lastT ==> DisplayTime(later) - DisplayTime(now) == (later - now) * speed
      ensures DisplayTime(now) == lastT ==> DisplayTime(later) == lastT
    {
      ElapsedIsLinear(anchor, now, later, speed, 0.0);
      ElapsedGrows(anchor, now, later, speed);
      NoTimePasses(anchor, speed);
    }

    /** In a pause, in the menu, in the scroll view and at the time prompt it stands still. */
    lemma ClockStands(now: real)
      requires paused || inGoto || listMode || scrollMode
      ensures DisplayTime(now) == vt
    {
    }

    lemma DisplayRange(now: real)
      requires Timed() && anchor <= now
      ensures vt <= DisplayTime(now) <= lastT
    {
    }

    // ------------------------------------------------------------ emitting

    method Emit(data: Bytes)
      requires scrollBuf.Valid() && (renderBuf.Some? || !covered)
      modifies this`renderBuf, this`screen, scrollBuf
      ensures scrollBuf.Valid() && scrollBuf.Contents() == SB.Feed(old(scrollBuf.Contents()), data)
      ensures Shown() == old(Shown()) + data
      ensures renderBuf.Some? == old(renderBuf.Some?) && (renderBuf.Some? ==> screen == old(screen))
    {
      hide SB.Feed;
      if renderBuf.Some? {
        renderBuf := Some(renderBuf.value + data);
      } else {
        screen := screen + data;
      }
      scrollBuf.FeedChunk(data);
    }

    /** Emit the event at idx and step over it. */
    method EmitNext()
      requires Prefix() && idx < |events| && (renderBuf.Some? || !covered)
      modifies this`idx, this`renderBuf, this`screen, scrollBuf
      ensures Prefix() && idx == old(idx) + 1 && renderBuf.Some? == old(renderBuf.Some?)
    {
      hide ShowsPrefix, SB.Feed, SB.Retained, SB.Bounded, SB.WellFormed;
      if events[idx].isOut {
        ShowsOutput(events, idx, Shown(), scrollBuf.Contents());
        Emit(events[idx].data);
      } else {
        ShowsOther(events, idx, Shown(), scrollBuf.Contents());
      }
      idx := idx + 1;
    }

    /** Going forward stops at the first event later than the target, or stays put when it is past it already. */
    method EmitForward(target: real)
      requires Prefix() && Playable(events) && idx <= |events| && (renderBuf.Some? || !covered)
      modifies this`idx, this`renderBuf, this`screen, scrollBuf
      ensures Prefix() && renderBuf.Some? == old(renderBuf.Some?)
      ensures idx == if old(idx) < FirstAfter(events, target) then FirstAfter(events, target) else old(idx)
    {
      hide Elapsed, Prefix, FirstAfter, Playable;
      while idx < |events| && events[idx].time <= target
        invariant Prefix() && renderBuf.Some? == old(renderBuf.Some?)
        invariant old(idx) <= idx <= |events|
        invariant forall k :: old(idx) <= k < idx ==> events[k].time <= target
        decreases |events| - idx
      {
        EmitNext();
      }
      ForwardEnds(events, old(idx), idx, target);
    }

    /** Clear, and replay from the start. */
    method RenderTo(target: real)
      requires Playable(events)
      modifies this`idx, this`renderBuf, this`screen, this`scrollBuf, this`covered
      ensures Prefix() && renderBuf == None && !covered && fresh(scrollBuf)
      ensures idx == FirstAfter(events, target)
    {
      hide Elapsed, ShowsPrefix, FirstAfter, Playable, SB.Retained, SB.Bounded, SB.WellFormed, SB.FeedAll;
      renderBuf := Some([]);
      idx := 0;
      scrollBuf := new SB.LineBuf();
      ShowsNothing(events);
      EmitForward(target);
      screen := renderBuf.value;
      covered := false;
      renderBuf := None;
    }

    // ------------------------------------------------------------- seeking

    method SyncClock(now: real)
      requires Timed() && anchor <= now
      modifies this`vt, this`anchor
      ensures Timed() && vt == old(DisplayTime(now)) && anchor == now
      ensures DisplayTime(now) == vt
      ensures old(NotAhead()) ==> NotAhead()
    {
      hide FirstAfter, Playable, EndsAt, Elapsed;
      DisplayRange(now);
      Grows(vt, DisplayTime(now));
      if !Frozen() {
        vt := DisplayTime(now);
      }
      anchor := now;
      NoTimePasses(now, speed);
    }

    /** A seek is exact if and only if it goes back, or nothing later than the target has been emitted. */
    method Seek(target: real, now: real)
      requires Valid() && !covered
      modifies this`idx, this`vt, this`anchor, this`renderBuf, this`screen, this`scrollBuf, this`covered, scrollBuf
      ensures Valid() && (scrollBuf == old(scrollBuf) || fresh(scrollBuf))
      ensures vt == ClampSeek(target, lastT) && anchor == now && DisplayTime(now) == vt
      ensures idx == FirstAfter(events, vt) <==> vt < old(vt) || old(idx) <= FirstAfter(events, vt)
      ensures idx >= FirstAfter(events, vt)
      ensures vt == if target <= 0.0 then 0.0 else if target >= lastT then lastT else target
    {
      hide Elapsed, Prefix, EndsAt, FirstAfter, Playable;
      var t := ClampSeek(target, lastT);
      Grows(t, lastT);
      if t < vt {
        RenderTo(t);
      } else {
        EmitForward(t);
      }
      vt := t;
      anchor := now;
      NoTimePasses(now, speed);
    }

    /** Where a seek wants to go. */
    static function JumpTarget(relative: bool, amount: real, shown: real): real {
      if relative then shown + amount else amount
    }

    /** The keys that seek read the clock first: from a player in step they land exactly. */
    method JumpTo(relative: bool, amount: real, now: real)
      requires Valid() && !covered && anchor <= now
      modifies this`idx, this`vt, this`anchor, this`renderBuf, this`screen, this`scrollBuf, this`covered, scrollBuf
      ensures Valid() && (scrollBuf == old(scrollBuf) || fresh(scrollBuf))
      ensures vt == ClampSeek(if relative then old(DisplayTime(now)) + amount else amount, lastT)
      ensures anchor == now && DisplayTime(now) == vt
      ensures idx == FirstAfter(events, vt) <==> vt < old(DisplayTime(now)) || old(idx) <= FirstAfter(events, vt)
      ensures old(InSync(now)) ==> idx == FirstAfter(events, vt)
      ensures old(NotAhead()) ==> NotAhead()
      ensures vt == if JumpTarget(relative, amount, old(DisplayTime(now))) <= 0.0 then 0.0
        else if JumpTarget(relative, amount, old(DisplayTime(now))) >= lastT then lastT
        else JumpTarget(relative, amount, old(DisplayTime(now)))
      ensures relative && amount >= 0.0 ==> vt >= old(DisplayTime(now))
      ensures relative && amount <= 0.0 ==> vt <= old(DisplayTime(now))
    {
      hide Elapsed, Prefix, Timed, FirstAfter;
      DisplayRange(now);
      NotBeforeStart();
      SyncClock(now);
      ghost var start := vt;
      Seek(if relative then vt + amount else amount, now);
      if start <= vt { Grows(start, vt); }
    }

    // ------------------------------------------------------------ overlays

    method EnterScroll(now: real)
      requires Valid() && !listMode && anchor <= now
      modifies this`vt, this`anchor, this`paused, this`scrollMode, this`scrollOffset, this`covered
      ensures Valid() && scrollBuf == old(scrollBuf) && anchor <= now
      ensures scrollMode && paused && idx == old(idx) && DisplayTime(now) == old(DisplayTime(now))
      ensures scrollOffset == if old(scrollMode) then old(scrollOffset) else 0
      ensures old(NotAhead()) ==> NotAhead()
    {
      hide Elapsed, Prefix, EndsAt, Playable, FirstAfter;
      if scrollMode {
        return;
      }
      SyncClock(now);
      paused := true;
      scrollMode := true;
      scrollOffset := 0;
      covered := true;
    }

    method ExitScroll(now: real)
      requires Valid() && scrollMode && anchor <= now
      modifies this`scrollMode, this`idx, this`renderBuf, this`screen, this`scrollBuf, this`covered
      ensures Valid() && fresh(scrollBuf) && anchor <= now
      ensures !scrollMode && paused && vt == old(vt) && idx == FirstAfter(events, vt)
      ensures old(NotAhead()) ==> NotAhead()
    {
      hide Elapsed, Prefix, EndsAt, FirstAfter, Playable;
      Grows(vt, lastT);
      scrollMode := false;
      RenderTo(vt);
    }

    /** How far up there is anything to see, with all but the bottom row of the terminal used. */
    static function TopLine(total: nat, height: int): (r: nat)
      ensures r <= total && (total > 0 && r > 0 ==> total - r == if height > 2 then height - 1 else 1)
      ensures r == 0 ==> total < 2 || total <= height - 1
    {
      var contentH := if height - 1 < 1 then 1 else height - 1;
      if total - contentH < 0 then 0 else total - contentH
    }

    method ScrollUp(height: int, now: real)
      requires Valid() && !listMode && anchor <= now
      modifies this`vt, this`anchor, this`paused, this`scrollMode, this`scrollOffset, this`covered
      ensures Valid() && scrollBuf == old(scrollBuf) && anchor <= now
      ensures scrollMode && idx == old(idx) && DisplayTime(now) == old(DisplayTime(now))
      ensures !old(scrollMode) ==> scrollOffset == 0
      ensures old(scrollMode) ==> scrollOffset == Min(old(scrollOffset) + 3, TopLine(|scrollBuf.lines|, height))
      ensures old(NotAhead()) ==> NotAhead()
    {
      hide Elapsed, Prefix, EndsAt, Playable, FirstAfter, SB.Retained, SB.Bounded;
      if !scrollMode {
        EnterScroll(now);
        return;
      }
      scrollOffset := Min(scrollOffset + SCROLL_STEP, TopLine(|scrollBuf.lines|, height));
    }

    method ScrollDown(now: real)
      requires Valid() && !listMode && anchor <= now
      modifies this`scrollMode, this`scrollOffset, this`idx, this`renderBuf, this`screen, this`scrollBuf, this`covered
      ensures Valid() && (scrollBuf == old(scrollBuf) || fresh(scrollBuf)) && anchor <= now
      ensures DisplayTime(now) == old(DisplayTime(now))
      ensures idx == old(idx) || idx == FirstAfter(events, DisplayTime(now))
      ensures old(scrollMode) && !scrollMode ==> idx == FirstAfter(events, vt)
      ensures scrollMode <==> old(scrollMode) && old(scrollOffset) > 3
      ensures scrollMode ==> scrollOffset == old(scrollOffset) - 3 && idx == old(idx)
      ensures old(NotAhead()) ==> NotAhead()
    {
      hide Elapsed, Prefix, EndsAt, Playable, FirstAfter, SB.Retained, SB.Bounded;
      if !scrollMode {
        return;
      }
      scrollOffset := if scrollOffset < SCROLL_STEP then 0 else scrollOffset - SCROLL_STEP;
      if scrollOffset == 0 {
        ExitScroll(now);
      }
    }

    /** A resize rebuilds the screen at the displayed time and leaves the clock alone. */
    method Resize(now: real)
      requires Valid() && anchor <= now
      modifies this`idx, this`renderBuf, this`screen, this`scrollBuf, this`covered
      ensures Valid() && (scrollBuf == old(scrollBuf) || fresh(scrollBuf)) && anchor <= now
      ensures vt == old(vt) && DisplayTime(now) == old(DisplayTime(now))
      ensures !scrollMode ==> idx == FirstAfter(events, DisplayTime(now))
      ensures scrollMode ==> idx == old(idx)
    {
      hide Elapsed, Prefix, EndsAt, FirstAfter, Playable;
      if scrollMode {
        return;
      }
      DisplayRange(now);
      Grows(DisplayTime(now), lastT);
      RenderTo(DisplayTime(now));
      covered := listMode;
    }

    method ToggleBar(now: real)
      requires Valid() && !covered && anchor <= now
      modifies this`vt, this`anchor, this`barHidden, this`idx, this`renderBuf, this`screen, this`scrollBuf, this`covered
      ensures Valid() && fresh(scrollBuf) && anchor <= now
      ensures vt == old(DisplayTime(now)) == DisplayTime(now) && idx == FirstAfter(events, vt)
      ensures barHidden == !old(barHidden)
      ensures old(NotAhead()) ==> NotAhead()
    {
      hide Elapsed, Prefix, EndsAt, FirstAfter, Playable;
      SyncClock(now);
      Grows(vt, lastT);
      barHidden := !barHidden;
      RenderTo(vt);
    }

    /** The chapter that t is in: the last of those leading ones that start at or before t, or the first. */
    predicate Selects(sel: nat, t: real) {
      && sel < |chapters|
      && (chapters[0] <= t ==> forall k :: 0 <= k <= sel ==> chapters[k] <= t)
      && (chapters[0] > t ==> sel == 0)
      && (sel + 1 < |chapters| && chapters[0] <= t ==> chapters[sel + 1] > t)
    }

    method OpenGotoList(now: real)
      requires Valid() && !covered && !inGoto && anchor <= now
      modifies this`vt, this`anchor, this`inGoto, this`gotoBuf, this`listMode, this`listSel, this`covered
      ensures Valid() && scrollBuf == old(scrollBuf) && anchor <= now
      ensures idx == old(idx) && vt == old(DisplayTime(now)) == DisplayTime(now)
      ensures if chapters == [] then inGoto && !listMode else listMode && Selects(listSel, vt)
      ensures old(NotAhead()) ==> NotAhead()
    {
      hide Elapsed, Prefix, EndsAt, Playable, FirstAfter;
      SyncClock(now);
      if |chapters| == 0 {
        inGoto, gotoBuf := true, "";
        return;
      }
      listMode := true;
      listSel := ChapterAt(chapters, vt);
      covered := true;
    }

    /** Leaving the menu always rebuilds the recording at the time the clock shows. */
    method ExitList(target: real, jump: bool, now: real)
      requires Valid() && listMode && anchor <= now
      modifies this`listMode, this`vt, this`anchor, this`idx, this`renderBuf, this`screen, this`scrollBuf, this`covered
      ensures Valid() && fresh(scrollBuf) && anchor <= now && !covered
      ensures vt == DisplayTime(now) == (if jump then ClampSeek(target, lastT) else old(vt))
      ensures idx == FirstAfter(events, vt)
      ensures old(NotAhead()) ==> NotAhead()
      ensures jump ==> vt == target || (target <= 0.0 && vt == 0.0) || (target >= lastT && vt == lastT)
    {
      hide Elapsed, Prefix, EndsAt, FirstAfter, Playable;
      listMode := false;
      if jump {
        vt := ClampSeek(target, lastT);
      }
      anchor := now;
      Grows(vt, lastT);
      RenderTo(vt);
      NoTimePasses(now, speed);
    }

    // ------------------------------------------------------------ dispatch

    /** The inputs that move the selection. */
    static const LIST_MOVES: set<Input> := {Key('k' as int), Key('j' as int), Arrow('A' as int), Arrow('B' as int)}

    predicate Moved(was: nat, sel: nat, down: bool)
      requires |chapters| > 0
    {
      sel == if down then Min(was + 1, |chapters| - 1) else if was > 0 then was - 1 else 0
    }

    method MoveSelection(down: bool)
      requires Valid() && listMode
      modifies this`listSel
      ensures Valid()
      ensures Moved(old(listSel), listSel, down)
    {
      hide Elapsed, Prefix, EndsAt, Playable, FirstAfter;
      if down && listSel < |chapters| - 1 {
        listSel := listSel + 1;
      } else if !down && listSel > 0 {
        listSel := listSel - 1;
      }
    }

    method ToTimeEntry(now: real)
      requires Valid() && listMode && anchor <= now
      modifies this`listMode, this`inGoto, this`gotoBuf, this`idx, this`renderBuf, this`screen, this`scrollBuf, this`covered
      ensures Valid() && fresh(scrollBuf) && anchor <= now
      ensures idx == FirstAfter(events, vt) && vt == DisplayTime(now) == old(vt)
      ensures !listMode && inGoto
      ensures old(NotAhead()) ==> NotAhead()
    {
      hide Elapsed, Prefix, EndsAt, FirstAfter, Playable;
      Grows(vt, lastT);
      listMode := false;
      inGoto, gotoBuf := true, "";
      RenderTo(vt);
    }

    /** Keys that leave the menu. */
    static const LIST_KEYS: set<Byte> := {0x0d, 0x0a, 0x03, 'q' as int, 't' as int}

    /** A press on the row of a chapter; the first is two rows down. */
    predicate Clicked(ev: Input, layout: Layout) {
      ev.Mouse? && ev.press && ev.my >= 2 && 0 <= layout.listTop + ev.my - 2 < |chapters|
    }

    method DispatchList(ev: Input, layout: Layout, now: real)
      requires Valid() && listMode && anchor <= now
      modifies this
      ensures Valid() && (scrollBuf == old(scrollBuf) || fresh(scrollBuf)) && anchor <= now
      ensures (idx == old(idx) && vt == old(vt) && listMode) || idx == FirstAfter(events, vt)
      ensures DisplayTime(now) == vt
      ensures ev.Key? && (ev.b == 0x0d || ev.b == 0x0a) ==> !listMode && vt == ClampSeek(chapters[old(listSel)], lastT)
      ensures ev.Key? && (ev.b == 'q' as int || ev.b == 0x03) ==> !listMode && vt == old(vt)
      ensures ev.Key? && ev.b == 't' as int ==> !listMode && inGoto && vt == old(vt)
      ensures ev == Key('k' as int) || ev == Arrow('A' as int) ==> Moved(old(listSel), listSel, false)
      ensures ev == Key('j' as int) || ev == Arrow('B' as int) ==> Moved(old(listSel), listSel, true)
      ensures (ev.Key? && ev.b !in LIST_KEYS) || ev.Wheel? || ev.Arrow? || (ev.Mouse? && !Clicked(ev, layout)) ==>
        listMode && vt == old(vt) && idx == old(idx) && (ev !in LIST_MOVES ==> listSel == old(listSel))
      ensures Clicked(ev, layout) ==> !listMode && vt == ClampSeek(chapters[layout.listTop + ev.my - 2], lastT)
      ensures old(NotAhead()) ==> NotAhead()
    {
      hide Elapsed, Prefix, Timed, FirstAfter;
      match ev {
        case Mouse(_, my, press) =>
          if press {
            var i := layout.listTop + (my - 2);
            if my >= 2 && i >= 0 && i < |chapters| {
              listSel := i;
              ExitList(chapters[listSel], true, now);
            }
          }
        case Arrow(b) =>
          if b == 'A' as int || b == 'B' as int { MoveSelection(b == 'B' as int); }
        case Key(b) =>
          if b == 'k' as int || b == 'j' as int {
            MoveSelection(b == 'j' as int);
          } else if b == 0x0d || b == 0x0a {
            ExitList(chapters[listSel], true, now);
          } else if b == 't' as int {
            ToTimeEntry(now);
          } else if b == 'q' as int || b == 0x03 {
            ExitList(0.0, false, now);
          }
        case Wheel(_) =>
      }
    }

    /** What a key does to the prompt: a digit or colon is added, up to eight, a rubout takes one off, any other key but Enter leaves. */
    twostate predicate Edited(b: Byte)
      reads this`inGoto, this`gotoBuf
    {
      if b == 0x7f || b == 0x08 then inGoto && gotoBuf == old(gotoBuf)[..if old(gotoBuf) == "" then 0 else |old(gotoBuf)| - 1]
      else if '0' as int <= b <= '9' as int || b == ':' as int then
        inGoto && gotoBuf == if |old(gotoBuf)| < 8 then old(gotoBuf) + [b as char] else old(gotoBuf)
      else !inGoto
    }

    /** At the time prompt keys are for the prompt; clicks and arrows do nothing there. */
    twostate predicate Prompted(ev: Input, now: real)
      reads this
    {
      && (ev.Mouse? || ev.Arrow? ==> inGoto && gotoBuf == old(gotoBuf) && vt == old(vt) && idx == old(idx))
      && (ev.Key? && ev.b != 0x0d && ev.b != 0x0a ==> Edited(ev.b) && vt == old(vt) && idx == old(idx))
      && (ev.Key? && (ev.b == 0x0d || ev.b == 0x0a) ==> !inGoto && var t := parseClock(old(gotoBuf));
          vt == if t.Some? then ClampSeek(t.value, lastT) else old(vt))
    }

    /** A key typed at the time prompt. */
    method GotoKey(b: Byte, now: real)
      requires Valid() && inGoto && !covered && anchor <= now
      modifies this, scrollBuf
      ensures Valid() && (scrollBuf == old(scrollBuf) || fresh(scrollBuf)) && anchor <= now
      ensures old(InSync(now)) ==> InSync(now)
      ensures b == 0x0d || b == 0x0a ==> !inGoto && var t := parseClock(old(gotoBuf));
        (t.Some? ==> vt == ClampSeek(t.value, lastT) && (old(InSync(now)) ==> idx == FirstAfter(events, vt)))
      ensures (b != 0x0d && b != 0x0a) || parseClock(old(gotoBuf)) == None ==> vt == old(vt) && idx == old(idx)
      ensures b != 0x0d && b != 0x0a ==> Edited(b)
      ensures old(NotAhead()) ==> NotAhead()
    {
      hide Elapsed, Prefix, EndsAt, FirstAfter, Playable, ClampSeek;
      if b != 0x0d && b != 0x0a {
        EditPrompt(b, now);
        return;
      }
      var t := parseClock(gotoBuf);
      if t.Some? {
        ghost var start := vt;
        Seek(t.value, now);
        if start <= vt { Grows(start, vt); }
      }
      inGoto, gotoBuf := false, "";
      anchor := now;
      NoTimePasses(now, speed);
    }

    /** Any key but Enter. */
    method EditPrompt(b: Byte, now: real)
      requires Valid() && inGoto && anchor <= now
      modifies this`inGoto, this`gotoBuf, this`anchor
      ensures Valid() && anchor <= now && Edited(b) && DisplayTime(now) == old(DisplayTime(now))
    {
      hide Elapsed, Prefix, Timed, FirstAfter;
      if b == 0x7f || b == 0x08 {
        if |gotoBuf| > 0 {
          gotoBuf := gotoBuf[..|gotoBuf| - 1];
        }
      } else if '0' as int <= b <= '9' as int || b == ':' as int {
        if |gotoBuf| < MAX_GOTO_LEN {
          gotoBuf := gotoBuf + [b as char];
        }
      } else {
        inGoto, gotoBuf := false, "";
        anchor := now;
        NoTimePasses(now, speed);
        if !Frozen() { WithinEnd(); }
      }
    }

    lemma WithinEnd()
      requires Timed()
      ensures vt <= lastT
    {
    }

    method ChangeSpeed(up: bool, now: real)
      requires Valid() && anchor <= now
      modifies this`vt, this`anchor, this`speed
      ensures Valid() && anchor <= now
      ensures vt == old(DisplayTime(now)) == DisplayTime(now)
      ensures speed == ClampSpeed(if up then old(speed) * 2.0 else old(speed) / 2.0)
      ensures old(NotAhead()) ==> NotAhead()
      ensures SpeedStep(old(speed), speed, up)
    {
      hide Elapsed, Prefix, EndsAt, Playable, FirstAfter;
      SpeedSteps(speed);
      SyncClock(now);
      speed := ClampSpeed(if up then speed * 2.0 else speed / 2.0);
      NoTimePasses(now, speed);
    }

    method TogglePause(now: real)
      requires Valid() && !listMode && !scrollMode && !inGoto && anchor <= now
      modifies this`vt, this`anchor, this`paused
      ensures Valid() && anchor <= now && paused == !old(paused)
      ensures vt == old(DisplayTime(now)) == DisplayTime(now)
      ensures old(NotAhead()) ==> NotAhead()
    {
      hide Elapsed, Prefix, EndsAt, Playable, FirstAfter;
      if paused {
        paused := false;
        anchor := now;
        NoTimePasses(now, speed);
      } else {
        SyncClock(now);
        paused := true;
      }
    }

    /** The key `0` seeks without reading the clock: the one key that can put the player out of step. */
    method GoToStart(now: real)
      requires Valid() && !covered
      modifies this`idx, this`vt, this`anchor, this`renderBuf, this`screen, this`scrollBuf, this`covered, scrollBuf
      ensures Valid() && (scrollBuf == old(scrollBuf) || fresh(scrollBuf))
      ensures vt == 0.0 && anchor == now
      ensures InSync(now) <==> old(vt) > 0.0 || old(idx) <= FirstAfter(events, 0.0)
      ensures InSync(now) <==> idx == FirstAfter(events, 0.0)
      ensures old(NotAhead()) ==> NotAhead()
    {
      Seek(0.0, now);
    }

    /** The one way a key press can go wrong. */
    ghost predicate Hazard(ev: Input)
      reads this
    {
      && ev == Key('0' as int) && !covered && !inGoto
      && vt == 0.0 && idx > FirstAfter(events, 0.0)
    }

    /** What each playback key does to the clock, the screen and the settings. */
    twostate predicate KeyDone(b: Byte, now: real)
      reads this
    {
      && (b == 'h' as int ==> vt == if old(DisplayTime(now)) >= 5.0 then old(DisplayTime(now)) - 5.0 else 0.0)
      && (b == 'l' as int ==> vt == if old(DisplayTime(now)) + 5.0 <= lastT then old(DisplayTime(now)) + 5.0 else lastT)
      && (b == 'h' as int || b == 'l' as int ==> old(InSync(now)) ==> idx == FirstAfter(events, vt))
      && (b == '+' as int || b == '=' as int ==> SpeedStep(old(speed), speed, true))
      && (b == '-' as int || b == '_' as int ==> SpeedStep(old(speed), speed, false))
      && (b == ' ' as int ==> paused == !old(paused))
      && (b == 'b' as int ==> barHidden == !old(barHidden))
      && (b == '0' as int ==> vt == 0.0)
      && (b == 'g' as int ==> if chapters == [] then inGoto else listMode)
      && (b !in {'h' as int, 'l' as int, '0' as int} ==> DisplayTime(now) == old(DisplayTime(now)))
      && (b !in {'h' as int, 'l' as int, '0' as int, 'b' as int} ==> idx == old(idx))
      && (b != ' ' as int ==> paused == old(paused))
      && (b !in SPEED_KEYS ==> speed == old(speed))
      && (b != 'b' as int ==> barHidden == old(barHidden))
      && (b != 'g' as int ==> inGoto == old(inGoto) && listMode == old(listMode))
    }

    static const SPEED_KEYS: set<Byte> := {'+' as int, '=' as int, '-' as int, '_' as int}

    method HandleByte(b: Byte, now: real) returns (more: bool)
      requires Valid() && !covered && anchor <= now
      modifies this, scrollBuf
      ensures Valid() && (scrollBuf == old(scrollBuf) || fresh(scrollBuf)) && anchor <= now
      ensures old(InSync(now)) ==> (InSync(now) <==> !old(Hazard(Key(b))))
      ensures !more <==> !old(inGoto) && (b == 'q' as int || b == 0x03)
      ensures !old(inGoto) ==> KeyDone(b, now)
      ensures old(inGoto) ==> Prompted(Key(b), now)
      ensures old(NotAhead()) ==> NotAhead()
    {
      hide SpeedStep, ClampSpeed, Elapsed, Prefix, Timed, FirstAfter, Selects, ClampSeek, NotAhead;
      more := true;
      if inGoto {
        GotoKey(b, now);
      } else {
        more := PlayKey(b, now);
      }
    }

    /** A key while the recording plays or is paused. */
    method PlayKey(b: Byte, now: real) returns (more: bool)
      requires Valid() && !covered && !inGoto && anchor <= now
      modifies this, scrollBuf
      ensures Valid() && (scrollBuf == old(scrollBuf) || fresh(scrollBuf)) && anchor <= now
      ensures old(InSync(now)) ==> (InSync(now) <==> !old(Hazard(Key(b))))
      ensures !more <==> b == 'q' as int || b == 0x03
      ensures KeyDone(b, now)
      ensures old(NotAhead()) ==> NotAhead()
    {
      hide SpeedStep, ClampSpeed, Elapsed, Prefix, Timed, FirstAfter, Selects, ClampSeek, NotAhead;
      more := true;
      if b == 'q' as int || b == 0x03 {
        more := false;
      } else if b == ' ' as int {
        TogglePause(now);
      } else if b == 'h' as int || b == 'l' as int {
        DisplayRange(now);
        NotBeforeStart();
        JumpTo(true, if b == 'l' as int then SEEK_STEP else -SEEK_STEP, now);
      } else if b == '+' as int || b == '=' as int || b == '-' as int || b == '_' as int {
        ChangeSpeed(b == '+' as int || b == '=' as int, now);
      } else if b == '0' as int {
        assert vt >= 0.0 by { NotBeforeStart(); }
        GoToStart(now);
      } else if b == 'g' as int {
        OpenGotoList(now);
      } else if b == 'b' as int {
        ToggleBar(now);
      }
    }

    lemma BarEnds()
      requires Timed()
      ensures lastT >= 0.0
    {
    }

    lemma NotBeforeStart()
      requires Timed()
      ensures 0.0 <= vt
    {
    }

    /** The key an arrow stands for while playing. */
    function ArrowKey(b: Byte): Byte {
      if b == 'A' as int then '+' as int
      else if b == 'B' as int then '-' as int
      else if b == 'C' as int then 'l' as int
      else if b == 'D' as int then 'h' as int
      else 0
    }

    /** Up and down change the speed, right and left seek, and there are no others. */
    lemma Arrows(b: Byte)
      ensures ArrowKey('A' as int) == '+' as int && ArrowKey('B' as int) == '-' as int
      ensures ArrowKey('C' as int) == 'l' as int && ArrowKey('D' as int) == 'h' as int
      ensures b !in {'A' as int, 'B' as int, 'C' as int, 'D' as int} ==> ArrowKey(b) == 0
    {
    }

    predicate OnBar(ev: Input, layout: Layout)
      reads this
    {
      && ev.Mouse? && !inGoto && !barHidden && ev.press && ev.my == layout.barRow && layout.barW > 1
      && layout.barCol <= ev.mx <= layout.barCol + layout.barW - 1
    }

    /** A click on the bar goes to the part of the recording that it is at. */
    method ClickBar(mx: int, layout: Layout, now: real)
      requires Valid() && !covered && anchor <= now
      requires layout.barW > 1 && layout.barCol <= mx <= layout.barCol + layout.barW - 1
      modifies this`idx, this`vt, this`anchor, this`renderBuf, this`screen, this`scrollBuf, this`covered, scrollBuf
      ensures Valid() && (scrollBuf == old(scrollBuf) || fresh(scrollBuf)) && anchor <= now
      ensures old(InSync(now)) ==> idx == FirstAfter(events, vt) && InSync(now)
      ensures vt * (layout.barW - 1) as real == (mx - layout.barCol) as real * lastT
      ensures old(NotAhead()) ==> NotAhead()
    {
      hide Elapsed, Prefix, Timed, FirstAfter;
      var frac := (mx - layout.barCol) as real / (layout.barW - 1) as real;
      BarEnds();
      OnTheBar((mx - layout.barCol) as real, (layout.barW - 1) as real, frac, lastT);
      JumpTo(false, frac * lastT, now);
    }

    method PressArrow(b: Byte, now: real)
      requires Valid() && !covered && !inGoto && anchor <= now
      modifies this, scrollBuf
      ensures Valid() && (scrollBuf == old(scrollBuf) || fresh(scrollBuf)) && anchor <= now
      ensures old(InSync(now)) ==> InSync(now)
      ensures KeyDone(ArrowKey(b), now)
      ensures old(NotAhead()) ==> NotAhead()
    {
      hide SpeedStep, ClampSpeed, Elapsed, Prefix, Timed, FirstAfter;
      if b == 'C' as int || b == 'D' as int {
        DisplayRange(now);
        NotBeforeStart();
        JumpTo(true, if b == 'C' as int then SEEK_STEP else -SEEK_STEP, now);
      } else if b == 'A' as int || b == 'B' as int {
        ChangeSpeed(b == 'A' as int, now);
      }
    }

    method DispatchPlain(ev: Input, layout: Layout, now: real) returns (more: bool)
      requires Valid() && !covered && anchor <= now
      modifies this, scrollBuf
      ensures Valid() && (scrollBuf == old(scrollBuf) || fresh(scrollBuf)) && anchor <= now
      ensures old(InSync(now)) ==> (InSync(now) <==> !old(Hazard(ev)))
      ensures old(OnBar(ev, layout)) && old(InSync(now)) ==> idx == FirstAfter(events, vt)
      ensures ev.Arrow? && !old(inGoto) ==> KeyDone(ArrowKey(ev.b), now)
      ensures ev.Key? && !old(inGoto) ==> KeyDone(ev.b, now)
      ensures ev.Wheel? && ev.up ==> scrollMode
      ensures ev.Mouse? && !old(OnBar(ev, layout)) ==> idx == old(idx) && DisplayTime(now) == old(DisplayTime(now))
      ensures old(OnBar(ev, layout)) ==> vt * (layout.barW - 1) as real == (ev.mx - layout.barCol) as real * lastT
      ensures !more <==> !old(inGoto) && ev.Key? && (ev.b == 'q' as int || ev.b == 0x03)
      ensures old(inGoto) ==> Prompted(ev, now)
      ensures old(NotAhead()) ==> NotAhead()
    {
      hide SpeedStep, ClampSpeed, Elapsed, Prefix, Timed, FirstAfter;
      more := true;
      match ev {
        case Wheel(up) =>
          if up { ScrollUp(layout.height, now); } else { ScrollDown(now); }
        case Mouse(mx, _, _) =>
          if OnBar(ev, layout) { ClickBar(mx, layout, now); }
        case Arrow(b) =>
          if inGoto {
            return true;
          }
          PressArrow(b, now);
        case Key(b) =>
          more := HandleByte(b, now);
      }
    }

    /** Neither a menu, nor the scroll view, nor the time prompt is open. */
    predicate Playing()
      reads this
    {
      !listMode && !scrollMode && !inGoto
    }

    /** A press on the bar, where it is shown, goes to that part of the recording; a click elsewhere does nothing. */
    twostate predicate Pointed(ev: Input, layout: Layout, now: real)
      requires ev.Mouse?
      reads this
    {
      if ev.press && !old(barHidden) && ev.my == layout.barRow && layout.barW > 1 && 0 <= ev.mx - layout.barCol < layout.barW
      then vt * (layout.barW - 1) as real == (ev.mx - layout.barCol) as real * lastT
      else idx == old(idx) && DisplayTime(now) == old(DisplayTime(now))
    }

    /** Every input keeps a player in step, the one hazard apart, and keeps screen and scrollback right always. */
    method Dispatch(ev: Input, layout: Layout, now: real) returns (more: bool)
      requires Valid() && anchor <= now
      modifies this, scrollBuf
      ensures Valid() && (scrollBuf == old(scrollBuf) || fresh(scrollBuf)) && anchor <= now
      ensures old(InSync(now)) ==> (InSync(now) <==> !old(Hazard(ev)))
      ensures old(Playing()) && ev.Key? ==> KeyDone(ev.b, now)
      ensures old(Playing()) && ev.Arrow? ==> KeyDone(ArrowKey(ev.b), now)
      ensures old(Playing()) && ev.Wheel? && ev.up ==> scrollMode
      ensures old(Playing()) && ev.Mouse? ==> Pointed(ev, layout, now)
      ensures old(scrollMode) && !ev.Wheel? ==> !scrollMode && paused && vt == old(vt) && idx == FirstAfter(events, vt)
      ensures !more <==> old(Playing()) && ev.Key? && (ev.b == 'q' as int || ev.b == 0x03)
      ensures old(inGoto && !scrollMode) ==> Prompted(ev, now)
      ensures old(NotAhead()) ==> NotAhead()
    {
      hide SpeedStep, ClampSpeed, Elapsed, Prefix, Timed, FirstAfter;
      more := true;
      if listMode {
        DispatchList(ev, layout, now);
      } else if scrollMode {
        if ev.Wheel? {
          if ev.up { ScrollUp(layout.height, now); } else { ScrollDown(now); }
        } else {
          ExitScroll(now);
        }
      } else {
        more := DispatchPlain(ev, layout, now);
      }
    }

    // ------------------------------------------------------------ main loop

    /** Holding on the last frame puts a player back in step, whatever happened before. */
    method AutoPause(now: real)
      requires Valid() && anchor <= now
      modifies this`paused, this`vt
      ensures Valid()
      ensures Frozen() || idx <= lastOut
      ensures old(InSync(now)) ==> InSync(now)
      ensures !old(Frozen()) && old(idx) > lastOut ==> vt == lastT && paused && InSync(now)
      ensures old(Frozen()) || old(idx) <= lastOut ==> vt == old(vt) && paused == old(paused)
      ensures old(NotAhead()) ==> NotAhead()
    {
      hide Elapsed, Prefix, EndsAt, Playable, FirstAfter;
      if !Frozen() && idx > lastOut {
        DisplayRange(now);
        Grows(vt, lastT);
        paused := true;
        vt := lastT;
      }
    }

    /** The timer plays one event, not before its time, and leaves the player in step. */
    method Fire(now: real)
      requires Valid() && !Frozen() && idx <= lastOut && anchor <= now
      modifies this`idx, this`vt, this`anchor, this`renderBuf, this`screen, scrollBuf
      ensures Valid() && anchor == now && idx == old(idx) + 1 && InSync(now)
      ensures vt == events[idx - 1].time == DisplayTime(now)
      ensures old(NotAhead()) ==> NotAhead()
    {
      hide Elapsed, Prefix, EndsAt, FirstAfter, Playable;
      Upcoming();
      vt := events[idx].time;
      anchor := now;
      EmitNext();
      NoTimePasses(now, speed);
    }

    lemma Upcoming()
      requires Timed() && idx <= lastOut
      ensures idx < |events| && 0.0 <= events[idx].time <= lastT
      ensures idx < FirstAfter(events, lastT) && idx < FirstAfter(events, events[idx].time)
    {
      BeforeEnd(events, lastOut, lastT, idx);
      FirstAfterPast(events, idx, lastT);
      FirstAfterPast(events, idx, events[idx].time);
    }

    /** Nor does it come late: until it is due, the clock shows less than its time. */
    lemma NotLate(now: real)
      requires Valid() && anchor <= now && !Frozen() && idx <= lastOut && !Due(now)
      ensures DisplayTime(now) < events[idx].time
    {
      BeforeEnd(events, lastOut, lastT, idx);
      hide Prefix, EndsAt, Playable, FirstAfter, Elapsed;
      WaitedTooLittle(anchor, now, events[idx].time - vt, speed);
    }

    lemma OnTime(now: real)
      requires Valid() && anchor <= now && Due(now) && (events[idx].time - vt) / speed <= MAX_WAIT_SECONDS
      ensures events[idx].time <= DisplayTime(now)
    {
      BeforeEnd(events, lastOut, lastT, idx);
      WaitedLongEnough(anchor, now, events[idx].time - vt, speed);
    }

    /** The turn does not begin with the pause at the end. */
    predicate Steady()
      reads this
    {
      Frozen() || idx <= lastOut
    }

    /** The timer set for the next event has run out. */
    predicate Due(now: real)
      reads this
    {
      !Frozen() && idx <= lastOut && idx < |events| && speed > 0.0
      && now >= anchor + ClampWait((events[idx].time - vt) / speed)
    }

    /** One turn of the loop. The event to wait for exists whenever the player is not frozen. */
    method Turn(what: Happening, layout: Layout, now: real) returns (more: bool)
      requires Valid() && anchor <= now
      modifies this, scrollBuf
      ensures Valid() && (scrollBuf == old(scrollBuf) || fresh(scrollBuf)) && anchor <= now
      ensures old(InSync(now)) && !(what.Typed? && old(Hazard(what.input))) ==> InSync(now)
      ensures what.Alarm? && idx != old(idx) ==> InSync(now)
      ensures what.Closed? || what.Terminated? ==> !more
      ensures what.Alarm? || what.Ticked? || what.Resized? ==> more
      ensures what.Typed? ==> (!more <==> old(Playing()) && what.input.Key? && (what.input.b == 'q' as int || what.input.b == 0x03))
      ensures what.Alarm? && old(Due(now)) ==> idx == old(idx) + 1 && vt == events[old(idx)].time
      ensures what.Alarm? && !old(Due(now)) ==> idx == old(idx)
      ensures what.Ticked? ==> idx == old(idx)
      ensures what.Resized? && !old(scrollMode) ==> idx == FirstAfter(events, DisplayTime(now))
      ensures what.Typed? && old(Steady()) && old(Playing()) && what.input.Key? ==> KeyDone(what.input.b, now)
      ensures what.Typed? && old(Steady()) && old(Playing()) && what.input.Arrow? ==> KeyDone(ArrowKey(what.input.b), now)
      ensures old(NotAhead()) && !what.Resized? ==> NotAhead()
    {
      hide SpeedStep, ClampSpeed, Elapsed, Prefix, Timed, FirstAfter, NotAhead, ArrowKey, Pointed, Modes, ClampWait;
      AutoPause(now);
      more := Happen(what, layout, now);
    }

    /** The rest of the turn: what has happened is seen to. */
    method Happen(what: Happening, layout: Layout, now: real) returns (more: bool)
      requires Valid() && anchor <= now && Steady()
      modifies this, scrollBuf
      ensures Valid() && (scrollBuf == old(scrollBuf) || fresh(scrollBuf)) && anchor <= now
      ensures old(InSync(now)) && !(what.Typed? && old(Hazard(what.input))) ==> InSync(now)
      ensures what.Closed? || what.Terminated? ==> !more && idx == old(idx)
      ensures what.Alarm? || what.Ticked? || what.Resized? ==> more
      ensures what.Typed? ==> (!more <==> old(Playing()) && what.input.Key? && (what.input.b == 'q' as int || what.input.b == 0x03))
      ensures what.Alarm? && old(Due(now)) ==> idx == old(idx) + 1 && vt == events[old(idx)].time && InSync(now)
      ensures what.Alarm? && !old(Due(now)) ==> idx == old(idx)
      ensures what.Ticked? ==> idx == old(idx)
      ensures what.Resized? && !old(scrollMode) ==> idx == FirstAfter(events, DisplayTime(now))
      ensures what.Typed? && old(Playing()) && what.input.Key? ==> KeyDone(what.input.b, now)
      ensures what.Typed? && old(Playing()) && what.input.Arrow? ==> KeyDone(ArrowKey(what.input.b), now)
      ensures old(NotAhead()) && !what.Resized? ==> NotAhead()
    {
      hide SpeedStep, ClampSpeed, Elapsed, Prefix, Timed, FirstAfter, NotAhead, ArrowKey, Pointed, Modes, ClampWait;
      if what.Closed? || what.Terminated? {
        return false;
      }
      more := true;
      if what.Typed? {
        more := Dispatch(what.input, layout, now);
      } else if what.Resized? {
        Resize(now);
      } else if what.Alarm? && !Frozen() {
        Wake(now);
      }
    }

    /** The timer: the event to play is there, and is played once its wait is over. */
    method Wake(now: real)
      requires Valid() && !Frozen() && idx <= lastOut && anchor <= now
      modifies this`idx, this`vt, this`anchor, this`renderBuf, this`screen, scrollBuf
      ensures Valid() && anchor <= now
      ensures old(Due(now)) ==> idx == old(idx) + 1 && vt == events[old(idx)].time && InSync(now)
      ensures !old(Due(now)) ==> idx == old(idx) && DisplayTime(now) == old(DisplayTime(now))
      ensures old(NotAhead()) ==> NotAhead()
    {
      hide Elapsed, Prefix, Timed, FirstAfter;
      InBounds();
      var fireAt := anchor + ClampWait((events[idx].time - vt) / speed);
      if now >= fireAt {
        Fire(now);
      }
    }

    lemma InBounds()
      requires Timed() && idx <= lastOut
      ensures idx < |events| && speed > 0.0
    {
    }

    /**
     * The whole run: from a player in step, it is in step whenever it stops, unless some turn began at the hazard: the
     * key `0`, at time 0 with more on the screen than belongs there. Only a resize can have put it there.
     */
    method Play(turns: seq<(real, Happening, Layout)>, start: real) returns (end: real, ghost hazard: bool)
      requires Valid() && anchor <= start
      requires forall i :: 0 <= i < |turns| ==> start <= turns[i].0
      requires forall i, j :: 0 <= i < j < |turns| ==> turns[i].0 <= turns[j].0
      modifies this, scrollBuf
      ensures Valid() && anchor <= end
      ensures end == start || exists i :: 0 <= i < |turns| && end == turns[i].0
      ensures old(InSync(start)) && !hazard ==> InSync(end)
      ensures hazard ==> exists j :: 0 <= j < |turns| && turns[j].1 == Typed(Key('0' as int))
      ensures old(NotAhead()) && hazard ==> ResizedThenZero(turns)
      ensures old(NotAhead()) && (forall i :: 0 <= i < |turns| ==> !turns[i].1.Resized?) ==> NotAhead()
    {
      hide Elapsed, Prefix, Timed, FirstAfter;
      end, hazard := start, false;
      for n := 0 to |turns|
        invariant Valid() && anchor <= end && (scrollBuf == old(scrollBuf) || fresh(scrollBuf))
        invariant forall i :: n <= i < |turns| ==> end <= turns[i].0
        invariant end == if n == 0 then start else turns[n - 1].0
        invariant old(InSync(start)) && !hazard ==> InSync(end)
        invariant hazard ==> exists j :: 0 <= j < n && turns[j].1 == Typed(Key('0' as int))
        invariant old(NotAhead()) && hazard ==> ResizedThenZero(turns)
        invariant old(NotAhead()) ==> NotAhead() || exists i :: 0 <= i < n && turns[i].1.Resized?
      {
        var (now, what, layout) := turns[n];
        if InSync(end) { StaysInSync(end, now); }
        end := now;
        hazard := hazard || (what.Typed? && Hazard(what.input));
        var more := Turn(what, layout, now);
        if !more {
          return;
        }
      }
    }
  }

  /** Some turn is a resize and a later one the key `0`. */
  predicate ResizedThenZero(turns: seq<(real, Happening, Layout)>) {
    exists i, j :: 0 <= i < j < |turns| && turns[i].1.Resized? && turns[j].1 == Typed(Key('0' as int))
  }

  datatype Happening = Alarm | Ticked | Typed(input: Input) | Closed | Terminated | Resized

  function TwoEvents(): seq<Event> {
    [Event(2.0, true, [65]), Event(10.0, true, [66])]
  }

  lemma TwoEventsTimes()
    ensures Playable(TwoEvents())
    ensures FirstAfter(TwoEvents(), 0.0) == 0 && FirstAfter(TwoEvents(), 1.0) == 0 && FirstAfter(TwoEvents(), 2.5) == 1
    ensures Elapsed(0.0, 2.5, 1.0) == 2.5 && Elapsed(3.0, 3.5, 1.0) == 0.5
  {
    assert TwoEvents()[1..] == [Event(10.0, true, [66])];
  }

  lemma TwoEventsEnd(lastOut: int, lastT: real)
    requires EndsAt(TwoEvents(), lastOut, lastT)
    ensures lastT == 10.0
  {
    assert TwoEvents()[1].isOut;
  }

  /**
   * Events at 2 and 10 seconds: a resize at 2.5, handled before the timer that has been due since 2, shows the first;
   * `0` puts the clock back without taking the event off the screen, and a click on 1 second, clock read and all,
   * leaves the screen a second ahead of it.
   */
  method ZeroKeyThenSeek() returns (p: Player)
    ensures p.Valid() && p.vt == 1.0 && p.idx > FirstAfter(p.events, p.vt)
  {
    hide Player.Prefix, FirstAfter, Playable, EndsAt, Elapsed, TwoEvents;
    var events := TwoEvents();
    TwoEventsTimes();
    p := new Player(events, 1.0, [], s => None, 0.0);
    TwoEventsEnd(p.lastOut, p.lastT);
    p.Resize(2.5);
    p.GoToStart(3.0);
    p.JumpTo(false, 1.0, 3.5);
  }
}
