/** Event times of a recording: what the player does to them before it starts. */
module Timeline {
  import opened Common

  /** A timestamp as it can appear in a cast file: any float, including the ones that are not numbers. */
  datatype Stamp = NaN | PosInf | NegInf | Fin(value: real)

  datatype Raw = Raw(stamp: Stamp, isOut: bool, data: Bytes)

  datatype Event = Event(time: real, isOut: bool, data: Bytes)

  const MAX_WAIT_SECONDS: real := 3600.0

  // ---------------------------------------------------------------- sanitize

  /** The time event i is given, from the stamps up to it. */
  function CleanTime(raws: seq<Raw>, i: nat): real
    requires i < |raws|
  {
    var last := if i == 0 then 0.0 else CleanTime(raws, i - 1);
    var t := match raws[i].stamp
      case NaN => last
      case PosInf => last + MAX_WAIT_SECONDS
      case NegInf => 0.0
      case Fin(v) => if v < 0.0 then 0.0 else v;
    if t < last then last else t
  }

  function Clean(raws: seq<Raw>): (r: seq<Event>)
    ensures |r| == |raws|
  {
    seq(|raws|, i requires 0 <= i < |raws| => Event(CleanTime(raws, i), raws[i].isOut, raws[i].data))
  }

  predicate Sorted(events: seq<Event>) {
    forall i, j :: 0 <= i < j < |events| ==> events[i].time <= events[j].time
  }

  /** What the player needs of its events: finite times that never go back and never lie before the start. */
  predicate Playable(events: seq<Event>) {
    Sorted(events) && forall i :: 0 <= i < |events| ==> 0.0 <= events[i].time
  }

  lemma {:induction false} CleanTimeOrder(raws: seq<Raw>, i: nat, j: nat)
    requires i <= j < |raws|
    ensures 0.0 <= CleanTime(raws, i) <= CleanTime(raws, j)
    decreases j
  {
    if i < j {
      CleanTimeOrder(raws, i, j - 1);
    } else if i > 0 {
      CleanTimeOrder(raws, i - 1, i - 1);
    }
  }

  /** Whatever the file says, the cleaned events are playable. */
  lemma CleanIsPlayable(raws: seq<Raw>)
    ensures Playable(Clean(raws))
  {
    forall i, j | 0 <= i <= j < |raws|
      ensures 0.0 <= CleanTime(raws, i) <= CleanTime(raws, j)
    {
      CleanTimeOrder(raws, i, j);
    }
  }

  function Stamped(events: seq<Event>): (r: seq<Raw>)
    ensures |r| == |events|
  {
    seq(|events|, i requires 0 <= i < |events| => Raw(Fin(events[i].time), events[i].isOut, events[i].data))
  }

  lemma {:induction false} CleanTimeOfPlayable(events: seq<Event>, i: nat)
    requires Playable(events) && i < |events|
    ensures CleanTime(Stamped(events), i) == events[i].time
  {
    if i > 0 { CleanTimeOfPlayable(events, i - 1); }
  }

  /** A timeline that was playable already is left exactly as it was. */
  lemma CleanKeepsPlayable(events: seq<Event>)
    requires Playable(events)
    ensures Clean(Stamped(events)) == events
  {
    forall i | 0 <= i < |events|
      ensures Clean(Stamped(events))[i] == events[i]
    {
      CleanTimeOfPlayable(events, i);
    }
  }

  /** With finite stamps a cleaned time is the running maximum: above every stamp so far, and one of them or 0. */
  lemma {:induction false} CleanIsRunningMax(raws: seq<Raw>, i: nat)
    requires i < |raws| && forall k :: 0 <= k <= i ==> raws[k].stamp.Fin?
    ensures forall k :: 0 <= k <= i ==> raws[k].stamp.value <= CleanTime(raws, i)
    ensures CleanTime(raws, i) == 0.0 || exists k :: 0 <= k <= i && raws[k].stamp.value == CleanTime(raws, i)
  {
    if i > 0 {
      CleanIsRunningMax(raws, i - 1);
      CleanTimeOrder(raws, i - 1, i);
    }
  }

  /** A stamp that is not a number repeats the time before it, as minus infinity does; infinity is an hour later. */
  lemma SpecialStamps(raws: seq<Raw>, i: nat)
    requires i < |raws|
    ensures var last := if i == 0 then 0.0 else CleanTime(raws, i - 1);
            && (raws[i].stamp.NaN? || raws[i].stamp.NegInf? ==> CleanTime(raws, i) == last)
            && (raws[i].stamp.PosInf? ==> CleanTime(raws, i) == last + 3600.0)
            && (raws[i].stamp.Fin? && raws[i].stamp.value >= last ==> CleanTime(raws, i) == raws[i].stamp.value)
  {
    CleanTimeOrder(raws, i, i);
    if i > 0 { CleanTimeOrder(raws, i - 1, i); }
  }

  /** In place, from left to right, carrying the last time given. */
  method SanitizeEvents(a: array<Raw>)
    modifies a
    ensures a[..] == Stamped(Clean(old(a[..])))
  {
    ghost var raws := a[..];
    var last := 0.0;
    for i := 0 to a.Length
      invariant last == if i == 0 then 0.0 else CleanTime(raws, i - 1)
      invariant forall k :: i <= k < a.Length ==> a[k] == raws[k]
      invariant forall k :: 0 <= k < i ==> a[k] == raws[k].(stamp := Fin(CleanTime(raws, k)))
    {
      var t := 0.0;
      match a[i].stamp {
        case NaN => t := last;
        case PosInf => t := last + MAX_WAIT_SECONDS;
        case NegInf => t := 0.0;
        case Fin(v) => t := if v < 0.0 then 0.0 else v;
      }
      if t < last { t := last; }
      a[i] := a[i].(stamp := Fin(t));
      last := t;
    }
  }

  // --------------------------------------------------------------- idle gaps

  function GapBefore(events: seq<Event>, i: nat): real
    requires i < |events|
  {
    events[i].time - if i == 0 then 0.0 else events[i - 1].time
  }

  /** `out` is `events` with every gap, and nothing but the gaps, cut down to maxIdle. */
  predicate GapsClamped(events: seq<Event>, out: seq<Event>, maxIdle: real) {
    && |out| == |events|
    && forall i :: 0 <= i < |events| ==>
      && out[i].isOut == events[i].isOut && out[i].data == events[i].data
      && var gap := GapBefore(events, i);
         GapBefore(out, i) == if gap > maxIdle then maxIdle else gap
  }

  /** A copy with long gaps shortened; the input itself when there is nothing to shorten. */
  method ClampIdleGaps(events: array<Event>, maxIdle: real) returns (out: array<Event>)
    ensures events[..] == old(events[..])
    ensures maxIdle <= 0.0 ==> out == events
    ensures maxIdle > 0.0 ==> GapsClamped(events[..], out[..], maxIdle)
  {
    if maxIdle <= 0.0 || events.Length == 0 {
      return events;
    }
    out := new Event[events.Length](i requires 0 <= i < events.Length reads events => events[i]);
    var offset, last := 0.0, 0.0;
    for i := 0 to out.Length
      invariant events[..] == old(events[..])
      invariant last == if i == 0 then 0.0 else events[i - 1].time
      invariant i > 0 ==> out[i - 1].time == last - offset
      invariant i == 0 ==> offset == 0.0
      invariant out[i..] == events[i..]
      invariant GapsClamped(events[..i], out[..i], maxIdle)
    {
      hide GapsClamped;
      var gap := out[i].time - last;
      last := out[i].time;
      if gap > maxIdle {
        offset := offset + (gap - maxIdle);
      }
      ghost var done := out[..i];
      out[i] := out[i].(time := out[i].time - offset);
      assert out[..i + 1] == done + [out[i]] && events[..i + 1] == events[..i] + [events[i]];
      ClampedNext(events[..i], done, events[i], out[i], maxIdle);
    }
    assert out[..] == out[..out.Length] && events[..] == events[..out.Length];
  }

  lemma ClampedNext(events: seq<Event>, out: seq<Event>, e: Event, o: Event, maxIdle: real)
    requires GapsClamped(events, out, maxIdle) && o.isOut == e.isOut && o.data == e.data
    requires var gap := GapBefore(events + [e], |events|);
             GapBefore(out + [o], |events|) == if gap > maxIdle then maxIdle else gap
    ensures GapsClamped(events + [e], out + [o], maxIdle)
  {
    hide GapBefore;
    forall i | 0 <= i < |events|
      ensures GapBefore(events + [e], i) == GapBefore(events, i) && GapBefore(out + [o], i) == GapBefore(out, i)
      ensures (events + [e])[i] == events[i] && (out + [o])[i] == out[i]
    {
      GapSame(events, e, i);
      GapSame(out, o, i);
    }
  }

  lemma GapSame(events: seq<Event>, e: Event, i: nat)
    requires i < |events|
    ensures GapBefore(events + [e], i) == GapBefore(events, i)
  {
  }

  lemma ClampedGap(events: seq<Event>, out: seq<Event>, maxIdle: real, i: nat)
    requires GapsClamped(events, out, maxIdle) && i < |events|
    ensures GapBefore(out, i) <= GapBefore(events, i) && GapBefore(out, i) <= maxIdle
    ensures GapBefore(out, i) == GapBefore(events, i) || GapBefore(out, i) == maxIdle
    ensures out[i].isOut == events[i].isOut && out[i].data == events[i].data
    ensures GapBefore(events, i) <= maxIdle ==> GapBefore(out, i) == GapBefore(events, i)
  {
  }

  /** Each event comes as long after the one before as it did, or the limit after it when that is sooner. */
  lemma GapsMean(events: seq<Event>, out: seq<Event>, maxIdle: real, i: nat)
    requires GapsClamped(events, out, maxIdle) && i < |events|
    ensures |out| == |events|
    ensures i == 0 ==> out[0].time == if events[0].time <= maxIdle then events[0].time else maxIdle
    ensures i > 0 && events[i].time - events[i - 1].time <= maxIdle ==>
      out[i].time - out[i - 1].time == events[i].time - events[i - 1].time
    ensures i > 0 && events[i].time - events[i - 1].time > maxIdle ==> out[i].time - out[i - 1].time == maxIdle
  {
    ClampedGap(events, out, maxIdle, i);
    hide GapsClamped;
  }

  lemma {:induction false} ClampedBelow(events: seq<Event>, out: seq<Event>, maxIdle: real, i: nat)
    requires GapsClamped(events, out, maxIdle) && i < |events|
    ensures out[i].time <= events[i].time
  {
    ClampedGap(events, out, maxIdle, i);
    hide GapsClamped;
    if i > 0 { ClampedBelow(events, out, maxIdle, i - 1); }
  }

  lemma PlayableGap(events: seq<Event>, i: nat)
    requires Playable(events) && i < |events|
    ensures 0.0 <= GapBefore(events, i)
  {
  }

  lemma {:induction false} ClampedRises(events: seq<Event>, out: seq<Event>, maxIdle: real, i: nat)
    requires GapsClamped(events, out, maxIdle) && Playable(events) && maxIdle >= 0.0 && i < |events|
    ensures |out| == |events| && 0.0 <= out[i].time && (i > 0 ==> out[i - 1].time <= out[i].time)
  {
    ClampedGap(events, out, maxIdle, i);
    PlayableGap(events, i);
    hide GapsClamped, Playable;
    if i > 0 { ClampedRises(events, out, maxIdle, i - 1); }
  }

  lemma {:induction false} RisesIsSorted(out: seq<Event>, i: nat, j: nat)
    requires forall k :: 0 <= k < |out| ==> k > 0 ==> out[k - 1].time <= out[k].time
    requires i <= j < |out|
    ensures out[i].time <= out[j].time
  {
    if i < j { RisesIsSorted(out, i, j - 1); }
  }

  /** The shortened timeline is playable, and no event moves to a later time. */
  lemma ClampedIsPlayable(events: seq<Event>, out: seq<Event>, maxIdle: real)
    requires GapsClamped(events, out, maxIdle) && Playable(events) && maxIdle >= 0.0
    ensures Playable(out) && forall i :: 0 <= i < |events| ==> out[i].time <= events[i].time
  {
    forall i | 0 <= i < |events|
      ensures 0.0 <= out[i].time <= events[i].time && (i > 0 ==> out[i - 1].time <= out[i].time)
    {
      ClampedRises(events, out, maxIdle, i);
      ClampedBelow(events, out, maxIdle, i);
    }
    assert |out| == |events|;
    hide GapsClamped;
    forall i, j | 0 <= i < j < |out|
      ensures out[i].time <= out[j].time
    {
      RisesIsSorted(out, i, j);
    }
  }

  lemma {:induction false} SameGapsSameTimes(out: seq<Event>, again: seq<Event>, i: nat)
    requires |out| == |again| && i < |out|
    requires forall k :: 0 <= k < |out| ==> GapBefore(again, k) == GapBefore(out, k)
    ensures again[i].time == out[i].time
  {
    assert GapBefore(again, i) == GapBefore(out, i);
    if i > 0 { SameGapsSameTimes(out, again, i - 1); }
  }

  /** Shortening gaps a second time changes nothing. */
  lemma ClampedOnce(events: seq<Event>, out: seq<Event>, again: seq<Event>, maxIdle: real)
    requires GapsClamped(events, out, maxIdle) && GapsClamped(out, again, maxIdle)
    ensures again == out
  {
    forall i | 0 <= i < |out|
      ensures GapBefore(again, i) == GapBefore(out, i) && again[i].isOut == out[i].isOut && again[i].data == out[i].data
    {
      ClampedGap(events, out, maxIdle, i);
      ClampedGap(out, again, maxIdle, i);
    }
    assert |again| == |out|;
    hide GapsClamped;
    forall i | 0 <= i < |out|
      ensures again[i] == out[i]
    {
      SameGapsSameTimes(out, again, i);
    }
  }

  /** r is in the range, and nothing in the range is nearer to x. */
  ghost predicate Nearest(r: real, x: real, lo: real, hi: real) {
    lo <= r <= hi && forall y :: lo <= y <= hi ==> Dist(r, x) <= Dist(y, x)
  }

  function Dist(a: real, b: real): real {
    if a <= b then b - a else a - b
  }

  function ClampSeek(target: real, lastT: real): (r: real)
    ensures lastT >= 0.0 ==> Nearest(r, target, 0.0, lastT)
  {
    if !(target > 0.0) then 0.0 else if target > lastT then lastT else target
  }

  // ------------------------------------------------------------ finding times

  /** The index of the first event later than t. */
  function FirstAfter(events: seq<Event>, t: real): (r: nat)
    ensures r <= |events| && (r < |events| ==> events[r].time > t)
    ensures forall k :: 0 <= k < r ==> events[k].time <= t
  {
    if events == [] || events[0].time > t then 0 else 1 + FirstAfter(events[1..], t)
  }

  lemma SortedAt(events: seq<Event>, i: nat, j: nat)
    requires Sorted(events) && i <= j < |events|
    ensures events[i].time <= events[j].time
  {
  }

  /** Going on from i while events are not later than t ends at the first one that is, unless i was past it. */
  lemma FirstAfterFrom(events: seq<Event>, i: nat, j: nat, t: real)
    requires Sorted(events) && i <= j <= |events|
    requires forall k :: i <= k < j ==> events[k].time <= t
    requires j < |events| ==> events[j].time > t
    ensures j == if i < FirstAfter(events, t) then FirstAfter(events, t) else i
  {
    var f := FirstAfter(events, t);
    if j < f {
      assert false;
    } else if i < f < j {
      assert false;
    } else if f <= i < j {
      SortedAt(events, f, i);
      assert false;
    }
  }

  lemma FirstAfterGrows(events: seq<Event>, s: real, t: real)
    requires Sorted(events) && s <= t
    ensures FirstAfter(events, s) <= FirstAfter(events, t)
  {
  }

  lemma FirstAfterPast(events: seq<Event>, i: nat, t: real)
    requires Sorted(events) && i < |events| && events[i].time <= t
    ensures i < FirstAfter(events, t)
  {
  }

  /** The output in a stretch of events. */
  function Outs(events: seq<Event>): seq<Bytes> {
    if events == [] then []
    else
      var last := events[|events| - 1];
      Outs(events[..|events| - 1]) + if last.isOut then [last.data] else []
  }

  lemma OutsSnoc(events: seq<Event>, i: nat)
    requires i < |events|
    ensures Outs(events[..i + 1]) == Outs(events[..i]) + if events[i].isOut then [events[i].data] else []
  {
    assert events[..i + 1][..i] == events[..i];
  }

  /** Stretches put together have their outputs put together. */
  lemma {:induction false} OutsAppend(a: seq<Event>, b: seq<Event>)
    ensures Outs(a + b) == Outs(a) + Outs(b)
    ensures |b| == 1 ==> Outs(b) == if b[0].isOut then [b[0].data] else []
    decreases |b|
  {
    if b == [] {
      assert a + b == a;
    } else {
      assert (a + b)[..|a + b| - 1] == a + b[..|b| - 1];
      OutsAppend(a, b[..|b| - 1]);
    }
  }
}
