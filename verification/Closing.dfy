/** What a session owes its clients when it drops them, fails or ends, over every interleaving. */
module Closing {
  import opened Common
  import opened Crypto
  import opened LiveTail

  // -------------------------------------------------------------- single steps

  /** The steps that the recorder's goroutine takes. */
  predicate RecorderStep(step: Step) {
    !TailerStep(step) && !step.Register? && !step.Disconnect?
  }

  /** A closed connection or channel stays closed, and done stays done. */
  ghost predicate Sticks(s: State, z: State, t: Conn) {
    t in s.tailers ==>
      && t in z.tailers
      && (s.tailers[t].connClosed ==> z.tailers[t].connClosed)
      && (s.tailers[t].chClosed ==> z.tailers[t].chClosed)
      && (s.tailers[t].done ==> z.tailers[t].done)
  }

  lemma StepSticks(w: World, s: State, step: Step, t: Conn)
    requires Enabled(w, s, step)
    ensures Sticks(s, Apply(w, s, step), t)
    ensures !RecorderStep(step) ==> Apply(w, s, step).rec == s.rec
  {
    hide Apply, Enabled, Sticks;
    if !TailerStep(step) {
      OtherSticks(w, s, step, t);
    } else {
      TailerSticks(w, s, step, t);
    }
  }

  lemma OtherSticks(w: World, s: State, step: Step, t: Conn)
    requires Enabled(w, s, step) && !TailerStep(step)
    ensures Sticks(s, Apply(w, s, step), t)
    ensures !RecorderStep(step) ==> Apply(w, s, step).rec == s.rec
  {
    hide FrameAAD, StreamFile, OpenCast, FrameBytes, TailerNext, TailerEnabled, PendingFrame, LockFree, FrameSize;
  }

  lemma TailerSticks(w: World, s: State, step: Step, t: Conn)
    requires Enabled(w, s, step) && TailerStep(step)
    ensures Sticks(s, Apply(w, s, step), t) && Apply(w, s, step).rec == s.rec
  {
    hide FrameAAD, StreamFile, OpenCast, FrameBytes, PendingFrame, FrameSize;
  }

  // ------------------------------------------------------------ the end of a session

  /** close() still has t to see to, or has closed its connection and waits for it, or has done both. */
  ghost predicate SeenTo(s: State, t: Conn) {
    t in s.tailers && var x := s.tailers[t];
    match s.rec
    case Joining(todo) => t in todo || (x.connClosed && x.done)
    case Waiting(on, todo) => t in todo || (x.connClosed && (on == t || x.done))
    case Ended => x.connClosed && x.done
    case _ => false
  }

  lemma SeenToStep(w: World, s: State, step: Step, t: Conn)
    requires Enabled(w, s, step) && SeenTo(s, t)
    ensures SeenTo(Apply(w, s, step), t)
  {
    StepSticks(w, s, step, t);
    if RecorderStep(step) {
      hide FrameAAD, StreamFile, OpenCast, FrameBytes, TailerNext, TailerEnabled, PendingFrame, FrameSize, Sticks;
    } else {
      hide Apply, Enabled;
    }
  }

  /** From the Close on, close() owes every former subscriber a closed connection and its wait. */
  lemma {:induction false} CloseSeesTo(w: World, states: seq<State>, steps: seq<Step>, k: nat, i: nat, t: Conn)
    requires Sane(w) && IsRun(w, states, steps) && states[0] == Init(w) && k < i < |states|
    requires steps[k] == Close && t in states[k].subs
    ensures SeenTo(states[i], t)
    decreases i
  {
    hide Enabled, SeenTo, Apply;
    if i == k + 1 {
      RunInv(w, states, steps, k);
      assert Follows(w, states[k], steps[k], states[i]);
      CloseStarts(w, states[k], t);
    } else {
      CloseSeesTo(w, states, steps, k, i - 1, t);
      assert Follows(w, states[i - 1], steps[i - 1], states[i]);
      SeenToStep(w, states[i - 1], steps[i - 1], t);
    }
  }

  lemma CloseStarts(w: World, s: State, t: Conn)
    requires Inv(w, s) && Enabled(w, s, Close) && t in s.subs
    ensures SeenTo(Apply(w, s, Close), t)
  {
  }

  /** close() returns only when every client then registered has its connection closed and its goroutine has ended. */
  lemma EndedMeansClosed(w: World, states: seq<State>, steps: seq<Step>, k: nat, i: nat, t: Conn)
    requires Sane(w) && IsRun(w, states, steps) && states[0] == Init(w) && k < i < |states|
    requires steps[k] == Close && t in states[k].subs && states[i].rec.Ended?
    ensures t in states[i].tailers && states[i].tailers[t].connClosed && states[i].tailers[t].done
  {
    CloseSeesTo(w, states, steps, k, i, t);
  }

  // ---------------------------------------------------------------- dropped clients

  /** t's connection is closed, or is going to be before the write returns. */
  ghost predicate Condemned(s: State, t: Conn) {
    t in s.tailers &&
    match s.rec
    case FanningOut(_, _, dropped) => t in dropped || s.tailers[t].connClosed
    case ClosingDropped(dropped) => t in dropped || s.tailers[t].connClosed
    case _ => s.tailers[t].connClosed
  }

  lemma CondemnedStep(w: World, s: State, step: Step, t: Conn)
    requires Enabled(w, s, step) && Condemned(s, t)
    ensures Condemned(Apply(w, s, step), t)
  {
    StepSticks(w, s, step, t);
    if RecorderStep(step) {
      hide FrameAAD, StreamFile, OpenCast, FrameBytes, TailerNext, TailerEnabled, PendingFrame, FrameSize;
    } else {
      hide Apply, Enabled;
    }
  }

  lemma {:induction false} DropCondemns(w: World, states: seq<State>, steps: seq<Step>, k: nat, i: nat, t: Conn)
    requires IsRun(w, states, steps) && k < i < |states|
    requires steps[k] == FanOut(t) && t in states[k].tailers && |states[k].tailers[t].queue| >= SUB_CHAN_CAP
    ensures Condemned(states[i], t)
    decreases i
  {
    hide Enabled, Condemned, Apply;
    if i == k + 1 {
      assert Follows(w, states[k], steps[k], states[i]);
      DropStarts(w, states[k], t);
    } else {
      DropCondemns(w, states, steps, k, i - 1, t);
      assert Follows(w, states[i - 1], steps[i - 1], states[i]);
      CondemnedStep(w, states[i - 1], steps[i - 1], t);
    }
  }

  lemma DropStarts(w: World, s: State, t: Conn)
    requires Enabled(w, s, FanOut(t)) && |s.tailers[t].queue| >= SUB_CHAN_CAP
    ensures Condemned(Apply(w, s, FanOut(t)), t)
  {
  }

  /** A client that a write found too far behind has its connection closed by the time that write has returned. */
  lemma DroppedMeansClosed(w: World, states: seq<State>, steps: seq<Step>, k: nat, i: nat, t: Conn)
    requires IsRun(w, states, steps) && k < i < |states|
    requires steps[k] == FanOut(t) && t in states[k].tailers && |states[k].tailers[t].queue| >= SUB_CHAN_CAP
    requires !states[i].rec.FanningOut? && !states[i].rec.ClosingDropped?
    ensures t in states[i].tailers && states[i].tailers[t].connClosed
  {
    DropCondemns(w, states, steps, k, i, t);
  }

  // -------------------------------------------------- nobody is closed without a cause

  function DroppedOf(rec: Recorder): set<Conn> {
    match rec
    case FanningOut(_, _, dropped) => dropped
    case ClosingDropped(dropped) => dropped
    case _ => {}
  }

  function JoiningOf(rec: Recorder): set<Conn> {
    match rec
    case Joining(todo) => todo
    case Waiting(_, todo) => todo
    case _ => {}
  }

  /** Step n was a fan-out that found t's queue full. */
  ghost predicate Overran(states: seq<State>, steps: seq<Step>, n: nat, t: Conn)
    requires n < |steps| && |states| == |steps| + 1
  {
    steps[n] == FanOut(t) && t in states[n].tailers && |states[n].tailers[t].queue| >= SUB_CHAN_CAP
  }

  lemma DroppedOfStep(w: World, s: State, step: Step, t: Conn)
    requires Enabled(w, s, step) && t in DroppedOf(Apply(w, s, step).rec)
    ensures t in DroppedOf(s.rec) || (step == FanOut(t) && |s.tailers[t].queue| >= SUB_CHAN_CAP)
  {
    StepSticks(w, s, step, t);
    hide FrameAAD, StreamFile, OpenCast, FrameBytes, TailerNext, TailerEnabled, PendingFrame, Sticks;
  }

  lemma {:induction false} DroppedHasCause(w: World, states: seq<State>, steps: seq<Step>, i: nat, t: Conn)
    requires IsRun(w, states, steps) && states[0] == Init(w) && i < |states| && t in DroppedOf(states[i].rec)
    ensures exists n :: 0 <= n < i && Overran(states, steps, n, t)
    decreases i
  {
    hide Enabled, Apply;
    if i > 0 {
      assert Follows(w, states[i - 1], steps[i - 1], states[i]);
      DroppedOfStep(w, states[i - 1], steps[i - 1], t);
      if t in DroppedOf(states[i - 1].rec) {
        DroppedHasCause(w, states, steps, i - 1, t);
      } else {
        FannedIsThere(w, states[i - 1], t);
        assert Overran(states, steps, i - 1, t);
      }
    }
  }

  lemma FannedIsThere(w: World, s: State, t: Conn)
    requires Enabled(w, s, FanOut(t))
    ensures t in s.tailers
  {
  }

  lemma JoiningOfStep(w: World, s: State, step: Step, t: Conn)
    requires Enabled(w, s, step) && t in JoiningOf(Apply(w, s, step).rec)
    ensures t in JoiningOf(s.rec) || (step == Close && t in s.subs)
  {
    StepSticks(w, s, step, t);
    hide FrameAAD, StreamFile, OpenCast, FrameBytes, TailerNext, TailerEnabled, PendingFrame, Sticks;
  }

  lemma {:induction false} JoiningHasCause(w: World, states: seq<State>, steps: seq<Step>, i: nat, t: Conn)
    requires IsRun(w, states, steps) && states[0] == Init(w) && i < |states| && t in JoiningOf(states[i].rec)
    ensures exists n :: 0 <= n < i && steps[n] == Close && t in states[n].subs
    decreases i
  {
    hide Enabled, Apply;
    if i > 0 {
      assert Follows(w, states[i - 1], steps[i - 1], states[i]);
      JoiningOfStep(w, states[i - 1], steps[i - 1], t);
      if t in JoiningOf(states[i - 1].rec) {
        JoiningHasCause(w, states, steps, i - 1, t);
      }
    }
  }

  /** Before step n the replay of t failed, or never began. */
  ghost predicate ReplayFailed(steps: seq<Step>, n: nat, t: Conn)
    requires n <= |steps|
  {
    exists k :: 0 <= k < n && (steps[k] == OpenFails(t) || steps[k] == ReplayFails(t))
  }

  /** t has given up its replay, and is not done. */
  predicate GivingUp(s: State, t: Conn) {
    t in s.tailers && (s.tailers[t].phase.Dropping? || s.tailers[t].phase.DropDiscarding? || s.tailers[t].phase.DropEnding?)
  }

  lemma GivingUpOwn(w: World, s: State, step: Step, t: Conn)
    requires Enabled(w, s, step) && TailerStep(step) && GivingUp(Apply(w, s, step), t)
    ensures GivingUp(s, t) || step == OpenFails(t) || step == ReplayFails(t)
  {
    hide FrameAAD, StreamFile, OpenCast, FrameBytes, PendingFrame, FrameSize;
  }

  lemma GivingUpOther(w: World, s: State, step: Step, t: Conn)
    requires Enabled(w, s, step) && !TailerStep(step) && GivingUp(Apply(w, s, step), t)
    ensures GivingUp(s, t)
  {
    hide FrameAAD, StreamFile, OpenCast, FrameBytes, PendingFrame, FrameSize, TailerNext, TailerEnabled;
  }

  /** A tailer gives up only when its replay failed: a client that stops reading later is let go without a word. */
  lemma {:induction false} GivingUpHasCause(w: World, states: seq<State>, steps: seq<Step>, i: nat, t: Conn)
    requires IsRun(w, states, steps) && states[0] == Init(w) && i < |states| && GivingUp(states[i], t)
    ensures ReplayFailed(steps, i, t)
    decreases i
  {
    hide Enabled, Apply, GivingUp;
    if i == 0 {
      NobodyYet(w, t);
    } else {
      assert Follows(w, states[i - 1], steps[i - 1], states[i]);
      if TailerStep(steps[i - 1]) {
        GivingUpOwn(w, states[i - 1], steps[i - 1], t);
      } else {
        GivingUpOther(w, states[i - 1], steps[i - 1], t);
      }
      if GivingUp(states[i - 1], t) { GivingUpHasCause(w, states, steps, i - 1, t); }
    }
  }

  lemma NobodyYet(w: World, t: Conn)
    ensures !GivingUp(Init(w), t)
  {
  }

  /** Step n is one that closes the connection of t: its client, itself after a failed replay, a drop, or the end. */
  ghost predicate ClosesConn(states: seq<State>, steps: seq<Step>, n: nat, t: Conn)
    requires n < |steps| && |states| == |steps| + 1
  {
    || steps[n] == Disconnect(t)
    || (steps[n] == DropEnd(t) && ReplayFailed(steps, n, t))
    || (steps[n] == CloseDropped(t) && exists k :: 0 <= k < n && Overran(states, steps, k, t))
    || (steps[n] == JoinConn(t) && exists k :: 0 <= k < n && steps[k] == Close && t in states[k].subs)
  }

  lemma OpenStays(w: World, s: State, step: Step, t: Conn)
    requires Enabled(w, s, step) && t in s.tailers && !s.tailers[t].connClosed
    requires step !in {Disconnect(t), DropEnd(t), CloseDropped(t), JoinConn(t)}
    ensures t in Apply(w, s, step).tailers && !Apply(w, s, step).tailers[t].connClosed
  {
    hide Apply, Enabled;
    if TailerStep(step) {
      OpenStaysOwn(w, s, step, t);
    } else {
      OpenStaysOther(w, s, step, t);
    }
  }

  lemma OpenStaysOwn(w: World, s: State, step: Step, t: Conn)
    requires Enabled(w, s, step) && t in s.tailers && !s.tailers[t].connClosed && TailerStep(step) && step != DropEnd(t)
    ensures t in Apply(w, s, step).tailers && !Apply(w, s, step).tailers[t].connClosed
  {
    hide FrameAAD, StreamFile, OpenCast, FrameBytes, PendingFrame, FrameSize;
  }

  lemma OpenStaysOther(w: World, s: State, step: Step, t: Conn)
    requires Enabled(w, s, step) && t in s.tailers && !s.tailers[t].connClosed && !TailerStep(step)
    requires step !in {Disconnect(t), CloseDropped(t), JoinConn(t)}
    ensures t in Apply(w, s, step).tailers && !Apply(w, s, step).tailers[t].connClosed
  {
    hide FrameAAD, StreamFile, OpenCast, FrameBytes, PendingFrame, FrameSize, TailerNext, TailerEnabled;
  }

  lemma ComesOpen(w: World, s: State, step: Step, t: Conn)
    requires Enabled(w, s, step) && t !in s.tailers && t in Apply(w, s, step).tailers
    ensures !Apply(w, s, step).tailers[t].connClosed
  {
    hide FrameAAD, StreamFile, OpenCast, FrameBytes, PendingFrame, FrameSize, TailerNext, TailerEnabled;
  }

  /** The daemon closes a client's connection only after a failed replay, when it has dropped it, or at the end. */
  lemma {:induction false} ClosedHasCause(w: World, states: seq<State>, steps: seq<Step>, i: nat, t: Conn)
    requires IsRun(w, states, steps) && states[0] == Init(w) && i < |states|
    requires t in states[i].tailers && states[i].tailers[t].connClosed
    ensures exists n :: 0 <= n < i && ClosesConn(states, steps, n, t)
    decreases i
  {
    hide Enabled, Apply, ClosesConn;
    if i > 0 {
      var s, step := states[i - 1], steps[i - 1];
      assert Follows(w, s, step, states[i]);
      if t !in s.tailers {
        ComesOpen(w, s, step, t);
      } else if s.tailers[t].connClosed {
        ClosedHasCause(w, states, steps, i - 1, t);
      } else {
        if step !in {Disconnect(t), DropEnd(t), CloseDropped(t), JoinConn(t)} {
          OpenStays(w, s, step, t);
        }
        ThisStepCloses(w, states, steps, i - 1, t);
      }
    }
  }

  lemma ThisStepCloses(w: World, states: seq<State>, steps: seq<Step>, n: nat, t: Conn)
    requires IsRun(w, states, steps) && states[0] == Init(w) && n < |steps|
    requires steps[n] in {Disconnect(t), DropEnd(t), CloseDropped(t), JoinConn(t)}
    ensures ClosesConn(states, steps, n, t)
  {
    hide Apply;
    assert Follows(w, states[n], steps[n], states[n + 1]);
    if steps[n] == CloseDropped(t) {
      DroppedHasCause(w, states, steps, n, t);
    } else if steps[n] == JoinConn(t) {
      JoiningHasCause(w, states, steps, n, t);
    } else if steps[n] == DropEnd(t) {
      assert GivingUp(states[n], t);
      GivingUpHasCause(w, states, steps, n, t);
    }
  }

  // ---------------------------------------------------------------- failed replays

  /** Once its replay has failed, a tailer is on its way to closing its connection itself. */
  ghost predicate GivenUp(s: State, t: Conn) {
    t in s.tailers && var x := s.tailers[t];
    x.phase.Dropping? || x.phase.DropDiscarding? || x.phase.DropEnding? || (x.phase.Finished? && x.connClosed)
  }

  lemma GivenUpStep(w: World, s: State, step: Step, t: Conn)
    requires Enabled(w, s, step) && GivenUp(s, t)
    ensures GivenUp(Apply(w, s, step), t)
  {
    hide GivenUp, Apply, Enabled;
    if TailerStep(step) {
      GivenUpOwn(w, s, step, t);
    } else {
      GivenUpOther(w, s, step, t);
    }
  }

  lemma GivenUpOwn(w: World, s: State, step: Step, t: Conn)
    requires Enabled(w, s, step) && GivenUp(s, t) && TailerStep(step)
    ensures GivenUp(Apply(w, s, step), t)
  {
    hide FrameAAD, StreamFile, OpenCast, FrameBytes, PendingFrame, FrameSize;
  }

  lemma GivenUpOther(w: World, s: State, step: Step, t: Conn)
    requires Enabled(w, s, step) && GivenUp(s, t) && !TailerStep(step)
    ensures GivenUp(Apply(w, s, step), t)
  {
    hide FrameAAD, StreamFile, OpenCast, FrameBytes, PendingFrame, FrameSize, TailerNext, TailerEnabled;
  }

  lemma {:induction false} FailedReplayCloses(w: World, states: seq<State>, steps: seq<Step>, k: nat, i: nat, t: Conn)
    requires IsRun(w, states, steps) && k < i < |states| && (steps[k] == OpenFails(t) || steps[k] == ReplayFails(t))
    ensures GivenUp(states[i], t)
    ensures states[i].tailers[t].phase.Finished? ==> states[i].tailers[t].connClosed
    decreases i
  {
    hide Enabled, Apply;
    if i == k + 1 {
      assert Follows(w, states[k], steps[k], states[i]);
      ReplayFailing(w, states[k], steps[k], t);
    } else {
      FailedReplayCloses(w, states, steps, k, i - 1, t);
      assert Follows(w, states[i - 1], steps[i - 1], states[i]);
      GivenUpStep(w, states[i - 1], steps[i - 1], t);
    }
  }

  lemma ReplayFailing(w: World, s: State, step: Step, t: Conn)
    requires Enabled(w, s, step) && (step == OpenFails(t) || step == ReplayFails(t))
    ensures GivenUp(Apply(w, s, step), t)
  {
    hide OpenCast;
  }

  // ---------------------------------------------------------------- nothing left over

  /** t has no more to do but, at most, to close its connection, and there are chunks it has not taken off its queue. */
  predicate LeftOver(s: State, t: Conn) {
    t in s.tailers && (s.tailers[t].phase.Finished? || s.tailers[t].phase.DropEnding?) && s.tailers[t].queue != []
  }

  lemma LeftOverStep(w: World, s: State, step: Step, t: Conn)
    requires Inv(w, s) && Enabled(w, s, step) && LeftOver(Apply(w, s, step), t)
    ensures LeftOver(s, t) || (step == DropRemove(t) && t !in s.subs)
  {
    hide Apply, Enabled;
    if TailerStep(step) {
      LeftOverOwn(w, s, step, t);
    } else {
      if t in s.tailers && (s.tailers[t].phase.Finished? || s.tailers[t].phase.DropEnding?) { EndedIsNotServed(w, s, t); }
      LeftOverOther(w, s, step, t);
    }
  }

  lemma EndedIsNotServed(w: World, s: State, t: Conn)
    requires Inv(w, s) && t in s.tailers && (s.tailers[t].phase.Finished? || s.tailers[t].phase.DropEnding?)
    ensures s.rec.FanningOut? ==> t !in s.rec.todo
  {
    hide FileOk, Flow, Replays;
    assert TailerOk(s.stream, s.tailers[t], t in s.subs, Pending(s.rec, t));
  }

  lemma LeftOverOwn(w: World, s: State, step: Step, t: Conn)
    requires Enabled(w, s, step) && TailerStep(step) && LeftOver(Apply(w, s, step), t)
    ensures LeftOver(s, t) || (step == DropRemove(t) && t !in s.subs)
  {
    hide FrameAAD, StreamFile, OpenCast, FrameBytes, PendingFrame, FrameSize;
  }

  lemma LeftOverOther(w: World, s: State, step: Step, t: Conn)
    requires Enabled(w, s, step) && !TailerStep(step) && LeftOver(Apply(w, s, step), t)
    requires t in s.tailers && (s.tailers[t].phase.Finished? || s.tailers[t].phase.DropEnding?) && s.rec.FanningOut? ==> t !in s.rec.todo
    ensures LeftOver(s, t)
  {
    hide FrameAAD, StreamFile, OpenCast, FrameBytes, PendingFrame, FrameSize, TailerNext, TailerEnabled;
  }

  /** A tailer takes every chunk off its queue before it ends, unless it gave up its replay after it had been dropped. */
  lemma {:induction false} QueuesAreEmptied(w: World, states: seq<State>, steps: seq<Step>, i: nat, t: Conn)
    requires Sane(w) && IsRun(w, states, steps) && states[0] == Init(w) && i < |states| && LeftOver(states[i], t)
    ensures exists n :: 0 <= n < i && steps[n] == DropRemove(t) && t !in states[n].subs
    decreases i
  {
    hide Enabled, Apply, Inv;
    if i > 0 {
      RunInv(w, states, steps, i - 1);
      assert Follows(w, states[i - 1], steps[i - 1], states[i]);
      LeftOverStep(w, states[i - 1], steps[i - 1], t);
      if LeftOver(states[i - 1], t) {
        QueuesAreEmptied(w, states, steps, i - 1, t);
      }
    }
  }

  /** A tailer takes chunks off its queue one at a time and from the front; nobody else takes any. */
  lemma OneChunkAtATime(w: World, s: State, step: Step, t: Conn)
    requires Enabled(w, s, step) && TailerStep(step) && t in s.tailers
    ensures t in Apply(w, s, step).tailers
    ensures var x, y := s.tailers[t], Apply(w, s, step).tailers[t];
            y.queue == x.queue || (step.t == t && x.queue != [] && y.queue == x.queue[1..])
  {
    hide FrameAAD, StreamFile, OpenCast, FrameBytes, PendingFrame, FrameSize;
  }

  /** Every transfer brings the client something, and nothing but a transfer does. */
  lemma TransfersDeliver(w: World, s: State, step: Step, t: Conn)
    requires Enabled(w, s, step) && TailerStep(step) && t in s.tailers
    ensures t in Apply(w, s, step).tailers
    ensures |Apply(w, s, step).tailers[t].delivered| > |s.tailers[t].delivered| <==> step.t == t && (step.Replay? || step.Send?)
  {
    hide FrameAAD, StreamFile, OpenCast, FrameBytes, PendingFrame, FrameSize;
  }

  /** A client may go at any time; its connection is then closed, and what it has not got stays to be discarded. */
  lemma ClientsMayGo(w: World, s: State, t: Conn)
    requires t in s.tailers
    ensures Enabled(w, s, Disconnect(t))
    ensures Apply(w, s, Disconnect(t)) == s.(tailers := s.tailers[t := s.tailers[t].(connClosed := true)])
  {
  }

  // ------------------------------------------------------------------ failed writes

  /** The recorder writes no more. */
  predicate Over(rec: Recorder) {
    rec.Failed? || rec.Joining? || rec.Waiting? || rec.Ended?
  }

  lemma OverStep(w: World, s: State, step: Step)
    requires Enabled(w, s, step) && Over(s.rec)
    ensures var z := Apply(w, s, step); Over(z.rec) && z.file == s.file && z.stream == s.stream && z.diskBytes == s.diskBytes
  {
    hide FrameAAD, StreamFile, OpenCast, FrameBytes, PendingFrame, FrameSize, TailerNext, TailerEnabled;
  }

  /** Step k is a write that fails: the disk's doing, or a chunk too long for a frame. */
  predicate FailingWrite(step: Step) {
    step.PersistFails? || (step.BeginWrite? && step.frame.plain != [] && FrameSize(step.frame.plain) > MAX_FRAME)
  }

  /** After a write that failed, or the end of the session, not one byte more is written, counted or owed. */
  lemma {:induction false} FailureIsFinal(w: World, states: seq<State>, steps: seq<Step>, k: nat, i: nat)
    requires IsRun(w, states, steps) && k < i < |states| && (FailingWrite(steps[k]) || steps[k] == Close)
    ensures Over(states[i].rec)
    ensures states[i].file == states[k].file && states[i].stream == states[k].stream
    ensures states[i].diskBytes == states[k].diskBytes
    decreases i
  {
    hide Enabled, Apply;
    if i == k + 1 {
      assert Follows(w, states[k], steps[k], states[i]);
      Failing(w, states[k], steps[k]);
    } else {
      FailureIsFinal(w, states, steps, k, i - 1);
      assert Follows(w, states[i - 1], steps[i - 1], states[i]);
      OverStep(w, states[i - 1], steps[i - 1]);
    }
  }

  lemma Failing(w: World, s: State, step: Step)
    requires Enabled(w, s, step) && (FailingWrite(step) || step == Close)
    ensures var z := Apply(w, s, step); Over(z.rec) && z.file == s.file && z.stream == s.stream && z.diskBytes == s.diskBytes
  {
    hide FrameAAD, StreamFile, OpenCast, FrameBytes, PendingFrame;
  }

  // ------------------------------------------------------------- nobody is left out

  /** A write of f has come as far as the fan-out. */
  predicate StartsFanOut(s: State, z: State) {
    !s.rec.FanningOut? && z.rec.FanningOut?
  }

  lemma FanOutStarts(w: World, s: State, step: Step)
    requires Enabled(w, s, step) && StartsFanOut(s, Apply(w, s, step))
    ensures var z := Apply(w, s, step); z.rec.todo == s.subs && z.subs == s.subs && z.stream == s.stream + z.rec.chunk
  {
    hide FrameAAD, StreamFile, OpenCast, FrameBytes, PendingFrame, FrameSize, TailerNext, TailerEnabled;
    assert s.stream + [] == s.stream;
  }

  lemma TodoStays(w: World, s: State, step: Step, t: Conn)
    requires Enabled(w, s, step) && s.rec.FanningOut? && t in s.rec.todo && step != FanOut(t)
    ensures Apply(w, s, step).rec.FanningOut? && t in Apply(w, s, step).rec.todo
  {
    hide FrameAAD, StreamFile, OpenCast, FrameBytes, PendingFrame, FrameSize, TailerNext, TailerEnabled;
  }

  /** Every client registered when a chunk, empty or not, comes to be fanned out is offered it before the lock is let go. */
  lemma {:induction false} NobodySkipped(w: World, states: seq<State>, steps: seq<Step>, k: nat, i: nat, t: Conn)
    requires IsRun(w, states, steps) && k < i < |states| && StartsFanOut(states[k], states[k + 1]) && t in states[k].subs
    requires forall n :: k < n < i ==> steps[n] != FanOut(t)
    ensures states[i].rec.FanningOut? && t in states[i].rec.todo
    decreases i
  {
    hide Enabled, Apply;
    if i == k + 1 {
      assert Follows(w, states[k], steps[k], states[i]);
      FanOutStarts(w, states[k], steps[k]);
    } else {
      NobodySkipped(w, states, steps, k, i - 1, t);
      assert Follows(w, states[i - 1], steps[i - 1], states[i]);
      TodoStays(w, states[i - 1], steps[i - 1], t);
    }
  }

  // ------------------------------------------------------------------ nobody is stuck

  /** How far a write is from letting go of the lock: bytes still to put down, then clients still to serve. */
  function LockLeft(w: World, s: State): (nat, nat) {
    match s.rec
    case Persisting(_, k) => (1, if k <= |PendingFrame(w, s)| then |PendingFrame(w, s)| - k else 0)
    case FanningOut(_, todo, _) => (0, |todo|)
    case _ => (0, 0)
  }

  predicate Below(a: (nat, nat), b: (nat, nat)) {
    a.0 < b.0 || (a.0 == b.0 && a.1 < b.1)
  }

  /** While a write holds the lock the recorder can go on, and each step it takes brings it nearer letting go. */
  lemma LockIsLetGo(w: World, s: State)
    requires Inv(w, s) && !LockFree(s)
    ensures exists step :: RecorderStep(step) && Enabled(w, s, step)
    ensures forall step :: RecorderStep(step) && Enabled(w, s, step) ==>
      LockFree(Apply(w, s, step)) || Below(LockLeft(w, Apply(w, s, step)), LockLeft(w, s))
  {
    hide FrameAAD, StreamFile, OpenCast, FrameBytes, FrameSize, TailerNext, TailerEnabled, FileOk, TailerOk;
    if s.rec.Persisting? {
      assert RecorderStep(PersistFails) && Enabled(w, s, PersistFails);
    } else if s.rec.todo == {} {
      assert RecorderStep(Unlock) && Enabled(w, s, Unlock);
    } else {
      var t :| t in s.rec.todo;
      assert RecorderStep(FanOut(t)) && Enabled(w, s, FanOut(t));
    }
    forall step | RecorderStep(step) && Enabled(w, s, step)
      ensures LockFree(Apply(w, s, step)) || Below(LockLeft(w, Apply(w, s, step)), LockLeft(w, s))
    {
      LockStep(w, s, step);
    }
  }

  lemma LockStep(w: World, s: State, step: Step)
    requires Inv(w, s) && !LockFree(s) && RecorderStep(step) && Enabled(w, s, step)
    ensures LockFree(Apply(w, s, step)) || Below(LockLeft(w, Apply(w, s, step)), LockLeft(w, s))
  {
    hide FrameAAD, StreamFile, OpenCast, FrameBytes, FrameSize, TailerNext, TailerEnabled, FileOk, TailerOk;
    if step.FanOut? {
      assert s.rec.todo - {step.t} < s.rec.todo;
      SmallerSet(s.rec.todo, step.t);
    }
  }

  lemma SmallerSet(todo: set<Conn>, t: Conn)
    requires t in todo
    ensures |todo - {t}| < |todo|
  {
  }

  /** A write that goes well gets all the way: it may always put down what is left, and then commit. */
  lemma WriteCanFinish(w: World, s: State)
    requires Inv(w, s) && s.rec.Persisting?
    ensures var left := |PendingFrame(w, s)| - s.rec.written;
            if left > 0 then Enabled(w, s, Persist(left)) && Enabled(w, Apply(w, s, Persist(left)), Commit)
            else Enabled(w, s, Commit)
  {
    hide FrameAAD, StreamFile, OpenCast, FrameBytes, FrameSize, FileOk, TailersOk;
  }

  /**
   A session starts idle, and an idle one takes the next chunk, whatever it is: an empty one goes straight to the
   clients, one too long for a frame fails the session, any other is written from its first byte on.
   */
  lemma TakesAnything(w: World, s: State, f: Frame)
    requires s.rec.Idle? && |f.nonce| == NONCE_SIZE && Sealed(f.nonce, FrameAAD(Some(w.sid), |s.frames|), f.plain) in w.log
    ensures Init(w).rec.Idle? && Enabled(w, s, BeginWrite(f))
    ensures var z := Apply(w, s, BeginWrite(f));
            && (f.plain == [] ==> StartsFanOut(s, z) && z.rec.chunk == [])
            && (z.rec.Failed? <==> FailingWrite(BeginWrite(f)))
            && (f.plain != [] && !FailingWrite(BeginWrite(f)) ==> z == s.(rec := Persisting(f, 0)))
  {
    hide FrameAAD;
  }

  /** The session can be closed between any two writes, and after one that failed. */
  lemma CanBeClosed(w: World, s: State)
    requires s.rec.Idle? || s.rec.Failed?
    ensures Enabled(w, s, Close)
  {
  }

  /** The step sends on t's channel or closes it. */
  ghost predicate UsesChannel(s: State, step: Step, t: Conn) {
    step == FanOut(t) || (t in s.subs && (step == Close || step == Remove(t) || step == DropRemove(t)))
  }

  /** Such a use of a closed channel would be a panic, and so would a second end... */
  lemma MisuseShows(w: World, s: State, step: Step, t: Conn)
    requires Enabled(w, s, step) && t in s.subs && t in s.tailers && s.tailers[t].chClosed && UsesChannel(s, step, t)
    ensures Apply(w, s, step).panicked
  {
    hide FrameAAD, FrameBytes, StreamFile, OpenCast, PendingFrame, FrameSize, TailerNext, TailerEnabled;
  }

  lemma SecondEndShows(w: World, s: State, step: Step, t: Conn)
    requires Enabled(w, s, step) && step in {DrainEnd(t), DiscardEnd(t), DropEnd(t)} && s.tailers[t].done
    ensures Apply(w, s, step).panicked
  {
    hide FrameAAD, FrameBytes, StreamFile, OpenCast, PendingFrame, FrameSize;
  }

  /** A panic is never taken back. */
  lemma PanicStays(w: World, s: State, step: Step)
    requires Enabled(w, s, step) && s.panicked
    ensures Apply(w, s, step).panicked
  {
    hide FrameAAD, FrameBytes, StreamFile, OpenCast, PendingFrame, FrameSize, TailerNext, TailerEnabled;
  }

  /** ... but in no run is a channel used once it is closed, and does a tailer end twice. */
  lemma ChannelsAreUsedOpen(w: World, states: seq<State>, steps: seq<Step>, i: nat, t: Conn)
    requires Sane(w) && IsRun(w, states, steps) && i < |steps| && states[0] == Init(w)
    ensures UsesChannel(states[i], steps[i], t) ==> t in states[i].tailers && !states[i].tailers[t].chClosed
    ensures steps[i] in {DrainEnd(t), DiscardEnd(t), DropEnd(t)} ==> t in states[i].tailers && !states[i].tailers[t].done
  {
    RunInv(w, states, steps, i);
    assert Follows(w, states[i], steps[i], states[i + 1]);
    hide FrameAAD, FrameBytes, StreamFile, OpenCast, Logged, FileOk, Apply, Flow, Replays;
    var s := states[i];
    if t in s.tailers {
      assert TailerOk(s.stream, s.tailers[t], t in s.subs, Pending(s.rec, t));
    }
  }

  /** What close() and the end of a write have still to do, in steps. */
  function EndingLeft(rec: Recorder): nat {
    match rec
    case ClosingDropped(dropped) => 1 + |dropped|
    case Joining(todo) => 1 + 2 * |todo|
    case Waiting(_, todo) => 2 + 2 * |todo|
    case _ => 0
  }

  /** Closing those a write dropped, and close() itself but for its waits, go on, and each step brings them nearer the end. */
  lemma EndingGoesOn(w: World, s: State)
    requires Inv(w, s) && (s.rec.ClosingDropped? || s.rec.Joining?)
    ensures exists step :: RecorderStep(step) && Enabled(w, s, step)
  {
    hide FrameAAD, StreamFile, OpenCast, FrameBytes, FrameSize, TailerNext, TailerEnabled, FileOk, TailersOk;
    if s.rec.ClosingDropped? {
      if s.rec.dropped == {} {
        assert RecorderStep(DroppedAllClosed) && Enabled(w, s, DroppedAllClosed);
      } else {
        var t :| t in s.rec.dropped;
        assert RecorderStep(CloseDropped(t)) && Enabled(w, s, CloseDropped(t));
      }
    } else if s.rec.todo == {} {
      assert RecorderStep(JoinedAll) && Enabled(w, s, JoinedAll);
    } else {
      var t :| t in s.rec.todo;
      assert RecorderStep(JoinConn(t)) && Enabled(w, s, JoinConn(t));
    }
  }

  lemma EndingCounts(w: World, s: State, step: Step)
    requires (s.rec.ClosingDropped? || s.rec.Joining? || s.rec.Waiting?) && RecorderStep(step) && Enabled(w, s, step)
    ensures EndingLeft(Apply(w, s, step).rec) < EndingLeft(s.rec)
    ensures s.rec.ClosingDropped? ==> Apply(w, s, step).rec.ClosingDropped? || Apply(w, s, step).rec.Idle?
  {
    hide FrameAAD, StreamFile, OpenCast, FrameBytes, FrameSize, TailerNext, TailerEnabled;
    if step.CloseDropped? {
      SmallerSet(s.rec.dropped, step.t);
    } else if step.JoinConn? {
      SmallerSet(s.rec.todo, step.t);
    }
  }

  /** Any new client can come whenever no write holds the lock, and is refused exactly when the session has ended. */
  lemma NewcomersComeIn(w: World, s: State, t: Conn)
    requires LockFree(s) && t !in s.tailers && t !in s.refused
    ensures Enabled(w, s, Register(t))
    ensures var z := Apply(w, s, Register(t));
            (t in z.refused <==> s.closed) && (t in z.tailers && t in z.subs <==> !s.closed)
  {
  }

  /** A tailer stands still only when it has nothing to send and may get more, or needs the lock. */
  predicate Resting(s: State, t: Conn)
    requires t in s.tailers
  {
    var x := s.tailers[t];
    || x.done
    || (x.queue == [] && !x.chClosed && x.phase.Draining?)
    || (!LockFree(s) && (x.phase.Removing? || x.phase.Dropping?))
  }

  /** Otherwise it has a step to take, and on an open connection one that is no failure. */
  lemma TailerMoves(w: World, s: State, t: Conn)
    requires Sane(w) && Inv(w, s) && t in s.tailers && !Resting(s, t)
    ensures exists step :: OwnStep(step, t) && Enabled(w, s, step)
    ensures Healthy(s.tailers[t]) && !s.tailers[t].connClosed ==> exists step ::
      OwnStep(step, t) && !step.OpenFails? && !step.ReplayFails? && !step.SendFails? && Enabled(w, s, step)
  {
    hide Ideal, FrameAAD, FrameBytes, StreamFile, OpenCast, Logged, FileOk, Flow, Coming, Owed;
    var x := s.tailers[t];
    assert TailerOk(s.stream, x, t in s.subs, Pending(s.rec, t));
    var step := NextStep(x, t);
    assert OwnStep(step, t) && Enabled(w, s, step);
  }

  function NextStep(x: Tailer, t: Conn): Step {
    match x.phase
    case Opening => OpenSnapshot(t)
    case Replaying(_, sent) =>
      if sent >= x.boundary then ReplayDone(t) else if x.connClosed then ReplayFails(t) else Replay(t, x.boundary - sent)
    case Draining => if x.queue == [] then DrainEnd(t) else Receive(t)
    case Sending(chunk, out) =>
      if out >= |chunk| then Sent(t) else if x.connClosed then SendFails(t) else Send(t, |chunk| - out)
    case Removing => Remove(t)
    case Discarding => if x.queue == [] then DiscardEnd(t) else Discard(t)
    case Dropping => DropRemove(t)
    case DropDiscarding => if x.queue == [] then DropDiscardEnd(t) else DropDiscard(t)
    case DropEnding => DropEnd(t)
    case Finished => DropEnd(t)
  }
}
