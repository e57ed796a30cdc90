/**
 One recording session and the clients tailing it live.

 The recorder goroutine, one goroutine per tailer and the environment interleave freely. Each step is
 one critical section, one channel operation or one transfer of bytes; `mu` is held across the steps of
 a write from its disk part to the end of its fan-out. A connection may stop accepting bytes at any step.
 */
module LiveTail {
  import opened Common
  import opened Crypto

  const SUB_CHAN_CAP: nat := 256

  type Conn = nat

  datatype Recorder =
    | Idle
    | Persisting(frame: Frame, written: nat)                        // holds mu
    | FanningOut(chunk: Bytes, todo: set<Conn>, dropped: set<Conn>) // holds mu
    | ClosingDropped(dropped: set<Conn>)
    | Failed                                                        // the disk write failed
    | Joining(todo: set<Conn>)
    | Waiting(on: Conn, todo: set<Conn>)
    | Ended

  datatype Phase =
    | Opening
    | Replaying(snap: Bytes, sent: nat)
    | Draining
    | Sending(chunk: Bytes, out: nat)
    | Removing
    | Discarding
    | Dropping
    | DropDiscarding
    | DropEnding
    | Finished

  datatype Tailer = Tailer(
    phase: Phase,
    queue: seq<Bytes>,
    chClosed: bool,
    done: bool,
    connClosed: bool,
    boundary: nat,     // replayBytes
    delivered: Bytes)

  /** The cipher, every seal ever made under its key, and this session's stream id. */
  datatype World = World(c: Cipher, log: set<Sealed>, sid: Bytes)

  datatype State = State(
    file: Bytes,
    frames: seq<Frame>, // wholly written so far
    stream: Bytes,      // the plaintext that diskBytes counts
    diskBytes: nat,
    subs: set<Conn>,
    tailers: map<Conn, Tailer>,
    refused: set<Conn>,
    closed: bool,
    rec: Recorder,
    panicked: bool)     // a send on, or a second close of, a closed channel

  ghost predicate Sane(w: World) {
    Ideal(w.c, w.log) && |w.sid| == STREAM_ID_SIZE
  }

  function Init(w: World): State {
    State(StreamFile(w.c, w.sid, []), [], [], 0, {}, map[], {}, false, Idle, false)
  }

  predicate LockFree(s: State) {
    !s.rec.Persisting? && !s.rec.FanningOut?
  }

  datatype Step =
    // recorder
    | BeginWrite(frame: Frame) | Persist(n: nat) | PersistFails | Commit
    | FanOut(t: Conn) | Unlock | CloseDropped(t: Conn) | DroppedAllClosed
    | Close | JoinConn(t: Conn) | JoinDone | JoinedAll
    // tailer
    | Register(t: Conn) | OpenSnapshot(t: Conn) | OpenFails(t: Conn)
    | Replay(t: Conn, n: nat) | ReplayFails(t: Conn) | ReplayDone(t: Conn)
    | Receive(t: Conn) | Send(t: Conn, n: nat) | Sent(t: Conn) | SendFails(t: Conn) | DrainEnd(t: Conn)
    | Remove(t: Conn) | Discard(t: Conn) | DiscardEnd(t: Conn)
    | DropRemove(t: Conn) | DropDiscard(t: Conn) | DropDiscardEnd(t: Conn) | DropEnd(t: Conn)
    // environment
    | Disconnect(t: Conn)

  function PendingFrame(w: World, s: State): Bytes
    requires s.rec.Persisting?
  {
    FrameBytes(w.c, Some(w.sid), |s.frames|, s.rec.frame)
  }

  ghost predicate Enabled(w: World, s: State, step: Step) {
    match step
    case BeginWrite(f) =>
      s.rec.Idle? && |f.nonce| == NONCE_SIZE && Sealed(f.nonce, FrameAAD(Some(w.sid), |s.frames|), f.plain) in w.log
    case Persist(n) => s.rec.Persisting? && n > 0 && s.rec.written + n <= |PendingFrame(w, s)|
    case PersistFails => s.rec.Persisting?
    case Commit => s.rec.Persisting? && s.rec.written == |PendingFrame(w, s)|
    case FanOut(t) => s.rec.FanningOut? && t in s.rec.todo && t in s.tailers
    case Unlock => s.rec.FanningOut? && s.rec.todo == {}
    case CloseDropped(t) => s.rec.ClosingDropped? && t in s.rec.dropped && t in s.tailers
    case DroppedAllClosed => s.rec.ClosingDropped? && s.rec.dropped == {}
    case Close => s.rec.Idle? || s.rec.Failed?
    case JoinConn(t) => s.rec.Joining? && t in s.rec.todo && t in s.tailers
    case JoinDone => s.rec.Waiting? && s.rec.on in s.tailers && s.tailers[s.rec.on].done
    case JoinedAll => s.rec.Joining? && s.rec.todo == {}
    case Register(t) => LockFree(s) && t !in s.tailers && t !in s.refused
    case Disconnect(t) => t in s.tailers
    case _ => step.t in s.tailers && TailerEnabled(s.tailers[step.t], LockFree(s), step)
  }

  predicate TailerStep(step: Step) {
    !(step.BeginWrite? || step.Persist? || step.PersistFails? || step.Commit? || step.FanOut? || step.Unlock?
      || step.CloseDropped? || step.DroppedAllClosed? || step.Close? || step.JoinConn? || step.JoinDone?
      || step.JoinedAll? || step.Register? || step.Disconnect?)
  }

  /** When a tailer's goroutine can take a step; bytes only move on an open connection, failing is always possible. */
  predicate TailerEnabled(x: Tailer, lockFree: bool, step: Step)
    requires TailerStep(step)
  {
    match step
    case OpenSnapshot(_) => x.phase.Opening?
    case OpenFails(_) => x.phase.Opening?
    case Replay(_, n) =>
      x.phase.Replaying? && !x.connClosed && n > 0 && x.phase.sent + n <= Min(x.boundary, |x.phase.snap|)
    case ReplayFails(_) => x.phase.Replaying?
    case ReplayDone(_) => x.phase.Replaying? && x.phase.sent == x.boundary
    case Receive(_) => x.phase.Draining? && x.queue != []
    case Send(_, n) => x.phase.Sending? && !x.connClosed && n > 0 && x.phase.out + n <= |x.phase.chunk|
    case Sent(_) => x.phase.Sending? && x.phase.out == |x.phase.chunk|
    case SendFails(_) => x.phase.Sending?
    case DrainEnd(_) => x.phase.Draining? && x.queue == [] && x.chClosed
    case Remove(_) => x.phase.Removing? && lockFree
    case Discard(_) => x.phase.Discarding? && x.queue != []
    case DiscardEnd(_) => x.phase.Discarding? && x.queue == [] && x.chClosed
    case DropRemove(_) => x.phase.Dropping? && lockFree
    case DropDiscard(_) => x.phase.DropDiscarding? && x.queue != []
    case DropDiscardEnd(_) => x.phase.DropDiscarding? && x.queue == [] && x.chClosed
    case DropEnd(_) => x.phase.DropEnding?
  }

  // ------------------------------------------------------------------ effects

  /** remove(): take t out of subs and close its channel, if it is still there. */
  function RemoveSub(s: State, t: Conn): State
    requires t in s.tailers
  {
    if t in s.subs then CloseChan(s.(subs := s.subs - {t}), t) else s
  }

  function CloseChan(s: State, t: Conn): State
    requires t in s.tailers
  {
    var x := s.tailers[t];
    s.(tailers := s.tailers[t := x.(chClosed := true)], panicked := s.panicked || x.chClosed)
  }

  function SetPhase(s: State, t: Conn, p: Phase): State
    requires t in s.tailers
  {
    s.(tailers := s.tailers[t := s.tailers[t].(phase := p)])
  }

  function CloseConn(s: State, t: Conn): State
    requires t in s.tailers
  {
    s.(tailers := s.tailers[t := s.tailers[t].(connClosed := true)])
  }

  /** n more bytes of the snapshot, or of the chunk in flight, have reached the client. */
  function Replayed(x: Tailer, n: nat): Tailer
    requires x.phase.Replaying? && x.phase.sent + n <= |x.phase.snap|
  {
    var Replaying(snap, sent) := x.phase;
    x.(phase := Replaying(snap, sent + n), delivered := x.delivered + snap[sent..sent + n])
  }

  function SentSome(x: Tailer, n: nat): Tailer
    requires x.phase.Sending? && x.phase.out + n <= |x.phase.chunk|
  {
    var Sending(chunk, out) := x.phase;
    x.(phase := Sending(chunk, out + n), delivered := x.delivered + chunk[out..out + n])
  }

  /** The effect of a tailer's own step on its record, where it touches nothing else. */
  function TailerNext(w: World, file: Bytes, x: Tailer, step: Step): Tailer
    requires TailerStep(step) && TailerEnabled(x, true, step)
  {
    match step
    case OpenSnapshot(_) => x.(phase := Replaying(OpenCast(w.c, file), 0))
    case OpenFails(_) => x.(phase := Dropping)
    case Replay(_, n) => Replayed(x, n)
    case ReplayFails(_) => x.(phase := Dropping)
    case ReplayDone(_) => x.(phase := Draining)
    case Receive(_) => x.(phase := Sending(x.queue[0], 0), queue := x.queue[1..])
    case Send(_, n) => SentSome(x, n)
    case Sent(_) => x.(phase := Draining)
    case SendFails(_) => x.(phase := Removing)
    case DrainEnd(_) => x.(phase := Finished, done := true)
    case Discard(_) => x.(queue := x.queue[1..])
    case DiscardEnd(_) => x.(phase := Finished, done := true)
    case DropDiscard(_) => x.(queue := x.queue[1..])
    case DropDiscardEnd(_) => x.(phase := DropEnding)
    case DropEnd(_) => x.(phase := Finished, done := true, connClosed := true)
    case Remove(_) => x.(phase := Discarding)
    case DropRemove(_) => x.(phase := DropDiscarding)
  }

  ghost function Apply(w: World, s: State, step: Step): State
    requires Enabled(w, s, step)
  {
    match step
    case BeginWrite(f) =>
      if f.plain == [] then s.(rec := FanningOut([], s.subs, {}))
      else if FrameSize(f.plain) > MAX_FRAME then s.(rec := Failed)
      else s.(rec := Persisting(f, 0))
    case Persist(n) =>
      var Persisting(f, k) := s.rec;
      s.(file := s.file + PendingFrame(w, s)[k..k + n], rec := Persisting(f, k + n))
    case PersistFails => s.(rec := Failed)
    case Commit =>
      var f := s.rec.frame;
      s.(frames := s.frames + [f],
         stream := s.stream + f.plain,
         diskBytes := s.diskBytes + |f.plain|,
         rec := FanningOut(f.plain, s.subs, {}))
    case FanOut(t) =>
      var FanningOut(chunk, todo, dropped) := s.rec;
      var x := s.tailers[t];
      if |x.queue| < SUB_CHAN_CAP then
        s.(tailers := s.tailers[t := x.(queue := x.queue + [chunk])],
           panicked := s.panicked || x.chClosed,
           rec := FanningOut(chunk, todo - {t}, dropped))
      else
        RemoveSub(s, t).(rec := FanningOut(chunk, todo - {t}, dropped + {t}))
    case Unlock => s.(rec := ClosingDropped(s.rec.dropped))
    case CloseDropped(t) => CloseConn(s, t).(rec := ClosingDropped(s.rec.dropped - {t}))
    case DroppedAllClosed => s.(rec := Idle)
    case Close =>
      s.(closed := true, subs := {}, rec := Joining(s.subs),
         tailers := map t | t in s.tailers ::
           if t in s.subs then s.tailers[t].(chClosed := true) else s.tailers[t],
         panicked := s.panicked || exists t :: t in s.subs && t in s.tailers && s.tailers[t].chClosed)
    case JoinConn(t) => CloseConn(s, t).(rec := Waiting(t, s.rec.todo - {t}))
    case JoinDone => s.(rec := Joining(s.rec.todo))
    case JoinedAll => s.(rec := Ended)
    case Register(t) =>
      if s.closed then s.(refused := s.refused + {t})
      else
        s.(subs := s.subs + {t},
           tailers := s.tailers[t := Tailer(if s.diskBytes > 0 then Opening else Draining,
                                            [], false, false, false, s.diskBytes, [])])
    case Disconnect(t) => CloseConn(s, t)
    case Remove(t) => SetPhase(RemoveSub(s, t), t, Discarding)
    case DropRemove(t) =>
      if t in s.subs then SetPhase(RemoveSub(s, t), t, DropDiscarding) else SetPhase(s, t, DropEnding)
    case _ =>
      var x := s.tailers[step.t];
      s.(tailers := s.tailers[step.t := TailerNext(w, s.file, x, step)],
         panicked := s.panicked || (ClosesDone(step) && x.done))
  }

  predicate ClosesDone(step: Step) {
    step.DrainEnd? || step.DiscardEnd? || step.DropEnd?
  }

  // ---------------------------------------------------------------- invariant

  /** Bytes still owed to t by the write that is fanning out. */
  function Pending(rec: Recorder, t: Conn): Bytes {
    if rec.FanningOut? && t in rec.todo then rec.chunk else []
  }

  /** What is still to reach the client: the rest of the replay or of the chunk in flight, then the queue. */
  function Coming(stream: Bytes, x: Tailer): Bytes
    requires x.boundary <= |stream|
  {
    match x.phase
    case Opening => stream[..x.boundary] + Concat(x.queue)
    case Replaying(_, sent) => (if sent <= x.boundary then stream[sent..x.boundary] else []) + Concat(x.queue)
    case Sending(chunk, out) => (if out <= |chunk| then chunk[out..] else []) + Concat(x.queue)
    case _ => Concat(x.queue)
  }

  /** Replay, drain and write of a tailer whose connection has not failed it yet. */
  predicate Healthy(x: Tailer) {
    x.phase.Opening? || x.phase.Replaying? || x.phase.Draining? || x.phase.Sending?
  }

  /** Everything the client has got or is still going to get, in the order it gets it. */
  function Owed(stream: Bytes, x: Tailer): Bytes
    requires x.boundary <= |stream|
  {
    x.delivered + Coming(stream, x)
  }

  /** What holds of one tailer, given the stream, whether it is in subs, and what the current write still owes it. */
  ghost predicate TailerOk(stream: Bytes, x: Tailer, inSubs: bool, pending: Bytes) {
    Shape(stream, x, inSubs, pending) && Flow(stream, x, inSubs, pending)
  }

  ghost predicate Shape(stream: Bytes, x: Tailer, inSubs: bool, pending: Bytes) {
    && (inSubs <==> !x.chClosed)
    && (x.done <==> x.phase.Finished?)
    && (x.phase.Discarding? || x.phase.DropDiscarding? || x.phase.DropEnding? || x.phase.Finished? ==> x.chClosed)
    && |x.queue| <= SUB_CHAN_CAP
    && x.boundary <= |stream|
    && (x.phase.Replaying? ==> Replays(stream, x, x.phase.snap, x.phase.sent))
    && (x.phase.Sending? ==> x.phase.out <= |x.phase.chunk|)
    && (!inSubs ==> pending == [])
  }

  /** A healthy tailer in subs is owed the whole stream; one out of subs, a prefix of it. */
  ghost predicate Flow(stream: Bytes, x: Tailer, inSubs: bool, pending: Bytes)
    requires x.boundary <= |stream|
  {
    if !Healthy(x) then x.delivered <= stream
    else if inSubs then Owed(stream, x) + pending == stream
    else Owed(stream, x) <= stream
  }

  ghost predicate Replays(stream: Bytes, x: Tailer, snap: Bytes, sent: nat) {
    sent <= x.boundary <= |stream| && stream[..x.boundary] <= snap
  }

  ghost predicate FileOk(w: World, s: State) {
    && AllFit(s.frames) && Logged(w.log, Some(w.sid), 0, s.frames)
    && StreamFile(w.c, w.sid, s.frames) <= s.file
    && s.stream == Concat(Plains(s.frames))
    && s.diskBytes == |s.stream|
  }

  ghost predicate RecorderOk(w: World, s: State) {
    match s.rec
    case Persisting(f, written) =>
      && !s.closed && Fits(f) && f.plain != []
      && Sealed(f.nonce, FrameAAD(Some(w.sid), |s.frames|), f.plain) in w.log
      && written <= |PendingFrame(w, s)|
      && s.file == StreamFile(w.c, w.sid, s.frames) + PendingFrame(w, s)[..written]
    case FanningOut(chunk, todo, dropped) => !s.closed && todo <= s.subs && Complete(w, s) && dropped <= s.tailers.Keys
    case ClosingDropped(dropped) => !s.closed && Complete(w, s) && dropped <= s.tailers.Keys
    case Idle => !s.closed && Complete(w, s)
    case Failed => !s.closed
    case Joining(todo) => s.closed && s.subs == {} && todo <= s.tailers.Keys
    case Waiting(on, todo) =>
      s.closed && s.subs == {} && todo <= s.tailers.Keys && on in s.tailers && s.tailers[on].connClosed
    case Ended => s.closed && s.subs == {}
  }

  ghost predicate Complete(w: World, s: State) {
    s.file == StreamFile(w.c, w.sid, s.frames)
  }

  ghost predicate TailersOk(s: State) {
    && s.subs <= s.tailers.Keys
    && forall t :: t in s.tailers ==> TailerOk(s.stream, s.tailers[t], t in s.subs, Pending(s.rec, t))
  }

  ghost predicate Inv(w: World, s: State) {
    FileOk(w, s) && RecorderOk(w, s) && TailersOk(s) && !s.panicked
  }

  // ------------------------------------------------------ tailers, one by one

  /** A tailer's own step keeps it in order. */
  lemma TailerStepOk(w: World, s: State, x: Tailer, inSubs: bool, pending: Bytes, step: Step)
    requires Sane(w) && FileOk(w, s) && TailerOk(s.stream, x, inSubs, pending)
    requires TailerStep(step) && TailerEnabled(x, true, step) && !step.Remove? && !step.DropRemove?
    ensures TailerOk(s.stream, TailerNext(w, s.file, x, step), inSubs, pending)
    ensures x.connClosed ==> TailerNext(w, s.file, x, step).connClosed
    ensures !(ClosesDone(step) && x.done)
  {
    var y := TailerNext(w, s.file, x, step);
    SnapshotStartsWithStream(w, s);
    ShapeKept(w, s.file, s.stream, x, inSubs, pending, step);
    DeliveredIsPrefix(s.stream, x, inSubs, pending);
    if Healthy(y) {
      OwedKept(w, s.file, s.stream, x, step);
    } else {
      assert y.delivered == x.delivered;
    }
  }

  lemma SnapshotStartsWithStream(w: World, s: State)
    requires Sane(w) && FileOk(w, s)
    ensures s.stream <= OpenCast(w.c, s.file)
  {
    IdealIsCorrect(w.c, w.log);
    SnapshotCovers(w.c, w.log, w.sid, s.frames, s.file);
  }

  lemma ShapeKept(w: World, file: Bytes, stream: Bytes, x: Tailer, inSubs: bool, pending: Bytes, step: Step)
    requires stream <= OpenCast(w.c, file) && Shape(stream, x, inSubs, pending)
    requires TailerStep(step) && TailerEnabled(x, true, step) && !step.Remove? && !step.DropRemove?
    ensures Shape(stream, TailerNext(w, file, x, step), inSubs, pending)
  {
    hide OpenCast;
    if step.OpenSnapshot? {
      assert stream[..x.boundary] <= stream;
    }
  }

  lemma DeliveredIsPrefix(stream: Bytes, x: Tailer, inSubs: bool, pending: Bytes)
    requires TailerOk(stream, x, inSubs, pending)
    ensures x.delivered <= stream
  {
  }

  lemma OwedKept(w: World, file: Bytes, stream: Bytes, x: Tailer, step: Step)
    requires x.boundary <= |stream| && TailerStep(step) && TailerEnabled(x, true, step)
    requires x.phase.Replaying? ==> Replays(stream, x, x.phase.snap, x.phase.sent)
    requires x.phase.Sending? ==> x.phase.out <= |x.phase.chunk|
    requires Healthy(TailerNext(w, file, x, step))
    ensures Owed(stream, TailerNext(w, file, x, step)) == Owed(stream, x)
  {
    hide OpenCast, Concat;
    match step
    case OpenSnapshot(_) => assert stream[0..x.boundary] == stream[..x.boundary];
    case Replay(_, n) => ReplayKeepsOwed(stream, x, n);
    case ReplayDone(_) => assert [] + Concat(x.queue) == Concat(x.queue);
    case Receive(_) => ReceiveKeepsOwed(stream, x);
    case Send(_, n) => SendKeepsOwed(stream, x, n);
    case Sent(_) => assert [] + Concat(x.queue) == Concat(x.queue);
  }

  lemma ReceiveKeepsOwed(stream: Bytes, x: Tailer)
    requires x.phase.Draining? && x.queue != [] && x.boundary <= |stream|
    ensures Owed(stream, x.(phase := Sending(x.queue[0], 0), queue := x.queue[1..])) == Owed(stream, x)
  {
    assert x.queue[0][0..] == x.queue[0];
  }

  lemma ReplayKeepsOwed(stream: Bytes, x: Tailer, n: nat)
    requires x.phase.Replaying? && Replays(stream, x, x.phase.snap, x.phase.sent)
    requires x.phase.sent + n <= x.boundary
    ensures Owed(stream, Replayed(x, n)) == Owed(stream, x)
  {
    MoveCopied(x.delivered, stream, x.phase.snap, x.phase.sent, n, x.boundary, Concat(x.queue));
  }

  lemma SendKeepsOwed(stream: Bytes, x: Tailer, n: nat)
    requires x.phase.Sending? && x.phase.out + n <= |x.phase.chunk| && x.boundary <= |stream|
    ensures Owed(stream, SentSome(x, n)) == Owed(stream, x)
  {
    MovePiece(x.delivered, x.phase.chunk, x.phase.out, n, Concat(x.queue));
  }

  // -------------------------------------- what other goroutines do to a tailer

  lemma StreamGrows(stream: Bytes, more: Bytes, x: Tailer, inSubs: bool)
    requires TailerOk(stream, x, inSubs, [])
    ensures TailerOk(stream + more, x, inSubs, if inSubs then more else [])
  {
    hide Concat;
    assert (stream + more)[..x.boundary] == stream[..x.boundary];
    assert x.phase.Replaying? ==> (stream + more)[x.phase.sent..x.boundary] == stream[x.phase.sent..x.boundary];
    assert Owed(stream + more, x) == Owed(stream, x);
    assert stream + [] == stream;
    assert Owed(stream, x) + [] == Owed(stream, x);
  }

  lemma Queued(stream: Bytes, chunk: Bytes, x: Tailer)
    requires TailerOk(stream, x, true, chunk) && |x.queue| < SUB_CHAN_CAP
    ensures TailerOk(stream, x.(queue := x.queue + [chunk]), true, [])
  {
    ConcatSnoc(x.queue, chunk);
    hide Concat;
    var y := x.(queue := x.queue + [chunk]);
    assert Coming(stream, y) == Coming(stream, x) + chunk;
    assert Owed(stream, y) + [] == Owed(stream, x) + chunk;
  }

  /** Leaving subs closes the channel: what was owed becomes a prefix of the stream, for good. */
  lemma LeavesSubs(stream: Bytes, pending: Bytes, x: Tailer, y: Tailer)
    requires TailerOk(stream, x, true, pending)
    requires y == x.(chClosed := true) || (!Healthy(y) && y.phase != Finished && y == x.(chClosed := true, phase := y.phase))
    ensures TailerOk(stream, y, false, [])
  {
    hide Concat;
    DeliveredIsPrefix(stream, x, true, pending);
    if Healthy(y) {
      assert Owed(stream, y) == Owed(stream, x);
    }
  }

  lemma ConnFlag(stream: Bytes, x: Tailer, inSubs: bool, pending: Bytes)
    requires TailerOk(stream, x, inSubs, pending)
    ensures TailerOk(stream, x.(connClosed := true), inSubs, pending)
  {
    hide Concat;
    assert Owed(stream, x.(connClosed := true)) == Owed(stream, x);
  }

  lemma NewTailer(stream: Bytes)
    ensures TailerOk(stream, Tailer(if |stream| > 0 then Opening else Draining, [], false, false, false, |stream|, []), true, [])
  {
  }

  lemma GivesUp(stream: Bytes, x: Tailer, pending: Bytes, p: Phase)
    requires TailerOk(stream, x, false, pending)
    requires p.Discarding? || p.DropEnding?
    requires !x.phase.Finished?
    ensures TailerOk(stream, x.(phase := p), false, pending)
  {
    DeliveredIsPrefix(stream, x, false, pending);
  }

  // ------------------------------------------------------------ every step

  lemma OthersUnchanged(s: State, z: State, t: Conn)
    requires TailersOk(s) && z.stream == s.stream && t in z.tailers
    requires forall u :: u in z.tailers && u != t ==> u in s.tailers && z.tailers[u] == s.tailers[u]
    requires forall u :: u != t ==> (u in z.subs <==> u in s.subs)
    requires forall u :: u != t ==> Pending(z.rec, u) == Pending(s.rec, u)
    requires TailerOk(z.stream, z.tailers[t], t in z.subs, Pending(z.rec, t))
    requires s.tailers.Keys <= z.tailers.Keys
    ensures TailersOk(z)
  {
    hide TailerOk;
  }

  lemma TailerStepInv(w: World, s: State, step: Step)
    requires Sane(w) && Inv(w, s) && Enabled(w, s, step)
    requires TailerStep(step) && !step.Remove? && !step.DropRemove?
    ensures Inv(w, Apply(w, s, step))
  {
    hide Ideal, FrameAAD, StreamFile, OpenCast, TailerOk, Logged, TailerNext, FrameBytes;
    var t := step.t;
    var z := Apply(w, s, step);
    TailerStepOk(w, s, s.tailers[t], t in s.subs, Pending(s.rec, t), step);
    OthersUnchanged(s, z, t);
  }

  lemma RemoveInv(w: World, s: State, step: Step)
    requires Sane(w) && Inv(w, s) && Enabled(w, s, step)
    requires step.Remove? || step.DropRemove?
    ensures Inv(w, Apply(w, s, step))
  {
    hide Ideal, FrameAAD, StreamFile, OpenCast, TailerOk, Logged, FrameBytes, FrameSize, TailerNext, PendingFrame;
    RemoveTailers(w, s, step);
    hide TailersOk;
    assert step.t in s.tailers;
  }

  lemma RemoveTailers(w: World, s: State, step: Step)
    requires TailersOk(s) && Enabled(w, s, step) && (step.Remove? || step.DropRemove?)
    ensures TailersOk(Apply(w, s, step)) && Apply(w, s, step).panicked == s.panicked
  {
    hide FrameAAD, StreamFile, OpenCast, TailerOk, FrameBytes, FrameSize, TailerNext, PendingFrame;
    var t := step.t;
    var x := s.tailers[t];
    var z := Apply(w, s, step);
    assert TailerOk(s.stream, x, t in s.subs, Pending(s.rec, t));
    OpenWhileInSubs(s.stream, x, t in s.subs, Pending(s.rec, t));
    if t in s.subs {
      LeavesSubs(s.stream, Pending(s.rec, t), x, z.tailers[t]);
    } else {
      GivesUp(s.stream, x, Pending(s.rec, t), z.tailers[t].phase);
    }
    OthersUnchanged(s, z, t);
  }

  lemma OpenWhileInSubs(stream: Bytes, x: Tailer, inSubs: bool, pending: Bytes)
    requires TailerOk(stream, x, inSubs, pending)
    ensures inSubs <==> !x.chClosed
  {
  }

  lemma FanOutInv(w: World, s: State, t: Conn)
    requires Sane(w) && Inv(w, s) && Enabled(w, s, FanOut(t))
    ensures Inv(w, Apply(w, s, FanOut(t)))
  {
    hide Ideal, FrameAAD, StreamFile, OpenCast, TailerOk, Logged, FrameBytes;
    var x := s.tailers[t];
    var z := Apply(w, s, FanOut(t));
    assert t in s.subs;
    assert TailerOk(s.stream, x, true, s.rec.chunk);
    OpenWhileInSubs(s.stream, x, true, s.rec.chunk);
    if |x.queue| < SUB_CHAN_CAP {
      Queued(s.stream, s.rec.chunk, x);
    } else {
      LeavesSubs(s.stream, s.rec.chunk, x, z.tailers[t]);
    }
    OthersUnchanged(s, z, t);
  }

  lemma ConnClosedInv(w: World, s: State, step: Step)
    requires Sane(w) && Inv(w, s) && Enabled(w, s, step)
    requires step.CloseDropped? || step.JoinConn? || step.Disconnect?
    ensures Inv(w, Apply(w, s, step))
  {
    hide Ideal, FrameAAD, StreamFile, OpenCast, TailerOk, Logged, FrameBytes;
    var t := step.t;
    ConnFlag(s.stream, s.tailers[t], t in s.subs, Pending(s.rec, t));
    OthersUnchanged(s, Apply(w, s, step), t);
  }

  lemma RegisterInv(w: World, s: State, t: Conn)
    requires Sane(w) && Inv(w, s) && Enabled(w, s, Register(t))
    ensures Inv(w, Apply(w, s, Register(t)))
  {
    hide Ideal, FrameAAD, StreamFile, OpenCast, TailerOk, Logged, FrameBytes;
    if !s.closed {
      NewTailer(s.stream);
      OthersUnchanged(s, Apply(w, s, Register(t)), t);
    }
  }

  lemma CommitInv(w: World, s: State)
    requires Sane(w) && Inv(w, s) && Enabled(w, s, Commit)
    ensures Inv(w, Apply(w, s, Commit))
  {
    hide Ideal, FrameAAD, OpenCast, TailerOk, FrameBytes;
    var z := Apply(w, s, Commit);
    var f := s.rec.frame;
    assert PendingFrame(w, s)[..s.rec.written] == PendingFrame(w, s);
    EncodeSnoc(w.c, Some(w.sid), s.frames, f);
    assert StreamFile(w.c, w.sid, s.frames + [f]) == StreamFile(w.c, w.sid, s.frames) + PendingFrame(w, s);
    ConcatSnoc(Plains(s.frames), f.plain);
    assert Plains(s.frames + [f]) == Plains(s.frames) + [f.plain];
    forall t | t in z.tailers
      ensures TailerOk(z.stream, z.tailers[t], t in z.subs, Pending(z.rec, t))
    {
      assert TailerOk(s.stream, s.tailers[t], t in s.subs, Pending(s.rec, t));
      StreamGrows(s.stream, f.plain, s.tailers[t], t in s.subs);
    }
  }

  lemma CloseInv(w: World, s: State)
    requires Sane(w) && Inv(w, s) && Enabled(w, s, Close)
    ensures Inv(w, Apply(w, s, Close))
  {
    hide Ideal, FrameAAD, StreamFile, OpenCast, TailerOk, Logged, FrameBytes;
    var z := Apply(w, s, Close);
    forall t | t in z.tailers
      ensures TailerOk(z.stream, z.tailers[t], t in z.subs, Pending(z.rec, t))
      ensures t in s.subs ==> !s.tailers[t].chClosed
    {
      assert TailerOk(s.stream, s.tailers[t], t in s.subs, Pending(s.rec, t));
      OpenWhileInSubs(s.stream, s.tailers[t], t in s.subs, Pending(s.rec, t));
      if t in s.subs {
        LeavesSubs(s.stream, Pending(s.rec, t), s.tailers[t], z.tailers[t]);
      }
    }
  }

  /** The steps of the recorder that touch no tailer. */
  lemma RecorderOnlyInv(w: World, s: State, step: Step)
    requires Sane(w) && Inv(w, s) && Enabled(w, s, step)
    requires step.BeginWrite? || step.Persist? || step.PersistFails? || step.Unlock? || step.DroppedAllClosed?
          || step.JoinDone? || step.JoinedAll?
    ensures Inv(w, Apply(w, s, step))
  {
    hide Ideal, FrameAAD, OpenCast, TailerOk, Logged, FrameBytes, Encode;
    var z := Apply(w, s, step);
    if step.Persist? {
      var frame, k := PendingFrame(w, s), s.rec.written;
      assert frame[..k] + frame[k..k + step.n] == frame[..k + step.n];
      assert z.file == StreamFile(w.c, w.sid, s.frames) + frame[..k + step.n];
    } else if step.BeginWrite? {
      assert s.file == s.file + (if z.rec.Persisting? then PendingFrame(w, z)[..0] else []);
    }
    assert forall t :: Pending(z.rec, t) == Pending(s.rec, t);
  }

  lemma StepInv(w: World, s: State, step: Step)
    requires Sane(w) && Inv(w, s) && Enabled(w, s, step)
    ensures Inv(w, Apply(w, s, step))
  {
    hide Inv, Sane, Apply, Enabled;
    if step.Remove? || step.DropRemove? {
      RemoveInv(w, s, step);
    } else if TailerStep(step) {
      TailerStepInv(w, s, step);
    } else {
      match step
      case FanOut(t) => FanOutInv(w, s, t);
      case CloseDropped(t) => ConnClosedInv(w, s, step);
      case JoinConn(t) => ConnClosedInv(w, s, step);
      case Disconnect(t) => ConnClosedInv(w, s, step);
      case Register(t) => RegisterInv(w, s, t);
      case Commit => CommitInv(w, s);
      case Close => CloseInv(w, s);
      case _ => RecorderOnlyInv(w, s, step);
    }
  }

  // --------------------------------------------------------------- whole runs

  /** `states` is an interleaving of the goroutines: each state is reached from the one before by its step. */
  ghost predicate IsRun(w: World, states: seq<State>, steps: seq<Step>) {
    && |states| == |steps| + 1
    && forall i :: 0 <= i < |steps| ==> Follows(w, states[i], steps[i], states[i + 1])
  }

  ghost predicate Follows(w: World, s: State, step: Step, z: State) {
    Enabled(w, s, step) && z == Apply(w, s, step)
  }

  lemma {:induction false} RunInv(w: World, states: seq<State>, steps: seq<Step>, i: nat)
    requires Sane(w) && IsRun(w, states, steps) && i < |states|
    requires states[0] == Init(w)
    ensures Inv(w, states[i])
  {
    if i == 0 {
      assert Concat(Plains([])) == [];
    } else {
      RunInv(w, states, steps, i - 1);
      assert Follows(w, states[i - 1], steps[i - 1], states[i]);
      StepInv(w, states[i - 1], steps[i - 1]);
    }
  }

  /**
   Tail contiguity. In every interleaving a client has received a prefix of the session's plaintext; and
   while it is registered and its connection has not failed, what it has received, then the rest of the
   replay or of the chunk in flight, then the queue, then the chunk being fanned out, is the whole stream.
   */
  lemma TailContiguity(w: World, states: seq<State>, steps: seq<Step>, i: nat, t: Conn)
    requires Sane(w) && IsRun(w, states, steps) && i < |states| && states[0] == Init(w)
    requires t in states[i].tailers
    ensures var s := states[i];
            var x := s.tailers[t];
            && x.delivered <= s.stream
            && |x.queue| <= 256
            && x.boundary <= |s.stream|
            && (t in s.subs && Healthy(x) ==> x.delivered + Coming(s.stream, x) + Pending(s.rec, t) == s.stream)
  {
    RunInv(w, states, steps, i);
    var s := states[i];
    DeliveredIsPrefix(s.stream, s.tailers[t], t in s.subs, Pending(s.rec, t));
  }

  /**
   The replay never runs short: however the file was cut when it was opened, a tailer on an open
   connection can go on to exactly its boundary, and what it replays is the stream before it registered.
   */
  lemma ReplayReachesBoundary(w: World, states: seq<State>, steps: seq<Step>, i: nat, t: Conn)
    requires Sane(w) && IsRun(w, states, steps) && i < |states| && states[0] == Init(w)
    requires t in states[i].tailers && states[i].tailers[t].phase.Replaying?
    ensures var x := states[i].tailers[t];
            && x.phase.sent <= x.boundary <= |states[i].stream|
            && states[i].stream[..x.boundary] <= x.phase.snap
            && (!x.connClosed && x.phase.sent < x.boundary
                ==> Enabled(w, states[i], Replay(t, x.boundary - x.phase.sent)))
  {
    RunInv(w, states, steps, i);
    var s := states[i];
    assert TailerOk(s.stream, s.tailers[t], t in s.subs, Pending(s.rec, t));
  }

  /** The stream and what a client has received are only ever appended to; a tailer's boundary is fixed. */
  lemma {:induction false} OnlyAppends(w: World, states: seq<State>, steps: seq<Step>, i: nat, j: nat, t: Conn)
    requires IsRun(w, states, steps) && i <= j < |states|
    ensures states[i].stream <= states[j].stream
    ensures t in states[i].tailers ==>
      (t in states[j].tailers && states[j].tailers[t].boundary == states[i].tailers[t].boundary
        && states[i].tailers[t].delivered <= states[j].tailers[t].delivered)
    decreases j
  {
    hide Apply, Enabled;
    if i < j {
      OnlyAppends(w, states, steps, i, j - 1, t);
      assert Follows(w, states[j - 1], steps[j - 1], states[j]);
      StepAppends(w, states[j - 1], steps[j - 1], t);
    }
  }

  /** What a step leaves of a tailer: it stays, its boundary too, and what it has delivered is only added to. */
  ghost predicate Appends(s: State, z: State, t: Conn) {
    && s.stream <= z.stream
    && (t in s.tailers ==>
          t in z.tailers && z.tailers[t].boundary == s.tailers[t].boundary && s.tailers[t].delivered <= z.tailers[t].delivered)
  }

  lemma StepAppends(w: World, s: State, step: Step, t: Conn)
    requires Enabled(w, s, step)
    ensures Appends(s, Apply(w, s, step), t)
  {
    hide Apply, Enabled, Appends;
    if !TailerStep(step) {
      RecorderAppends(w, s, step, t);
    } else if step.Remove? || step.DropRemove? {
      RemoveAppends(w, s, step, t);
    } else {
      TailerStepAppends(w, s, step, t);
    }
  }

  lemma RecorderAppends(w: World, s: State, step: Step, t: Conn)
    requires Enabled(w, s, step) && !TailerStep(step)
    ensures Appends(s, Apply(w, s, step), t)
  {
    hide FrameAAD, StreamFile, OpenCast, FrameBytes, TailerNext, TailerEnabled, PendingFrame, LockFree, FrameSize;
  }

  lemma RemoveAppends(w: World, s: State, step: Step, t: Conn)
    requires Enabled(w, s, step) && (step.Remove? || step.DropRemove?)
    ensures Appends(s, Apply(w, s, step), t)
  {
    hide FrameAAD, StreamFile, OpenCast, FrameBytes, TailerNext, TailerEnabled, PendingFrame, LockFree, FrameSize;
  }

  lemma TailerStepAppends(w: World, s: State, step: Step, t: Conn)
    requires Enabled(w, s, step) && TailerStep(step) && !step.Remove? && !step.DropRemove?
    ensures Appends(s, Apply(w, s, step), t)
  {
    hide FrameAAD, StreamFile, OpenCast, FrameBytes, TailerNext, TailerEnabled, PendingFrame;
    TailerAppends(w, s.file, s.tailers[step.t], step, LockFree(s));
  }

  lemma TailerAppends(w: World, file: Bytes, x: Tailer, step: Step, lockFree: bool)
    requires TailerStep(step) && TailerEnabled(x, lockFree, step)
    ensures TailerEnabled(x, true, step)
    ensures var y := TailerNext(w, file, x, step); x.delivered <= y.delivered && y.boundary == x.boundary
  {
    hide OpenCast;
  }

  /** What a tailer replays is exactly the stream as it was when the tailer registered. */
  lemma ReplaysWhatPrecedesRegistration(
    w: World, states: seq<State>, steps: seq<Step>, r: nat, i: nat, t: Conn)
    requires Sane(w) && IsRun(w, states, steps) && r < i < |states| && states[0] == Init(w)
    requires steps[r] == Register(t) && !states[r].closed
    ensures t in states[i].tailers && states[i].tailers[t].boundary == |states[r].stream|
    ensures states[i].tailers[t].phase.Replaying? ==> states[r].stream <= states[i].tailers[t].phase.snap
  {
    hide Inv, Apply;
    assert Follows(w, states[r], steps[r], states[r + 1]);
    RunInv(w, states, steps, r);
    NewBoundary(w, states[r], t);
    OnlyAppends(w, states, steps, r + 1, i, t);
    OnlyAppends(w, states, steps, r, i, t);
    if states[i].tailers[t].phase.Replaying? {
      ReplayReachesBoundary(w, states, steps, i, t);
      assert states[i].stream[..|states[r].stream|] == states[r].stream;
    }
  }

  lemma NewBoundary(w: World, s: State, t: Conn)
    requires Inv(w, s) && Enabled(w, s, Register(t)) && !s.closed
    ensures var z := Apply(w, s, Register(t)); t in z.tailers && z.tailers[t].boundary == |s.stream|
  {
  }

  /** Channels: open exactly while in subs, never closed twice, never sent on once closed; done likewise. */
  lemma ChannelDiscipline(w: World, states: seq<State>, steps: seq<Step>, i: nat)
    requires Sane(w) && IsRun(w, states, steps) && i < |states| && states[0] == Init(w)
    ensures !states[i].panicked
    ensures forall t :: t in states[i].tailers ==> (t in states[i].subs <==> !states[i].tailers[t].chClosed)
    ensures forall t :: t in states[i].tailers && states[i].tailers[t].done ==> states[i].tailers[t].chClosed
  {
    RunInv(w, states, steps, i);
    var s := states[i];
    forall t | t in s.tailers
      ensures t in s.subs <==> !s.tailers[t].chClosed
      ensures s.tailers[t].done ==> s.tailers[t].chClosed
    {
      assert TailerOk(s.stream, s.tailers[t], t in s.subs, Pending(s.rec, t));
    }
  }

  // ------------------------------------------------------------- a whole fan-out

  ghost predicate FansOut(s: State, ts: seq<Conn>) {
    && s.rec.FanningOut?
    && (forall i :: 0 <= i < |ts| ==> ts[i] in s.rec.todo && ts[i] in s.tailers && ts[i] in s.subs)
    && (forall i, j :: 0 <= i < j < |ts| ==> ts[i] != ts[j])
  }

  lemma FansOutRest(w: World, s: State, ts: seq<Conn>)
    requires FansOut(s, ts) && ts != []
    ensures Enabled(w, s, FanOut(ts[0])) && FansOut(Apply(w, s, FanOut(ts[0])), ts[1..])
  {
  }

  /** The chunk offered to the subscribers ts one after the other. */
  ghost function FanAll(w: World, s: State, ts: seq<Conn>): State
    requires FansOut(s, ts)
    decreases |ts|
  {
    if ts == [] then s
    else
      FansOutRest(w, s, ts);
      FanAll(w, Apply(w, s, FanOut(ts[0])), ts[1..])
  }

  /** What the fan-out of a chunk makes of one subscriber: a longer queue, or a closed channel and a drop. */
  ghost predicate Offered(s: State, z: State, t: Conn)
    requires s.rec.FanningOut? && z.rec.FanningOut? && t in s.tailers
  {
    var x := s.tailers[t];
    t in z.tailers &&
    if |x.queue| < SUB_CHAN_CAP
      then t in z.subs && z.tailers[t] == x.(queue := x.queue + [s.rec.chunk]) && (t in z.rec.dropped <==> t in s.rec.dropped)
      else t !in z.subs && z.tailers[t] == x.(chClosed := true) && t in z.rec.dropped
  }

  ghost predicate Untouched(s: State, z: State, t: Conn)
    requires s.rec.FanningOut? && z.rec.FanningOut?
  {
    && (t in s.tailers <==> t in z.tailers) && (t in s.tailers ==> z.tailers[t] == s.tailers[t])
    && (t in z.subs <==> t in s.subs) && (t in z.rec.dropped <==> t in s.rec.dropped)
  }

  /** In whatever order the subscribers come, each is served alike and nobody else is touched. */
  lemma {:induction false} FanOutInAnyOrder(w: World, s: State, ts: seq<Conn>)
    requires FansOut(s, ts)
    ensures var z := FanAll(w, s, ts);
            && z.rec.FanningOut? && z.rec.chunk == s.rec.chunk && z.stream == s.stream && z.diskBytes == s.diskBytes && z.closed == s.closed
            && (forall t :: t in ts ==> Offered(s, z, t))
            && (forall t :: t !in ts ==> Untouched(s, z, t))
    decreases |ts|
  {
    hide FansOut, Apply, Enabled, Offered, Untouched;
    FirstIsNotLater(s, ts);
    if ts == [] {
      forall t ensures Untouched(s, s, t) { UntouchedHere(s, t); }
    } else {
      FansOutRest(w, s, ts);
      var s1 := Apply(w, s, FanOut(ts[0]));
      OneFanOut(w, s, ts[0]);
      FanOutInAnyOrder(w, s1, ts[1..]);
      var z := FanAll(w, s, ts);
      forall t | t in ts ensures Offered(s, z, t) {
        if t == ts[0] { OfferedFirst(s, s1, z, t); } else { OfferedLater(s, s1, z, t); }
      }
      forall t | t !in ts ensures Untouched(s, z, t) {
        UntouchedTwice(s, s1, z, t);
      }
    }
  }

  lemma UntouchedHere(s: State, t: Conn)
    requires s.rec.FanningOut?
    ensures Untouched(s, s, t)
  {
  }

  lemma OfferedFirst(s: State, s1: State, z: State, t: Conn)
    requires s.rec.FanningOut? && s1.rec.FanningOut? && z.rec.FanningOut? && t in s.tailers
    requires Offered(s, s1, t) && Untouched(s1, z, t)
    ensures Offered(s, z, t)
  {
  }

  lemma OfferedLater(s: State, s1: State, z: State, t: Conn)
    requires s.rec.FanningOut? && s1.rec.FanningOut? && z.rec.FanningOut? && t in s.tailers && t in s1.tailers
    requires Untouched(s, s1, t) && Offered(s1, z, t) && s1.rec.chunk == s.rec.chunk
    ensures Offered(s, z, t)
  {
  }

  lemma UntouchedTwice(s: State, s1: State, z: State, t: Conn)
    requires s.rec.FanningOut? && s1.rec.FanningOut? && z.rec.FanningOut?
    requires Untouched(s, s1, t) && Untouched(s1, z, t)
    ensures Untouched(s, z, t)
  {
  }

  lemma FirstIsNotLater(s: State, ts: seq<Conn>)
    requires FansOut(s, ts)
    ensures s.rec.FanningOut? && forall t :: t in ts ==> t in s.tailers
    ensures ts != [] ==> ts[0] in s.subs && ts == [ts[0]] + ts[1..] && ts[0] !in ts[1..]
  {
  }

  lemma OneFanOut(w: World, s: State, t: Conn)
    requires Enabled(w, s, FanOut(t)) && t in s.subs
    ensures var z := Apply(w, s, FanOut(t));
            && z.rec.FanningOut? && z.rec.chunk == s.rec.chunk && z.stream == s.stream && z.diskBytes == s.diskBytes && z.closed == s.closed
            && Offered(s, z, t) && forall u :: u != t ==> Untouched(s, z, u)
  {
  }

  // ----------------------------------------------------- close() terminates

  /** Bound on the steps left to a tailer whose channel and connection are closed. */
  function StepsLeft(x: Tailer): nat {
    16 * |x.queue| +
    match x.phase
    case Sending(_, _) => 10
    case Opening => 6
    case Replaying(_, _) => 5
    case Draining => 4
    case Removing => 3
    case Dropping => 3
    case Discarding => 2
    case DropDiscarding => 2
    case DropEnding => 1
    case Finished => 0
  }

  predicate WaitsOn(s: State, t: Conn) {
    s.rec.Waiting? && s.rec.on == t
  }

  predicate OwnStep(step: Step, t: Conn) {
    TailerStep(step) && step.t == t
  }

  lemma OwnStepCounts(w: World, s: State, step: Step, t: Conn)
    requires Sane(w) && Inv(w, s) && Enabled(w, s, step)
    requires WaitsOn(s, t) && OwnStep(step, t)
    ensures StepsLeft(Apply(w, s, step).tailers[t]) < StepsLeft(s.tailers[t])
  {
    hide Ideal, FrameAAD, StreamFile, OpenCast, Logged, FileOk;
    assert TailerOk(s.stream, s.tailers[t], t in s.subs, Pending(s.rec, t));
    hide TailerOk;
  }

  lemma OthersDoNotInterfere(w: World, s: State, step: Step, t: Conn)
    requires Sane(w) && Inv(w, s) && Enabled(w, s, step)
    requires WaitsOn(s, t) && !OwnStep(step, t)
    ensures t in Apply(w, s, step).tailers && Apply(w, s, step).tailers[t] == s.tailers[t]
  {
    hide Ideal, FrameAAD, StreamFile, OpenCast, Logged, FileOk, TailerOk, TailerNext;
  }

  /** Until it has closed `done`, the tailer being waited for always has a step to take. */
  lemma OwnStepEnabled(w: World, s: State, t: Conn)
    requires Sane(w) && Inv(w, s) && WaitsOn(s, t)
    ensures s.tailers[t].done || exists step :: OwnStep(step, t) && Enabled(w, s, step)
  {
    hide Ideal, FrameAAD, FrameBytes, StreamFile, OpenCast, Logged, FileOk, Flow, Coming, Owed, Replays;
    var x := s.tailers[t];
    assert TailerOk(s.stream, x, t in s.subs, Pending(s.rec, t));
    if !x.done {
      var step :=
        match x.phase
        case Opening => OpenFails(t)
        case Replaying(_, _) => ReplayFails(t)
        case Draining => if x.queue == [] then DrainEnd(t) else Receive(t)
        case Sending(_, _) => SendFails(t)
        case Removing => Remove(t)
        case Discarding => if x.queue == [] then DiscardEnd(t) else Discard(t)
        case Dropping => DropRemove(t)
        case DropDiscarding => if x.queue == [] then DropDiscardEnd(t) else DropDiscard(t)
        case DropEnding => DropEnd(t)
        case Finished => DropEnd(t);
      assert OwnStep(step, t) && Enabled(w, s, step);
    }
  }

  function OwnSteps(steps: seq<Step>, t: Conn): nat {
    if steps == [] then 0
    else OwnSteps(steps[..|steps| - 1], t) + (if OwnStep(steps[|steps| - 1], t) then 1 else 0)
  }

  /**
   The wait in close() ends. While the recorder waits on t, whatever the others do, t takes at most
   StepsLeft steps, each of them brings it nearer its end, and until it gets there it can take one. So a
   tailer that keeps being scheduled closes `done`, and the wait is over.
   */
  lemma {:induction false} CloseWaitEnds(w: World, states: seq<State>, steps: seq<Step>, t: Conn)
    requires Sane(w) && IsRun(w, states, steps) && Inv(w, states[0])
    requires forall i :: 0 <= i < |states| ==> WaitsOn(states[i], t)
    ensures forall i :: 0 <= i < |states| ==> t in states[i].tailers
    ensures var last := states[|steps|];
            && Inv(w, last)
            && OwnSteps(steps, t) + StepsLeft(last.tailers[t]) <= StepsLeft(states[0].tailers[t])
            && (last.tailers[t].done || exists step :: OwnStep(step, t) && Enabled(w, last, step))
            && (last.tailers[t].done ==> Enabled(w, last, JoinDone))
    decreases |steps|
  {
    hide Inv, Apply, Sane;
    var n := |steps|;
    if n > 0 {
      var before, after := states[..n], steps[..n - 1];
      assert IsRun(w, before, after) by {
        forall i | 0 <= i < n - 1 ensures Follows(w, before[i], after[i], before[i + 1]) {
          assert Follows(w, states[i], steps[i], states[i + 1]);
        }
      }
      CloseWaitEnds(w, before, after, t);
      assert Follows(w, states[n - 1], steps[n - 1], states[n]);
      StepInv(w, states[n - 1], steps[n - 1]);
      if OwnStep(steps[n - 1], t) {
        OwnStepCounts(w, states[n - 1], steps[n - 1], t);
      } else {
        OthersDoNotInterfere(w, states[n - 1], steps[n - 1], t);
      }
    }
    WaitedIsKnown(w, states[n], t);
    OwnStepEnabled(w, states[n], t);
  }

  lemma WaitedIsKnown(w: World, s: State, t: Conn)
    requires Inv(w, s) && WaitsOn(s, t)
    ensures t in s.tailers
  {
  }
}
