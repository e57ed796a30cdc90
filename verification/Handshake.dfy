/** The REC handshake: handlers and recorders side by side, slots counted, sessions registered before they are acknowledged. */
module Handshake {
  import opened Common
  import opened Registry

  const OK := "OK\n"

  // ----------------------------------------------------------- recorder's side

  datatype Sink = Central | LocalFile

  /** What the recorder's system calls give: each may fail, and a read may end short. */
  datatype Link = Link(dialed: bool, writeDeadline: bool, wrote: bool, readDeadline: bool, received: string)

  /** The acknowledgement: three bytes read in full, the first two of them OK. */
  predicate Acknowledged(received: string) {
    |received| >= 3 && received[..2] == "OK"
  }

  method RecHandshake(link: Link) returns (central: bool)
    ensures central ==> Acknowledged(link.received)
    ensures central <==> link.writeDeadline && link.wrote && link.readDeadline && Acknowledged(link.received)
  {
    if !link.writeDeadline { return false; }
    if !link.wrote { return false; }
    if !link.readDeadline { return false; }
    if |link.received| < 3 { return false; }
    var ack := link.received[..3];
    assert ack[..2] == link.received[..2];
    return ack[..2] == "OK";
  }

  /** A named output file, or any trouble with the daemon, means a local file. */
  method OpenSink(out: string, link: Link) returns (sink: Sink)
    ensures sink.Central? <==> out == "" && link == Link(true, true, true, true, link.received) && Acknowledged(link.received)
  {
    if out == "" {
      if link.dialed {
        var ok := RecHandshake(link);
        if ok { return Central; }
      }
    }
    return LocalFile;
  }

  /** Nothing that starts with ERR, or stops before three bytes, is an acknowledgement. */
  lemma OnlyOkAcknowledges(text: string, received: string)
    requires received <= text && (text == OK || "ERR" <= text)
    ensures Acknowledged(received) <==> text == OK && received == OK
  {
    if Acknowledged(received) {
      assert received == text[..|received|];
      assert received[0] == received[..2][0] == 'O' && text[0] == 'O';
    }
  }

  // ------------------------------------------------------------- daemon's side

  /** Where a handler of a REC connection is. */
  datatype Stage = Fresh | Slot | Opened | Live | Acked | Unwound | Gone

  /** `sent` is what has reached the recorder's end; okLive, that an acknowledgement left while the session was live. */
  datatype Handler = Handler(uid: nat, stage: Stage, id: string, sent: string, okLive: bool)

  datatype System = System(
    table: Table<nat>,          // live sessions, each by its handler
    handlers: seq<Handler>,
    sinks: seq<Option<Sink>>,   // what the recorder at the other end has chosen
    files: set<(nat, string)>)  // session files that exist, by user and id

  datatype Event =
    | Connect(uid: nat)
    | TakeSlot(i: nat, reach: nat)
    | GiveUp(i: nat)                            // directory or stream header cannot be made
    | OpenFile(i: nat, id: string, works: bool, reach: nat)
    | Register(i: nat, reach: nat)
    | Acknowledge(i: nat, reach: nat)
    | EndSession(i: nat)
    | GiveBack(i: nat)
    | ChangeCap(cap: int)
    | Read(i: nat)
    | TimeOut(i: nat)

  predicate HasSlot(h: Handler) {
    h.stage != Fresh && h.stage != Gone
  }

  predicate HasSession(h: Handler) {
    h.stage == Live || h.stage == Acked
  }

  /** A write reaches the other end as far as the connection lasts. */
  function Say(h: Handler, text: string, reach: nat): (r: Handler)
    ensures r == h.(sent := r.sent) && r.sent <= text
  {
    h.(sent := if reach < |text| then text[..reach] else text)
  }

  predicate Enabled(s: System, e: Event) {
    match e
    case Connect(_) => true
    case ChangeCap(_) => true
    case TakeSlot(i, _) => i < |s.handlers| && s.handlers[i].stage == Fresh
    case GiveUp(i) => i < |s.handlers| && (s.handlers[i].stage == Slot || s.handlers[i].stage == Opened)
    case OpenFile(i, id, works, _) =>
      i < |s.handlers| && s.handlers[i].stage == Slot && (works ==> (s.handlers[i].uid, id) !in s.files)
    case Register(i, _) => i < |s.handlers| && s.handlers[i].stage == Opened
    case Acknowledge(i, _) => i < |s.handlers| && s.handlers[i].stage == Live
    case EndSession(i) => i < |s.handlers| && HasSession(s.handlers[i])
    case GiveBack(i) => i < |s.handlers| && s.handlers[i].stage == Unwound
    case Read(i) => i < |s.handlers| == |s.sinks| && s.sinks[i] == None && |s.handlers[i].sent| >= 3
    case TimeOut(i) => i < |s.sinks| && s.sinks[i] == None
  }

  function Put(s: System, i: nat, h: Handler): System
    requires i < |s.handlers|
  {
    s.(handlers := s.handlers[i := h])
  }

  function Step(s: System, e: Event): System
    requires Enabled(s, e)
  {
    match e
    case Connect(uid) =>
      s.(handlers := s.handlers + [Handler(uid, Fresh, "", "", false)], sinks := s.sinks + [None])
    case ChangeCap(cap) => s.(table := s.table.(cap := cap))
    case TakeSlot(i, reach) =>
      var h := s.handlers[i];
      if CountOf(s.table, h.uid) >= s.table.cap then Put(s, i, Say(h, "ERR too many sessions\n", reach).(stage := Gone))
      else Put(s.(table := Reserved(s.table, h.uid)), i, h.(stage := Slot))
    case GiveUp(i) => Put(s, i, s.handlers[i].(stage := Unwound))
    case OpenFile(i, id, works, reach) =>
      var h := s.handlers[i];
      if works then Put(s.(files := s.files + {(h.uid, id)}), i, h.(stage := Opened, id := id))
      else Put(s, i, Say(h, "ERR session file unavailable\n", reach).(stage := Unwound))
    case Register(i, reach) =>
      var h := s.handlers[i];
      if h.id in s.table.live then
        Put(s.(files := s.files - {(h.uid, h.id)}), i, Say(h, "ERR session id collision\n", reach).(stage := Unwound))
      else Put(s.(table := Added(s.table, h.id, i)), i, h.(stage := Live))
    case Acknowledge(i, reach) => Put(s, i, Say(s.handlers[i], OK, reach).(stage := Acked, okLive := true))
    case EndSession(i) =>
      Put(s.(table := Removed(s.table, s.handlers[i].id)), i, s.handlers[i].(stage := Unwound))
    case GiveBack(i) =>
      Put(s.(table := Released(s.table, s.handlers[i].uid)), i, s.handlers[i].(stage := Gone))
    case Read(i) => s.(sinks := s.sinks[i := Some(if Acknowledged(s.handlers[i].sent) then Central else LocalFile)])
    case TimeOut(i) => s.(sinks := s.sinks[i := Some(LocalFile)])
  }

  // ---------------------------------------------------------------- invariant

  function Holding(hs: seq<Handler>, uid: nat): nat {
    if hs == [] then 0
    else
      var last := hs[|hs| - 1];
      Holding(hs[..|hs| - 1], uid) + if last.uid == uid && HasSlot(last) then 1 else 0
  }

  function Has(h: Handler, uid: nat): int {
    if h.uid == uid && HasSlot(h) then 1 else 0
  }

  lemma {:induction false} HoldingUpdate(hs: seq<Handler>, i: nat, h: Handler, uid: nat)
    requires i < |hs|
    ensures Holding(hs[i := h], uid) == Holding(hs, uid) - Has(hs[i], uid) + Has(h, uid)
    decreases |hs|
  {
    if i < |hs| - 1 {
      HoldingUpdate(hs[..|hs| - 1], i, h, uid);
      assert hs[i := h][..|hs| - 1] == hs[..|hs| - 1][i := h];
    } else {
      assert hs[i := h][..|hs| - 1] == hs[..|hs| - 1];
    }
  }

  lemma HoldingSnoc(hs: seq<Handler>, h: Handler, uid: nat)
    ensures Holding(hs + [h], uid) == Holding(hs, uid) + Has(h, uid)
  {
    assert (hs + [h])[..|hs|] == hs;
  }

  /** Each count is the number of handlers between taking a slot and giving it back, and none is zero. */
  ghost predicate SlotsCounted(s: System) {
    NoZeros(s.table) && forall uid :: CountOf(s.table, uid) == Holding(s.handlers, uid)
  }

  /** The live sessions are those of the handlers that have registered and not ended, each under its own id. */
  ghost predicate SessionsOwned(s: System) {
    && (forall id :: id in s.table.live ==> s.table.live[id] < |s.handlers|)
    && (forall id :: id in s.table.live ==>
      HasSession(s.handlers[s.table.live[id]]) && s.handlers[s.table.live[id]].id == id)
    && (forall i :: 0 <= i < |s.handlers| && HasSession(s.handlers[i]) ==>
      s.handlers[i].id in s.table.live && s.table.live[s.handlers[i].id] == i)
  }

  /** What a recorder can have received: the start of an acknowledgement made while live, or of an ERR line. */
  predicate Honest(h: Handler) {
    || h.sent == ""
    || (h.okLive && h.sent <= OK)
    || (h.sent[0] == 'E')
  }

  ghost predicate AllHonest(s: System) {
    && |s.sinks| == |s.handlers|
    && (forall i :: 0 <= i < |s.handlers| ==> Honest(s.handlers[i]))
    && (forall i :: 0 <= i < |s.handlers| && !s.handlers[i].stage.Unwound? && !s.handlers[i].stage.Gone? && !s.handlers[i].stage.Acked? ==>
      s.handlers[i].sent == "" && !s.handlers[i].okLive)
    && (forall i :: 0 <= i < |s.handlers| && s.sinks[i] == Some(Central) ==> s.handlers[i].okLive)
  }

  predicate HasFile(h: Handler) {
    h.stage == Opened || HasSession(h)
  }

  /** Every opened session has its file, and no two share one: a collision never removes a running session's file. */
  ghost predicate FilesOwned(s: System) {
    && (forall i :: 0 <= i < |s.handlers| && HasFile(s.handlers[i]) ==> (s.handlers[i].uid, s.handlers[i].id) in s.files)
    && (forall i, j :: 0 <= i < j < |s.handlers| && HasFile(s.handlers[i]) && HasFile(s.handlers[j]) ==>
      (s.handlers[i].uid, s.handlers[i].id) != (s.handlers[j].uid, s.handlers[j].id))
  }

  ghost predicate Inv(s: System) {
    SlotsCounted(s) && SessionsOwned(s) && FilesOwned(s) && AllHonest(s)
  }

  lemma SlotCounts(t: Table<nat>, uid: nat)
    requires NoZeros(t)
    ensures NoZeros(Reserved(t, uid)) && NoZeros(Released(t, uid))
    ensures forall u :: CountOf(Reserved(t, uid), u) == CountOf(t, u) + if u == uid && CountOf(t, uid) < t.cap then 1 else 0
    ensures forall u :: CountOf(Released(t, uid), u) == if u == uid && CountOf(t, u) > 0 then CountOf(t, u) - 1 else CountOf(t, u)
  {
    ReserveRelease(t, uid);
  }

  lemma SlotsAfter(s: System, s': System, i: nat)
    requires SlotsCounted(s) && i < |s.handlers| == |s'.handlers| && s'.handlers == s.handlers[i := s'.handlers[i]]
    requires NoZeros(s'.table)
    requires forall u :: CountOf(s'.table, u) == CountOf(s.table, u) - Has(s.handlers[i], u) + Has(s'.handlers[i], u)
    ensures SlotsCounted(s')
  {
    hide CountOf, Holding;
    forall u ensures CountOf(s'.table, u) == Holding(s'.handlers, u) {
      HoldingUpdate(s.handlers, i, s'.handlers[i], u);
    }
  }

  lemma SlotGivenBack(s: System, i: nat)
    requires SlotsCounted(s) && i < |s.handlers| && HasSlot(s.handlers[i])
    ensures CountOf(s.table, s.handlers[i].uid) > 0
  {
    hide CountOf, Holding;
    var h := s.handlers[i];
    HoldingUpdate(s.handlers, i, h.(stage := Gone), h.uid);
  }

  lemma StepSlots(s: System, e: Event)
    requires SlotsCounted(s) && Enabled(s, e)
    ensures SlotsCounted(Step(s, e))
  {
    hide Say, Acknowledged, Reserved, Released, Added, Removed, CountOf, Holding, SlotsCounted;
    match e {
      case Connect(uid) => ConnectSlots(s, uid);
      case ChangeCap(cap) => CapSlots(s, cap);
      case Read(_) => SameSlots(s, Step(s, e));
      case TimeOut(_) => SameSlots(s, Step(s, e));
      case TakeSlot(i, _) => TakeSlots(s, e);
      case GiveBack(i) => GiveSlots(s, i);
      case GiveUp(i) => OtherSlots(s, e, i);
      case OpenFile(i, _, _, _) => OtherSlots(s, e, i);
      case Register(i, _) => OtherSlots(s, e, i);
      case Acknowledge(i, _) => OtherSlots(s, e, i);
      case EndSession(i) => OtherSlots(s, e, i);
    }
  }

  lemma SameSlots(s: System, s': System)
    requires SlotsCounted(s) && s'.table == s.table && s'.handlers == s.handlers
    ensures SlotsCounted(s')
  {
  }

  lemma CapSlots(s: System, cap: int)
    requires SlotsCounted(s)
    ensures SlotsCounted(s.(table := s.table.(cap := cap)))
  {
    forall u ensures CountOf(s.table.(cap := cap), u) == CountOf(s.table, u) {
    }
  }

  lemma ConnectSlots(s: System, uid: nat)
    requires SlotsCounted(s)
    ensures SlotsCounted(Step(s, Connect(uid)))
  {
    hide CountOf, Holding;
    forall u ensures CountOf(s.table, u) == Holding(s.handlers + [Handler(uid, Fresh, "", "", false)], u) {
      HoldingSnoc(s.handlers, Handler(uid, Fresh, "", "", false), u);
    }
  }

  lemma TakeSlots(s: System, e: Event)
    requires SlotsCounted(s) && Enabled(s, e) && e.TakeSlot?
    ensures SlotsCounted(Step(s, e))
  {
    hide Say, Acknowledged, Reserved, Released, Added, Removed, CountOf, Holding;
    SlotCounts(s.table, s.handlers[e.i].uid);
    SlotsAfter(s, Step(s, e), e.i);
  }

  lemma GiveSlots(s: System, i: nat)
    requires SlotsCounted(s) && Enabled(s, GiveBack(i))
    ensures SlotsCounted(Step(s, GiveBack(i)))
  {
    hide Say, Acknowledged, Reserved, Released, Added, Removed, CountOf, Holding;
    SlotCounts(s.table, s.handlers[i].uid);
    SlotGivenBack(s, i);
    SlotsAfter(s, Step(s, GiveBack(i)), i);
  }

  lemma OtherSlots(s: System, e: Event, i: nat)
    requires SlotsCounted(s) && Enabled(s, e) && i < |s.handlers|
    requires e.GiveUp? || e.OpenFile? || e.Register? || e.Acknowledge? || e.EndSession?
    requires i == e.i
    ensures SlotsCounted(Step(s, e))
  {
    hide Say, Acknowledged, Reserved, Released, Added, Removed, CountOf, Holding;
    SlotCounts(s.table, s.handlers[i].uid);
    var s' := Step(s, e);
    SameCounts(s.table, s'.table);
    SlotsAfter(s, s', i);
  }

  lemma SameCounts(t: Table<nat>, t': Table<nat>)
    requires t'.count == t.count
    ensures NoZeros(t) ==> NoZeros(t')
    ensures forall u :: CountOf(t', u) == CountOf(t, u)
  {
  }

  /** A step by a handler that neither gains nor loses a session leaves the live sessions to their owners. */
  lemma SessionsAfter(s: System, s': System, i: nat)
    requires SessionsOwned(s) && i < |s.handlers| == |s'.handlers| && s'.handlers == s.handlers[i := s'.handlers[i]]
    requires s'.table.live == s.table.live && HasSession(s.handlers[i]) == HasSession(s'.handlers[i])
    requires HasSession(s.handlers[i]) ==> s'.handlers[i].id == s.handlers[i].id
    ensures SessionsOwned(s')
  {
  }

  lemma StepSessions(s: System, e: Event)
    requires SessionsOwned(s) && Enabled(s, e)
    ensures SessionsOwned(Step(s, e))
  {
    hide Reserved, Released, CountOf, Say, Acknowledged, SessionsOwned;
    match e {
      case Connect(uid) => ConnectSessions(s, uid);
      case ChangeCap(_) => SameSessions(s, Step(s, e));
      case Read(_) => SameSessions(s, Step(s, e));
      case TimeOut(_) => SameSessions(s, Step(s, e));
      case EndSession(i) => EndSessions(s, i);
      case Register(i, reach) => RegisterSessions(s, i, reach);
      case TakeSlot(i, _) => SessionsAfter(s, Step(s, e), i);
      case GiveBack(i) => SessionsAfter(s, Step(s, e), i);
      case GiveUp(i) => SessionsAfter(s, Step(s, e), i);
      case OpenFile(i, _, _, _) => SessionsAfter(s, Step(s, e), i);
      case Acknowledge(i, _) => SessionsAfter(s, Step(s, e), i);
    }
  }

  lemma SameSessions(s: System, s': System)
    requires SessionsOwned(s) && s'.table.live == s.table.live && s'.handlers == s.handlers
    ensures SessionsOwned(s')
  {
  }

  lemma ConnectSessions(s: System, uid: nat)
    requires SessionsOwned(s)
    ensures SessionsOwned(Step(s, Connect(uid)))
  {
  }

  lemma EndSessions(s: System, i: nat)
    requires SessionsOwned(s) && Enabled(s, EndSession(i))
    ensures SessionsOwned(Step(s, EndSession(i)))
  {
  }

  lemma RegisterSessions(s: System, i: nat, reach: nat)
    requires SessionsOwned(s) && Enabled(s, Register(i, reach))
    ensures SessionsOwned(Step(s, Register(i, reach)))
  {
    hide Say;
    if s.handlers[i].id in s.table.live {
      SessionsAfter(s, Step(s, Register(i, reach)), i);
    }
  }

  lemma FilesAfter(s: System, s': System, i: nat)
    requires FilesOwned(s) && i < |s.handlers| == |s'.handlers| && s'.handlers == s.handlers[i := s'.handlers[i]]
    requires HasFile(s'.handlers[i]) ==> HasFile(s.handlers[i]) && s'.handlers[i].id == s.handlers[i].id && s'.handlers[i].uid == s.handlers[i].uid
    requires s'.files == s.files || (!HasFile(s'.handlers[i]) && HasFile(s.handlers[i]) && s'.files == s.files - {(s.handlers[i].uid, s.handlers[i].id)})
    ensures FilesOwned(s')
  {
  }

  lemma OpenFiles(s: System, i: nat, id: string, reach: nat)
    requires FilesOwned(s) && Enabled(s, OpenFile(i, id, true, reach))
    ensures FilesOwned(Step(s, OpenFile(i, id, true, reach)))
  {
    hide Say;
  }

  lemma ConnectFiles(s: System, uid: nat)
    requires FilesOwned(s)
    ensures FilesOwned(Step(s, Connect(uid)))
  {
  }

  lemma SameFiles(s: System, s': System)
    requires FilesOwned(s) && s'.files == s.files && s'.handlers == s.handlers
    ensures FilesOwned(s')
  {
  }

  lemma StepFiles(s: System, e: Event)
    requires FilesOwned(s) && Enabled(s, e)
    ensures FilesOwned(Step(s, e))
  {
    hide Reserved, Released, Added, Removed, CountOf, Say, Acknowledged, FilesOwned;
    match e {
      case Connect(uid) => ConnectFiles(s, uid);
      case ChangeCap(_) => SameFiles(s, Step(s, e));
      case Read(_) => SameFiles(s, Step(s, e));
      case TimeOut(_) => SameFiles(s, Step(s, e));
      case OpenFile(i, id, works, reach) => if works { OpenFiles(s, i, id, reach); } else { FilesAfter(s, Step(s, e), i); }
      case EndSession(i) => FilesAfter(s, Step(s, e), i);
      case Register(i, _) => FilesAfter(s, Step(s, e), i);
      case TakeSlot(i, _) => FilesAfter(s, Step(s, e), i);
      case GiveBack(i) => FilesAfter(s, Step(s, e), i);
      case GiveUp(i) => FilesAfter(s, Step(s, e), i);
      case Acknowledge(i, _) => FilesAfter(s, Step(s, e), i);
    }
  }

  lemma StepHonest(s: System, e: Event)
    requires AllHonest(s) && Enabled(s, e)
    ensures AllHonest(Step(s, e))
  {
    hide Reserved, Released, CountOf, Say, Added, Removed;
    if e.Read? && Acknowledged(s.handlers[e.i].sent) {
      assert s.handlers[e.i].sent[0] == s.handlers[e.i].sent[..2][0] == 'O';
    }
  }

  predicate Possible(s: System, es: seq<Event>)
    decreases |es|
  {
    es == [] || (Enabled(s, es[0]) && Possible(Step(s, es[0]), es[1..]))
  }

  function Run(s: System, es: seq<Event>): System
    requires Possible(s, es)
    decreases |es|
  {
    if es == [] then s else Run(Step(s, es[0]), es[1..])
  }

  function Start(cap: int): System {
    System(Table(map[], map[], cap), [], [], {})
  }

  lemma {:induction false} RunInv(s: System, es: seq<Event>)
    requires Inv(s) && Possible(s, es)
    ensures Inv(Run(s, es))
    decreases |es|
  {
    hide Step, Enabled, Inv;
    if es != [] {
      StepInv(s, es[0]);
      RunInv(Step(s, es[0]), es[1..]);
    }
  }

  // ------------------------------------------------------------------ theorems

  /** In every run: counts are exact, without zero entries, and live ids are exactly the running sessions'. */
  lemma EveryRun(cap: int, es: seq<Event>)
    requires Possible(Start(cap), es)
    ensures var s := Run(Start(cap), es);
            && (forall uid :: CountOf(s.table, uid) == Holding(s.handlers, uid))
            && (forall uid :: uid in s.table.count ==> s.table.count[uid] > 0)
            && SessionsOwned(s) && FilesOwned(s)
  {
    RunInv(Start(cap), es);
  }

  /** A recorder that streams to the daemon was acknowledged by a handler whose session was open and registered. */
  lemma CentralMeansRegistered(cap: int, es: seq<Event>, i: nat)
    requires Possible(Start(cap), es) && i < |Run(Start(cap), es).sinks|
    requires Run(Start(cap), es).sinks[i] == Some(Central)
    ensures exists n :: 0 <= n < |es| && AcknowledgedLive(Start(cap), es, n, i)
  {
    RunInv(Start(cap), es);
    OkLiveHasCause(Start(cap), es, i);
  }

  /** Event n is handler i's acknowledgement, sent while its session was live under its id. */
  ghost predicate AcknowledgedLive(s: System, es: seq<Event>, n: nat, i: nat)
    requires n < |es|
    decreases n
  {
    if n > 0 then es != [] && Enabled(s, es[0]) && AcknowledgedLive(Step(s, es[0]), es[1..], n - 1, i)
    else AckNow(s, es[0], i)
  }

  predicate AckNow(s: System, e: Event, i: nat) {
    && e.Acknowledge? && e.i == i < |s.handlers|
    && var id := s.handlers[i].id; id in s.table.live && s.table.live[id] == i && (s.handlers[i].uid, id) in s.files
  }

  lemma {:induction false} OkLiveHasCause(s: System, es: seq<Event>, i: nat)
    requires Inv(s) && Possible(s, es) && i < |Run(s, es).handlers| && Run(s, es).handlers[i].okLive
    ensures (i < |s.handlers| && s.handlers[i].okLive) || exists n :: 0 <= n < |es| && AcknowledgedLive(s, es, n, i)
    decreases |es|
  {
    hide Step, Enabled, Inv;
    if es != [] {
      var s' := Step(s, es[0]);
      StepInv(s, es[0]);
      OkLiveHasCause(s', es[1..], i);
      if i < |s'.handlers| && s'.handlers[i].okLive {
        OkLiveStep(s, es[0], i);
        if AckNow(s, es[0], i) {
          var n := 0;
          assert AcknowledgedLive(s, es, n, i);
        }
      } else {
        var n :| 0 <= n < |es[1..]| && AcknowledgedLive(s', es[1..], n, i);
        assert AcknowledgedLive(s, es, n + 1, i);
      }
    }
  }

  lemma StepInv(s: System, e: Event)
    requires Inv(s) && Enabled(s, e)
    ensures Inv(Step(s, e))
  {
    hide Step, Enabled;
    StepSlots(s, e);
    StepSessions(s, e);
    StepFiles(s, e);
    StepHonest(s, e);
  }

  lemma OkLiveStep(s: System, e: Event, i: nat)
    requires Inv(s) && Enabled(s, e) && i < |Step(s, e).handlers| && Step(s, e).handlers[i].okLive
    ensures (i < |s.handlers| && s.handlers[i].okLive) || AckNow(s, e, i)
  {
    hide Reserved, Released, CountOf, Say, Acknowledged, Added, Removed, SlotsCounted, AllHonest;
  }

  /** A count only goes up from below the cap, and only an id's own handler takes it off the table. */
  lemma StepRespectsCapAndIds(s: System, e: Event)
    requires Inv(s) && Enabled(s, e)
    ensures forall uid :: CountOf(Step(s, e).table, uid) > CountOf(s.table, uid) ==> CountOf(s.table, uid) < s.table.cap
    ensures forall id :: id in s.table.live && !(e.EndSession? && e.i == s.table.live[id]) ==>
              id in Step(s, e).table.live && Step(s, e).table.live[id] == s.table.live[id]
  {
    hide Say, Acknowledged, Reserved, Released;
    if e.GiveBack? || e.TakeSlot? { SlotCounts(s.table, s.handlers[e.i].uid); }
  }

  // ---------------------------------------------------------------- whole visits

  lemma RunFirst(s: System, e: Event, es: seq<Event>)
    requires Enabled(s, e) && Possible(Step(s, e), es)
    ensures Possible(s, [e] + es) && Run(s, [e] + es) == Run(Step(s, e), es)
  {
    hide Enabled, Step;
    assert ([e] + es)[1..] == es;
  }

  lemma RunNone(s: System)
    ensures Possible(s, []) && Run(s, []) == s
  {
  }

  /** s but for handler i and the table and files. */
  function With(s: System, i: nat, h: Handler, table: Table<nat>, files: set<(nat, string)>): System
    requires i < |s.handlers|
  {
    System(table, s.handlers[i := h], s.sinks, files)
  }

  /** Below the cap, with a new id and nothing failing, a handler opens, registers and acknowledges its session... */
  lemma SessionStarts(s: System, i: nat, id: string, reach: nat)
    requires i < |s.handlers| && s.handlers[i].stage.Fresh?
    requires CountOf(s.table, s.handlers[i].uid) < s.table.cap && id !in s.table.live && (s.handlers[i].uid, id) !in s.files
    ensures var uid := s.handlers[i].uid;
            var es := [TakeSlot(i, reach), OpenFile(i, id, true, reach), Register(i, reach), Acknowledge(i, reach)];
            && Possible(s, es)
            && Run(s, es) == With(s, i, Handler(uid, Acked, id, if reach >= 3 then "OK\n" else "OK\n"[..reach], true),
              Table(s.table.live[id := i], s.table.count[uid := CountOf(s.table, uid) + 1], s.table.cap), s.files + {(uid, id)})
  {
    var a := Step(s, TakeSlot(i, reach));
    var b := Step(a, OpenFile(i, id, true, reach));
    var c := Step(b, Register(i, reach));
    var d := Step(c, Acknowledge(i, reach));
    RunNone(d);
    RunFirst(c, Acknowledge(i, reach), []);
    RunFirst(b, Register(i, reach), [Acknowledge(i, reach)]);
    RunFirst(a, OpenFile(i, id, true, reach), [Register(i, reach), Acknowledge(i, reach)]);
    RunFirst(s, TakeSlot(i, reach), [OpenFile(i, id, true, reach), Register(i, reach), Acknowledge(i, reach)]);
  }

  lemma {:induction false} RunAppend(s: System, es: seq<Event>, more: seq<Event>)
    requires Possible(s, es) && Possible(Run(s, es), more)
    ensures Possible(s, es + more) && Run(s, es + more) == Run(Run(s, es), more)
    decreases |es|
  {
    hide Enabled, Step;
    if es == [] {
      assert es + more == more;
    } else {
      assert (es + more)[1..] == es[1..] + more;
      RunAppend(Step(s, es[0]), es[1..], more);
    }
  }

  lemma SessionEnds(s: System, i: nat)
    requires i < |s.handlers| && s.handlers[i].stage.Acked?
    ensures Possible(s, [EndSession(i), GiveBack(i)])
    ensures Run(s, [EndSession(i), GiveBack(i)]) == With(s, i, s.handlers[i].(stage := Gone),
      Released(Removed(s.table, s.handlers[i].id), s.handlers[i].uid), s.files)
  {
    hide Released, Removed;
    var a := Step(s, EndSession(i));
    RunNone(Step(a, GiveBack(i)));
    RunFirst(a, GiveBack(i), []);
    RunFirst(s, EndSession(i), [GiveBack(i)]);
  }

  /** ... and at its end gives id and slot back: the table is as it was, and the recording stays. */
  lemma SessionLeavesTable(s: System, i: nat, id: string, reach: nat)
    requires NoZeros(s.table) && i < |s.handlers| && s.handlers[i].stage.Fresh?
    requires CountOf(s.table, s.handlers[i].uid) < s.table.cap && id !in s.table.live && (s.handlers[i].uid, id) !in s.files
    ensures var es := [TakeSlot(i, reach), OpenFile(i, id, true, reach), Register(i, reach), Acknowledge(i, reach), EndSession(i), GiveBack(i)];
            && Possible(s, es)
            && |Run(s, es).handlers| == |s.handlers| && Run(s, es).handlers[i].stage == Gone
            && Run(s, es).table == s.table && Run(s, es).files == s.files + {(s.handlers[i].uid, id)}
  {
    hide Possible, Run, Reserved, Released, Removed, Added, CountOf, NoZeros;
    var uid := s.handlers[i].uid;
    var es := [TakeSlot(i, reach), OpenFile(i, id, true, reach), Register(i, reach), Acknowledge(i, reach)];
    SessionStarts(s, i, id, reach);
    SessionEnds(Run(s, es), i);
    RunAppend(s, es, [EndSession(i), GiveBack(i)]);
    assert es + [EndSession(i), GiveBack(i)]
        == [TakeSlot(i, reach), OpenFile(i, id, true, reach), Register(i, reach), Acknowledge(i, reach), EndSession(i), GiveBack(i)];
    ReserveRelease(s.table, uid);
    SlotTaken(s.table, uid);
    IdTaken(Reserved(s.table, uid), id, i);
    TableBack(s.table, uid, id, i);
  }

  lemma IdTaken(t: Table<nat>, id: string, i: nat)
    requires id !in t.live
    ensures Added(t, id, i) == t.(live := t.live[id := i])
  {
  }

  lemma TableBack(t: Table<nat>, uid: nat, id: string, i: nat)
    requires id !in t.live && Released(Reserved(t, uid), uid) == t
    ensures Released(Removed(Added(Reserved(t, uid), id, i), id), uid) == t
  {
    assert t.live[id := i] - {id} == t.live;
    assert Removed(Added(Reserved(t, uid), id, i), id) == Reserved(t, uid);
  }

  /** Anyone may connect, and has a handler of his own from then on, with nothing said and nothing decided. */
  lemma AnyoneConnects(s: System, uid: nat)
    requires |s.sinks| == |s.handlers|
    ensures Enabled(s, Connect(uid))
    ensures var z, n := Step(s, Connect(uid)), |s.handlers|;
            && z == s.(handlers := z.handlers, sinks := z.sinks) && |z.handlers| == |z.sinks| == n + 1
            && z.handlers[..n] == s.handlers && z.sinks[..n] == s.sinks && z.sinks[n] == None
            && z.handlers[n].uid == uid && z.handlers[n].stage.Fresh? && z.handlers[n].sent == "" && !z.handlers[n].okLive
  {
  }

  /** A new cap counts for the next to come, and takes nothing from those that have a slot. */
  lemma NewCapCounts(s: System, cap: int, i: nat, reach: nat)
    requires i < |s.handlers| && s.handlers[i].stage.Fresh?
    ensures Enabled(s, ChangeCap(cap)) && Enabled(Step(s, ChangeCap(cap)), TakeSlot(i, reach))
    ensures var uid, z := s.handlers[i].uid, Step(Step(s, ChangeCap(cap)), TakeSlot(i, reach));
            && (z.handlers[i].stage.Slot? <==> CountOf(s.table, uid) < cap)
            && (z.handlers[i].stage.Gone? <==> CountOf(s.table, uid) >= cap)
    ensures Step(s, ChangeCap(cap)).table.count == s.table.count && Step(s, ChangeCap(cap)).table.live == s.table.live
  {
  }

  /** At the cap a handler goes at once, with nothing taken, and what it says is not an acknowledgement. */
  lemma TurnedAway(s: System, i: nat, reach: nat)
    requires i < |s.handlers| && s.handlers[i].stage.Fresh? && CountOf(s.table, s.handlers[i].uid) >= s.table.cap
    ensures Enabled(s, TakeSlot(i, reach))
    ensures var said := "ERR too many sessions\n";
            Step(s, TakeSlot(i, reach)) == With(s, i,
              s.handlers[i].(stage := Gone, sent := if reach < |said| then said[..reach] else said), s.table, s.files)
  {
  }

  /** No file, no session: with the slot given back the table is as it was, and so are the files. */
  lemma NoFileNoSession(s: System, i: nat, id: string, reach: nat)
    requires NoZeros(s.table) && i < |s.handlers| && s.handlers[i].stage.Fresh? && CountOf(s.table, s.handlers[i].uid) < s.table.cap
    ensures var es := [TakeSlot(i, reach), OpenFile(i, id, false, reach), GiveBack(i)];
            var said := "ERR session file unavailable\n";
            && Possible(s, es)
            && Run(s, es) == With(s, i,
              s.handlers[i].(stage := Gone, sent := if reach < |said| then said[..reach] else said), s.table, s.files)
  {
    hide Reserved, Released, CountOf;
    var a := Step(s, TakeSlot(i, reach));
    var b := Step(a, OpenFile(i, id, false, reach));
    RunNone(Step(b, GiveBack(i)));
    RunFirst(b, GiveBack(i), []);
    RunFirst(a, OpenFile(i, id, false, reach), [GiveBack(i)]);
    RunFirst(s, TakeSlot(i, reach), [OpenFile(i, id, false, reach), GiveBack(i)]);
    ReserveRelease(s.table, s.handlers[i].uid);
    SlotTaken(s.table, s.handlers[i].uid);
  }

  lemma SlotTaken(t: Table<nat>, uid: nat)
    requires CountOf(t, uid) < t.cap
    ensures Reserved(t, uid) == t.(count := t.count[uid := CountOf(t, uid) + 1])
  {
  }

  lemma Refuses(s: System, i: nat, reach: nat)
    requires i < |s.handlers| && s.handlers[i].stage.Opened? && s.handlers[i].id in s.table.live
    ensures Enabled(s, Register(i, reach))
    ensures var said, h := "ERR session id collision\n", s.handlers[i];
            Step(s, Register(i, reach)) == With(s, i,
              h.(stage := Unwound, sent := if reach < |said| then said[..reach] else said), s.table, s.files - {(h.uid, h.id)})
  {
  }

  lemma GivesBack(s: System, i: nat)
    requires i < |s.handlers| && s.handlers[i].stage.Unwound?
    ensures Possible(s, [GiveBack(i)])
    ensures Run(s, [GiveBack(i)])
         == With(s, i, s.handlers[i].(stage := Gone), Released(s.table, s.handlers[i].uid), s.files)
  {
    hide Released;
    RunNone(Step(s, GiveBack(i)));
    RunFirst(s, GiveBack(i), []);
  }

  lemma Collides(s: System, i: nat, reach: nat)
    requires i < |s.handlers| && s.handlers[i].stage.Opened? && s.handlers[i].id in s.table.live
    ensures var es := [Register(i, reach), GiveBack(i)];
            var said, h := "ERR session id collision\n", s.handlers[i];
            && Possible(s, es)
            && Run(s, es) == With(s, i, h.(stage := Gone, sent := if reach < |said| then said[..reach] else said),
              Released(s.table, h.uid), s.files - {(h.uid, h.id)})
  {
    hide Released, Step, Enabled, Possible, Run;
    Refuses(s, i, reach);
    GivesBack(Step(s, Register(i, reach)), i);
    RunFirst(s, Register(i, reach), [GiveBack(i)]);
    assert [Register(i, reach)] + [GiveBack(i)] == [Register(i, reach), GiveBack(i)];
  }

  lemma FileOpens(s: System, i: nat, id: string, reach: nat)
    requires i < |s.handlers| && s.handlers[i].stage.Fresh?
    requires CountOf(s.table, s.handlers[i].uid) < s.table.cap && (s.handlers[i].uid, id) !in s.files
    ensures var es := [TakeSlot(i, reach), OpenFile(i, id, true, reach)];
            && Possible(s, es)
            && Run(s, es) == With(s, i, s.handlers[i].(stage := Opened, id := id), Reserved(s.table, s.handlers[i].uid),
              s.files + {(s.handlers[i].uid, id)})
  {
    hide Reserved;
    var a := Step(s, TakeSlot(i, reach));
    RunNone(Step(a, OpenFile(i, id, true, reach)));
    RunFirst(a, OpenFile(i, id, true, reach), []);
    RunFirst(s, TakeSlot(i, reach), [OpenFile(i, id, true, reach)]);
  }

  /** A handler whose id is live already takes its own file away again, and leaves the live session alone. */
  lemma CollisionLeavesNothing(s: System, i: nat, id: string, reach: nat)
    requires NoZeros(s.table) && i < |s.handlers| && s.handlers[i].stage.Fresh? && CountOf(s.table, s.handlers[i].uid) < s.table.cap
    requires id in s.table.live && (s.handlers[i].uid, id) !in s.files
    ensures var es := [TakeSlot(i, reach), OpenFile(i, id, true, reach), Register(i, reach), GiveBack(i)];
            var said := "ERR session id collision\n";
            && Possible(s, es)
            && Run(s, es) == With(s, i,
              s.handlers[i].(stage := Gone, id := id, sent := if reach < |said| then said[..reach] else said), s.table, s.files)
  {
    hide Possible, Run, Reserved, Released, NoZeros;
    var es := [TakeSlot(i, reach), OpenFile(i, id, true, reach)];
    FileOpens(s, i, id, reach);
    Collides(Run(s, es), i, reach);
    RunAppend(s, es, [Register(i, reach), GiveBack(i)]);
    ReserveRelease(s.table, s.handlers[i].uid);
    assert es + [Register(i, reach), GiveBack(i)]
        == [TakeSlot(i, reach), OpenFile(i, id, true, reach), Register(i, reach), GiveBack(i)];
    assert s.files + {(s.handlers[i].uid, id)} - {(s.handlers[i].uid, id)} == s.files;
  }

  /** A recorder reads a full OK as the daemon taking the stream; an ERR line, or its own patience at an end, as a local file. */
  lemma RecorderDecides(s: System, i: nat)
    requires i < |s.handlers| == |s.sinks| && s.sinks[i] == None
    ensures s.handlers[i].sent == "OK\n" ==> Enabled(s, Read(i)) && Step(s, Read(i)) == s.(sinks := s.sinks[i := Some(Central)])
    ensures |s.handlers[i].sent| >= 3 && s.handlers[i].sent[0] == 'E' ==>
      Enabled(s, Read(i)) && Step(s, Read(i)) == s.(sinks := s.sinks[i := Some(LocalFile)])
    ensures |s.handlers[i].sent| < 3 ==> !Enabled(s, Read(i))
    ensures Enabled(s, TimeOut(i)) && Step(s, TimeOut(i)) == s.(sinks := s.sinks[i := Some(LocalFile)])
  {
    var sent := s.handlers[i].sent;
    assert |sent| >= 2 ==> sent[..2][0] == sent[0];
  }

  /** A recorder decides once. */
  lemma ChoiceStays(s: System, e: Event, i: nat)
    requires Enabled(s, e) && i < |s.sinks| && s.sinks[i].Some?
    ensures i < |Step(s, e).sinks| && Step(s, e).sinks[i] == s.sinks[i]
  {
    hide Say, Acknowledged, Reserved, Released, Added, Removed, CountOf;
  }

  /** Wherever a handler is, its own steps can take it out, with its slot and its session given up. */
  lemma HandlersLeave(s: System, i: nat) returns (es: seq<Event>)
    requires Inv(s) && i < |s.handlers|
    ensures |es| <= 3 && Possible(s, es) && i < |Run(s, es).handlers| && Run(s, es).handlers[i].stage == Gone
    ensures Run(s, es).handlers == s.handlers[i := Run(s, es).handlers[i]] && Run(s, es).sinks == s.sinks
    ensures forall id :: id in Run(s, es).table.live <==> id in s.table.live && s.table.live[id] != i
  {
    hide Inv, Say, Acknowledged, Reserved, Released, CountOf;
    es := [];
    assert SessionsOwned(s) by { OwnedNow(s); }
    var h := s.handlers[i];
    if h.stage.Gone? {
      RunNone(s);
    } else if h.stage.Unwound? {
      es := LastStep(s, i);
    } else if HasSession(h) {
      es := LastStep(Step(s, EndSession(i)), i);
      RunFirst(s, EndSession(i), es);
      es := [EndSession(i)] + es;
    } else if !h.stage.Fresh? {
      es := LastStep(Step(s, GiveUp(i)), i);
      RunFirst(s, GiveUp(i), es);
      es := [GiveUp(i)] + es;
    } else {
      es := FromFresh(s, i);
    }
  }

  lemma OwnedNow(s: System)
    requires Inv(s)
    ensures SessionsOwned(s)
  {
  }

  lemma LastStep(s: System, i: nat) returns (es: seq<Event>)
    requires i < |s.handlers| && s.handlers[i].stage.Unwound?
    ensures |es| == 1 && Possible(s, es)
    ensures Run(s, es) == s.(table := Released(s.table, s.handlers[i].uid), handlers := s.handlers[i := s.handlers[i].(stage := Gone)])
  {
    hide Released;
    es := [GiveBack(i)] + [];
    RunNone(Step(s, GiveBack(i)));
    RunFirst(s, GiveBack(i), []);
  }

  lemma FromFresh(s: System, i: nat) returns (es: seq<Event>)
    requires i < |s.handlers| && s.handlers[i].stage.Fresh?
    ensures |es| <= 3 && Possible(s, es) && |Run(s, es).handlers| == |s.handlers| && Run(s, es).handlers[i].stage == Gone
    ensures Run(s, es).handlers == s.handlers[i := Run(s, es).handlers[i]] && Run(s, es).sinks == s.sinks
    ensures Run(s, es).table.live == s.table.live
  {
    hide Say, Acknowledged, Reserved, Released, CountOf;
    var a := Step(s, TakeSlot(i, 0));
    if a.handlers[i].stage.Gone? {
      RunNone(a);
      RunFirst(s, TakeSlot(i, 0), []);
      es := [TakeSlot(i, 0)] + [];
    } else {
      var b := Step(a, GiveUp(i));
      var rest := LastStep(b, i);
      RunFirst(a, GiveUp(i), rest);
      RunFirst(s, TakeSlot(i, 0), [GiveUp(i)] + rest);
      es := [TakeSlot(i, 0)] + ([GiveUp(i)] + rest);
    }
  }
}
