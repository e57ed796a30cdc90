/**
 The session object of the daemon, as its methods change it while they hold `mu`.

 Each method is one critical section; module LiveTail is about their interleavings.
 */
module Session {
  import opened Common
  import opened Crypto
  import opened CryptoStreams
  import Closing
  import LiveTail

  class Subscriber {
    const conn: nat
    var ch: seq<Bytes>
    var chClosed: bool
    var connClosed: bool

    constructor (conn: nat)
      ensures this.conn == conn && ch == [] && !chClosed && !connClosed
    {
      this.conn := conn;
      ch, chClosed, connClosed := [], false, false;
    }
  }

  class Session {
    const enc: EncWriter
    var subs: map<nat, Subscriber>
    var diskBytes: nat
    var done: bool
    /** All subscribers there have been. */
    ghost var members: set<Subscriber>

    ghost predicate Registered(sub: Subscriber)
      reads this`subs
    {
      sub.conn in subs && subs[sub.conn] == sub
    }

    /** subs maps each connection to its own subscriber; a channel is open exactly while its subscriber is there. */
    ghost predicate Tied()
      reads this`subs, this`members, members`chClosed
    {
      && (forall c :: c in subs ==> subs[c] in members && subs[c].conn == c)
      && (forall sub :: sub in members ==> (Registered(sub) <==> !sub.chClosed))
    }

    ghost predicate Valid()
      reads this`subs, this`members, this`done, members`chClosed
    {
      Tied() && (done ==> subs == map[])
    }

    constructor (enc: EncWriter)
      ensures Valid() && this.enc == enc && subs == map[] && diskBytes == 0 && !done && members == {}
    {
      this.enc := enc;
      subs, diskBytes, done, members := map[], 0, false, {};
    }

    /** Adds c as a live tailer and returns the replay boundary, unless the session has ended. */
    method Register(c: nat) returns (sub: Option<Subscriber>, replayBytes: nat)
      requires Valid() && c !in subs
      modifies this`subs, this`members
      ensures Valid()
      ensures old(done) ==> sub == None && subs == old(subs) && members == old(members)
      ensures !old(done) ==> (sub.Some? && fresh(sub.value) && members == old(members) + {sub.value}
        && replayBytes == diskBytes && sub.value.conn == c && sub.value.ch == [] && !sub.value.connClosed
        && subs == old(subs)[c := sub.value])
    {
      if done {
        return None, 0;
      }
      var s := new Subscriber(c);
      subs := subs[c := s];
      members := members + {s};
      return Some(s), diskBytes;
    }

    /** Takes sub out and closes its channel if it is still the one registered for its connection. */
    method Remove(sub: Subscriber) returns (removed: bool)
      requires Valid()
      modifies this`subs, sub`chClosed
      ensures Valid()
      ensures removed <==> old(Registered(sub))
      ensures removed ==> subs == old(subs) - {sub.conn} && sub.chClosed && !old(sub.chClosed)
      ensures !removed ==> subs == old(subs) && sub.chClosed == old(sub.chClosed)
    {
      removed := sub.conn in subs && subs[sub.conn] == sub;
      if removed {
        TakeOut(sub);
      }
    }

    method TakeOut(sub: Subscriber)
      requires Tied() && Registered(sub)
      modifies this`subs, sub`chClosed
      ensures Tied() && subs == old(subs) - {sub.conn} && sub.chClosed
    {
      subs := subs - {sub.conn};
      sub.chClosed := true;
    }

    /**
     The fan-out of one chunk: each subscriber with room in its channel gets a copy at the end of its
     queue; each one without is taken out, its channel closed, and is returned for its conn to be closed.
     */
    method FanOut(b: Bytes) returns (dropped: seq<Subscriber>)
      requires Valid()
      modifies this`subs, members`ch, members`chClosed
      ensures Valid()
      ensures forall sub :: sub in members ==>
        if !old(Registered(sub)) then !Registered(sub) && sub.ch == old(sub.ch)
        else if |old(sub.ch)| < 256 then Registered(sub) && sub.ch == old(sub.ch) + [b]
        else !Registered(sub) && sub.ch == old(sub.ch)
      ensures forall c :: c in subs ==> c in old(subs) && subs[c] == old(subs)[c]
      ensures forall sub :: sub in dropped <==> sub in members && old(Registered(sub)) && !Registered(sub)
    {
      ghost var was, chs := subs, map sub | sub in members :: sub.ch;
      hide FanInv;
      var todo := subs.Keys;
      dropped := [];
      FanStarts(b);
      while todo != {}
        invariant FanInv(was, chs, todo, dropped, b)
        decreases |todo|
      {
        todo, dropped := FanTurn(was, chs, todo, dropped, b);
      }
      FanEnds(was, chs, dropped, b);
    }

    /** Between two turns of the fan-out: those not in todo have been served. */
    ghost predicate FanInv(
      was: map<nat, Subscriber>, chs: map<Subscriber, seq<Bytes>>, todo: set<nat>, dropped: seq<Subscriber>, b: Bytes)
      reads this`subs, this`members, this`done, members`chClosed, members`ch
    {
      && Valid() && todo <= subs.Keys <= was.Keys && chs.Keys == members
      && (forall c :: c in subs ==> subs[c] == was[c])
      && (forall sub :: sub in members ==> if Waits(was, todo, sub) then sub.ch == chs[sub] else Served(was, sub, b, chs[sub]))
      && (forall sub :: sub in dropped ==> sub in members && In(was, sub) && !Registered(sub))
      && (forall sub :: sub in members && In(was, sub) && !Registered(sub) ==> sub in dropped)
    }

    lemma FanStarts(b: Bytes)
      requires Valid()
      ensures FanInv(subs, map sub | sub in members :: sub.ch, subs.Keys, [], b)
    {
    }

    method FanTurn(
      ghost was: map<nat, Subscriber>, ghost chs: map<Subscriber, seq<Bytes>>, todo: set<nat>, dropped: seq<Subscriber>,
      b: Bytes)
      returns (rest: set<nat>, lagging: seq<Subscriber>)
      requires todo != {} && FanInv(was, chs, todo, dropped, b)
      modifies this`subs, members`ch, members`chClosed
      ensures FanInv(was, chs, rest, lagging, b) && |rest| < |todo|
    {
      var c :| c in todo;
      rest, lagging := todo - {c}, dropped;
      var sub := subs[c];
      var lagged := Offer(sub, b);
      if lagged { lagging := dropped + [sub]; }
    }

    lemma FanEnds(was: map<nat, Subscriber>, chs: map<Subscriber, seq<Bytes>>, dropped: seq<Subscriber>, b: Bytes)
      requires FanInv(was, chs, {}, dropped, b)
      ensures Valid() && (forall c :: c in subs ==> c in was && subs[c] == was[c]) && chs.Keys == members
      ensures forall sub :: sub in members ==> Served(was, sub, b, chs[sub])
      ensures forall sub :: sub in dropped <==> sub in members && In(was, sub) && !Registered(sub)
    {
    }

    static ghost predicate In(was: map<nat, Subscriber>, sub: Subscriber) {
      sub.conn in was && was[sub.conn] == sub
    }

    static ghost predicate Waits(was: map<nat, Subscriber>, todo: set<nat>, sub: Subscriber) {
      In(was, sub) && sub.conn in todo
    }

    /** What the fan-out of b makes of a subscriber's channel. */
    ghost predicate Served(was: map<nat, Subscriber>, sub: Subscriber, b: Bytes, ch: seq<Bytes>)
      reads this`subs, sub`ch
    {
      if !In(was, sub) then sub.ch == ch
      else if |ch| < LiveTail.SUB_CHAN_CAP then Registered(sub) && sub.ch == ch + [b]
      else !Registered(sub) && sub.ch == ch
    }

    /** The non-blocking send to one subscriber. */
    method Offer(sub: Subscriber, b: Bytes) returns (lagged: bool)
      requires Valid() && Registered(sub)
      modifies this`subs, sub`ch, sub`chClosed
      ensures Valid() && lagged == (|old(sub.ch)| >= LiveTail.SUB_CHAN_CAP)
      ensures subs == if lagged then old(subs) - {sub.conn} else old(subs)
      ensures sub.ch == if lagged then old(sub.ch) else old(sub.ch) + [b]
    {
      lagged := |sub.ch| >= LiveTail.SUB_CHAN_CAP;
      if lagged {
        TakeOut(sub);
      } else {
        sub.ch := sub.ch + [b];
      }
    }

    /**
     One chunk from the recorder: to disk first, then counted, then fanned out; the connections of the
     subscribers that lagged are closed last. A failed disk write changes nothing here.
     */
    method Write(b: Bytes, nonce: Bytes) returns (ok: bool)
      requires Valid() && enc.Valid() && Expands(enc.c) && |nonce| == NONCE_SIZE
      modifies this`subs, this`diskBytes, members, enc, enc.w
      ensures Valid() && enc.Valid()
      ensures enc.trail == AfterWrite(enc.streamID, old(enc.trail), Frame(nonce, b), ok)
      ensures !ok ==> subs == old(subs) && diskBytes == old(diskBytes)
      ensures !ok ==> forall sub :: sub in members ==> unchanged(sub)
      ensures ok ==> diskBytes == old(diskBytes) + |b|
      ensures ok ==> forall sub :: sub in members ==>
        if !old(Registered(sub)) then !Registered(sub) && unchanged(sub)
        else if |old(sub.ch)| < 256
        then Registered(sub) && sub.ch == old(sub.ch) + [b] && sub.connClosed == old(sub.connClosed)
        else !Registered(sub) && sub.ch == old(sub.ch) && sub.connClosed
    {
      hide Consistent, AfterWrite;
      var n;
      n, ok := enc.Write(b, nonce);
      if !ok {
        return;
      }
      diskBytes := diskBytes + |b|;
      var dropped := FanOut(b);
      CloseConns(dropped);
    }

    static method CloseConns(dropped: seq<Subscriber>)
      modifies (set s | s in dropped)`connClosed
      ensures forall s :: s in dropped ==> s.connClosed
    {
      for i := 0 to |dropped|
        invariant forall s :: s in dropped[..i] ==> s.connClosed
      {
        dropped[i].connClosed := true;
      }
    }

    /** Ends the session: every channel is closed, then every connection; none registers any more. */
    method Close()
      requires Valid()
      modifies this`subs, this`done, members`chClosed, members`connClosed
      ensures Valid() && done && subs == map[]
      ensures forall sub :: sub in members ==> sub.chClosed && (sub.connClosed <==> old(Registered(sub) || sub.connClosed))
    {
      var joined := End();
      CloseConns(joined);
    }

    /** The part of Close that holds `mu`; returns those to be closed and waited for. */
    method End() returns (joined: seq<Subscriber>)
      requires Valid()
      modifies this`subs, this`done, members`chClosed
      ensures Valid() && done && subs == map[]
      ensures forall sub :: sub in joined <==> sub in members && old(Registered(sub))
    {
      done, joined := true, [];
      ghost var was := subs;
      while subs != map[]
        invariant done && Tied() && subs.Keys <= was.Keys && forall c :: c in subs ==> subs[c] == was[c]
        invariant forall sub :: sub in joined <==> sub in members && In(was, sub) && !Registered(sub)
        decreases subs.Keys
      {
        var c :| c in subs.Keys;
        var sub := subs[c];
        TakeOut(sub);
        joined := joined + [sub];
      }
    }

    // ------------------------------------------------ as LiveTail sees it

    /** This object looks as the state s of the interleaving says. */
    ghost predicate Shows(s: LiveTail.State)
      reads this, members
    {
      && Valid() && s.subs == subs.Keys && s.closed == done && s.diskBytes == diskBytes
      && (forall a, b :: a in members && b in members && a.conn == b.conn ==> a == b)
      && (forall sub :: sub in members ==> Shown(s, sub))
    }

    static ghost predicate Shown(s: LiveTail.State, sub: Subscriber)
      reads sub
    {
      && sub.conn in s.tailers && s.tailers[sub.conn].queue == sub.ch && s.tailers[sub.conn].chClosed == sub.chClosed
      && (sub.connClosed ==> s.tailers[sub.conn].connClosed)
    }

    /** Register is LiveTail's step of that name. */
    method RegisterIsStep(ghost w: LiveTail.World, ghost s: LiveTail.State, c: nat)
      requires Shows(s) && LiveTail.Enabled(w, s, LiveTail.Register(c))
      modifies this`subs, this`members
      ensures Shows(LiveTail.Apply(w, s, LiveTail.Register(c)))
    {
      var _, _ := Register(c);
    }

    /** Remove is the effect on the session of a tailer's own step. */
    method RemoveIsStep(ghost w: LiveTail.World, ghost s: LiveTail.State, sub: Subscriber, ghost step: LiveTail.Step)
      requires Shows(s) && sub in members && LiveTail.Enabled(w, s, step)
      requires step == LiveTail.Remove(sub.conn) || step == LiveTail.DropRemove(sub.conn)
      modifies this`subs, sub`chClosed
      ensures Shows(LiveTail.Apply(w, s, step))
    {
      hide LiveTail.TailerNext, LiveTail.TailerEnabled, FrameBytes, FrameAAD, OpenCast;
      assert Shown(s, sub);
      var _ := Remove(sub);
    }

    /** FanOut is LiveTail's fan-out to all subscribers, in whatever order ts; both find the same ones too far behind. */
    method FanOutIsSteps(ghost w: LiveTail.World, ghost s: LiveTail.State, ghost ts: seq<nat>, b: Bytes)
      returns (dropped: seq<Subscriber>)
      requires Shows(s) && LiveTail.FansOut(s, ts) && s.rec.chunk == b && forall c :: c in subs ==> c in ts
      modifies this`subs, members`ch, members`chClosed
      ensures Shows(LiveTail.FanAll(w, s, ts)) && LiveTail.FanAll(w, s, ts).rec.FanningOut?
      ensures forall sub :: sub in members ==>
        (sub.conn in LiveTail.FanAll(w, s, ts).rec.dropped <==> sub in dropped || sub.conn in s.rec.dropped)
    {
      hide LiveTail.FanAll;
      LiveTail.FanOutInAnyOrder(w, s, ts);
      ghost var z := LiveTail.FanAll(w, s, ts);
      ghost var was := subs;
      assert forall t :: t in ts ==> t in was && was[t] in members && Registered(was[t]) && Shown(s, was[t]);
      dropped := FanOut(b);
      forall t ensures t in z.subs <==> t in subs {
        assert t in ts ==> LiveTail.Offered(s, z, t);
        assert t !in ts ==> LiveTail.Untouched(s, z, t);
      }
      assert z.subs == subs.Keys;
      forall sub | sub in members
        ensures Shown(z, sub) && (sub.conn in z.rec.dropped <==> sub in dropped || sub.conn in s.rec.dropped)
      {
        assert sub.conn in ts ==> LiveTail.Offered(s, z, sub.conn);
        assert sub.conn !in ts ==> LiveTail.Untouched(s, z, sub.conn);
      }
    }

    /** End is LiveTail's Close, and hands over those that one is to close and wait for. */
    method EndIsStep(ghost w: LiveTail.World, ghost s: LiveTail.State) returns (joined: seq<Subscriber>)
      requires Shows(s) && LiveTail.Enabled(w, s, LiveTail.Close)
      modifies this`subs, this`done, members`chClosed
      ensures Shows(LiveTail.Apply(w, s, LiveTail.Close))
      ensures var z := LiveTail.Apply(w, s, LiveTail.Close);
        forall sub :: sub in members ==> (sub.conn in Closing.JoiningOf(z.rec) <==> sub in joined)
    {
      joined := End();
    }
  }
}
