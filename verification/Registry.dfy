/** The daemon's table of live sessions, and how many slots each user holds. */
module Registry {
  import opened Common

  datatype Table<S> = Table(live: map<string, S>, count: map<nat, nat>, cap: int)

  function CountOf<S>(t: Table<S>, uid: nat): nat {
    if uid in t.count then t.count[uid] else 0
  }

  function Reserved<S>(t: Table<S>, uid: nat): (r: Table<S>)
    ensures r.live == t.live && r.cap == t.cap
  {
    if CountOf(t, uid) >= t.cap then t else t.(count := t.count[uid := CountOf(t, uid) + 1])
  }

  function Released<S>(t: Table<S>, uid: nat): (r: Table<S>)
    ensures r.live == t.live && r.cap == t.cap
  {
    t.(count := if CountOf(t, uid) > 1 then t.count[uid := CountOf(t, uid) - 1] else t.count - {uid})
  }

  function Added<S>(t: Table<S>, id: string, s: S): (r: Table<S>)
    ensures r.count == t.count && r.cap == t.cap
  {
    if id in t.live then t else t.(live := t.live[id := s])
  }

  function Removed<S>(t: Table<S>, id: string): (r: Table<S>)
    ensures r.count == t.count && r.cap == t.cap
  {
    t.(live := t.live - {id})
  }

  predicate NoZeros<S>(t: Table<S>) {
    forall uid :: uid in t.count ==> t.count[uid] > 0
  }

  /** A slot taken under the cap and given back leaves the table as it was. */
  lemma ReserveRelease<S>(t: Table<S>, uid: nat)
    requires NoZeros(t)
    ensures CountOf(t, uid) < t.cap ==> Released(Reserved(t, uid), uid) == t
    ensures NoZeros(Reserved(t, uid)) && NoZeros(Released(t, uid))
    ensures forall u :: u != uid ==> CountOf(Reserved(t, uid), u) == CountOf(t, u) == CountOf(Released(t, uid), u)
    ensures CountOf(Released(t, uid), uid) == if CountOf(t, uid) > 0 then CountOf(t, uid) - 1 else 0
  {
    if CountOf(t, uid) < t.cap {
      assert Released(Reserved(t, uid), uid).count == t.count;
    }
  }

  class SessionRegistry<S(0)> {
    var live: map<string, S>
    var connCount: map<nat, nat>
    var cap: int

    constructor (cap: int)
      ensures View() == Table(map[], map[], cap)
    {
      live, connCount, this.cap := map[], map[], cap;
    }

    function View(): Table<S>
      reads this
    {
      Table(live, connCount, cap)
    }

    /** Claims a slot only below the cap. */
    method Reserve(uid: nat) returns (ok: bool)
      modifies this`connCount
      ensures ok <==> old(CountOf(View(), uid)) < cap
      ensures View() == Reserved(old(View()), uid)
    {
      var n := if uid in connCount then connCount[uid] else 0;
      if n >= cap {
        return false;
      }
      connCount := connCount[uid := n + 1];
      return true;
    }

    /** Gives one slot back, if uid holds any; nobody else's count changes, and a count of 0 is not kept. */
    method Release(uid: nat)
      modifies this`connCount
      ensures View() == Released(old(View()), uid)
      ensures CountOf(View(), uid) == if old(CountOf(View(), uid)) > 0 then old(CountOf(View(), uid)) - 1 else 0
      ensures forall u :: u != uid ==> CountOf(View(), u) == old(CountOf(View(), u))
      ensures old(NoZeros(View())) ==> NoZeros(View())
    {
      if NoZeros(View()) { ReserveRelease(View(), uid); }
      var n := if uid in connCount then connCount[uid] else 0;
      if n > 1 {
        connCount := connCount[uid := n - 1];
      } else {
        connCount := connCount - {uid};
      }
    }

    /** Never takes the place of a live session. */
    method Add(id: string, s: S) returns (ok: bool)
      modifies this`live
      ensures ok <==> id !in old(live)
      ensures live == if ok then old(live)[id := s] else old(live)
      ensures View() == Added(old(View()), id, s)
    {
      if id in live {
        return false;
      }
      live := live[id := s];
      return true;
    }

    method Remove(id: string)
      modifies this`live
      ensures View() == Removed(old(View()), id)
    {
      live := live - {id};
    }

    method Get(id: string) returns (s: Option<S>)
      ensures s == if id in live then Some(live[id]) else None
    {
      if id in live {
        return Some(live[id]);
      }
      return None;
    }

    method SetCap(c: int)
      modifies this`cap
      ensures View() == old(View()).(cap := c)
    {
      cap := c;
    }
  }
}
