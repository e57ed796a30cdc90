/** What undisturbed sweeps add up to: who ends up where when nothing fails. */
module Sweeps {
  import opened Common
  import opened Crypto
  import opened FileSystem
  import opened IngestState

  /** Contents at the sources, and decrypted contents in the store. */
  datatype View = View(sources: map<Rec, Bytes>, store: map<Path, Bytes>)

  predicate Sweepable(v: View, r: Rec) {
    r in v.sources && Ingestible(r.name) && SafeComponent(r.name)
  }

  function SweepOne(v: View, r: Rec): View {
    if Sweepable(v, r) then View(v.sources - {r}, v.store[Dst(r) := v.sources[r]]) else v
  }

  function SweepAll(v: View, rs: seq<Rec>): View {
    if rs == [] then v else SweepOne(SweepAll(v, rs[..|rs| - 1]), rs[|rs| - 1])
  }

  /** A sweep takes each listed recording from its source, and no other. */
  lemma {:induction false} SourcesAfter(v: View, rs: seq<Rec>, r: Rec)
    ensures r in SweepAll(v, rs).sources <==> r in v.sources && !(r in rs && Sweepable(v, r))
    ensures r in SweepAll(v, rs).sources ==> SweepAll(v, rs).sources[r] == v.sources[r]
    decreases |rs|
  {
    hide Ingestible, SafeComponent;
    if rs != [] {
      assert rs == rs[..|rs| - 1] + [rs[|rs| - 1]];
      SourcesAfter(v, rs[..|rs| - 1], r);
    }
  }

  /** Nothing is left for a second sweep to do. */
  lemma SweepTwice(v: View, rs: seq<Rec>)
    ensures SweepAll(SweepAll(v, rs), rs) == SweepAll(v, rs)
  {
    var once := SweepAll(v, rs);
    forall r | r in rs ensures !Sweepable(once, r) {
      SourcesAfter(v, rs, r);
    }
    NothingToSweep(once, rs);
  }

  lemma {:induction false} NothingToSweep(v: View, rs: seq<Rec>)
    requires forall r :: r in rs ==> !Sweepable(v, r)
    ensures SweepAll(v, rs) == v
    decreases |rs|
  {
    hide Sweepable;
    if rs != [] {
      NothingToSweep(v, rs[..|rs| - 1]);
    }
  }

  /** A file in the store after a sweep comes from some listed recording filed under that name. */
  lemma {:induction false} StoreAfter(v: View, rs: seq<Rec>, r: Rec) returns (s: Rec)
    requires r in rs && Sweepable(v, r)
    ensures s in rs && Sweepable(v, s) && Dst(s) == Dst(r)
    ensures Dst(r) in SweepAll(v, rs).store && SweepAll(v, rs).store[Dst(r)] == v.sources[s]
    decreases |rs|
  {
    hide Ingestible, SafeComponent, Base;
    var front, last := rs[..|rs| - 1], rs[|rs| - 1];
    assert rs == front + [last];
    SourcesAfter(v, front, last);
    if Dst(last) == Dst(r) && Sweepable(SweepAll(v, front), last) {
      s := last;
    } else if r in front {
      s := StoreAfter(v, front, r);
    } else {
      assert false;
    }
  }

  /** No listed recording lost its content on the way to the store. */
  predicate AllFiled(v: View, rs: seq<Rec>) {
    forall r :: r in rs && Sweepable(v, r) ==>
      Dst(r) in SweepAll(v, rs).store && SweepAll(v, rs).store[Dst(r)] == v.sources[r]
  }

  /** Recordings filed under the same name are the same. */
  predicate NoClash(v: View, rs: seq<Rec>) {
    forall r, s :: r in rs && s in rs && Sweepable(v, r) && Sweepable(v, s) && Dst(r) == Dst(s) ==> v.sources[r] == v.sources[s]
  }

  /** A sweep files everything exactly when no two different recordings share a base name and a file name. */
  lemma FiledExactlyWithoutClash(v: View, rs: seq<Rec>)
    ensures AllFiled(v, rs) <==> NoClash(v, rs)
  {
    hide Ingestible, SafeComponent, Dst, SweepAll;
    if NoClash(v, rs) {
      forall r | r in rs && Sweepable(v, r)
        ensures Dst(r) in SweepAll(v, rs).store && SweepAll(v, rs).store[Dst(r)] == v.sources[r]
      {
        var s := StoreAfter(v, rs, r);
      }
    }
    if AllFiled(v, rs) {
      forall r, s | r in rs && s in rs && Sweepable(v, r) && Sweepable(v, s) && Dst(r) == Dst(s)
        ensures v.sources[r] == v.sources[s]
      {
      }
    }
  }

  /** What the store held is as it was. */
  predicate StoreUnharmed(v: View, rs: seq<Rec>) {
    forall p :: p in v.store ==> p in SweepAll(v, rs).store && SweepAll(v, rs).store[p] == v.store[p]
  }

  /** Nor is anything listed named like something different in the store. */
  predicate NoStoreClash(v: View, rs: seq<Rec>) {
    forall r :: r in rs && Sweepable(v, r) && Dst(r) in v.store ==> v.store[Dst(r)] == v.sources[r]
  }

  lemma {:induction false} StoreElsewhere(v: View, rs: seq<Rec>, p: Path)
    requires forall r :: r in rs && Sweepable(v, r) ==> Dst(r) != p
    ensures p in SweepAll(v, rs).store <==> p in v.store
    ensures p in v.store ==> SweepAll(v, rs).store[p] == v.store[p]
    decreases |rs|
  {
    hide Ingestible, SafeComponent, Base;
    if rs != [] {
      var front, last := rs[..|rs| - 1], rs[|rs| - 1];
      assert rs == front + [last];
      StoreElsewhere(v, front, p);
      SourcesAfter(v, front, last);
    }
  }

  /** A sweep harms no recording, swept or stored, exactly when those filed under one name are all the same. */
  lemma UnharmedExactlyWithoutClash(v: View, rs: seq<Rec>)
    ensures AllFiled(v, rs) && StoreUnharmed(v, rs) <==> NoClash(v, rs) && NoStoreClash(v, rs)
  {
    hide Ingestible, SafeComponent, Base, SweepAll;
    FiledExactlyWithoutClash(v, rs);
    if AllFiled(v, rs) && NoStoreClash(v, rs) {
      forall p | p in v.store
        ensures p in SweepAll(v, rs).store && SweepAll(v, rs).store[p] == v.store[p]
      {
        if r :| r in rs && Sweepable(v, r) && Dst(r) == p {
          assert SweepAll(v, rs).store[p] == v.sources[r];
        } else {
          StoreElsewhere(v, rs, p);
        }
      }
    }
  }

  lemma {:induction false} SweepAppend(v: View, a: seq<Rec>, b: seq<Rec>)
    ensures SweepAll(v, a + b) == SweepAll(SweepAll(v, a), b)
    decreases |b|
  {
    hide SweepOne;
    if b == [] {
      assert a + b == a;
    } else {
      assert (a + b)[..|a + b| - 1] == a + b[..|b| - 1];
      SweepAppend(v, a, b[..|b| - 1]);
    }
  }

  const ANN := Rec("/home/eve", "s.cast")
  const BOB := Rec("/srv/eve", "s.cast")

  /** Two users whose home directories end alike: the second sweep writes over the first one's recording. */
  lemma HomesThatEndAlike(v: View)
    requires ANN in v.sources && BOB in v.sources
    ensures SweepAll(v, [ANN, BOB]) == View(v.sources - {ANN, BOB}, v.store[Dst(ANN) := v.sources[BOB]])
  {
    EveIsEve();
    hide Ingestible, SafeComponent, Base;
    assert [ANN, BOB][..1] == [ANN] && [ANN][..0] == [];
    assert SweepAll(v, [ANN]) == SweepOne(SweepAll(v, []), ANN);
    assert SweepAll(v, [ANN, BOB]) == SweepOne(SweepAll(v, [ANN]), BOB);
    assert v.sources - {ANN} - {BOB} == v.sources - {ANN, BOB};
    assert v.store[Dst(ANN) := v.sources[ANN]][Dst(ANN) := v.sources[BOB]] == v.store[Dst(ANN) := v.sources[BOB]];
  }

  lemma EveIsEve()
    ensures Base("/home/eve") == "eve" && Base("/srv/eve") == "eve" && Ingestible("s.cast") && SafeComponent("s.cast")
    ensures ANN != BOB
  {
    hide Base, Ingestible, SafeComponent;
    EveAtHome();
    WhatIsTaken("s", "cast");
    SafeMeans("s.cast");
    assert "s" + "." + "cast" == "s.cast";
    assert |"/home/eve"| == 9 && |"/srv/eve"| == 8;
  }

  lemma EveAtHome()
    ensures Base("/home/eve") == "eve" && Base("/srv/eve") == "eve"
  {
    hide Base;
    BaseOfPath("/home/", "eve", 0);
    BaseOfPath("/srv/", "eve", 0);
    assert "/home/" + "eve" + seq(0, _ => '/') == "/home/eve" && "/srv/" + "eve" + seq(0, _ => '/') == "/srv/eve";
  }

  // ------------------------------------------------------------ what is to see

  function Text(c: Cipher, w: World, p: Path): Bytes {
    if p in w.fs.cur && w.fs.cur[p] in w.fs.node then OpenCast(c, w.fs.node[w.fs.cur[p]].data) else []
  }

  /** The recordings at home, and what opening the listed files of the store yields. */
  function ViewOf(c: Cipher, w: World): View {
    View(map r | r in w.rec && Src(r) in w.fs.cur :: w.rec[r], map p | p in w.fs.cur && Listed(p) :: Text(c, w, p))
  }

  /** Except for the file x, the name d and the source of g, all that is to see is as it was. */
  ghost predicate Quiet(w: World, w': World, x: Option<Ino>, d: Option<Path>, g: Option<Rec>) {
    && w'.rec == w.rec && w.log <= w'.log
    && (forall p: Path :: (p.dir.Local? || Listed(p)) && d != Some(p) && (g.Some? ==> p != Src(g.value)) ==>
        Cur(w'.fs, p) == Cur(w.fs, p))
    && (forall j :: j in w.fs.node && x != Some(j) ==> j in w'.fs.node && w'.fs.node[j] == w.fs.node[j])
  }

  /** The store's name for r refers to a copy of it, r's source has gone, and the rest is as it was. */
  ghost predicate SweptTo(c: Cipher, w: World, w': World, r: Rec) {
    Quiet(w, w', None, Some(Dst(r)), Some(r)) && Cur(w'.fs, Src(r)) == None && HasCopy(c, w', r, Dst(r))
  }

  lemma QuietView(c: Cipher, w: World, w': World)
    requires Sound(c, w) && Quiet(w, w', None, None, None)
    ensures ViewOf(c, w') == ViewOf(c, w)
  {
    hide OpenCast, Keeps, CastsIn, SourceOk, StoredOk;
    forall p | Listed(p) ensures Cur(w'.fs, p) == Cur(w.fs, p) && (p in w.fs.cur ==> Text(c, w', p) == Text(c, w, p)) {
      assert Live(w, p) && Cur(w.fs, p) in May(w.fs, p);
    }
    hide Text, Live, Listed, Base;
    assert forall r :: Cur(w'.fs, Src(r)) == Cur(w.fs, Src(r));
    assert ViewOf(c, w').sources == ViewOf(c, w).sources;
    assert ViewOf(c, w').store == ViewOf(c, w).store;
  }

  /** One undisturbed step of the sweep does to what is to see what SweepOne says. */
  lemma SweptView(c: Cipher, w: World, w': World, r: Rec)
    requires Sound(c, w) && SweptTo(c, w, w', r) && Correct(c, w'.log)
    requires r in w.rec && Src(r) in w.fs.cur && Ingestible(r.name) && SafeComponent(r.name)
    ensures ViewOf(c, w') == SweepOne(ViewOf(c, w), r)
  {
    hide Src, Dst, Listed, Text, Ingestible, SafeComponent, Correct, Sound, SweptTo;
    SweptSources(c, w, w', r);
    SweptStore(c, w, w', r);
  }

  lemma SweptSources(c: Cipher, w: World, w': World, r: Rec)
    requires SweptTo(c, w, w', r)
    ensures ViewOf(c, w').sources == ViewOf(c, w).sources - {r}
  {
    hide HasCopy, Text, Listed, Base;
    forall s: Rec ensures Cur(w'.fs, Src(s)) == if s == r then None else Cur(w.fs, Src(s)) {
      assert s != r ==> Src(s) != Src(r);
    }
  }

  lemma SweptStore(c: Cipher, w: World, w': World, r: Rec)
    requires Sound(c, w) && SweptTo(c, w, w', r) && Correct(c, w'.log) && r in w.rec && Ingestible(r.name)
    ensures ViewOf(c, w').store == ViewOf(c, w).store[Dst(r) := w.rec[r]]
  {
    hide OpenCast, Correct, Keeps, CastsIn, Ingestible, Base, HasCopy, SourceOk, StoredOk;
    IngestibleIsListed(r);
    CopyReads(c, w', r, Dst(r));
    forall p | Listed(p) && p != Dst(r)
      ensures Cur(w'.fs, p) == Cur(w.fs, p) && (p in w.fs.cur ==> Text(c, w', p) == Text(c, w, p))
    {
      assert Live(w, p) && Cur(w.fs, p) in May(w.fs, p);
    }
    hide Text, Live, Listed;
  }

  lemma CopyReads(c: Cipher, w: World, r: Rec, p: Path)
    requires HasCopy(c, w, r, p) && Correct(c, w.log)
    ensures p in w.fs.cur && Text(c, w, p) == w.rec[r]
  {
    hide Correct, Keeps, OpenCast;
    KeptDecrypts(c, w.log, w.fs.node[w.fs.cur[p]].data, w.rec[r]);
  }
}
