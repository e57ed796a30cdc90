/** How the steps of a sweep follow one another: what each leaves as it was, and what stays true throughout. */
module IngestSteps {
  import opened Common
  import opened Crypto
  import opened FileSystem
  import opened IngestState
  import opened Sweeps

  const COPY_BUFFER: nat := 32 * 1024

  /** How a system call ends: as it should, with an error, or with the machine going down. */
  datatype How = Fine | Fails | Dies(pick: map<Path, Option<Ino>>, junk: map<Ino, Bytes>)

  /** What comes with one system call: what others did before it, how it ends, and what it returns. */
  datatype Fate = Fate(acts: seq<Act>, how: How, active: bool, n: nat, digits: string, random: Bytes, ino: Ino)

  const QUIET: Fate := Fate([], Fine, false, 0, "", [], 0)

  /** What a system call is for. */
  datatype Op =
    | IsActive(rec: Rec) | MakeDir(home: string) | OpenFile(rec: Rec) | StatFile(rec: Rec) | MakeTemp | SetMode
    | ReadPart(rec: Rec) | WritePart | SyncFile | CloseFile | RenameTemp | SyncStore | RemoveFile

  /** The calls made so far, and how each ended. */
  type Trace = seq<(Op, Fate)>

  /** A recording found inactive, or a call without an error; only two calls may fail and be passed over. */
  predicate WellDone(e: (Op, Fate)) {
    match e.0
    case IsActive(_) => !e.1.active
    case SyncStore => true
    case RemoveFile => true
    case _ => e.1.how.Fine?
  }

  /** Every call since has been well done. */
  ghost predicate Well(before: Trace, after: Trace) {
    before <= after && forall k :: |before| <= k < |after| ==> WellDone(after[k])
  }

  lemma WellNow(t: Trace, op: Op, f: Fate)
    requires WellDone((op, f))
    ensures Well(t, t + [(op, f)])
  {
  }

  lemma WellAgain(t0: Trace, t1: Trace, t2: Trace)
    requires Well(t0, t1) && Well(t1, t2)
    ensures Well(t0, t2)
  {
    forall k | |t0| <= k < |t2| ensures WellDone(t2[k]) {
      if k < |t1| { assert t2[k] == t1[k]; }
    }
  }

  /** Since then, IsActive has been asked about r. */
  ghost predicate Asked(before: Trace, after: Trace, r: Rec) {
    before <= after && exists k :: |before| <= k < |after| && after[k].0 == IsActive(r)
  }

  /** The last call was to remove a file, and that is gone just when the call succeeded. */
  predicate RemovedLast(t: Trace, gone: bool) {
    t != [] && t[|t| - 1].0 == RemoveFile && (gone <==> t[|t| - 1].1.how.Fine?)
  }

  /** Twice, that is: r was found inactive, all went well from there on, and r was found inactive once more. */
  ghost predicate Cleared(before: Trace, after: Trace, r: Rec) {
    before <= after && exists j, k :: |before| <= j < k < |after| && ClearedAt(after, r, j, k)
  }

  ghost predicate ClearedAt(t: Trace, r: Rec, j: nat, k: nat)
    requires j < k < |t|
  {
    t[j].0 == IsActive(r) && t[k].0 == IsActive(r) && forall n :: j <= n <= k ==> WellDone(t[n])
  }

  /** Between the two, no call failed but those whose failure the sweep passes over. */
  lemma ClearedMeans(before: Trace, after: Trace, r: Rec) returns (j: nat, k: nat)
    requires Cleared(before, after, r)
    ensures |before| <= j < k < |after| && after[j].0 == after[k].0 == IsActive(r)
    ensures !after[j].1.active && !after[k].1.active
    ensures forall n :: j <= n <= k && !after[n].0.IsActive? && !after[n].0.SyncStore? && !after[n].0.RemoveFile? ==>
      after[n].1.how.Fine?
  {
    j, k :| |before| <= j < k < |after| && ClearedAt(after, r, j, k);
    forall n | j <= n <= k && !after[n].0.IsActive? && !after[n].0.SyncStore? && !after[n].0.RemoveFile?
      ensures after[n].1.how.Fine?
    {
      assert WellDone(after[n]);
    }
  }

  lemma ClearedNow(t0: Trace, t1: Trace, t2: Trace, r: Rec)
    requires t0 <= t1 && |t1| == |t0| + 1 && t1[|t0|].0 == IsActive(r) && Well(t0, t1) && Well(t1, t2) && Asked(t1, t2, r)
    ensures Cleared(t0, t2, r)
  {
    WellAgain(t0, t1, t2);
    var k :| |t1| <= k < |t2| && t2[k].0 == IsActive(r);
    assert t2[|t0|] == t1[|t0|];
    assert ClearedAt(t2, r, |t0|, k);
  }

  lemma ClearedStill(t0: Trace, t1: Trace, t2: Trace, t3: Trace, r: Rec)
    requires t0 <= t1 && Cleared(t1, t2, r) && t2 <= t3
    ensures Cleared(t0, t3, r)
  {
    var j, k :| |t1| <= j < k < |t2| && ClearedAt(t2, r, j, k);
    forall n | j <= n <= k ensures WellDone(t3[n]) {
      assert t3[n] == t2[n];
    }
    assert t3[j] == t2[j] && t3[k] == t2[k];
    assert ClearedAt(t3, r, j, k);
  }

  /** A call that goes as it should, with nobody else doing anything. */
  predicate SmoothFate(f: Fate) {
    f.acts == [] && f.how.Fine? && !f.active
  }

  /** n random bytes. */
  function Draw(random: Bytes, n: nat): (r: Bytes)
    ensures |r| == n
  {
    if |random| >= n then random[..n] else random + seq(n - |random|, _ => 0)
  }

  /** A file gets a number that no other has. */
  function FreeIno(taken: set<Ino>, from: Ino): (i: Ino)
    ensures i !in taken && i >= from
    decreases |taken|
  {
    if from in taken then FreeIno(taken - {from}, from + 1) else from
  }

  function TempPath(r: Rec, digits: string): Path {
    Path(Dst(r).dir, TempName(r.name, digits))
  }

  datatype Outcome = Done | Failed | Crashed

  /** No sweep has left a temporary file behind. */
  ghost predicate NoTemps(w: World) {
    forall r, digits | AllDigits(digits) :: TempPath(r, digits) !in w.fs.cur
  }

  lemma NoNewTemps(w0: World, w: World, r: Rec)
    requires NoTemps(w0) && Ingestible(r.name) && w.fs.cur.Keys <= w0.fs.cur.Keys + {Dst(r)}
    ensures NoTemps(w)
  {
    forall s, digits | AllDigits(digits) ensures TempPath(s, digits) !in w.fs.cur {
      TempIsNoRecording(s.name, digits);
    }
  }

  // ------------------------------------------------------------ stream growth

  lemma EmptyStream(c: Cipher, log: set<Sealed>, sid: Bytes)
    requires |sid| == STREAM_ID_SIZE
    ensures IsStream(c, log, MAGIC_V2 + sid, [], sid, [])
  {
    assert MAGIC_V2 + sid + [] == MAGIC_V2 + sid;
  }

  lemma StreamGrows(
    c: Cipher, log: set<Sealed>, data: Bytes, content: Bytes, sid: Bytes, frames: seq<Frame>, f: Frame)
    requires IsStream(c, log, data, content, sid, frames) && Fits(f)
    ensures IsStream(c, log + {Sealed(f.nonce, FrameAAD(Some(sid), |frames|), f.plain)},
                     data + FrameBytes(c, Some(sid), |frames|, f), content + f.plain, sid, frames + [f])
  {
    hide FrameAAD, FrameBytes, Fits;
    var all := frames + [f];
    EncodeSnoc(c, Some(sid), frames, f);
    Assoc(MAGIC_V2 + sid, Encode(c, Some(sid), 0, frames), FrameBytes(c, Some(sid), |frames|, f));
    assert Plains(all) == Plains(frames) + [f.plain];
    ConcatSnoc(Plains(frames), f.plain);
  }

  lemma PieceTaken(come: Bytes, all: Bytes, n: nat)
    requires come <= all && |come| + n <= |all|
    ensures come + all[|come|..|come| + n] == all[..|come| + n] <= all
  {
  }

  // ----------------------------------------------------------------- validity

  /**
   * What no step ever breaks. No recording on its way is lost if directories are synced and no two are filed under one
   * name; and none that the daemon's sessions have filed is, if no local one is named like it.
   */
  ghost predicate ValidWorld(c: Cipher, dirSyncs: bool, w: World) {
    && Sound(c, w)
    && (dirSyncs && NoCollision(w) ==> Conserved(c, w))
    && (NoPlant(w) ==> FiledOk(w))
  }

  lemma StillValid(c: Cipher, dirSyncs: bool, w: World, w': World)
    requires ValidWorld(c, dirSyncs, w) && Preserves(c, w, w') && Later(w, w')
    ensures ValidWorld(c, dirSyncs, w')
  {
    hide Sound, Conserved, FiledOk, NoCollision, NoPlant, Later;
    LaterClash(w, w');
  }

  // --------------------------------------------------------- what has not changed

  /** Except for the file x, the store's name d and the source of g, all is as it was, or as others made it. */
  ghost predicate Kept(w0: World, w: World, x: Option<Ino>, d: Option<Path>, g: Option<Rec>) {
    && Later(w0, w)
    && (forall p :: Listed(p) && d != Some(p) ==> Steady(w0, w, p))
    && (forall r :: r in w0.rec && g != Some(r) ==> SourceKept(w0, w, r))
    && (forall j :: x != Some(j) && AtRest(w0, j) ==> AtRest(w, j) && w.fs.node[j] == w0.fs.node[j])
  }

  ghost predicate SourceKept(w0: World, w: World, r: Rec)
    requires r in w0.rec
  {
    && Cur(w.fs, Src(r)) == Cur(w0.fs, Src(r))
    && r in w.rec && w0.rec[r] <= w.rec[r] && (Cur(w.fs, Src(r)) == None ==> w.rec[r] == w0.rec[r])
  }

  /** A file that nobody else writes: no source, and no session's that has not ended. */
  ghost predicate AtRest(w: World, j: Ino) {
    j in w.fs.node && j !in w.busy && NoSource(w, j)
  }

  /** And while all goes smoothly, nothing at all. */
  ghost predicate Went(w0: World, w: World, x: Option<Ino>, d: Option<Path>, g: Option<Rec>, smooth: bool) {
    Kept(w0, w, x, d, g) && (smooth ==> Quiet(w0, w, x, d, g))
  }

  /** After a crash a name refers to what it could before, or is theirs. */
  ghost predicate CrashedBack(w0: World, w: World, p: Path) {
    May(w.fs, p) == {Cur(w.fs, p)} && (Cur(w.fs, p) in May(w0.fs, p) || Changed(w0, w, p, Cur(w.fs, p)))
  }

  ghost predicate AllBack(w0: World, w: World) {
    Later(w0, w) && forall p :: Listed(p) ==> CrashedBack(w0, w, p)
  }

  /** After a crash the final name is back to what it was, or refers to the whole copy. */
  ghost predicate OldOrNew(c: Cipher, w0: World, w: World, r: Rec) {
    && Later(w0, w)
    && (CrashedBack(w0, w, Dst(r)) || (HasCopy(c, w, r, Dst(r)) && May(w.fs, Dst(r)) == {Cur(w.fs, Dst(r))}))
  }

  lemma WentAgain(
    w0: World, w1: World, w2: World, x: Option<Ino>, d: Option<Path>, g: Option<Rec>, before: bool, smooth: bool)
    requires Went(w0, w1, x, d, g, before) && Went(w1, w2, x, d, g, smooth) && (smooth ==> before)
    ensures Went(w0, w2, x, d, g, smooth)
  {
    assert Kept(w0, w2, x, d, g) by { KeptAgain(w0, w1, w2, x, d, g); }
    assert smooth ==> Quiet(w0, w2, x, d, g) by { hide Kept; }
  }

  lemma KeptAgain(w0: World, w1: World, w2: World, x: Option<Ino>, d: Option<Path>, g: Option<Rec>)
    requires Kept(w0, w1, x, d, g) && Kept(w1, w2, x, d, g)
    ensures Kept(w0, w2, x, d, g)
  {
    hide AtRest, Listed;
    forall p | Listed(p) && d != Some(p) ensures Steady(w0, w2, p) {
      SteadyAgain(w0, w1, w2, p);
    }
    hide Steady;
  }

  lemma WentWider(
    w0: World, w: World, x: Option<Ino>, x': Option<Ino>, d: Option<Path>, d': Option<Path>, g: Option<Rec>,
    g': Option<Rec>, smooth: bool)
    requires Went(w0, w, x, d, g, smooth) && x in {None, x'} && d in {None, d'} && g in {None, g'}
    ensures Went(w0, w, x', d', g', smooth)
  {
    hide Steady, Listed, AtRest, SourceKept;
  }

  /** A file made since is no exception. */
  lemma WentFresh(w0: World, w: World, i: Ino, d: Option<Path>, smooth: bool)
    requires Went(w0, w, Some(i), d, None, smooth) && i !in w0.fs.node
    ensures Went(w0, w, None, d, None, smooth)
  {
    hide Steady, Listed, SourceKept, NoSource;
  }

  lemma MovedWent(w0: World, w: World, frozen: Option<Rec>, smooth: bool)
    requires Moved(w0, w, frozen) && (smooth ==> w == w0)
    ensures Went(w0, w, None, None, None, smooth)
  {
    hide Steady, CastsIn;
  }

  lemma SameWent(w: World)
    ensures Went(w, w, None, None, None, true)
  {
  }

  lemma BackAgain(w0: World, w1: World, w2: World, x: Option<Ino>)
    requires Kept(w0, w1, x, None, None) && AllBack(w1, w2)
    ensures AllBack(w0, w2)
  {
    hide AtRest, SourceKept, Listed;
  }

  lemma BackIsOld(c: Cipher, w0: World, w: World, r: Rec)
    requires AllBack(w0, w) && Ingestible(r.name)
    ensures OldOrNew(c, w0, w, r)
  {
    hide CrashedBack, Base;
  }

  lemma OldOrNewAgain(c: Cipher, w0: World, w1: World, w2: World, x: Option<Ino>, r: Rec)
    requires Kept(w0, w1, x, None, None) && OldOrNew(c, w1, w2, r) && Ingestible(r.name)
    ensures OldOrNew(c, w0, w2, r)
  {
    hide AtRest, SourceKept, HasCopy, Base;
    assert Steady(w0, w1, Dst(r));
  }

  // ------------------------------------------------------------------ working

  /** The daemon is writing a copy of r to the private file i, at t in r's directory of the store. */
  ghost predicate Working(w: World, r: Rec, i: Ino, t: Path) {
    && i in w.fs.node && Private(w, i, t) && Cur(w.fs, t) == Some(i)
    && r in w.rec && Cur(w.fs, Src(r)).Some?
  }

  lemma SourceRead(c: Cipher, w: World, r: Rec)
    requires Sound(c, w) && Cur(w.fs, Src(r)).Some?
    ensures r in w.rec && var i := Cur(w.fs, Src(r)).value; i in w.fs.node && w.fs.node[i].data == w.rec[r]
  {
    assert SourceOk(w, r);
    assert Cur(w.fs, Src(r)) in May(w.fs, Src(r));
    assert OwnedBy(w, r, Cur(w.fs, Src(r)).value);
  }

  lemma WorkingMoved(w: World, w': World, frozen: Option<Rec>, r: Rec, i: Ino, t: Path)
    requires Working(w, r, i, t) && Moved(w, w', frozen)
    ensures Working(w', r, i, t) && w'.fs.node[i] == w.fs.node[i] && w.rec[r] <= w'.rec[r] && w'.log == w.log
    ensures frozen == Some(r) ==> w'.rec[r] == w.rec[r]
  {
    MovedPrivate(w, w', frozen, i, t);
  }

  lemma Written(c: Cipher, w: World, r: Rec, i: Ino, t: Path, n: Node, log: set<Sealed>)
    requires Sound(c, w) && Working(w, r, i, t) && w.log <= log
    ensures var w' := w.(fs := SetNode(w.fs, i, n), log := log);
            Preserves(c, w, w') && Working(w', r, i, t) && Went(w, w', Some(i), None, None, true)
  {
    hide Sound, Preserves;
    PrivateWrite(c, w, i, t, n, log);
    hide Private;
    var w' := w.(fs := SetNode(w.fs, i, n), log := log);
    NamesAsBefore(w, w');
    hide Steady, CastsIn;
  }

  // -------------------------------------------------------------- small steps

  lemma NotMoved(w: World, frozen: Option<Rec>)
    ensures Moved(w, w, frozen)
  {
  }

  ghost predicate DiedAfter(w0: World, w: World, frozen: Option<Rec>, f: Fate)
    requires f.how.Dies?
  {
    exists w1 :: Moved(w0, w1, frozen) && w == AfterCrash(w1, f.how.pick, f.how.junk)
  }

  lemma LaterCrash(w: World, pick: map<Path, Option<Ino>>, junk: map<Ino, Bytes>)
    ensures Later(w, AfterCrash(w, pick, junk))
  {
    CrashNodes(w.fs, pick, junk);
  }

  lemma DiedLooksBack(w0: World, w: World, frozen: Option<Rec>, f: Fate)
    requires f.how.Dies? && DiedAfter(w0, w, frozen, f)
    ensures AllBack(w0, w)
  {
    hide Crash;
    var w1 :| Moved(w0, w1, frozen) && w == AfterCrash(w1, f.how.pick, f.how.junk);
    LaterCrash(w1, f.how.pick, f.how.junk);
    LaterAgain(w0, w1, w);
    forall p | Listed(p) ensures CrashedBack(w0, w, p) {
      MayAfterCrash(w1.fs, f.how.pick, f.how.junk, p);
      assert Steady(w0, w1, p);
    }
  }

  lemma PrefixOf(data: Bytes, all: Bytes, n: nat)
    requires data <= all && n <= |data|
    ensures data[..n] == all[..n]
  {
  }

  lemma WentSmooth(w0: World, w: World, x: Option<Ino>, before: bool, smooth: bool)
    requires Went(w0, w, x, None, None, before) && (smooth ==> before)
    ensures Went(w0, w, x, None, None, smooth)
  {
  }

  lemma WentOn(w0: World, w1: World, w2: World, i: Ino, smooth: bool)
    requires Went(w0, w1, Some(i), None, None, smooth) && Went(w1, w2, Some(i), None, None, true)
    ensures Went(w0, w2, Some(i), None, None, smooth)
  {
    hide Went;
    WentSmooth(w1, w2, Some(i), true, smooth);
    WentAgain(w0, w1, w2, Some(i), None, None, smooth, smooth);
  }

  lemma WentKept(w0: World, w: World, x: Option<Ino>, smooth: bool)
    requires Went(w0, w, x, None, None, smooth)
    ensures Kept(w0, w, x, None, None)
  {
  }

  lemma QuietRec(w0: World, w: World, x: Option<Ino>, d: Option<Path>, g: Option<Rec>, smooth: bool)
    requires Went(w0, w, x, d, g, smooth)
    ensures smooth ==> w.rec == w0.rec
  {
  }

  lemma BackAfter(w0: World, w1: World, w2: World, i: Ino, before: bool)
    requires Went(w0, w1, Some(i), None, None, before) && AllBack(w1, w2)
    ensures AllBack(w0, w2)
  {
    hide Kept, AllBack;
    BackAgain(w0, w1, w2, Some(i));
  }

  lemma SourceStays(w0: World, w: World, frozen: Option<Rec>, r: Rec)
    requires Moved(w0, w, frozen) && r in w0.rec
    ensures r in w.rec && Cur(w.fs, Src(r)) == Cur(w0.fs, Src(r)) && w0.rec[r] <= w.rec[r]
  {
  }

  lemma TempMade(c: Cipher, dirSyncs: bool, w: World, r: Rec, i: Ino, t: Path)
    requires ValidWorld(c, dirSyncs, w) && i !in w.fs.node && t.dir.Store? && !CastsIn(t.name)
    requires r in w.rec && Cur(w.fs, Src(r)).Some?
    ensures var w' := WithTemp(w, i, t);
            && ValidWorld(c, dirSyncs, w') && Working(w', r, i, t) && Went(w, w', Some(i), None, None, true)
            && w'.rec == w.rec && w'.fs.cur.Keys == w.fs.cur.Keys + {t}
  {
    hide Sound, Conserved, FiledOk, NoCollision, NoPlant, Preserves, Private, CastsIn, Kept, Quiet;
    FreshTemp(c, w, i, t);
    var w' := WithTemp(w, i, t);
    StillValid(c, dirSyncs, w, w');
    forall p ensures p != t ==> May(w'.fs, p) == May(w.fs, p) && Cur(w'.fs, p) == Cur(w.fs, p) {
      MayAfterSet(SetNode(w.fs, i, Node([], false)), t, Some(i), p);
    }
    assert !Listed(t);
    hide SetEntry, SetNode, Listed, Later;
    OtherNamesKept(w, w', t);
    WentWider(w, w', None, Some(i), None, None, None, None, true);
  }

  /** Nothing but the name t, which is nobody's, has changed. */
  lemma OtherNamesKept(w: World, w': World, t: Path)
    requires t.dir.Store? && w'.rec == w.rec && w'.own == w.own && w'.busy == w.busy && w'.log == w.log && w'.filed == w.filed
    requires forall p :: p != t ==> May(w'.fs, p) == May(w.fs, p) && Cur(w'.fs, p) == Cur(w.fs, p)
    requires w.fs.node.Keys <= w'.fs.node.Keys && forall j :: j in w.fs.node ==> w'.fs.node[j] == w.fs.node[j]
    ensures Went(w, w', None, Some(t), None, true)
    ensures !Listed(t) ==> Went(w, w', None, None, None, true)
  {
    hide CastsIn;
  }

  /** The final name refers to i, which is the sweep's copy and nobody's source. */
  ghost predicate Holding(c: Cipher, w: World, r: Rec, i: Ino) {
    HasCopy(c, w, r, Dst(r)) && Cur(w.fs, Dst(r)) == Some(i) && NoSource(w, i) && r in w.rec && Cur(w.fs, Src(r)).Some?
  }

  lemma NotASource(c: Cipher, dirSyncs: bool, w: World, r: Rec) returns (i: Ino)
    requires ValidWorld(c, dirSyncs, w) && HasCopy(c, w, r, Dst(r)) && Cur(w.fs, Src(r)).Some?
    ensures Holding(c, w, r, i)
  {
    hide Keeps;
    i := Cur(w.fs, Dst(r)).value;
    StoredIsNoSource(c, w, Dst(r), i);
  }

  lemma StoredIsNoSource(c: Cipher, w: World, p: Path, i: Ino)
    requires Sound(c, w) && p.dir.Store? && Cur(w.fs, p) == Some(i)
    ensures NoSource(w, i)
  {
    assert Cur(w.fs, p) in May(w.fs, p);
    forall s ensures Some(i) !in May(w.fs, Src(s)) {
      assert SourceOk(w, s) && Src(s) != p;
    }
  }

  lemma Renamed(c: Cipher, dirSyncs: bool, w: World, r: Rec, i: Ino, t: Path)
    requires ValidWorld(c, dirSyncs, w) && Working(w, r, i, t) && Ingestible(r.name) && t.dir == Dst(r).dir
    requires w.fs.node[i].synced && Keeps(c, w.log, w.fs.node[i].data, w.rec[r])
    ensures var w' := w.(fs := Rename(w.fs, t, Dst(r)));
            && ValidWorld(c, dirSyncs, w') && Holding(c, w', r, i) && Went(w, w', Some(i), Some(Dst(r)), None, true)
            && May(w'.fs, Dst(r)) == May(w.fs, Dst(r)) + {Some(i)} && w'.fs.node == w.fs.node
            && w'.fs.cur.Keys <= w.fs.cur.Keys - {t} + {Dst(r)}
  {
    hide Sound, Conserved, FiledOk, NoCollision, NoPlant, Preserves, Keeps, Ingestible, Base, Rename, CastsIn;
    var w' := w.(fs := Rename(w.fs, t, Dst(r)));
    Publish(c, w, r, i, t);
    StillValid(c, dirSyncs, w, w');
    assert t != Dst(r) by { IngestibleIsListed(r); }
    RenameLeaves(w.fs, t, Dst(r));
    RenameWent(c, dirSyncs, w, r, i, t);
    NotBusy(c, dirSyncs, w, i);
  }

  lemma NotBusy(c: Cipher, dirSyncs: bool, w: World, i: Ino)
    requires ValidWorld(c, dirSyncs, w)
    ensures i !in w.own ==> i !in w.busy
  {
  }

  lemma RenameLeaves(fs: Fs, a: Path, b: Path)
    ensures forall p :: p != a && p != b ==> May(Rename(fs, a, b), p) == May(fs, p) && Cur(Rename(fs, a, b), p) == Cur(fs, p)
    ensures Rename(fs, a, b).node == fs.node && (a != b ==> Rename(fs, a, b).cur.Keys <= fs.cur.Keys - {a} + {b})
  {
    forall p | p != a && p != b ensures May(Rename(fs, a, b), p) == May(fs, p) && Cur(Rename(fs, a, b), p) == Cur(fs, p) {
      MayAfterSet(fs, b, Cur(fs, a), p);
      MayAfterSet(SetEntry(fs, b, Cur(fs, a)), a, None, p);
    }
  }

  lemma RenameWent(c: Cipher, dirSyncs: bool, w: World, r: Rec, i: Ino, t: Path)
    requires ValidWorld(c, dirSyncs, w) && Working(w, r, i, t)
    ensures Went(w, w.(fs := Rename(w.fs, t, Dst(r))), Some(i), Some(Dst(r)), None, true)
  {
    hide ValidWorld, Rename, CastsIn, Base;
    RenameLeaves(w.fs, t, Dst(r));
    assert !Listed(t);
  }

  lemma StillHolding(c: Cipher, dirSyncs: bool, w: World, w': World, r: Rec, i: Ino)
    requires ValidWorld(c, dirSyncs, w') && Holding(c, w, r, i) && Moved(w, w', Some(r)) && Ingestible(r.name)
    ensures Holding(c, w', r, i) && May(w'.fs, Dst(r)) <= May(w.fs, Dst(r))
  {
    NotBusy(c, dirSyncs, w', i);
    hide Keeps, Base, ValidWorld;
    assert Steady(w, w', Dst(r));
  }

  lemma DiedHolding(c: Cipher, w0: World, w1: World, w: World, f: Fate, r: Rec, i: Ino)
    requires Holding(c, w1, r, i) && f.how.Dies? && DiedAfter(w1, w, Some(r), f) && Ingestible(r.name)
    requires w1 == w0.(fs := w1.fs) && w1.fs.node == w0.fs.node && May(w1.fs, Dst(r)) == May(w0.fs, Dst(r)) + {Some(i)}
    ensures OldOrNew(c, w0, w, r)
  {
    hide Keeps, Base, Crash, Ingestible;
    var w2 :| Moved(w1, w2, Some(r)) && w == AfterCrash(w2, f.how.pick, f.how.junk);
    LaterCrash(w2, f.how.pick, f.how.junk);
    LaterAgain(w1, w2, w);
    assert Steady(w1, w2, Dst(r));
    MayAfterCrash(w2.fs, f.how.pick, f.how.junk, Dst(r));
    CrashKeepsSynced(w2.fs, f.how.pick, f.how.junk, i);
  }

  lemma Synced(c: Cipher, dirSyncs: bool, w: World, r: Rec, i: Ino, smooth: bool)
    requires ValidWorld(c, dirSyncs, w) && Holding(c, w, r, i)
    ensures var w' := w.(fs := SyncDir(w.fs, Dst(r).dir));
            && ValidWorld(c, dirSyncs, w') && Holding(c, w', r, i) && Went(w, w', Some(i), Some(Dst(r)), None, smooth)
            && May(w'.fs, Dst(r)) == {Cur(w'.fs, Dst(r))} && w'.fs.cur == w.fs.cur
  {
    hide Sound, Conserved, FiledOk, NoCollision, NoPlant, Preserves, Keeps, Base, SyncDir, CastsIn;
    var w' := w.(fs := SyncDir(w.fs, Dst(r).dir));
    DirSynced(c, w, Dst(r).dir);
    forall p ensures Cur(w'.fs, p) == Cur(w.fs, p) && May(w'.fs, p) <= May(w.fs, p) {
      MayAfterSync(w.fs, Dst(r).dir, p);
    }
    MayAfterSync(w.fs, Dst(r).dir, Dst(r));
    StillValid(c, dirSyncs, w, w');
  }

  lemma TempGone(c: Cipher, dirSyncs: bool, w: World, i: Ino, t: Path)
    requires ValidWorld(c, dirSyncs, w) && Private(w, i, t)
    ensures var w' := w.(fs := SetEntry(w.fs, t, None));
            ValidWorld(c, dirSyncs, w') && Went(w, w', Some(i), None, None, true)
  {
    hide Sound, Conserved, FiledOk, NoCollision, NoPlant, Preserves, CastsIn, SetEntry;
    var w' := w.(fs := SetEntry(w.fs, t, None));
    TempEntry(c, w, t, None);
    forall p ensures p != t ==> May(w'.fs, p) == May(w.fs, p) && Cur(w'.fs, p) == Cur(w.fs, p) {
      MayAfterSet(w.fs, t, None, p);
    }
    MayAfterSet(w.fs, t, None, t);
    StillValid(c, dirSyncs, w, w');
    OtherNamesKept(w, w', t);
    hide Went;
    assert !Listed(t);
    WentWider(w, w', None, Some(i), None, None, None, None, true);
  }

  lemma SourceGone(c: Cipher, dirSyncs: bool, w: World, r: Rec, i: Ino, smooth: bool)
    requires ValidWorld(c, dirSyncs, w) && Holding(c, w, r, i) && Ingestible(r.name)
    requires dirSyncs ==> May(w.fs, Dst(r)) == {Cur(w.fs, Dst(r))}
    ensures var w' := w.(fs := SetEntry(w.fs, Src(r), None));
            && ValidWorld(c, dirSyncs, w') && HasCopy(c, w', r, Dst(r)) && Cur(w'.fs, Src(r)) == None
            && Went(w, w', None, None, Some(r), smooth)
  {
    hide Sound, Conserved, FiledOk, NoCollision, NoPlant, Keeps, Base, CastsIn, Ingestible, SetEntry;
    var w' := w.(fs := SetEntry(w.fs, Src(r), None));
    RemoveSource(c, w, r);
    forall p ensures p != Src(r) ==> May(w'.fs, p) == May(w.fs, p) && Cur(w'.fs, p) == Cur(w.fs, p) {
      MayAfterSet(w.fs, Src(r), None, p);
    }
    MayAfterSet(w.fs, Src(r), None, Src(r));
    assert NoCollision(w') == NoCollision(w) && NoPlant(w') == NoPlant(w) by { LaterClash(w, w'); LaterClash(w', w); }
    SourceWent(w, w', r, smooth);
  }

  lemma SourceWent(w: World, w': World, r: Rec, smooth: bool)
    requires w' == w.(fs := w'.fs) && w'.fs.node == w.fs.node && May(w'.fs, Src(r)) == May(w.fs, Src(r)) + {None}
    requires forall p :: p != Src(r) ==> May(w'.fs, p) == May(w.fs, p) && Cur(w'.fs, p) == Cur(w.fs, p)
    ensures Went(w, w', None, None, Some(r), smooth)
  {
    hide CastsIn;
    assert forall s :: s != r ==> Src(s) != Src(r);
  }
}
