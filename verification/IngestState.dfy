/** Recordings on their way to the central store, and what no single step, crash included, may break. */
module IngestState {
  import opened Common
  import opened Crypto
  import opened FileSystem

  datatype Rec = Rec(home: string, name: string)

  function Src(r: Rec): Path {
    Path(Local(r.home), r.name)
  }

  /** The central copy is filed under the base name of the home directory. */
  function Dst(r: Rec): Path {
    Path(Store(Base(r.home)), r.name)
  }

  /**
   * The store is shared with the daemon's own sessions, which create their files under the names that listings show
   * and write them while sweeps go on; older files, encrypted, plain or torn, count as theirs too.
   */
  datatype World = World(
    fs: Fs,
    rec: map<Rec, Bytes>,     // what each user has recorded at home
    log: set<Sealed>,         // every seal the sweeps have made
    own: set<Ino>,            // the files of the daemon's own sessions
    busy: set<Ino>,           // those of them still being written
    filed: map<Path, Bytes>)  // what they have brought safely to disk

  // ------------------------------------------------------------------ content

  /** `data` is a whole encrypted stream of `content`. */
  ghost predicate Keeps(c: Cipher, log: set<Sealed>, data: Bytes, content: Bytes) {
    exists sid: Bytes, frames: seq<Frame> :: IsStream(c, log, data, content, sid, frames)
  }

  ghost predicate IsStream(c: Cipher, log: set<Sealed>, data: Bytes, content: Bytes, sid: Bytes, frames: seq<Frame>) {
    && |sid| == STREAM_ID_SIZE && AllFit(frames) && Logged(log, Some(sid), 0, frames)
    && data == StreamFile(c, sid, frames) && Concat(Plains(frames)) == content
  }

  ghost predicate Complete(c: Cipher, log: set<Sealed>, data: Bytes) {
    exists content: Bytes :: Keeps(c, log, data, content)
  }

  lemma LoggedMore(log: set<Sealed>, more: set<Sealed>, sid: Option<Bytes>, frames: seq<Frame>)
    requires Logged(log, sid, 0, frames) && log <= more
    ensures Logged(more, sid, 0, frames)
  {
  }

  lemma KeepsMore(c: Cipher, log: set<Sealed>, more: set<Sealed>, data: Bytes, content: Bytes)
    requires Keeps(c, log, data, content) && log <= more
    ensures Keeps(c, more, data, content)
  {
    hide OpenCast, StreamFile, Plains, AllFit, Logged;
    var sid, frames :| IsStream(c, log, data, content, sid, frames);
    LoggedMore(log, more, Some(sid), frames);
    assert IsStream(c, more, data, content, sid, frames);
  }

  lemma CompleteMore(c: Cipher, log: set<Sealed>, more: set<Sealed>, data: Bytes)
    requires Complete(c, log, data) && log <= more
    ensures Complete(c, more, data)
  {
    hide Keeps;
    var content :| Keeps(c, log, data, content);
    KeepsMore(c, log, more, data, content);
  }

  /** A kept copy decrypts to what it is a copy of. */
  lemma KeptDecrypts(c: Cipher, log: set<Sealed>, data: Bytes, content: Bytes)
    requires Correct(c, log) && Keeps(c, log, data, content)
    ensures OpenCast(c, data) == content
  {
    hide Correct, OpenCast, StreamFile, Plains, AllFit, Logged;
    var sid, frames :| IsStream(c, log, data, content, sid, frames);
    RoundTrip(c, log, sid, frames);
  }

  // ---------------------------------------------------------------- invariant

  ghost predicate Live(w: World, p: Path) {
    forall i :: Some(i) in May(w.fs, p) ==> i in w.fs.node
  }

  /** A source file is one inode of its own, on disk, holding what was recorded; once removed it may come back. */
  ghost predicate SourceOk(w: World, r: Rec) {
    && (May(w.fs, Src(r)) != {None} ==> r in w.rec)
    && (Cur(w.fs, Src(r)).Some? ==> May(w.fs, Src(r)) == {Cur(w.fs, Src(r))})
    && forall i :: Some(i) in May(w.fs, Src(r)) ==> OwnedBy(w, r, i)
  }

  ghost predicate OwnedBy(w: World, r: Rec, i: Ino) {
    && r in w.rec && i in w.fs.node && w.fs.node[i] == Node(w.rec[r], true) && i !in w.own
    && forall p :: p != Src(r) ==> Some(i) !in May(w.fs, p)
  }

  predicate Listed(p: Path) {
    p.dir.Store? && CastsIn(p.name)
  }

  /** What a listing shows is a file of the daemon's own sessions, or a whole, synced stream. */
  ghost predicate StoredOk(c: Cipher, w: World, p: Path) {
    forall i :: Some(i) in May(w.fs, p) ==> i in w.own || Whole(c, w, i)
  }

  ghost predicate Whole(c: Cipher, w: World, i: Ino) {
    i in w.fs.node && w.fs.node[i].synced && Complete(c, w.log, w.fs.node[i].data)
  }

  ghost predicate Sound(c: Cipher, w: World) {
    && (forall p :: Live(w, p))
    && (forall r :: SourceOk(w, r))
    && (forall p :: Listed(p) ==> StoredOk(c, w, p))
    && w.busy <= w.own <= w.fs.node.Keys
  }

  ghost predicate AtSource(w: World, r: Rec) {
    None !in May(w.fs, Src(r))
  }

  ghost predicate InStore(c: Cipher, w: World, r: Rec) {
    && r in w.rec && None !in May(w.fs, Dst(r))
    && forall i :: Some(i) in May(w.fs, Dst(r)) ==> Copy(c, w, r, i)
  }

  /** A file that is, for good, a copy of what r has recorded. */
  ghost predicate Copy(c: Cipher, w: World, r: Rec, i: Ino) {
    r in w.rec && i in w.fs.node && w.fs.node[i].synced && i !in w.busy && Keeps(c, w.log, w.fs.node[i].data, w.rec[r])
  }

  /** Whatever a crash does now, every recording is still at its source or whole in the central store. */
  ghost predicate Conserved(c: Cipher, w: World) {
    forall r :: r in w.rec ==> AtSource(w, r) || (Ingestible(r.name) && InStore(c, w, r))
  }

  /** No two local recordings are filed under one name. */
  predicate NoCollision(w: World) {
    forall r, s :: r in w.rec && s in w.rec && Ingestible(r.name) && Ingestible(s.name) && Dst(r) == Dst(s) ==> r == s
  }

  /** What the daemon's own sessions brought to disk is there, byte for byte, whatever a crash does now. */
  ghost predicate FiledOk(w: World) {
    forall p :: p in w.filed ==> FiledAt(w, p)
  }

  ghost predicate FiledAt(w: World, p: Path) {
    && p in w.filed && Listed(p) && Cur(w.fs, p).Some? && May(w.fs, p) == {Cur(w.fs, p)}
    && var i := Cur(w.fs, p).value; i in w.fs.node && w.fs.node[i] == Node(w.filed[p], true) && i in w.own && i !in w.busy
  }

  /** No local recording is named like one of those. */
  predicate NoPlant(w: World) {
    forall r :: r in w.rec && Ingestible(r.name) ==> Dst(r) !in w.filed
  }

  /** A step that keeps all three, the latter two where no name clashes after it. */
  ghost predicate Preserves(c: Cipher, w: World, w': World) {
    && Sound(c, w')
    && (Conserved(c, w) && NoCollision(w') ==> Conserved(c, w'))
    && (FiledOk(w) && NoPlant(w') ==> FiledOk(w'))
  }

  /** An inode reached through one name only, and that name not a recording's. */
  ghost predicate Private(w: World, i: Ino, t: Path) {
    && i in w.fs.node && i !in w.own && i !in w.busy && t.dir.Store? && !CastsIn(t.name)
    && forall p :: p != t ==> Some(i) !in May(w.fs, p)
  }

  /** The name refers to a whole, synced copy of what r has recorded, made by a sweep. */
  ghost predicate HasCopy(c: Cipher, w: World, r: Rec, p: Path) {
    Cur(w.fs, p).Some? && Copy(c, w, r, Cur(w.fs, p).value) && Cur(w.fs, p).value !in w.own
  }

  ghost predicate NoSource(w: World, i: Ino) {
    forall r :: Some(i) !in May(w.fs, Src(r))
  }

  lemma OwnIsNoSource(c: Cipher, w: World, i: Ino)
    requires Sound(c, w) && i in w.own
    ensures NoSource(w, i)
  {
    forall r ensures Some(i) !in May(w.fs, Src(r)) {
      assert SourceOk(w, r);
      assert Some(i) in May(w.fs, Src(r)) ==> OwnedBy(w, r, i);
    }
  }

  lemma IngestibleIsListed(r: Rec)
    requires Ingestible(r.name)
    ensures Listed(Dst(r))
  {
  }

  lemma WholeMore(c: Cipher, w: World, w': World, i: Ino)
    requires Whole(c, w, i) && w.log <= w'.log && i in w'.fs.node && w'.fs.node[i] == w.fs.node[i]
    ensures Whole(c, w', i)
  {
    CompleteMore(c, w.log, w'.log, w.fs.node[i].data);
  }

  lemma CopyMore(c: Cipher, w: World, w': World, r: Rec, i: Ino)
    requires Copy(c, w, r, i) && w.log <= w'.log && i in w'.fs.node && w'.fs.node[i] == w.fs.node[i]
    requires w'.busy <= w.busy && r in w'.rec && w'.rec[r] == w.rec[r]
    ensures Copy(c, w', r, i)
  {
    KeepsMore(c, w.log, w'.log, w.fs.node[i].data, w.rec[r]);
  }

  // ---------------------------------------------------- steps that change a file

  /**
   * Writing to or syncing a file that no recording depends on: one with a temporary name, or one that a session of
   * the daemon has open. More seals, and sessions that end, disturb nothing either.
   */
  lemma FileStep(c: Cipher, w: World, i: Ino, n: Node, log: set<Sealed>, busy: set<Ino>)
    requires Sound(c, w) && i in w.fs.node && NoSource(w, i) && w.log <= log && busy <= w.busy
    requires i in w.busy || forall p :: Listed(p) ==> Some(i) !in May(w.fs, p)
    ensures Preserves(c, w, w.(fs := SetNode(w.fs, i, n), log := log, busy := busy))
  {
    hide Keeps, Complete, Whole, Copy, NoCollision, CastsIn, Ingestible, Base, Listed;
    var w' := w.(fs := SetNode(w.fs, i, n), log := log, busy := busy);
    assert forall p :: May(w'.fs, p) == May(w.fs, p) && Cur(w'.fs, p) == Cur(w.fs, p);
    forall p ensures Live(w', p) {
      assert Live(w, p);
    }
    forall r ensures SourceOk(w', r) {
      assert SourceOk(w, r);
      forall k | Some(k) in May(w.fs, Src(r)) ensures OwnedBy(w', r, k) {
        assert OwnedBy(w, r, k);
      }
    }
    forall p | Listed(p) ensures StoredOk(c, w', p) {
      assert StoredOk(c, w, p);
      forall k | Some(k) in May(w.fs, p) && k !in w.own ensures Whole(c, w', k) {
        KnownWhole(c, w, k);
        WholeMore(c, w, w', k);
      }
    }
    if Conserved(c, w) {
      forall r | r in w.rec && !AtSource(w', r) ensures Ingestible(r.name) && InStore(c, w', r) {
        assert InStore(c, w, r);
        IngestibleIsListed(r);
        forall k | Some(k) in May(w.fs, Dst(r)) ensures Copy(c, w', r, k) {
          KnownCopy(c, w, r, k);
          CopyMore(c, w, w', r, k);
        }
      }
    }
    if FiledOk(w) {
      forall p | p in w'.filed ensures FiledAt(w', p) {
        assert FiledAt(w, p);
      }
    }
  }

  lemma KnownWhole(c: Cipher, w: World, i: Ino)
    requires Whole(c, w, i)
    ensures i in w.fs.node
  {
  }

  lemma KnownCopy(c: Cipher, w: World, r: Rec, i: Ino)
    requires Copy(c, w, r, i)
    ensures i in w.fs.node && w.fs.node[i].synced && i !in w.busy
  {
  }

  lemma PrivateWrite(c: Cipher, w: World, i: Ino, t: Path, n: Node, log: set<Sealed>)
    requires Sound(c, w) && Private(w, i, t) && w.log <= log
    ensures var w' := w.(fs := SetNode(w.fs, i, n), log := log); Preserves(c, w, w') && Private(w', i, t)
  {
    hide Preserves, Sound;
    FileStep(c, w, i, n, log, w.busy);
    var w' := w.(fs := SetNode(w.fs, i, n), log := log);
    assert w' == w.(fs := SetNode(w.fs, i, n), log := log, busy := w.busy);
    assert forall p :: May(w'.fs, p) == May(w.fs, p);
  }

  // --------------------------------------------------- steps that change a name

  /** Names in the store: what a new entry may refer to. */
  ghost predicate MayName(c: Cipher, w: World, p: Path, v: Option<Ino>) {
    v.Some? ==> v.value in w.fs.node && NoSource(w, v.value) && (Listed(p) ==> v.value in w.own || Whole(c, w, v.value))
  }

  lemma StoreEntrySound(c: Cipher, w: World, p: Path, v: Option<Ino>)
    requires Sound(c, w) && p.dir.Store? && MayName(c, w, p, v)
    ensures Sound(c, w.(fs := SetEntry(w.fs, p, v)))
  {
    hide Keeps, Complete, CastsIn, Base;
    var w' := w.(fs := SetEntry(w.fs, p, v));
    forall q ensures May(w'.fs, q) == (if q == p then May(w.fs, p) + {v} else May(w.fs, q)) && Live(w', q) {
      MayAfterSet(w.fs, p, v, q);
      assert Live(w, q);
    }
    forall r ensures SourceOk(w', r) {
      assert SourceOk(w, r) && Src(r) != p;
      MayAfterSet(w.fs, p, v, Src(r));
      forall k | Some(k) in May(w.fs, Src(r)) ensures OwnedBy(w', r, k) {
        assert OwnedBy(w, r, k);
      }
    }
    forall q | Listed(q) ensures StoredOk(c, w', q) {
      assert StoredOk(c, w, q);
      forall k | Some(k) in May(w'.fs, q) && k !in w.own ensures Whole(c, w', k) {
        assert Whole(c, w, k);
      }
    }
  }

  /** A new value for p is safe if every recording filed under p is still at home, or is what the value holds. */
  lemma StoreEntry(c: Cipher, w: World, p: Path, v: Option<Ino>)
    requires Sound(c, w) && p.dir.Store? && MayName(c, w, p, v)
    requires Conserved(c, w) && NoCollision(w) ==> forall r :: r in w.rec && Ingestible(r.name) && Dst(r) == p ==>
      AtSource(w, r) || (v.Some? && Copy(c, w, r, v.value))
    requires FiledOk(w) && NoPlant(w) ==> p !in w.filed
    ensures Preserves(c, w, w.(fs := SetEntry(w.fs, p, v)))
  {
    StoreEntrySound(c, w, p, v);
    hide Keeps, Ingestible, Base, Sound, CastsIn;
    var w' := w.(fs := SetEntry(w.fs, p, v));
    if Conserved(c, w) && NoCollision(w') {
      assert NoCollision(w);
      forall r | r in w.rec ensures AtSource(w', r) || (Ingestible(r.name) && InStore(c, w', r)) {
        MayAfterSet(w.fs, p, v, Src(r));
        MayAfterSet(w.fs, p, v, Dst(r));
        if !AtSource(w', r) {
          assert InStore(c, w, r);
          forall k | Some(k) in May(w'.fs, Dst(r)) ensures Copy(c, w', r, k) {
            assert Copy(c, w, r, k);
          }
        }
      }
    }
    if FiledOk(w) && NoPlant(w') {
      assert NoPlant(w);
      forall q | q in w'.filed ensures FiledAt(w', q) {
        MayAfterSet(w.fs, p, v, q);
        assert FiledAt(w, q);
      }
    }
  }

  /** Creating or removing a temporary file. */
  lemma TempEntry(c: Cipher, w: World, t: Path, v: Option<Ino>)
    requires Sound(c, w) && t.dir.Store? && !CastsIn(t.name)
    requires v.Some? ==> v.value in w.fs.node && NoSource(w, v.value)
    ensures Preserves(c, w, w.(fs := SetEntry(w.fs, t, v)))
  {
    assert FiledOk(w) && t in w.filed ==> FiledAt(w, t);
    StoreEntry(c, w, t, v);
  }

  /** A new, empty file without a name; a session's or not. */
  lemma FreshNode(c: Cipher, w: World, i: Ino, session: bool)
    requires Sound(c, w) && i !in w.fs.node
    ensures forall p :: Some(i) !in May(w.fs, p)
    ensures Preserves(c, w, Fresh(w, i, session))
  {
    hide Keeps, Complete, NoCollision, CastsIn, Ingestible, Base;
    var w' := Fresh(w, i, session);
    forall p ensures Some(i) !in May(w.fs, p) && May(w'.fs, p) == May(w.fs, p) && Live(w', p) {
      assert Live(w, p);
    }
    forall r ensures SourceOk(w', r) {
      assert SourceOk(w, r);
      forall k | Some(k) in May(w.fs, Src(r)) ensures OwnedBy(w', r, k) {
        assert OwnedBy(w, r, k);
      }
    }
    forall p | Listed(p) ensures StoredOk(c, w', p) {
      assert StoredOk(c, w, p);
    }
    if Conserved(c, w) {
      forall r | r in w.rec && !AtSource(w', r) ensures Ingestible(r.name) && InStore(c, w', r) {
        assert InStore(c, w, r);
        forall k | Some(k) in May(w'.fs, Dst(r)) ensures Copy(c, w', r, k) {
          assert Copy(c, w, r, k);
        }
      }
    }
    if FiledOk(w) {
      forall p | p in w'.filed ensures FiledAt(w', p) {
        assert FiledAt(w, p);
      }
    }
  }

  function Fresh(w: World, i: Ino, session: bool): World {
    w.(fs := SetNode(w.fs, i, Node([], false)),
       own := if session then w.own + {i} else w.own, busy := if session then w.busy + {i} else w.busy)
  }

  function WithTemp(w: World, i: Ino, t: Path): World {
    w.(fs := SetEntry(SetNode(w.fs, i, Node([], false)), t, Some(i)))
  }

  lemma FreshTemp(c: Cipher, w: World, i: Ino, t: Path)
    requires Sound(c, w) && i !in w.fs.node && t.dir.Store? && !CastsIn(t.name)
    ensures Preserves(c, w, WithTemp(w, i, t)) && Private(WithTemp(w, i, t), i, t)
  {
    hide Conserved, CastsIn, FiledOk, Live, SourceOk, StoredOk;
    FreshNode(c, w, i, false);
    var w1 := Fresh(w, i, false);
    assert forall p :: May(w1.fs, p) == May(w.fs, p);
    TempEntry(c, w1, t, Some(i));
    var w2 := WithTemp(w, i, t);
    assert w2 == w1.(fs := SetEntry(w1.fs, t, Some(i)));
    assert NoCollision(w2) ==> NoCollision(w1);
    assert NoPlant(w2) ==> NoPlant(w1);
    forall p | p != t ensures Some(i) !in May(SetEntry(w1.fs, t, Some(i)), p) {
      MayAfterSet(w1.fs, t, Some(i), p);
    }
  }

  /** Putting a whole, synced copy of r under its final name. */
  lemma Publish(c: Cipher, w: World, r: Rec, i: Ino, t: Path)
    requires Sound(c, w) && Private(w, i, t) && Cur(w.fs, t) == Some(i)
    requires r in w.rec && Ingestible(r.name) && w.fs.node[i].synced && Keeps(c, w.log, w.fs.node[i].data, w.rec[r])
    ensures var w' := w.(fs := Rename(w.fs, t, Dst(r)));
            && Preserves(c, w, w')
            && Cur(w'.fs, Dst(r)) == Some(i) && w'.fs.node == w.fs.node
            && May(w'.fs, Dst(r)) == May(w.fs, Dst(r)) + {Some(i)}
  {
    var d := Dst(r);
    IngestibleIsListed(r);
    assert Complete(c, w.log, w.fs.node[i].data);
    assert Copy(c, w, r, i);
    var w1 := w.(fs := SetEntry(w.fs, d, Some(i)));
    hide Keeps, Complete, CastsIn, Ingestible, Base, Live, SourceOk, StoredOk, Conserved, FiledOk, Copy, Whole;
    assert MayName(c, w, d, Some(i)) by { IsWhole(c, w, i); }
    StoreEntry(c, w, d, Some(i));
    MayAfterSet(w.fs, d, Some(i), t);
    MayAfterSet(w.fs, d, Some(i), d);
    MayAfterSet(w1.fs, t, None, d);
    TempEntry(c, w1, t, None);
    assert NoCollision(w1.(fs := SetEntry(w1.fs, t, None))) ==> NoCollision(w1);
    assert NoPlant(w1.(fs := SetEntry(w1.fs, t, None))) ==> NoPlant(w1);
  }

  lemma IsWhole(c: Cipher, w: World, i: Ino)
    requires i in w.fs.node && w.fs.node[i].synced && Complete(c, w.log, w.fs.node[i].data)
    ensures Whole(c, w, i)
  {
  }

  // --------------------------------------------- steps that leave fewer outcomes

  lemma SmallerSound(c: Cipher, w: World, fs: Fs)
    requires Sound(c, w) && fs.node == w.fs.node
    requires forall p :: Cur(fs, p) == Cur(w.fs, p) && May(fs, p) <= May(w.fs, p)
    ensures Sound(c, w.(fs := fs))
  {
    hide Keeps, Complete, CastsIn, Base;
    var w' := w.(fs := fs);
    forall p ensures Live(w', p) {
      assert Live(w, p);
    }
    forall r ensures SourceOk(w', r) {
      assert SourceOk(w, r);
      assert Cur(fs, Src(r)) in May(fs, Src(r));
      forall k | Some(k) in May(fs, Src(r)) ensures OwnedBy(w', r, k) {
        assert OwnedBy(w, r, k);
      }
    }
    forall p | Listed(p) ensures StoredOk(c, w', p) {
      assert StoredOk(c, w, p);
      forall k | Some(k) in May(fs, p) && k !in w.own ensures Whole(c, w', k) {
        assert Whole(c, w, k);
      }
    }
  }

  lemma Smaller(c: Cipher, w: World, fs: Fs)
    requires Sound(c, w) && fs.node == w.fs.node
    requires forall p :: Cur(fs, p) == Cur(w.fs, p) && May(fs, p) <= May(w.fs, p)
    ensures Preserves(c, w, w.(fs := fs))
  {
    SmallerSound(c, w, fs);
    hide Keeps, NoCollision, Ingestible, Base, Sound, CastsIn;
    var w' := w.(fs := fs);
    if Conserved(c, w) {
      forall r | r in w.rec && !AtSource(w', r) ensures Ingestible(r.name) && InStore(c, w', r) {
        assert InStore(c, w, r);
        forall k | Some(k) in May(fs, Dst(r)) ensures Copy(c, w', r, k) {
          assert Copy(c, w, r, k);
        }
      }
    }
    if FiledOk(w) {
      forall p | p in w'.filed ensures FiledAt(w', p) {
        assert FiledAt(w, p);
        assert Cur(fs, p) in May(fs, p);
      }
    }
  }

  lemma DirSynced(c: Cipher, w: World, d: Dir)
    requires Sound(c, w)
    ensures Preserves(c, w, w.(fs := SyncDir(w.fs, d)))
  {
    hide Sound, Preserves;
    forall p ensures Cur(SyncDir(w.fs, d), p) == Cur(w.fs, p) && May(SyncDir(w.fs, d), p) <= May(w.fs, p) {
      MayAfterSync(w.fs, d, p);
    }
    Smaller(c, w, SyncDir(w.fs, d));
  }

  /** The source may go once the store has the recording for good. */
  lemma RemoveSource(c: Cipher, w: World, r: Rec)
    requires Sound(c, w) && r in w.rec
    ensures var w' := w.(fs := SetEntry(w.fs, Src(r), None));
            && Sound(c, w')
            && (Conserved(c, w) && Ingestible(r.name) && InStore(c, w, r) ==> Conserved(c, w'))
            && (FiledOk(w) ==> FiledOk(w'))
  {
    hide Keeps, Complete, NoCollision, CastsIn, Ingestible, Base;
    var w' := w.(fs := SetEntry(w.fs, Src(r), None));
    forall p ensures May(w'.fs, p) == (if p == Src(r) then May(w.fs, p) + {None} else May(w.fs, p)) && Live(w', p) {
      MayAfterSet(w.fs, Src(r), None, p);
      assert Live(w, p);
    }
    forall s ensures SourceOk(w', s) {
      assert SourceOk(w, s);
      MayAfterSet(w.fs, Src(r), None, Src(s));
      forall k | Some(k) in May(w'.fs, Src(s)) ensures OwnedBy(w', s, k) {
        assert OwnedBy(w, s, k);
      }
    }
    forall p | Listed(p) ensures StoredOk(c, w', p) {
      assert StoredOk(c, w, p);
    }
    if Conserved(c, w) && Ingestible(r.name) && InStore(c, w, r) {
      forall s | s in w.rec && !AtSource(w', s) ensures Ingestible(s.name) && InStore(c, w', s) {
        assert s != r ==> Src(s) != Src(r);
        assert InStore(c, w, s);
        forall k | Some(k) in May(w'.fs, Dst(s)) ensures Copy(c, w', s, k) {
          assert Copy(c, w, s, k);
        }
      }
    }
    if FiledOk(w) {
      forall p | p in w'.filed ensures FiledAt(w', p) {
        MayAfterSet(w.fs, Src(r), None, p);
        assert FiledAt(w, p);
      }
    }
  }

  // ------------------------------------------------------------------- crashes

  /** The daemon and its sessions go down with the machine. */
  function AfterCrash(w: World, pick: map<Path, Option<Ino>>, junk: map<Ino, Bytes>): World {
    w.(fs := Crash(w.fs, pick, junk), busy := {})
  }

  lemma CrashNodes(fs: Fs, pick: map<Path, Option<Ino>>, junk: map<Ino, Bytes>)
    ensures Crash(fs, pick, junk).node.Keys == fs.node.Keys
  {
  }

  lemma CrashSound(c: Cipher, w: World, pick: map<Path, Option<Ino>>, junk: map<Ino, Bytes>)
    requires Sound(c, w)
    ensures Sound(c, AfterCrash(w, pick, junk))
  {
    hide Keeps, Complete, CastsIn, Base, Crash;
    var w' := AfterCrash(w, pick, junk);
    CrashNodes(w.fs, pick, junk);
    forall p
      ensures May(w'.fs, p) == {Cur(w'.fs, p)} <= May(w.fs, p) && Live(w', p)
    {
      MayAfterCrash(w.fs, pick, junk, p);
      assert Live(w, p);
    }
    forall r ensures SourceOk(w', r) {
      assert SourceOk(w, r);
      forall k | Some(k) in May(w'.fs, Src(r)) ensures OwnedBy(w', r, k) {
        assert OwnedBy(w, r, k);
        CrashKeepsSynced(w.fs, pick, junk, k);
      }
    }
    forall p | Listed(p) ensures StoredOk(c, w', p) {
      assert StoredOk(c, w, p);
      forall k | Some(k) in May(w'.fs, p) && k !in w.own ensures Whole(c, w', k) {
        assert Whole(c, w, k);
        CrashKeepsSynced(w.fs, pick, junk, k);
      }
    }
  }

  /** No crash, wherever it strikes, breaks soundness or loses a recording, swept or the daemon's own. */
  lemma Crashes(c: Cipher, w: World, pick: map<Path, Option<Ino>>, junk: map<Ino, Bytes>)
    requires Sound(c, w)
    ensures var w' := AfterCrash(w, pick, junk);
            Sound(c, w') && (Conserved(c, w) ==> Conserved(c, w')) && (FiledOk(w) ==> FiledOk(w'))
  {
    hide Keeps, NoCollision, CastsIn, Ingestible, Base, Crash, Sound;
    CrashSound(c, w, pick, junk);
    var w' := AfterCrash(w, pick, junk);
    forall p ensures May(w'.fs, p) == {Cur(w'.fs, p)} <= May(w.fs, p) {
      MayAfterCrash(w.fs, pick, junk, p);
    }
    if Conserved(c, w) {
      forall r | r in w.rec && !AtSource(w', r) ensures Ingestible(r.name) && InStore(c, w', r) {
        assert InStore(c, w, r);
        forall k | Some(k) in May(w'.fs, Dst(r)) ensures Copy(c, w', r, k) {
          assert Copy(c, w, r, k);
          CrashKeepsSynced(w.fs, pick, junk, k);
        }
      }
    }
    if FiledOk(w) {
      forall p | p in w'.filed ensures FiledAt(w', p) {
        assert FiledAt(w, p);
        CrashKeepsSynced(w.fs, pick, junk, Cur(w.fs, p).value);
      }
    }
  }

  // ------------------------------------------------------- what the others do

  /**
   * Users record at home; the daemon's sessions make files in the store, write whatever bytes a write leaves of a
   * frame, remove the file of a session that is turned away, and end, synced or not; directories reach the disk; and
   * a session's file that has is filed.
   */
  datatype Act =
    | Grow(rec: Rec, more: Bytes)
    | Create(rec: Rec, content: Bytes, ino: Ino)
    | Begin(path: Path, ino: Ino)
    | Extend(ino: Ino, more: Bytes)
    | Drop(path: Path)
    | End(ino: Ino, synced: bool)
    | Settle(user: string)
    | File(path: Path)

  /** A session's file is never made under a name that is taken; a new recording has a name of its own at home. */
  predicate CanAct(w: World, a: Act, frozen: Option<Rec>) {
    match a
    case Grow(r, _) => r in w.rec && Src(r) in w.fs.cur && w.fs.cur[Src(r)] in w.fs.node && frozen != Some(r)
    case Create(r, content, i) => r !in w.rec && i !in w.fs.node
    case Begin(p, i) => Listed(p) && p !in w.fs.cur && i !in w.fs.node
    case Extend(i, _) => i in w.busy && i in w.fs.node
    case Drop(p) => Listed(p) && p in w.fs.cur && w.fs.cur[p] in w.busy
    case End(i, _) => i in w.busy && i in w.fs.node
    case Settle(_) => true
    case File(p) =>
      && Listed(p) && p !in w.filed && p in w.fs.cur && May(w.fs, p) == {Cur(w.fs, p)}
      && var i := w.fs.cur[p]; i in w.own && i !in w.busy && i in w.fs.node && w.fs.node[i].synced
  }

  function DoAct(w: World, a: Act): World
    requires CanAct(w, a, None)
  {
    match a
    case Grow(r, more) =>
      w.(fs := SetNode(w.fs, w.fs.cur[Src(r)], Node(w.rec[r] + more, true)), rec := w.rec[r := w.rec[r] + more])
    case Create(r, content, i) =>
      w.(fs := Fs(w.fs.cur[Src(r) := i], w.fs.stale - {Src(r)}, w.fs.node[i := Node(content, true)]),
         rec := w.rec[r := content])
    case Begin(p, i) => Begun(w, p, i)
    case Extend(i, more) => w.(fs := SetNode(w.fs, i, Node(w.fs.node[i].data + more, false)))
    case Drop(p) => w.(fs := SetEntry(w.fs, p, None))
    case End(i, synced) =>
      w.(fs := SetNode(w.fs, i, Node(w.fs.node[i].data, synced || w.fs.node[i].synced)), busy := w.busy - {i})
    case Settle(user) => w.(fs := SyncDir(w.fs, Store(user)))
    case File(p) => w.(filed := w.filed[p := w.fs.node[w.fs.cur[p]].data])
  }

  function Begun(w: World, p: Path, i: Ino): World {
    var w1 := Fresh(w, i, true); w1.(fs := SetEntry(w1.fs, p, Some(i)))
  }

  lemma Unfreeze(w: World, a: Act, frozen: Option<Rec>)
    requires CanAct(w, a, frozen)
    ensures CanAct(w, a, None)
  {
  }

  /** What reading the file under a name gives. */
  function Data(w: World, p: Path): Option<Bytes> {
    if p in w.fs.cur && w.fs.cur[p] in w.fs.node then Some(w.fs.node[w.fs.cur[p]].data) else None
  }

  /** Users see their recordings come and grow; nothing else they see changes. */
  lemma RecordingsGrow(c: Cipher, w: World, r: Rec, content: Bytes, more: Bytes, i: Ino)
    requires Sound(c, w)
    ensures CanAct(w, Create(r, content, i), None) ==>
      var z := DoAct(w, Create(r, content, i));
      Data(z, Src(r)) == Some(content) && z.rec == w.rec[r := content]
    ensures CanAct(w, Grow(r, more), None) ==>
      var z := DoAct(w, Grow(r, more));
      Data(w, Src(r)) == Some(w.rec[r]) && Data(z, Src(r)) == Some(w.rec[r] + more) && z.rec == w.rec[r := w.rec[r] + more]
  {
    if CanAct(w, Grow(r, more), None) {
      GrowSound(c, w, r, more);
    }
  }

  /**
   The file of a session is empty at first, grows by what is written, and goes for good or not at all: until its end
   has been synced a crash may leave it with any bytes, and until its directory has, without its name.
   */
  lemma SessionsWrite(w: World, p: Path, i: Ino, more: Bytes)
    ensures CanAct(w, Begin(p, i), None) ==>
      var z := DoAct(w, Begin(p, i)); Data(z, p) == Some([]) && i in z.busy && i in z.own && None in May(z.fs, p)
    ensures CanAct(w, Extend(i, more), None) && Cur(w.fs, p) == Some(i) ==>
      var z := DoAct(w, Extend(i, more));
      Data(z, p) == Some(w.fs.node[i].data + more) && !z.fs.node[i].synced
    ensures CanAct(w, Drop(p), None) ==>
      var z := DoAct(w, Drop(p)); Data(z, p) == None && Cur(w.fs, p) in May(z.fs, p) && z.busy == w.busy
  {
  }

  lemma SessionsEnd(w: World, p: Path, i: Ino, synced: bool)
    ensures CanAct(w, End(i, synced), None) ==>
      var z := DoAct(w, End(i, synced));
      && i !in z.busy && Data(z, p) == Data(w, p) && (z.fs.node[i].synced <==> synced || w.fs.node[i].synced)
    ensures p.dir.Store? ==>
      var z := DoAct(w, Settle(p.dir.user)); Data(z, p) == Data(w, p) && May(z.fs, p) == {Cur(z.fs, p)}
    ensures CanAct(w, File(p), None) ==>
      var z := DoAct(w, File(p)); p in z.filed && Some(z.filed[p]) == Data(w, p) && z.filed.Keys == w.filed.Keys + {p}
  {
    if p.dir.Store? {
      MayAfterSync(w.fs, p.dir, p);
    }
  }

  /** What is not synced when the machine goes down may come back as anything. */
  lemma UnsyncedMayBeAnything(w: World, p: Path, bytes: Bytes)
    requires Cur(w.fs, p).Some? && Cur(w.fs, p).value in w.fs.node && !w.fs.node[Cur(w.fs, p).value].synced
    ensures exists junk: map<Ino, Bytes> :: Data(AfterCrash(w, map[], junk), p) == Some(bytes)
    ensures forall pick, junk :: AfterCrash(w, pick, junk).busy == {}
  {
    var junk: map<Ino, Bytes> := map[Cur(w.fs, p).value := bytes];
    CrashIsFree(w.fs, map[], junk);
    hide Crash;
    assert Cur(Crash(w.fs, map[], junk), p) == Cur(w.fs, p);
    CrashNodes(w.fs, map[], junk);
    assert Data(AfterCrash(w, map[], junk), p) == Some(bytes);
  }

  /** Others' steps one after the other, without those that cannot be taken. */
  function ActAll(w: World, acts: seq<Act>, frozen: Option<Rec>): World {
    if acts == [] then w
    else
      var v, a := ActAll(w, acts[..|acts| - 1], frozen), acts[|acts| - 1];
      if CanAct(v, a, frozen) then Unfreeze(v, a, frozen); DoAct(v, a) else v
  }

  lemma GrowSound(c: Cipher, w: World, r: Rec, more: Bytes)
    requires Sound(c, w) && CanAct(w, Grow(r, more), None)
    ensures Sound(c, DoAct(w, Grow(r, more)))
    ensures Some(w.fs.cur[Src(r)]) in May(w.fs, Src(r)) && OwnedBy(w, r, w.fs.cur[Src(r)])
  {
    hide Keeps, Complete, CastsIn, Base;
    var w' := DoAct(w, Grow(r, more));
    var i := w.fs.cur[Src(r)];
    assert SourceOk(w, r) && Cur(w.fs, Src(r)) in May(w.fs, Src(r)) && OwnedBy(w, r, i);
    assert forall p :: May(w'.fs, p) == May(w.fs, p) && Cur(w'.fs, p) == Cur(w.fs, p);
    forall p ensures Live(w', p) {
      assert Live(w, p);
    }
    forall s ensures SourceOk(w', s) {
      assert SourceOk(w, s);
      forall k | Some(k) in May(w.fs, Src(s)) ensures OwnedBy(w', s, k) {
        assert OwnedBy(w, s, k);
        assert s != r ==> Src(s) != Src(r);
      }
    }
    forall p | Listed(p) ensures StoredOk(c, w', p) {
      assert StoredOk(c, w, p) && p != Src(r);
      forall k | Some(k) in May(w.fs, p) && k !in w.own ensures Whole(c, w', k) {
        assert Whole(c, w, k);
      }
    }
  }

  /** A step that leaves all but r's source alone, and that where it is. */
  ghost predicate OnlyAt(w: World, w': World, r: Rec, i: Ino) {
    && w' == w.(fs := w'.fs, rec := w'.rec) && AtSource(w', r) && w'.rec.Keys == w.rec.Keys + {r}
    && (forall p :: p != Src(r) ==> May(w'.fs, p) == May(w.fs, p) && Cur(w'.fs, p) == Cur(w.fs, p))
    && (forall s :: s in w.rec && s != r ==> w'.rec[s] == w.rec[s])
    && (forall k :: k in w.fs.node && k != i ==> k in w'.fs.node && w'.fs.node[k] == w.fs.node[k])
    && (forall p :: p != Src(r) ==> Some(i) !in May(w.fs, p))
  }

  lemma ConservedBut(c: Cipher, w: World, w': World, r: Rec, i: Ino)
    requires OnlyAt(w, w', r, i) && Conserved(c, w)
    ensures Conserved(c, w')
  {
    hide Keeps, Ingestible, Base;
    forall s | s in w'.rec && !AtSource(w', s) ensures Ingestible(s.name) && InStore(c, w', s) {
      assert s != r && Src(s) != Src(r) && Dst(s) != Src(r);
      assert InStore(c, w, s);
      forall k | Some(k) in May(w'.fs, Dst(s)) ensures Copy(c, w', s, k) {
        assert Copy(c, w, s, k);
      }
    }
  }

  lemma FiledBut(w: World, w': World, r: Rec, i: Ino)
    requires OnlyAt(w, w', r, i) && FiledOk(w)
    ensures FiledOk(w')
  {
    hide CastsIn;
    forall p | p in w'.filed ensures FiledAt(w', p) {
      assert FiledAt(w, p) && p != Src(r);
      assert Cur(w.fs, p) in May(w.fs, p);
    }
  }

  lemma PreservedBut(c: Cipher, w: World, w': World, r: Rec, i: Ino)
    requires OnlyAt(w, w', r, i) && Sound(c, w')
    ensures Preserves(c, w, w')
  {
    hide Conserved, FiledOk, Sound, OnlyAt, NoCollision, NoPlant;
    if Conserved(c, w) { ConservedBut(c, w, w', r, i); }
    if FiledOk(w) { FiledBut(w, w', r, i); }
  }

  lemma GrowKeeps(c: Cipher, w: World, r: Rec, more: Bytes)
    requires Sound(c, w) && CanAct(w, Grow(r, more), None)
    ensures Preserves(c, w, DoAct(w, Grow(r, more)))
  {
    GrowSound(c, w, r, more);
    hide Keeps, CastsIn, Ingestible, Base, Live, StoredOk, Preserves;
    var w' := DoAct(w, Grow(r, more));
    assert forall p :: May(w'.fs, p) == May(w.fs, p) && Cur(w'.fs, p) == Cur(w.fs, p);
    assert SourceOk(w, r);
    PreservedBut(c, w, w', r, w.fs.cur[Src(r)]);
  }

  lemma CreateSound(c: Cipher, w: World, r: Rec, content: Bytes, i: Ino)
    requires Sound(c, w) && CanAct(w, Create(r, content, i), None)
    ensures var w' := DoAct(w, Create(r, content, i));
            && Sound(c, w')
            && (forall p :: May(w'.fs, p) == if p == Src(r) then {Some(i)} else May(w.fs, p))
            && (forall p :: Some(i) !in May(w.fs, p))
  {
    hide Keeps, Complete, CastsIn, Base;
    var w' := DoAct(w, Create(r, content, i));
    assert SourceOk(w, r);
    forall p
      ensures May(w'.fs, p) == (if p == Src(r) then {Some(i)} else May(w.fs, p))
      ensures Some(i) !in May(w.fs, p) && Live(w', p)
    {
      assert Live(w, p);
    }
    forall s ensures SourceOk(w', s) {
      assert SourceOk(w, s);
      assert s != r ==> Src(s) != Src(r);
      forall k | Some(k) in May(w'.fs, Src(s)) ensures OwnedBy(w', s, k) {
        if s != r { assert OwnedBy(w, s, k); }
      }
    }
    forall p | Listed(p) ensures StoredOk(c, w', p) {
      assert StoredOk(c, w, p) && p != Src(r);
      forall k | Some(k) in May(w.fs, p) && k !in w.own ensures Whole(c, w', k) {
        assert Whole(c, w, k);
      }
    }
  }

  lemma CreateKeeps(c: Cipher, w: World, r: Rec, content: Bytes, i: Ino)
    requires Sound(c, w) && CanAct(w, Create(r, content, i), None)
    ensures var w' := DoAct(w, Create(r, content, i)); Preserves(c, w, w') && OnlyAt(w, w', r, i)
  {
    CreateSound(c, w, r, content, i);
    hide CastsIn, Ingestible, Base, Sound, Preserves;
    var w' := DoAct(w, Create(r, content, i));
    PreservedBut(c, w, w', r, i);
  }

  lemma BeginKeeps(c: Cipher, w: World, p: Path, i: Ino)
    requires Sound(c, w) && CanAct(w, Begin(p, i), None)
    ensures Preserves(c, w, Begun(w, p, i))
  {
    hide Keeps, Complete, CastsIn, Ingestible, Base, Live, SourceOk, StoredOk;
    FreshNode(c, w, i, true);
    var w1, w2 := Fresh(w, i, true), Begun(w, p, i);
    assert forall q :: May(w1.fs, q) == May(w.fs, q) && Cur(w1.fs, q) == Cur(w.fs, q);
    assert Cur(w1.fs, p) == None && None in May(w1.fs, p);
    assert FiledOk(w1) && p in w1.filed ==> FiledAt(w1, p);
    if Conserved(c, w1) {
      forall r | r in w1.rec && Ingestible(r.name) && Dst(r) == p ensures AtSource(w1, r) {
        assert !InStore(c, w1, r);
      }
    }
    StoreEntry(c, w1, p, Some(i));
    assert NoCollision(w2) ==> NoCollision(w1);
    assert NoPlant(w2) ==> NoPlant(w1);
  }

  lemma DropKeeps(c: Cipher, w: World, p: Path)
    requires Sound(c, w) && CanAct(w, Drop(p), None)
    ensures Preserves(c, w, DoAct(w, Drop(p)))
  {
    hide Keeps, Complete, CastsIn, Ingestible, Base, Live, SourceOk, StoredOk;
    assert Cur(w.fs, p) in May(w.fs, p) && !(exists r :: Copy(c, w, r, w.fs.cur[p]));
    if Conserved(c, w) {
      forall r | r in w.rec && Ingestible(r.name) && Dst(r) == p ensures AtSource(w, r) {
        assert !InStore(c, w, r);
      }
    }
    assert FiledOk(w) && p in w.filed ==> FiledAt(w, p);
    StoreEntry(c, w, p, None);
  }

  lemma FileKeeps(c: Cipher, w: World, p: Path)
    requires Sound(c, w) && CanAct(w, File(p), None)
    ensures Preserves(c, w, DoAct(w, File(p)))
  {
    hide Keeps, Complete, CastsIn, Ingestible, Base, NoCollision;
    var w' := DoAct(w, File(p));
    forall q ensures Live(w', q) {
      assert Live(w, q);
    }
    forall r ensures SourceOk(w', r) {
      assert SourceOk(w, r);
      forall k | Some(k) in May(w.fs, Src(r)) ensures OwnedBy(w', r, k) {
        assert OwnedBy(w, r, k);
      }
    }
    forall q | Listed(q) ensures StoredOk(c, w', q) {
      assert StoredOk(c, w, q);
      forall k | Some(k) in May(w.fs, q) && k !in w.own ensures Whole(c, w', k) {
        assert Whole(c, w, k);
      }
    }
    if Conserved(c, w) {
      forall r | r in w.rec && !AtSource(w', r) ensures Ingestible(r.name) && InStore(c, w', r) {
        assert InStore(c, w, r);
        forall k | Some(k) in May(w.fs, Dst(r)) ensures Copy(c, w', r, k) {
          assert Copy(c, w, r, k);
        }
      }
    }
    if FiledOk(w) {
      forall q | q in w'.filed ensures FiledAt(w', q) {
        assert q != p ==> FiledAt(w, q);
      }
    }
  }

  lemma ActKeeps(c: Cipher, w: World, a: Act)
    requires Sound(c, w) && CanAct(w, a, None)
    ensures Preserves(c, w, DoAct(w, a))
  {
    hide Preserves, Live, SourceOk, StoredOk, Listed, May, Cur;
    match a {
      case Grow(r, more) => GrowKeeps(c, w, r, more);
      case Create(r, content, i) => CreateKeeps(c, w, r, content, i);
      case Begin(p, i) => BeginKeeps(c, w, p, i);
      case Extend(i, more) =>
        OwnIsNoSource(c, w, i);
        FileStep(c, w, i, Node(w.fs.node[i].data + more, false), w.log, w.busy);
      case Drop(p) => DropKeeps(c, w, p);
      case End(i, synced) =>
        OwnIsNoSource(c, w, i);
        FileStep(c, w, i, Node(w.fs.node[i].data, synced || w.fs.node[i].synced), w.log, w.busy - {i});
      case Settle(user) => DirSynced(c, w, Store(user));
      case File(p) => FileKeeps(c, w, p);
    }
  }

  // ---------------------------------------------------------- what has changed

  /** Nothing known is forgotten; what is not a session's stays so, and what no session writes any more. */
  ghost predicate Later(w: World, w': World) {
    && w.rec.Keys <= w'.rec.Keys && w.log <= w'.log && w.filed.Keys <= w'.filed.Keys && w.fs.node.Keys <= w'.fs.node.Keys
    && w.own <= w'.own && w'.own * w.fs.node.Keys <= w.own && w'.busy * w.fs.node.Keys <= w.busy
  }

  /** Free, or a file that a session is writing. */
  ghost predicate Theirs(w: World, v: Option<Ino>) {
    v.Some? ==> v.value in w.busy
  }

  /** What others may make of a name that is theirs: a new file, or none. */
  ghost predicate Changed(w: World, w': World, p: Path, v: Option<Ino>) {
    Theirs(w, Cur(w.fs, p)) && (v.Some? ==> v.value in w'.own && v.value !in w.fs.node)
  }

  /** A name refers to what it did, or is theirs. */
  ghost predicate Steady(w: World, w': World, p: Path) {
    && (Cur(w'.fs, p) == Cur(w.fs, p) || Changed(w, w', p, Cur(w'.fs, p)))
    && (forall v :: v in May(w'.fs, p) ==> v in May(w.fs, p) || Changed(w, w', p, v))
    && (Theirs(w', Cur(w'.fs, p)) ==> Theirs(w, Cur(w.fs, p)))
  }

  /** How the world may look to the daemon's sweep after others have acted. */
  ghost predicate Moved(w: World, w': World, frozen: Option<Rec>) {
    && Later(w, w') && w'.log == w.log
    && (forall r :: r in w.rec ==> w.rec[r] <= w'.rec[r] && (frozen == Some(r) ==> w'.rec[r] == w.rec[r]))
    && (forall p: Path :: p.dir.Store? ==> Steady(w, w', p) && (!CastsIn(p.name) ==> Cur(w'.fs, p) == Cur(w.fs, p)))
    && (forall r :: r in w.rec ==> Cur(w'.fs, Src(r)) == Cur(w.fs, Src(r)))
    && (forall r :: r in w.rec && Cur(w.fs, Src(r)) == None ==> w'.rec[r] == w.rec[r])
    && (forall i, p :: i in w.fs.node && Some(i) in May(w'.fs, p) ==> Some(i) in May(w.fs, p))
    && (forall i :: i in w.fs.node && NoSource(w, i) && i !in w.busy ==> w'.fs.node[i] == w.fs.node[i])
  }

  lemma LaterClash(w: World, w': World)
    requires Later(w, w')
    ensures NoCollision(w') ==> NoCollision(w)
    ensures NoPlant(w') ==> NoPlant(w)
  {
  }

  lemma LaterAgain(w: World, w1: World, w2: World)
    requires Later(w, w1) && Later(w1, w2)
    ensures Later(w, w2)
  {
  }

  lemma GrowMoves(w: World, r: Rec, more: Bytes, frozen: Option<Rec>)
    requires CanAct(w, Grow(r, more), frozen)
    ensures Moved(w, DoAct(w, Grow(r, more)), frozen)
  {
    hide CastsIn, Steady;
    var w' := DoAct(w, Grow(r, more));
    NamesAsBefore(w, w');
    assert Some(w.fs.cur[Src(r)]) in May(w.fs, Src(r));
  }

  lemma CreateMoves(w: World, r: Rec, content: Bytes, i: Ino, frozen: Option<Rec>)
    requires CanAct(w, Create(r, content, i), frozen)
    ensures Moved(w, DoAct(w, Create(r, content, i)), frozen)
  {
    hide CastsIn;
    var w' := DoAct(w, Create(r, content, i));
    assert forall p :: p != Src(r) ==> May(w'.fs, p) == May(w.fs, p) && Cur(w'.fs, p) == Cur(w.fs, p);
    assert May(w'.fs, Src(r)) == {Some(i)};
    assert forall s :: s != r ==> Src(s) != Src(r);
  }

  lemma BeginMoves(w: World, p: Path, i: Ino, frozen: Option<Rec>)
    requires CanAct(w, Begin(p, i), frozen) && forall q :: Live(w, q)
    ensures Moved(w, Begun(w, p, i), frozen)
  {
    hide CastsIn;
    var w' := Begun(w, p, i);
    forall q
      ensures May(w'.fs, q) == if q == p then May(w.fs, p) + {Some(i)} else May(w.fs, q)
      ensures Cur(w'.fs, q) == if q == p then Some(i) else Cur(w.fs, q)
    {
      MayAfterSet(Fresh(w, i, true).fs, p, Some(i), q);
    }
    forall q ensures Steady(w, w', q) {
      assert Live(w, q) && Cur(w.fs, q) in May(w.fs, q);
    }
    hide Steady, Live, SetEntry, SetNode;
    assert w'.rec == w.rec && w'.log == w.log;
  }

  lemma DropMoves(w: World, p: Path, frozen: Option<Rec>)
    requires CanAct(w, Drop(p), frozen) && w.busy <= w.own
    ensures Moved(w, DoAct(w, Drop(p)), frozen)
  {
    hide CastsIn;
    var w' := DoAct(w, Drop(p));
    forall q
      ensures May(w'.fs, q) == if q == p then May(w.fs, p) + {None} else May(w.fs, q)
      ensures Cur(w'.fs, q) == if q == p then None else Cur(w.fs, q)
    {
      MayAfterSet(w.fs, p, None, q);
    }
    forall q ensures Steady(w, w', q) {
    }
    hide Steady, SetEntry;
  }

  lemma SessionMoves(w: World, a: Act, frozen: Option<Rec>)
    requires CanAct(w, a, frozen) && (a.Extend? || a.End? || a.File?) && w.busy <= w.own
    ensures Moved(w, DoAct(w, a), frozen)
  {
    hide CastsIn, Steady;
    var w' := DoAct(w, a);
    NamesAsBefore(w, w');
  }

  lemma NamesAsBefore(w: World, w': World)
    requires w'.fs.cur == w.fs.cur && w'.fs.stale == w.fs.stale && w'.busy <= w.busy
    ensures forall p :: May(w'.fs, p) == May(w.fs, p) && Cur(w'.fs, p) == Cur(w.fs, p) && Steady(w, w', p)
  {
  }

  lemma SettleMoves(w: World, user: string, frozen: Option<Rec>)
    ensures Moved(w, DoAct(w, Settle(user)), frozen)
  {
    hide CastsIn, SyncDir, Moved;
    var fs := SyncDir(w.fs, Store(user));
    forall p ensures Cur(fs, p) == Cur(w.fs, p) && May(fs, p) <= May(w.fs, p) {
      MayAfterSync(w.fs, Store(user), p);
    }
    MayAfterSync(w.fs, Store(user), Path(Store(user), ""));
    FewerMoves(w, fs, frozen);
  }

  lemma FewerMoves(w: World, fs: Fs, frozen: Option<Rec>)
    requires fs.node == w.fs.node && forall p :: Cur(fs, p) == Cur(w.fs, p) && May(fs, p) <= May(w.fs, p)
    ensures Moved(w, w.(fs := fs), frozen)
  {
    hide CastsIn;
  }

  lemma ActMoves(c: Cipher, w: World, a: Act, frozen: Option<Rec>)
    requires Sound(c, w) && CanAct(w, a, frozen)
    ensures CanAct(w, a, None) && Preserves(c, w, DoAct(w, a)) && Moved(w, DoAct(w, a), frozen)
  {
    Unfreeze(w, a, frozen);
    hide Preserves, Moved, Live, SourceOk, StoredOk, Listed, May, Cur;
    ActKeeps(c, w, a);
    match a {
      case Grow(r, more) => GrowMoves(w, r, more, frozen);
      case Create(r, content, i) => CreateMoves(w, r, content, i, frozen);
      case Begin(p, i) => BeginMoves(w, p, i, frozen);
      case Extend(_, _) => SessionMoves(w, a, frozen);
      case Drop(p) => DropMoves(w, p, frozen);
      case End(_, _) => SessionMoves(w, a, frozen);
      case Settle(user) => SettleMoves(w, user, frozen);
      case File(_) => SessionMoves(w, a, frozen);
    }
  }

  lemma SteadyAgain(w: World, w1: World, w2: World, p: Path)
    requires Later(w, w1) && Later(w1, w2) && Steady(w, w1, p) && Steady(w1, w2, p)
    ensures Steady(w, w2, p)
  {
  }

  lemma MovedAgain(w: World, w1: World, w2: World, frozen: Option<Rec>)
    requires Moved(w, w1, frozen) && Moved(w1, w2, frozen)
    ensures Moved(w, w2, frozen)
  {
    hide CastsIn;
    forall p: Path | p.dir.Store? ensures Steady(w, w2, p) {
      SteadyAgain(w, w1, w2, p);
    }
    hide Steady;
    forall i | i in w.fs.node && NoSource(w, i) && i !in w.busy ensures w2.fs.node[i] == w.fs.node[i] {
      assert NoSource(w1, i);
    }
  }

  /** A private file is out of everyone else's reach. */
  lemma MovedPrivate(w: World, w': World, frozen: Option<Rec>, i: Ino, t: Path)
    requires Moved(w, w', frozen) && Private(w, i, t)
    ensures Private(w', i, t) && w'.fs.node[i] == w.fs.node[i] && Cur(w'.fs, t) == Cur(w.fs, t)
  {
    hide Steady, CastsIn;
    assert NoSource(w, i);
  }
}
