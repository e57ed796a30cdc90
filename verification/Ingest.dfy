/** The daemon's sweep: copy each finished recording into the central store, encrypted, then remove the source. */
module Ingest {
  import opened Common
  import opened Crypto
  import opened FileSystem
  import opened IngestState
  import opened IngestSteps
  import opened Sweeps

  datatype Entry = Entry(name: string, regular: bool)

  datatype Visit = Visit(home: string, entries: seq<Entry>)

  predicate Eligible(e: Entry) {
    e.regular && Ingestible(e.name)
  }

  function Names(entries: seq<Entry>): set<string> {
    set e | e in entries && Eligible(e) :: e.name
  }

  /** The recordings a listing names, in its order. */
  function Listing(home: string, entries: seq<Entry>): seq<Rec> {
    if entries == [] then []
    else
      var front, e := entries[..|entries| - 1], entries[|entries| - 1];
      Listing(home, front) + if Eligible(e) then [Rec(home, e.name)] else []
  }

  function AllListed(visits: seq<Visit>): seq<Rec> {
    if visits == [] then []
    else
      var v := visits[|visits| - 1];
      AllListed(visits[..|visits| - 1]) + Listing(v.home, v.entries)
  }

  /** A listing names the regular files of a home that are recordings, and no other entry. */
  lemma {:induction false} ListingMeans(home: string, entries: seq<Entry>, r: Rec)
    ensures r in Listing(home, entries) <==> r.home == home && Entry(r.name, true) in entries && Ingestible(r.name)
    ensures r.name in Names(entries) <==> Entry(r.name, true) in entries && Ingestible(r.name)
    decreases |entries|
  {
    hide Ingestible;
    if entries != [] {
      var front, e := entries[..|entries| - 1], entries[|entries| - 1];
      assert entries == front + [e];
      ListingMeans(home, front, r);
    }
    assert r.name in Names(entries) ==> exists e :: e in entries && Eligible(e) && e.name == r.name;
  }

  /** Entries, and homes, are listed in their order. */
  lemma {:induction false} ListedInOrder(home: string, a: seq<Entry>, b: seq<Entry>)
    ensures Listing(home, a + b) == Listing(home, a) + Listing(home, b)
    decreases |b|
  {
    hide Eligible;
    if b == [] {
      assert a + b == a;
    } else {
      assert (a + b)[..|a + b| - 1] == a + b[..|b| - 1];
      ListedInOrder(home, a, b[..|b| - 1]);
    }
  }

  lemma {:induction false} HomesInOrder(a: seq<Visit>, b: seq<Visit>)
    ensures AllListed(a + b) == AllListed(a) + AllListed(b)
    ensures |b| == 1 ==> AllListed(b) == Listing(b[0].home, b[0].entries)
    decreases |b|
  {
    hide Listing;
    if b == [] {
      assert a + b == a;
    } else {
      assert (a + b)[..|a + b| - 1] == a + b[..|b| - 1];
      HomesInOrder(a, b[..|b| - 1]);
    }
  }

  class Machine {
    const c: Cipher
    const dirSyncs: bool
    var w: World
    var script: seq<Fate>
    /** So far every call has gone as it should, undisturbed. */
    ghost var smooth: bool
    ghost var trace: Trace

    ghost predicate Valid()
      reads this`w
    {
      ValidWorld(c, dirSyncs, w)
    }

    /** Undisturbed so far, and nothing to come will disturb. */
    ghost predicate Calm()
      reads this`script, this`smooth
    {
      smooth && forall f :: f in script ==> SmoothFate(f) && AllDigits(f.digits)
    }

    constructor (c: Cipher, dirSyncs: bool, w: World, script: seq<Fate>)
      requires ValidWorld(c, dirSyncs, w)
      ensures Valid() && this.c == c && this.dirSyncs == dirSyncs && this.w == w && this.script == script
      ensures smooth && trace == []
    {
      this.c, this.dirSyncs, this.w, this.script := c, dirSyncs, w, script;
      smooth, trace := true, [];
    }

    method Others(acts: seq<Act>, frozen: Option<Rec>)
      requires Valid()
      modifies this`w
      ensures Valid() && Moved(old(w), w, frozen)
      ensures w == ActAll(old(w), acts, frozen)
    {
      hide Sound, Conserved, FiledOk, NoCollision, NoPlant, Preserves;
      NotMoved(w, frozen);
      for n := 0 to |acts|
        invariant Valid() && Moved(old(w), w, frozen)
        invariant w == ActAll(old(w), acts[..n], frozen)
      {
        assert acts[..n + 1][..n] == acts[..n];
        if CanAct(w, acts[n], frozen) {
          ActMoves(c, w, acts[n], frozen);
          ghost var before := w;
          w := DoAct(w, acts[n]);
          StillValid(c, dirSyncs, before, w);
          MovedAgain(old(w), before, w, frozen);
        }
      }
      assert acts[..|acts|] == acts;
    }

    /** One system call: others act, then the machine may go down. */
    method Call(frozen: Option<Rec>, ghost op: Op) returns (f: Fate)
      requires Valid()
      modifies this`w, this`script, this`smooth, this`trace
      ensures Valid()
      ensures !f.how.Dies? ==> Moved(old(w), w, frozen)
      ensures f.how.Dies? ==> DiedAfter(old(w), w, frozen, f)
      ensures var v := ActAll(old(w), f.acts, frozen);
        w == if f.how.Dies? then AfterCrash(v, f.how.pick, f.how.junk) else v
      ensures |script| < |old(script)| || (script == old(script) && w == old(w))
      ensures smooth == (old(smooth) && SmoothFate(f)) && (SmoothFate(f) ==> w == old(w))
      ensures if old(script) == [] then f == QUIET && script == [] else f == old(script)[0] && script == old(script)[1..]
      ensures old(Calm()) ==> Calm() && SmoothFate(f) && AllDigits(f.digits)
      ensures trace == old(trace) + [(op, f)]
    {
      hide Sound, Conserved, FiledOk, NoCollision, NoPlant, Moved, Crash;
      f := QUIET;
      if script != [] {
        f, script := script[0], script[1..];
      }
      smooth, trace := smooth && SmoothFate(f), trace + [(op, f)];
      Others(f.acts, frozen);
      if f.how.Dies? {
        ghost var before := w;
        Crashes(c, w, f.how.pick, f.how.junk);
        LaterCrash(w, f.how.pick, f.how.junk);
        w := AfterCrash(w, f.how.pick, f.how.junk);
        StillValid(c, dirSyncs, before, w);
      }
    }

    // ------------------------------------------------------------ the copy

    method Write(r: Rec, i: Ino, t: Path, n: Node, log: set<Sealed>)
      requires Valid() && Working(w, r, i, t) && w.log <= log
      modifies this`w
      ensures Valid() && Working(w, r, i, t) && w.fs.node[i] == n && w.log == log && w.rec == old(w.rec)
      ensures Went(old(w), w, Some(i), None, None, true)
      ensures w.fs.cur == old(w.fs.cur)
    {
      hide Sound, Conserved, FiledOk, NoCollision, NoPlant, Preserves, Private, Moved;
      Written(c, w, r, i, t, n, log);
      w := w.(fs := SetNode(w.fs, i, n), log := log);
      StillValid(c, dirSyncs, old(w), w);
    }

    /** A call while working: the copy stays as it is unless the machine goes down. */
    method CallWorking(r: Rec, i: Ino, t: Path, frozen: Option<Rec>, ghost op: Op) returns (f: Fate)
      requires Valid() && Working(w, r, i, t)
      modifies this`w, this`script, this`smooth, this`trace
      ensures Valid()
      ensures f.how.Dies? ==> AllBack(old(w), w)
      ensures !f.how.Dies? ==> Working(w, r, i, t) && w.fs.node[i] == old(w.fs.node[i]) && w.log == old(w.log)
      ensures !f.how.Dies? ==> Went(old(w), w, Some(i), None, None, smooth) && old(w.rec[r]) <= w.rec[r]
      ensures !f.how.Dies? && frozen == Some(r) ==> w.rec[r] == old(w.rec[r])
      ensures |script| < |old(script)| || (script == old(script) && w == old(w))
      ensures smooth == (old(smooth) && SmoothFate(f)) && (SmoothFate(f) ==> w == old(w))
      ensures old(Calm()) ==> Calm()
      ensures trace == old(trace) + [(op, f)]
      ensures if old(script) == [] then f == QUIET && script == [] else f == old(script)[0] && script == old(script)[1..]
    {
      hide ActAll, AfterCrash, ValidWorld, Private, Moved, Went, AllBack, Crash;
      f := Call(frozen, op);
      if !f.how.Dies? {
        WorkingMoved(old(w), w, frozen, r, i, t);
        MovedWent(old(w), w, frozen, smooth);
        WentWider(old(w), w, None, Some(i), None, None, None, None, smooth);
      } else {
        DiedLooksBack(old(w), w, frozen, f);
      }
    }

    /** One turn of the copy: read a piece, write it as a frame. */
    method CopyPiece(r: Rec, i: Ino, t: Path, sid: Bytes, counter: nat, off: nat, ghost frames: seq<Frame>)
      returns (o: Outcome, eof: bool, n: nat, ghost after: seq<Frame>)
      requires Valid() && Working(w, r, i, t) && counter == |frames| && off <= |w.rec[r]|
      requires IsStream(c, w.log, w.fs.node[i].data, w.rec[r][..off], sid, frames)
      modifies this`w, this`script, this`smooth, this`trace
      ensures Valid()
      ensures o.Crashed? ==> AllBack(old(w), w)
      ensures !o.Crashed? ==> Working(w, r, i, t) && Went(old(w), w, Some(i), None, None, smooth) && old(w.rec[r]) <= w.rec[r]
      ensures o.Done? && eof ==> n == 0 && after == frames && off == |w.rec[r]|
      ensures o.Done? && !eof ==> |after| == counter + 1 && 0 < n <= 32 * 1024
      ensures o.Done? && !eof && old(script) == [] ==> n == Min(32 * 1024, |w.rec[r]| - off)
      ensures o.Done? && !eof ==> |script| < |old(script)| || (script == old(script) && w.rec == old(w.rec) && n > 0)
      ensures smooth ==> old(smooth) && o.Done?
      ensures o.Done? ==>
        off + n <= |w.rec[r]| && IsStream(c, w.log, w.fs.node[i].data, w.rec[r][..off + n], sid, after)
      ensures old(Calm()) ==> Calm()
      ensures smooth ==> w.fs.cur == old(w.fs.cur)
      ensures old(trace) <= trace && (o.Done? ==> Well(old(trace), trace))
    {
      hide ValidWorld, Private, IsStream, FrameAAD, FrameBytes, Moved, Went, AllBack, Kept, Quiet;
      o, eof, n, after := Failed, false, 0, frames;
      ghost var come := w.rec[r][..off];
      var f := CallWorking(r, i, t, None, ReadPart(r));
      if f.how.Dies? { return Crashed, false, 0, frames; }
      if f.how.Fails? { return; }
      var data := ReadSource(r);
      assert come == data[..off];
      if off == |data| {
        return Done, true, 0, frames;
      }
      n := Min(Min(if f.n == 0 then COPY_BUFFER else f.n, COPY_BUFFER), |data| - off);
      ghost var was, before := w, smooth;
      o, after := WritePiece(r, i, t, sid, counter, come, data[off..off + n], frames);
      if o.Crashed? { BackAfter(old(w), was, w, i, before); return Crashed, false, 0, frames; }
      WentAgain(old(w), was, w, Some(i), None, None, before, smooth);
      PieceTaken(come, data, n);
      PrefixOf(data, w.rec[r], off + n);
    }

    method ReadSource(r: Rec) returns (data: Bytes)
      requires Valid() && r in w.rec && Cur(w.fs, Src(r)).Some?
      ensures data == w.rec[r]
    {
      SourceRead(c, w, r);
      data := w.fs.node[w.fs.cur[Src(r)]].data;
    }

    method WritePiece(
      r: Rec, i: Ino, t: Path, sid: Bytes, counter: nat, ghost come: Bytes, piece: Bytes, ghost frames: seq<Frame>)
      returns (o: Outcome, ghost after: seq<Frame>)
      requires Valid() && Working(w, r, i, t) && counter == |frames| && |piece| <= COPY_BUFFER
      requires IsStream(c, w.log, w.fs.node[i].data, come, sid, frames)
      modifies this`w, this`script, this`smooth, this`trace
      ensures Valid()
      ensures o.Crashed? ==> AllBack(old(w), w)
      ensures !o.Crashed? ==> Working(w, r, i, t) && Went(old(w), w, Some(i), None, None, smooth) && old(w.rec[r]) <= w.rec[r]
      ensures o.Done? ==> |after| == counter + 1 && IsStream(c, w.log, w.fs.node[i].data, come + piece, sid, after)
      ensures |script| < |old(script)| || (script == old(script) && w.rec == old(w.rec))
      ensures smooth ==> old(smooth) && o.Done?
      ensures old(Calm()) ==> Calm()
      ensures smooth ==> w.fs.cur == old(w.fs.cur)
      ensures old(trace) <= trace && (o.Done? ==> Well(old(trace), trace))
    {
      hide ValidWorld, Private, IsStream, FrameAAD, FrameBytes, Moved, Went, AllBack, Kept, Quiet;
      after := frames;
      var f := CallWorking(r, i, t, None, WritePart);
      if f.how.Dies? { return Crashed, frames; }
      if f.how.Fails? { return Failed, frames; }
      ghost var was := w;
      after := WriteFrame(r, i, t, sid, counter, come, frames, Frame(Draw(f.random, NONCE_SIZE), piece));
      WentOn(old(w), was, w, i, smooth);
      return Done, after;
    }

    method WriteFrame(r: Rec, i: Ino, t: Path, sid: Bytes, counter: nat, ghost come: Bytes, ghost frames: seq<Frame>, f: Frame)
      returns (ghost after: seq<Frame>)
      requires Valid() && Working(w, r, i, t) && counter == |frames| && Fits(f)
      requires IsStream(c, w.log, w.fs.node[i].data, come, sid, frames)
      modifies this`w
      ensures Valid() && Working(w, r, i, t) && Went(old(w), w, Some(i), None, None, true) && w.rec == old(w.rec)
      ensures |after| == counter + 1 && IsStream(c, w.log, w.fs.node[i].data, come + f.plain, sid, after)
      ensures w.fs.cur == old(w.fs.cur)
    {
      hide ValidWorld, Private, IsStream, FrameAAD, FrameBytes, Fits, Went;
      StreamGrows(c, w.log, w.fs.node[i].data, come, sid, frames, f);
      Write(r, i, t, Node(w.fs.node[i].data + FrameBytes(c, Some(sid), counter, f), false),
            w.log + {Sealed(f.nonce, FrameAAD(Some(sid), counter), f.plain)});
      after := frames + [f];
    }

    /** Header, then pieces until the source has no more; then it must be inactive and as long as at the start. */
    method CopyBody(r: Rec, i: Ino, t: Path, startSize: nat) returns (o: Outcome)
      requires Valid() && Working(w, r, i, t) && startSize <= |w.rec[r]|
      modifies this`w, this`script, this`smooth, this`trace
      ensures Valid()
      ensures o.Crashed? ==> AllBack(old(w), w)
      ensures !o.Crashed? ==> Working(w, r, i, t) && Went(old(w), w, Some(i), None, None, smooth)
      ensures o.Done? ==> |w.rec[r]| == startSize && Keeps(c, w.log, w.fs.node[i].data, w.rec[r])
      ensures smooth ==> old(smooth) && !o.Crashed? && (startSize == |old(w.rec[r])| ==> o.Done?)
      ensures old(Calm()) ==> Calm()
      ensures smooth ==> w.fs.cur == old(w.fs.cur)
      ensures old(trace) <= trace && (o.Done? ==> Well(old(trace), trace))
      ensures o.Done? ==> Asked(old(trace), trace, r)
    {
      hide ValidWorld, Private, IsStream, Moved, Went, AllBack, Kept, Quiet;
      o := Failed;
      var f := CallWorking(r, i, t, None, WritePart);
      if f.how.Dies? { return Crashed; }
      if f.how.Fails? { return; }
      var sid := Draw(f.random, STREAM_ID_SIZE);
      EmptyStream(c, w.log, sid);
      ghost var was, before := w, smooth;
      Write(r, i, t, Node(MAGIC_V2 + sid, false), w.log);
      WentOn(old(w), was, w, i, smooth);
      var counter: nat, off: nat, eof := 0, 0, false;
      ghost var frames: seq<Frame> := [];
      assert w.rec[r][..0] == [];
      while !eof
        invariant Valid() && Working(w, r, i, t) && startSize <= |w.rec[r]|
        invariant Went(old(w), w, Some(i), None, None, smooth)
        invariant counter == |frames| && off <= |w.rec[r]| && (eof ==> off == |w.rec[r]|)
        invariant IsStream(c, w.log, w.fs.node[i].data, w.rec[r][..off], sid, frames)
        invariant smooth ==> old(smooth)
        invariant old(Calm()) ==> Calm()
        invariant smooth ==> w.fs.cur == old(w.fs.cur)
        invariant Well(old(trace), trace)
        decreases !eof, |script|, |w.rec[r]| - off
      {
        was, before := w, smooth;
        var n: nat;
        o, eof, n, frames := CopyPiece(r, i, t, sid, counter, off, frames);
        if o.Crashed? { BackAfter(old(w), was, w, i, before); return; }
        WentAgain(old(w), was, w, Some(i), None, None, before, smooth);
        if !o.Done? { return; }
        counter, off := if eof then counter else counter + 1, off + n;
      }
      assert w.rec[r][..off] == w.rec[r];
      was, before := w, smooth;
      o := Recheck(r, i, t, startSize, sid, frames);
      if o.Crashed? {
        BackAfter(old(w), was, w, i, before);
      } else {
        WentAgain(old(w), was, w, Some(i), None, None, before, smooth);
      }
      QuietRec(old(w), was, Some(i), None, None, before);
    }

    method Recheck(r: Rec, i: Ino, t: Path, startSize: nat, sid: Bytes, ghost frames: seq<Frame>) returns (o: Outcome)
      requires Valid() && Working(w, r, i, t) && startSize <= |w.rec[r]|
      requires IsStream(c, w.log, w.fs.node[i].data, w.rec[r], sid, frames)
      modifies this`w, this`script, this`smooth, this`trace
      ensures Valid()
      ensures o.Crashed? ==> AllBack(old(w), w)
      ensures !o.Crashed? ==> Working(w, r, i, t) && Went(old(w), w, Some(i), None, None, smooth)
      ensures o.Done? ==> |w.rec[r]| == startSize && Keeps(c, w.log, w.fs.node[i].data, w.rec[r])
      ensures smooth ==> old(smooth) && !o.Crashed? && (startSize == |old(w.rec[r])| ==> o.Done?)
      ensures old(Calm()) ==> Calm()
      ensures smooth ==> w.fs.cur == old(w.fs.cur)
      ensures old(trace) <= trace && (o.Done? ==> Well(old(trace), trace))
      ensures o.Done? ==> Asked(old(trace), trace, r)
    {
      hide ValidWorld, Private, IsStream, Moved, Went, AllBack, Kept, Quiet;
      ghost var content := w.rec[r];
      var f := CallWorking(r, i, t, None, IsActive(r));
      if f.how.Dies? { return Crashed; }
      if f.active { return Failed; }
      ghost var was, before := w, smooth;
      f := CallWorking(r, i, t, None, StatFile(r));
      if f.how.Dies? { BackAfter(old(w), was, w, i, before); return Crashed; }
      WentAgain(old(w), was, w, Some(i), None, None, before, smooth);
      var data := ReadSource(r);
      if f.how.Fails? || |data| != startSize { return Failed; }
      assert w.rec[r] == content && trace[|old(trace)|].0 == IsActive(r);
      return Done;
    }

    // ------------------------------------------------------- atomic replace

    /** Sync, close, rename, sync the directory. */
    method Commit(r: Rec, i: Ino, t: Path) returns (o: Outcome)
      requires Valid() && Working(w, r, i, t) && Ingestible(r.name) && t.dir == Dst(r).dir
      requires Keeps(c, w.log, w.fs.node[i].data, w.rec[r])
      modifies this`w, this`script, this`smooth, this`trace
      ensures Valid()
      ensures o.Crashed? ==> OldOrNew(c, old(w), w, r)
      ensures o.Failed? ==> Working(w, r, i, t) && Went(old(w), w, Some(i), None, None, smooth)
      ensures o.Done? ==> HasCopy(c, w, r, Dst(r)) && r in w.rec && Cur(w.fs, Src(r)).Some?
      ensures o.Done? ==> Went(old(w), w, Some(i), Some(Dst(r)), None, smooth)
      ensures o.Done? && dirSyncs ==> May(w.fs, Dst(r)) == {Cur(w.fs, Dst(r))}
      ensures smooth ==> old(smooth) && o.Done?
      ensures old(Calm()) ==> Calm()
      ensures smooth ==> w.fs.cur.Keys <= old(w.fs.cur).Keys - {t} + {Dst(r)}
      ensures old(trace) <= trace && (o.Done? ==> Well(old(trace), trace))
    {
      hide ValidWorld, Private, Keeps, Moved, Ingestible, Base, HasCopy, Went, AllBack, OldOrNew, Kept, Quiet;
      o := SyncAndClose(r, i, t);
      if o.Crashed? { BackIsOld(c, old(w), w, r); return; }
      if o.Failed? { return; }
      ghost var was, before := w, smooth;
      o := RenameAndSync(r, i, t);
      if o.Crashed? {
        WentKept(old(w), was, Some(i), before);
        OldOrNewAgain(c, old(w), was, w, Some(i), r);
      } else {
        WentWider(old(w), was, Some(i), Some(i), None, Some(Dst(r)), None, None, before);
        WentAgain(old(w), was, w, Some(i), Some(Dst(r)), None, before, smooth);
      }
    }

    method SyncAndClose(r: Rec, i: Ino, t: Path) returns (o: Outcome)
      requires Valid() && Working(w, r, i, t) && Keeps(c, w.log, w.fs.node[i].data, w.rec[r])
      modifies this`w, this`script, this`smooth, this`trace
      ensures Valid()
      ensures o.Crashed? ==> AllBack(old(w), w)
      ensures !o.Crashed? ==> Working(w, r, i, t) && Went(old(w), w, Some(i), None, None, smooth)
      ensures o.Done? ==> w.fs.node[i].synced && Keeps(c, w.log, w.fs.node[i].data, w.rec[r])
      ensures smooth ==> old(smooth) && o.Done?
      ensures old(Calm()) ==> Calm()
      ensures smooth ==> w.fs.cur == old(w.fs.cur)
      ensures old(trace) <= trace && (o.Done? ==> Well(old(trace), trace))
    {
      hide ValidWorld, Private, Keeps, Moved, Went, AllBack, Kept, Quiet;
      var f := CallWorking(r, i, t, Some(r), SyncFile);
      if f.how.Dies? { return Crashed; }
      if f.how.Fails? { return Failed; }
      ghost var was, before := w, smooth;
      Write(r, i, t, w.fs.node[i].(synced := true), w.log);
      WentOn(old(w), was, w, i, smooth);
      was := w;
      f := CallWorking(r, i, t, Some(r), CloseFile);
      if f.how.Dies? { BackAfter(old(w), was, w, i, before); return Crashed; }
      WentAgain(old(w), was, w, Some(i), None, None, before, smooth);
      if f.how.Fails? { return Failed; }
      was, before := w, smooth;
      f := CallWorking(r, i, t, Some(r), RenameTemp);
      if f.how.Dies? { BackAfter(old(w), was, w, i, before); return Crashed; }
      WentAgain(old(w), was, w, Some(i), None, None, before, smooth);
      return if f.how.Fails? then Failed else Done;
    }

    method RenameAndSync(r: Rec, i: Ino, t: Path) returns (o: Outcome)
      requires Valid() && Working(w, r, i, t) && Ingestible(r.name) && t.dir == Dst(r).dir
      requires w.fs.node[i].synced && Keeps(c, w.log, w.fs.node[i].data, w.rec[r])
      modifies this`w, this`script, this`smooth, this`trace
      ensures Valid() && !o.Failed?
      ensures o.Crashed? ==> OldOrNew(c, old(w), w, r)
      ensures o.Done? ==> HasCopy(c, w, r, Dst(r)) && r in w.rec && Cur(w.fs, Src(r)).Some?
      ensures o.Done? ==> Went(old(w), w, Some(i), Some(Dst(r)), None, smooth)
      ensures o.Done? && dirSyncs ==> May(w.fs, Dst(r)) == {Cur(w.fs, Dst(r))}
      ensures smooth ==> old(smooth) && o.Done?
      ensures old(Calm()) ==> Calm()
      ensures smooth ==> w.fs.cur.Keys <= old(w.fs.cur).Keys - {t} + {Dst(r)}
      ensures old(trace) <= trace && (o.Done? ==> Well(old(trace), trace))
    {
      hide ActAll, AfterCrash, ValidWorld, Keeps, Moved, Ingestible, Base, HasCopy, Went, OldOrNew, Kept, Quiet, Rename, SyncDir, Crash;
      var d := Dst(r);
      Renamed(c, dirSyncs, w, r, i, t);
      w := w.(fs := Rename(w.fs, t, d));
      ghost var renamed := w;
      var f := Call(Some(r), SyncStore);
      if f.how.Dies? {
        DiedHolding(c, old(w), renamed, w, f, r, i);
        return Crashed;
      }
      StillHolding(c, dirSyncs, renamed, w, r, i);
      MovedWent(renamed, w, Some(r), smooth);
      WentWider(renamed, w, None, Some(i), None, Some(d), None, None, smooth);
      WentAgain(old(w), renamed, w, Some(i), Some(d), None, true, smooth);
      if dirSyncs {
        ghost var moved := w;
        Synced(c, dirSyncs, w, r, i, smooth);
        w := w.(fs := SyncDir(w.fs, d.dir));
        WentAgain(old(w), moved, w, Some(i), Some(d), None, smooth, smooth);
      }
      return Done;
    }

    /** After any error the temporary file goes; the name it was for has not been touched. */
    method Abandon(r: Rec, i: Ino, t: Path) returns (o: Outcome)
      requires Valid() && Working(w, r, i, t)
      modifies this`w, this`script, this`smooth, this`trace
      ensures Valid() && !o.Done?
      ensures o.Failed? ==> Went(old(w), w, Some(i), None, None, smooth)
      ensures o.Crashed? ==> AllBack(old(w), w)
      ensures smooth ==> old(smooth) && !o.Crashed?
      ensures old(Calm()) ==> Calm()
      ensures smooth ==> w.fs.cur == old(w.fs.cur) - {t}
      ensures old(trace) <= trace && (o.Failed? ==> RemovedLast(trace, Cur(w.fs, t) == None))
    {
      hide ValidWorld, Moved, Went, AllBack, Kept, Quiet;
      var f := CallWorking(r, i, t, None, CloseFile);
      if f.how.Dies? { return Crashed; }
      ghost var was, before := w, smooth;
      f := CallWorking(r, i, t, None, RemoveFile);
      if f.how.Dies? { BackAfter(old(w), was, w, i, before); return Crashed; }
      WentAgain(old(w), was, w, Some(i), None, None, before, smooth);
      if f.how.Fine? {
        was := w;
        TempGone(c, dirSyncs, w, i, t);
        w := w.(fs := SetEntry(w.fs, t, None));
        WentOn(old(w), was, w, i, smooth);
      }
      assert Cur(w.fs, t) == None <==> f.how.Fine?;
      return Failed;
    }

    /**
     * At every point, and whatever a crash does there, the final name refers to what it did before, or to the
     * whole new copy, on disk; unless it was free or a session's, and the session has made or removed it. An error
     * leaves it untouched.
     */
    method WriteFileAtomic(r: Rec, startSize: nat) returns (o: Outcome)
      requires Valid() && Ingestible(r.name) && r in w.rec && Cur(w.fs, Src(r)).Some? && startSize <= |w.rec[r]|
      modifies this`w, this`script, this`smooth, this`trace
      ensures Valid()
      ensures o.Crashed? ==> OldOrNew(c, old(w), w, r)
      ensures o.Failed? ==> Went(old(w), w, None, None, None, smooth)
      ensures o.Done? ==> HasCopy(c, w, r, Dst(r)) && r in w.rec && Cur(w.fs, Src(r)).Some?
      ensures o.Done? ==> Went(old(w), w, None, Some(Dst(r)), None, smooth) && SafeComponent(r.name)
      ensures o.Done? && dirSyncs ==> May(w.fs, Dst(r)) == {Cur(w.fs, Dst(r))}
      ensures smooth ==> old(smooth) && !o.Crashed? && (SafeComponent(r.name) && startSize == |old(w.rec[r])| ==> o.Done?)
      ensures old(Calm() && NoTemps(w)) ==> Calm() && NoTemps(w)
      ensures smooth ==> w.fs.cur.Keys <= old(w.fs.cur).Keys + {Dst(r)}
      ensures old(trace) <= trace && (o.Done? ==> Well(old(trace), trace))
      ensures o.Done? ==> Asked(old(trace), trace, r)
    {
      hide ActAll, AfterCrash, ValidWorld, Private, Ingestible, Base, TempName, SafeComponent, Went, AllBack, OldOrNew, HasCopy, Moved, Kept, Quiet;
      SameWent(w);
      WentSmooth(w, w, None, true, smooth);
      if !SafeComponent(r.name) {
        return Failed;
      }
      var f := Call(None, MakeTemp);
      if f.how.Dies? {
        DiedLooksBack(old(w), w, None, f);
        BackIsOld(c, old(w), w, r);
        return Crashed;
      }
      MovedWent(old(w), w, None, smooth);
      SourceStays(old(w), w, None, r);
      var t, i := TempPath(r, f.digits), FreeIno(w.fs.node.Keys, f.ino);
      if f.how.Fails? || !AllDigits(f.digits) || t in w.fs.cur {
        WentSmooth(old(w), w, None, smooth, false);
        smooth := false;
        return Failed;
      }
      TempIsNoRecording(r.name, f.digits);
      ghost var called, before := w, smooth;
      o := FillTemp(r, i, t, startSize);
      if o.Crashed? {
        WentKept(old(w), called, None, before);
        OldOrNewAgain(c, old(w), called, w, None, r);
      } else if o.Failed? {
        WentAgain(old(w), called, w, None, None, None, before, smooth);
      } else {
        WentWider(old(w), called, None, None, None, Some(Dst(r)), None, None, before);
        WentAgain(old(w), called, w, None, Some(Dst(r)), None, before, smooth);
      }
      if smooth && old(NoTemps(w)) { NoNewTemps(old(w), w, r); }
    }

    method FillTemp(r: Rec, i: Ino, t: Path, startSize: nat) returns (o: Outcome)
      requires Valid() && Ingestible(r.name) && r in w.rec && Cur(w.fs, Src(r)).Some? && startSize <= |w.rec[r]|
      requires i !in w.fs.node && t.dir == Dst(r).dir && !CastsIn(t.name) && t !in w.fs.cur
      modifies this`w, this`script, this`smooth, this`trace
      ensures Valid()
      ensures o.Crashed? ==> OldOrNew(c, old(w), w, r)
      ensures o.Failed? ==> Went(old(w), w, None, None, None, smooth)
      ensures o.Done? ==> HasCopy(c, w, r, Dst(r)) && r in w.rec && Cur(w.fs, Src(r)).Some?
      ensures o.Done? ==> Went(old(w), w, None, Some(Dst(r)), None, smooth)
      ensures o.Done? && dirSyncs ==> May(w.fs, Dst(r)) == {Cur(w.fs, Dst(r))}
      ensures smooth ==> old(smooth) && !o.Crashed? && (startSize == |old(w.rec[r])| ==> o.Done?)
      ensures old(Calm()) ==> Calm()
      ensures smooth ==> w.fs.cur.Keys <= old(w.fs.cur).Keys + {Dst(r)}
      ensures old(trace) <= trace && (o.Done? ==> Well(old(trace), trace))
      ensures o.Done? ==> Asked(old(trace), trace, r)
    {
      hide ValidWorld, Private, Ingestible, Base, Went, OldOrNew, HasCopy, Kept, Quiet, WithTemp, CastsIn;
      TempMade(c, dirSyncs, w, r, i, t);
      w := WithTemp(w, i, t);
      ghost var made, before := w, smooth;
      o := Fill(r, i, t, startSize);
      if o.Crashed? {
        WentKept(old(w), made, Some(i), true);
        OldOrNewAgain(c, old(w), made, w, Some(i), r);
      } else if o.Failed? {
        WentAgain(old(w), made, w, Some(i), None, None, true, smooth);
        WentFresh(old(w), w, i, None, smooth);
      } else {
        WentWider(old(w), made, Some(i), Some(i), None, Some(Dst(r)), None, None, true);
        WentAgain(old(w), made, w, Some(i), Some(Dst(r)), None, true, smooth);
        WentFresh(old(w), w, i, Some(Dst(r)), smooth);
      }
    }

    /** From an empty temporary file to the end. */
    method Fill(r: Rec, i: Ino, t: Path, startSize: nat) returns (o: Outcome)
      requires Valid() && Working(w, r, i, t) && t.dir == Dst(r).dir && Ingestible(r.name) && startSize <= |w.rec[r]|
      modifies this`w, this`script, this`smooth, this`trace
      ensures Valid()
      ensures o.Crashed? ==> OldOrNew(c, old(w), w, r)
      ensures o.Failed? ==> Went(old(w), w, Some(i), None, None, smooth)
      ensures o.Done? ==> HasCopy(c, w, r, Dst(r)) && r in w.rec && Cur(w.fs, Src(r)).Some?
      ensures o.Done? ==> Went(old(w), w, Some(i), Some(Dst(r)), None, smooth)
      ensures o.Done? && dirSyncs ==> May(w.fs, Dst(r)) == {Cur(w.fs, Dst(r))}
      ensures smooth ==> old(smooth) && !o.Crashed? && (startSize == |old(w.rec[r])| ==> o.Done?)
      ensures old(Calm()) ==> Calm()
      ensures smooth ==> w.fs.cur.Keys <= old(w.fs.cur).Keys - {t} + {Dst(r)}
      ensures old(trace) <= trace && (o.Done? ==> Well(old(trace), trace))
      ensures o.Done? ==> Asked(old(trace), trace, r)
    {
      hide ValidWorld, Private, Keeps, Ingestible, Base, HasCopy, Went, AllBack, OldOrNew, Kept, Quiet;
      var f := CallWorking(r, i, t, None, SetMode);
      if f.how.Dies? { BackIsOld(c, old(w), w, r); return Crashed; }
      ghost var was, before := w, smooth;
      if f.how.Fine? {
        o := CopyBody(r, i, t, startSize);
        if o.Crashed? {
          BackAfter(old(w), was, w, i, before);
          BackIsOld(c, old(w), w, r);
          return;
        }
        WentAgain(old(w), was, w, Some(i), None, None, before, smooth);
        QuietRec(old(w), was, Some(i), None, None, before);
        was, before := w, smooth;
        if o.Done? {
          o := Commit(r, i, t);
          if o.Crashed? {
            WentKept(old(w), was, Some(i), before);
            OldOrNewAgain(c, old(w), was, w, Some(i), r);
            return;
          }
          if o.Done? {
            WentWider(old(w), was, Some(i), Some(i), None, Some(Dst(r)), None, None, before);
            WentAgain(old(w), was, w, Some(i), Some(Dst(r)), None, before, smooth);
            return;
          }
          WentAgain(old(w), was, w, Some(i), None, None, before, smooth);
          was, before := w, smooth;
        }
      }
      o := Abandon(r, i, t);
      if o.Crashed? {
        BackAfter(old(w), was, w, i, before);
        BackIsOld(c, old(w), w, r);
      } else {
        WentAgain(old(w), was, w, Some(i), None, None, before, smooth);
      }
    }

    // ------------------------------------------------------------ the sweep

    /** Copy one recording and remove its source; a failure leaves the source for a later sweep. */
    method IngestOne(r: Rec) returns (o: Outcome, removed: bool)
      requires Valid() && Ingestible(r.name)
      modifies this`w, this`script, this`smooth, this`trace
      ensures Valid()
      ensures !o.Crashed? ==>
        Went(old(w), w, None, if o.Done? then Some(Dst(r)) else None, if removed then Some(r) else None, smooth)
      ensures o.Done? ==> HasCopy(c, w, r, Dst(r)) && (r in old(w.rec) ==> old(Cur(w.fs, Src(r))).Some?)
      ensures removed ==> o.Done? && Cur(w.fs, Src(r)) == None
      ensures smooth ==> old(smooth) && !o.Crashed? && removed == o.Done?
      ensures smooth ==> (o.Done? <==> SafeComponent(r.name) && Src(r) in old(w.fs.cur))
      ensures old(Calm() && NoTemps(w)) ==> Calm() && NoTemps(w)
      ensures smooth ==> w.fs.cur.Keys <= old(w.fs.cur).Keys + {Dst(r)}
      ensures old(trace) <= trace && (o.Done? ==> Well(old(trace), trace))
      ensures o.Done? ==> Asked(old(trace), trace, r) && RemovedLast(trace, removed)
    {
      hide ValidWorld, Ingestible, Base, Went, OldOrNew, HasCopy, SafeComponent, Kept, Quiet;
      removed := false;
      var size;
      o, size := OpenSource(r);
      if !o.Done? { return; }
      ghost var found, before := w, smooth;
      o := WriteFileAtomic(r, size);
      if o.Crashed? { return; }
      if o.Failed? {
        WentAgain(old(w), found, w, None, None, None, before, smooth);
        return;
      }
      WentWider(old(w), found, None, None, None, Some(Dst(r)), None, None, before);
      WentAgain(old(w), found, w, None, Some(Dst(r)), None, before, smooth);
      ghost var copied, copiedSmooth := w, smooth;
      o, removed := RemoveCopied(r);
      if o.Done? {
        ghost var g := if removed then Some(r) else None;
        WentWider(old(w), copied, None, None, Some(Dst(r)), Some(Dst(r)), None, g, copiedSmooth);
        WentWider(copied, w, None, None, None, Some(Dst(r)), g, g, smooth);
        WentAgain(old(w), copied, w, None, Some(Dst(r)), g, copiedSmooth, smooth);
      }
    }

    /** Open the source and look at its size. */
    method OpenSource(r: Rec) returns (o: Outcome, size: nat)
      requires Valid()
      modifies this`w, this`script, this`smooth, this`trace
      ensures Valid()
      ensures o.Done? ==> r in w.rec && Cur(w.fs, Src(r)).Some? && size == |w.rec[r]|
      ensures o.Done? && r in old(w.rec) ==> old(Cur(w.fs, Src(r))).Some?
      ensures !o.Crashed? ==> Went(old(w), w, None, None, None, smooth)
      ensures smooth ==> old(smooth) && !o.Crashed? && w == old(w) && (o.Done? <==> Src(r) in w.fs.cur)
      ensures old(Calm()) ==> Calm()
      ensures old(trace) <= trace && (o.Done? ==> Well(old(trace), trace))
    {
      hide ValidWorld, Well, Went;
      size := 0;
      o := CallOnSource(r, OpenFile(r));
      if !o.Done? { return; }
      ghost var was, before, found := w, smooth, trace;
      o := CallOnSource(r, StatFile(r));
      if o.Crashed? { return; }
      WentAgain(old(w), was, w, None, None, None, before, smooth);
      if o.Failed? { return; }
      WellAgain(old(trace), found, trace);
      var data := ReadFound(r);
      size := |data|;
    }

    /** A call that succeeds only if the source is there. */
    method CallOnSource(r: Rec, ghost op: Op) returns (o: Outcome)
      requires Valid() && (op == OpenFile(r) || op == StatFile(r))
      modifies this`w, this`script, this`smooth, this`trace
      ensures Valid()
      ensures o.Done? ==> r in w.rec && Cur(w.fs, Src(r)).Some?
      ensures !o.Crashed? && r in old(w.rec) ==> Cur(w.fs, Src(r)) == old(Cur(w.fs, Src(r)))
      ensures !o.Crashed? ==> Went(old(w), w, None, None, None, smooth)
      ensures smooth ==> old(smooth) && !o.Crashed? && w == old(w) && (o.Done? <==> Src(r) in w.fs.cur)
      ensures old(Calm()) ==> Calm()
      ensures old(trace) <= trace && (o.Done? ==> Well(old(trace), trace))
    {
      hide ActAll, AfterCrash, ValidWorld, Moved, Went, Kept, Quiet;
      var f := Call(None, op);
      if f.how.Dies? { return Crashed; }
      MovedWent(old(w), w, None, smooth);
      if r in old(w.rec) { SourceStays(old(w), w, None, r); }
      if f.how.Fails? || Src(r) !in w.fs.cur { return Failed; }
      var _ := ReadFound(r);
      return Done;
    }

    method ReadFound(r: Rec) returns (data: Bytes)
      requires Valid() && Cur(w.fs, Src(r)).Some?
      ensures r in w.rec && data == w.rec[r]
    {
      SourceRead(c, w, r);
      data := w.fs.node[w.fs.cur[Src(r)]].data;
    }

    method RemoveCopied(r: Rec) returns (o: Outcome, removed: bool)
      requires Valid() && Ingestible(r.name) && HasCopy(c, w, r, Dst(r)) && r in w.rec && Cur(w.fs, Src(r)).Some?
      requires dirSyncs ==> May(w.fs, Dst(r)) == {Cur(w.fs, Dst(r))}
      modifies this`w, this`script, this`smooth, this`trace
      ensures Valid() && !o.Failed?
      ensures o.Done? ==> HasCopy(c, w, r, Dst(r))
      ensures removed ==> o.Done? && Cur(w.fs, Src(r)) == None
      ensures o.Done? ==> Went(old(w), w, None, None, if removed then Some(r) else None, smooth)
      ensures smooth ==> old(smooth) && o.Done? && removed
      ensures old(Calm()) ==> Calm()
      ensures smooth ==> w.fs.cur.Keys <= old(w.fs.cur).Keys
      ensures o.Done? ==> Well(old(trace), trace) && RemovedLast(trace, removed)
      ensures old(trace) <= trace
    {
      hide ActAll, AfterCrash, ValidWorld, Ingestible, Base, Moved, Went, HasCopy, Kept, Quiet;
      ghost var i := NotASource(c, dirSyncs, w, r);
      var f := Call(Some(r), RemoveFile);
      if f.how.Dies? { return Crashed, false; }
      StillHolding(c, dirSyncs, old(w), w, r, i);
      MovedWent(old(w), w, Some(r), smooth);
      removed := f.how.Fine?;
      if removed {
        ghost var moved := w;
        SourceGone(c, dirSyncs, w, r, i, smooth);
        w := w.(fs := SetEntry(w.fs, Src(r), None));
        WentWider(old(w), moved, None, None, None, None, None, Some(r), smooth);
        WentAgain(old(w), moved, w, None, None, Some(r), smooth, smooth);
      }
      return Done, removed;
    }

    /** Whether r is inactive, and there is a directory to copy it to. */
    method Prepare(r: Rec) returns (ready: bool, died: bool)
      requires Valid()
      modifies this`w, this`script, this`smooth, this`trace
      ensures Valid()
      ensures !died ==> Went(old(w), w, None, None, None, smooth)
      ensures !died && r in old(w.rec) ==> r in w.rec && Cur(w.fs, Src(r)) == old(Cur(w.fs, Src(r)))
      ensures smooth ==> old(smooth) && ready && !died && w == old(w)
      ensures old(Calm()) ==> Calm()
      ensures old(trace) <= trace
      ensures ready ==> !died && Well(old(trace), trace) && |trace| > |old(trace)| && trace[|old(trace)|].0 == IsActive(r)
    {
      hide ActAll, AfterCrash, ValidWorld, Moved, Went, Kept, Quiet;
      var f := Call(None, IsActive(r));
      if f.how.Dies? { return false, true; }
      MovedWent(old(w), w, None, smooth);
      if r in old(w.rec) { SourceStays(old(w), w, None, r); }
      if f.active { return false, false; }
      ghost var was, before := w, smooth;
      f := Call(None, MakeDir(r.home));
      if f.how.Dies? { return false, true; }
      MovedWent(was, w, None, smooth);
      if r in was.rec { SourceStays(was, w, None, r); }
      WentAgain(old(w), was, w, None, None, None, before, smooth);
      return f.how.Fine?, false;
    }

    /** One entry of the listing: whether the machine is still up, and whether the source has gone. */
    method VisitEntry(home: string, e: Entry) returns (alive: bool, gone: bool, ghost copied: bool)
      requires Valid()
      modifies this`w, this`script, this`smooth, this`trace
      ensures Valid()
      ensures alive ==> var r := Rec(home, e.name);
        Went(old(w), w, None, if copied then Some(Dst(r)) else None, if gone then Some(r) else None, smooth)
      ensures copied ==> var r := Rec(home, e.name);
        Eligible(e) && HasCopy(c, w, r, Dst(r)) && (r in old(w.rec) ==> old(Cur(w.fs, Src(r))).Some?)
      ensures gone ==> copied && Cur(w.fs, Src(Rec(home, e.name))) == None
      ensures smooth ==> old(smooth) && alive && gone == copied
      ensures smooth ==> (gone <==> Eligible(e) && SafeComponent(e.name) && Src(Rec(home, e.name)) in old(w.fs.cur))
      ensures old(Calm() && NoTemps(w)) ==> Calm() && NoTemps(w)
      ensures smooth ==> w.fs.cur.Keys <= old(w.fs.cur).Keys + if Eligible(e) then {Dst(Rec(home, e.name))} else {}
      ensures smooth ==> w.rec == old(w.rec)
      ensures old(trace) <= trace && (copied ==> Cleared(old(trace), trace, Rec(home, e.name)) && RemovedLast(trace, gone))
    {
      hide ValidWorld, Ingestible, Base, Went, HasCopy, SafeComponent, Moved, Kept, Quiet;
      var r := Rec(home, e.name);
      SameWent(w);
      WentSmooth(w, w, None, true, smooth);
      if !Eligible(e) {
        return true, false, false;
      }
      var ready, died := Prepare(r);
      if died { return false, false, false; }
      if !ready { return true, false, false; }
      ghost var called, before, asked := w, smooth, trace;
      var o, removed := IngestOne(r);
      if o.Crashed? { return false, false, false; }
      ghost var d, g := if o.Done? then Some(Dst(r)) else None, if removed then Some(r) else None;
      WentWider(old(w), called, None, None, None, d, None, g, before);
      WentAgain(old(w), called, w, None, d, g, before, smooth);
      QuietRec(old(w), w, None, d, g, smooth);
      if o.Done? { ClearedFrom(old(trace), asked, trace, r); }
      return true, removed, o.Done?;
    }

    /**
     * A sweep of one home removes only sources that it copied, copies only what is listed and was twice found inactive
     * on the way, and changes no name in the store but those of the copies, nor any file under another name that no
     * session is writing. Undisturbed, it does what SweepAll says, whatever clashes; and it is undisturbed when no call
     * to come fails and no temporary file is in the way.
     */
    method IngestHome(visit: Visit) returns (alive: bool, ghost gone: set<string>, ghost filed: set<string>)
      requires Valid()
      modifies this`w, this`script, this`smooth, this`trace
      ensures Valid()
      ensures alive ==> Later(old(w), w) && gone <= filed <= Names(visit.entries)
      ensures alive ==> Taken(c, w, visit.home, gone) && LeftAlone(old(w), w, visit.home, gone)
      ensures alive ==> SteadyBut(old(w), w, visit.home, filed)
      ensures old(trace) <= trace && (alive ==> AllCleared(old(trace), trace, visit.home, filed))
      ensures smooth ==> old(smooth) && alive
      ensures smooth && Correct(c, w.log) ==>
        ViewOf(c, w) == SweepAll(ViewOf(c, old(w)), Listing(visit.home, visit.entries))
      ensures old(Calm() && NoTemps(w)) ==> Calm() && NoTemps(w)
      ensures smooth ==> w.rec == old(w.rec)
    {
      hide ValidWorld, Correct, ViewOf, Ingestible, SafeComponent, Went, HasCopy, Steady, Later, Taken, LeftAlone, SteadyBut, SweepAll, AllCleared, Cleared, Listing;
      gone, filed := {}, {};
      AtStart(c, w, visit);
      NoneToClear(trace, visit.home);
      for n := 0 to |visit.entries|
        invariant Valid() && Later(old(w), w) && gone <= filed <= Names(visit.entries)
        invariant Taken(c, w, visit.home, gone) && LeftAlone(old(w), w, visit.home, gone)
        invariant SteadyBut(old(w), w, visit.home, filed)
        invariant old(trace) <= trace && AllCleared(old(trace), trace, visit.home, filed)
        invariant smooth ==> old(smooth) && w.rec == old(w.rec)
        invariant old(Calm() && NoTemps(w)) ==> Calm() && NoTemps(w)
        invariant smooth && Correct(c, w.log) ==>
          ViewOf(c, w) == SweepAll(ViewOf(c, old(w)), Listing(visit.home, visit.entries[..n]))
      {
        ghost var was, asked := w, trace;
        var e := visit.entries[n];
        var went, now, copied := VisitEntry(visit.home, e);
        if !went { return false, {}, {}; }
        ghost var r := Rec(visit.home, e.name);
        TakenStill(c, dirSyncs, was, w, gone, r, copied, now, smooth);
        LeftAloneStill(old(w), was, w, gone, r, copied, now, smooth);
        SteadyStill(c, dirSyncs, old(w), was, w, filed, r, copied, now, smooth);
        AllClearedStill(old(trace), asked, trace, filed, r, copied);
        if smooth && Correct(c, w.log) {
          ViewStep(c, dirSyncs, was, w, r, Eligible(e), now);
          ListingNext(ViewOf(c, old(w)), visit, n);
        }
        if now { gone := gone + {e.name}; }
        if copied { filed := filed + {e.name}; }
      }
      assert visit.entries[..|visit.entries|] == visit.entries;
      return true, gone, filed;
    }

    /** Home after home, until the machine goes down. */
    method Sweep(visits: seq<Visit>) returns (alive: bool)
      requires Valid()
      modifies this`w, this`script, this`smooth, this`trace
      ensures Valid()
      ensures smooth ==> old(smooth) && alive
      ensures smooth && Correct(c, w.log) ==> old(w.log) <= w.log && ViewOf(c, w) == SweepAll(ViewOf(c, old(w)), AllListed(visits))
      ensures old(Calm() && NoTemps(w)) ==> Calm() && NoTemps(w)
      ensures smooth ==> w.rec == old(w.rec)
    {
      hide ValidWorld, Correct, ViewOf, SweepAll, Listing, Taken, LeftAlone, SteadyBut;
      NothingSwept(ViewOf(c, w), visits);
      for h := 0 to |visits|
        invariant Valid() && old(w.log) <= w.log
        invariant smooth ==> old(smooth) && w.rec == old(w.rec)
        invariant old(Calm() && NoTemps(w)) ==> Calm() && NoTemps(w)
        invariant smooth && Correct(c, w.log) ==> ViewOf(c, w) == SweepAll(ViewOf(c, old(w)), AllListed(visits[..h]))
      {
        ghost var was := w;
        ghost var gone, filed;
        alive, gone, filed := IngestHome(visits[h]);
        if !alive { return; }
        if smooth && Correct(c, w.log) {
          CorrectLess(c, was.log, w.log);
          assert visits[..h + 1][..h] == visits[..h];
          SweepAppend(ViewOf(c, old(w)), AllListed(visits[..h]), Listing(visits[h].home, visits[h].entries));
        }
      }
      assert visits[..|visits|] == visits;
      return true;
    }

    /** Sweep after sweep; a crash ends a sweep wherever it is, and the next one starts on what the disk holds. */
    method Run(sweeps: seq<seq<Visit>>)
      requires Valid()
      modifies this`w, this`script, this`smooth, this`trace
      ensures Sound(c, w) && (dirSyncs && NoCollision(w) ==> Conserved(c, w)) && (NoPlant(w) ==> FiledOk(w))
    {
      hide Sound, Conserved, NoCollision, NoPlant, FiledOk;
      for s := 0 to |sweeps|
        invariant Valid()
      {
        var _ := Sweep(sweeps[s]);
      }
    }

    // ------------------------------------------------------- what sweeps add up to

    /** A second sweep over the same listings changes nothing that can be seen. */
    method SweepAgain(visits: seq<Visit>) returns (ghost once: View)
      requires Valid()
      modifies this`w, this`script, this`smooth, this`trace
      ensures smooth && Correct(c, w.log) ==> once == SweepAll(ViewOf(c, old(w)), AllListed(visits)) && ViewOf(c, w) == once
      ensures old(Calm() && NoTemps(w)) ==> Calm() && NoTemps(w)
      ensures Valid()
      ensures smooth ==> w.rec == old(w.rec)
    {
      hide ValidWorld, Correct, ViewOf, SweepAll, AllListed;
      var _ := Sweep(visits);
      once := ViewOf(c, w);
      ghost var was := w;
      var _ := Sweep(visits);
      if smooth && Correct(c, w.log) {
        CorrectLess(c, was.log, w.log);
        SweepTwice(ViewOf(c, old(w)), AllListed(visits));
      }
    }

    /** Two users whose homes end alike: the sweep of the second home writes over what it took from the first. */
    method SweepHomesThatEndAlike()
      requires Valid() && ANN in w.rec && BOB in w.rec && Src(ANN) in w.fs.cur && Src(BOB) in w.fs.cur
      modifies this`w, this`script, this`smooth, this`trace
      ensures smooth && Correct(c, w.log) ==> var v := old(ViewOf(c, w));
        ViewOf(c, w) == View(v.sources - {ANN, BOB}, v.store[Dst(ANN) := old(w.rec[BOB])])
      ensures old(Calm() && NoTemps(w)) ==> Calm() && NoTemps(w)
      ensures Valid()
      ensures smooth ==> w.rec == old(w.rec)
    {
      hide ValidWorld, Correct, SweepAll, Text, Base, Listed;
      ghost var v := ViewOf(c, w);
      EveIsEve();
      HomesThatEndAlike(v);
      var visits := [Visit(ANN.home, [Entry(ANN.name, true)]), Visit(BOB.home, [Entry(BOB.name, true)])];
      BothListed();
      var _ := Sweep(visits);
    }

    /**
     * A local recording named like a session's file, swept undisturbed, takes its place, whether the session has been
     * filed, has ended or still runs: that no local recording is so named is not only enough for filed sessions to be
     * safe, it is what it takes.
     */
    method SweepOverSession(r: Rec)
      requires Valid() && Ingestible(r.name) && SafeComponent(r.name) && Src(r) in w.fs.cur
      modifies this`w, this`script, this`smooth, this`trace
      ensures smooth ==> HasCopy(c, w, r, Dst(r)) && Cur(w.fs, Src(r)) == None
      ensures smooth ==> Cur(w.fs, Dst(r)).Some? && Cur(w.fs, Dst(r)).value !in w.own && !FiledAt(w, Dst(r))
      ensures old(Calm() && NoTemps(w)) ==> Calm() && NoTemps(w)
      ensures Valid()
      ensures smooth ==> w.rec == old(w.rec)
    {
      hide ValidWorld, Ingestible, SafeComponent, HasCopy, Base, Went, NoTemps;
      var alive, gone, copied := VisitEntry(r.home, Entry(r.name, true));
      if smooth {
        CopyIsNotFiled(c, w, r, Dst(r));
      }
    }
  }

  // ---------------------------------------------------------- visit after visit

  /** The sweep has taken it away and the store has it. */
  ghost predicate TakenAway(c: Cipher, w: World, r: Rec) {
    Ingestible(r.name) && r in w.rec && Cur(w.fs, Src(r)) == None && HasCopy(c, w, r, Dst(r))
  }

  ghost predicate Taken(c: Cipher, w: World, home: string, gone: set<string>) {
    forall name :: name in gone ==> TakenAway(c, w, Rec(home, name))
  }

  ghost predicate LeftAlone(w0: World, w: World, home: string, gone: set<string>) {
    forall r :: r in w0.rec && !(r.home == home && r.name in gone) ==> SourceKept(w0, w, r)
  }

  /** A file in the store that no session is writing is there, with the same content. */
  ghost predicate FileKept(w0: World, w: World, p: Path) {
    Cur(w0.fs, p).Some? && Cur(w0.fs, p).value in w0.fs.node && Cur(w0.fs, p).value !in w0.busy ==>
      && Cur(w.fs, p) == Cur(w0.fs, p) && Cur(w.fs, p).value in w.fs.node
      && w.fs.node[Cur(w.fs, p).value] == w0.fs.node[Cur(w0.fs, p).value]
  }

  /** Names in the store that nothing was copied to are as they were, or as others made them. */
  ghost predicate SteadyBut(w0: World, w: World, home: string, filed: set<string>) {
    forall p :: Listed(p) && !(p.dir == Store(Base(home)) && p.name in filed) ==> Steady(w0, w, p) && FileKept(w0, w, p)
  }

  /** Everything copied was cleared for it first. */
  ghost predicate AllCleared(t0: Trace, t: Trace, home: string, filed: set<string>) {
    forall name :: name in filed ==> Cleared(t0, t, Rec(home, name))
  }

  lemma NoneToClear(t: Trace, home: string)
    ensures AllCleared(t, t, home, {})
  {
  }

  lemma AllClearedStill(t0: Trace, t1: Trace, t2: Trace, filed: set<string>, r: Rec, copied: bool)
    requires t0 <= t1 <= t2 && AllCleared(t0, t1, r.home, filed) && (copied ==> Cleared(t1, t2, r))
    ensures AllCleared(t0, t2, r.home, if copied then filed + {r.name} else filed)
  {
    hide Cleared;
    forall name | name in filed ensures Cleared(t0, t2, Rec(r.home, name)) {
      ClearedStill(t0, t0, t1, t2, Rec(r.home, name));
    }
    if copied { ClearedStill(t0, t1, t2, t2, r); }
  }

  lemma ClearedFrom(t0: Trace, t1: Trace, t2: Trace, r: Rec)
    requires Well(t0, t1) && |t1| > |t0| && t1[|t0|].0 == IsActive(r) && Well(t1, t2) && Asked(t1, t2, r)
    ensures Cleared(t0, t2, r)
  {
    var t := t1[..|t0| + 1];
    assert Well(t0, t) && Well(t, t1) && t[|t0|] == t1[|t0|];
    WellAgain(t, t1, t2);
    ClearedNow(t0, t, t2, r);
  }

  lemma AtStart(c: Cipher, w: World, visit: Visit)
    ensures Later(w, w) && Taken(c, w, visit.home, {}) && LeftAlone(w, w, visit.home, {}) && SteadyBut(w, w, visit.home, {})
    ensures ViewOf(c, w) == SweepAll(ViewOf(c, w), Listing(visit.home, visit.entries[..0]))
  {
    hide ViewOf;
  }

  lemma CopyStays(c: Cipher, dirSyncs: bool, w0: World, w: World, r: Rec, d: Option<Path>, g: Option<Rec>)
    requires ValidWorld(c, dirSyncs, w0) && ValidWorld(c, dirSyncs, w) && Kept(w0, w, None, d, g)
    requires TakenAway(c, w0, r) && d != Some(Dst(r)) && g != Some(r)
    ensures TakenAway(c, w, r)
  {
    hide Keeps, CastsIn, Base, Conserved, FiledOk, NoPlant, NoCollision;
    var i := Cur(w0.fs, Dst(r)).value;
    StoredIsNoSource(c, w0, Dst(r), i);
    NotBusy(c, dirSyncs, w, i);
    hide Sound, ValidWorld;
    IngestibleIsListed(r);
    assert Steady(w0, w, Dst(r)) && AtRest(w0, i) && SourceKept(w0, w, r);
    hide NoSource, Steady, Ingestible;
    assert Cur(w.fs, Dst(r)) == Some(i) && w.fs.node[i] == w0.fs.node[i];
    KeepsMore(c, w0.log, w.log, w0.fs.node[i].data, w0.rec[r]);
  }

  lemma TakenStill(
    c: Cipher, dirSyncs: bool, w0: World, w: World, gone: set<string>, r: Rec, copied: bool, now: bool, smooth: bool)
    requires ValidWorld(c, dirSyncs, w0) && ValidWorld(c, dirSyncs, w) && Taken(c, w0, r.home, gone)
    requires Went(w0, w, None, if copied then Some(Dst(r)) else None, if now then Some(r) else None, smooth)
    requires copied ==> Ingestible(r.name) && HasCopy(c, w, r, Dst(r)) && (r in w0.rec ==> Cur(w0.fs, Src(r)).Some?)
    requires now ==> copied && Cur(w.fs, Src(r)) == None
    ensures Taken(c, w, r.home, if now then gone + {r.name} else gone)
  {
    hide ValidWorld, Keeps, Ingestible, Base, Kept, Quiet;
    forall name | name in gone ensures TakenAway(c, w, Rec(r.home, name)) {
      assert TakenAway(c, w0, Rec(r.home, name));
      CopyStays(c, dirSyncs, w0, w, Rec(r.home, name), if copied then Some(Dst(r)) else None, if now then Some(r) else None);
    }
  }

  lemma LeftAloneStill(
    w0: World, w1: World, w: World, gone: set<string>, r: Rec, copied: bool, now: bool, smooth: bool)
    requires Later(w0, w1) && LeftAlone(w0, w1, r.home, gone)
    requires Went(w1, w, None, if copied then Some(Dst(r)) else None, if now then Some(r) else None, smooth)
    ensures Later(w0, w) && LeftAlone(w0, w, r.home, if now then gone + {r.name} else gone)
  {
    hide Steady, Listed, AtRest, Quiet, Base;
  }

  lemma SteadyStill(
    c: Cipher, dirSyncs: bool, w0: World, w1: World, w: World, filed: set<string>, r: Rec, copied: bool, now: bool,
    smooth: bool)
    requires ValidWorld(c, dirSyncs, w1) && Later(w0, w1) && SteadyBut(w0, w1, r.home, filed)
    requires Went(w1, w, None, if copied then Some(Dst(r)) else None, if now then Some(r) else None, smooth)
    ensures SteadyBut(w0, w, r.home, if copied then filed + {r.name} else filed)
  {
    hide Steady, AtRest, Quiet, Base, SourceKept, CastsIn, ValidWorld, FileKept;
    forall p | Listed(p) && !(p.dir == Store(Base(r.home)) && p.name in if copied then filed + {r.name} else filed)
      ensures Steady(w0, w, p) && FileKept(w0, w, p)
    {
      SteadyAgain(w0, w1, w, p);
      FileStays(c, dirSyncs, w1, w, p, if copied then Some(Dst(r)) else None, if now then Some(r) else None);
      FileStaysAgain(w0, w1, w, p);
    }
  }

  lemma FileStays(c: Cipher, dirSyncs: bool, w0: World, w: World, p: Path, d: Option<Path>, g: Option<Rec>)
    requires ValidWorld(c, dirSyncs, w0) && Kept(w0, w, None, d, g) && Listed(p) && d != Some(p)
    ensures FileKept(w0, w, p)
  {
    hide Conserved, FiledOk, NoPlant, NoCollision, CastsIn;
    if Cur(w0.fs, p).Some? && Cur(w0.fs, p).value in w0.fs.node && Cur(w0.fs, p).value !in w0.busy {
      StoredIsNoSource(c, w0, p, Cur(w0.fs, p).value);
      hide Sound, NoSource, SourceKept;
      assert Steady(w0, w, p) && AtRest(w0, Cur(w0.fs, p).value);
    }
  }

  lemma FileStaysAgain(w0: World, w1: World, w: World, p: Path)
    requires Later(w0, w1) && FileKept(w0, w1, p) && FileKept(w1, w, p)
    ensures FileKept(w0, w, p)
  {
  }

  lemma ViewStep(c: Cipher, dirSyncs: bool, w0: World, w: World, r: Rec, eligible: bool, gone: bool)
    requires ValidWorld(c, dirSyncs, w0) && Correct(c, w.log) && (eligible ==> Ingestible(r.name))
    requires Went(w0, w, None, if gone then Some(Dst(r)) else None, if gone then Some(r) else None, true)
    requires gone <==> eligible && SafeComponent(r.name) && Src(r) in w0.fs.cur
    requires gone ==> HasCopy(c, w, r, Dst(r)) && Cur(w.fs, Src(r)) == None
    ensures Correct(c, w0.log) && ViewOf(c, w) == SweepAll(ViewOf(c, w0), if eligible then [r] else [])
  {
    hide Sound, Correct, Ingestible, SafeComponent, HasCopy, Text, Listed, Base, Kept;
    CorrectLess(c, w0.log, w.log);
    var v := ViewOf(c, w0);
    assert [r][..0] == [] && SweepAll(v, []) == v && SweepAll(v, [r]) == SweepOne(v, r);
    if gone {
      SourceRead(c, w0, r);
      SweptView(c, w0, w, r);
    } else {
      QuietView(c, w0, w);
    }
  }

  lemma ListingNext(v: View, visit: Visit, n: nat)
    requires n < |visit.entries|
    ensures var e := visit.entries[n];
            SweepAll(v, Listing(visit.home, visit.entries[..n + 1])) ==
            SweepAll(SweepAll(v, Listing(visit.home, visit.entries[..n])), if Eligible(e) then [Rec(visit.home, e.name)] else [])
  {
    hide SweepAll, Eligible;
    var e := visit.entries[n];
    assert visit.entries[..n + 1][..n] == visit.entries[..n];
    SweepAppend(v, Listing(visit.home, visit.entries[..n]), if Eligible(e) then [Rec(visit.home, e.name)] else []);
  }

  lemma NothingSwept(v: View, visits: seq<Visit>)
    ensures SweepAll(v, AllListed(visits[..0])) == v
  {
  }

  lemma BothListed()
    ensures AllListed([Visit(ANN.home, [Entry(ANN.name, true)]), Visit(BOB.home, [Entry(BOB.name, true)])]) == [ANN, BOB]
  {
    EveIsEve();
    OneListed(ANN.home, ANN.name);
    OneListed(BOB.home, BOB.name);
    hide Ingestible, Listing;
    var a, b := Visit(ANN.home, [Entry(ANN.name, true)]), Visit(BOB.home, [Entry(BOB.name, true)]);
    assert [a, b][..1] == [a] && [a][..0] == [];
    assert AllListed([a]) == [ANN];
  }

  lemma OneListed(home: string, name: string)
    requires Ingestible(name)
    ensures Listing(home, [Entry(name, true)]) == [Rec(home, name)]
  {
    hide Ingestible;
    assert [Entry(name, true)][..0] == [];
  }

  lemma CopyIsNotFiled(c: Cipher, w: World, r: Rec, p: Path)
    requires HasCopy(c, w, r, p)
    ensures Cur(w.fs, p).Some? && Cur(w.fs, p).value !in w.own && !FiledAt(w, p)
  {
  }

  // --------------------------------------------------------------- the result

  /** What conservation means to someone who looks after a crash: the recording is there, byte for byte. */
  lemma NothingIsLost(c: Cipher, w: World, pick: map<Path, Option<Ino>>, junk: map<Ino, Bytes>, r: Rec)
    requires Sound(c, w) && Conserved(c, w) && Correct(c, w.log) && r in w.rec
    ensures var fs := Crash(w.fs, pick, junk);
            || (Cur(fs, Src(r)).Some? && var i := Cur(fs, Src(r)).value; i in fs.node && fs.node[i].data == w.rec[r])
            || (Cur(fs, Dst(r)).Some? && var i := Cur(fs, Dst(r)).value; i in fs.node && OpenCast(c, fs.node[i].data) == w.rec[r])
  {
    hide Sound, Conserved, Crash, Keeps, Correct, OpenCast, Base, Ingestible, FiledOk, NoPlant;
    var w' := AfterCrash(w, pick, junk);
    Crashes(c, w, pick, junk);
    Whereabouts(c, w', r);
    if Cur(w'.fs, Src(r)).Some? {
      SourceRead(c, w', r);
    } else {
      var i := Cur(w'.fs, Dst(r)).value;
      KeptDecrypts(c, w.log, w'.fs.node[i].data, w.rec[r]);
    }
  }

  lemma Whereabouts(c: Cipher, w: World, r: Rec)
    requires Conserved(c, w) && r in w.rec
    ensures Cur(w.fs, Src(r)).Some? ||
      (Cur(w.fs, Dst(r)).Some? && var i := Cur(w.fs, Dst(r)).value;
                                  i in w.fs.node && Keeps(c, w.log, w.fs.node[i].data, w.rec[r]))
  {
    hide Keeps, Base;
    assert Cur(w.fs, Src(r)) in May(w.fs, Src(r)) && Cur(w.fs, Dst(r)) in May(w.fs, Dst(r));
  }

  /** Nor is what the daemon's own sessions have brought to disk. */
  lemma FiledIsThere(c: Cipher, w: World, pick: map<Path, Option<Ino>>, junk: map<Ino, Bytes>, p: Path)
    requires Sound(c, w) && FiledOk(w) && p in w.filed
    ensures var fs := Crash(w.fs, pick, junk);
            Cur(fs, p).Some? && var i := Cur(fs, p).value; i in fs.node && fs.node[i].data == w.filed[p]
  {
    hide Sound, FiledOk, Crash, Conserved;
    Crashes(c, w, pick, junk);
    var w' := AfterCrash(w, pick, junk);
    assert FiledAt(w', p) by { KnownFiled(w', p); }
  }

  lemma KnownFiled(w: World, p: Path)
    requires FiledOk(w) && p in w.filed
    ensures FiledAt(w, p)
  {
  }

  /** What a sweep has put into the store is whole whenever a listing shows it: the rest is the sessions' own. */
  lemma ListingsAreWhole(c: Cipher, w: World, pick: map<Path, Option<Ino>>, junk: map<Ino, Bytes>, p: Path)
    requires Sound(c, w) && Correct(c, w.log) && Listed(p)
    requires Cur(Crash(w.fs, pick, junk), p).Some?
    ensures var fs := Crash(w.fs, pick, junk); var i := Cur(fs, p).value;
            i in w.own || (i in fs.node && Keeps(c, w.log, fs.node[i].data, OpenCast(c, fs.node[i].data)))
  {
    hide Conserved, FiledOk, Crash, Keeps, Correct, OpenCast, SourceOk, Live;
    var w' := AfterCrash(w, pick, junk);
    Crashes(c, w, pick, junk);
    assert StoredOk(c, w', p) && Cur(w'.fs, p) in May(w'.fs, p);
    var i := Cur(w'.fs, p).value;
    if i !in w.own {
      var data := w'.fs.node[i].data;
      var content :| Keeps(c, w.log, data, content);
      KeptDecrypts(c, w.log, data, content);
    }
  }

  /**
   * The sync of the directory is needed exactly where the final name may still be free on disk: then, without it, a
   * crash after the removal of the source can bring neither name back, and otherwise none can.
   */
  lemma DirSyncNeeded(w: World, r: Rec, i: Ino, t: Path)
    requires Cur(w.fs, t) == Some(i) && t != Dst(r) && t.dir.Store?
    ensures var done := SetEntry(Rename(w.fs, t, Dst(r)), Src(r), None);
            (exists pick: map<Path, Option<Ino>> ::
               Cur(Crash(done, pick, map[]), Src(r)) == None && Cur(Crash(done, pick, map[]), Dst(r)) == None)
            <==> None in May(w.fs, Dst(r))
  {
    var done := SetEntry(Rename(w.fs, t, Dst(r)), Src(r), None);
    BothNames(w.fs, i, t, Src(r), Dst(r));
    hide Crash, Base, SetEntry, Rename, May;
    forall pick: map<Path, Option<Ino>> | Cur(Crash(done, pick, map[]), Dst(r)) == None ensures None in May(w.fs, Dst(r)) {
      MayAfterCrash(done, pick, map[], Dst(r));
    }
    if None in May(w.fs, Dst(r)) {
      var pick: map<Path, Option<Ino>> := map[Dst(r) := None, Src(r) := None];
      MayAfterCrash(done, pick, map[], Src(r));
      MayAfterCrash(done, pick, map[], Dst(r));
    }
  }

  lemma BothNames(fs: Fs, i: Ino, t: Path, src: Path, dst: Path)
    requires Cur(fs, t) == Some(i) && t != dst && src != dst
    ensures var done := SetEntry(Rename(fs, t, dst), src, None);
            None in May(done, src) && May(done, dst) == May(fs, dst) + {Some(i)}
  {
    MayAfterSet(fs, dst, Some(i), dst);
    MayAfterSet(SetEntry(fs, dst, Some(i)), t, None, dst);
    MayAfterSet(Rename(fs, t, dst), src, None, dst);
    MayAfterSet(Rename(fs, t, dst), src, None, src);
  }

  /** Every swept recording can be read in the store, and every one that could be before still can, unchanged. */
  ghost predicate AllReadable(c: Cipher, w: World, w': World, rs: seq<Rec>) {
    && (forall r :: r in rs && Sweepable(ViewOf(c, w), r) ==> Dst(r) in w'.fs.cur && Text(c, w', Dst(r)) == w.rec[r])
    && (forall p :: p in w.fs.cur && Listed(p) ==> p in w'.fs.cur && Text(c, w', p) == Text(c, w, p))
  }

  /** That is so after an undisturbed sweep exactly when recordings filed under one name, there or listed, are the same. */
  lemma SweptReadableExactly(c: Cipher, w: World, w': World, rs: seq<Rec>)
    requires ViewOf(c, w') == SweepAll(ViewOf(c, w), rs)
    ensures AllReadable(c, w, w', rs) <==> NoClash(ViewOf(c, w), rs) && NoStoreClash(ViewOf(c, w), rs)
  {
    hide Text, SweepAll, NoClash, NoStoreClash, CastsIn, Base, SafeComponent, Ingestible;
    var v, v' := ViewOf(c, w), ViewOf(c, w');
    UnharmedExactlyWithoutClash(v, rs);
    forall r | Sweepable(v, r)
      ensures v.sources[r] == w.rec[r]
      ensures Dst(r) in v'.store <==> Dst(r) in w'.fs.cur
      ensures Dst(r) in v'.store ==> v'.store[Dst(r)] == Text(c, w', Dst(r))
    {
      IngestibleIsListed(r);
    }
    forall p ensures p in v.store <==> p in w.fs.cur && Listed(p) {
    }
    forall p | Listed(p) ensures (p in v'.store <==> p in w'.fs.cur) && (p in v'.store ==> v'.store[p] == Text(c, w', p)) {
    }
    hide Listed;
    assert AllFiled(v, rs) <==>
      forall r :: r in rs && Sweepable(v, r) ==> Dst(r) in w'.fs.cur && Text(c, w', Dst(r)) == w.rec[r];
    assert StoreUnharmed(v, rs) <==>
      forall p :: p in w.fs.cur && Listed(p) ==> p in w'.fs.cur && Text(c, w', p) == Text(c, w, p);
  }

  // -------------------------------------------------------- runs that go wrong

  /** An empty store, and a recording of the same name in two homes that end alike. */
  function TwoHomes(first: Bytes, second: Bytes): World {
    World(Fs(map[Src(ANN) := 0, Src(BOB) := 1], map[], map[0 := Node(first, true), 1 := Node(second, true)]),
          map[ANN := first, BOB := second], {}, {}, {}, map[])
  }

  lemma TwoHomesIsValid(c: Cipher, first: Bytes, second: Bytes)
    ensures ValidWorld(c, true, TwoHomes(first, second)) && Conserved(c, TwoHomes(first, second))
    ensures NoTemps(TwoHomes(first, second))
  {
    hide ValidWorld, Base, Ingestible;
    EveIsEve();
    assert Src(ANN) != Src(BOB);
    EmptyIsValid(c);
    var w0 := World(Fs(map[], map[], map[]), map[], {}, {}, {}, map[]);
    var w1 := Acted(c, w0, Create(ANN, first, 0));
    var w2 := Acted(c, w1, Create(BOB, second, 1));
    assert w2.fs.cur == TwoHomes(first, second).fs.cur && w2.fs.stale == map[];
    assert w2.fs.node == TwoHomes(first, second).fs.node && w2.rec == TwoHomes(first, second).rec;
    assert w2 == TwoHomes(first, second);
    assert AtSource(w2, ANN) && AtSource(w2, BOB);
  }

  /** However calm the sweep, the second recording is all there is to see, at home and in the store. */
  method TwoHomesRun(c: Cipher, first: Bytes, second: Bytes, script: seq<Fate>) returns (m: Machine)
    requires Seals(c) && forall f :: f in script ==> SmoothFate(f) && AllDigits(f.digits)
    ensures m.Valid() && m.c == c && m.w.rec == TwoHomes(first, second).rec
    ensures ViewOf(c, m.w) == View(map[], map[Dst(ANN) := second])
  {
    hide ValidWorld, NoTemps, Text, Base, Seals, SweepAll, Correct;
    TwoHomesIsValid(c, first, second);
    ghost var v := ViewOf(c, TwoHomes(first, second));
    assert v.sources == map[ANN := first, BOB := second] && v.store == map[];
    assert v.sources - {ANN, BOB} == map[];
    m := new Machine(c, true, TwoHomes(first, second), script);
    m.SweepHomesThatEndAlike();
    SealsIsCorrect(c, m.w.log);
  }

  /** A filed session, and a local recording named like it. */
  function PlantedWorld(session: Bytes, planted: Bytes): World {
    World(Fs(map[Dst(ANN) := 0, Src(ANN) := 1], map[], map[0 := Node(session, true), 1 := Node(planted, true)]),
          map[ANN := planted], {}, {0}, {}, map[Dst(ANN) := session])
  }

  /** Steps of others lead to it from an empty store, and nothing is lost yet. */
  lemma Planted(c: Cipher, session: Bytes, planted: Bytes)
    ensures var w := PlantedWorld(session, planted);
            ValidWorld(c, true, w) && Conserved(c, w) && NoCollision(w) && FiledOk(w) && !NoPlant(w) && NoTemps(w)
    ensures Ingestible(ANN.name) && SafeComponent(ANN.name)
  {
    hide Base, Ingestible, SafeComponent, ValidWorld;
    EveIsEve();
    IngestibleIsListed(ANN);
    var w0 := SessionFiled(c, Dst(ANN), session);
    var w := Acted(c, w0, Create(ANN, planted, 1));
    OneRecording(c, w0, w, ANN, planted, 1);
    assert w.fs.cur == PlantedWorld(session, planted).fs.cur && w.fs.node == PlantedWorld(session, planted).fs.node;
    assert w == PlantedWorld(session, planted);
    NoTempsHere(w);
  }

  lemma NoTempsHere(w: World)
    requires forall p :: p in w.fs.cur ==> p.dir.Local? || Ingestible(p.name)
    ensures NoTemps(w)
  {
    forall r, digits | AllDigits(digits) ensures TempPath(r, digits) !in w.fs.cur {
      TempIsNoRecording(r.name, digits);
    }
  }

  /** However calm the sweep, the name holds the local recording and no longer the session. */
  method PlantedRun(c: Cipher, session: Bytes, planted: Bytes, script: seq<Fate>) returns (m: Machine)
    requires Seals(c) && forall f :: f in script ==> SmoothFate(f) && AllDigits(f.digits)
    ensures m.Valid() && m.c == c && Dst(ANN) in m.w.fs.cur && m.w.fs.cur[Dst(ANN)] !in m.w.own
    ensures Text(c, m.w, Dst(ANN)) == planted && Src(ANN) !in m.w.fs.cur
  {
    hide ValidWorld, NoTemps, Text, Base, Seals, HasCopy, Correct;
    Planted(c, session, planted);
    m := new Machine(c, true, PlantedWorld(session, planted), script);
    m.SweepOverSession(ANN);
    SealsIsCorrect(c, m.w.log);
    CopyReads(c, m.w, ANN, Dst(ANN));
  }

  lemma OneRecording(c: Cipher, w0: World, w: World, r: Rec, content: Bytes, i: Ino)
    requires ValidWorld(c, true, w0) && w0.rec == map[] && CanAct(w0, Create(r, content, i), None)
    requires w == DoAct(w0, Create(r, content, i)) && ValidWorld(c, true, w)
    ensures NoCollision(w) && Conserved(c, w) && FiledOk(w)
  {
    hide Sound, CastsIn, Base, Ingestible, Conserved, FiledOk;
    assert NoPlant(w0) && NoCollision(w);
    CreateKeeps(c, w0, r, content, i);
    FiledBut(w0, w, r, i);
  }

  lemma SessionFiled(c: Cipher, p: Path, session: Bytes) returns (w: World)
    requires p.dir.Store? && Listed(p)
    ensures ValidWorld(c, true, w)
    ensures w == World(Fs(map[p := 0], map[], map[0 := Node(session, true)]), map[], {}, {0}, {}, map[p := session])
  {
    hide ValidWorld, Listed;
    w := World(Fs(map[], map[], map[]), map[], {}, {}, {}, map[]);
    EmptyIsValid(c);
    w := Acted(c, w, Begin(p, 0));
    w := Acted(c, w, Extend(0, session));
    w := Acted(c, w, End(0, true));
    w := Acted(c, w, Settle(p.dir.user));
    assert May(w.fs, p) == {Cur(w.fs, p)};
    assert w.fs.node[0].data == [] + session == session;
    w := Acted(c, w, File(p));
  }

  lemma EmptyIsValid(c: Cipher)
    ensures ValidWorld(c, true, World(Fs(map[], map[], map[]), map[], {}, {}, {}, map[]))
  {
  }

  lemma Acted(c: Cipher, w: World, a: Act) returns (w': World)
    requires ValidWorld(c, true, w) && CanAct(w, a, None)
    ensures ValidWorld(c, true, w') && w' == DoAct(w, a)
  {
    hide Sound, Conserved, FiledOk, NoCollision, NoPlant, Preserves;
    ActMoves(c, w, a, None);
    w' := DoAct(w, a);
    StillValid(c, true, w, w');
  }
}
