/** The stateful ends of a framed stream: the encrypting writer over its sink, and the decrypting reader. */
module CryptoStreams {
  import opened Common
  import opened Crypto

  /** The file under a writer. It fails once `room` bytes are used up, which the environment decides. */
  class Sink {
    var data: Bytes
    var room: nat

    constructor (room: nat)
      ensures data == [] && this.room == room
    {
      data := [];
      this.room := room;
    }

    /** A failing write may have put any leading part of b into the file. */
    method Write(b: Bytes) returns (ok: bool)
      modifies this
      ensures ok == (|b| <= old(room))
      ensures data == old(data) + b[..Min(|b|, old(room))]
      ensures room == old(room) - Min(|b|, old(room))
    {
      ok := |b| <= room;
      data := data + b[..Min(|b|, room)];
      room := room - Min(|b|, room);
    }
  }

  /**
   What a writer has done so far: the frames wholly written, every seal made on the way, the plaintext
   first sealed for each position (the one a failed write tore included), whether a write failed, and
   whether some position was then sealed again for another plaintext.
   */
  datatype Trail = Trail(frames: seq<Frame>, sealed: set<Sealed>, slots: seq<Bytes>, torn: bool, resealed: bool)

  ghost predicate InSlot(sid: Option<Bytes>, slots: seq<Bytes>, e: Sealed) {
    exists i: nat :: i <= |slots| && e.aad == FrameAAD(sid, i)
      && (FrameSize(e.plain) > MAX_FRAME || (i < |slots| && slots[i] == e.plain))
  }

  ghost predicate Consistent(sid: Option<Bytes>, t: Trail) {
    && AllFit(t.frames)
    && Logged(t.sealed, sid, 0, t.frames)
    && |t.frames| <= |t.slots| <= |t.frames| + 1
    && (!t.resealed ==> Plains(t.frames) <= t.slots)
    && (!t.torn ==> |t.slots| == |t.frames| && !t.resealed)
    && (!t.resealed ==> forall e :: e in t.sealed ==> InSlot(sid, t.slots, e))
  }

  ghost function AddSeal(sid: Option<Bytes>, t: Trail, f: Frame): Trail {
    var sealed := t.sealed + {Sealed(f.nonce, FrameAAD(sid, |t.frames|), f.plain)};
    if FrameSize(f.plain) > MAX_FRAME then t.(sealed := sealed)
    else if |t.slots| == |t.frames| then t.(sealed := sealed, slots := t.slots + [f.plain])
    else t.(sealed := sealed, resealed := t.resealed || (|t.slots| > |t.frames| && t.slots[|t.frames|] != f.plain))
  }

  /** What one Write of f adds: a seal in any case, then a whole frame, or a torn one if the sink fails. */
  ghost function AfterWrite(sid: Option<Bytes>, t: Trail, f: Frame, wholeFrame: bool): Trail {
    if f.plain == [] then t
    else
      var s := AddSeal(sid, t, f);
      if FrameSize(f.plain) > MAX_FRAME then s
      else if wholeFrame then s.(frames := t.frames + [f])
      else s.(torn := true)
  }

  lemma ConsistentAfterSeal(sid: Option<Bytes>, t: Trail, f: Frame)
    requires Consistent(sid, t) && |f.nonce| == NONCE_SIZE
    ensures var s := AddSeal(sid, t, f);
            && (!s.resealed ==> forall e :: e in s.sealed ==> InSlot(sid, s.slots, e))
            && Logged(s.sealed, sid, 0, t.frames)
  {
    hide FrameAAD;
    var s := AddSeal(sid, t, f);
    if !s.resealed {
      forall e | e in s.sealed
        ensures InSlot(sid, s.slots, e)
      {
        if e in t.sealed {
          assert InSlot(sid, t.slots, e);
        } else {
          assert e.aad == FrameAAD(sid, |t.frames|) && |t.frames| <= |s.slots|;
        }
      }
    }
  }

  lemma ConsistentAfterWrite(sid: Option<Bytes>, t: Trail, f: Frame, wholeFrame: bool)
    requires Consistent(sid, t) && |f.nonce| == NONCE_SIZE
    ensures Consistent(sid, AfterWrite(sid, t, f, wholeFrame))
  {
    hide FrameAAD, InSlot;
    if f.plain != [] {
      ConsistentAfterSeal(sid, t, f);
    }
  }

  class EncWriter {
    const c: Cipher
    const w: Sink
    const streamID: Option<Bytes>
    var counter: nat
    ghost var trail: Trail

    ghost predicate Valid()
      reads this
    {
      counter == Wrap64(|trail.frames|) && Consistent(streamID, trail)
    }

    constructor (c: Cipher, w: Sink, streamID: Option<Bytes>)
      ensures Valid() && this.c == c && this.w == w && this.streamID == streamID
      ensures trail == Trail([], {}, [], false, false)
    {
      this.c, this.w, this.streamID := c, w, streamID;
      counter, trail := 0, Trail([], {}, [], false, false);
    }

    /**
     One Write is one frame, put down in three writes of the sink, or nothing at all when p is empty or
     too long. Only a whole frame advances the counter.
     */
    method Write(p: Bytes, nonce: Bytes) returns (n: nat, ok: bool)
      requires Valid() && |nonce| == NONCE_SIZE
      requires Expands(c)
      modifies this, w
      ensures Valid()
      ensures var frame := FrameBytes(c, streamID, |old(trail.frames)|, Frame(nonce, p));
              var emits := p != [] && FrameSize(p) <= MAX_FRAME;
              && (ok <==> p == [] || (emits && |frame| <= old(w.room)))
              && n == (if ok then |p| else 0)
              && trail == AfterWrite(streamID, old(trail), Frame(nonce, p), ok)
              && w.data == old(w.data) + (if emits then frame[..Min(|frame|, old(w.room))] else [])
    {
      hide BigEndian, FrameAAD, Consistent, Encode, Wrap64;
      if |p| == 0 {
        return 0, true;
      }
      ghost var f := Frame(nonce, p);
      FrameAADWraps(streamID, |trail.frames|);
      var ct := c.seal(nonce, p, FrameAAD(streamID, counter));
      if |nonce| + |ct| > MAX_FRAME {
        ConsistentAfterWrite(streamID, trail, f, false);
        trail := AfterWrite(streamID, trail, f, false);
        return 0, false;
      }
      ok := Emit(f, nonce, ct);
      n := if ok then |p| else 0;
    }

    method Emit(ghost f: Frame, nonce: Bytes, ct: Bytes) returns (ok: bool)
      requires Valid() && |nonce| == NONCE_SIZE && f.nonce == nonce && f.plain != []
      requires ct == c.seal(nonce, f.plain, FrameAAD(streamID, |trail.frames|)) && |ct| == |f.plain| + TAG_SIZE
      requires FrameSize(f.plain) <= MAX_FRAME
      modifies this, w
      ensures Valid() && trail == AfterWrite(streamID, old(trail), f, ok)
      ensures var frame := FrameBytes(c, streamID, |old(trail.frames)|, f);
              && (ok <==> |frame| <= old(w.room))
              && w.data == old(w.data) + frame[..Min(|frame|, old(w.room))]
    {
      hide BigEndian, FrameAAD, Consistent, Encode, Wrap64;
      WrapNext(|trail.frames|);
      ConsistentAfterWrite(streamID, trail, f, false);
      ConsistentAfterWrite(streamID, trail, f, true);
      ok := WriteFrame(BigEndian(|nonce| + |ct|, 4), nonce, ct);
      trail := AfterWrite(streamID, trail, f, ok);
      if ok {
        counter := Wrap64(counter + 1);
      }
    }

    method WriteFrame(length: Bytes, nonce: Bytes, ct: Bytes) returns (ok: bool)
      modifies w
      ensures ok <==> |length + nonce + ct| <= old(w.room)
      ensures w.data == old(w.data) + (length + nonce + ct)[..Min(|length + nonce + ct|, old(w.room))]
    {
      ghost var all := length + nonce + ct;
      ok := w.Write(length);
      if ok {
        ok := w.Write(nonce);
        if ok {
          ok := w.Write(ct);
          assert all[..Min(|all|, old(w.room))] == length + nonce + ct[..Min(|ct|, old(w.room) - |length + nonce|)];
        } else {
          assert all[..old(w.room)] == length + nonce[..old(w.room) - |length|];
        }
      } else {
        assert all[..old(w.room)] == length[..old(w.room)];
      }
    }
  }

  /** One frame for each chunk that is not empty. */
  function Framed(nonces: seq<Bytes>, chunks: seq<Bytes>): (fs: seq<Frame>)
    requires |nonces| == |chunks|
  {
    if chunks == [] then []
    else
      var n := |chunks| - 1;
      Framed(nonces[..n], chunks[..n]) + if chunks[n] == [] then [] else [Frame(nonces[n], chunks[n])]
  }

  /** No byte of a chunk is left out, none comes twice. */
  lemma {:induction false} FramedKeepsAll(nonces: seq<Bytes>, chunks: seq<Bytes>)
    requires |nonces| == |chunks|
    ensures Concat(Plains(Framed(nonces, chunks))) == Concat(chunks)
    decreases |chunks|
  {
    if chunks != [] {
      var n := |chunks| - 1;
      var front := Framed(nonces[..n], chunks[..n]);
      FramedKeepsAll(nonces[..n], chunks[..n]);
      assert chunks == chunks[..n] + [chunks[n]];
      ConcatSnoc(chunks[..n], chunks[n]);
      if chunks[n] == [] {
        assert front + [] == front && Concat(chunks[..n]) + [] == Concat(chunks[..n]);
      } else {
        assert Plains(front + [Frame(nonces[n], chunks[n])]) == Plains(front) + [chunks[n]];
        ConcatSnoc(Plains(front), chunks[n]);
      }
    }
  }

  /**
   A run of Writes, stopping at the first that fails, as a copy loop or the daemon's session does; empty chunks
   leave nothing. Whatever happens, the sink then holds the whole frames of the chunks before, and of the one that
   failed at most a part; and the writer is left with every position sealed at most once.
   */
  method WriteAll(e: EncWriter, chunks: seq<Bytes>, nonces: seq<Bytes>)
    returns (ok: bool, done: nat, ghost torn: Bytes)
    requires e.Valid() && !e.trail.torn && |nonces| == |chunks|
    requires forall i :: 0 <= i < |chunks| ==> |nonces[i]| == NONCE_SIZE
    requires Expands(e.c)
    modifies e, e.w
    ensures e.Valid() && !e.trail.resealed && done <= |chunks|
    ensures var fs := Framed(nonces[..done], chunks[..done]);
            && e.trail.frames == old(e.trail.frames) + fs
            && e.w.data == old(e.w.data) + Encode(e.c, e.streamID, |old(e.trail.frames)|, fs) + torn
    ensures ok ==> done == |chunks| && !e.trail.torn && torn == []
    ensures !ok ==> done < |chunks| && chunks[done] != []
    ensures !ok ==> torn < FrameBytes(e.c, e.streamID, |e.trail.frames|, Frame(nonces[done], chunks[done]))
    ensures !ok && FrameSize(chunks[done]) > MAX_FRAME ==> torn == []
  {
    hide BigEndian, FrameAAD, Consistent, FrameBytes, Encode, Wrap64, Expands, Framed, AfterWrite;
    TornFirst(e.streamID, e.trail);
    ghost var start, before := |e.trail.frames|, e.w.data;
    ok, done, torn := true, 0, [];
    NoFrames(e.c, e.streamID, start);
    while done < |chunks|
      invariant done <= |chunks| && e.Valid() && ok && torn == [] && !e.trail.torn && !e.trail.resealed
      invariant e.trail.frames == old(e.trail.frames) + Framed(nonces[..done], chunks[..done])
      invariant e.w.data == before + Encode(e.c, e.streamID, start, Framed(nonces[..done], chunks[..done]))
    {
      ok, torn := WriteOne(e, chunks[done], nonces[done]);
      if !ok {
        return;
      }
      FramedNext(nonces, chunks, done);
      EncodeNext(e.c, e.streamID, start, Framed(nonces[..done], chunks[..done]), Frame(nonces[done], chunks[done]));
      done := done + 1;
    }
    assert nonces[..|chunks|] == nonces && chunks[..|chunks|] == chunks;
  }

  method WriteOne(e: EncWriter, p: Bytes, nonce: Bytes) returns (ok: bool, ghost torn: Bytes)
    requires e.Valid() && !e.trail.torn && |nonce| == NONCE_SIZE && Expands(e.c)
    modifies e, e.w
    ensures e.Valid() && !e.trail.resealed
    ensures var frame := FrameBytes(e.c, e.streamID, |old(e.trail.frames)|, Frame(nonce, p));
      if p == [] then ok && torn == [] && e.trail == old(e.trail) && e.w.data == old(e.w.data)
      else if ok then torn == [] && !e.trail.torn
        && e.trail.frames == old(e.trail.frames) + [Frame(nonce, p)] && e.w.data == old(e.w.data) + frame
      else torn < frame && e.trail.frames == old(e.trail.frames) && e.w.data == old(e.w.data) + torn
    ensures !ok && FrameSize(p) > MAX_FRAME ==> torn == []
  {
    hide BigEndian, FrameAAD, Consistent, Wrap64, Expands;
    TornFirst(e.streamID, e.trail);
    TornOnce(e.streamID, e.trail, Frame(nonce, p));
    ghost var frame := FrameBytes(e.c, e.streamID, |e.trail.frames|, Frame(nonce, p));
    var room := e.w.room;
    var n;
    n, ok := e.Write(p, nonce);
    torn := if ok || FrameSize(p) > MAX_FRAME then [] else frame[..Min(|frame|, room)];
  }

  lemma NoFrames(c: Cipher, sid: Option<Bytes>, start: nat)
    ensures Encode(c, sid, start, []) == [] && Framed([], []) == []
  {
  }

  lemma FramedNext(nonces: seq<Bytes>, chunks: seq<Bytes>, i: nat)
    requires |nonces| == |chunks| && i < |chunks|
    ensures Framed(nonces[..i + 1], chunks[..i + 1]) ==
      var fs := Framed(nonces[..i], chunks[..i]); if chunks[i] == [] then fs else fs + [Frame(nonces[i], chunks[i])]
  {
    assert nonces[..i + 1][..i] == nonces[..i] && chunks[..i + 1][..i] == chunks[..i];
  }

  lemma EncodeNext(c: Cipher, sid: Option<Bytes>, start: nat, fs: seq<Frame>, f: Frame)
    ensures Encode(c, sid, start, fs + [f]) == Encode(c, sid, start, fs) + FrameBytes(c, sid, start + |fs|, f)
  {
    EncodeAppend(c, sid, start, fs, [f]);
    assert Encode(c, sid, start + |fs|, [f]) == FrameBytes(c, sid, start + |fs|, f) + [];
  }

  lemma FrameNotEmpty(c: Cipher, sid: Option<Bytes>, i: nat, f: Frame)
    ensures |FrameBytes(c, sid, i, f)| > 0
  {
  }

  lemma BothDecode(c: Cipher, log: set<Sealed>, sid: Bytes, written: Frame, other: Frame)
    requires Ideal(c, log) && |sid| == STREAM_ID_SIZE && Fits(written) && Fits(other)
    requires Sealed(other.nonce, FrameAAD(Some(sid), 0), other.plain) in log
    requires Sealed(written.nonce, FrameAAD(Some(sid), 0), written.plain) in log
    ensures exists body :: sid <= body && DecodeV2(c, body).frames == [other.plain]
  {
    hide FrameAAD, DecodeV2, Ideal;
    StrayFrameDecodes(c, log, sid, [written], Sealed(other.nonce, FrameAAD(Some(sid), 0), other.plain), 0);
    var body :| sid <= body && |DecodeV2(c, body).frames| == 1 && DecodeV2(c, body).frames[0] == other.plain;
    assert DecodeV2(c, body).frames == [other.plain];
  }

  lemma TornFirst(sid: Option<Bytes>, t: Trail)
    requires Consistent(sid, t) && !t.torn
    ensures !t.resealed
  {
  }

  /** The first failed Write tears a frame but seals no position twice. */
  lemma TornOnce(sid: Option<Bytes>, t: Trail, f: Frame)
    requires Consistent(sid, t) && !t.torn
    ensures !AfterWrite(sid, t, f, true).resealed && !AfterWrite(sid, t, f, false).resealed
    ensures !AfterWrite(sid, t, f, true).torn
  {
  }

  /**
   After a Write that failed, another one with other bytes seals the same position again. The file then reads as the
   second; but where the first one's seal is known, a file that reads as the first opens as well.
   */
  method RetriedWrite(c: Cipher, sid: Bytes, first: Frame, second: Frame, ghost log: set<Sealed>) returns (e: EncWriter)
    requires Expands(c) && |sid| == STREAM_ID_SIZE && Fits(first) && Fits(second)
    requires first.plain != [] && second.plain != [] && first.plain != second.plain
    requires Ideal(c, log) && log >= {Sealed(first.nonce, FrameAAD(Some(sid), 0), first.plain)}
    requires log >= {Sealed(second.nonce, FrameAAD(Some(sid), 0), second.plain)}
    ensures e.Valid() && e.streamID == Some(sid) && e.trail.resealed && e.trail.frames == [second]
    ensures e.w.data == Encode(c, Some(sid), 0, [second])
    ensures exists body :: sid <= body && DecodeV2(c, body).frames == [first.plain]
  {
    hide BigEndian, Consistent, Encode, FrameAAD, FrameBytes, DecodeV2, Ideal;
    var sink := new Sink(0);
    e := new EncWriter(c, sink, Some(sid));
    FrameNotEmpty(c, Some(sid), 0, first);
    var _, ok := e.Write(first.plain, first.nonce);
    sink.room := |FrameBytes(c, Some(sid), 0, second)|;
    var _, again := e.Write(second.plain, second.nonce);
    ghost var frame := FrameBytes(c, Some(sid), 0, second);
    assert frame[..|frame|] == frame;
    EncodeNext(c, Some(sid), 0, [], second);
    NoFrames(c, Some(sid), 0);
    assert [] + [second] == [second];
    BothDecode(c, log, sid, second, first);
  }

  /** An untorn writer is a faithful one: position binding applies to what it wrote. */
  lemma WriterIsFaithful(sid: Bytes, t: Trail)
    requires Consistent(Some(sid), t) && !t.resealed
    requires |sid| == STREAM_ID_SIZE && |t.slots| < COUNTER_LIMIT
    ensures Faithful(WriterRun(sid, t.slots, t.sealed))
    ensures !t.torn ==> t.slots == Plains(t.frames)
  {
    hide FrameAAD;
    forall e | e in t.sealed
      ensures SealedInPlace(sid, t.slots, e)
    {
      assert InSlot(Some(sid), t.slots, e);
    }
  }

  datatype ReadStatus = Data | Eof | UnexpectedEof

  /** io.ReadFull at `pos`: n bytes, or nothing usable and the input used up. */
  function ReadFull(input: Bytes, pos: nat, n: nat): (r: (Option<Bytes>, nat))
    requires pos <= |input|
  {
    if pos + n <= |input| then (Some(input[pos..pos + n]), pos + n) else (None, |input|)
  }

  class DecReader {
    const c: Cipher
    /** What the underlying reader has to deliver: a whole file, or a snapshot of one. */
    const input: Bytes
    const v2: bool
    var pos: nat
    var buf: Bytes
    var corrupt: bool
    var streamID: Option<Bytes>
    var needSID: bool
    var counter: nat
    ghost var accepted: seq<Bytes>
    ghost var delivered: Bytes

    ghost predicate Valid()
      reads this
    {
      && pos <= |input|
      && counter == Wrap64(|accepted|)
      && delivered + buf == Concat(accepted)
      && IDKnown(input, v2, pos, needSID, streamID, accepted)
      && AcceptedInOrder(c, streamID, accepted)
    }

    /** The frames still to come and how the stream ends. */
    ghost function Rest(): Decoded
      requires pos <= |input|
      reads this
    {
      RestAt(c, input, pos, needSID, streamID, |accepted|)
    }

    ghost function Remaining(): Bytes
      requires pos <= |input|
      reads this
    {
      buf + Concat(Rest().frames)
    }

    constructor (c: Cipher, input: Bytes, v2: bool)
      ensures Valid() && this.c == c && this.input == input && this.v2 == v2 && !corrupt
      ensures accepted == [] && delivered == []
      ensures Remaining() == Concat(Rest().frames)
      ensures Rest() == if v2 then DecodeV2(c, input) else DecodeFrames(c, None, 0, input)
    {
      this.c, this.input, this.v2 := c, input, v2;
      pos, buf, corrupt, streamID, needSID, counter := 0, [], false, None, v2, 0;
      accepted, delivered := [], [];
      new;
      assert input[0..] == input;
    }

    /** Reads the stream id before the first frame of a V2 stream. */
    method NeedID() returns (ok: bool)
      requires Valid()
      modifies this`pos, this`streamID, this`needSID
      ensures Valid() && pos >= old(pos)
      ensures ok ==> !needSID && Rest() == old(Rest())
      ensures !ok ==> old(Rest()) == Decoded([], Clean)
    {
      hide DecodeFrames;
      ok := true;
      if needSID {
        var (sid, next) := ReadFull(input, pos, STREAM_ID_SIZE);
        if sid.None? {
          ok, pos := false, next;
        } else {
          assert input[0..] == input;
          streamID, needSID, pos := sid, false, next;
        }
      }
    }

    /** One turn of the reader's loop. */
    method Fill() returns (st: ReadStatus)
      requires Valid() && !needSID && buf == []
      modifies this
      ensures Valid() && !needSID && delivered == old(delivered)
      ensures st == Data ==> (pos > old(pos) && corrupt == old(corrupt) && Prepend([buf], Rest()) == old(Rest()))
      ensures st != Data ==> (buf == [] && Ended(old(Rest()), st, old(corrupt), corrupt))
    {
      hide DecodeFrames, AcceptedInOrder, AcceptedAt, FrameAAD, BigEndian, Concat, Wrap64;
      FrameAADWraps(streamID, |accepted|);
      var turn := TakeFrame(c, input, pos, streamID, counter, |accepted|);
      if turn.NextPlain? {
        Accept(turn.plain, turn.pos);
        st := Data;
      } else {
        corrupt := corrupt || turn.authFailed;
        pos := turn.pos;
        st := turn.st;
      }
    }

    method Accept(plain: Bytes, next: nat)
      requires Valid() && !needSID && buf == []
      requires next <= |input| && AcceptedAt(c, streamID, |accepted|, plain)
      modifies this`counter, this`accepted, this`buf, this`pos
      ensures Valid() && accepted == old(accepted) + [plain] && buf == plain && pos == next
    {
      hide AcceptedInOrder, AcceptedAt, Wrap64;
      WrapNext(|accepted|);
      ConcatSnoc(accepted, plain);
      assert delivered == delivered + [];
      AcceptedMore(c, streamID, accepted, plain);
      counter := Wrap64(counter + 1);
      accepted := accepted + [plain];
      buf, pos := plain, next;
    }

    /**
     Read with a buffer of n bytes. It yields the next part of what remains; it reports an end only
     when nothing remains, and records corruption exactly when a frame failed to authenticate.
     */
    method Read(n: nat) returns (data: Bytes, st: ReadStatus)
      requires Valid()
      modifies this
      ensures Valid() && delivered == old(delivered) + data
      ensures st == Data ==> (|data| <= n && (n > 0 ==> data != []) && corrupt == old(corrupt))
      ensures st == Data ==> (old(Remaining()) == data + Remaining() && Rest().end == old(Rest().end))
      ensures st != Data ==> data == [] && old(Remaining()) == []
      ensures st != Data ==> st == if old(Rest().end) == Oversize then UnexpectedEof else Eof
      ensures st != Data ==> (corrupt <==> old(corrupt) || old(Rest().end) == Corrupt)
    {
      st := Refill();
      if st != Data {
        return [], st;
      }
      hide RestAt, AcceptedInOrder, IDKnown, Concat, Wrap64;
      var k := Min(n, |buf|);
      data := buf[..k];
      HandOut(delivered, buf, k, Concat(Rest().frames));
      buf := buf[k..];
      delivered := delivered + data;
    }

    /** The loop of Read: turns until there is something to hand out. */
    method Refill() returns (st: ReadStatus)
      requires Valid()
      modifies this
      ensures Valid() && delivered == old(delivered)
      ensures st == Data ==> (buf != [] && corrupt == old(corrupt))
      ensures st == Data ==> (Remaining() == old(Remaining()) && Rest().end == old(Rest().end))
      ensures st != Data ==> (buf == [] && old(Remaining()) == [] && Ended(Decoded([], old(Rest().end)), st, old(corrupt), corrupt))
    {
      hide RestAt, AcceptedInOrder, IDKnown, Wrap64;
      st := Data;
      while |buf| == 0
        invariant Valid() && delivered == old(delivered) && corrupt == old(corrupt) && st == Data
        invariant Remaining() == old(Remaining()) && Rest().end == old(Rest().end)
        decreases |input| - pos, |buf| == 0
      {
        var known := NeedID();
        if !known {
          return Eof;
        }
        st := Fill();
        if st != Data {
          return;
        }
      }
    }
  }

  lemma HandOut(out: Bytes, buf: Bytes, k: nat, later: Bytes)
    requires k <= |buf|
    ensures out + buf[..k] + buf[k..] == out + buf
    ensures buf[..k] + (buf[k..] + later) == buf + later
  {
  }

  /** Outcome of one turn of the loop. */
  datatype Turn = NextPlain(plain: Bytes, pos: nat) | Stop(st: ReadStatus, authFailed: bool, pos: nat)

  /** How a reader stops when `left` is what it had to come: no frame any more, and the status that says why. */
  ghost predicate Ended(left: Decoded, st: ReadStatus, before: bool, after: bool) {
    && left.frames == []
    && st == (if left.end == Oversize then UnexpectedEof else Eof)
    && (after <==> before || left.end == Corrupt)
  }

  /** Take the next frame off the input and decrypt it; `k` is the frame's number and `counter` that number as 64 bits. */
  method TakeFrame(c: Cipher, input: Bytes, pos: nat, sid: Option<Bytes>, counter: nat, ghost k: nat) returns (t: Turn)
    requires pos <= |input| && FrameAAD(sid, counter) == FrameAAD(sid, k)
    ensures pos <= t.pos <= |input|
    ensures t.NextPlain? ==> (pos < t.pos && AcceptedAt(c, sid, k, t.plain) &&
      DecodeFrames(c, sid, k, input[pos..]) == Prepend([t.plain], DecodeFrames(c, sid, k + 1, input[t.pos..])))
    ensures t.Stop? ==> (t.st != Data && Ended(DecodeFrames(c, sid, k, input[pos..]), t.st, false, t.authFailed))
  {
    hide DecodeFrames, FromBigEndian, FrameAAD, BigEndian, AcceptedAt, Prepend;
    var (lenbuf, p) := ReadFull(input, pos, 4);
    if lenbuf.None? {
      DecodeStops(c, input, pos, sid, k);
      return Stop(Eof, false, p);
    }
    var flen := FromBigEndian(lenbuf.value);
    if flen < NONCE_SIZE {
      DecodeStops(c, input, pos, sid, k);
      return Stop(Eof, false, p);
    }
    if flen > MAX_FRAME {
      DecodeStops(c, input, pos, sid, k);
      return Stop(UnexpectedEof, false, p);
    }
    var (frame, q) := ReadFull(input, p, flen);
    if frame.None? {
      DecodeStops(c, input, pos, sid, k);
      return Stop(Eof, false, q);
    }
    var pt := c.open(frame.value[..NONCE_SIZE], frame.value[NONCE_SIZE..], FrameAAD(sid, counter));
    DecodeOne(c, input, pos, flen, frame.value, sid, k);
    if pt.None? {
      return Stop(Eof, true, q);
    }
    return NextPlain(pt.value, q);
  }

  lemma DecodeStops(c: Cipher, input: Bytes, pos: nat, sid: Option<Bytes>, k: nat)
    requires pos <= |input|
    ensures var d := DecodeFrames(c, sid, k, input[pos..]);
            if pos + 4 > |input| then d == Decoded([], Clean)
            else
              var flen := FromBigEndian(input[pos..pos + 4]);
              && (flen < NONCE_SIZE ==> d == Decoded([], Clean))
              && (flen > MAX_FRAME ==> d == Decoded([], Oversize))
              && (flen <= MAX_FRAME && pos + 4 + flen > |input| ==> d == Decoded([], Clean))
  {
    hide FrameAAD, FromBigEndian;
    if pos + 4 <= |input| {
      FrameSlices(input, pos, 0);
    }
  }

  lemma DecodeOne(c: Cipher, input: Bytes, pos: nat, flen: nat, frame: Bytes, sid: Option<Bytes>, k: nat)
    requires pos + 4 + flen <= |input| && flen == FromBigEndian(input[pos..pos + 4])
    requires NONCE_SIZE <= flen <= MAX_FRAME && frame == input[pos + 4..pos + 4 + flen]
    ensures var d, pt := DecodeFrames(c, sid, k, input[pos..]), c.open(frame[..NONCE_SIZE], frame[NONCE_SIZE..], FrameAAD(sid, k));
            if pt.None? then d == Decoded([], Corrupt)
            else d == Prepend([pt.value], DecodeFrames(c, sid, k + 1, input[pos + 4 + flen..])) && AcceptedAt(c, sid, k, pt.value)
  {
    hide FrameAAD, FromBigEndian;
    FrameSlices(input, pos, 0);
    FrameSlices(input, pos, flen);
  }

  lemma FrameSlices(input: Bytes, pos: nat, flen: nat)
    requires pos + 4 + flen <= |input|
    ensures input[pos..][..4] == input[pos..pos + 4]
    ensures flen >= NONCE_SIZE ==>
      (input[pos..][4..4 + NONCE_SIZE] == input[pos + 4..pos + 4 + flen][..NONCE_SIZE] &&
       input[pos..][4 + NONCE_SIZE..4 + flen] == input[pos + 4..pos + 4 + flen][NONCE_SIZE..])
    ensures input[pos..][4 + flen..] == input[pos + 4 + flen..]
  {
  }

  /** What a reader knows of the stream id: unread at the start, unreadable at the end, or the first bytes of the input. */
  ghost predicate IDKnown(input: Bytes, v2: bool, pos: nat, needSID: bool, sid: Option<Bytes>, accepted: seq<Bytes>) {
    && (needSID ==> v2 && sid == None && accepted == [] && (pos == 0 || pos == |input|))
    && (!v2 ==> sid == None)
    && (v2 && !needSID ==> STREAM_ID_SIZE <= |input| && sid == Some(input[..STREAM_ID_SIZE]))
  }

  ghost function RestAt(c: Cipher, input: Bytes, pos: nat, needSID: bool, sid: Option<Bytes>, k: nat): Decoded
    requires pos <= |input|
  {
    if needSID then DecodeV2(c, input[pos..]) else DecodeFrames(c, sid, k, input[pos..])
  }

  lemma AcceptedMore(c: Cipher, sid: Option<Bytes>, accepted: seq<Bytes>, plain: Bytes)
    requires AcceptedInOrder(c, sid, accepted) && AcceptedAt(c, sid, |accepted|, plain)
    ensures AcceptedInOrder(c, sid, accepted + [plain])
  {
    hide AcceptedAt;
  }

  /** Each plaintext was accepted by the cipher at its own position. */
  ghost predicate AcceptedInOrder(c: Cipher, sid: Option<Bytes>, accepted: seq<Bytes>) {
    forall i :: 0 <= i < |accepted| ==> AcceptedAt(c, sid, i, accepted[i])
  }

  ghost predicate AcceptedAt(c: Cipher, sid: Option<Bytes>, i: nat, plain: Bytes) {
    exists nonce, box :: |nonce| == NONCE_SIZE && NONCE_SIZE + |box| <= MAX_FRAME
      && c.open(nonce, box, FrameAAD(sid, i)) == Some(plain)
  }

  /** Whatever the sizes of the buffers, the pieces read are the plaintext in order, and all of it once an end is reported. */
  method ReadInPieces(r: DecReader, sizes: seq<nat>) returns (out: Bytes, ended: bool)
    requires r.Valid()
    modifies r
    ensures r.Valid() && r.delivered == old(r.delivered) + out
    ensures !ended ==> old(r.Remaining()) == out + r.Remaining()
    ensures ended ==> old(r.Remaining()) == out
    ensures ended ==> (r.corrupt <==> old(r.corrupt) || old(r.Rest().end) == Corrupt)
  {
    hide RestAt, AcceptedInOrder, IDKnown, Concat;
    out, ended := [], false;
    for i := 0 to |sizes|
      invariant r.Valid() && !ended && r.delivered == old(r.delivered) + out
      invariant old(r.Remaining()) == out + r.Remaining()
      invariant r.corrupt == old(r.corrupt) && r.Rest().end == old(r.Rest().end)
    {
      var piece, st := r.Read(sizes[i]);
      out := out + piece;
      if st != Data {
        ended := true;
        return;
      }
    }
  }

  /** Over any number of Reads, even past a reported end, everything accepted sits in the writer's slots. */
  lemma {:induction false} AcceptedWithin(
    c: Cipher, log: set<Sealed>, sid: Bytes, slots: seq<Bytes>, accepted: seq<Bytes>)
    requires Ideal(c, log) && Bound(log, sid, slots)
    requires AcceptedInOrder(c, Some(sid), accepted)
    ensures accepted <= slots
    decreases |accepted|
  {
    if accepted != [] {
      var i := |accepted| - 1;
      assert AcceptedInOrder(c, Some(sid), accepted[..i]);
      AcceptedWithin(c, log, sid, slots, accepted[..i]);
      assert AcceptedAt(c, Some(sid), i, accepted[i]);
      var nonce, box :| |nonce| == NONCE_SIZE && NONCE_SIZE + |box| <= MAX_FRAME
        && c.open(nonce, box, FrameAAD(Some(sid), i)) == Some(accepted[i]);
      hide Ideal, Bound, FrameAAD;
      OpenedIsSlot(c, log, sid, slots, i, nonce, box);
      assert accepted == accepted[..i] + [accepted[i]];
    }
  }
}
