/**
 The framed AEAD stream that recordings are stored in.

 The cipher is the abstract AEAD of section 2 of RFC 5116, idealised: `open` accepts
 exactly what was sealed. `log` stands for every seal ever made under the key.
 */
module Crypto {
  import opened Common

  const MAGIC_V1: Bytes := [84, 84, 69, 67, 49, 10]
  const MAGIC_V2: Bytes := [84, 84, 69, 67, 50, 10]
  const STREAM_ID_SIZE: nat := 16
  const NONCE_SIZE: nat := 12
  const TAG_SIZE: nat := 16
  const MAX_FRAME: nat := 0x10_0000
  const COUNTER_LIMIT: nat := 0x1_0000_0000_0000_0000

  // ---------------------------------------------------------------- cipher

  datatype Cipher = Cipher(
    seal: (Bytes, Bytes, Bytes) -> Bytes,        // nonce, plaintext, AAD
    open: (Bytes, Bytes, Bytes) -> Option<Bytes> // nonce, box, AAD
  )

  datatype Sealed = Sealed(nonce: Bytes, aad: Bytes, plain: Bytes)

  ghost predicate Opens(c: Cipher, log: set<Sealed>, nonce: Bytes, box: Bytes, aad: Bytes, plain: Bytes) {
    Sealed(nonce, aad, plain) in log && c.seal(nonce, plain, aad) == box
  }

  /** A box is one tag longer than its plaintext. */
  ghost predicate Expands(c: Cipher) {
    forall n, p, a :: |c.seal(n, p, a)| == |p| + TAG_SIZE
  }

  /** The cipher idealised: `open` accepts a box exactly when it was sealed. */
  ghost predicate Ideal(c: Cipher, log: set<Sealed>) {
    && Expands(c)
    && (forall n, b, a, p :: c.open(n, b, a) == Some(p) <==> Opens(c, log, n, b, a, p))
  }

  /** All that reading back takes: what was sealed opens. */
  ghost predicate Correct(c: Cipher, log: set<Sealed>) {
    Expands(c) && forall e :: e in log ==> OpensTo(c, e)
  }

  ghost predicate OpensTo(c: Cipher, e: Sealed) {
    c.open(e.nonce, c.seal(e.nonce, e.plain, e.aad), e.aad) == Some(e.plain)
  }

  lemma Opened(c: Cipher, log: set<Sealed>, e: Sealed)
    requires Correct(c, log) && e in log
    ensures OpensTo(c, e)
  {
  }

  lemma CorrectLess(c: Cipher, log: set<Sealed>, more: set<Sealed>)
    requires Correct(c, more) && log <= more
    ensures Correct(c, log)
  {
  }

  /** A cipher that opens whatever it seals. */
  ghost predicate Seals(c: Cipher) {
    Expands(c) && forall n, p, a :: c.open(n, c.seal(n, p, a), a) == Some(p)
  }

  lemma SealsIsCorrect(c: Cipher, log: set<Sealed>)
    requires Seals(c)
    ensures Correct(c, log)
  {
  }

  lemma IdealIsCorrect(c: Cipher, log: set<Sealed>)
    requires Ideal(c, log)
    ensures Correct(c, log)
  {
    forall e | e in log ensures OpensTo(c, e) {
      assert Opens(c, log, e.nonce, c.seal(e.nonce, e.plain, e.aad), e.aad, e.plain);
    }
  }

  // ------------------------------------------------------------ big endian

  function Pow256(w: nat): nat {
    if w == 0 then 1 else 256 * Pow256(w - 1)
  }

  function BigEndian(v: nat, w: nat): (r: Bytes)
    ensures |r| == w
  {
    if w == 0 then [] else BigEndian(v / 256, w - 1) + [v % 256]
  }

  function FromBigEndian(b: Bytes): nat {
    if b == [] then 0 else 256 * FromBigEndian(b[..|b| - 1]) + b[|b| - 1]
  }

  lemma {:induction false} BigEndianRoundTrip(v: nat, w: nat)
    requires v < Pow256(w)
    ensures FromBigEndian(BigEndian(v, w)) == v
  {
    if w > 0 {
      BigEndianRoundTrip(v / 256, w - 1);
      assert BigEndian(v, w)[..w - 1] == BigEndian(v / 256, w - 1);
    }
  }

  /** Writing v in w bytes drops everything above the w-th byte, as a fixed-width integer does. */
  lemma {:induction false} BigEndianWraps(q: nat, r: nat, w: nat)
    ensures BigEndian(q * Pow256(w) + r, w) == BigEndian(r, w)
  {
    if w > 0 {
      var t := q * Pow256(w - 1);
      assert q * Pow256(w) == 256 * t;
      assert (256 * t + r) / 256 == t + r / 256 && (256 * t + r) % 256 == r % 256;
      BigEndianWraps(q, r / 256, w - 1);
    }
  }

  lemma Widths()
    ensures Pow256(4) == 0x1_0000_0000
    ensures Pow256(8) == COUNTER_LIMIT
  {
    assert Pow256(2) == 0x1_0000;
    assert Pow256(4) == 0x1_0000 * 0x1_0000;
    assert Pow256(6) == 0x1_0000 * Pow256(4);
    assert Pow256(8) == 0x1_0000 * Pow256(6);
  }

  // ---------------------------------------------------------------- framing

  /** The associated data of frame `counter`: empty in a V1 stream, which has no stream id. */
  function FrameAAD(sid: Option<Bytes>, counter: nat): (aad: Bytes)
    ensures |aad| == if sid.None? then 0 else |sid.value| + 8
  {
    match sid
    case None => []
    case Some(id) => id + BigEndian(counter, 8)
  }

  /** A frame number as the 64-bit counter holds it. */
  function Wrap64(n: nat): (r: nat)
    ensures r < 0x1_0000_0000_0000_0000 && (n < 0x1_0000_0000_0000_0000 ==> r == n)
  {
    n % COUNTER_LIMIT
  }

  lemma WrapNext(n: nat)
    ensures Wrap64(Wrap64(n) + 1) == Wrap64(n + 1)
  {
  }

  /** The associated data of frame n only sees its number modulo 2^64. */
  lemma FrameAADWraps(sid: Option<Bytes>, n: nat)
    ensures FrameAAD(sid, Wrap64(n)) == FrameAAD(sid, n)
  {
    Widths();
    BigEndianWraps(n / COUNTER_LIMIT, n % COUNTER_LIMIT, 8);
  }

  /** Position binding rests on this: the associated data names one stream and one position in it. */
  lemma FrameAADInjective(a: Bytes, i: nat, b: Bytes, j: nat)
    requires |a| == |b| == STREAM_ID_SIZE
    requires i < COUNTER_LIMIT && j < COUNTER_LIMIT
    requires FrameAAD(Some(a), i) == FrameAAD(Some(b), j)
    ensures a == b && i == j
  {
    var x, y := FrameAAD(Some(a), i), FrameAAD(Some(b), j);
    assert x[..16] == a && y[..16] == b;
    assert x[16..] == BigEndian(i, 8) && y[16..] == BigEndian(j, 8);
    Widths();
    BigEndianRoundTrip(i, 8);
    BigEndianRoundTrip(j, 8);
  }

  datatype Frame = Frame(nonce: Bytes, plain: Bytes)

  function FrameSize(plain: Bytes): nat {
    NONCE_SIZE + |plain| + TAG_SIZE
  }

  /** A frame within the cap that writer and reader both enforce. */
  predicate Fits(f: Frame) {
    |f.nonce| == NONCE_SIZE && FrameSize(f.plain) <= MAX_FRAME
  }

  predicate AllFit(fs: seq<Frame>) {
    forall f :: f in fs ==> Fits(f)
  }

  function FrameBytes(c: Cipher, sid: Option<Bytes>, counter: nat, f: Frame): Bytes {
    var box := c.seal(f.nonce, f.plain, FrameAAD(sid, counter));
    BigEndian(NONCE_SIZE + |box|, 4) + f.nonce + box
  }

  /** The frames of `fs`, the first of them at position `start`. */
  function Encode(c: Cipher, sid: Option<Bytes>, start: nat, fs: seq<Frame>): Bytes
    decreases |fs|
  {
    if fs == [] then []
    else FrameBytes(c, sid, start, fs[0]) + Encode(c, sid, start + 1, fs[1..])
  }

  lemma {:induction false} EncodeAppend(c: Cipher, sid: Option<Bytes>, start: nat, a: seq<Frame>, b: seq<Frame>)
    ensures Encode(c, sid, start, a + b) == Encode(c, sid, start, a) + Encode(c, sid, start + |a|, b)
    decreases |a|
  {
    if a == [] {
      assert a + b == b;
    } else {
      assert (a + b)[1..] == a[1..] + b;
      EncodeAppend(c, sid, start + 1, a[1..], b);
    }
  }

  lemma EncodeSnoc(c: Cipher, sid: Option<Bytes>, fs: seq<Frame>, f: Frame)
    ensures Encode(c, sid, 0, fs + [f])
         == Encode(c, sid, 0, fs) + FrameBytes(c, sid, |fs|, f)
  {
    EncodeAppend(c, sid, 0, fs, [f]);
    assert Encode(c, sid, |fs|, [f]) == FrameBytes(c, sid, |fs|, f) + [];
  }

  function Plains(fs: seq<Frame>): (r: seq<Bytes>)
    ensures |r| == |fs|
    ensures forall i :: 0 <= i < |fs| ==> r[i] == fs[i].plain
  {
    seq(|fs|, i requires 0 <= i < |fs| => fs[i].plain)
  }

  /** Every frame of `fs` was sealed at its own position. */
  ghost predicate Logged(log: set<Sealed>, sid: Option<Bytes>, start: nat, fs: seq<Frame>) {
    forall i :: 0 <= i < |fs| ==>
      Sealed(fs[i].nonce, FrameAAD(sid, start + i), fs[i].plain) in log
  }

  // ---------------------------------------------------------------- reading

  datatype End = Clean | Corrupt | Oversize

  datatype Decoded = Decoded(frames: seq<Bytes>, end: End)

  function Prepend(frames: seq<Bytes>, d: Decoded): Decoded {
    Decoded(frames + d.frames, d.end)
  }

  lemma PrependPrepend(a: seq<Bytes>, b: seq<Bytes>, d: Decoded)
    ensures Prepend(a, Prepend(b, d)) == Prepend(a + b, d)
  {
    assert a + (b + d.frames) == a + b + d.frames;
  }

  /** What the frame loop of the reader makes of `rest`, the next frame being number `counter`. */
  function DecodeFrames(c: Cipher, sid: Option<Bytes>, counter: nat, rest: Bytes): Decoded
    decreases |rest|
  {
    if |rest| < 4 then Decoded([], Clean)
    else
      var flen := FromBigEndian(rest[..4]);
      if flen < NONCE_SIZE then Decoded([], Clean)
      else if flen > MAX_FRAME then Decoded([], Oversize)
      else if |rest| < 4 + flen then Decoded([], Clean)
      else
        match c.open(rest[4..4 + NONCE_SIZE], rest[4 + NONCE_SIZE..4 + flen], FrameAAD(sid, counter))
        case None => Decoded([], Corrupt)
        case Some(p) => Prepend([p], DecodeFrames(c, sid, counter + 1, rest[4 + flen..]))
  }

  /** A V2 body: the stream id, then frames. A body cut inside the id reads as a clean end. */
  function DecodeV2(c: Cipher, body: Bytes): Decoded {
    if |body| < STREAM_ID_SIZE then Decoded([], Clean)
    else DecodeFrames(c, Some(body[..STREAM_ID_SIZE]), 0, body[STREAM_ID_SIZE..])
  }

  function MagicVersion(prefix: Bytes): (v: nat)
    ensures v == 2 <==> MAGIC_V2 <= prefix
    ensures v == 1 <==> MAGIC_V1 <= prefix
    ensures v <= 2
  {
    assert MAGIC_V1[4] != MAGIC_V2[4];
    if |prefix| >= |MAGIC_V2| && prefix[..|MAGIC_V2|] == MAGIC_V2 then 2
    else if |prefix| >= |MAGIC_V1| && prefix[..|MAGIC_V1|] == MAGIC_V1 then 1
    else 0
  }

  /** The plaintext that opening `file` yields: a snapshot is the bytes the file held when it was opened. */
  function OpenCast(c: Cipher, file: Bytes): Bytes {
    var magic := file[..Min(|file|, |MAGIC_V1|)];
    match MagicVersion(magic)
    case 2 => Concat(DecodeV2(c, file[|MAGIC_V2|..]).frames)
    case 1 => Concat(DecodeFrames(c, None, 0, file[|MAGIC_V1|..]).frames)
    case _ => file
  }

  /** The file that a V2 writer has produced after emitting `fs`. */
  function StreamFile(c: Cipher, sid: Bytes, fs: seq<Frame>): Bytes {
    MAGIC_V2 + sid + Encode(c, Some(sid), 0, fs)
  }

  // -------------------------------------------------- round trip, truncation

  lemma OneFrame(c: Cipher, log: set<Sealed>, sid: Option<Bytes>, counter: nat, f: Frame, rest: Bytes)
    requires Correct(c, log) && Fits(f)
    requires Sealed(f.nonce, FrameAAD(sid, counter), f.plain) in log
    ensures |FrameBytes(c, sid, counter, f)| == 4 + FrameSize(f.plain)
    ensures DecodeFrames(c, sid, counter, FrameBytes(c, sid, counter, f) + rest)
         == Prepend([f.plain], DecodeFrames(c, sid, counter + 1, rest))
  {
    var aad := FrameAAD(sid, counter);
    var box := c.seal(f.nonce, f.plain, aad);
    var all := FrameBytes(c, sid, counter, f) + rest;
    var flen := NONCE_SIZE + |box|;
    Widths();
    BigEndianRoundTrip(flen, 4);
    assert all[..4] == BigEndian(flen, 4);
    assert all[4..4 + NONCE_SIZE] == f.nonce;
    assert all[4 + NONCE_SIZE..4 + flen] == box;
    assert all[4 + flen..] == rest;
    assert c.open(f.nonce, box, aad) == Some(f.plain) by { Opened(c, log, Sealed(f.nonce, aad, f.plain)); }
  }

  lemma LoggedTail(log: set<Sealed>, sid: Option<Bytes>, start: nat, fs: seq<Frame>)
    requires fs != [] && Logged(log, sid, start, fs)
    ensures Sealed(fs[0].nonce, FrameAAD(sid, start), fs[0].plain) in log
    ensures Logged(log, sid, start + 1, fs[1..])
  {
    assert Sealed(fs[0].nonce, FrameAAD(sid, start + 0), fs[0].plain) in log;
    forall i | 0 <= i < |fs| - 1
      ensures Sealed(fs[1..][i].nonce, FrameAAD(sid, start + 1 + i), fs[1..][i].plain) in log
    {
      assert Sealed(fs[i + 1].nonce, FrameAAD(sid, start + (i + 1)), fs[i + 1].plain) in log;
    }
  }


  lemma EncodeHead(c: Cipher, sid: Option<Bytes>, start: nat, fs: seq<Frame>, rest: Bytes)
    requires fs != []
    ensures Encode(c, sid, start, fs) + rest
         == FrameBytes(c, sid, start, fs[0]) + (Encode(c, sid, start + 1, fs[1..]) + rest)
    ensures Plains(fs) == [fs[0].plain] + Plains(fs[1..])
  {
  }

  lemma FirstThenRest(c: Cipher, log: set<Sealed>, sid: Option<Bytes>, start: nat, fs: seq<Frame>, rest: Bytes)
    requires Correct(c, log) && fs != [] && AllFit(fs) && Logged(log, sid, start, fs)
    ensures AllFit(fs[1..]) && Logged(log, sid, start + 1, fs[1..])
    ensures DecodeFrames(c, sid, start, Encode(c, sid, start, fs) + rest)
         == Prepend([fs[0].plain], DecodeFrames(c, sid, start + 1, Encode(c, sid, start + 1, fs[1..]) + rest))
  {
    hide DecodeFrames;
    LoggedTail(log, sid, start, fs);
    OneFrame(c, log, sid, start, fs[0], Encode(c, sid, start + 1, fs[1..]) + rest);
    EncodeHead(c, sid, start, fs, rest);
  }

  /** Decoding consumes whole frames one by one, whatever bytes come after them. */
  lemma {:induction false} DecodeEncode(
    c: Cipher, log: set<Sealed>, sid: Option<Bytes>, start: nat, fs: seq<Frame>, rest: Bytes)
    requires Correct(c, log) && AllFit(fs) && Logged(log, sid, start, fs)
    ensures DecodeFrames(c, sid, start, Encode(c, sid, start, fs) + rest)
         == Prepend(Plains(fs), DecodeFrames(c, sid, start + |fs|, rest))
    decreases |fs|
  {
    hide DecodeFrames;
    if fs == [] {
      assert Encode(c, sid, start, fs) + rest == rest;
    } else {
      FirstThenRest(c, log, sid, start, fs, rest);
      DecodeEncode(c, log, sid, start + 1, fs[1..], rest);
      EncodeHead(c, sid, start, fs, rest);
      PrependPrepend([fs[0].plain], Plains(fs[1..]), DecodeFrames(c, sid, start + |fs|, rest));
    }
  }

  lemma {:induction false} EncodedSize(c: Cipher, log: set<Sealed>, sid: Option<Bytes>, start: nat, fs: seq<Frame>)
    requires Correct(c, log) && AllFit(fs)
    ensures |Encode(c, sid, start, fs)| == SizeOf(fs)
    decreases |fs|
  {
    if fs != [] {
      assert Fits(fs[0]);
      assert |FrameBytes(c, sid, start, fs[0])| == 4 + FrameSize(fs[0].plain);
      EncodedSize(c, log, sid, start + 1, fs[1..]);
    }
  }

  function SizeOf(fs: seq<Frame>): nat {
    if fs == [] then 0 else 4 + FrameSize(fs[0].plain) + SizeOf(fs[1..])
  }

  /** How many frames of `fs` lie wholly inside their first `cut` bytes. */
  function WholeFrames(fs: seq<Frame>, cut: nat): (k: nat)
    ensures k <= |fs| && SizeOf(fs[..k]) <= cut
    ensures k < |fs| ==> cut < SizeOf(fs[..k + 1])
  {
    if fs == [] || cut < 4 + FrameSize(fs[0].plain) then
      assert fs != [] ==> fs[..1][0] == fs[0];
      0
    else
      var k := WholeFrames(fs[1..], cut - 4 - FrameSize(fs[0].plain));
      assert fs[..1 + k][1..] == fs[1..][..k];
      assert k + 1 < |fs| ==> fs[..k + 2][1..] == fs[1..][..k + 1];
      1 + k
  }

  lemma PartialFrame(c: Cipher, log: set<Sealed>, sid: Option<Bytes>, counter: nat, f: Frame, cut: nat)
    requires Correct(c, log) && Fits(f) && cut < 4 + FrameSize(f.plain)
    ensures |FrameBytes(c, sid, counter, f)| == 4 + FrameSize(f.plain)
    ensures DecodeFrames(c, sid, counter, FrameBytes(c, sid, counter, f)[..cut]) == Decoded([], Clean)
  {
    var all := FrameBytes(c, sid, counter, f);
    if cut >= 4 {
      Widths();
      BigEndianRoundTrip(FrameSize(f.plain), 4);
      assert all[..cut][..4] == BigEndian(FrameSize(f.plain), 4);
    }
  }

  lemma CutFirst(c: Cipher, log: set<Sealed>, sid: Option<Bytes>, start: nat, fs: seq<Frame>, cut: nat)
    requires Correct(c, log) && AllFit(fs) && fs != [] && cut <= |Encode(c, sid, start, fs)|
    ensures AllFit(fs[1..])
    ensures var head, tail := FrameBytes(c, sid, start, fs[0]), Encode(c, sid, start + 1, fs[1..]);
            && |head| == 4 + FrameSize(fs[0].plain)
            && Encode(c, sid, start, fs)[..cut]
                 == if cut < |head| then head[..cut] else head + tail[..cut - |head|]
  {
    assert Fits(fs[0]);
  }

  /** Cut anywhere, an encoded run of frames decodes to the frames wholly inside the cut, and ends cleanly. */
  lemma {:induction false} DecodeCut(
    c: Cipher, log: set<Sealed>, sid: Option<Bytes>, start: nat, fs: seq<Frame>, cut: nat)
    requires Correct(c, log) && AllFit(fs) && Logged(log, sid, start, fs)
    requires cut <= |Encode(c, sid, start, fs)|
    ensures DecodeFrames(c, sid, start, Encode(c, sid, start, fs)[..cut])
         == Decoded(Plains(fs[..WholeFrames(fs, cut)]), Clean)
    decreases |fs|
  {
    hide DecodeFrames, Correct, Logged, Fits, FrameBytes;
    if fs == [] {
      assert Encode(c, sid, start, fs)[..cut] == [];
      DecodeNothing(c, sid, start);
    } else {
      var size := 4 + FrameSize(fs[0].plain);
      CutFirst(c, log, sid, start, fs, cut);
      assert Fits(fs[0]);
      if cut < size {
        PartialFrame(c, log, sid, start, fs[0], cut);
      } else {
        var tail := Encode(c, sid, start + 1, fs[1..]);
        LoggedTail(log, sid, start, fs);
        OneFrame(c, log, sid, start, fs[0], tail[..cut - size]);
        DecodeCut(c, log, sid, start + 1, fs[1..], cut - size);
        PlainsCons(fs, WholeFrames(fs[1..], cut - size));
      }
    }
  }

  lemma PlainsCons(fs: seq<Frame>, k: nat)
    requires k < |fs|
    ensures Plains(fs[..1 + k]) == [fs[0].plain] + Plains(fs[1..][..k])
  {
  }

  lemma DecodeNothing(c: Cipher, sid: Option<Bytes>, counter: nat)
    ensures DecodeFrames(c, sid, counter, []) == Decoded([], Clean)
  {
  }

  lemma StreamParts(c: Cipher, sid: Bytes, fs: seq<Frame>, file: Bytes)
    requires |sid| == STREAM_ID_SIZE && StreamFile(c, sid, fs) <= file
    ensures var rest := file[|StreamFile(c, sid, fs)|..];
            MagicVersion(file[..Min(|file|, 6)]) == 2 &&
            file[6..][..STREAM_ID_SIZE] == sid &&
            file[6..][STREAM_ID_SIZE..] == Encode(c, Some(sid), 0, fs) + rest
  {
    var whole := StreamFile(c, sid, fs);
    assert file == whole + file[|whole|..];
    assert file[..6] == MAGIC_V2;
  }

  /**
   Replay boundary: whatever follows the frames written so far, even a later frame that is only
   partly there, opening the file yields their plaintext first.
   */
  lemma SnapshotCovers(c: Cipher, log: set<Sealed>, sid: Bytes, fs: seq<Frame>, file: Bytes)
    requires Correct(c, log) && AllFit(fs) && Logged(log, Some(sid), 0, fs)
    requires |sid| == STREAM_ID_SIZE && StreamFile(c, sid, fs) <= file
    ensures Concat(Plains(fs)) <= OpenCast(c, file)
  {
    hide DecodeFrames;
    var rest := file[|StreamFile(c, sid, fs)|..];
    StreamParts(c, sid, fs, file);
    DecodeEncode(c, log, Some(sid), 0, fs, rest);
    var d := DecodeFrames(c, Some(sid), |fs|, rest);
    ConcatAppend(Plains(fs), d.frames);
    assert file[..Min(|file|, 6)] == file[..Min(|file|, |MAGIC_V1|)];
  }

  lemma RoundTrip(c: Cipher, log: set<Sealed>, sid: Bytes, fs: seq<Frame>)
    requires Correct(c, log) && AllFit(fs) && Logged(log, Some(sid), 0, fs)
    requires |sid| == STREAM_ID_SIZE
    ensures OpenCast(c, StreamFile(c, sid, fs)) == Concat(Plains(fs))
    ensures DecodeV2(c, StreamFile(c, sid, fs)[|MAGIC_V2|..]) == Decoded(Plains(fs), Clean)
  {
    hide DecodeFrames;
    var file := StreamFile(c, sid, fs);
    StreamParts(c, sid, fs, file);
    DecodeEncode(c, log, Some(sid), 0, fs, []);
    DecodeNothing(c, Some(sid), |fs|);
    assert file[|file|..] == [] && Plains(fs) + [] == Plains(fs);
  }

  /** The file of a writer of the older format, which binds frames to no stream. */
  function OldFile(c: Cipher, fs: seq<Frame>): Bytes {
    MAGIC_V1 + Encode(c, None, 0, fs)
  }

  lemma OldRoundTrip(c: Cipher, log: set<Sealed>, fs: seq<Frame>)
    requires Correct(c, log) && AllFit(fs) && Logged(log, None, 0, fs)
    ensures OpenCast(c, OldFile(c, fs)) == Concat(Plains(fs))
  {
    var file := OldFile(c, fs);
    assert file[..6] == MAGIC_V1 && file[6..] == Encode(c, None, 0, fs);
    hide DecodeFrames;
    OldTruncation(c, log, fs, |file|);
    assert file[..|file|] == file;
    AllWhole(fs);
    EncodedSize(c, log, None, 0, fs);
  }

  /** A file of the older format, cut anywhere after the magic, opens as the frames wholly inside the cut. */
  lemma OldTruncation(c: Cipher, log: set<Sealed>, fs: seq<Frame>, cut: nat)
    requires Correct(c, log) && AllFit(fs) && Logged(log, None, 0, fs)
    requires |MAGIC_V1| <= cut <= |OldFile(c, fs)|
    ensures OpenCast(c, OldFile(c, fs)[..cut]) == Concat(Plains(fs[..WholeFrames(fs, cut - 6)]))
  {
    hide DecodeFrames;
    var file := OldFile(c, fs)[..cut];
    assert file[..Min(|file|, 6)] == MAGIC_V1;
    assert file[6..] == Encode(c, None, 0, fs)[..cut - 6];
    DecodeCut(c, log, None, 0, fs, cut - 6);
  }

  lemma {:induction false} AllWhole(fs: seq<Frame>)
    ensures WholeFrames(fs, SizeOf(fs)) == |fs| && fs[..WholeFrames(fs, SizeOf(fs))] == fs
    decreases |fs|
  {
    if fs != [] { AllWhole(fs[1..]); }
  }

  /** A file that starts with neither magic is a plain recording, as one that starts like a header is; it opens as it is. */
  lemma PlainOpens(c: Cipher, file: Bytes)
    requires (!(MAGIC_V1 <= file) && !(MAGIC_V2 <= file)) || |file| < 6 || file[0] == '{' as int
    ensures OpenCast(c, file) == file
  {
    if |file| >= 6 {
      assert file[..6] <= file;
    }
  }

  /** So what a snapshot of a plain recording shows is the start of what a later one shows. */
  lemma PlainSnapshotsGrow(c: Cipher, file: Bytes, cut: nat)
    requires cut <= |file| && file != [] && file[0] == '{' as int
    ensures OpenCast(c, file[..cut]) <= OpenCast(c, file)
  {
    PlainOpens(c, file);
    PlainOpens(c, file[..cut]);
  }

  /** And so it is with encrypted ones, cut anywhere after the magic. */
  lemma SnapshotsGrow(c: Cipher, log: set<Sealed>, sid: Bytes, fs: seq<Frame>, cut: nat, later: nat)
    requires Correct(c, log) && AllFit(fs) && Logged(log, Some(sid), 0, fs)
    requires |sid| == STREAM_ID_SIZE && |MAGIC_V2| <= cut <= later <= |StreamFile(c, sid, fs)|
    ensures OpenCast(c, StreamFile(c, sid, fs)[..cut]) <= OpenCast(c, StreamFile(c, sid, fs)[..later]) <= Concat(Plains(fs))
  {
    hide DecodeFrames, StreamFile, Plains, AllFit, Logged, Correct;
    var k, n := InsideCut(fs, cut), InsideCut(fs, later);
    CutOpens(c, log, sid, fs, cut);
    CutOpens(c, log, sid, fs, later);
    if cut >= 22 { WholeFramesGrow(fs, cut - 22, later - 22); }
    FewerPlains(fs, k, n);
    FewerPlains(fs, n, |fs|);
    assert fs[..|fs|] == fs;
  }

  /** How many of the frames of a V2 file lie inside its first `cut` bytes. */
  function InsideCut(fs: seq<Frame>, cut: nat): (k: nat)
    ensures k <= |fs|
  {
    if cut < 22 then 0 else WholeFrames(fs, cut - 22)
  }

  lemma CutOpens(c: Cipher, log: set<Sealed>, sid: Bytes, fs: seq<Frame>, cut: nat)
    requires Correct(c, log) && AllFit(fs) && Logged(log, Some(sid), 0, fs)
    requires |sid| == STREAM_ID_SIZE && |MAGIC_V2| <= cut <= |StreamFile(c, sid, fs)|
    ensures OpenCast(c, StreamFile(c, sid, fs)[..cut]) == Concat(Plains(fs[..InsideCut(fs, cut)]))
  {
    hide DecodeFrames;
    Truncation(c, log, sid, fs, cut);
    var file := StreamFile(c, sid, fs);
    assert file[..6] == MAGIC_V2;
    assert file[..cut][..Min(cut, 6)] == MAGIC_V2 && file[..cut][6..] == file[6..cut];
  }

  lemma {:induction false} WholeFramesGrow(fs: seq<Frame>, cut: nat, later: nat)
    requires cut <= later
    ensures WholeFrames(fs, cut) <= WholeFrames(fs, later)
    decreases |fs|
  {
    if fs != [] && cut >= 4 + FrameSize(fs[0].plain) {
      WholeFramesGrow(fs[1..], cut - 4 - FrameSize(fs[0].plain), later - 4 - FrameSize(fs[0].plain));
    }
  }

  lemma FewerPlains(fs: seq<Frame>, k: nat, n: nat)
    requires k <= n <= |fs|
    ensures Concat(Plains(fs[..k])) <= Concat(Plains(fs[..n]))
  {
    assert Plains(fs[..n]) == Plains(fs[..k]) + Plains(fs[k..n]);
    ConcatAppend(Plains(fs[..k]), Plains(fs[k..n]));
  }

  /** A V2 file cut anywhere after the magic yields the frames wholly inside the cut, with no error recorded. */
  lemma Truncation(c: Cipher, log: set<Sealed>, sid: Bytes, fs: seq<Frame>, cut: nat)
    requires Correct(c, log) && AllFit(fs) && Logged(log, Some(sid), 0, fs)
    requires |sid| == STREAM_ID_SIZE
    requires |MAGIC_V2| <= cut <= |StreamFile(c, sid, fs)|
    ensures DecodeV2(c, StreamFile(c, sid, fs)[|MAGIC_V2|..cut])
         == Decoded(Plains(fs[..if cut < 22 then 0 else WholeFrames(fs, cut - 22)]), Clean)
  {
    hide DecodeFrames;
    var file := StreamFile(c, sid, fs);
    StreamParts(c, sid, fs, file);
    var body := file[6..cut];
    if cut >= 22 {
      var enc := Encode(c, Some(sid), 0, fs);
      assert file[6..][16..] == enc by { assert enc + file[|file|..] == enc; }
      assert body[..16] == sid && body[16..] == enc[..cut - 22];
      DecodeCut(c, log, Some(sid), 0, fs, cut - 22);
    }
  }

  // -------------------------------------------------------- what is on the disk

  /** The bytes of a number go from the highest to the lowest. */
  lemma HighestFirst(v: nat)
    ensures BigEndian(v, 4) == [v / 0x100_0000 % 256, v / 0x1_0000 % 256, v / 0x100 % 256, v % 256]
    ensures BigEndian(v, 8) == BigEndian(v / 0x1_0000_0000, 4) + BigEndian(v, 4)
  {
    var a, b, c := v / 256, v / 256 / 256, v / 256 / 256 / 256;
    assert b == v / 0x1_0000 && c == v / 0x100_0000 && c / 256 == v / 0x1_0000_0000;
    FourBytes(v);
    EightBytes(v);
  }

  lemma FourBytes(v: nat)
    ensures BigEndian(v, 4) == [v / 256 / 256 / 256 % 256, v / 256 / 256 % 256, v / 256 % 256, v % 256]
  {
    assert BigEndian(v / 256 / 256, 2) == BigEndian(v / 256 / 256 / 256, 1) + [v / 256 / 256 % 256];
    assert BigEndian(v / 256 / 256 / 256, 1) == [v / 256 / 256 / 256 % 256];
  }

  lemma EightBytes(v: nat)
    ensures BigEndian(v, 8) == BigEndian(v / 256 / 256 / 256 / 256, 4) + BigEndian(v, 4)
  {
    var a, b, c, d := v / 256, v / 256 / 256, v / 256 / 256 / 256, v / 256 / 256 / 256 / 256;
    assert BigEndian(v, 8) == BigEndian(b, 6) + [a % 256, v % 256];
    assert BigEndian(b, 6) == BigEndian(d, 4) + [c % 256, b % 256];
    FourBytes(v);
  }

  /**
   A V2 file is its magic, the stream id and, for each frame, the length of what follows, highest byte first, the nonce
   and the sealed plaintext; the seal also covers the id and the number of the frame, highest byte first.
   */
  lemma WireFormat(c: Cipher, sid: Bytes, n: nat, f: Frame)
    requires Expands(c) && Fits(f) && n < COUNTER_LIMIT
    ensures FrameAAD(Some(sid), n) == sid + BigEndian(n / 0x1_0000_0000, 4) + BigEndian(n, 4) && FrameAAD(None, n) == []
    ensures var size := 12 + |f.plain| + 16;
            FrameBytes(c, Some(sid), n, f)
              == BigEndian(size, 4) + f.nonce + c.seal(f.nonce, f.plain, FrameAAD(Some(sid), n))
    ensures StreamFile(c, sid, [f]) == [84, 84, 69, 67, 50, 10] + sid + FrameBytes(c, Some(sid), 0, f)
    ensures Fits(f) <==> |f.nonce| == 12 && |f.plain| + 28 <= 1024 * 1024
    ensures OldFile(c, [f]) == [84, 84, 69, 67, 49, 10] + (BigEndian(12 + |f.plain| + 16, 4) + f.nonce + c.seal(f.nonce, f.plain, []))
  {
    HighestFirst(n);
    assert Encode(c, None, 0, [f]) == FrameBytes(c, None, 0, f) + [];
    assert Encode(c, Some(sid), 0, [f]) == FrameBytes(c, Some(sid), 0, f) + [];
  }

  /** A block that claims to be flen bytes long and is no frame that opens at position n. */
  ghost predicate NoFrame(c: Cipher, sid: Option<Bytes>, n: nat, flen: nat, block: Bytes) {
    flen < 12 || flen > 1024 * 1024 || |block| < flen || c.open(block[..12], block[12..flen], FrameAAD(sid, n)) == None
  }

  /**
   How a stream ends at such a block, after the frames that are all right: one too long is an error, so is one that is
   all there and does not open; a length too short for a frame, or one the file does not hold, is an ordinary end.
   */
  lemma EndOfStream(c: Cipher, log: set<Sealed>, sid: Bytes, fs: seq<Frame>, flen: nat, block: Bytes)
    requires Correct(c, log) && AllFit(fs) && Logged(log, Some(sid), 0, fs) && |sid| == STREAM_ID_SIZE
    requires flen < 0x1_0000_0000 && NoFrame(c, Some(sid), |fs|, flen, block)
    ensures DecodeV2(c, sid + Encode(c, Some(sid), 0, fs) + (BigEndian(flen, 4) + block))
         == Decoded(Plains(fs),
              if 12 <= flen <= 1024 * 1024 then if |block| < flen then Clean else Corrupt
              else if flen < 12 then Clean else Oversize)
  {
    hide DecodeFrames, FrameAAD, BigEndian, NoFrame, Correct, AllFit, Logged;
    var last := BigEndian(flen, 4) + block;
    var body := sid + Encode(c, Some(sid), 0, fs) + last;
    assert body[..16] == sid && body[16..] == Encode(c, Some(sid), 0, fs) + last;
    LastBlock(c, Some(sid), |fs|, flen, block);
    DecodeEncode(c, log, Some(sid), 0, fs, last);
    assert Plains(fs) + [] == Plains(fs);
  }

  lemma LastBlock(c: Cipher, sid: Option<Bytes>, n: nat, flen: nat, block: Bytes)
    requires flen < 0x1_0000_0000 && NoFrame(c, sid, n, flen, block)
    ensures DecodeFrames(c, sid, n, BigEndian(flen, 4) + block)
         == Decoded([],
              if 12 <= flen <= 1024 * 1024 then if |block| < flen then Clean else Corrupt
              else if flen < 12 then Clean else Oversize)
  {
    hide BigEndian, FrameAAD;
    var rest := BigEndian(flen, 4) + block;
    Widths();
    BigEndianRoundTrip(flen, 4);
    assert rest[..4] == BigEndian(flen, 4);
    if flen >= 12 && flen <= |block| {
      assert rest[4..16] == block[..12] && rest[16..4 + flen] == block[12..flen];
    }
  }

  // ------------------------------------------------------- position binding

  /** Every seal the reader could accept at one of these positions, or at the next one, is for the slot there. */
  ghost predicate Bound(log: set<Sealed>, sid: Bytes, slots: seq<Bytes>) {
    forall e, i: nat :: e in log && i <= |slots| && e.aad == FrameAAD(Some(sid), i)
      && |e.nonce| == NONCE_SIZE && FrameSize(e.plain) <= MAX_FRAME
      ==> i < |slots| && slots[i] == e.plain
  }

  lemma OpenedIsSlot(c: Cipher, log: set<Sealed>, sid: Bytes, slots: seq<Bytes>, counter: nat, nonce: Bytes, box: Bytes)
    requires Ideal(c, log) && Bound(log, sid, slots) && counter <= |slots|
    requires |nonce| == NONCE_SIZE && NONCE_SIZE + |box| <= MAX_FRAME
    requires c.open(nonce, box, FrameAAD(Some(sid), counter)).Some?
    ensures counter < |slots|
    ensures c.open(nonce, box, FrameAAD(Some(sid), counter)).value == slots[counter]
  {
    var aad := FrameAAD(Some(sid), counter);
    var p := c.open(nonce, box, aad).value;
    assert Opens(c, log, nonce, box, aad, p);
    assert Sealed(nonce, aad, p) in log;
  }

  lemma {:induction false} DecodeBound(
    c: Cipher, log: set<Sealed>, sid: Bytes, slots: seq<Bytes>, counter: nat, rest: Bytes)
    requires Ideal(c, log) && Bound(log, sid, slots) && counter <= |slots|
    ensures DecodeFrames(c, Some(sid), counter, rest).frames <= slots[counter..]
    decreases |rest|
  {
    if DecodeFrames(c, Some(sid), counter, rest).frames != [] {
      var flen := FromBigEndian(rest[..4]);
      var nonce, box, later := rest[4..4 + NONCE_SIZE], rest[4 + NONCE_SIZE..4 + flen], rest[4 + flen..];
      var d := DecodeFrames(c, Some(sid), counter + 1, later);
      var p := c.open(nonce, box, FrameAAD(Some(sid), counter)).value;
      assert DecodeFrames(c, Some(sid), counter, rest).frames == [p] + d.frames;
      hide DecodeFrames;
      OpenedIsSlot(c, log, sid, slots, counter, nonce, box);
      hide Ideal, Bound;
      DecodeBound(c, log, sid, slots, counter + 1, later);
      assert slots[counter..] == [p] + slots[counter + 1..];
    }
  }

  /** One writer's whole life: its stream id, the plaintext it sealed for each position, and all its seals. */
  datatype WriterRun = WriterRun(sid: Bytes, slots: seq<Bytes>, sealed: set<Sealed>)

  /** Each seal of the run is for one of its slots, or is too long to have been emitted. */
  ghost predicate Faithful(w: WriterRun) {
    && |w.sid| == STREAM_ID_SIZE
    && |w.slots| < COUNTER_LIMIT
    && forall e :: e in w.sealed ==> SealedInPlace(w.sid, w.slots, e)
  }

  ghost predicate SealedInPlace(sid: Bytes, slots: seq<Bytes>, e: Sealed) {
    exists i: nat :: i < COUNTER_LIMIT && e.aad == FrameAAD(Some(sid), i)
      && (FrameSize(e.plain) > MAX_FRAME || (i < |slots| && slots[i] == e.plain))
  }

  ghost predicate DistinctStreams(ws: seq<WriterRun>) {
    forall i, j :: 0 <= i < j < |ws| ==> ws[i].sid != ws[j].sid
  }

  /** The log is what these writers sealed, besides legacy V1 frames, which carry no associated data. */
  ghost predicate LogOf(log: set<Sealed>, ws: seq<WriterRun>) {
    forall e :: e in log ==> e.aad == [] || exists k :: 0 <= k < |ws| && e in ws[k].sealed
  }

  /** On any input at all, a V2 reader yields a prefix of what one writer sealed, in order: the writer whose id the input carries. */
  lemma PositionBinding(c: Cipher, log: set<Sealed>, ws: seq<WriterRun>, body: Bytes)
    requires Ideal(c, log) && LogOf(log, ws) && DistinctStreams(ws)
    requires forall w :: w in ws ==> Faithful(w)
    ensures forall w :: w in ws && w.sid <= body ==> DecodeV2(c, body).frames <= w.slots
    ensures (forall w :: w in ws ==> !(w.sid <= body)) ==> DecodeV2(c, body).frames == []
  {
    if |body| >= STREAM_ID_SIZE {
      var sid := body[..STREAM_ID_SIZE];
      if k :| 0 <= k < |ws| && ws[k].sid == sid {
        assert ws[k] in ws;
        BoundByOwner(log, ws, sid, ws[k].slots);
        DecodeBound(c, log, sid, ws[k].slots, 0, body[STREAM_ID_SIZE..]);
        assert ws[k].slots[0..] == ws[k].slots;
        forall w | w in ws && w.sid <= body
          ensures w == ws[k]
        {
          assert w.sid == sid;
        }
      } else {
        BoundByOwner(log, ws, sid, []);
        DecodeBound(c, log, sid, [], 0, body[STREAM_ID_SIZE..]);
      }
    }
  }

  lemma OwnerAt(w: WriterRun, e: Sealed, sid: Bytes, i: nat)
    requires Faithful(w) && e in w.sealed && FrameSize(e.plain) <= MAX_FRAME
    requires |sid| == STREAM_ID_SIZE && i < COUNTER_LIMIT && e.aad == FrameAAD(Some(sid), i)
    ensures w.sid == sid && i < |w.slots| && w.slots[i] == e.plain
  {
    assert SealedInPlace(w.sid, w.slots, e);
    var j: nat :| j < |w.slots| && e.aad == FrameAAD(Some(w.sid), j) && w.slots[j] == e.plain;
    FrameAADInjective(sid, i, w.sid, j);
  }

  lemma BoundByOwner(log: set<Sealed>, ws: seq<WriterRun>, sid: Bytes, slots: seq<Bytes>)
    requires LogOf(log, ws) && |sid| == STREAM_ID_SIZE && |slots| < COUNTER_LIMIT
    requires forall w :: w in ws ==> Faithful(w)
    requires forall w :: w in ws && w.sid == sid ==> w.slots == slots
    ensures Bound(log, sid, slots)
  {
    hide FrameAAD, Faithful;
    forall e, i: nat | e in log && i <= |slots| && e.aad == FrameAAD(Some(sid), i)
      && |e.nonce| == NONCE_SIZE && FrameSize(e.plain) <= MAX_FRAME
      ensures i < |slots| && slots[i] == e.plain
    {
      var k :| 0 <= k < |ws| && e in ws[k].sealed;
      OwnerAt(ws[k], e, sid, i);
      assert ws[k] in ws;
    }
  }

  /**
   Exactly when position binding holds for the stream of `fs`: no other plaintext was ever sealed for
   one of its positions or the next one. Retrying a Write after a failed one is how that can break.
   */
  lemma BindingExact(c: Cipher, log: set<Sealed>, sid: Bytes, fs: seq<Frame>)
    requires Ideal(c, log) && AllFit(fs) && Logged(log, Some(sid), 0, fs)
    requires |sid| == STREAM_ID_SIZE
    ensures (forall body :: sid <= body ==> DecodeV2(c, body).frames <= Plains(fs)) <==> Bound(log, sid, Plains(fs))
  {
    if forall body :: sid <= body ==> DecodeV2(c, body).frames <= Plains(fs) {
      forall e, i: nat | e in log && i <= |fs| && e.aad == FrameAAD(Some(sid), i)
        && |e.nonce| == NONCE_SIZE && FrameSize(e.plain) <= MAX_FRAME
        ensures i < |fs| && fs[i].plain == e.plain
      {
        StrayFrameDecodes(c, log, sid, fs, e, i);
      }
    }
    if Bound(log, sid, Plains(fs)) {
      forall body | sid <= body
        ensures DecodeV2(c, body).frames <= Plains(fs)
      {
        hide DecodeFrames;
        assert body[..STREAM_ID_SIZE] == sid;
        DecodeBound(c, log, sid, Plains(fs), 0, body[STREAM_ID_SIZE..]);
        assert Plains(fs)[0..] == Plains(fs);
      }
    }
  }

  /** A stray seal for position i can be put after the first i frames, and then it decodes. */
  lemma StrayFrameDecodes(c: Cipher, log: set<Sealed>, sid: Bytes, fs: seq<Frame>, e: Sealed, i: nat)
    requires Ideal(c, log) && AllFit(fs) && Logged(log, Some(sid), 0, fs)
    requires |sid| == STREAM_ID_SIZE
    requires e in log && i <= |fs| && e.aad == FrameAAD(Some(sid), i)
    requires |e.nonce| == NONCE_SIZE && FrameSize(e.plain) <= MAX_FRAME
    ensures exists body :: sid <= body && |DecodeV2(c, body).frames| == i + 1 && DecodeV2(c, body).frames[i] == e.plain
  {
    hide DecodeFrames;
    var gs := fs[..i] + [Frame(e.nonce, e.plain)];
    assert forall j :: 0 <= j < i ==> gs[j] == fs[j];
    assert e == Sealed(gs[i].nonce, FrameAAD(Some(sid), 0 + i), gs[i].plain);
    IdealIsCorrect(c, log);
    RoundTrip(c, log, sid, gs);
    var body := StreamFile(c, sid, gs)[|MAGIC_V2|..];
    assert sid <= body && DecodeV2(c, body).frames == Plains(gs);
  }
}
