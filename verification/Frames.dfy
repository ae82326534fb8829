/** The messages of a session (src/session.h, src/event_kcp.c): a 4-byte header
    of type and length, then the payload. */
module Frames {
  import opened Words
  import opened Network
  import opened KcpModel
  import opened KcpBytes

  const HEADER_SIZE := 4
  const BUF_SIZE := 16384
  const MAX_LENGTH := BUF_SIZE - MAX_PACKET_SIZE
  const MSG_DIAL := 0
  const MSG_PUSH := 1
  const MSG_EOF := 2
  const MSG_KEEPALIVE := 3

  datatype Frame = Dial | Push(payload: seq<byte>) | Eof | KeepAlive

  function Kind(f: Frame): int {
    match f
    case Dial => MSG_DIAL
    case Push(_) => MSG_PUSH
    case Eof => MSG_EOF
    case KeepAlive => MSG_KEEPALIVE
  }

  function Body(f: Frame): seq<byte> { if f.Push? then f.payload else [] }

  /** What tcp_recv leaves room for. */
  predicate Honest(f: Frame) {
    f.Push? ==> 0 < |f.payload| <= MAX_LENGTH - HEADER_SIZE
  }

  predicate AllHonest(fs: seq<Frame>) {
    forall f :: f in fs ==> Honest(f)
  }

  // ---------------------------------------------------------------- bytes

  function EncodeFrame(f: Frame): (b: seq<byte>)
    requires Honest(f)
    ensures |b| == HEADER_SIZE + |Body(f)| && |b| <= MAX_LENGTH
  {
    Big16(Kind(f)) + Big16(HEADER_SIZE + |Body(f)|) + Body(f)
  }

  function EncodeFrames(fs: seq<Frame>): seq<byte>
    requires AllHonest(fs)
  {
    if fs == [] then [] else EncodeFrame(fs[0]) + EncodeFrames(fs[1..])
  }

  /** The payloads of the PUSH frames, joined. */
  function Payloads(fs: seq<Frame>): seq<byte> {
    if fs == [] then [] else Body(fs[0]) + Payloads(fs[1..])
  }

  lemma {:induction false} EncodeFramesSnoc(fs: seq<Frame>, f: Frame)
    requires AllHonest(fs) && Honest(f)
    ensures EncodeFrames(fs + [f]) == EncodeFrames(fs) + EncodeFrame(f)
  {
    if fs == [] {
      assert [f][1..] == [] && [] + [f] == [f];
    } else {
      assert (fs + [f])[1..] == fs[1..] + [f];
      EncodeFramesSnoc(fs[1..], f);
      Associate(EncodeFrame(fs[0]), EncodeFrames(fs[1..]), EncodeFrame(f));
    }
  }

  lemma {:induction false} PayloadsAppend(fs: seq<Frame>, gs: seq<Frame>)
    ensures Payloads(fs + gs) == Payloads(fs) + Payloads(gs)
  {
    if fs == [] {
      assert fs + gs == gs;
    } else {
      assert (fs + gs)[1..] == fs[1..] + gs;
      PayloadsAppend(fs[1..], gs);
      Associate(Body(fs[0]), Payloads(fs[1..]), Payloads(gs));
    }
  }

  lemma PayloadsSnoc(fs: seq<Frame>, f: Frame)
    ensures Payloads(fs + [f]) == Payloads(fs) + Body(f)
  {
    PayloadsAppend(fs, [f]);
    assert [f][1..] == [];
  }

  lemma PayloadsPrefix(fs: seq<Frame>, n: nat)
    requires n <= |fs|
    ensures Payloads(fs) == Payloads(fs[..n]) + Payloads(fs[n..])
  {
    SplitAt(fs, n);
    PayloadsAppend(fs[..n], fs[n..]);
  }

  // ---------------------------------------------------------------- reading frames back

  lemma HeaderReads(f: Frame, b: seq<byte>)
    requires Honest(f) && HEADER_SIZE <= |b| && b[..HEADER_SIZE] == EncodeFrame(f)[..HEADER_SIZE]
    ensures Read16(b, 0) == Kind(f) && Read16(b, 2) == |EncodeFrame(f)|
  {
    var e := EncodeFrame(f);
    assert b[0] == b[..4][0] == e[0] && b[1] == b[..4][1] == e[1];
    assert b[2] == b[..4][2] == e[2] && b[3] == b[..4][3] == e[3];
  }

  /** A buffer that starts a stream of honest frames names its first frame: the
      header once 4 bytes are there, the whole frame once its length is there. */
  lemma FirstFrame(b: seq<byte>, fs: seq<Frame>)
    requires AllHonest(fs) && b <= EncodeFrames(fs) && HEADER_SIZE <= |b|
    ensures fs != [] && Read16(b, 0) == Kind(fs[0]) && Read16(b, 2) == |EncodeFrame(fs[0])|
    ensures Read16(b, 2) <= |b| ==>
              b[..Read16(b, 2)] == EncodeFrame(fs[0]) && b[Read16(b, 2)..] <= EncodeFrames(fs[1..])
  {
    var e, rest := EncodeFrame(fs[0]), EncodeFrames(fs[1..]);
    assert b[..HEADER_SIZE] == (e + rest)[..HEADER_SIZE] == e[..HEADER_SIZE];
    HeaderReads(fs[0], b);
    if |e| <= |b| {
      assert b[..|e|] == (e + rest)[..|e|] == e;
      assert b[|e|..] <= (e + rest)[|e|..] == rest;
    }
  }

  /** Frames can be told from their bytes: if one honest stream starts another,
      its frames are the first frames of the other. */
  lemma {:induction false} SameFrames(fs: seq<Frame>, gs: seq<Frame>)
    requires AllHonest(fs) && AllHonest(gs) && EncodeFrames(fs) <= EncodeFrames(gs)
    ensures fs <= gs
    decreases |fs|
  {
    if fs != [] {
      var b := EncodeFrames(fs);
      FirstFrame(b, fs);
      FirstFrame(b, gs);
      assert b[|EncodeFrame(fs[0])|..] == EncodeFrames(fs[1..]);
      SameFrame(fs[0], gs[0]);
      SameFrames(fs[1..], gs[1..]);
      assert fs == [fs[0]] + fs[1..] && gs == [gs[0]] + gs[1..];
    }
  }

  lemma SameFrame(f: Frame, g: Frame)
    requires Honest(f) && Honest(g) && EncodeFrame(f) == EncodeFrame(g)
    ensures f == g
  {
    HeaderReads(f, EncodeFrame(f));
    HeaderReads(g, EncodeFrame(f));
    assert EncodeFrame(f)[HEADER_SIZE..] == Body(f) && EncodeFrame(g)[HEADER_SIZE..] == Body(g);
  }

  // ---------------------------------------------------------------- sending frames

  /** ikcp_send takes every frame whole: with the smallest segment size that an
      accepted configuration leaves, a frame needs fewer than 128 segments. */
  lemma FrameTaken(mss: int, queue: seq<seq<byte>>, data: seq<byte>)
    requires mss >= 118 && Sized(mss, queue) && |data| <= MAX_LENGTH
    ensures var r := Send(mss, queue, data);
            r.ret == |data| && Flat(r.queue) == Flat(queue) + data && Sized(mss, r.queue)
  {
    SendSpec(mss, queue, data);
    FewSegments(mss, |data| - Extend(mss, queue, data));
    assert data[..|data|] == data;
  }

  lemma FewSegments(mss: int, len: int)
    requires mss >= 118 && len <= MAX_LENGTH
    ensures SegmentCount(mss, len) < WND_RCV
  {
    if len > mss {
      var q := (len + mss - 1) / mss;
      assert q * mss <= len + mss - 1;
      assert q >= WND_RCV ==> q * mss >= WND_RCV * mss;
    }
  }
}
