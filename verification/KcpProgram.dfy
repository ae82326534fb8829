/** The program as it runs: 32-bit sequence numbers, datagrams as padded byte
    strings, any list of actions. Its runs are the truncated runs of the
    unbounded system as long as no datagram is delivered more than 2^31 numbers
    late, so everything proved of the unbounded system holds of the program. */
module KcpProgram {
  import opened Words
  import opened KcpModel
  import opened KcpWire
  import opened KcpLists
  import opened KcpBytes
  import opened KcpWrap
  import opened KcpSystem

  datatype WNode = WNode(e: Endpoint, out: seq<seq<byte>>, accepted: seq<byte>, delivered: seq<byte>)

  datatype WSystem = WSystem(left: WNode, right: WNode)

  function WStart(cfg: Config): WNode { WNode(Create(cfg), [], [], []) }

  function WInitial(left: Config, right: Config): WSystem { WSystem(WStart(left), WStart(right)) }

  function WEmit(x: WNode, f: FlushResult): WNode {
    x.(e := f.e, out := x.out + EncodePackets(Packets(x.e.cfg.mtu, f.out)))
  }

  function WAct(x: WNode, peer: WNode, act: Action): WNode {
    match act
    case SendBytes(_, data) =>
      var r := Send(x.e.cfg.mss, x.e.snd.queue, data);
      x.(e := x.e.(snd := x.e.snd.(queue := r.queue)), accepted := x.accepted + data[..Max(r.ret, 0)])
    case RecvBytes(_, cap) =>
      var r := Recv(Word, x.e.cfg.rcvWnd, x.e.rcv, cap);
      x.(e := x.e.(rcv := r.rcv, pace := x.e.pace.(tell := x.e.pace.tell || r.tell)),
         delivered := x.delivered + r.data)
    case UpdateAt(_, now) => WEmit(x, Update(Word, x.e, now))
    case FlushNow(_) => WEmit(x, Flush(Word, x.e))
    case Deliver(_, k, pad) =>
      if k < |peer.out| then x.(e := InputBytes(Word, x.e, peer.out[k] + pad).e) else x
  }

  function WStep(s: WSystem, act: Action): WSystem {
    if act.who.Left? then s.(left := WAct(s.left, s.right, act)) else s.(right := WAct(s.right, s.left, act))
  }

  function WRun(s: WSystem, acts: seq<Action>): WSystem
    decreases |acts|
  {
    if acts == [] then s else WRun(WStep(s, acts[0]), acts[1..])
  }

  // ---------------------------------------------------------------- freshness

  /** The numbers in a segment are at most 2^31 behind the receiving endpoint. */
  ghost predicate Recent(e: Endpoint, s: Segment) {
    && e.snd.nxt - s.una <= H32
    && (s.cmd == CMD_ACK ==> e.snd.nxt - s.sn <= H32)
    && (s.cmd == CMD_PUSH ==> e.rcv.nxt + e.cfg.rcvWnd - s.sn <= H32)
  }

  ghost predicate RecentAll(st: Intake, segs: seq<Segment>)
    decreases |segs|
  {
    segs == [] || (Recent(st.e, segs[0]) && RecentAll(TakeSegment(Ideal, st, segs[0]), segs[1..]))
  }

  ghost predicate RecentAct(x: Node, peer: Node, act: Action) {
    act.Deliver? && act.k < |peer.out| ==> RecentAll(Intake(x.e, false, 0, 0), peer.out[act.k])
  }

  /** No delivery of the run is more than 2^31 numbers late. */
  ghost predicate RecentRun(s: System, acts: seq<Action>)
    decreases |acts|
  {
    acts == [] ||
    ((if acts[0].who.Left? then RecentAct(s.left, s.right, acts[0]) else RecentAct(s.right, s.left, acts[0]))
     && RecentRun(Step(s, acts[0]), acts[1..]))
  }

  // ---------------------------------------------------------------- wire form

  ghost predicate OnWire(conv: int, s: Segment) {
    Sendable(conv, s) && s.frg == 0 && 0 <= s.wnd < W16 && 0 <= s.ts < W32
  }

  ghost predicate PacketOnWire(conv: int, p: seq<Segment>) {
    p != [] && forall s :: s in p ==> OnWire(conv, s)
  }

  ghost predicate EndpointOnWire(e: Endpoint) {
    && 0 <= e.pace.current < W32 && e.pace.rmtWnd >= 0 && e.pace.cwnd >= 0
    && forall a :: a in e.rcv.acks ==> 0 <= a.ts < W32
  }

  ghost predicate WireOk(x: Node) {
    EndpointOnWire(x.e) && forall p :: p in x.out ==> PacketOnWire(x.e.cfg.conv, p)
  }

  lemma PutTruncated(x: int)
    ensures Put32(U32(x)) == Put32(x)
  {
    var q := x / W32;
    assert x == U32(x) + W32 * q;
    assert x / 256 == U32(x) / 256 + 0x100_0000 * q;
    assert x / 256 / 256 == U32(x) / 256 / 256 + 0x1_0000 * q;
    assert x / 256 / 256 / 256 == U32(x) / 256 / 256 / 256 + 256 * q;
  }

  lemma EncodeWrapped(s: Segment)
    ensures Encode(WrapSegment(s)) == Encode(s)
  {
    PutTruncated(s.sn);
    PutTruncated(s.una);
  }

  lemma EncodeAllWrapped(segs: seq<Segment>)
    ensures EncodeAll(WrapSegments(segs)) == EncodeAll(segs)
  {
    forall i | 0 <= i < |segs| ensures EncodeEach(WrapSegments(segs))[i] == EncodeEach(segs)[i] {
      EncodeWrapped(segs[i]);
    }
    assert EncodeEach(WrapSegments(segs)) == EncodeEach(segs);
  }

  lemma TruncateIsWrap(conv: int, p: seq<Segment>)
    requires PacketOnWire(conv, p)
    ensures TruncateAll(p) == WrapSegments(p)
  {
    forall i | 0 <= i < |p| ensures TruncateAll(p)[i] == WrapSegments(p)[i] {
      assert p[i] in p;
    }
  }

  // ---------------------------------------------------------------- datagrams

  function WrapPackets(ps: seq<seq<Segment>>): (r: seq<seq<Segment>>)
    ensures |r| == |ps|
    ensures forall i :: 0 <= i < |ps| ==> r[i] == WrapSegments(ps[i])
  {
    seq(|ps|, i requires 0 <= i < |ps| => WrapSegments(ps[i]))
  }

  lemma {:induction false} PacketSizeWraps(segs: seq<Segment>)
    ensures PacketSize(WrapSegments(segs)) == PacketSize(segs)
  {
    if segs != [] {
      var n := |segs| - 1;
      assert WrapSegments(segs)[..n] == WrapSegments(segs[..n]);
      PacketSizeWraps(segs[..n]);
    }
  }

  lemma AddWrapped(mtu: int, pk: Packing, s: Segment)
    ensures var q := AddSegment(mtu, pk, s);
            AddSegment(mtu, Packing(WrapPackets(pk.done), WrapSegments(pk.cur)), WrapSegment(s)) ==
            Packing(WrapPackets(q.done), WrapSegments(q.cur))
  {
    PacketSizeWraps(pk.cur);
    assert WrapSegments(pk.cur + [s]) == WrapSegments(pk.cur) + [WrapSegment(s)];
    assert WrapSegments([s]) == [WrapSegment(s)];
    CloseWraps(pk);
  }

  lemma CloseWraps(pk: Packing)
    ensures Close(Packing(WrapPackets(pk.done), WrapSegments(pk.cur))) == WrapPackets(Close(pk))
  {
    assert WrapPackets(pk.done + [pk.cur]) == WrapPackets(pk.done) + [WrapSegments(pk.cur)];
  }

  lemma {:induction false} PackWraps(mtu: int, segs: seq<Segment>)
    ensures var pk := Pack(mtu, segs);
            Pack(mtu, WrapSegments(segs)) == Packing(WrapPackets(pk.done), WrapSegments(pk.cur))
  {
    if segs == [] {
      assert WrapSegments(segs) == [];
    } else {
      var n := |segs| - 1;
      assert WrapSegments(segs)[..n] == WrapSegments(segs[..n]);
      PackWraps(mtu, segs[..n]);
      AddWrapped(mtu, Pack(mtu, segs[..n]), segs[n]);
    }
  }

  /** Both systems put the same bytes on the network. */
  lemma EncodedAlike(mtu: int, segs: seq<Segment>)
    ensures EncodePackets(Packets(mtu, WrapSegments(segs))) == EncodePackets(Packets(mtu, segs))
  {
    PackWraps(mtu, segs);
    CloseWraps(Pack(mtu, segs));
    var ps := Packets(mtu, segs);
    forall i | 0 <= i < |ps| ensures EncodeAll(WrapPackets(ps)[i]) == EncodeAll(ps[i]) {
      EncodeAllWrapped(ps[i]);
    }
  }

  // ---------------------------------------------------------------- input

  /** The numbers a segment from an honest peer can carry. */
  ghost predicate Plausible(e: Endpoint, s: Segment) {
    && s.una <= e.snd.nxt
    && (s.cmd == CMD_ACK ==> s.sn < e.snd.nxt)
    && (s.cmd == CMD_PUSH ==> s.sn < e.rcv.nxt + 0x2_0000)
  }

  /** The numbers of endpoint `e` are in range for 32-bit comparison. */
  ghost predicate InRange(e: Endpoint) {
    && e.snd.una <= e.snd.nxt <= e.snd.una + 65536
    && (forall x :: x in e.snd.buf ==> e.snd.una <= x.sn < e.snd.nxt)
    && Windowed(e.cfg.rcvWnd, e.rcv)
  }

  ghost predicate AckInRange(st: Intake) {
    st.acked ==> st.e.snd.nxt - H32 <= st.maxAck < st.e.snd.nxt
  }

  lemma UnaShrinks(s: Sender, una: int)
    requires s.una <= s.nxt && forall x :: x in s.buf ==> s.una <= x.sn < s.nxt
    ensures var t := ParseUna(Ideal, s, una);
            t.nxt == s.nxt && s.una <= t.una <= s.nxt && forall x :: x in t.buf ==> x in s.buf
  {
    var k := DropBeforeSpec(s.buf, una);
  }

  lemma TakeAckWraps(st: Intake, s: Sender, p: Pace, seg: Segment)
    requires InRange(st.e) && AckInRange(st)
    requires s.nxt == st.e.snd.nxt && st.e.snd.una <= s.una <= s.nxt
    requires forall x :: x in s.buf ==> st.e.snd.una <= x.sn < s.nxt
    requires s.nxt - H32 <= seg.sn < s.nxt
    ensures TakeAck(Word, WrapIntake(st), WrapSender(s), p, WrapSegment(seg)) ==
            WrapIntake(TakeAck(Ideal, st, s, p, seg))
  {
    ParseAckWraps(s, seg.sn);
    if st.acked {
      DiffWrap(seg.sn, st.maxAck);
    }
  }

  lemma TakeOneWraps(st: Intake, s: Segment)
    requires InRange(st.e) && AckInRange(st) && Plausible(st.e, s) && Recent(st.e, s)
    ensures TakeSegment(Word, WrapIntake(st), WrapSegment(s)) == WrapIntake(TakeSegment(Ideal, st, s))
  {
    var e := st.e;
    assert AllComparable(s.una, e.snd.buf);
    ParseUnaWraps(e.snd, s.una);
    UnaShrinks(e.snd, s.una);
    if s.cmd == CMD_ACK {
      TakeAckWraps(st, ParseUna(Ideal, e.snd, s.una), e.pace.(rmtWnd := s.wnd), s);
    } else if s.cmd == CMD_PUSH {
      ParsePushWraps(e.cfg.rcvWnd, e.rcv, s);
    }
  }

  /** The ranges hold of any endpoint half-way through a packet. */
  lemma TakingInRange(x: Node, peer: Node, e: Endpoint)
    requires Stream(x, peer) && Taking(x, peer, e)
    ensures InRange(e)
  {
    forall f | f in e.snd.buf ensures e.snd.una <= f.sn < e.snd.nxt {
      var i :| 0 <= i < |e.snd.buf| && e.snd.buf[i] == f;
      assert i == 0 || e.snd.buf[0].sn < e.snd.buf[i].sn;
    }
  }

  /** How far a sender can be ahead of its receiver. */
  lemma LeadBound(x: Node, y: Node)
    requires Stream(x, y)
    ensures x.e.snd.nxt <= y.e.rcv.nxt + y.e.cfg.rcvWnd + x.e.cfg.sndWnd
  {
    var top := y.e.rcv.nxt + y.e.cfg.rcvWnd;
    if top < x.e.snd.nxt {
      assert !Has(y.e.rcv, top);
      var i :| 0 <= i < |x.e.snd.buf| && x.e.snd.buf[i].sn == top;
      assert i == 0 || x.e.snd.buf[0].sn < x.e.snd.buf[i].sn;
    }
  }

  lemma HonestPlausible(x: Node, peer: Node, e: Endpoint, s: Segment)
    requires Stream(x, peer) && Stream(peer, x) && Taking(x, peer, e) && Honest(peer.e.rcv, peer.log, s)
    ensures Plausible(e, s)
  {
    LeadBound(peer, x);
    if s.cmd == CMD_ACK && s.sn >= peer.e.rcv.nxt {
      var i :| 0 <= i < |peer.e.rcv.buf| && peer.e.rcv.buf[i].sn == s.sn;
      assert peer.e.rcv.buf[i] in peer.e.rcv.buf;
    }
  }

  lemma AckRangeKept(st: Intake, s: Segment)
    requires AckInRange(st) && Plausible(st.e, s) && Recent(st.e, s)
    ensures AckInRange(TakeSegment(Ideal, st, s))
  {
  }

  lemma TakeStepWraps(x: Node, peer: Node, st: Intake, s: Segment)
    requires Stream(x, peer) && Stream(peer, x) && Taking(x, peer, st.e) && AckInRange(st)
    requires Honest(peer.e.rcv, peer.log, s) && Recent(st.e, s)
    ensures TakeSegment(Word, WrapIntake(st), WrapSegment(s)) == WrapIntake(TakeSegment(Ideal, st, s))
    ensures AckInRange(TakeSegment(Ideal, st, s))
  {
    TakingInRange(x, peer, st.e);
    HonestPlausible(x, peer, st.e, s);
    TakeOneWraps(st, s);
    AckRangeKept(st, s);
  }

  lemma {:induction false} TakeAllWraps(x: Node, peer: Node, st: Intake, segs: seq<Segment>)
    requires Stream(x, peer) && Stream(peer, x) && Taking(x, peer, st.e)
    requires HonestPacket(peer.e.rcv, peer.log, segs) && AckInRange(st) && RecentAll(st, segs)
    ensures TakeSegments(Word, WrapIntake(st), WrapSegments(segs)) == WrapIntake(TakeSegments(Ideal, st, segs))
    ensures AckInRange(TakeSegments(Ideal, st, segs))
    decreases |segs|
  {
    hide Stream, Taking, Honest, Recent, AckInRange, TakeSegment, WrapIntake;
    if segs != [] {
      var s := segs[0];
      TakeStepWraps(x, peer, st, s);
      TakeOneKeeps(x, peer, st, s);
      TakeAllWraps(x, peer, TakeSegment(Ideal, st, s), segs[1..]);
      TakeSegmentsStep(Word, WrapIntake(st), WrapSegments(segs), WrapSegments(segs[1..]));
    }
  }

  lemma TakeSegmentsStep(m: Arith, st: Intake, segs: seq<Segment>, rest: seq<Segment>)
    requires segs != [] && |rest| == |segs| - 1 && forall i :: 0 <= i < |rest| ==> rest[i] == segs[i + 1]
    ensures TakeSegments(m, st, segs) == TakeSegments(m, TakeSegment(m, st, segs[0]), rest)
  {
    assert segs[1..] == rest;
  }

  lemma FinishWraps(st: Intake, prev: int)
    requires InRange(st.e) && AckInRange(st) && prev <= st.e.snd.nxt <= prev + 65536
    ensures FinishInput(Word, WrapIntake(st), U32(prev)) == WrapEndpoint(FinishInput(Ideal, st, prev))
  {
    var s := st.e.snd;
    if st.acked {
      ParseFastackWraps(s, st.maxAck, st.latestTs);
    }
    DiffWrap(s.una, prev);
  }

  /** Feeding the truncated packet to the truncated endpoint. */
  lemma InputWraps(x: Node, peer: Node, segs: seq<Segment>)
    requires Stream(x, peer) && Stream(peer, x)
    requires HonestPacket(peer.e.rcv, peer.log, segs) && RecentAll(Intake(x.e, false, 0, 0), segs)
    ensures Input(Word, WrapEndpoint(x.e), WrapSegments(segs)) == WrapEndpoint(Input(Ideal, x.e, segs))
  {
    var st0 := Intake(x.e, false, 0, 0);
    assert WrapIntake(st0) == Intake(WrapEndpoint(x.e), false, 0, 0);
    assert Grows(x.e.rcv, x.e.rcv);
    TakeAllWraps(x, peer, st0, segs);
    TakeAllKeeps(x, peer, st0, segs);
    var st := TakeSegments(Ideal, st0, segs);
    TakingInRange(x, peer, st.e);
    FinishWraps(st, x.e.snd.una);
  }

  // ---------------------------------------------------------------- wire form is kept

  lemma TakeOneOnWire(m: Arith, st: Intake, s: Segment)
    requires EndpointOnWire(st.e) && 0 <= s.ts < W32 && 0 <= s.wnd
    ensures var st' := TakeSegment(m, st, s); EndpointOnWire(st'.e) && st'.e.cfg == st.e.cfg
  {
    if s.cmd == CMD_PUSH {
      PushAcks(m, st.e.cfg.rcvWnd, st.e.rcv, s);
    }
  }

  lemma {:induction false} DrainKeepsAcks(m: Arith, wnd: int, r: Receiver)
    ensures Drain(m, wnd, r).acks == r.acks
    decreases |r.buf|
  {
    if r.buf != [] && Same(m, r.buf[0].sn, r.nxt) && |r.queue| < wnd {
      DrainKeepsAcks(m, wnd, r.(nxt := Num(m, r.nxt + 1), queue := r.queue + [r.buf[0]], buf := r.buf[1..]));
    }
  }

  lemma PushAcks(m: Arith, wnd: int, r: Receiver, s: Segment)
    ensures var d := ParsePush(m, wnd, r, s); d.acks == r.acks || d.acks == r.acks + [Ack(s.sn, s.ts)]
  {
    var r1 := r.(acks := r.acks + [Ack(s.sn, s.ts)]);
    DrainKeepsAcks(m, wnd, r1.(buf := Insert(m, r.buf, Received(s.sn, s.frg, s.data))));
  }

  lemma {:induction false} TakeAllOnWire(m: Arith, st: Intake, segs: seq<Segment>)
    requires EndpointOnWire(st.e) && forall s :: s in segs ==> 0 <= s.ts < W32 && 0 <= s.wnd
    ensures var st' := TakeSegments(m, st, segs); EndpointOnWire(st'.e) && st'.e.cfg == st.e.cfg
    decreases |segs|
  {
    if segs != [] {
      TakeOneOnWire(m, st, segs[0]);
      TakeAllOnWire(m, TakeSegment(m, st, segs[0]), segs[1..]);
    }
  }

  lemma InputOnWire(m: Arith, e: Endpoint, segs: seq<Segment>)
    requires EndpointOnWire(e) && forall s :: s in segs ==> 0 <= s.ts < W32 && 0 <= s.wnd
    ensures EndpointOnWire(Input(m, e, segs)) && Input(m, e, segs).cfg == e.cfg
  {
    var st0 := Intake(e, false, 0, 0);
    TakeAllOnWire(m, st0, segs);
    var st := TakeSegments(m, st0, segs);
  }

  lemma {:induction false} AcksOnWire(conv: int, hdr: Segment, acks: seq<Ack>)
    requires OnWire(conv, hdr) && forall a :: a in acks ==> 0 <= a.ts < W32
    ensures forall s :: s in AckSegments(hdr, acks) ==> OnWire(conv, s)
  {
    if acks != [] {
      AcksOnWire(conv, hdr, acks[..|acks| - 1]);
    }
  }

  lemma ControlOnWire(conv: int, hdr: Segment, acks: seq<Ack>, p: Pace)
    requires OnWire(conv, hdr) && forall a :: a in acks ==> 0 <= a.ts < W32
    ensures forall s :: s in ControlSegments(hdr, acks, p) ==> OnWire(conv, s)
  {
    AcksOnWire(conv, hdr, acks);
    assert OnWire(conv, ProbeHeader(hdr, acks));
  }

  lemma DataOnWire(cfg: Config, hdr: Segment, now: int, buf: seq<InFlight>, out: seq<Segment>)
    requires OnWire(cfg.conv, hdr) && 0 <= now < W32
    requires forall o :: o in out ==> FromFlight(hdr, now, buf, o) && SegmentSize(o) <= cfg.mtu
    ensures forall o :: o in out ==> OnWire(cfg.conv, o)
  {
  }

  lemma PassOnWire(e: Endpoint, log: seq<seq<byte>>, r: Receiver, hdr: Segment, p: Pace)
    requires SenderOk(e.snd, log) && NothingLost(e.snd, r)
    requires Sized(e.cfg.mss, log) && Sized(e.cfg.mss, e.snd.queue)
    requires OnWire(e.cfg.conv, hdr) && hdr.una == e.rcv.nxt && 0 <= e.rcv.nxt && 0 <= p.current < W32
    ensures var s := Fill(Ideal, e.snd, Window(e.cfg, p), p.current, p.rto);
            var t := TransmitAll(e.cfg, p.rto, p.current, hdr, s.buf);
            forall o :: o in t.out ==> OnWire(e.cfg.conv, o)
  {
    var s := Fill(Ideal, e.snd, Window(e.cfg, p), p.current, p.rto);
    var t := TransmitAll(e.cfg, p.rto, p.current, hdr, s.buf);
    TransmitFrom(e.cfg, p.rto, p.current, hdr, s.buf);
    var k := PassKeeps(e.cfg, e.snd, log, e.rcv, r, hdr, Window(e.cfg, p), p.current, p.rto);
    DataOnWire(e.cfg, hdr, p.current, s.buf, t.out);
  }

  lemma FlushOnWire(e: Endpoint, log: seq<seq<byte>>, r: Receiver)
    requires EndpointOnWire(e)
    requires SenderOk(e.snd, log) && NothingLost(e.snd, r)
    requires Sized(e.cfg.mss, log) && Sized(e.cfg.mss, e.snd.queue)
    requires 0 <= e.rcv.nxt
    ensures EndpointOnWire(Flush(Ideal, e).e)
    ensures forall s :: s in Flush(Ideal, e).out ==> OnWire(e.cfg.conv, s)
  {
    if e.pace.updated {
      var hdr, p := Header(e), Probed(e.pace);
      ControlOnWire(e.cfg.conv, hdr, e.rcv.acks, Probe(e.pace));
      PassOnWire(e, log, r, hdr, p);
      var s := Fill(Ideal, e.snd, Window(e.cfg, p), p.current, p.rto);
      var t := TransmitAll(e.cfg, p.rto, p.current, hdr, s.buf);
      var ctl := ControlSegments(hdr, e.rcv.acks, Probe(e.pace));
      AssembleOnWire(e, p, s, s.nxt - s.una, t, ctl);
      FlushIs(Ideal, e, hdr, p, s, s.nxt - s.una, t, ctl);
    }
  }

  lemma AssembleOnWire(e: Endpoint, p: Pace, s: Sender, inflight: int, t: Pass, ctl: seq<Segment>)
    requires p.cwnd >= 0 && p.rmtWnd >= 0 && 0 <= p.current < W32
    requires forall o :: o in ctl || o in t.out ==> OnWire(e.cfg.conv, o)
    ensures var f := Assemble(e, p, s, inflight, t, ctl);
            EndpointOnWire(f.e) && forall o :: o in f.out ==> OnWire(e.cfg.conv, o)
  {
  }

  lemma EmitOnWire(x: Node, peer: Node, e: Endpoint)
    requires Stream(x, peer) && Stream(peer, x) && WireOk(x)
    requires e == x.e.(pace := e.pace) && EndpointOnWire(e)
    ensures WireOk(Emit(x, Flush(Ideal, e)))
  {
    var f := Flush(Ideal, e);
    FlushOnWire(e, x.log, peer.e.rcv);
    FlushReceiver(Ideal, e);
    var k, log' := FlushKeeps(e, x.log, peer.e.rcv);
    PacketsOnWire(x.e.cfg.conv, x.e.cfg.mtu, f.out);
  }

  lemma PacketsOnWire(conv: int, mtu: int, segs: seq<Segment>)
    requires forall s :: s in segs ==> OnWire(conv, s) && SegmentSize(s) <= mtu
    ensures forall p :: p in Packets(mtu, segs) ==> PacketOnWire(conv, p)
  {
    PacketsSpec(mtu, segs);
    var ps := Packets(mtu, segs);
    forall p | p in ps ensures PacketOnWire(conv, p) {
      forall s | s in p ensures OnWire(conv, s) {
        JoinMember(ps, s);
      }
    }
  }

  // ---------------------------------------------------------------- simulation

  /** Node `w` of the program is node `x` with its numbers cut to 32 bits. */
  ghost predicate Sim(x: Node, w: WNode) {
    && w.e == WrapEndpoint(x.e) && w.out == EncodePackets(x.out)
    && w.accepted == x.accepted && w.delivered == x.delivered
  }

  lemma EmitPair(x: Node, w: WNode, f: FlushResult, wf: FlushResult)
    requires Sim(x, w) && wf.e == WrapEndpoint(f.e) && wf.out == WrapSegments(f.out)
    ensures Sim(Emit(x, f), WEmit(w, wf))
  {
    EncodedAlike(x.e.cfg.mtu, f.out);
    var ps := Packets(x.e.cfg.mtu, f.out);
    assert EncodePackets(x.out + ps) == EncodePackets(x.out) + EncodePackets(ps);
  }

  lemma EmitSim(x: Node, w: WNode, e: Endpoint, we: Endpoint)
    requires Sim(x, w) && we == WrapEndpoint(e) && e == x.e.(pace := e.pace)
    requires x.e.snd.una <= x.e.snd.nxt <= x.e.snd.una + 65536 && EndpointOnWire(e)
    ensures Sim(Emit(x, Flush(Ideal, e)), WEmit(w, Flush(Word, we)))
  {
    FlushWraps(e);
    EmitPair(x, w, Flush(Ideal, e), Flush(Word, we));
  }

  lemma UpdateSim(x: Node, w: WNode, now: Time)
    requires Sim(x, w) && EndpointOnWire(x.e)
    requires x.e.snd.una <= x.e.snd.nxt <= x.e.snd.una + 65536
    ensures Sim(Emit(x, Update(Ideal, x.e, now)), WEmit(w, Update(Word, w.e, now)))
  {
    var t := TickAt(x.e.cfg, x.e.pace, now);
    var p := x.e.pace.(current := now, updated := true, tsFlush := t.tsFlush);
    var e, we := x.e.(pace := p), w.e.(pace := p);
    if t.flush {
      EmitSim(x, w, e, we);
    } else {
      EmitNothing(x, e);
      assert Packets(w.e.cfg.mtu, []) == [];
      assert w.out + EncodePackets([]) == w.out;
    }
  }

  lemma DeliverSim(x: Node, peer: Node, w: WNode, wpeer: WNode, act: Action)
    requires Stream(x, peer) && Stream(peer, x) && WireOk(peer) && x.e.cfg.conv == peer.e.cfg.conv
    requires Sim(x, w) && Sim(peer, wpeer) && act.Deliver? && RecentAct(x, peer, act)
    ensures Sim(Act(x, peer, act), WAct(w, wpeer, act))
  {
    hide Stream, HonestPacket, RecentAll, Input, InputBytes, EncodeAll;
    if act.k < |peer.out| {
      var p := peer.out[act.k];
      assert p in peer.out && wpeer.out[act.k] == EncodeAll(p);
      SentHonest(x, peer, act.k);
      InputPadded(Word, w.e, p, act.pad);
      TruncateIsWrap(x.e.cfg.conv, p);
      InputWraps(x, peer, p);
    }
  }

  lemma ActSim(x: Node, peer: Node, w: WNode, wpeer: WNode, act: Action)
    requires Stream(x, peer) && Stream(peer, x) && WireOk(x) && WireOk(peer) && x.e.cfg.conv == peer.e.cfg.conv
    requires Sim(x, w) && Sim(peer, wpeer) && RecentAct(x, peer, act)
    ensures Sim(Act(x, peer, act), WAct(w, wpeer, act))
  {
    assert x.e.snd.una <= x.e.snd.nxt <= x.e.snd.una + 65536;
    match act
    case SendBytes(_, data) =>
    case RecvBytes(_, cap) => RecvWraps(x.e.cfg.rcvWnd, x.e.rcv, cap);
    case UpdateAt(_, now) => UpdateSim(x, w, now);
    case FlushNow(_) => EmitSim(x, w, x.e, w.e);
    case Deliver(_, k, _) => DeliverSim(x, peer, w, wpeer, act);
  }

  lemma RecvKeepsAcks(m: Arith, wnd: int, r: Receiver, cap: int)
    ensures Recv(m, wnd, r, cap).rcv.acks == r.acks
  {
    DrainKeepsAcks(m, wnd, r.(queue := r.queue[MessageSpan(r.queue)..]));
  }

  lemma UpdateOnWire(x: Node, peer: Node, now: Time)
    requires Stream(x, peer) && Stream(peer, x) && WireOk(x)
    ensures var x' := Emit(x, Update(Ideal, x.e, now)); WireOk(x') && x'.e.cfg == x.e.cfg
  {
    var t := TickAt(x.e.cfg, x.e.pace, now);
    var e := x.e.(pace := x.e.pace.(current := now, updated := true, tsFlush := t.tsFlush));
    if t.flush {
      EmitOnWire(x, peer, e);
      FlushReceiver(Ideal, e);
    } else {
      EmitNothing(x, e);
    }
  }

  lemma ActOnWire(x: Node, peer: Node, act: Action)
    requires Stream(x, peer) && Stream(peer, x) && WireOk(x) && WireOk(peer) && x.e.cfg.conv == peer.e.cfg.conv
    ensures var x' := Act(x, peer, act); WireOk(x') && x'.e.cfg == x.e.cfg
  {
    match act
    case SendBytes(_, data) =>
    case RecvBytes(_, cap) =>
      RecvKeepsAcks(Ideal, x.e.cfg.rcvWnd, x.e.rcv, cap);
    case UpdateAt(_, now) =>
      UpdateOnWire(x, peer, now);
    case FlushNow(_) =>
      EmitOnWire(x, peer, x.e);
      FlushReceiver(Ideal, x.e);
    case Deliver(_, k, _) =>
      DeliverOnWire(x, peer, k);
  }

  lemma DeliverOnWire(x: Node, peer: Node, k: nat)
    requires WireOk(x) && WireOk(peer)
    ensures k < |peer.out| ==>
              var e := Input(Ideal, x.e, peer.out[k]); EndpointOnWire(e) && e.cfg == x.e.cfg
  {
    if k < |peer.out| {
      assert peer.out[k] in peer.out;
      forall s | s in peer.out[k] ensures 0 <= s.ts < W32 && 0 <= s.wnd {
        assert OnWire(peer.e.cfg.conv, s);
      }
      InputOnWire(Ideal, x.e, peer.out[k]);
    }
  }

  // ---------------------------------------------------------------- every run of the program

  ghost predicate Coupled(s: System, w: WSystem) {
    && Inv(s) && WireOk(s.left) && WireOk(s.right) && s.left.e.cfg.conv == s.right.e.cfg.conv
    && Sim(s.left, w.left) && Sim(s.right, w.right)
  }

  lemma StepCoupled(s: System, w: WSystem, act: Action)
    requires Coupled(s, w)
    requires if act.who.Left? then RecentAct(s.left, s.right, act) else RecentAct(s.right, s.left, act)
    ensures Coupled(Step(s, act), WStep(w, act))
  {
    if act.who.Left? {
      ActKeeps(s.left, s.right, act);
      ActOnWire(s.left, s.right, act);
      ActSim(s.left, s.right, w.left, w.right, act);
    } else {
      ActKeeps(s.right, s.left, act);
      ActOnWire(s.right, s.left, act);
      ActSim(s.right, s.left, w.right, w.left, act);
    }
  }

  lemma {:induction false} RunCoupled(s: System, w: WSystem, acts: seq<Action>)
    requires Coupled(s, w) && RecentRun(s, acts)
    ensures Coupled(Run(s, acts), WRun(w, acts))
    decreases |acts|
  {
    if acts != [] {
      StepCoupled(s, w, acts[0]);
      RunCoupled(Step(s, acts[0]), WStep(w, acts[0]), acts[1..]);
    }
  }

  lemma StartCoupled(left: Config, right: Config)
    requires left.conv == right.conv
    ensures Coupled(Initial(left, right), WInitial(left, right))
  {
    InitialOk(left, right);
  }

  /** Over every run of the program in which no datagram is delivered more than
      2^31 numbers late, the bytes handed to each user are an initial part of
      the bytes accepted from the other: across loss, duplication, reordering,
      delay, padding and any number of wrap-arounds. */
  lemma ProgramIsReliable(left: Config, right: Config, acts: seq<Action>)
    requires left.conv == right.conv && RecentRun(Initial(left, right), acts)
    ensures var w := WRun(WInitial(left, right), acts);
            && w.right.delivered <= w.left.accepted
            && w.left.delivered <= w.right.accepted
  {
    StartCoupled(left, right);
    RunCoupled(Initial(left, right), WInitial(left, right), acts);
    ReliableStream(left, right, acts);
  }

  // ---------------------------------------------------------------- when freshness is certain

  /** Bytes that a run offers to one side's ikcp_send. */
  function Offered(acts: seq<Action>, who: Side): nat {
    if acts == [] then 0
    else Offered(acts[1..], who) + (if acts[0].SendBytes? && acts[0].who == who then |acts[0].data| else 0)
  }

  lemma {:induction false} FlatLength(mss: int, log: seq<seq<byte>>)
    requires Sized(mss, log)
    ensures |log| <= |Flat(log)|
  {
    if log != [] {
      assert log[0] in log;
      FlatLength(mss, log[1..]);
    }
  }

  /** No number exceeds the count of accepted bytes. */
  lemma NumbersBounded(x: Node, y: Node)
    requires Stream(x, y)
    ensures y.e.rcv.nxt <= x.e.snd.nxt <= |x.accepted|
  {
    FlatLength(x.e.cfg.mss, x.log);
  }

  lemma AcceptedGrows(x: Node, peer: Node, act: Action)
    requires Stream(x, peer)
    ensures |Act(x, peer, act).accepted| <= |x.accepted| + (if act.SendBytes? then |act.data| else 0)
  {
    if act.SendBytes? {
      SendSpec(x.e.cfg.mss, x.e.snd.queue, act.data);
    }
  }

  const HORIZON := H32 - 65536

  lemma {:induction false} AllRecent(x: Node, peer: Node, st: Intake, segs: seq<Segment>)
    requires Stream(x, peer) && Stream(peer, x) && Taking(x, peer, st.e)
    requires HonestPacket(peer.e.rcv, peer.log, segs)
    requires |x.log| <= HORIZON && |peer.log| <= HORIZON
    ensures RecentAll(st, segs)
    decreases |segs|
  {
    if segs != [] {
      TakeOneKeeps(x, peer, st, segs[0]);
      AllRecent(x, peer, TakeSegment(Ideal, st, segs[0]), segs[1..]);
    }
  }

  lemma ActRecent(x: Node, peer: Node, act: Action)
    requires Stream(x, peer) && Stream(peer, x)
    requires |x.accepted| <= HORIZON && |peer.accepted| <= HORIZON
    ensures RecentAct(x, peer, act)
  {
    NumbersBounded(x, peer);
    NumbersBounded(peer, x);
    if act.Deliver? && act.k < |peer.out| {
      assert peer.out[act.k] in peer.out;
      assert Grows(x.e.rcv, x.e.rcv);
      AllRecent(x, peer, Intake(x.e, false, 0, 0), peer.out[act.k]);
    }
  }

  lemma {:induction false} RunRecent(s: System, acts: seq<Action>)
    requires Inv(s)
    requires |s.left.accepted| + Offered(acts, Left) <= HORIZON
    requires |s.right.accepted| + Offered(acts, Right) <= HORIZON
    ensures RecentRun(s, acts)
    decreases |acts|
  {
    hide Stream, Act, RecentAct;
    if acts != [] {
      var act := acts[0];
      if act.who.Left? {
        ActRecent(s.left, s.right, act);
        AcceptedGrows(s.left, s.right, act);
        ActKeeps(s.left, s.right, act);
      } else {
        ActRecent(s.right, s.left, act);
        AcceptedGrows(s.right, s.left, act);
        ActKeeps(s.right, s.left, act);
      }
      RunRecent(Step(s, act), acts[1..]);
    }
  }

  /** The program is reliable over every run, however late datagrams are, while
      at most 2^31 - 65536 bytes are offered on each side. */
  lemma ProgramIsReliableFor2GB(left: Config, right: Config, acts: seq<Action>)
    requires left.conv == right.conv
    requires Offered(acts, Left) <= HORIZON && Offered(acts, Right) <= HORIZON
    ensures var w := WRun(WInitial(left, right), acts);
            && w.right.delivered <= w.left.accepted
            && w.left.delivered <= w.right.accepted
  {
    InitialOk(left, right);
    RunRecent(Initial(left, right), acts);
    ProgramIsReliable(left, right, acts);
  }
}
