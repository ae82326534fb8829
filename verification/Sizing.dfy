/** Packet sizes across the layers: KCP datagrams, padding and encryption
    (src/pktqueue.c), and the IP packet around them (src/server.c). */
module Sizing {
  import opened Words
  import opened Network
  import opened KcpModel
  import opened KcpWire
  import opened KcpLists
  import opened KcpBytes
  import opened KcpSystem
  import opened KcpProgram

  /** What decides packet sizes; without encryption `tag` and `nonce` are 0. */
  datatype Transport = Transport(kcpMtu: int, ipv6: bool, obfs: bool, tag: nat, nonce: nat)

  /** The configurations that conf_check and queue_new accept. */
  predicate Accepted(t: Transport) {
    300 <= t.kcpMtu <= 1500 && t.tag <= 16 && t.nonce <= 24 && (t.obfs ==> t.tag > 0)
  }

  /** udp_overhead or obfs_overhead */
  function IpOverhead(t: Transport): int {
    (if t.ipv6 then 40 else 20) + (if t.obfs then 20 else 8)
  }

  /** server_mss, which becomes the MTU of KCP. */
  function ServerMss(t: Transport): int { t.kcpMtu - IpOverhead(t) - (t.tag + t.nonce) }

  function MsgOffset(t: Transport): int { if t.obfs then IpOverhead(t) else 0 }

  /** The padding queue_send may draw for a message of `len` bytes. */
  predicate MayPad(t: Transport, len: int, pad: int) {
    0 <= pad <= (if t.tag + t.nonce == 0 then 0 else Min(ServerMss(t) - len, 15))
  }

  /** Length after padding and sealing. */
  function SealedSize(t: Transport, len: int, pad: int): int { len + pad + t.tag + t.nonce }

  /** An accepted configuration leaves room for KCP, and frames need fewer than
      128 segments: the segment size is at least 176. */
  lemma MssIsEnough(t: Transport)
    requires Accepted(t)
    ensures 200 <= ServerMss(t) <= 1472 && ServerMss(t) - OVERHEAD >= 118
  {
  }

  /** Sealing fits the message buffer, and the IP packet stays within kcp.mtu. */
  lemma SealFits(t: Transport, len: int, pad: int)
    requires Accepted(t) && 0 < len <= ServerMss(t) && MayPad(t, len, pad)
    ensures SealedSize(t, len, pad) <= MAX_PACKET_SIZE - MsgOffset(t)
    ensures IpOverhead(t) + SealedSize(t, len, pad) <= t.kcpMtu
    ensures pad < OVERHEAD
  {
  }

  // ---------------------------------------------------------------- every run of the program

  /** Every payload an endpoint holds for sending fits a segment. */
  ghost predicate Held(mss: int, s: Sender) {
    Sized(mss, s.queue) && forall f :: f in s.buf ==> |f.data| <= mss
  }

  /** Every datagram has something in it and at most `mtu` bytes. */
  ghost predicate FitsBytes(mtu: int, out: seq<seq<byte>>) {
    forall b :: b in out ==> 0 < |b| <= mtu
  }

  lemma {:induction false} DropBeforeHolds(m: Arith, buf: seq<InFlight>, una: int)
    ensures forall f :: f in DropBefore(m, buf, una) ==> f in buf
  {
    if buf != [] {
      DropBeforeHolds(m, buf[1..], una);
    }
  }

  lemma {:induction false} DropOneHolds(m: Arith, buf: seq<InFlight>, sn: int)
    ensures forall f :: f in DropOne(m, buf, sn) ==> f in buf
  {
    if buf != [] {
      DropOneHolds(m, buf[1..], sn);
    }
  }

  lemma SameLineHolds(mss: int, a: seq<InFlight>, b: seq<InFlight>)
    requires SameLine(a, b) && forall f :: f in a ==> |f.data| <= mss
    ensures forall f :: f in b ==> |f.data| <= mss
  {
    forall f | f in b ensures |f.data| <= mss {
      var i :| 0 <= i < |b| && b[i] == f;
      assert a[i] in a;
    }
  }

  lemma TakeHolds(m: Arith, st: Intake, seg: Segment)
    requires Held(st.e.cfg.mss, st.e.snd)
    ensures var e := TakeSegment(m, st, seg).e; e.cfg == st.e.cfg && Held(e.cfg.mss, e.snd)
  {
    DropBeforeHolds(m, st.e.snd.buf, seg.una);
    DropOneHolds(m, DropBefore(m, st.e.snd.buf, seg.una), seg.sn);
  }

  lemma {:induction false} TakeAllHold(m: Arith, st: Intake, segs: seq<Segment>)
    requires Held(st.e.cfg.mss, st.e.snd)
    ensures var e := TakeSegments(m, st, segs).e; e.cfg == st.e.cfg && Held(e.cfg.mss, e.snd)
    decreases |segs|
  {
    hide Held, TakeSegment;
    if segs != [] {
      TakeHolds(m, st, segs[0]);
      TakeAllHold(m, TakeSegment(m, st, segs[0]), segs[1..]);
    }
  }

  /** Whatever bytes arrive. */
  lemma InputHolds(m: Arith, e: Endpoint, b: seq<byte>)
    requires Held(e.cfg.mss, e.snd)
    ensures var e' := InputBytes(m, e, b).e; e'.cfg == e.cfg && Held(e.cfg.mss, e'.snd)
  {
    hide TakeSegments, Parse, GrowCwnd;
    if |b| >= OVERHEAD {
      var st0 := Intake(e, false, 0, 0);
      var segs := Parse(e.cfg.conv, b).segs;
      TakeAllHold(m, st0, segs);
      var st := TakeSegments(m, st0, segs);
      SkippedSpec(m, st.e.snd.buf, st.maxAck, st.latestTs);
      SameLineHolds(e.cfg.mss, st.e.snd.buf, Skipped(m, st.e.snd.buf, st.maxAck, st.latestTs));
    }
  }

  lemma {:induction false} FillHolds(m: Arith, mss: int, s: Sender, cwnd: int, now: int, rto: int)
    requires Held(mss, s)
    ensures Held(mss, Fill(m, s, cwnd, now, rto))
    decreases |s.queue|
  {
    if Diff(m, s.nxt, Num(m, s.una + cwnd)) < 0 && s.queue != [] {
      var seg := InFlight(s.nxt, now, now, rto, 0, 0, s.queue[0]);
      assert s.queue[0] in s.queue;
      FillHolds(m, mss, Sender(s.una, Num(m, s.nxt + 1), s.queue[1..], s.buf + [seg]), cwnd, now, rto);
    }
  }

  lemma {:induction false} AcksFit(hdr: Segment, acks: seq<Ack>)
    requires hdr.data == []
    ensures forall o :: o in AckSegments(hdr, acks) ==> o.data == []
  {
    if acks != [] {
      AcksFit(hdr, acks[..|acks| - 1]);
    }
  }

  lemma FlushHolds(m: Arith, e: Endpoint)
    requires Held(e.cfg.mss, e.snd)
    ensures var f := Flush(m, e);
            && f.e.cfg == e.cfg && Held(e.cfg.mss, f.e.snd)
            && (forall o :: o in f.out ==> SegmentSize(o) <= e.cfg.mtu)
  {
    hide Fill, TransmitAll, AfterFlush, Header, Probed, Probe;
    if e.pace.updated {
      var hdr, p := Header(e), Probed(e.pace);
      var s := Fill(m, e.snd, Window(e.cfg, p), p.current, p.rto);
      var t := TransmitAll(e.cfg, p.rto, p.current, hdr, s.buf);
      var ctl := ControlSegments(hdr, e.rcv.acks, Probe(e.pace));
      FillHolds(m, e.cfg.mss, e.snd, Window(e.cfg, p), p.current, p.rto);
      TransmitLine(e.cfg, p.rto, p.current, hdr, s.buf);
      TransmitFrom(e.cfg, p.rto, p.current, hdr, s.buf);
      SameLineHolds(e.cfg.mss, s.buf, t.buf);
      HeaderIsBare(e);
      AcksFit(hdr, e.rcv.acks);
      forall o | o in t.out ensures SegmentSize(o) <= e.cfg.mtu {
        var i :| 0 <= i < |s.buf| && s.buf[i].sn == o.sn && s.buf[i].data == o.data;
        assert s.buf[i] in s.buf;
      }
      FlushIs(m, e, hdr, p, s, Num(m, s.nxt - s.una), t, ctl);
    }
  }

  lemma HeaderIsBare(e: Endpoint)
    ensures Header(e).data == []
  {
  }

  lemma DatagramFits(mtu: int, p: seq<Segment>)
    requires p != [] && PacketSize(p) <= mtu
    ensures 0 < |EncodeAll(p)| <= mtu
  {
    EncodedSize(p);
  }

  lemma EmitFits(x: WNode, f: FlushResult)
    requires FitsBytes(x.e.cfg.mtu, x.out) && forall o :: o in f.out ==> SegmentSize(o) <= x.e.cfg.mtu
    ensures FitsBytes(x.e.cfg.mtu, WEmit(x, f).out)
  {
    hide Packets, PacketSize, EncodeAll;
    var ps := Packets(x.e.cfg.mtu, f.out);
    PacketsSpec(x.e.cfg.mtu, f.out);
    forall i | 0 <= i < |ps| ensures 0 < |EncodePackets(ps)[i]| <= x.e.cfg.mtu {
      assert ps[i] in ps;
      DatagramFits(x.e.cfg.mtu, ps[i]);
    }
  }

  ghost predicate WFits(x: WNode) { Held(x.e.cfg.mss, x.e.snd) && FitsBytes(x.e.cfg.mtu, x.out) }

  /** One action of the program adds only datagrams that fit, whatever the other side
      has put on the network. */
  lemma ActFits(x: WNode, peer: WNode, act: Action)
    requires WFits(x)
    ensures var x' := WAct(x, peer, act); x'.e.cfg == x.e.cfg && WFits(x')
  {
    hide Held, FitsBytes, InputBytes, Flush, WEmit, KcpModel.Send, KcpModel.Recv;
    match act
    case SendBytes(_, data) => SendHolds(x.e.cfg.mss, x.e.snd, data);
    case RecvBytes(_, _) =>
    case Deliver(_, k, pad) =>
      if k < |peer.out| {
        InputHolds(Word, x.e, peer.out[k] + pad);
      }
    case FlushNow(_) =>
      FlushHolds(Word, x.e);
      Emitted(x, Flush(Word, x.e));
    case UpdateAt(_, now) =>
      UpdateHolds(x.e, now);
      Emitted(x, Update(Word, x.e, now));
  }

  lemma Emitted(x: WNode, f: FlushResult)
    requires FitsBytes(x.e.cfg.mtu, x.out) && f.e.cfg == x.e.cfg && Held(f.e.cfg.mss, f.e.snd)
    requires forall o :: o in f.out ==> SegmentSize(o) <= x.e.cfg.mtu
    ensures WEmit(x, f).e == f.e && WFits(WEmit(x, f))
  {
    EmitFits(x, f);
  }

  lemma UpdateHolds(e: Endpoint, now: int)
    requires Held(e.cfg.mss, e.snd)
    ensures var f := Update(Word, e, now);
            && f.e.cfg == e.cfg && Held(e.cfg.mss, f.e.snd)
            && (forall o :: o in f.out ==> SegmentSize(o) <= e.cfg.mtu)
  {
    hide Held, Flush;
    var t := TickAt(e.cfg, e.pace, now);
    FlushHolds(Word, e.(pace := e.pace.(current := now, updated := true, tsFlush := t.tsFlush)));
  }

  lemma SendHolds(mss: int, s: Sender, data: seq<byte>)
    requires mss > 0 && Held(mss, s)
    ensures Held(mss, s.(queue := KcpModel.Send(mss, s.queue, data).queue))
  {
    SendSpec(mss, s.queue, data);
  }

  lemma {:induction false} RunFits(s: WSystem, acts: seq<Action>)
    requires WFits(s.left) && WFits(s.right)
    ensures var s' := WRun(s, acts);
            && s'.left.e.cfg == s.left.e.cfg && s'.right.e.cfg == s.right.e.cfg && WFits(s'.left) && WFits(s'.right)
    decreases |acts|
  {
    hide WFits, WAct;
    if acts != [] {
      if acts[0].who.Left? {
        ActFits(s.left, s.right, acts[0]);
      } else {
        ActFits(s.right, s.left, acts[0]);
      }
      RunFits(WStep(s, acts[0]), acts[1..]);
    }
  }

  /** In every run of the program, on any network, every datagram either side ever
      sends, with any padding that may be drawn for it, fits its buffer and an IP
      packet of kcp.mtu bytes. */
  lemma EveryPacketFits(t: Transport, left: Config, right: Config, acts: seq<Action>, b: seq<byte>, pad: int)
    requires Accepted(t) && left.mtu == right.mtu == ServerMss(t)
    requires var s := WRun(WInitial(left, right), acts); b in s.left.out || b in s.right.out
    requires MayPad(t, |b|, pad)
    ensures 0 < |b| <= ServerMss(t)
    ensures SealedSize(t, |b|, pad) <= MAX_PACKET_SIZE - MsgOffset(t)
    ensures IpOverhead(t) + SealedSize(t, |b|, pad) <= t.kcpMtu
  {
    hide WRun;
    RunFits(WInitial(left, right), acts);
    SealFits(t, |b|, pad);
  }
}
