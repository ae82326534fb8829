/** The KCP control block as a mutable object. Each operation of
    contrib/kcp/ikcp.c is a method with the loops of the original, proved to
    take the block from one value of the model to the next. */
module KcpEndpoint {
  import opened Words
  import opened Network
  import opened KcpModel
  import opened KcpWire
  import opened KcpBytes
  import KcpClock

  class Kcp {
    const cfg: Config
    var sndUna: int
    var sndNxt: int
    var rcvNxt: int
    var sndQueue: seq<seq<byte>>
    var sndBuf: seq<InFlight>
    var rcvQueue: seq<Received>
    var rcvBuf: seq<Received>
    var acklist: seq<Ack>
    var ackBlock: nat
    var nsndQue: int
    var nsndBuf: int
    var nrcvQue: int
    var nrcvBuf: int
    var pace: Pace

    /** The four counters agree with the lists they count, and the acknowledgements
        fit the block allocated for them. */
    ghost predicate Valid()
      reads this
    {
      && |acklist| <= ackBlock && nsndQue == |sndQueue| && nsndBuf == |sndBuf|
      && nrcvQue == |rcvQueue| && nrcvBuf == |rcvBuf|
    }

    ghost function Model(): Endpoint
      reads this
    {
      Endpoint(cfg, Sender(sndUna, sndNxt, sndQueue, sndBuf), Receiver(rcvNxt, rcvQueue, rcvBuf, acklist), pace)
    }

    constructor (cfg: Config)
      ensures Valid() && Model() == Create(cfg)
      ensures pace.rmtWnd == 128 && pace.cwnd == 0 && pace.ssthresh == 2 && pace.rto == 200 && !pace.updated && !pace.dead
    {
      this.cfg := cfg;
      sndUna, sndNxt, rcvNxt := 0, 0, 0;
      sndQueue, sndBuf, rcvQueue, rcvBuf, acklist := [], [], [], [], [];
      nsndQue, nsndBuf, nrcvQue, nrcvBuf, ackBlock := 0, 0, 0, 0, 0;
      pace := Pace(WND_RCV, 0, 2, 0, false, false, 0, 0, 0, 0, 200, 0, 100, false, 0, false);
    }

    // -------------------------------------------------------------- user side

    /** Appends to the last queued segment while it has room. */
    method ExtendLast(data: seq<byte>) returns (extend: nat)
      requires Valid()
      modifies this`sndQueue
      ensures Valid()
      ensures extend == Extend(cfg.mss, old(sndQueue), data)
      ensures sndQueue == TopUp(cfg.mss, old(sndQueue), data)
    {
      extend := 0;
      if sndQueue != [] {
        var last := sndQueue[|sndQueue| - 1];
        if |last| < cfg.mss {
          var capacity := cfg.mss - |last|;
          extend := if |data| < capacity then |data| else capacity;
          assert extend == 0 ==> last + data[..extend] == last;
          sndQueue := sndQueue[|sndQueue| - 1 := last + data[..extend]];
        }
      }
    }

    /** Cuts `data` into `count` new segments. */
    method Fragment(data: seq<byte>, count: int)
      requires Valid() && data != [] && count == SegmentCount(cfg.mss, |data|)
      modifies this`sndQueue, this`nsndQue
      ensures Valid() && sndQueue == old(sndQueue) + Chunks(cfg.mss, data)
    {
      var rest := data;
      var i := 0;
      while i < count
        invariant 0 <= i <= count && Valid()
        invariant sndQueue + Chunks(cfg.mss, rest) == old(sndQueue) + Chunks(cfg.mss, data)
        invariant if rest == [] then i == count else SegmentCount(cfg.mss, |rest|) == count - i
      {
        var size := if |rest| > cfg.mss then cfg.mss else |rest|;
        ChunkStep(cfg.mss, rest, size, sndQueue);
        sndQueue := sndQueue + [rest[..size]];
        nsndQue := nsndQue + 1;
        rest := rest[size..];
        i := i + 1;
      }
      if rest != [] {
        CountPositive(cfg.mss, |rest|);
      }
      assert sndQueue + [] == sndQueue;
    }

    method Send(data: seq<byte>) returns (ret: int)
      requires Valid()
      modifies this`sndQueue, this`nsndQue
      ensures Valid()
      ensures var r := KcpModel.Send(cfg.mss, old(sndQueue), data);
              ret == r.ret && Model() == old(Model()).(snd := old(Model()).snd.(queue := r.queue))
    {
      ret := ExtendLast(data);
      var rest := data[ret..];
      if rest == [] {
        return;
      }
      var count := if |rest| <= cfg.mss then 1 else (|rest| + cfg.mss - 1) / cfg.mss;
      if count >= WND_RCV {
        if ret == 0 {
          ret := -2;
        }
        return;
      }
      Fragment(rest, count);
      ret := ret + |rest|;
    }

    /** The loop that both ikcp_recv and ikcp_parse_data end with. */
    method MoveReady()
      requires Valid()
      modifies this`rcvBuf, this`nrcvBuf, this`rcvQueue, this`nrcvQue, this`rcvNxt
      ensures Valid()
      ensures Model() == old(Model()).(rcv := Drain(Word, cfg.rcvWnd, old(Model()).rcv))
    {
      while rcvBuf != []
        invariant Valid()
        invariant Drain(Word, cfg.rcvWnd, Model().rcv) == Drain(Word, cfg.rcvWnd, old(Model()).rcv)
        decreases |rcvBuf|
      {
        var seg := rcvBuf[0];
        if seg.sn == rcvNxt && nrcvQue < cfg.rcvWnd {
          rcvBuf := rcvBuf[1..];
          nrcvBuf := nrcvBuf - 1;
          rcvQueue := rcvQueue + [seg];
          nrcvQue := nrcvQue + 1;
          rcvNxt := U32(rcvNxt + 1);
        } else {
          break;
        }
      }
    }

    method PeekSize() returns (size: int)
      requires Valid()
      ensures size == KcpModel.PeekSize(Model().rcv)
    {
      if rcvQueue == [] {
        return -1;
      }
      if rcvQueue[0].frg == 0 {
        return |rcvQueue[0].data|;
      }
      if nrcvQue < rcvQueue[0].frg + 1 {
        return -1;
      }
      size := 0;
      var i := 0;
      while i < |rcvQueue|
        invariant 0 <= i <= |rcvQueue|
        invariant MessageSpan(rcvQueue) == i + MessageSpan(rcvQueue[i..])
        invariant size == |Payload(rcvQueue[..i])|
      {
        PayloadSnoc(rcvQueue, i);
        size := size + |rcvQueue[i].data|;
        i := i + 1;
        assert rcvQueue[i - 1..][1..] == rcvQueue[i..];
        if rcvQueue[i - 1].frg == 0 {
          break;
        }
      }
    }

    /** Takes queued segments up to the first final fragment. */
    method TakeMessage() returns (data: seq<byte>)
      requires Valid()
      modifies this`rcvQueue, this`nrcvQue
      ensures Valid()
      ensures var n := MessageSpan(old(rcvQueue));
              data == Payload(old(rcvQueue)[..n]) && rcvQueue == old(rcvQueue)[n..]
    {
      data := [];
      ghost var q, k := rcvQueue, 0;
      while rcvQueue != []
        invariant Valid() && 0 <= k <= |q| && rcvQueue == q[k..]
        invariant MessageSpan(q) == k + MessageSpan(rcvQueue)
        invariant data == Payload(q[..k])
        decreases |rcvQueue|
      {
        var seg := rcvQueue[0];
        PayloadSnoc(q, k);
        data := data + seg.data;
        rcvQueue := rcvQueue[1..];
        nrcvQue := nrcvQue - 1;
        k := k + 1;
        if seg.frg == 0 {
          break;
        }
      }
    }

    method Recv(cap: int) returns (ret: int, data: seq<byte>)
      requires Valid()
      modifies this`rcvBuf, this`nrcvBuf, this`rcvQueue, this`nrcvQue, this`rcvNxt, this`pace
      ensures Valid()
      ensures var r := KcpModel.Recv(Word, cfg.rcvWnd, old(Model()).rcv, cap);
              && ret == r.ret && data == r.data
              && Model() == old(Model()).(rcv := r.rcv, pace := old(pace).(tell := old(pace).tell || r.tell))
    {
      data := [];
      if rcvQueue == [] {
        return -1, [];
      }
      var size := PeekSize();
      if size < 0 {
        return -2, [];
      }
      if size > cap {
        return -3, [];
      }
      var recover := nrcvQue >= cfg.rcvWnd;
      data := TakeMessage();
      MoveReady();
      if nrcvQue < cfg.rcvWnd && recover {
        pace := pace.(tell := true);
      }
      ret := |data|;
    }

    // -------------------------------------------------------------- network side, in

    method ShrinkBuf()
      modifies this`sndUna
      ensures Model() == old(Model()).(snd := Shrink(old(Model()).snd))
    {
      if sndBuf != [] {
        sndUna := sndBuf[0].sn;
      } else {
        sndUna := sndNxt;
      }
    }

    method ParseUna(una: int)
      requires Valid()
      modifies this`sndBuf, this`nsndBuf
      ensures Valid() && sndBuf == DropBefore(Word, old(sndBuf), una)
    {
      while sndBuf != []
        invariant Valid() && DropBefore(Word, sndBuf, una) == DropBefore(Word, old(sndBuf), una)
        decreases |sndBuf|
      {
        if TimeDiff(una, sndBuf[0].sn) > 0 {
          sndBuf := sndBuf[1..];
          nsndBuf := nsndBuf - 1;
        } else {
          break;
        }
      }
    }

    method ParseAck(sn: int)
      requires Valid()
      modifies this`sndBuf, this`nsndBuf
      ensures Valid()
      ensures sndBuf == if InSendWindow(Word, old(Model()).snd, sn) then DropOne(Word, old(sndBuf), sn)
                        else old(sndBuf)
    {
      hide DropOne, TimeDiff, Walked;
      if TimeDiff(sn, sndUna) < 0 || TimeDiff(sn, sndNxt) >= 0 {
        return;
      }
      var i := 0;
      WalkStarts(sndBuf, sn);
      while i < |sndBuf|
        invariant 0 <= i <= |sndBuf| && Valid() && sndBuf == old(sndBuf)
        invariant Walked(sndBuf, i, sn)
      {
        DropStep(sndBuf, i, sn);
        if sn == sndBuf[i].sn {
          sndBuf := sndBuf[..i] + sndBuf[i + 1..];
          nsndBuf := nsndBuf - 1;
          return;
        }
        if TimeDiff(sn, sndBuf[i].sn) < 0 {
          return;
        }
        i := i + 1;
      }
      WalkEnds(sndBuf, sn);
    }

    method ParseFastack(sn: int, ts: int)
      requires Valid()
      modifies this`sndBuf
      ensures Valid()
      ensures sndBuf == KcpModel.ParseFastack(Word, old(Model()).snd, sn, ts).buf
    {
      if TimeDiff(sn, sndUna) < 0 || TimeDiff(sn, sndNxt) >= 0 {
        return;
      }
      hide Skipped;
      var i := 0;
      assert sndBuf[0..] == sndBuf;
      while i < |sndBuf|
        invariant 0 <= i <= |sndBuf| && Valid()
        invariant Skipped(Word, old(sndBuf), sn, ts) == sndBuf[..i] + Skipped(Word, sndBuf[i..], sn, ts)
      {
        var seg := sndBuf[i];
        if TimeDiff(sn, seg.sn) < 0 {
          break;
        }
        if sn != seg.sn && TimeDiff(ts, seg.ts) >= 0 {
          seg := seg.(fastack := U32(seg.fastack + 1));
        }
        SkipStep(sndBuf, i, sn, ts, seg);
        StepOver(sndBuf[i := seg], i, Skipped(Word, sndBuf[i + 1..], sn, ts));
        assert sndBuf[i := seg][..i] == sndBuf[..i] && sndBuf[i := seg][i + 1..] == sndBuf[i + 1..];
        sndBuf := sndBuf[i := seg];
        i := i + 1;
      }
      SkipStop(sndBuf, i, sn, ts);
    }

    /** ikcp_ack_push: a block that is full is replaced by one of 8, 16, 32 and so on
        entries, the first that is large enough, so fewer than half of it is spare. */
    method AckPush(sn: int, ts: int)
      requires |acklist| <= ackBlock
      modifies this`acklist, this`ackBlock
      ensures acklist == old(acklist) + [Ack(sn, ts)] && |acklist| <= ackBlock
      ensures if |acklist| <= old(ackBlock) then ackBlock == old(ackBlock)
              else ackBlock == 8 || (ackBlock % 16 == 0 && ackBlock / 2 < |acklist|)
    {
      if |acklist| + 1 > ackBlock {
        var newBlock := 8;
        while newBlock < |acklist| + 1
          invariant newBlock == 8 || (newBlock % 16 == 0 && newBlock / 2 < |acklist| + 1)
          decreases |acklist| + 1 - newBlock
        {
          newBlock := 2 * newBlock;
        }
        ackBlock := newBlock;
      }
      acklist := acklist + [Ack(sn, ts)];
    }

    /** Finds the place of a segment from the far end of the receive buffer. */
    method InsertArrived(seg: Received)
      requires Valid()
      modifies this`rcvBuf, this`nrcvBuf
      ensures Valid() && rcvBuf == Insert(Word, old(rcvBuf), seg)
    {
      var p := |rcvBuf|;
      var repeat := false;
      assert rcvBuf[..p] == rcvBuf && rcvBuf[p..] == [];
      while p > 0
        invariant 0 <= p <= |rcvBuf| && !repeat && Valid() && rcvBuf == old(rcvBuf)
        invariant Insert(Word, rcvBuf, seg) == Insert(Word, rcvBuf[..p], seg) + rcvBuf[p..]
      {
        var x := rcvBuf[p - 1];
        if x.sn == seg.sn {
          repeat := true;
          break;
        }
        if TimeDiff(seg.sn, x.sn) > 0 {
          break;
        }
        InsertStep(rcvBuf, p, seg);
        p := p - 1;
      }
      InsertStop(rcvBuf, p, seg, repeat);
      if !repeat {
        rcvBuf := rcvBuf[..p] + [seg] + rcvBuf[p..];
        nrcvBuf := nrcvBuf + 1;
      }
    }

    method ParseData(seg: Received)
      requires Valid()
      modifies this`rcvBuf, this`nrcvBuf, this`rcvQueue, this`nrcvQue, this`rcvNxt
      ensures Valid()
      ensures Model() == old(Model()).(rcv := KcpModel.ParseData(Word, cfg.rcvWnd, old(Model()).rcv, seg))
    {
      if TimeDiff(seg.sn, U32(rcvNxt + cfg.rcvWnd)) >= 0 || TimeDiff(seg.sn, rcvNxt) < 0 {
        return;
      }
      InsertArrived(seg);
      MoveReady();
    }

    method UpdateAck(rtt: int)
      modifies this`pace
      ensures pace == KcpModel.UpdateAck(cfg, old(pace), rtt)
    {
      if pace.srtt == 0 {
        pace := pace.(srtt := rtt, rttval := TruncDiv(rtt, 2));
      } else {
        var delta := rtt - pace.srtt;
        if delta < 0 {
          delta := -delta;
        }
        pace := pace.(rttval := TruncDiv(3 * pace.rttval + delta, 4));
        pace := pace.(srtt := TruncDiv(7 * pace.srtt + rtt, 8));
        if pace.srtt < 1 {
          pace := pace.(srtt := 1);
        }
      }
      var rto := pace.srtt + Max(cfg.interval, 4 * pace.rttval);
      pace := pace.(rto := Min(Max(cfg.minRto, rto), RTO_MAX));
    }

    /** The branch of ikcp_input for an acknowledgement. */
    method TakeAck(seg: Segment, acked: bool, maxAck: int, latestTs: int)
      returns (maxAck': int, latestTs': int)
      requires Valid()
      modifies this`sndBuf, this`nsndBuf, this`sndUna, this`pace
      ensures Valid()
      ensures Intake(Model(), true, maxAck', latestTs') ==
              KcpModel.TakeAck(Word, Intake(old(Model()), acked, maxAck, latestTs), old(Model()).snd, old(pace), seg)
    {
      var rtt := TimeDiff(pace.current, seg.ts);
      if rtt >= 0 {
        UpdateAck(rtt);
      }
      ParseAck(seg.sn);
      ShrinkBuf();
      maxAck', latestTs' := maxAck, latestTs;
      if !acked {
        maxAck', latestTs' := seg.sn, seg.ts;
      } else if TimeDiff(seg.sn, maxAck) > 0 {
        if TimeDiff(seg.ts, latestTs) > 0 {
          maxAck', latestTs' := seg.sn, seg.ts;
        }
      }
    }

    /** The branch of ikcp_input for data. */
    method TakePush(seg: Segment)
      requires Valid()
      modifies this`rcvBuf, this`nrcvBuf, this`rcvQueue, this`nrcvQue, this`rcvNxt, this`acklist,
               this`ackBlock
      ensures Valid()
      ensures Model() == old(Model()).(rcv := ParsePush(Word, cfg.rcvWnd, old(Model()).rcv, seg))
    {
      if TimeDiff(seg.sn, U32(rcvNxt + cfg.rcvWnd)) < 0 {
        AckPush(seg.sn, seg.ts);
        if TimeDiff(seg.sn, rcvNxt) >= 0 {
          ParseData(Received(seg.sn, seg.frg, seg.data));
        }
      }
    }

    /** One turn of the loop in ikcp_input. */
    method TakeSegment(seg: Segment, acked: bool, maxAck: int, latestTs: int)
      returns (acked': bool, maxAck': int, latestTs': int)
      requires Valid()
      modifies this
      ensures Valid()
      ensures Intake(Model(), acked', maxAck', latestTs') ==
              KcpModel.TakeSegment(Word, Intake(old(Model()), acked, maxAck, latestTs), seg)
    {
      acked', maxAck', latestTs' := acked, maxAck, latestTs;
      pace := pace.(rmtWnd := seg.wnd);
      ParseUna(seg.una);
      ShrinkBuf();
      if seg.cmd == CMD_ACK {
        acked' := true;
        maxAck', latestTs' := TakeAck(seg, acked, maxAck, latestTs);
      } else if seg.cmd == CMD_PUSH {
        TakePush(seg);
      } else if seg.cmd == CMD_WASK {
        pace := pace.(tell := true);
      }
    }

    method GrowCwnd()
      modifies this`pace
      ensures pace == KcpModel.GrowCwnd(cfg, old(pace))
    {
      if pace.cwnd < pace.rmtWnd {
        var mss := cfg.mss;
        if pace.cwnd < pace.ssthresh {
          pace := pace.(cwnd := U32(pace.cwnd + 1), incr := U32(pace.incr + mss));
        } else {
          if pace.incr < mss {
            pace := pace.(incr := mss);
          }
          pace := pace.(incr := U32(pace.incr + (mss * mss) / pace.incr + mss / 16));
          if U32((pace.cwnd + 1) * mss) <= pace.incr {
            pace := pace.(cwnd := WindowFor(pace.incr, mss));
          }
        }
        if pace.cwnd > pace.rmtWnd {
          pace := pace.(cwnd := pace.rmtWnd, incr := U32(pace.rmtWnd * mss));
        }
      }
    }

    method Input(data: seq<byte>) returns (code: int)
      requires Valid()
      modifies this
      ensures Valid()
      ensures var r := InputBytes(Word, old(Model()), data); code == r.code && Model() == r.e
    {
      hide KcpModel.TakeSegment, KcpModel.GrowCwnd, Skipped, Read32, HeadSegment;
      var prevUna := sndUna;
      if |data| < OVERHEAD {
        return -1;
      }
      var acked, maxAck, latestTs := false, 0, 0;
      var rest := data;
      ghost var all := Parse(cfg.conv, data);
      ghost var last := TakeSegments(Word, Intake(Model(), false, 0, 0), all.segs);
      while |rest| >= OVERHEAD
        invariant Valid() && Parse(cfg.conv, rest).code == all.code
        invariant TakeSegments(Word, Intake(Model(), acked, maxAck, latestTs), Parse(cfg.conv, rest).segs) == last
        decreases |rest|
      {
        if Read32(rest, 0) != cfg.conv {
          return -1;
        }
        var len := Read32(rest, 20);
        if |rest| - OVERHEAD < len || len >= H32 {
          return -2;
        }
        if !KnownCommand(rest[4]) {
          return -3;
        }
        var seg := HeadSegment(rest);
        ghost var tail := Parse(cfg.conv, rest[OVERHEAD + len..]).segs;
        assert ([seg] + tail)[1..] == tail;
        acked, maxAck, latestTs := TakeSegment(seg, acked, maxAck, latestTs);
        rest := rest[OVERHEAD + len..];
      }
      if acked {
        ParseFastack(maxAck, latestTs);
      }
      if TimeDiff(sndUna, prevUna) > 0 {
        GrowCwnd();
      }
      code := 0;
    }

    // -------------------------------------------------------------- network side, out

    method FlushAcks(hdr: Segment, buffer: seq<byte>, sent: seq<seq<byte>>)
      returns (buffer': seq<byte>, sent': seq<seq<byte>>)
      requires Packed(cfg.mtu, [], buffer, sent)
      ensures Packed(cfg.mtu, AckSegments(hdr, acklist), buffer', sent')
    {
      buffer', sent' := buffer, sent;
      var i := 0;
      while i < |acklist|
        invariant 0 <= i <= |acklist|
        invariant Packed(cfg.mtu, AckSegments(hdr, acklist[..i]), buffer', sent')
      {
        var a := acklist[i];
        assert acklist[..i + 1][..i] == acklist[..i];
        buffer', sent' := Put(cfg.mtu, buffer', sent', hdr.(sn := a.sn, ts := a.ts), AckSegments(hdr, acklist[..i]));
        i := i + 1;
      }
      assert acklist[..i] == acklist;
    }

    method Probe()
      modifies this`pace
      ensures pace == KcpModel.Probe(old(pace))
    {
      if pace.rmtWnd == 0 {
        if pace.probeWait == 0 {
          pace := pace.(probeWait := PROBE_INIT);
          pace := pace.(tsProbe := U32(pace.current + pace.probeWait));
        } else if TimeDiff(pace.current, pace.tsProbe) >= 0 {
          if pace.probeWait < PROBE_INIT {
            pace := pace.(probeWait := PROBE_INIT);
          }
          pace := pace.(probeWait := pace.probeWait + pace.probeWait / 2);
          if pace.probeWait > PROBE_LIMIT {
            pace := pace.(probeWait := PROBE_LIMIT);
          }
          pace := pace.(tsProbe := U32(pace.current + pace.probeWait), ask := true);
        }
      } else {
        pace := pace.(tsProbe := 0, probeWait := 0);
      }
    }

    method FlushProbes(hdr: Segment, ghost outs: seq<Segment>, buffer: seq<byte>, sent: seq<seq<byte>>)
      returns (buffer': seq<byte>, sent': seq<seq<byte>>)
      requires Packed(cfg.mtu, outs, buffer, sent)
      ensures Packed(cfg.mtu, outs + ProbeSegments(hdr, pace), buffer', sent')
    {
      buffer', sent' := buffer, sent;
      ghost var asks := if pace.ask then [hdr.(cmd := CMD_WASK)] else [];
      ghost var tells := if pace.tell then [hdr.(cmd := CMD_WINS)] else [];
      Unit(outs);
      Unit(outs + asks);
      if pace.ask {
        buffer', sent' := Put(cfg.mtu, buffer', sent', hdr.(cmd := CMD_WASK), outs);
      }
      if pace.tell {
        buffer', sent' := Put(cfg.mtu, buffer', sent', hdr.(cmd := CMD_WINS), outs + asks);
      }
      Associate(outs, asks, tells);
    }

    /** Numbers queued segments while the window has room. */
    method FillWindow(cwnd: int)
      requires Valid()
      modifies this`sndQueue, this`nsndQue, this`sndBuf, this`nsndBuf, this`sndNxt
      ensures Valid()
      ensures Model() == old(Model()).(snd := Fill(Word, old(Model()).snd, cwnd, pace.current, pace.rto))
    {
      while TimeDiff(sndNxt, U32(sndUna + cwnd)) < 0
        invariant Valid()
        invariant Fill(Word, Model().snd, cwnd, pace.current, pace.rto) ==
                  Fill(Word, old(Model()).snd, cwnd, pace.current, pace.rto)
        decreases |sndQueue|
      {
        if sndQueue == [] {
          break;
        }
        var data := sndQueue[0];
        sndQueue := sndQueue[1..];
        sndBuf := sndBuf + [InFlight(sndNxt, pace.current, pace.current, pace.rto, 0, 0, data)];
        nsndQue := nsndQue - 1;
        nsndBuf := nsndBuf + 1;
        sndNxt := U32(sndNxt + 1);
      }
    }

    /** The transmission decision for one segment. */
    method TransmitOne(seg: InFlight) returns (seg': InFlight, need: bool, lost: bool, fast: bool)
      ensures seg' == Transmit(cfg, pace.rto, pace.current, seg)
      ensures need == !Due(cfg, pace.current, seg).Quiet?
      ensures lost == Due(cfg, pace.current, seg).Timeout? && fast == Due(cfg, pace.current, seg).Fast?
    {
      var now := pace.current;
      seg', need, lost, fast := seg, false, false, false;
      if seg.xmit == 0 {
        need := true;
        var slack := if cfg.nodelay == 0 then U32(pace.rto) / 8 else 0;
        seg' := seg'.(xmit := 1, rto := U32(pace.rto));
        seg' := seg'.(resendts := U32(now + seg'.rto + slack));
      } else if TimeDiff(now, seg.resendts) >= 0 {
        need, lost := true, true;
        seg' := seg'.(xmit := U32(seg.xmit + 1), rto := Backoff(cfg, pace.rto, seg.rto));
        seg' := seg'.(resendts := U32(now + seg'.rto));
      } else if seg.fastack >= Resent(cfg) {
        if S32(seg.xmit) <= cfg.fastLimit || cfg.fastLimit <= 0 {
          need, fast := true, true;
          seg' := seg'.(xmit := U32(seg.xmit + 1), fastack := 0, resendts := U32(now + seg.rto));
        }
      }
      if need {
        seg' := seg'.(ts := now);
      }
    }

    /** One turn of the pass over the send buffer. */
    method TransmitAt(hdr: Segment, i: nat, ghost outs: seq<Segment>, ghost a: Pass,
                      buffer: seq<byte>, sent: seq<seq<byte>>)
      returns (buffer': seq<byte>, sent': seq<seq<byte>>, late: bool, fast: bool, dead: bool)
      requires Valid() && i < |sndBuf| && Packed(cfg.mtu, outs + a.out, buffer, sent)
      modifies this`sndBuf
      ensures Valid()
      ensures sndBuf == old(sndBuf)[i := Transmit(cfg, pace.rto, pace.current, old(sndBuf)[i])]
      ensures var why := Due(cfg, pace.current, old(sndBuf)[i]);
              late == why.Timeout? && fast == why.Fast? && dead == (!why.Quiet? && sndBuf[i].xmit >= cfg.deadLink)
      ensures Packed(cfg.mtu,
                     outs + KcpModel.TransmitOne(cfg, pace.rto, pace.current, hdr, a, old(sndBuf)[i]).out,
                     buffer', sent')
    {
      buffer', sent', dead := buffer, sent, false;
      var seg, need;
      seg, need, late, fast := TransmitOne(sndBuf[i]);
      sndBuf := sndBuf[i := seg];
      if need {
        var out := PushSegment(hdr, seg);
        buffer', sent' := Put(cfg.mtu, buffer', sent', out, outs + a.out);
        Associate(outs, a.out, [out]);
        dead := seg.xmit >= cfg.deadLink;
      }
    }

    /** The pass over the send buffer. */
    method TransmitPass(hdr: Segment, ghost outs: seq<Segment>, buffer: seq<byte>, sent: seq<seq<byte>>)
      returns (buffer': seq<byte>, sent': seq<seq<byte>>, lost: nat, change: nat, dead: bool)
      requires Valid() && Packed(cfg.mtu, outs, buffer, sent)
      modifies this`sndBuf
      ensures Valid()
      ensures var t := TransmitAll(cfg, pace.rto, pace.current, hdr, old(sndBuf));
              && sndBuf == t.buf && lost == t.lost && change == t.change && dead == t.dead
              && Packed(cfg.mtu, outs + t.out, buffer', sent')
    {
      hide Packed, TransmitAll, Transmit, Due;
      buffer', sent', lost, change, dead := buffer, sent, 0, 0, false;
      ghost var buf := sndBuf;
      ghost var t := Pass([], [], 0, 0, false);
      TransmitNone(cfg, pace.rto, pace.current, hdr);
      var i := 0;
      Unit(outs);
      assert sndBuf[..0] == [] && buf[..0] == [];
      while i < |sndBuf|
        invariant 0 <= i <= |sndBuf| == |buf| && Valid() && sndBuf[i..] == buf[i..]
        invariant t == TransmitAll(cfg, pace.rto, pace.current, hdr, buf[..i])
        invariant sndBuf[..i] == t.buf && lost == t.lost && change == t.change && dead == t.dead
        invariant Packed(cfg.mtu, outs + t.out, buffer', sent')
      {
        assert sndBuf[i] == sndBuf[i..][0] == buf[i];
        TransmitStep(cfg, pace.rto, pace.current, hdr, buf, i);
        AdvanceAt(sndBuf, buf, i, Transmit(cfg, pace.rto, pace.current, buf[i]));
        var late, fast, gone;
        buffer', sent', late, fast, gone := TransmitAt(hdr, i, outs, t, buffer', sent');
        t := KcpModel.TransmitOne(cfg, pace.rto, pace.current, hdr, t, buf[i]);
        lost := if late then lost + 1 else lost;
        change := if fast then change + 1 else change;
        dead := dead || gone;
        i := i + 1;
      }
      assert buf[..i] == buf && sndBuf[..i] == sndBuf;
    }

    method AfterFlush(inflight: int, cwnd: int, lost: nat, change: nat, dead: bool)
      modifies this`pace
      ensures pace == KcpModel.AfterFlush(cfg, old(pace), inflight, cwnd, lost, change, dead)
    {
      hide U32, Resent;
      var threshold := Threshold(inflight);
      pace := pace.(xmit := U32(pace.xmit + lost), dead := pace.dead || dead);
      if change > 0 {
        pace := pace.(ssthresh := threshold, cwnd := U32(threshold + Resent(cfg)));
        pace := pace.(incr := U32(pace.cwnd * cfg.mss));
      }
      if lost > 0 {
        threshold := Threshold(cwnd);
        pace := pace.(ssthresh := threshold, cwnd := 1, incr := cfg.mss);
      }
      if pace.cwnd < 1 {
        pace := pace.(cwnd := 1, incr := cfg.mss);
      }
    }

    /** Half of what was in flight, but not below the least threshold. */
    method Threshold(window: int) returns (half: int)
      ensures half == Max(window / 2, THRESH_MIN)
    {
      half := window / 2;
      if half < THRESH_MIN {
        half := THRESH_MIN;
      }
    }

    /** Acknowledgements and window probes, the first half of ikcp_flush. */
    method FlushControl(hdr: Segment) returns (buffer: seq<byte>, sent: seq<seq<byte>>)
      requires Valid()
      modifies this`acklist, this`pace
      ensures Valid() && acklist == []
      ensures var p := KcpModel.Probe(old(pace));
              && pace == Probed(old(pace))
              && Packed(cfg.mtu, ControlSegments(hdr, old(acklist), p), buffer, sent)
    {
      buffer, sent := FlushAcks(hdr, [], []);
      var probe := if acklist == [] then hdr
                   else hdr.(sn := acklist[|acklist| - 1].sn, ts := acklist[|acklist| - 1].ts);
      ghost var acked := AckSegments(hdr, acklist);
      acklist := [];
      Probe();
      buffer, sent := FlushProbes(probe, acked, buffer, sent);
      pace := pace.(ask := false, tell := false);
    }

    /** The window a flush may fill. */
    method SendWindow() returns (cwnd: int)
      ensures cwnd == Window(cfg, pace)
    {
      cwnd := if cfg.sndWnd <= pace.rmtWnd then cfg.sndWnd else pace.rmtWnd;
      if !cfg.noCwnd {
        cwnd := if pace.cwnd <= cwnd then pace.cwnd else cwnd;
      }
    }

    /** Numbering and transmission. */
    method FillAndTransmit(hdr: Segment, cwnd: int, ghost s: Sender, ghost t: Pass, ghost control: seq<Segment>,
                           buffer: seq<byte>, sent: seq<seq<byte>>)
      returns (sent': seq<seq<byte>>, lost: nat, change: nat, dead: bool)
      requires Valid() && Packed(cfg.mtu, control, buffer, sent)
      requires s == Fill(Word, Model().snd, cwnd, pace.current, pace.rto)
      requires t == TransmitAll(cfg, pace.rto, pace.current, hdr, s.buf)
      modifies this`sndQueue, this`nsndQue, this`sndBuf, this`nsndBuf, this`sndNxt
      ensures Valid() && Model() == old(Model()).(snd := s.(buf := t.buf))
      ensures lost == t.lost && change == t.change && dead == t.dead
      ensures sent' == EncodePackets(Packets(cfg.mtu, control + t.out))
    {
      FillWindow(cwnd);
      var buffer';
      buffer', sent', lost, change, dead := TransmitPass(hdr, control, buffer, sent);
      sent' := Finish(cfg.mtu, buffer', sent', control + t.out);
    }

    /** Numbering, transmission and congestion control, the rest of ikcp_flush. */
    method FlushData(hdr: Segment, ghost control: seq<Segment>, buffer: seq<byte>, sent: seq<seq<byte>>)
      returns (sent': seq<seq<byte>>)
      requires Valid() && Packed(cfg.mtu, control, buffer, sent) && acklist == []
      modifies this`sndQueue, this`nsndQue, this`sndBuf, this`nsndBuf, this`sndNxt, this`pace
      ensures Valid()
      ensures var f := SecondHalf(old(Model()), hdr, control);
              Model() == f.e && sent' == EncodePackets(Packets(cfg.mtu, f.out))
    {
      ghost var e := Model();
      var cwnd := SendWindow();
      ghost var s := Fill(Word, e.snd, cwnd, pace.current, pace.rto);
      ghost var t := TransmitAll(cfg, pace.rto, pace.current, hdr, s.buf);
      SecondHalfIs(e, hdr, control, cwnd, s, t);
      var lost, change, dead;
      sent', lost, change, dead := FillAndTransmit(hdr, cwnd, s, t, control, buffer, sent);
      AfterFlush(U32(sndNxt - sndUna), cwnd, lost, change, dead);
    }

    method HeaderNow() returns (hdr: Segment)
      requires Valid()
      ensures hdr == Header(Model())
    {
      var unused := if nrcvQue < cfg.rcvWnd then cfg.rcvWnd - nrcvQue else 0;
      hdr := Segment(cfg.conv, CMD_ACK, 0, U16(unused), 0, 0, rcvNxt, []);
    }

    /** ikcp_flush; `sent` is what it hands to the output callback, in order. */
    method Flush() returns (sent: seq<seq<byte>>)
      requires Valid()
      modifies this
      ensures Valid()
      ensures var f := KcpModel.Flush(Word, old(Model()));
              Model() == f.e && sent == EncodePackets(Packets(cfg.mtu, f.out))
    {
      NothingPacked(cfg.mtu);
      if !pace.updated {
        return [];
      }
      ghost var e := Model();
      var hdr := HeaderNow();
      var buffer;
      buffer, sent := FlushControl(hdr);
      ghost var control := ControlSegments(hdr, e.rcv.acks, KcpModel.Probe(e.pace));
      FlushVia(e, Model(), hdr, pace, control);
      sent := FlushData(hdr, control, buffer, sent);
    }

    /** The clock part of ikcp_update. */
    method Tick(now: int) returns (due: bool)
      modifies this`pace
      ensures var t := TickAt(cfg, old(pace), now);
              due == t.flush && pace == old(pace).(current := now, updated := true, tsFlush := t.tsFlush)
    {
      pace := pace.(current := now);
      if !pace.updated {
        pace := pace.(updated := true, tsFlush := now);
      }
      var slap := TimeDiff(now, pace.tsFlush);
      if slap >= 10000 || slap < -10000 {
        pace := pace.(tsFlush := now);
        slap := 0;
      }
      due := slap >= 0;
      if due {
        pace := pace.(tsFlush := U32(pace.tsFlush + cfg.interval));
        if TimeDiff(now, pace.tsFlush) >= 0 {
          pace := pace.(tsFlush := U32(now + cfg.interval));
        }
      }
    }

    method Update(now: int) returns (sent: seq<seq<byte>>)
      requires Valid()
      modifies this
      ensures Valid()
      ensures var f := KcpModel.Update(Word, old(Model()), now);
              Model() == f.e && sent == EncodePackets(Packets(cfg.mtu, f.out))
    {
      var due := Tick(now);
      if due {
        sent := Flush();
      } else {
        sent := [];
        NothingPacked(cfg.mtu);
      }
    }

    /** ikcp_check */
    method Check(now: int) returns (hint: int)
      requires 0 <= now < W32
      ensures hint == KcpClock.Check(cfg, pace, sndBuf, now)
    {
      if !pace.updated {
        return now;
      }
      var slap := TimeDiff(now, pace.tsFlush);
      if slap >= 0 || slap < -10000 {
        return now;
      }
      var tmFlush := TimeDiff(pace.tsFlush, now);
      KcpClock.DelayRange(pace, now);
      var tmPacket, i := KcpClock.NO_LIMIT, 0;
      assert sndBuf[..0] == [];
      while i < |sndBuf|
        invariant 0 <= i <= |sndBuf| && tmPacket == KcpClock.PacketDelay(sndBuf[..i], now) > 0
      {
        var diff := TimeDiff(sndBuf[i].resendts, now);
        if diff <= 0 {
          KcpClock.EarliestDue(sndBuf, now);
          return now;
        }
        assert sndBuf[..i + 1][..i] == sndBuf[..i];
        tmPacket := if diff < tmPacket then diff else tmPacket;
        i := i + 1;
      }
      assert sndBuf[..i] == sndBuf;
      var minimal := if tmPacket < tmFlush then tmPacket else tmFlush;
      if minimal >= cfg.interval {
        minimal := cfg.interval;
      }
      hint := U32(now + minimal);
    }
  }

  // ---------------------------------------------------------------- the output buffer

  /** `buffer` holds the open datagram and `sent` the finished ones after the
      segments `outs`. */
  ghost predicate Packed(mtu: int, outs: seq<Segment>, buffer: seq<byte>, sent: seq<seq<byte>>) {
    var pk := Pack(mtu, outs);
    buffer == EncodeAll(pk.cur) && sent == EncodePackets(pk.done)
  }

  lemma PackSnoc(mtu: int, outs: seq<Segment>, seg: Segment)
    ensures Pack(mtu, outs + [seg]) == AddSegment(mtu, Pack(mtu, outs), seg)
  {
    assert (outs + [seg])[..|outs|] == outs;
  }

  lemma CloseEncoded(pk: Packing)
    ensures EncodePackets(Close(pk)) ==
            if pk.cur == [] then EncodePackets(pk.done) else EncodePackets(pk.done) + [EncodeAll(pk.cur)]
  {
    assert EncodePackets(pk.done + [pk.cur]) == EncodePackets(pk.done) + [EncodeAll(pk.cur)];
  }

  lemma NothingPacked(mtu: int)
    ensures EncodePackets(Packets(mtu, [])) == []
  {
  }

  lemma EmptyEncoded(segs: seq<Segment>)
    ensures |EncodeAll(segs)| > 0 <==> segs != []
  {
    EncodedSize(segs);
  }

  /** Adds one segment to the open datagram, first sending it if it is full. */
  method Put(mtu: int, buffer: seq<byte>, sent: seq<seq<byte>>, seg: Segment, ghost outs: seq<Segment>)
    returns (buffer': seq<byte>, sent': seq<seq<byte>>)
    requires Packed(mtu, outs, buffer, sent)
    ensures Packed(mtu, outs + [seg], buffer', sent')
  {
    ghost var pk := Pack(mtu, outs);
    PackSnoc(mtu, outs, seg);
    EncodedSize(pk.cur);
    CloseEncoded(pk);
    EmptyEncoded(pk.cur);
    buffer', sent' := buffer, sent;
    if |buffer| + OVERHEAD + |seg.data| > mtu {
      if |buffer| > 0 {
        sent' := sent' + [buffer];
      }
      buffer' := [];
      EncodeAllSnoc([], seg);
      assert [] + [seg] == [seg];
    } else {
      EncodeAllSnoc(pk.cur, seg);
    }
    buffer' := buffer' + Encode(seg);
  }

  /** Sends what is left in the open datagram. */
  method Finish(mtu: int, buffer: seq<byte>, sent: seq<seq<byte>>, ghost outs: seq<Segment>)
    returns (sent': seq<seq<byte>>)
    requires Packed(mtu, outs, buffer, sent)
    ensures sent' == EncodePackets(Packets(mtu, outs))
  {
    ghost var pk := Pack(mtu, outs);
    CloseEncoded(pk);
    EmptyEncoded(pk.cur);
    sent' := sent;
    if |buffer| > 0 {
      sent' := sent' + [buffer];
    }
  }

  // ---------------------------------------------------------------- steps of the loops

  /** What is left of a flush once its control segments are packed. */
  ghost function SecondHalf(e: Endpoint, hdr: Segment, control: seq<Segment>): FlushResult {
    var p := e.pace;
    var s := Fill(Word, e.snd, Window(e.cfg, p), p.current, p.rto);
    Assemble(e, p, s, U32(s.nxt - s.una), TransmitAll(e.cfg, p.rto, p.current, hdr, s.buf), control)
  }

  lemma SecondHalfIs(e: Endpoint, hdr: Segment, control: seq<Segment>, cwnd: int, s: Sender, t: Pass)
    requires cwnd == Window(e.cfg, e.pace) && s == Fill(Word, e.snd, cwnd, e.pace.current, e.pace.rto)
    requires t == TransmitAll(e.cfg, e.pace.rto, e.pace.current, hdr, s.buf)
    ensures SecondHalf(e, hdr, control) ==
            FlushResult(
              Endpoint(e.cfg, s.(buf := t.buf), e.rcv.(acks := []),
                       KcpModel.AfterFlush(e.cfg, e.pace, U32(s.nxt - s.una), cwnd, t.lost, t.change, t.dead)),
              control + t.out)
  {
  }

  /** A flush is its second half, run on what the first half left. */
  lemma FlushVia(e: Endpoint, e1: Endpoint, hdr: Segment, p: Pace, control: seq<Segment>)
    requires e.pace.updated && hdr == Header(e) && p == Probed(e.pace)
    requires control == ControlSegments(hdr, e.rcv.acks, KcpModel.Probe(e.pace))
    requires e1 == e.(rcv := e.rcv.(acks := []), pace := p)
    ensures KcpModel.Flush(Word, e) == SecondHalf(e1, hdr, control)
  {
    var s := Fill(Word, e1.snd, Window(e.cfg, p), p.current, p.rto);
    FlushIs(Word, e, hdr, p, s, U32(s.nxt - s.una), TransmitAll(e.cfg, p.rto, p.current, hdr, s.buf), control);
  }

  lemma InsertStep(buf: seq<Received>, p: nat, seg: Received)
    requires 0 < p <= |buf| && buf[p - 1].sn != seg.sn && TimeDiff(seg.sn, buf[p - 1].sn) <= 0
    ensures Insert(Word, buf[..p], seg) + buf[p..] == Insert(Word, buf[..p - 1], seg) + buf[p - 1..]
  {
    assert buf[..p][..p - 1] == buf[..p - 1];
    StepBack(buf, p, Insert(Word, buf[..p - 1], seg));
  }

  lemma InsertStop(buf: seq<Received>, p: nat, seg: Received, repeat: bool)
    requires p <= |buf|
    requires if repeat then p > 0 && buf[p - 1].sn == seg.sn
             else p > 0 ==> buf[p - 1].sn != seg.sn && TimeDiff(seg.sn, buf[p - 1].sn) > 0
    ensures Insert(Word, buf[..p], seg) + buf[p..] == if repeat then buf else buf[..p] + [seg] + buf[p..]
  {
    assert buf[..p] + buf[p..] == buf;
  }

  lemma SkipStop(buf: seq<InFlight>, i: nat, sn: int, ts: int)
    requires i <= |buf| && (i < |buf| ==> TimeDiff(sn, buf[i].sn) < 0)
    ensures buf[..i] + Skipped(Word, buf[i..], sn, ts) == buf
  {
    SplitAt(buf, i);
  }

  /** Nothing before `i` is what ikcp_parse_ack looks for. */
  ghost predicate Walked(buf: seq<InFlight>, i: int, sn: int) {
    0 <= i <= |buf| && DropOne(Word, buf, sn) == buf[..i] + DropOne(Word, buf[i..], sn)
  }

  lemma WalkStarts(buf: seq<InFlight>, sn: int)
    ensures Walked(buf, 0, sn)
  {
    assert buf[0..] == buf;
  }

  lemma DropStep(buf: seq<InFlight>, i: nat, sn: int)
    requires i < |buf| && Walked(buf, i, sn)
    ensures if sn == buf[i].sn then DropOne(Word, buf, sn) == buf[..i] + buf[i + 1..]
            else if TimeDiff(sn, buf[i].sn) < 0 then DropOne(Word, buf, sn) == buf
            else Walked(buf, i + 1, sn)
  {
    hide TimeDiff;
    var rest := buf[i..];
    assert rest[0] == buf[i] && rest[1..] == buf[i + 1..];
    SplitAt(buf, i);
    StepOver(buf, i, DropOne(Word, buf[i + 1..], sn));
  }

  lemma WalkEnds(buf: seq<InFlight>, sn: int)
    requires Walked(buf, |buf|, sn)
    ensures DropOne(Word, buf, sn) == buf
  {
    assert buf[|buf|..] == [];
  }

  lemma SkipStep(buf: seq<InFlight>, i: nat, sn: int, ts: int, seg: InFlight)
    requires i < |buf| && TimeDiff(sn, buf[i].sn) >= 0
    requires seg == if sn != buf[i].sn && TimeDiff(ts, buf[i].ts) >= 0
                    then buf[i].(fastack := U32(buf[i].fastack + 1)) else buf[i]
    ensures Skipped(Word, buf[i..], sn, ts) == [seg] + Skipped(Word, buf[i + 1..], sn, ts)
  {
    assert buf[i..][1..] == buf[i + 1..];
  }

  lemma Unit<T>(s: seq<T>)
    ensures s + [] == s
  {
  }

  lemma TransmitNone(cfg: Config, rto: int, now: int, hdr: Segment)
    ensures TransmitAll(cfg, rto, now, hdr, []) == Pass([], [], 0, 0, false)
  {
  }

  lemma TransmitStep(cfg: Config, rto: int, now: int, hdr: Segment, buf: seq<InFlight>, i: nat)
    requires i < |buf|
    ensures TransmitAll(cfg, rto, now, hdr, buf[..i + 1]) ==
            KcpModel.TransmitOne(cfg, rto, now, hdr, TransmitAll(cfg, rto, now, hdr, buf[..i]), buf[i])
  {
    assert buf[..i + 1][..i] == buf[..i];
  }

  lemma AdvanceAt<T>(s: seq<T>, old': seq<T>, i: nat, x: T)
    requires i < |s| == |old'| && s[i..] == old'[i..]
    ensures s[i := x][..i + 1] == s[..i] + [x]
    ensures s[i := x][i + 1..] == old'[i + 1..]
  {
    assert s[i := x][i + 1..] == s[i..][1..];
    assert old'[i + 1..] == old'[i..][1..];
  }

  lemma StepOver<T>(s: seq<T>, i: nat, tail: seq<T>)
    requires i < |s|
    ensures s[..i] + ([s[i]] + tail) == s[..i + 1] + tail
  {
  }

  lemma StepBack<T>(s: seq<T>, p: nat, front: seq<T>)
    requires 0 < p <= |s|
    ensures front + [s[p - 1]] + s[p..] == front + s[p - 1..]
  {
  }

  lemma CountPositive(mss: int, len: nat)
    requires mss > 0 && len > 0
    ensures SegmentCount(mss, len) >= 1
    decreases len
  {
    if len > mss {
      CeilStep(mss, len);
      CountPositive(mss, len - mss);
    }
  }

  lemma ChunkStep(mss: int, rest: seq<byte>, size: int, queue: seq<seq<byte>>)
    requires mss > 0 && rest != [] && size == (if |rest| > mss then mss else |rest|)
    ensures queue + [rest[..size]] + Chunks(mss, rest[size..]) == queue + Chunks(mss, rest)
    ensures if rest[size..] == [] then SegmentCount(mss, |rest|) == 1
            else SegmentCount(mss, |rest[size..]|) == SegmentCount(mss, |rest|) - 1
  {
    if |rest| > mss {
      CeilStep(mss, |rest|);
      Associate(queue, [rest[..mss]], Chunks(mss, rest[mss..]));
    } else {
      assert rest[..size] == rest && rest[size..] == [];
    }
  }

  lemma {:induction false} PayloadSnoc(q: seq<Received>, i: nat)
    requires i < |q|
    ensures Payload(q[..i + 1]) == Payload(q[..i]) + q[i].data
  {
    if i == 0 {
      assert q[..1][1..] == [];
    } else {
      PayloadSnoc(q[1..], i - 1);
      assert q[..i + 1][1..] == q[1..][..i];
      assert q[..i][1..] == q[1..][..i - 1];
    }
  }
}
