/** What KCP holds ready for its user: the receive queue and the arrived segments
    that follow it without a gap. To a session KCP is this list. */
module KcpReady {
  import opened Words
  import opened KcpModel
  import opened KcpWire
  import opened KcpLists
  import opened KcpBytes
  import opened KcpWrap
  import opened KcpSystem
  import opened KcpProgram

  function Datas(queue: seq<Received>): (d: seq<seq<byte>>)
    ensures |d| == |queue| && (forall i :: 0 <= i < |d| ==> d[i] == queue[i].data)
  {
    seq(|queue|, i requires 0 <= i < |queue| => queue[i].data)
  }

  /** The payloads at the head of `buf` that are numbered from `nxt` on. */
  function Following(m: Arith, buf: seq<Received>, nxt: int): (d: seq<seq<byte>>)
    ensures |d| <= |buf| && (forall i :: 0 <= i < |d| ==> d[i] == buf[i].data)
    decreases |buf|
  {
    if buf != [] && Same(m, buf[0].sn, nxt) then [buf[0].data] + Following(m, buf[1..], Num(m, nxt + 1)) else []
  }

  function Ready(m: Arith, r: Receiver): seq<seq<byte>> { Datas(r.queue) + Following(m, r.buf, r.nxt) }

  // ---------------------------------------------------------------- the queue is a stretch of the stream

  /** The queue holds the segments just below the next number, one by one. */
  ghost predicate QueueOk(log: seq<seq<byte>>, r: Receiver) {
    && |r.queue| <= r.nxt <= |log|
    && (forall i :: 0 <= i < |r.queue| ==> r.queue[i].data == log[r.nxt - |r.queue| + i])
  }

  ghost predicate AllGenuine(log: seq<seq<byte>>, buf: seq<Received>) {
    forall i :: 0 <= i < |buf| ==> 0 <= buf[i].sn < |log| && buf[i].data == log[buf[i].sn]
  }

  lemma DrainQueue(wnd: int, r: Receiver, log: seq<seq<byte>>)
    requires QueueOk(log, r) && |r.queue| <= wnd && AllGenuine(log, r.buf)
    ensures var d := Drain(Ideal, wnd, r); QueueOk(log, d) && d.nxt - |d.queue| == r.nxt - |r.queue|
  {
    var k := DrainSpec(wnd, r);
    var d := Drain(Ideal, wnd, r);
    if k > 0 {
      assert r.buf[k - 1].sn == r.nxt + (k - 1);
    }
    forall i | 0 <= i < |d.queue| ensures d.queue[i].data == log[d.nxt - |d.queue| + i] {
      if i >= |r.queue| {
        assert d.queue[i] == r.buf[i - |r.queue|];
      }
    }
  }

  lemma InsertGenuine(log: seq<seq<byte>>, buf: seq<Received>, seg: Received)
    requires AllGenuine(log, buf) && 0 <= seg.sn < |log| && seg.data == log[seg.sn]
    ensures AllGenuine(log, Insert(Ideal, buf, seg))
  {
    var k, repeat := InsertSpec(buf, seg);
  }

  lemma PushQueue(wnd: int, r: Receiver, log: seq<seq<byte>>, s: Segment)
    requires ReceiverOk(wnd, r, log) && QueueOk(log, r) && 0 <= s.sn < |log| && s.data == log[s.sn]
    ensures var d := ParsePush(Ideal, wnd, r, s); QueueOk(log, d) && d.nxt - |d.queue| == r.nxt - |r.queue|
  {
    hide Drain, Insert;
    if r.nxt <= s.sn < r.nxt + wnd {
      var seg := Received(s.sn, s.frg, s.data);
      GenuineBuffer(wnd, r, log);
      InsertGenuine(log, r.buf, seg);
      DrainQueue(wnd, r.(acks := r.acks + [Ack(s.sn, s.ts)], buf := Insert(Ideal, r.buf, seg)), log);
    }
  }

  lemma GenuineBuffer(wnd: int, r: Receiver, log: seq<seq<byte>>)
    requires ReceiverOk(wnd, r, log)
    ensures AllGenuine(log, r.buf) && |r.queue| <= wnd
  {
    forall i | 0 <= i < |r.buf| ensures Genuine(r, log, r.buf[i]) {
      assert r.buf[i] in r.buf;
    }
  }

  lemma {:induction false} TakeAllQueue(x: Node, peer: Node, st: Intake, segs: seq<Segment>)
    requires Taking(x, peer, st.e) && HonestPacket(peer.e.rcv, peer.log, segs) && QueueOk(peer.log, st.e.rcv)
    ensures QueueOk(peer.log, TakeSegments(Ideal, st, segs).e.rcv)
    decreases |segs|
  {
    hide QueueOk, TakeSegment;
    if segs != [] {
      var s := segs[0];
      assert s in segs;
      TakeQueue(x, peer, st, s);
      TakeOneKeeps(x, peer, st, s);
      TakeAllQueue(x, peer, TakeSegment(Ideal, st, s), segs[1..]);
    }
  }

  lemma TakeQueue(x: Node, peer: Node, st: Intake, s: Segment)
    requires Taking(x, peer, st.e) && Honest(peer.e.rcv, peer.log, s) && QueueOk(peer.log, st.e.rcv)
    ensures QueueOk(peer.log, TakeSegment(Ideal, st, s).e.rcv)
  {
    hide QueueOk, ParsePush, ParseUna, ParseAck;
    if s.cmd == CMD_PUSH {
      PushQueue(st.e.cfg.rcvWnd, st.e.rcv, peer.log, s);
    }
  }

  lemma RecvQueue(wnd: int, r: Receiver, log: seq<seq<byte>>, cap: int)
    requires ReceiverOk(wnd, r, log) && QueueOk(log, r)
    ensures QueueOk(log, Recv(Ideal, wnd, r, cap).rcv)
  {
    hide Drain;
    if r.queue != [] {
      assert r.queue[0] in r.queue;
      RecvOne(Ideal, wnd, r, cap);
      GenuineBuffer(wnd, r, log);
      DrainQueue(wnd, r.(queue := r.queue[1..]), log);
    }
  }

  lemma FlushKeepsQueue(x: Node, peer: Node, e: Endpoint)
    requires QueueOk(peer.log, x.e.rcv) && e.rcv == x.e.rcv
    ensures QueueOk(peer.log, Emit(x, Flush(Ideal, e)).e.rcv)
  {
    FlushReceiver(Ideal, e);
  }

  /** Every action keeps it for both directions. */
  lemma ActQueue(x: Node, peer: Node, act: Action)
    requires Stream(x, peer) && Stream(peer, x) && QueueOk(peer.log, x.e.rcv) && QueueOk(x.log, peer.e.rcv)
    ensures var x' := Act(x, peer, act); QueueOk(peer.log, x'.e.rcv) && QueueOk(x'.log, peer.e.rcv) && x.log <= x'.log
  {
    hide QueueOk, Flush, KcpModel.Recv, KcpModel.Send, Input, Stream, TickAt;
    QueueLog(x.log, Act(x, peer, act).log, peer.e.rcv);
    ReceivingOk(x, peer);
    match act
    case SendBytes(_, _) =>
    case RecvBytes(_, cap) => RecvQueue(x.e.cfg.rcvWnd, x.e.rcv, peer.log, cap);
    case FlushNow(_) => FlushKeepsQueue(x, peer, x.e);
    case UpdateAt(_, now) =>
      var t := TickAt(x.e.cfg, x.e.pace, now);
      var e := x.e.(pace := x.e.pace.(current := now, updated := true, tsFlush := t.tsFlush));
      FlushKeepsQueue(x, peer, e);
    case Deliver(_, k, _) =>
      if k < |peer.out| {
        SentHonest(x, peer, k);
        InputQueue(x, peer, peer.out[k]);
      }
  }

  lemma QueueLog(log: seq<seq<byte>>, log': seq<seq<byte>>, r: Receiver)
    requires QueueOk(log, r)
    ensures log <= log' ==> QueueOk(log', r)
  {
  }

  lemma InputQueue(x: Node, peer: Node, segs: seq<Segment>)
    requires Stream(x, peer) && Stream(peer, x) && QueueOk(peer.log, x.e.rcv) && HonestPacket(peer.e.rcv, peer.log, segs)
    ensures var e := Input(Ideal, x.e, segs);
            && QueueOk(peer.log, e.rcv) && Grows(x.e.rcv, e.rcv)
            && |e.rcv.queue| - e.rcv.nxt == |x.e.rcv.queue| - x.e.rcv.nxt
  {
    hide QueueOk;
    var st := Intake(x.e, false, 0, 0);
    assert Grows(x.e.rcv, x.e.rcv);
    TakeAllQueue(x, peer, st, segs);
    TakeAllKeeps(x, peer, st, segs);
  }

  // ---------------------------------------------------------------- the ready list

  /** The first number from the next one on that has not arrived. */
  function Top(r: Receiver): int { r.nxt + |Following(Ideal, r.buf, r.nxt)| }

  lemma {:induction false} FollowingNumbers(buf: seq<Received>, nxt: int)
    ensures var k := |Following(Ideal, buf, nxt)|;
            (forall i :: 0 <= i < k ==> buf[i].sn == nxt + i) && (k < |buf| ==> buf[k].sn != nxt + k)
    decreases |buf|
  {
    if buf != [] && buf[0].sn == nxt {
      var rest, k := buf[1..], |Following(Ideal, buf, nxt)|;
      FollowingNumbers(rest, nxt + 1);
      assert k == |Following(Ideal, rest, nxt + 1)| + 1;
      assert forall i :: 0 < i < |buf| ==> buf[i] == rest[i - 1];
    }
  }

  /** The number behind the run has not arrived. */
  lemma FollowingEnds(buf: seq<Received>, nxt: int)
    requires SortedArrived(buf) && (forall i :: 0 <= i < |buf| ==> buf[i].sn >= nxt)
    ensures !Arrived(buf, nxt + |Following(Ideal, buf, nxt)|)
  {
    hide Following;
    FollowingNumbers(buf, nxt);
    var k := |Following(Ideal, buf, nxt)|;
    forall i | 0 <= i < |buf| ensures buf[i].sn != nxt + k {
      if i > k {
        assert buf[k].sn < buf[i].sn;
        assert k > 0 ==> buf[k - 1].sn < buf[k].sn;
      }
    }
  }

  lemma BufferFromNext(wnd: int, r: Receiver, log: seq<seq<byte>>)
    requires ReceiverOk(wnd, r, log)
    ensures AllGenuine(log, r.buf) && SortedArrived(r.buf) && 0 <= r.nxt <= |log|
    ensures forall i :: 0 <= i < |r.buf| ==> r.nxt <= r.buf[i].sn < r.nxt + wnd
  {
    GenuineBuffer(wnd, r, log);
    forall i | 0 <= i < |r.buf| ensures r.nxt <= r.buf[i].sn < r.nxt + wnd {
      assert r.buf[i] in r.buf;
    }
  }

  lemma TopIs(wnd: int, r: Receiver, log: seq<seq<byte>>)
    requires ReceiverOk(wnd, r, log)
    ensures 0 <= r.nxt <= Top(r) <= |log| && !Has(r, Top(r)) && (forall i :: 0 <= i < Top(r) ==> Has(r, i))
    ensures forall i :: 0 <= i < Top(r) - r.nxt ==> Following(Ideal, r.buf, r.nxt)[i] == log[r.nxt + i]
  {
    hide Following, ReceiverOk;
    BufferFromNext(wnd, r, log);
    FollowingNumbers(r.buf, r.nxt);
    FollowingEnds(r.buf, r.nxt);
    var k := |Following(Ideal, r.buf, r.nxt)|;
    if k > 0 {
      assert r.buf[k - 1].sn == r.nxt + (k - 1);
    }
    forall i | 0 <= i < Top(r) ensures Has(r, i) {
      if i >= r.nxt {
        assert r.buf[i - r.nxt].sn == i;
      }
    }
  }

  /** What is ready is a stretch of the stream, up to the first gap. */
  lemma ReadyIs(wnd: int, r: Receiver, log: seq<seq<byte>>)
    requires ReceiverOk(wnd, r, log) && QueueOk(log, r)
    ensures 0 <= r.nxt - |r.queue| && r.nxt <= Top(r) <= |log|
    ensures Ready(Ideal, r) == log[r.nxt - |r.queue|..Top(r)]
  {
    hide Following, ReceiverOk;
    TopIs(wnd, r, log);
    var c := r.nxt - |r.queue|;
    forall i | 0 <= i < Top(r) - c ensures Ready(Ideal, r)[i] == log[c + i] {
      if i >= |r.queue| {
        assert Ready(Ideal, r)[i] == Following(Ideal, r.buf, r.nxt)[i - |r.queue|];
      }
    }
  }

  /** The program sees the same list. */
  lemma {:induction false} FollowingCut(buf: seq<Received>, nxt: int, lo: int)
    requires lo <= nxt <= lo + 0x2_0000 && |buf| <= lo + 0x2_0000 - nxt
    requires forall i :: 0 <= i < |buf| ==> lo <= buf[i].sn < lo + 0x2_0000
    ensures Following(Word, WrapArrived(buf), U32(nxt)) == Following(Ideal, buf, nxt)
    decreases |buf|
  {
    hide Following, WrapArrived;
    FollowingStep(Word, WrapArrived(buf), U32(nxt));
    FollowingStep(Ideal, buf, nxt);
    if buf != [] {
      NumberCut(buf[0].sn, nxt);
      if buf[0].sn == nxt {
        TailCut(buf);
        AddWraps(nxt, 1);
        FollowingCut(buf[1..], nxt + 1, lo);
      }
    }
  }

  lemma TailCut(buf: seq<Received>)
    requires buf != []
    ensures WrapArrived(buf)[1..] == WrapArrived(buf[1..])
  {
  }

  lemma FollowingStep(m: Arith, buf: seq<Received>, nxt: int)
    ensures Following(m, buf, nxt) ==
            if buf != [] && Same(m, buf[0].sn, nxt) then [buf[0].data] + Following(m, buf[1..], Num(m, nxt + 1)) else []
  {
  }

  lemma NumberCut(x: int, y: int)
    requires -W32 < x - y < W32
    ensures U32(x) == U32(y) <==> x == y
  {
    SubWraps(x, y);
  }

  lemma ReadyCut(wnd: int, r: Receiver, log: seq<seq<byte>>)
    requires ReceiverOk(wnd, r, log) && 0 < wnd <= 65536 && |r.buf| <= wnd
    ensures Ready(Word, WrapReceiver(r)) == Ready(Ideal, r)
  {
    forall i | 0 <= i < |r.buf| ensures r.nxt <= r.buf[i].sn < r.nxt + 0x2_0000 {
      assert r.buf[i] in r.buf;
    }
    FollowingCut(r.buf, r.nxt, r.nxt);
  }

  /** Moving segments on leaves the list as it is. */
  lemma {:induction false} DrainReady(m: Arith, wnd: int, r: Receiver)
    ensures Ready(m, Drain(m, wnd, r)) == Ready(m, r)
    decreases |r.buf|
  {
    hide Datas, Following;
    if r.buf != [] && Same(m, r.buf[0].sn, r.nxt) && |r.queue| < wnd {
      DrainReady(m, wnd, r.(nxt := Num(m, r.nxt + 1), queue := r.queue + [r.buf[0]], buf := r.buf[1..]));
      ReadyMoves(m, r.queue, r.buf, r.nxt);
    }
  }

  lemma ReadyMoves(m: Arith, queue: seq<Received>, buf: seq<Received>, nxt: int)
    requires buf != [] && Same(m, buf[0].sn, nxt)
    ensures Datas(queue + [buf[0]]) + Following(m, buf[1..], Num(m, nxt + 1)) == Datas(queue) + Following(m, buf, nxt)
  {
    assert Datas(queue + [buf[0]]) == Datas(queue) + [buf[0].data];
    AssociateSegments(Datas(queue), [buf[0].data], Following(m, buf[1..], Num(m, nxt + 1)));
  }

  lemma AssociateSegments(a: seq<seq<byte>>, b: seq<seq<byte>>, c: seq<seq<byte>>)
    ensures (a + b) + c == a + (b + c)
  {
  }

  /** A receive takes the first of the list. */
  lemma RecvReady(m: Arith, wnd: int, r: Receiver, cap: int)
    requires r.queue != [] && r.queue[0].frg == 0 && |r.queue[0].data| <= cap
    ensures var x, q := Recv(m, wnd, r, cap), Ready(m, r);
            q != [] && x.data == q[0] && Ready(m, x.rcv) == q[1..]
  {
    hide Drain, Following;
    RecvOne(m, wnd, r, cap);
    var r1 := r.(queue := r.queue[1..]);
    DrainReady(m, wnd, r1);
    assert Datas(r.queue)[1..] == Datas(r1.queue);
    assert Ready(m, r)[1..] == Datas(r.queue)[1..] + Following(m, r.buf, r.nxt);
  }

  // ---------------------------------------------------------------- two nodes

  /** Nodes `wx` and `wy` of the program follow nodes `x` and `y` of the unbounded
      system, in which everything proved of runs holds. */
  ghost predicate Joint(x: Node, y: Node, wx: WNode, wy: WNode) {
    && Stream(x, y) && Stream(y, x) && WireOk(x) && WireOk(y) && x.e.cfg.conv == y.e.cfg.conv
    && Sim(x, wx) && Sim(y, wy) && QueueOk(y.log, x.e.rcv) && QueueOk(x.log, y.e.rcv)
  }

  lemma JointStart(left: Config, right: Config)
    requires left.conv == right.conv
    ensures Joint(Start(left), Start(right), WStart(left), WStart(right))
  {
    hide Stream;
    StartCoupled(left, right);
  }

  lemma JointTurned(x: Node, y: Node, wx: WNode, wy: WNode)
    requires Joint(x, y, wx, wy)
    ensures Joint(y, x, wy, wx)
  {
    hide Stream, WireOk, Sim, QueueOk;
  }

  lemma JointStep(x: Node, y: Node, wx: WNode, wy: WNode, act: Action)
    requires Joint(x, y, wx, wy) && RecentAct(x, y, act)
    ensures Joint(Act(x, y, act), y, WAct(wx, wy, act), wy)
  {
    hide Stream, WireOk, Sim, QueueOk, Act, WAct, RecentAct;
    ActKeeps(x, y, act);
    ActOnWire(x, y, act);
    ActSim(x, y, wx, wy, act);
    ActQueue(x, y, act);
  }

  lemma LocalIsRecent(x: Node, y: Node, act: Action)
    requires !act.Deliver?
    ensures RecentAct(x, y, act)
  {
  }

  /** The ready list continues what was handed out, within what the peer accepted. */
  lemma JointReady(x: Node, y: Node, wx: WNode, wy: WNode)
    requires Joint(x, y, wx, wy)
    ensures var q := Ready(Word, wx.e.rcv);
            && (forall i :: 0 <= i < |q| ==> 0 < |q[i]| <= wy.e.cfg.mss)
            && wx.delivered + Flat(q) <= wy.accepted && q == Ready(Ideal, x.e.rcv)
    ensures wx.delivered <= wy.accepted
  {
    hide Ready, Top, NetOk, NothingLost;
    var r, log := x.e.rcv, y.log;
    ReadyIs(x.e.cfg.rcvWnd, r, log);
    ArrivedAtMost(y, x);
    ReadyCut(x.e.cfg.rcvWnd, r, log);
    var c, t := r.nxt - |r.queue|, Top(r);
    Stretch(log, r, x.delivered);
    FlatCut(log, c, t);
    FlatPrefix(log, t);
    FlatPrefix(log, c);
    StretchSized(y.e.cfg.mss, log, log[c..t]);
  }

  lemma StretchSized(mss: int, log: seq<seq<byte>>, part: seq<seq<byte>>)
    requires Sized(mss, log) && (forall s :: s in part ==> s in log)
    ensures forall i :: 0 <= i < |part| ==> 0 < |part[i]| <= mss
  {
    forall i | 0 <= i < |part| ensures 0 < |part[i]| <= mss {
      assert part[i] in part;
    }
  }

  lemma ArrivedAtMost(x: Node, y: Node)
    requires Stream(x, y)
    ensures |y.e.rcv.buf| <= y.e.cfg.rcvWnd
  {
    StreamWindows(x, y);
  }

  lemma FlatCut(log: seq<seq<byte>>, c: nat, t: nat)
    requires c <= t <= |log|
    ensures Flat(log[..c]) + Flat(log[c..t]) == Flat(log[..t])
  {
    assert log[..t] == log[..c] + log[c..t];
    FlatAppend(log[..c], log[c..t]);
  }

  /** What was handed out ends where the queue begins. */
  lemma Stretch(log: seq<seq<byte>>, r: Receiver, delivered: seq<byte>)
    requires QueueOk(log, r) && delivered + Payload(r.queue) == Flat(log[..r.nxt])
    ensures delivered == Flat(log[..r.nxt - |r.queue|])
  {
    var c := r.nxt - |r.queue|;
    FlatCut(log, c, r.nxt);
    assert Datas(r.queue) == log[c..r.nxt];
    PayloadIs(r.queue);
    SameFront(delivered, Flat(log[..c]), Payload(r.queue));
  }

  lemma {:induction false} PayloadIs(queue: seq<Received>)
    ensures Payload(queue) == Flat(Datas(queue))
  {
    if queue != [] {
      PayloadIs(queue[1..]);
      assert Datas(queue)[1..] == Datas(queue[1..]);
    }
  }

  lemma SameFront(a: seq<byte>, b: seq<byte>, c: seq<byte>)
    requires a + c == b + c
    ensures a == b
  {
    assert |a| == |b|;
    assert a == (a + c)[..|a|] && b == (b + c)[..|b|];
  }

  /** A datagram only adds to the ready list. */
  lemma JointDeliver(x: Node, y: Node, wx: WNode, wy: WNode, act: Action)
    requires Joint(x, y, wx, wy) && RecentAct(x, y, act) && act.Deliver?
    ensures var w := WAct(wx, wy, act);
            && Ready(Word, wx.e.rcv) <= Ready(Word, w.e.rcv) && w.delivered == wx.delivered
            && w.accepted == wx.accepted && w.out == wx.out && w.e.snd.queue == wx.e.snd.queue
  {
    hide Ready, Top, Stream, WireOk, RecentAct, QueueOk, Act, WAct, ReceiverOk, EncodePackets;
    JointStep(x, y, wx, wy, act);
    var x' := Act(x, y, act);
    JointReady(x, y, wx, wy);
    JointReady(x', y, WAct(wx, wy, act), wy);
    TopGrows(x, y, act);
    ReceivingOk(x, y);
    ReadyIs(x.e.cfg.rcvWnd, x.e.rcv, y.log);
    ReadyIs(x.e.cfg.rcvWnd, x'.e.rcv, y.log);
    Longer(y.log, x.e.rcv.nxt - |x.e.rcv.queue|, Top(x.e.rcv), Top(x'.e.rcv));
    DeliverLeaves(wx, wy, act);
  }

  lemma ReceivingOk(x: Node, y: Node)
    requires Stream(y, x)
    ensures ReceiverOk(x.e.cfg.rcvWnd, x.e.rcv, y.log)
  {
  }

  lemma DeliverLeaves(wx: WNode, wy: WNode, act: Action)
    requires act.Deliver?
    ensures var w := WAct(wx, wy, act);
            w.delivered == wx.delivered && w.accepted == wx.accepted && w.out == wx.out
  {
  }

  lemma Longer(log: seq<seq<byte>>, c: nat, t: nat, t': nat)
    requires c <= t <= t' <= |log|
    ensures log[c..t] <= log[c..t']
  {
  }

  lemma TopGrows(x: Node, y: Node, act: Action)
    requires Stream(x, y) && Stream(y, x) && QueueOk(y.log, x.e.rcv) && act.Deliver?
    ensures var x' := Act(x, y, act);
            && Top(x.e.rcv) <= Top(x'.e.rcv) && x'.e.cfg == x.e.cfg && x'.e.snd.queue == x.e.snd.queue
            && x'.e.rcv.nxt - |x'.e.rcv.queue| == x.e.rcv.nxt - |x.e.rcv.queue|
            && ReceiverOk(x.e.cfg.rcvWnd, x'.e.rcv, y.log) && QueueOk(y.log, x'.e.rcv)
  {
    hide Top, QueueOk, Input, ReceiverOk, SenderOk, NothingLost, NetOk, Grows, HonestPacket, Payload, Flat;
    var r, wnd := x.e.rcv, x.e.cfg.rcvWnd;
    if act.k < |y.out| {
      var p := y.out[act.k];
      SentHonest(x, y, act.k);
      InputQueue(x, y, p);
      InputKeeps(x, y, p);
      SameQueue(x, y, p);
      TopUp(wnd, r, Input(Ideal, x.e, p).rcv, y.log);
    }
  }

  lemma TopUp(wnd: int, r: Receiver, r': Receiver, log: seq<seq<byte>>)
    requires ReceiverOk(wnd, r, log) && ReceiverOk(wnd, r', log) && Grows(r, r')
    ensures Top(r) <= Top(r')
  {
    hide Top, ReceiverOk;
    TopIs(wnd, r, log);
    TopIs(wnd, r', log);
    assert Top(r') < Top(r) ==> Has(r, Top(r'));
  }

  lemma SameQueue(x: Node, peer: Node, segs: seq<Segment>)
    requires Stream(x, peer) && Stream(peer, x) && HonestPacket(peer.e.rcv, peer.log, segs)
    ensures Input(Ideal, x.e, segs).snd.queue == x.e.snd.queue && Input(Ideal, x.e, segs).cfg == x.e.cfg
  {
    assert Grows(x.e.rcv, x.e.rcv);
    TakeAllKeeps(x, peer, Intake(x.e, false, 0, 0), segs);
  }

  /** What one receive of a session does: it takes the first ready segment. */
  lemma JointRecv(x: Node, y: Node, wx: WNode, wy: WNode, act: Action)
    requires Joint(x, y, wx, wy) && act.RecvBytes? && act.cap >= 1500 && Ready(Word, wx.e.rcv) != []
    ensures var w, q := WAct(wx, wy, act), Ready(Word, wx.e.rcv);
            && w.delivered == wx.delivered + q[0] && Ready(Word, w.e.rcv) == q[1..]
            && w.accepted == wx.accepted && w.out == wx.out && w.e.snd == wx.e.snd
  {
    hide Following, WireOk, NetOk, NothingLost, Drain, KcpModel.Recv, SendOk, QueueOk, Ready;
    JointReady(x, y, wx, wy);
    var r, wr := x.e.rcv, wx.e.rcv;
    QueueFirst(x.e.cfg.rcvWnd, r);
    assert r.queue[0] in r.queue && wr.queue[0] == r.queue[0].(sn := U32(r.queue[0].sn));
    ReadyFirst(Word, wr);
    RecvReady(Word, x.e.cfg.rcvWnd, wr, act.cap);
  }

  lemma QueueFirst(wnd: int, r: Receiver)
    requires Drained(wnd, r) && wnd > 0 && Ready(Ideal, r) != []
    ensures r.queue != []
  {
  }

  lemma ReadyFirst(m: Arith, r: Receiver)
    requires r.queue != []
    ensures Ready(m, r) != [] && Ready(m, r)[0] == r.queue[0].data
  {
  }
}
