/** Order without any condition on acknowledgements. Over every run of the 32-bit
    program in which each data segment that passes the window test is really in the
    window, the bytes handed out are an initial part of the bytes accepted, however
    late every other datagram is and whatever it makes a sender forget. */
module KcpOrder {
  import opened Words
  import opened KcpModel
  import opened KcpWire
  import opened KcpLists
  import opened KcpBytes
  import opened KcpWrap
  import opened KcpSystem
  import opened KcpProgram
  import opened KcpLift
  import opened KcpRun

  // ---------------------------------------------------------------- the receiver

  /** Inside the window the program compares true numbers. */
  lemma CloseNumbers(x: int, y: int)
    requires -65536 <= x - y <= 65536
    ensures Diff(Lifted, x, y) == Diff(Ideal, x, y) == x - y && (Same(Lifted, x, y) <==> x == y)
  {
    DiffCut(x, y);
    WrapInjective(x, y);
  }

  lemma {:induction false} InsertAgrees(buf: seq<Received>, seg: Received)
    requires forall x :: x in buf ==> -65536 <= seg.sn - x.sn <= 65536
    ensures Insert(Lifted, buf, seg) == Insert(Ideal, buf, seg)
  {
    hide Diff;
    if buf != [] {
      var n := |buf| - 1;
      assert buf[n] in buf;
      CloseNumbers(seg.sn, buf[n].sn);
      InsertAgrees(buf[..n], seg);
    }
  }

  lemma {:induction false} DrainAgrees(wnd: int, r: Receiver)
    requires Ahead(r.nxt, r.buf)
    ensures Drain(Lifted, wnd, r) == Drain(Ideal, wnd, r)
    decreases |r.buf|
  {
    if r.buf != [] {
      assert r.buf[0] in r.buf;
      WrapInjective(r.buf[0].sn, r.nxt);
      if r.buf[0].sn == r.nxt && |r.queue| < wnd {
        AheadTail(r.nxt, r.buf);
        DrainAgrees(wnd, r.(nxt := r.nxt + 1, queue := r.queue + [r.buf[0]], buf := r.buf[1..]));
      }
    }
  }

  /** Acknowledgements do not matter to what is handed on. */
  lemma {:induction false} DrainBare(m: Arith, wnd: int, r: Receiver)
    ensures Bare(Drain(m, wnd, r)) == Bare(Drain(m, wnd, Bare(r)))
    decreases |r.buf|
  {
    if r.buf != [] && Same(m, r.buf[0].sn, r.nxt) && |r.queue| < wnd {
      DrainBare(m, wnd, r.(nxt := Num(m, r.nxt + 1), queue := r.queue + [r.buf[0]], buf := r.buf[1..]));
    }
  }

  lemma DrainAlike(m: Arith, wnd: int, r: Receiver, r': Receiver)
    requires Bare(r) == Bare(r')
    ensures Bare(Drain(m, wnd, r)) == Bare(Drain(m, wnd, r'))
  {
    DrainBare(m, wnd, r);
    DrainBare(m, wnd, r');
  }

  /** A data segment that is in the window if the window test says so. */
  ghost predicate InPlace(wnd: int, r: Receiver, s: Segment) {
    U32(s.sn - r.nxt) < wnd ==> r.nxt <= s.sn < r.nxt + wnd
  }

  /** It is stored as in the unbounded system, or not at all. */
  lemma PushInPlace(wnd: int, r: Receiver, log: seq<seq<byte>>, s: Segment)
    requires 0 < wnd <= 65536 && ReceiverOk(wnd, Bare(r), log) && 0 <= s.sn < |log| && InPlace(wnd, r, s)
    ensures var d := Bare(ParsePush(Lifted, wnd, r, s));
            d == Bare(r) || d == Bare(ParsePush(Ideal, wnd, Bare(r), s))
  {
    hide Diff, Drain, Insert;
    AdmitsModulo(wnd, r.nxt, s.sn);
    if U32(s.sn - r.nxt) < wnd {
      var seg := Received(s.sn, s.frg, s.data);
      assert r.buf == Bare(r).buf;
      InsertAgrees(r.buf, seg);
      InsertKeeps(r.buf, seg);
      var buf, a := Insert(Ideal, r.buf, seg), Ack(s.sn, s.ts);
      assert Ahead(r.nxt, buf);
      var r1, r2 := r.(acks := r.acks + [a], buf := buf), Bare(r).(acks := [] + [a], buf := buf);
      DrainAgrees(wnd, r1);
      DrainAlike(Ideal, wnd, r1, r2);
      CloseNumbers(s.sn, r.nxt);
      CloseNumbers(s.sn, r.nxt + wnd);
    }
  }

  // ---------------------------------------------------------------- weaker invariant

  ghost predicate GenuineData(log: seq<seq<byte>>, s: Segment) {
    s.cmd == CMD_PUSH ==> 0 <= s.sn < |log| && s.data == log[s.sn] && s.frg == 0
  }

  ghost predicate GenuinePacket(log: seq<seq<byte>>, p: seq<Segment>) {
    forall s :: s in p ==> GenuineData(log, s)
  }

  ghost predicate GenuineNet(x: Node) { forall p :: p in x.out ==> GenuinePacket(x.log, p) }

  /** What a receiver keeps whose acknowledgements nobody trusts. */
  ghost predicate Hears(log: seq<seq<byte>>, wnd: int, r: Receiver, delivered: seq<byte>) {
    && ReceiverOk(wnd, Bare(r), log) && Drained(wnd, r)
    && delivered + Payload(r.queue) == Flat(log[..r.nxt])
  }

  /** What is left of `Stream` when acknowledgements can lie: nothing about what the
      sender has forgotten, all about what the receiver hands out. */
  ghost predicate Ordered(x: Node, y: Node) {
    SendOk(x) && Hears(x.log, y.e.cfg.rcvWnd, y.e.rcv, y.delivered) && GenuineNet(x)
  }

  lemma OrderedPrefix(x: Node, y: Node)
    requires Ordered(x, y)
    ensures y.delivered <= x.accepted
  {
    FlatPrefix(x.log, y.e.rcv.nxt);
  }

  // ---------------------------------------------------------------- input

  ghost predicate AllInPlace(st: Intake, segs: seq<Segment>)
    decreases |segs|
  {
    segs == [] ||
    ((segs[0].cmd == CMD_PUSH ==> InPlace(st.e.cfg.rcvWnd, st.e.rcv, segs[0]))
     && AllInPlace(TakeSegment(Lifted, st, segs[0]), segs[1..]))
  }

  /** What holds of endpoint `e` half-way through a packet from `peer`. */
  ghost predicate Passing(x: Node, peer: Node, e: Endpoint) {
    && e.cfg == x.e.cfg && Narrower(x.e.snd, e.snd, x.log)
    && Hears(peer.log, e.cfg.rcvWnd, e.rcv, x.delivered)
  }

  lemma PushHears(log: seq<seq<byte>>, wnd: int, r: Receiver, delivered: seq<byte>, s: Segment)
    requires 0 < wnd <= 65536 && Hears(log, wnd, r, delivered)
    requires s.cmd == CMD_PUSH && GenuineData(log, s) && InPlace(wnd, r, s)
    ensures Hears(log, wnd, ParsePush(Lifted, wnd, r, s), delivered)
  {
    hide ParsePush, Flat, Payload;
    PushInPlace(wnd, r, log, s);
    PushKeeps(wnd, Bare(r), log, s);
    HandsStream(log, Bare(r), ParsePush(Ideal, wnd, Bare(r), s), delivered);
  }

  lemma TakeOnePasses(x: Node, peer: Node, st: Intake, s: Segment)
    requires Passing(x, peer, st.e) && GenuineData(peer.log, s)
    requires s.cmd == CMD_PUSH ==> InPlace(st.e.cfg.rcvWnd, st.e.rcv, s)
    ensures Passing(x, peer, TakeSegment(Lifted, st, s).e)
  {
    hide ParsePush, ParseUna, ParseAck, Hears, SenderOk, UpdateAck, InPlace;
    var e := st.e;
    UnaNarrows(Lifted, e.snd, x.log, s.una);
    var s1 := ParseUna(Lifted, e.snd, s.una);
    if s.cmd == CMD_ACK {
      AckNarrows(Lifted, s1, x.log, s.sn);
    } else if s.cmd == CMD_PUSH {
      PushHears(peer.log, e.cfg.rcvWnd, e.rcv, x.delivered, s);
    }
  }

  lemma {:induction false} TakeAllPass(x: Node, peer: Node, st: Intake, segs: seq<Segment>)
    requires Passing(x, peer, st.e) && GenuinePacket(peer.log, segs) && AllInPlace(st, segs)
    ensures Passing(x, peer, TakeSegments(Lifted, st, segs).e)
    decreases |segs|
  {
    hide Passing, GenuineData, InPlace, TakeSegment;
    if segs != [] {
      TakeOnePasses(x, peer, st, segs[0]);
      TakeAllPass(x, peer, TakeSegment(Lifted, st, segs[0]), segs[1..]);
    }
  }

  lemma InputPasses(x: Node, peer: Node, segs: seq<Segment>)
    requires Ordered(x, peer) && Ordered(peer, x)
    requires GenuinePacket(peer.log, segs) && AllInPlace(Intake(x.e, false, 0, 0), segs)
    ensures Passing(x, peer, Input(Lifted, x.e, segs))
  {
    hide TakeSegments, ParseFastack, Hears, GrowCwnd;
    var st0 := Intake(x.e, false, 0, 0);
    TakeAllPass(x, peer, st0, segs);
    var st := TakeSegments(Lifted, st0, segs);
    FastackNarrows(Lifted, st.e.snd, x.log, st.maxAck, st.latestTs);
  }

  // ---------------------------------------------------------------- flush

  lemma HearsMore(log: seq<seq<byte>>, log': seq<seq<byte>>, wnd: int, r: Receiver, delivered: seq<byte>)
    requires Hears(log, wnd, r, delivered) && log <= log'
    ensures Hears(log', wnd, r, delivered)
  {
    assert log'[..r.nxt] == log[..r.nxt];
  }

  lemma GenuineMore(log: seq<seq<byte>>, log': seq<seq<byte>>, p: seq<Segment>)
    requires GenuinePacket(log, p) && log <= log'
    ensures GenuinePacket(log', p)
  {
    forall s | s in p ensures GenuineData(log', s) {
      assert GenuineData(log, s);
    }
  }

  lemma EmitGenuine(x: Node, x': Node, segs: seq<Segment>)
    requires GenuineNet(x) && x.log <= x'.log && GenuinePacket(x'.log, segs)
    requires forall s :: s in segs ==> SegmentSize(s) <= x.e.cfg.mtu
    requires x'.out == x.out + Packets(x.e.cfg.mtu, segs)
    ensures GenuineNet(x')
  {
    hide Packets, GenuineData;
    PacketsSpec(x.e.cfg.mtu, segs);
    var ps := Packets(x.e.cfg.mtu, segs);
    forall p | p in x'.out ensures GenuinePacket(x'.log, p) {
      if p in x.out {
        GenuineMore(x.log, x'.log, p);
      } else {
        assert p in ps;
        forall s | s in p ensures GenuineData(x'.log, s) {
          JoinMember(ps, s);
        }
      }
    }
  }

  /** A flush keeps order in both directions, whatever the clock and window state is. */
  lemma EmitOrdered(x: Node, peer: Node, e: Endpoint)
    requires Ordered(x, peer) && Ordered(peer, x) && e == x.e.(pace := e.pace)
    ensures var x' := Emit(x, Flush(Ideal, e)); Ordered(x', peer) && Ordered(peer, x')
    ensures Emit(x, Flush(Ideal, e)).e.cfg == x.e.cfg
  {
    hide Flush, SenderOk, Sized, Flat, ReceiverOk, Payload, Packets, NothingLost, GenuineNet;
    var f, b := Flush(Ideal, e), e.(rcv := Bare(e.rcv));
    var x' := Emit(x, f);
    FlushBare(e);
    FirstNumber(peer.log, x.e.cfg.rcvWnd, x.e.rcv);
    var k, log' := FlushAlone(b, x.log);
    EmitSendBare(x, b, f, Flush(Ideal, b), log', k);
    HearsMore(x.log, log', peer.e.cfg.rcvWnd, peer.e.rcv, peer.delivered);
    EmitGenuine(x, x', f.out);
  }

  lemma FirstNumber(log: seq<seq<byte>>, wnd: int, r: Receiver)
    requires ReceiverOk(wnd, Bare(r), log)
    ensures 0 <= r.nxt
  {
  }

  // ---------------------------------------------------------------- one action

  /** Every data segment of a delivery that passes the window test is in the window. */
  ghost predicate PlacedAct(x: Node, peer: Node, act: Action) {
    act.Deliver? && act.k < |peer.out| ==> AllInPlace(Intake(x.e, false, 0, 0), peer.out[act.k])
  }

  lemma RecvBare(wnd: int, r: Receiver, cap: int)
    ensures var a, b := Recv(Ideal, wnd, r, cap), Recv(Ideal, wnd, Bare(r), cap);
            a == b.(rcv := a.rcv) && Bare(a.rcv) == Bare(b.rcv)
  {
    hide Drain, Payload, MessageSpan;
    var queue := r.queue[MessageSpan(r.queue)..];
    DrainAlike(Ideal, wnd, r.(queue := queue), Bare(r).(queue := queue));
  }

  lemma SendOrdered(x: Node, peer: Node, act: Action)
    requires Ordered(x, peer) && Ordered(peer, x) && act.SendBytes?
    ensures var x' := Act(x, peer, act); Ordered(x', peer) && Ordered(peer, x')
  {
    hide Flat, SenderOk, ReceiverOk, Payload, Send;
    var r := Send(x.e.cfg.mss, x.e.snd.queue, act.data);
    SendSpec(x.e.cfg.mss, x.e.snd.queue, act.data);
    var more := act.data[..Max(r.ret, 0)];
    Associate(Flat(x.log), Flat(x.e.snd.queue), more);
    QueueKept(x.e.snd, r.queue, x.log);
  }

  /** Nothing held is out of place, so that receiving is as in the unbounded system. */
  lemma RecvAgrees(wnd: int, r: Receiver, log: seq<seq<byte>>, cap: int)
    requires 0 < wnd <= 65536 && ReceiverOk(wnd, Bare(r), log)
    ensures Recv(Lifted, wnd, r, cap) == Recv(Ideal, wnd, r, cap)
  {
    hide Drain, Payload;
    assert r.buf == Bare(r).buf;
    DrainAgrees(wnd, r.(queue := r.queue[MessageSpan(r.queue)..]));
  }

  lemma RecvHears(log: seq<seq<byte>>, x: Node, cap: int)
    requires Hears(log, x.e.cfg.rcvWnd, x.e.rcv, x.delivered)
    ensures var r := Recv(Lifted, x.e.cfg.rcvWnd, x.e.rcv, cap);
            Hears(log, x.e.cfg.rcvWnd, r.rcv, x.delivered + r.data)
  {
    hide Flat, ReceiverOk, Payload, KcpModel.Recv;
    var wnd, bare := x.e.cfg.rcvWnd, Bare(x.e.rcv);
    RecvAgrees(wnd, x.e.rcv, log, cap);
    RecvKeeps(log, x.(e := x.e.(rcv := bare)), x, cap);
    RecvBare(wnd, x.e.rcv, cap);
    RecvKeepsAcks(Ideal, wnd, bare, cap);
    assert Recv(Ideal, wnd, bare, cap).rcv == Bare(Recv(Ideal, wnd, bare, cap).rcv);
  }

  lemma RecvOrdered(x: Node, peer: Node, act: Action)
    requires Ordered(x, peer) && Ordered(peer, x) && act.RecvBytes?
    ensures var x' := LiftedAct(x, peer, act); Ordered(x', peer) && Ordered(peer, x')
  {
    hide Hears, SenderOk, GenuinePacket, Flat, KcpModel.Recv, Sized;
    RecvHears(peer.log, x, act.cap);
  }

  lemma UpdateOrdered(x: Node, peer: Node, now: Time)
    requires Ordered(x, peer) && Ordered(peer, x)
    ensures var x' := Emit(x, Update(Ideal, x.e, now)); Ordered(x', peer) && Ordered(peer, x') && x'.e.cfg == x.e.cfg
  {
    hide Flush, SendOk, Hears, GenuineNet;
    var t := TickAt(x.e.cfg, x.e.pace, now);
    var e := x.e.(pace := x.e.pace.(current := now, updated := true, tsFlush := t.tsFlush));
    if t.flush {
      EmitOrdered(x, peer, e);
    } else {
      EmitNothing(x, e);
      PaceKept(x, e.pace);
    }
  }

  lemma PaceKept(x: Node, p: Pace)
    requires SendOk(x) && GenuineNet(x)
    ensures SendOk(x.(e := x.e.(pace := p))) && GenuineNet(x.(e := x.e.(pace := p)))
  {
  }

  lemma DeliverOrdered(x: Node, peer: Node, act: Action)
    requires Ordered(x, peer) && Ordered(peer, x) && act.Deliver? && PlacedAct(x, peer, act)
    ensures var x' := LiftedAct(x, peer, act); Ordered(x', peer) && Ordered(peer, x') && x'.e.cfg == x.e.cfg
  {
    hide Input, AllInPlace, SenderOk, Hears, GenuinePacket, Flat, Sized;
    if act.k < |peer.out| {
      assert peer.out[act.k] in peer.out;
      InputPasses(x, peer, peer.out[act.k]);
    }
  }

  lemma ActOrdered(x: Node, peer: Node, act: Action)
    requires Ordered(x, peer) && Ordered(peer, x) && PlacedAct(x, peer, act)
    ensures var x' := LiftedAct(x, peer, act); Ordered(x', peer) && Ordered(peer, x') && x'.e.cfg == x.e.cfg
  {
    hide Ordered, Update, Flush, Send, KcpModel.Recv, Input, Emit, PlacedAct;
    match act
    case SendBytes(_, _) => SendOrdered(x, peer, act);
    case RecvBytes(_, _) => RecvOrdered(x, peer, act);
    case UpdateAt(_, now) => UpdateOrdered(x, peer, now);
    case FlushNow(_) => EmitOrdered(x, peer, x.e);
    case Deliver(_, _, _) => DeliverOrdered(x, peer, act);
  }

  // ---------------------------------------------------------------- every run

  /** Over the run, every data segment that passes the window test is in the window. */
  ghost predicate PlacedRun(s: System, acts: seq<Action>)
    decreases |acts|
  {
    acts == [] ||
    ((if acts[0].who.Left? then PlacedAct(s.left, s.right, acts[0]) else PlacedAct(s.right, s.left, acts[0]))
     && PlacedRun(LiftedStep(s, acts[0]), acts[1..]))
  }

  ghost predicate Paired(s: System, w: WSystem) {
    Ordered(s.left, s.right) && Ordered(s.right, s.left) && Matched(s, w)
  }

  lemma StepPaired(s: System, w: WSystem, act: Action)
    requires Paired(s, w)
    requires if act.who.Left? then PlacedAct(s.left, s.right, act) else PlacedAct(s.right, s.left, act)
    ensures Paired(LiftedStep(s, act), WStep(w, act))
  {
    hide Ordered, Matched, LiftedAct, WAct, PlacedAct;
    StepMatched(s, w, act);
    if act.who.Left? {
      ActOrdered(s.left, s.right, act);
    } else {
      ActOrdered(s.right, s.left, act);
    }
  }

  lemma {:induction false} RunOrdered(s: System, w: WSystem, acts: seq<Action>)
    requires Paired(s, w) && PlacedRun(s, acts)
    ensures var v := WRun(w, acts); v.right.delivered <= v.left.accepted && v.left.delivered <= v.right.accepted
    decreases |acts|
  {
    hide Ordered, Sane, LiftedStep, WStep, PlacedAct;
    if acts == [] {
      OrderedPrefix(s.left, s.right);
      OrderedPrefix(s.right, s.left);
    } else {
      StepPaired(s, w, acts[0]);
      RunOrdered(LiftedStep(s, acts[0]), WStep(w, acts[0]), acts[1..]);
    }
  }

  lemma StartPaired(left: Config, right: Config)
    requires left.conv == right.conv
    ensures Paired(Initial(left, right), WInitial(left, right))
  {
    hide Matched;
    StartMatched(left, right);
  }

  /** Over every run of the program in which each data segment that passes the window
      test is in the window, the bytes handed to each user are an initial part of the
      bytes accepted from the other. Nothing is asked of acknowledgements, probes and
      window announcements: they can be of any age. */
  lemma ProgramKeepsOrder(left: Config, right: Config, acts: seq<Action>)
    requires left.conv == right.conv && PlacedRun(Initial(left, right), acts)
    ensures var w := WRun(WInitial(left, right), acts);
            && w.right.delivered <= w.left.accepted
            && w.left.delivered <= w.right.accepted
  {
    hide Ordered, Matched, WRun, PlacedRun;
    StartPaired(left, right);
    RunOrdered(Initial(left, right), WInitial(left, right), acts);
  }

  // ---------------------------------------------------------------- out of place

  /** Numbers that agree modulo 2^32 compare alike. */
  lemma CongruentDiff(x: int, y: int, z: int)
    requires U32(x - y) == 0
    ensures U32(x) == U32(y) && Diff(Lifted, x, z) == Diff(Lifted, y, z)
  {
    var q := (x - y) / W32;
    assert x == y + q * W32;
    ModShift(y, q);
    assert x - z == y - z + q * W32;
    ModShift(y - z, q);
    DiffCut(x, z);
    DiffCut(y, z);
  }

  lemma {:induction false} InsertFront(buf: seq<Received>, seg: Received)
    requires forall x :: x in buf ==> !Same(Lifted, x.sn, seg.sn) && Diff(Lifted, seg.sn, x.sn) < 0
    ensures Insert(Lifted, buf, seg) == [seg] + buf
  {
    if buf != [] {
      var n := |buf| - 1;
      assert buf[n] in buf;
      InsertFront(buf[..n], seg);
      assert buf == buf[..n] + [buf[n]];
    }
  }

  /** Everything held is behind the number that is expected. */
  lemma HeldBehind(wnd: int, r: Receiver, log: seq<seq<byte>>, sn: int)
    requires 0 < wnd <= 65536 && ReceiverOk(wnd, Bare(r), log) && Drained(wnd, r) && |r.queue| < wnd
    requires U32(sn - r.nxt) == 0
    ensures forall x :: x in r.buf ==> !Same(Lifted, x.sn, sn) && Diff(Lifted, sn, x.sn) < 0
  {
    hide Diff;
    forall x | x in r.buf ensures !Same(Lifted, x.sn, sn) && Diff(Lifted, sn, x.sn) < 0 {
      var i :| 0 <= i < |r.buf| && r.buf[i] == x;
      assert r.buf[0] in Bare(r).buf && x in Bare(r).buf;
      assert i == 0 || r.buf[0].sn < r.buf[i].sn;
      CongruentDiff(sn, r.nxt, x.sn);
      CloseNumbers(r.nxt, x.sn);
    }
  }

  lemma DrainFirst(wnd: int, r: Receiver, seg: Received, rest: seq<Received>)
    requires r.buf == [seg] + rest && U32(seg.sn) == U32(r.nxt) && |r.queue| < wnd
    ensures var d := Drain(Lifted, wnd, r); d.nxt > r.nxt && r.queue + [seg] <= d.queue
  {
    DrainOnward(wnd, r.(nxt := r.nxt + 1, queue := r.queue + [seg], buf := r.buf[1..]));
  }

  /** A data segment whose number is the expected one modulo 2^32 is handed on as the
      expected one, whatever its true number. The bytes then still follow the sender's
      exactly when its payload is that of the expected number. */
  lemma MisplacedIsHandedOn(log: seq<seq<byte>>, wnd: int, r: Receiver, delivered: seq<byte>, s: Segment)
    requires 0 < wnd <= 65536 && Hears(log, wnd, r, delivered) && |r.queue| < wnd && r.nxt < |log|
    requires U32(s.sn - r.nxt) == 0
    ensures var d, n := ParsePush(Lifted, wnd, r, s), |r.queue|;
            && d.nxt > r.nxt && n < |d.queue| && d.queue[n] == Received(s.sn, s.frg, s.data)
            && (delivered + Payload(d.queue[..n + 1]) == Flat(log[..r.nxt + 1]) <==> s.data == log[r.nxt])
  {
    hide Diff, Drain, Insert, Flat, Payload;
    var seg := Received(s.sn, s.frg, s.data);
    AdmitsModulo(wnd, r.nxt, s.sn);
    HeldBehind(wnd, r, log, s.sn);
    InsertFront(r.buf, seg);
    CongruentDiff(s.sn, r.nxt, r.nxt);
    DrainFirst(wnd, r.(acks := r.acks + [Ack(s.sn, s.ts)], buf := [seg] + r.buf), seg, r.buf);
    var d, n := ParsePush(Lifted, wnd, r, s), |r.queue|;
    assert d.queue[..n + 1] == r.queue + [seg];
    HandedBytes(log, r.nxt, r.queue, delivered, seg);
  }

  lemma HandedBytes(log: seq<seq<byte>>, nxt: int, queue: seq<Received>, delivered: seq<byte>, seg: Received)
    requires 0 <= nxt < |log| && delivered + Payload(queue) == Flat(log[..nxt])
    ensures delivered + Payload(queue + [seg]) == Flat(log[..nxt + 1]) <==> seg.data == log[nxt]
  {
    PayloadAppend(queue, [seg]);
    assert Payload([seg]) == seg.data + Payload([]) == seg.data;
    assert log[..nxt + 1] == log[..nxt] + [log[nxt]];
    FlatAppend(log[..nxt], [log[nxt]]);
    assert Flat([log[nxt]]) == log[nxt] + Flat([]) == log[nxt];
    Associate(delivered, Payload(queue), seg.data);
    SameTail(Flat(log[..nxt]), seg.data, log[nxt]);
  }

  lemma SameTail(head: seq<byte>, a: seq<byte>, b: seq<byte>)
    ensures head + a == head + b <==> a == b
  {
    if head + a == head + b {
      assert a == (head + a)[|head|..] == (head + b)[|head|..] == b;
    }
  }
}
