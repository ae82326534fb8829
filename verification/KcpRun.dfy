/** Every run of the 32-bit program, with datagrams of any age, is the truncation of a
    run on unbounded numbers that compares them as the program does. What its senders
    keep in every such run is proved here. */
module KcpRun {
  import opened Words
  import opened KcpModel
  import opened KcpWire
  import opened KcpLists
  import opened KcpBytes
  import opened KcpWrap
  import opened KcpSystem
  import opened KcpProgram
  import opened KcpLift

  // ---------------------------------------------------------------- the sender

  lemma {:induction false} DropBeforeSuffix(m: Arith, buf: seq<InFlight>, una: int) returns (k: nat)
    ensures k <= |buf| && DropBefore(m, buf, una) == buf[k..]
  {
    hide Diff;
    if buf != [] && Diff(m, una, buf[0].sn) > 0 {
      var j := DropBeforeSuffix(m, buf[1..], una);
      k := j + 1;
      assert buf[1..][j..] == buf[k..];
    } else {
      k := 0;
    }
  }

  lemma {:induction false} DropOneLess(m: Arith, buf: seq<InFlight>, sn: int) returns (k: nat)
    ensures k <= |buf| && DropOne(m, buf, sn) == if k < |buf| then buf[..k] + buf[k + 1..] else buf
  {
    hide Diff, Same;
    if buf == [] || (!Same(m, buf[0].sn, sn) && Diff(m, sn, buf[0].sn) < 0) {
      k := |buf|;
    } else if Same(m, buf[0].sn, sn) {
      k := 0;
      assert buf[..0] + buf[1..] == buf[1..];
    } else {
      var rest := buf[1..];
      var j := DropOneLess(m, rest, sn);
      k := j + 1;
      if j < |rest| {
        CutCons(buf, j);
      } else {
        assert [buf[0]] + rest == buf;
      }
    }
  }

  /** `t` is `s` after acknowledgements: some of its buffer is gone. */
  ghost predicate Narrower(s: Sender, t: Sender, log: seq<seq<byte>>) {
    SenderOk(t, log) && t.nxt == s.nxt && t.queue == s.queue && s.una <= t.una <= s.nxt
  }

  lemma Narrow(s: Sender, buf: seq<InFlight>, log: seq<seq<byte>>)
    requires SenderOk(s, log) && SortedFlight(buf) && (forall x :: x in buf ==> x in s.buf)
    ensures Narrower(s, Shrink(s.(buf := buf)), log)
  {
    if buf != [] {
      assert buf[0] in buf;
      var i :| 0 <= i < |s.buf| && s.buf[i] == buf[0];
      assert s.buf[0].sn <= s.buf[i].sn;
    }
  }

  lemma UnaNarrows(m: Arith, s: Sender, log: seq<seq<byte>>, una: int)
    requires SenderOk(s, log)
    ensures Narrower(s, ParseUna(m, s, una), log)
  {
    var k := DropBeforeSuffix(m, s.buf, una);
    Narrow(s, s.buf[k..], log);
  }

  lemma AckNarrows(m: Arith, s: Sender, log: seq<seq<byte>>, sn: int)
    requires SenderOk(s, log)
    ensures Narrower(s, ParseAck(m, s, sn), log)
  {
    var k := DropOneLess(m, s.buf, sn);
    if InSendWindow(m, s, sn) && k < |s.buf| {
      CutKeeps(s.buf, k);
      Narrow(s, s.buf[..k] + s.buf[k + 1..], log);
    } else {
      Narrow(s, s.buf, log);
    }
  }

  lemma FastackNarrows(m: Arith, s: Sender, log: seq<seq<byte>>, sn: int, ts: int)
    requires SenderOk(s, log)
    ensures Narrower(s, ParseFastack(m, s, sn, ts), log)
  {
    SkippedSpec(m, s.buf, sn, ts);
    var buf := Skipped(m, s.buf, sn, ts);
    forall x | x in buf ensures 0 <= x.sn < |log| && x.data == log[x.sn] {
      var i :| 0 <= i < |buf| && buf[i] == x;
      assert s.buf[i] in s.buf;
    }
  }

  // ---------------------------------------------------------------- runs

  /** An action of the system that compares numbers as the program does. */
  function LiftedAct(x: Node, peer: Node, act: Action): Node {
    match act
    case RecvBytes(_, cap) =>
      var r := Recv(Lifted, x.e.cfg.rcvWnd, x.e.rcv, cap);
      x.(e := x.e.(rcv := r.rcv, pace := x.e.pace.(tell := x.e.pace.tell || r.tell)),
         delivered := x.delivered + r.data)
    case Deliver(_, k, _) =>
      if k < |peer.out| then x.(e := Input(Lifted, x.e, peer.out[k])) else x
    case _ => Act(x, peer, act)
  }

  function LiftedStep(s: System, act: Action): System {
    if act.who.Left? then s.(left := LiftedAct(s.left, s.right, act))
    else s.(right := LiftedAct(s.right, s.left, act))
  }

  function LiftedRun(s: System, acts: seq<Action>): System
    decreases |acts|
  {
    if acts == [] then s else LiftedRun(LiftedStep(s, acts[0]), acts[1..])
  }

  /** What every node keeps, whatever arrives. */
  ghost predicate Sane(x: Node) { SendOk(x) && WireOk(x) && 0 <= x.e.rcv.nxt }

  // ---------------------------------------------------------------- input

  lemma PushOnward(wnd: int, r: Receiver, s: Segment)
    ensures ParsePush(Lifted, wnd, r, s).nxt >= r.nxt
  {
    hide Diff, Insert;
    DrainOnward(wnd, r.(acks := r.acks + [Ack(s.sn, s.ts)], buf := Insert(Lifted, r.buf, Received(s.sn, s.frg, s.data))));
  }

  lemma {:induction false} DrainOnward(wnd: int, r: Receiver)
    ensures var d := Drain(Lifted, wnd, r); d.nxt >= r.nxt && r.queue <= d.queue
    decreases |r.buf|
  {
    if r.buf != [] && Same(Lifted, r.buf[0].sn, r.nxt) && |r.queue| < wnd {
      DrainOnward(wnd, r.(nxt := r.nxt + 1, queue := r.queue + [r.buf[0]], buf := r.buf[1..]));
    }
  }

  /** Half-way through a packet. */
  ghost predicate Intaking(e: Endpoint, e': Endpoint, log: seq<seq<byte>>) {
    e'.cfg == e.cfg && Narrower(e.snd, e'.snd, log) && e.rcv.nxt <= e'.rcv.nxt
  }

  lemma {:induction false} TakeAllNarrows(e: Endpoint, st: Intake, segs: seq<Segment>, log: seq<seq<byte>>)
    requires Intaking(e, st.e, log)
    ensures Intaking(e, TakeSegments(Lifted, st, segs).e, log)
    decreases |segs|
  {
    hide ParsePush, ParseUna, ParseAck, SenderOk, UpdateAck;
    if segs != [] {
      var s := segs[0];
      UnaNarrows(Lifted, st.e.snd, log, s.una);
      AckNarrows(Lifted, ParseUna(Lifted, st.e.snd, s.una), log, s.sn);
      PushOnward(st.e.cfg.rcvWnd, st.e.rcv, s);
      TakeAllNarrows(e, TakeSegment(Lifted, st, s), segs[1..], log);
    }
  }

  lemma InputNarrows(e: Endpoint, segs: seq<Segment>, log: seq<seq<byte>>)
    requires SenderOk(e.snd, log) && e.snd.una <= e.snd.nxt
    ensures Intaking(e, Input(Lifted, e, segs), log)
  {
    hide TakeSegments, ParseFastack, GrowCwnd, SenderOk;
    var st0 := Intake(e, false, 0, 0);
    TakeAllNarrows(e, st0, segs, log);
    var st := TakeSegments(Lifted, st0, segs);
    FastackNarrows(Lifted, st.e.snd, log, st.maxAck, st.latestTs);
  }

  // ---------------------------------------------------------------- flush

  /** A receiver without its pending acknowledgements. */
  function Bare(r: Receiver): Receiver { r.(acks := []) }

  /** A receiver that has everything: nothing is lost against it. */
  function HasAll(log: seq<seq<byte>>): Receiver { Receiver(|log|, [], [], []) }

  /** Pending acknowledgements change a flush only in its control segments. */
  lemma FlushBare(e: Endpoint)
    ensures var f, b := Flush(Ideal, e), Flush(Ideal, e.(rcv := Bare(e.rcv)));
            && f.e.snd == b.e.snd && f.e.cfg == b.e.cfg == e.cfg && Bare(f.e.rcv) == Bare(e.rcv)
            && (forall s :: s in f.out ==> s in b.out || (s.cmd != CMD_PUSH && s.data == []))
  {
    hide Fill, TransmitAll, AfterFlush, AckSegments, Probe, Window;
    var hdr, acks := Header(e), e.rcv.acks;
    assert Header(e.(rcv := Bare(e.rcv))) == hdr;
    AckSizes(hdr, acks);
    AcksAreAcks(hdr, acks);
    forall s | s in ControlSegments(hdr, acks, Probe(e.pace)) ensures s.cmd != CMD_PUSH && s.data == [] {}
  }

  lemma {:induction false} AcksAreAcks(hdr: Segment, acks: seq<Ack>)
    requires hdr.cmd == CMD_ACK
    ensures forall s :: s in AckSegments(hdr, acks) ==> s.cmd == CMD_ACK
  {
    if acks != [] {
      AcksAreAcks(hdr, acks[..|acks| - 1]);
    }
  }

  lemma FlushAlone(e: Endpoint, log: seq<seq<byte>>) returns (k: nat, log': seq<seq<byte>>)
    requires SenderOk(e.snd, log) && Sized(e.cfg.mss, log) && Sized(e.cfg.mss, e.snd.queue)
    requires 0 <= e.rcv.nxt && e.rcv.acks == []
    ensures Flushed(e, Flush(Ideal, e), log, log', HasAll(log), k)
  {
    hide Flush, SenderOk, Sized;
    assert NothingLost(e.snd, HasAll(log)) by {
      assert e.snd.nxt == |log| by { SenderNext(e.snd, log); }
    }
    k, log' := FlushKeeps(e, log, HasAll(log));
  }

  lemma SenderNext(s: Sender, log: seq<seq<byte>>)
    requires SenderOk(s, log)
    ensures s.nxt == |log|
  {
  }

  /** The send side after a flush is that of a flush without acknowledgements. */
  lemma EmitSendBare(x: Node, e: Endpoint, f: FlushResult, b: FlushResult, log': seq<seq<byte>>, k: nat)
    requires SendOk(x) && e.snd == x.e.snd && e.cfg == x.e.cfg == f.e.cfg == b.e.cfg && f.e.snd == b.e.snd
    requires Flushed(e, b, x.log, log', HasAll(x.log), k)
    ensures Emit(x, f).log == log' && SendOk(Emit(x, f)) && x.log <= log'
  {
    hide SenderOk, Sized, Flat, Packets, HonestPacket, NothingLost;
    EmitSend(x.(e := e), x.(e := e.(rcv := HasAll(x.log))), b, log', k);
  }

  lemma QueueKept(s: Sender, queue: seq<seq<byte>>, log: seq<seq<byte>>)
    requires SenderOk(s, log)
    ensures SenderOk(s.(queue := queue), log)
  {
  }

  lemma SenderSpan(x: Node)
    requires SendOk(x)
    ensures x.e.snd.una <= x.e.snd.nxt <= x.e.snd.una + 65536
  {
    assert x.e.snd.buf != [] ==> x.e.snd.buf[0] in x.e.snd.buf;
  }

  lemma EmitWire(x: Node, e: Endpoint)
    requires SendOk(x) && WireOk(x) && 0 <= x.e.rcv.nxt
    requires e == x.e.(pace := e.pace) && EndpointOnWire(e)
    ensures WireOk(Emit(x, Flush(Ideal, e)))
  {
    hide Flush, SenderOk, Sized, Flat, Packets, NothingLost, OnWire, HonestPacket;
    var f, b := Flush(Ideal, e), e.(rcv := Bare(e.rcv));
    FlushBare(e);
    var k, log' := FlushAlone(b, x.log);
    NoneMissing(e.snd, x.log);
    FlushOnWire(e, x.log, HasAll(x.log));
    PacketsOnWire(x.e.cfg.conv, x.e.cfg.mtu, f.out);
  }

  lemma NoneMissing(s: Sender, log: seq<seq<byte>>)
    requires SenderOk(s, log)
    ensures NothingLost(s, HasAll(log))
  {
  }

  lemma EmitSane(x: Node, e: Endpoint)
    requires Sane(x) && e == x.e.(pace := e.pace) && EndpointOnWire(e)
    ensures var x' := Emit(x, Flush(Ideal, e)); Sane(x') && x'.e.cfg == x.e.cfg && x.log <= x'.log
  {
    hide Flush, SenderOk, Sized, Flat, Packets, NothingLost, WireOk, HonestPacket;
    var f, b := Flush(Ideal, e), e.(rcv := Bare(e.rcv));
    FlushBare(e);
    var k, log' := FlushAlone(b, x.log);
    EmitSendBare(x, b, f, Flush(Ideal, b), log', k);
    EmitWire(x, e);
  }

  // ---------------------------------------------------------------- one action

  lemma SendSane(x: Node, peer: Node, act: Action)
    requires Sane(x) && act.SendBytes?
    ensures Sane(Act(x, peer, act))
  {
    hide Flat, SenderOk, Send, PacketOnWire;
    var r := Send(x.e.cfg.mss, x.e.snd.queue, act.data);
    SendSpec(x.e.cfg.mss, x.e.snd.queue, act.data);
    var more := act.data[..Max(r.ret, 0)];
    Associate(Flat(x.log), Flat(x.e.snd.queue), more);
    QueueKept(x.e.snd, r.queue, x.log);
  }

  lemma RecvSane(x: Node, peer: Node, act: Action)
    requires Sane(x) && act.RecvBytes?
    ensures Sane(LiftedAct(x, peer, act))
  {
    hide Flat, SenderOk, PacketOnWire, Drain, Payload;
    RecvKeepsAcks(Lifted, x.e.cfg.rcvWnd, x.e.rcv, act.cap);
    DrainOnward(x.e.cfg.rcvWnd, x.e.rcv.(queue := x.e.rcv.queue[MessageSpan(x.e.rcv.queue)..]));
  }

  lemma UpdateSane(x: Node, now: Time)
    requires Sane(x)
    ensures var x' := Emit(x, Update(Ideal, x.e, now)); Sane(x') && x'.e.cfg == x.e.cfg
  {
    hide Flush, PacketOnWire, SenderOk, Flat, Sized;
    var t := TickAt(x.e.cfg, x.e.pace, now);
    var e := x.e.(pace := x.e.pace.(current := now, updated := true, tsFlush := t.tsFlush));
    if t.flush {
      EmitSane(x, e);
    } else {
      EmitNothing(x, e);
    }
  }

  lemma DeliverSane(x: Node, peer: Node, act: Action)
    requires Sane(x) && Sane(peer) && act.Deliver?
    ensures var x' := LiftedAct(x, peer, act); Sane(x') && x'.e.cfg == x.e.cfg
  {
    hide Input, SenderOk, Flat, Sized;
    if act.k < |peer.out| {
      var p := peer.out[act.k];
      assert p in peer.out;
      forall s | s in p ensures 0 <= s.ts < W32 && 0 <= s.wnd {
        assert OnWire(peer.e.cfg.conv, s);
      }
      InputOnWire(Lifted, x.e, p);
      SenderSpan(x);
      InputNarrows(x.e, p, x.log);
    }
  }

  lemma ActSane(x: Node, peer: Node, act: Action)
    requires Sane(x) && Sane(peer)
    ensures var x' := LiftedAct(x, peer, act); Sane(x') && x'.e.cfg == x.e.cfg
  {
    hide Sane, Update, Flush, Send, KcpModel.Recv, Input, Emit;
    match act
    case SendBytes(_, _) => SendSane(x, peer, act);
    case RecvBytes(_, _) => RecvSane(x, peer, act);
    case UpdateAt(_, now) => UpdateSane(x, now);
    case FlushNow(_) => FlushSane(x);
    case Deliver(_, _, _) => DeliverSane(x, peer, act);
  }

  lemma FlushSane(x: Node)
    requires Sane(x)
    ensures var x' := Emit(x, Flush(Ideal, x.e)); Sane(x') && x'.e.cfg == x.e.cfg
  {
    hide Flush, Emit, SendOk, PacketOnWire;
    EmitSane(x, x.e);
  }

  // ---------------------------------------------------------------- simulation

  lemma DeliverCut(x: Node, peer: Node, w: WNode, wpeer: WNode, act: Action)
    requires WireOk(peer) && x.e.cfg.conv == peer.e.cfg.conv
    requires Sim(x, w) && Sim(peer, wpeer) && act.Deliver?
    ensures Sim(LiftedAct(x, peer, act), WAct(w, wpeer, act))
  {
    hide Input, InputBytes, EncodeAll;
    if act.k < |peer.out| {
      var p := peer.out[act.k];
      assert p in peer.out && wpeer.out[act.k] == EncodeAll(p);
      InputPadded(Word, w.e, p, act.pad);
      TruncateIsWrap(x.e.cfg.conv, p);
      InputCut(x.e, p);
    }
  }

  /** The program does to the truncated node what the lifted system does to the node. */
  lemma ActCut(x: Node, peer: Node, w: WNode, wpeer: WNode, act: Action)
    requires Sane(x) && Sane(peer) && x.e.cfg.conv == peer.e.cfg.conv && Sim(x, w) && Sim(peer, wpeer)
    ensures Sim(LiftedAct(x, peer, act), WAct(w, wpeer, act))
  {
    hide Update, Flush, Send, KcpModel.Recv, Input, Emit, PacketOnWire, Flat, SenderOk, InputBytes;
    SenderSpan(x);
    match act
    case SendBytes(_, _) =>
    case RecvBytes(_, cap) => RecvCut(x.e.cfg.rcvWnd, x.e.rcv, cap);
    case UpdateAt(_, now) => UpdateSim(x, w, now);
    case FlushNow(_) => EmitSim(x, w, x.e, w.e);
    case Deliver(_, _, _) => DeliverCut(x, peer, w, wpeer, act);
  }

  // ---------------------------------------------------------------- what a flush sends

  /** The endpoint that flushes when `act` is an update or a flush. */
  function Clocked(e: Endpoint, act: Action): Endpoint {
    if act.UpdateAt? then
      e.(pace := e.pace.(current := act.now, updated := true, tsFlush := TickAt(e.cfg, e.pace, act.now).tsFlush))
    else e
  }

  predicate Flushes(e: Endpoint, act: Action) {
    (act.FlushNow? && e.pace.updated) || (act.UpdateAt? && TickAt(e.cfg, e.pace, act.now).flush)
  }

  /** Segment `s` is in a datagram that `x'` has sent and `x` had not. */
  ghost predicate Sends(x: Node, x': Node, s: Segment) {
    exists n :: |x.out| <= n < |x'.out| && s in x'.out[n]
  }

  lemma FlushActs(x: Node, peer: Node, act: Action)
    requires act.UpdateAt? || act.FlushNow?
    ensures var x' := LiftedAct(x, peer, act);
            if Flushes(x.e, act) then x' == Emit(x, Flush(Ideal, Clocked(x.e, act)))
            else x' == x.(e := Clocked(x.e, act))
  {
    if !Flushes(x.e, act) {
      EmitNothing(x, Clocked(x.e, act));
    }
  }

  /** The new datagrams of a flush hold what it put out, in order. */
  lemma FlushJoins(x: Node, e: Endpoint)
    requires Sane(x) && e == x.e.(pace := e.pace) && EndpointOnWire(e)
    ensures var x' := Emit(x, Flush(Ideal, e)); x.out <= x'.out && Join(x'.out[|x.out|..]) == Flush(Ideal, e).out
  {
    hide Flush, SenderOk, Sized, Flat, Packets, NothingLost, OnWire, HonestPacket, WireOk;
    var f, b := Flush(Ideal, e), e.(rcv := Bare(e.rcv));
    FlushBare(e);
    var k, log' := FlushAlone(b, x.log);
    PacketsSpec(x.e.cfg.mtu, f.out);
    assert (x.out + Packets(x.e.cfg.mtu, f.out))[|x.out|..] == Packets(x.e.cfg.mtu, f.out);
  }

  lemma FlushSends(x: Node, e: Endpoint, s: Segment)
    requires Sane(x) && e == x.e.(pace := e.pace) && EndpointOnWire(e)
    ensures var x', f := Emit(x, Flush(Ideal, e)), Flush(Ideal, e); Sends(x, x', s) <==> s in f.out
  {
    hide Sane, Flush, Emit, EndpointOnWire;
    var x', f := Emit(x, Flush(Ideal, e)), Flush(Ideal, e);
    FlushJoins(x, e);
    var ps := x'.out[|x.out|..];
    JoinMember(ps, s);
    if Sends(x, x', s) {
      var n :| |x.out| <= n < |x'.out| && s in x'.out[n];
      assert x'.out[n] == ps[n - |x.out|];
    }
    if s in f.out {
      var p :| p in ps && s in p;
      var i :| 0 <= i < |ps| && ps[i] == p;
      assert x'.out[|x.out| + i] == p;
    }
  }

  lemma ClockedWire(x: Node, act: Action)
    requires Sane(x) && (act.UpdateAt? || act.FlushNow?)
    ensures var e := Clocked(x.e, act); e == x.e.(pace := e.pace) && EndpointOnWire(e)
  {
    hide SendOk, PacketOnWire;
  }

  // ---------------------------------------------------------------- every run

  /** The program in state `w` is the lifted system in state `s`. */
  ghost predicate Matched(s: System, w: WSystem) {
    && Sane(s.left) && Sane(s.right) && s.left.e.cfg.conv == s.right.e.cfg.conv
    && Sim(s.left, w.left) && Sim(s.right, w.right)
  }

  lemma StepMatched(s: System, w: WSystem, act: Action)
    requires Matched(s, w)
    ensures Matched(LiftedStep(s, act), WStep(w, act))
    ensures var t := LiftedStep(s, act); t.left.e.cfg == s.left.e.cfg && t.right.e.cfg == s.right.e.cfg
  {
    hide Sane, Sim, LiftedAct, WAct;
    if act.who.Left? {
      ActSane(s.left, s.right, act);
      ActCut(s.left, s.right, w.left, w.right, act);
    } else {
      ActSane(s.right, s.left, act);
      ActCut(s.right, s.left, w.right, w.left, act);
    }
  }

  lemma {:induction false} RunMatched(s: System, w: WSystem, acts: seq<Action>)
    requires Matched(s, w)
    ensures Matched(LiftedRun(s, acts), WRun(w, acts))
    decreases |acts|
  {
    hide Matched, LiftedStep, WStep;
    if acts != [] {
      StepMatched(s, w, acts[0]);
      RunMatched(LiftedStep(s, acts[0]), WStep(w, acts[0]), acts[1..]);
    }
  }

  lemma StartMatched(left: Config, right: Config)
    requires left.conv == right.conv
    ensures Matched(Initial(left, right), WInitial(left, right))
  {
  }

  /** Every run of the program is the truncation of the lifted run, state by state. */
  lemma ProgramIsLifted(left: Config, right: Config, acts: seq<Action>)
    requires left.conv == right.conv
    ensures Matched(LiftedRun(Initial(left, right), acts), WRun(WInitial(left, right), acts))
  {
    hide Matched, LiftedRun, WRun;
    StartMatched(left, right);
    RunMatched(Initial(left, right), WInitial(left, right), acts);
  }

  /** The node on one side, in both forms. */
  function Of(s: System, who: Side): Node { if who.Left? then s.left else s.right }

  function WOf(w: WSystem, who: Side): WNode { if who.Left? then w.left else w.right }

  function Other(who: Side): Side { if who.Left? then Right else Left }

  lemma MatchedOf(s: System, w: WSystem, who: Side)
    requires Matched(s, w)
    ensures Sane(Of(s, who)) && Sim(Of(s, who), WOf(w, who))
  {
  }
}
