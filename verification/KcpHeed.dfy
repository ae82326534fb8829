/** Flow control over every run of the 32-bit program, datagrams of any age included:
    a sender goes by the window in the last datagram it got, fills exactly that, and
    probes while it is closed. */
module KcpHeed {
  import opened Words
  import opened Network
  import opened KcpModel
  import opened KcpWire
  import opened KcpLists
  import opened KcpBytes
  import opened KcpSystem
  import opened KcpWrap
  import opened KcpProgram
  import opened KcpRun

  // ---------------------------------------------------------------- what is heard

  /** The window that a datagram announces last, or `w` if it announces none. */
  function Announced(segs: seq<Segment>, w: int): int { if segs == [] then w else segs[|segs| - 1].wnd }

  lemma {:induction false} TakeAllHeed(m: Arith, st: Intake, segs: seq<Segment>)
    ensures TakeSegments(m, st, segs).e.pace.rmtWnd == Announced(segs, st.e.pace.rmtWnd)
    decreases |segs|
  {
    hide ParseUna, ParseAck, ParsePush, UpdateAck;
    if segs != [] {
      TakeAllHeed(m, TakeSegment(m, st, segs[0]), segs[1..]);
    }
  }

  lemma InputHeeds(m: Arith, e: Endpoint, segs: seq<Segment>)
    ensures Input(m, e, segs).pace.rmtWnd == Announced(segs, e.pace.rmtWnd)
  {
    hide TakeSegments, ParseFastack, GrowCwnd;
    TakeAllHeed(m, Intake(e, false, 0, 0), segs);
  }

  /** After ikcp_input on any bytes, malformed or not, the peer's window is what the
      last segment before the first bad one says. */
  lemma BytesHeeded(m: Arith, e: Endpoint, b: seq<byte>)
    ensures InputBytes(m, e, b).e.pace.rmtWnd == Announced(Parse(e.cfg.conv, b).segs, e.pace.rmtWnd)
  {
    hide TakeSegments, ParseFastack, GrowCwnd;
    TakeAllHeed(m, Intake(e, false, 0, 0), Parse(e.cfg.conv, b).segs);
  }

  /** On the wire: it is the 16-bit field 6 bytes into the last header of a datagram. */
  lemma WireWindow(m: Arith, e: Endpoint, init: seq<Segment>, last: Segment, pad: Pad)
    requires forall s :: s in init + [last] ==> Sendable(e.cfg.conv, s)
    ensures var b := EncodeAll(init + [last]) + pad;
            && |EncodeAll(init)| + OVERHEAD <= |b|
            && InputBytes(m, e, b).e.pace.rmtWnd == Read16(b, |EncodeAll(init)| + 6)
  {
    hide Input, InputBytes, EncodeAll, EncodeHeader, Read16;
    var segs := init + [last];
    InputPadded(m, e, segs, pad);
    InputHeeds(m, e, TruncateAll(segs));
    EncodeAllSnoc(init, last);
    LastHeader(EncodeAll(init), last, pad);
  }

  lemma LastHeader(front: seq<byte>, last: Segment, pad: seq<byte>)
    ensures Read16(front + Encode(last) + pad, |front| + 6) == U16(last.wnd)
  {
    hide EncodeHeader;
    HeaderFields(last);
    var b, h := front + Encode(last) + pad, EncodeHeader(last);
    assert b[|front| + 6] == h[6] && b[|front| + 7] == h[7];
  }

  // ---------------------------------------------------------------- over a run

  /** What side `who` has heard last, when it begins with `w`. */
  ghost function Heard(s: System, acts: seq<Action>, who: Side, w: int): int
    decreases |acts|
  {
    if acts == [] then w else Heard(LiftedStep(s, acts[0]), acts[1..], who, HeardNow(s, acts[0], who, w))
  }

  /** A datagram that is delivered to it announces a window; nothing else does. */
  ghost function HeardNow(s: System, act: Action, who: Side, w: int): int {
    var out := Of(s, Other(who)).out;
    if act.Deliver? && act.who == who && act.k < |out| then Announced(out[act.k], w) else w
  }

  /** The probe timer is off or between its limits, and no probe is pending. */
  ghost predicate ProbeOk(p: Pace) { !p.ask && (p.probeWait == 0 || PROBE_INIT <= p.probeWait <= PROBE_LIMIT) }

  lemma {:induction false} TakeAllProbe(m: Arith, st: Intake, segs: seq<Segment>)
    requires ProbeOk(st.e.pace)
    ensures ProbeOk(TakeSegments(m, st, segs).e.pace)
    decreases |segs|
  {
    hide ParseUna, ParseAck, ParsePush, UpdateAck;
    if segs != [] {
      TakeAllProbe(m, TakeSegment(m, st, segs[0]), segs[1..]);
    }
  }

  /** What a flush does to the timer and leaves alone. */
  lemma FlushProbes(e: Endpoint)
    requires e.pace.updated && ProbeOk(e.pace)
    ensures var p, q := e.pace, Flush(Ideal, e).e.pace;
            && ProbeOk(q) && q.rmtWnd == p.rmtWnd && q.current == p.current && q.rto == p.rto
            && (if p.rmtWnd != 0 then q.probeWait == 0
                else && q.probeWait > 0
                     && (p.probeWait == 0 ==> q.probeWait == 7000 && q.tsProbe == U32(p.current + 7000)))
  {
    hide Fill, TransmitAll, AckSegments, Window, Resent, U32;
  }

  lemma ActHeeds(x: Node, peer: Node, act: Action)
    requires ProbeOk(x.e.pace)
    ensures var x' := LiftedAct(x, peer, act);
            && ProbeOk(x'.e.pace)
            && x'.e.pace.rmtWnd == (if act.Deliver? && act.k < |peer.out| then Announced(peer.out[act.k], x.e.pace.rmtWnd)
                                    else x.e.pace.rmtWnd)
  {
    hide Flush, Send, KcpModel.Recv, TickAt;
    match act
    case SendBytes(_, _) =>
    case RecvBytes(_, _) =>
    case UpdateAt(_, _) =>
      FlushActs(x, peer, act);
      if Flushes(x.e, act) {
        FlushProbes(Clocked(x.e, act));
      }
    case FlushNow(_) =>
      FlushActs(x, peer, act);
      if Flushes(x.e, act) {
        FlushProbes(x.e);
      }
    case Deliver(_, k, _) =>
      if k < |peer.out| {
        hide TakeSegments, ParseFastack, GrowCwnd;
        InputHeeds(Lifted, x.e, peer.out[k]);
        TakeAllProbe(Lifted, Intake(x.e, false, 0, 0), peer.out[k]);
      }
  }

  /** What side `who` goes by is what it heard. */
  ghost predicate Heeds(s: System, who: Side, w: int) {
    Of(s, who).e.pace.rmtWnd == w && ProbeOk(Of(s, who).e.pace)
  }

  lemma StepHeeds(s: System, act: Action, who: Side, w: int)
    requires Heeds(s, who, w)
    ensures Heeds(LiftedStep(s, act), who, HeardNow(s, act, who, w))
  {
    hide LiftedAct, ProbeOk, Announced;
    if act.who == who {
      ActHeeds(Of(s, who), Of(s, Other(who)), act);
    }
  }

  lemma {:induction false} RunHeeds(s: System, acts: seq<Action>, who: Side, w: int)
    requires Heeds(s, who, w)
    ensures Heeds(LiftedRun(s, acts), who, Heard(s, acts, who, w))
    decreases |acts|
  {
    hide Heeds, HeardNow, LiftedStep;
    if acts != [] {
      StepHeeds(s, acts[0], who, w);
      RunHeeds(LiftedStep(s, acts[0]), acts[1..], who, HeardNow(s, acts[0], who, w));
    }
  }

  // ---------------------------------------------------------------- filling the window

  /** How far a sender may be ahead of what is acknowledged. */
  function Room(cfg: Config, w: int, cwnd: int): int {
    if cfg.noCwnd then Min(cfg.sndWnd, w) else Min(Min(cfg.sndWnd, w), cwnd)
  }

  /** A flush numbers as much of the queue as there is room for, and no more. */
  lemma FlushFills(e: Endpoint)
    requires e.pace.updated
    ensures var s, t, room := e.snd, Flush(Ideal, e).e.snd, Room(e.cfg, e.pace.rmtWnd, e.pace.cwnd);
            && t.una == s.una && t.nxt - s.una == Max(s.nxt - s.una, Min(s.nxt - s.una + |s.queue|, room))
            && t.nxt - s.nxt <= |s.queue| && t.queue == s.queue[t.nxt - s.nxt..]
  {
    hide Fill, TransmitAll, AckSegments, AfterFlush, Probe, UnusedWindow;
    var p := Probed(e.pace);
    var k := FillSpec(e.snd, Window(e.cfg, p), p.current, p.rto);
  }

  /** The segments that a 32-bit sender has numbered and not got acknowledged. */
  function Span(s: Sender): int { U32(s.nxt - s.una) }

  lemma SpanCut(x: Node, w: WNode)
    requires Sane(x) && Sim(x, w)
    ensures Span(w.e.snd) == x.e.snd.nxt - x.e.snd.una
  {
    hide Sane, U32, WrapFlight, WrapReceiver, EncodePackets;
    SaneSpan(x);
    SpanWraps(x.e.snd.nxt, x.e.snd.una);
  }

  lemma SaneSpan(x: Node)
    requires Sane(x)
    ensures x.e.snd.una <= x.e.snd.nxt <= x.e.snd.una + 65536
  {
    hide SenderOk, WireOk, Flat;
    SenderSpan(x);
  }

  lemma SpanWraps(nxt: int, una: int)
    requires una <= nxt < una + W32
    ensures U32(U32(nxt) - U32(una)) == nxt - una
  {
    SubWraps(nxt, una);
  }

  /** What a flush leaves of a sender that goes by window `h` is `t`. */
  ghost predicate Filled(e: Endpoint, h: int, t: Endpoint) {
    && t.snd.una == e.snd.una && |t.snd.queue| <= |e.snd.queue|
    && Span(t.snd) == Max(Span(e.snd), Min(Span(e.snd) + |e.snd.queue|, Room(e.cfg, h, e.pace.cwnd)))
    && t.snd.queue == e.snd.queue[|e.snd.queue| - |t.snd.queue|..]
  }

  lemma FlushFillsCut(x: Node, w: WNode, x': Node, w': WNode, e: Endpoint)
    requires Sane(x) && Sim(x, w) && Sane(x') && Sim(x', w')
    requires e == x.e.(pace := e.pace) && e.pace.cwnd == x.e.pace.cwnd && e.pace.rmtWnd == x.e.pace.rmtWnd
    requires e.pace.updated && x'.e == Flush(Ideal, e).e
    ensures Filled(w.e, x.e.pace.rmtWnd, w'.e)
  {
    hide Sane, Flush;
    FlushFills(e);
    SpanCut(x, w);
    SpanCut(x', w');
  }

  // ---------------------------------------------------------------- a closed window

  /** A control segment of this kind is in the list. */
  ghost predicate Has(out: seq<Segment>, cmd: int) { exists s :: s in out && s.cmd == cmd }

  /** Which probes a flush sends, and the window they and all other segments carry. */
  lemma FlushControls(e: Endpoint)
    requires e.pace.updated && ProbeOk(e.pace)
    ensures var p, f := e.pace, Flush(Ideal, e);
            && (Has(f.out, CMD_WASK) <==> p.rmtWnd == 0 && p.probeWait != 0 && TimeDiff(p.current, p.tsProbe) >= 0)
            && (Has(f.out, CMD_WINS) <==> p.tell) && !f.e.pace.tell
            && (forall s :: s in f.out ==> s.wnd == U16(UnusedWindow(e.cfg, e.rcv)) && s.una == e.rcv.nxt)
  {
    hide Fill, TransmitAll, AckSegments, Window, Resent, U32, U16, UnusedWindow;
    var hdr, p := Header(e), Probed(e.pace);
    var s := Fill(Ideal, e.snd, Window(e.cfg, p), p.current, p.rto);
    TransmitFrom(e.cfg, p.rto, p.current, hdr, s.buf);
    var t := TransmitAll(e.cfg, p.rto, p.current, hdr, s.buf);
    AcksCarry(hdr, e.rcv.acks);
    var probes := ProbeSegments(ProbeHeader(hdr, e.rcv.acks), Probe(e.pace));
    assert Flush(Ideal, e).out == AckSegments(hdr, e.rcv.acks) + probes + t.out;
    if Probe(e.pace).ask {
      assert probes[0].cmd == CMD_WASK;
    }
    if Probe(e.pace).tell {
      assert probes[|probes| - 1].cmd == CMD_WINS;
    }
  }

  lemma {:induction false} AcksCarry(hdr: Segment, acks: seq<Ack>)
    requires hdr.cmd == CMD_ACK
    ensures forall s :: s in AckSegments(hdr, acks) ==> s.cmd == CMD_ACK && s.wnd == hdr.wnd && s.una == hdr.una
  {
    if acks != [] {
      AcksCarry(hdr, acks[..|acks| - 1]);
    }
  }

  /** Over every run: the window a sender goes by is the one in the last datagram that
      was delivered to it. A flush then fills exactly the room there is, so that it
      assigns no number at or past una and that window. */
  lemma ProgramHeedsWindow(left: Config, right: Config, acts: seq<Action>, act: Action)
    requires left.conv == right.conv && (act.UpdateAt? || act.FlushNow?)
    ensures var w, h := WRun(WInitial(left, right), acts), Heard(Initial(left, right), acts, act.who, WND_RCV);
            var x, x' := WOf(w, act.who).e, WOf(WStep(w, act), act.who).e;
            && x.pace.rmtWnd == h
            && (if Flushes(x, act) then Filled(x, h, x') else x'.snd == x.snd)
            && Span(x'.snd) <= Max(Span(x.snd), h)
  {
    hide Matched, LiftedRun, WRun, Heard, Flush, Sane, TickAt;
    var s, w := LiftedRun(Initial(left, right), acts), WRun(WInitial(left, right), acts);
    ProgramIsLifted(left, right, acts);
    StepMatched(s, w, act);
    RunHeeds(Initial(left, right), acts, act.who, WND_RCV);
    MatchedOf(s, w, act.who);
    MatchedOf(LiftedStep(s, act), WStep(w, act), act.who);
    var x, v := Of(s, act.who), WOf(w, act.who);
    FlushActs(x, Of(s, Other(act.who)), act);
    if Flushes(x.e, act) {
      FlushFillsCut(x, v, Of(LiftedStep(s, act), act.who), WOf(WStep(w, act), act.who), Clocked(x.e, act));
    }
  }

  // ---------------------------------------------------------------- probing and telling

  /** A segment of this kind is among what `x'` has sent and `x` had not. */
  ghost predicate SendsKind(x: Node, x': Node, cmd: int) { exists s :: Sends(x, x', s) && s.cmd == cmd }

  lemma FlushSendsKind(x: Node, e: Endpoint, cmd: int)
    requires Sane(x) && e == x.e.(pace := e.pace) && EndpointOnWire(e)
    ensures SendsKind(x, Emit(x, Flush(Ideal, e)), cmd) <==> Has(Flush(Ideal, e).out, cmd)
  {
    hide Sane, Flush, Emit, Sends, EndpointOnWire;
    var x', f := Emit(x, Flush(Ideal, e)), Flush(Ideal, e);
    forall s ensures Sends(x, x', s) <==> s in f.out {
      FlushSends(x, e, s);
    }
  }

  /** The time of an update or a flush. */
  function TimeOf(e: Endpoint, act: Action): int { if act.UpdateAt? then act.now else e.pace.current }

  /** A flush of a side that has heard window 0 numbers nothing. It starts the probe
      timer at 7 seconds if it is off, and asks exactly if it has run down; then it starts
      the timer half as long again, up to two minutes. */
  ghost predicate Probes(x: Node, x': Node, now: int) {
    var p, q := x.e.pace, x'.e.pace;
    && x'.e.snd.nxt == x.e.snd.nxt && x'.e.snd.queue == x.e.snd.queue
    && PROBE_INIT <= q.probeWait <= PROBE_LIMIT
    && (p.probeWait == 0 ==> q.probeWait == 7000 && q.tsProbe == U32(now + 7000))
    && (SendsKind(x, x', CMD_WASK) <==> p.probeWait != 0 && TimeDiff(now, p.tsProbe) >= 0)
    && (p.probeWait != 0 ==>
          if TimeDiff(now, p.tsProbe) < 0 then q.probeWait == p.probeWait && q.tsProbe == p.tsProbe
          else q.probeWait == Min(p.probeWait + p.probeWait / 2, 120000) && q.tsProbe == U32(now + q.probeWait))
  }

  /** The probe timer while it runs: it starts again half as long again, up to two minutes. */
  lemma FlushWaits(e: Endpoint)
    requires e.pace.updated && e.pace.rmtWnd == 0 && PROBE_INIT <= e.pace.probeWait
    ensures var p, q := e.pace, Flush(Ideal, e).e.pace;
            if TimeDiff(p.current, p.tsProbe) < 0 then q.probeWait == p.probeWait && q.tsProbe == p.tsProbe
            else q.probeWait == Min(p.probeWait + p.probeWait / 2, 120000) && q.tsProbe == U32(p.current + q.probeWait)
  {
    hide Fill, TransmitAll, AckSegments, Window, Resent, U32, TimeDiff;
  }

  lemma FlushProbing(x: Node, e: Endpoint)
    requires Sane(x) && e == x.e.(pace := e.pace) && EndpointOnWire(e) && e.pace.updated && e.pace.rmtWnd == 0
    requires ProbeOk(e.pace) && e.pace.probeWait == x.e.pace.probeWait && e.pace.tsProbe == x.e.pace.tsProbe
    ensures Probes(x, Emit(x, Flush(Ideal, e)), e.pace.current)
  {
    hide Sane, Flush, EndpointOnWire, SendsKind, TimeDiff, Has;
    FlushProbes(e);
    FlushControls(e);
    FlushFills(e);
    SaneSpan(x);
    FlushSendsKind(x, e, CMD_WASK);
    if e.pace.probeWait != 0 {
      FlushWaits(e);
    }
  }

  /** Whether side `who` owes an announcement, when it begins with `b`. */
  ghost function Owed(s: System, acts: seq<Action>, who: Side, b: bool): bool
    decreases |acts|
  {
    if acts == [] then b else Owed(LiftedStep(s, acts[0]), acts[1..], who, OwedNow(s, acts[0], who, b))
  }

  /** It does from the arrival of a question, or from a receive that reopens its window,
      until it flushes. */
  ghost function OwedNow(s: System, act: Action, who: Side, b: bool): bool {
    var x, x', out := Of(s, who), Of(LiftedStep(s, act), who), Of(s, Other(who)).out;
    if act.who != who then b
    else match act
      case Deliver(_, k, _) => b || (k < |out| && Has(out[k], CMD_WASK))
      case RecvBytes(_, _) => b || (|x.e.rcv.queue| >= x.e.cfg.rcvWnd > |x'.e.rcv.queue|)
      case _ => b && !Flushes(x.e, act)
  }

  lemma {:induction false} TakeAllTell(m: Arith, st: Intake, segs: seq<Segment>)
    ensures TakeSegments(m, st, segs).e.pace.tell <==> st.e.pace.tell || Has(segs, CMD_WASK)
    decreases |segs|
  {
    hide ParseUna, ParseAck, ParsePush, UpdateAck;
    if segs != [] {
      var rest := segs[1..];
      TakeAllTell(m, TakeSegment(m, st, segs[0]), rest);
      assert segs == [segs[0]] + rest;
      assert Has(segs, CMD_WASK) <==> segs[0].cmd == CMD_WASK || Has(rest, CMD_WASK);
    }
  }

  lemma InputTells(m: Arith, e: Endpoint, segs: seq<Segment>)
    ensures Input(m, e, segs).pace.tell <==> e.pace.tell || Has(segs, CMD_WASK)
  {
    hide TakeSegments, ParseFastack, GrowCwnd, Has;
    TakeAllTell(m, Intake(e, false, 0, 0), segs);
  }

  lemma RecvTells(m: Arith, wnd: int, r: Receiver, cap: int)
    ensures var a := Recv(m, wnd, r, cap); a.tell <==> |r.queue| >= wnd > |a.rcv.queue|
  {
  }

  lemma StepTells(s: System, act: Action, who: Side)
    requires ProbeOk(Of(s, who).e.pace)
    ensures Of(LiftedStep(s, act), who).e.pace.tell <==> OwedNow(s, act, who, Of(s, who).e.pace.tell)
  {
    hide Flush, Send, KcpModel.Recv, TickAt, Input, Has, ProbeOk;
    var x, peer := Of(s, who), Of(s, Other(who));
    if act.who == who {
      match act
      case SendBytes(_, _) =>
      case RecvBytes(_, cap) => RecvTells(Lifted, x.e.cfg.rcvWnd, x.e.rcv, cap);
      case UpdateAt(_, _) =>
        FlushActs(x, peer, act);
        if Flushes(x.e, act) {
          ProbeOkClocked(x.e, act);
          FlushControls(Clocked(x.e, act));
        }
      case FlushNow(_) =>
        FlushActs(x, peer, act);
        if Flushes(x.e, act) {
          FlushControls(x.e);
        }
      case Deliver(_, k, _) =>
        if k < |peer.out| {
          InputTells(Lifted, x.e, peer.out[k]);
        }
    }
  }

  lemma ProbeOkClocked(e: Endpoint, act: Action)
    requires ProbeOk(e.pace)
    ensures ProbeOk(Clocked(e, act).pace)
  {
  }

  lemma {:induction false} RunTells(s: System, acts: seq<Action>, who: Side, w: int)
    requires Heeds(s, who, w)
    ensures Of(LiftedRun(s, acts), who).e.pace.tell <==> Owed(s, acts, who, Of(s, who).e.pace.tell)
    decreases |acts|
  {
    hide HeardNow, LiftedStep, OwedNow, ProbeOk;
    if acts != [] {
      StepHeeds(s, acts[0], who, w);
      StepTells(s, acts[0], who);
      RunTells(LiftedStep(s, acts[0]), acts[1..], who, HeardNow(s, acts[0], who, w));
    }
  }

  /** Over every run: a side that has heard a closed window probes it, and one that owes
      an announcement, and only such a one, makes it with its next flush. The numbers
      are those of the lifted run, of which the program's state is the truncation. */
  lemma ProgramProbesAndTells(left: Config, right: Config, acts: seq<Action>, act: Action)
    requires left.conv == right.conv && (act.UpdateAt? || act.FlushNow?)
    ensures var i, s := Initial(left, right), LiftedRun(Initial(left, right), acts);
            var x, x' := Of(s, act.who), Of(LiftedStep(s, act), act.who);
            && Matched(s, WRun(WInitial(left, right), acts))
            && Matched(LiftedStep(s, act), WStep(WRun(WInitial(left, right), acts), act))
            && (Flushes(x.e, act) ==>
                  && (Heard(i, acts, act.who, WND_RCV) == 0 ==> Probes(x, x', TimeOf(x.e, act)))
                  && (SendsKind(x, x', CMD_WINS) <==> Owed(i, acts, act.who, false)))
  {
    hide Matched, LiftedRun, WRun, Heard, Owed, Flush, Sane, TickAt, Probes, SendsKind, Has, EndpointOnWire;
    var i, s, w := Initial(left, right), LiftedRun(Initial(left, right), acts), WRun(WInitial(left, right), acts);
    ProgramIsLifted(left, right, acts);
    StepMatched(s, w, act);
    RunHeeds(i, acts, act.who, WND_RCV);
    RunTells(i, acts, act.who, WND_RCV);
    MatchedOf(s, w, act.who);
    var x := Of(s, act.who);
    FlushActs(x, Of(s, Other(act.who)), act);
    ClockedWire(x, act);
    if Flushes(x.e, act) {
      var e := Clocked(x.e, act);
      ProbeOkClocked(x.e, act);
      FlushControls(e);
      FlushSendsKind(x, e, CMD_WINS);
      if x.e.pace.rmtWnd == 0 {
        FlushProbing(x, e);
      }
    }
  }

  // ---------------------------------------------------------------- full segments

  lemma ActCompact(x: Node, peer: Node, act: Action)
    requires Sane(x) && Compact(x.e.cfg.mss, x.e.snd.queue)
    ensures Compact(x.e.cfg.mss, LiftedAct(x, peer, act).e.snd.queue)
  {
    hide Flush, Send, KcpModel.Recv, TickAt, Input, WireOk, SenderOk, Flat;
    match act
    case SendBytes(_, data) => SendExactly(x.e.cfg.mss, x.e.snd.queue, data);
    case RecvBytes(_, _) =>
    case UpdateAt(_, _) =>
      FlushActs(x, peer, act);
      if Flushes(x.e, act) {
        FlushFills(Clocked(x.e, act));
      }
    case FlushNow(_) =>
      FlushActs(x, peer, act);
      if Flushes(x.e, act) {
        FlushFills(x.e);
      }
    case Deliver(_, k, _) =>
      if k < |peer.out| {
        SenderSpan(x);
        InputNarrows(x.e, peer.out[k], x.log);
      }
  }

  lemma {:induction false} RunCompact(s: System, w: WSystem, acts: seq<Action>, who: Side)
    requires Matched(s, w) && Compact(Of(s, who).e.cfg.mss, Of(s, who).e.snd.queue)
    ensures var x := Of(LiftedRun(s, acts), who); Compact(x.e.cfg.mss, x.e.snd.queue)
    decreases |acts|
  {
    hide Matched, LiftedAct, WStep, Compact, Sane;
    if acts != [] {
      StepMatched(s, w, acts[0]);
      MatchedOf(s, w, who);
      if acts[0].who == who {
        ActCompact(Of(s, who), Of(s, Other(who)), acts[0]);
      }
      RunCompact(LiftedStep(s, acts[0]), WStep(w, acts[0]), acts[1..], who);
    }
  }

  /** Over every run, all segments that wait for a number are full but the last, so that
      there are never more of them than their bytes need. */
  lemma ProgramFillsSegments(left: Config, right: Config, acts: seq<Action>, who: Side)
    requires left.conv == right.conv
    ensures var x := WOf(WRun(WInitial(left, right), acts), who).e; Compact(x.cfg.mss, x.snd.queue)
  {
    hide Matched, LiftedRun, WRun, Compact, Sane;
    var s, w := LiftedRun(Initial(left, right), acts), WRun(WInitial(left, right), acts);
    StartMatched(left, right);
    ProgramIsLifted(left, right, acts);
    NothingQueued(left.mss);
    NothingQueued(right.mss);
    RunCompact(Initial(left, right), WInitial(left, right), acts, who);
    MatchedOf(s, w, who);
  }

  lemma NothingQueued(mss: int)
    ensures Compact(mss, [])
  {
  }
}
