/** Acknowledgements and what is learned from them, over every run of the 32-bit program:
    each data segment below the end of the window is acknowledged once, with its own
    number and time, so that a round-trip sample is the age of a real transmission. */
module KcpEcho {
  import opened Words
  import opened KcpModel
  import opened KcpBytes
  import opened KcpSystem
  import opened KcpProgram
  import opened KcpRun

  // ---------------------------------------------------------------- what is owed

  /** The acknowledgements that a packet calls for: one for each data segment below the
      end of the receive window, as that moves. */
  ghost function AcksFor(st: Intake, segs: seq<Segment>): seq<Ack>
    decreases |segs|
  {
    if segs == [] then []
    else
      var s, end := segs[0], st.e.rcv.nxt + st.e.cfg.rcvWnd;
      (if s.cmd == CMD_PUSH && S32(s.sn - end) < 0 then [Ack(s.sn, s.ts)] else [])
      + AcksFor(TakeSegment(Lifted, st, s), segs[1..])
  }

  /** The acknowledgements that side `who` owes, when it begins with `l`. */
  ghost function Owing(s: System, acts: seq<Action>, who: Side, l: seq<Ack>): seq<Ack>
    decreases |acts|
  {
    if acts == [] then l else Owing(LiftedStep(s, acts[0]), acts[1..], who, OwingNow(s, acts[0], who, l))
  }

  ghost function OwingNow(s: System, act: Action, who: Side, l: seq<Ack>): seq<Ack> {
    var x, out := Of(s, who), Of(s, Other(who)).out;
    if act.who != who then l
    else if act.Deliver? && act.k < |out| then l + AcksFor(Intake(x.e, false, 0, 0), out[act.k])
    else if Flushes(x.e, act) then []
    else l
  }

  lemma PushOwes(wnd: int, r: Receiver, s: Segment)
    ensures ParsePush(Lifted, wnd, r, s).acks == r.acks + if S32(s.sn - (r.nxt + wnd)) < 0 then [Ack(s.sn, s.ts)] else []
  {
    hide Insert, S32;
    DrainKeepsAcks(Lifted, wnd, r.(acks := r.acks + [Ack(s.sn, s.ts)],
      buf := Insert(Lifted, r.buf, Received(s.sn, s.frg, s.data))));
  }

  lemma {:induction false} TakeAllOwe(st: Intake, segs: seq<Segment>)
    ensures TakeSegments(Lifted, st, segs).e.rcv.acks == st.e.rcv.acks + AcksFor(st, segs)
    decreases |segs|
  {
    hide ParseUna, ParseAck, ParsePush, UpdateAck, S32;
    if segs != [] {
      PushOwes(st.e.cfg.rcvWnd, st.e.rcv, segs[0]);
      TakeAllOwe(TakeSegment(Lifted, st, segs[0]), segs[1..]);
    }
  }

  lemma InputOwes(e: Endpoint, segs: seq<Segment>)
    ensures Input(Lifted, e, segs).rcv.acks == e.rcv.acks + AcksFor(Intake(e, false, 0, 0), segs)
  {
    hide TakeSegments, ParseFastack, GrowCwnd;
    TakeAllOwe(Intake(e, false, 0, 0), segs);
  }

  lemma ActOwes(x: Node, peer: Node, act: Action)
    ensures LiftedAct(x, peer, act).e.rcv.acks ==
            if act.Deliver? && act.k < |peer.out| then x.e.rcv.acks + AcksFor(Intake(x.e, false, 0, 0), peer.out[act.k])
            else if Flushes(x.e, act) then []
            else x.e.rcv.acks
  {
    hide Send, KcpModel.Recv, TickAt, Input, AcksFor, Fill, TransmitAll, AfterFlush;
    match act
    case SendBytes(_, _) =>
    case RecvBytes(_, cap) => RecvKeepsAcks(Lifted, x.e.cfg.rcvWnd, x.e.rcv, cap);
    case UpdateAt(_, _) => FlushActs(x, peer, act);
    case FlushNow(_) => FlushActs(x, peer, act);
    case Deliver(_, k, _) =>
      if k < |peer.out| {
        InputOwes(x.e, peer.out[k]);
      }
  }

  lemma {:induction false} RunOwes(s: System, acts: seq<Action>, who: Side)
    ensures Of(LiftedRun(s, acts), who).e.rcv.acks == Owing(s, acts, who, Of(s, who).e.rcv.acks)
    decreases |acts|
  {
    hide LiftedAct, AcksFor, Flushes;
    if acts != [] {
      if acts[0].who == who {
        ActOwes(Of(s, who), Of(s, Other(who)), acts[0]);
      }
      RunOwes(LiftedStep(s, acts[0]), acts[1..], who);
    }
  }

  // ---------------------------------------------------------------- what is paid

  /** The acknowledgements in a list of segments, in order. */
  ghost function AcksIn(segs: seq<Segment>): seq<Ack> {
    if segs == [] then []
    else AcksIn(segs[..|segs| - 1]) +
         if segs[|segs| - 1].cmd == CMD_ACK then [Ack(segs[|segs| - 1].sn, segs[|segs| - 1].ts)] else []
  }

  lemma {:induction false} AcksInAppend(a: seq<Segment>, b: seq<Segment>)
    ensures AcksIn(a + b) == AcksIn(a) + AcksIn(b)
  {
    if b == [] {
      assert a + b == a;
    } else {
      var n := |b| - 1;
      assert (a + b)[..|a + b| - 1] == a + b[..n] && (a + b)[|a + b| - 1] == b[n];
      AcksInAppend(a, b[..n]);
    }
  }

  lemma {:induction false} NoAcks(segs: seq<Segment>)
    requires forall s :: s in segs ==> s.cmd != CMD_ACK
    ensures AcksIn(segs) == []
  {
    if segs != [] {
      NoAcks(segs[..|segs| - 1]);
      assert segs[|segs| - 1] in segs;
    }
  }

  lemma {:induction false} AckSegmentsAre(hdr: Segment, acks: seq<Ack>)
    requires hdr.cmd == CMD_ACK
    ensures AcksIn(AckSegments(hdr, acks)) == acks
  {
    if acks != [] {
      var n := |acks| - 1;
      AckSegmentsAre(hdr, acks[..n]);
      var last := hdr.(sn := acks[n].sn, ts := acks[n].ts);
      AcksInAppend(AckSegments(hdr, acks[..n]), [last]);
      assert AcksIn([last]) == [acks[n]] by {
        assert [last][..0] == [];
      }
      assert acks == acks[..n] + [acks[n]];
    }
  }

  /** A flush sends the pending acknowledgements, once each and in order. */
  lemma FlushPays(e: Endpoint)
    requires e.pace.updated
    ensures AcksIn(Flush(Ideal, e).out) == e.rcv.acks
  {
    hide Fill, TransmitAll, AckSegments, Window, AfterFlush, UnusedWindow, AcksIn, Probe;
    var hdr, p := Header(e), Probed(e.pace);
    var s := Fill(Ideal, e.snd, Window(e.cfg, p), p.current, p.rto);
    TransmitPushes(e.cfg, p.rto, p.current, hdr, s.buf);
    var t := TransmitAll(e.cfg, p.rto, p.current, hdr, s.buf);
    var acks, probes := AckSegments(hdr, e.rcv.acks), ProbeSegments(ProbeHeader(hdr, e.rcv.acks), Probe(e.pace));
    assert Flush(Ideal, e).out == acks + probes + t.out;
    AckSegmentsAre(hdr, e.rcv.acks);
    NoAcks(probes);
    NoAcks(t.out);
    AcksInAppend(acks, probes);
    AcksInAppend(acks + probes, t.out);
  }

  lemma {:induction false} TransmitPushes(cfg: Config, rto: int, now: int, hdr: Segment, buf: seq<InFlight>)
    ensures forall s :: s in TransmitAll(cfg, rto, now, hdr, buf).out ==> s.cmd == CMD_PUSH
  {
    hide Due, Transmit;
    if buf != [] {
      TransmitPushes(cfg, rto, now, hdr, buf[..|buf| - 1]);
    }
  }

  /** Over every run, a flush acknowledges exactly what is owed. */
  lemma ProgramAcknowledges(left: Config, right: Config, acts: seq<Action>, act: Action)
    requires left.conv == right.conv && (act.UpdateAt? || act.FlushNow?)
    ensures var i, s := Initial(left, right), LiftedRun(Initial(left, right), acts);
            var x, x' := Of(s, act.who), Of(LiftedStep(s, act), act.who);
            && Matched(s, WRun(WInitial(left, right), acts))
            && Matched(LiftedStep(s, act), WStep(WRun(WInitial(left, right), acts), act))
            && (Flushes(x.e, act) ==> x.out <= x'.out && AcksIn(Join(x'.out[|x.out|..])) == Owing(i, acts, act.who, []))
  {
    hide Matched, LiftedRun, WRun, Owing, AcksIn, Flush, Sane, TickAt, Join;
    var i, s, w := Initial(left, right), LiftedRun(Initial(left, right), acts), WRun(WInitial(left, right), acts);
    ProgramIsLifted(left, right, acts);
    StepMatched(s, w, act);
    MatchedOf(s, w, act.who);
    RunOwes(i, acts, act.who);
    var x := Of(s, act.who);
    FlushActs(x, Of(s, Other(act.who)), act);
    if Flushes(x.e, act) {
      ClockedWire(x, act);
      FlushJoins(x, Clocked(x.e, act));
      FlushPays(Clocked(x.e, act));
    }
  }

  // ---------------------------------------------------------------- echoes

  /** `peer` has sent a data segment with the number and time of `a`. */
  ghost predicate Sent(peer: Node, a: Ack) {
    exists n, q :: 0 <= n < |peer.out| && q in peer.out[n] && q.cmd == CMD_PUSH && q.sn == a.sn && q.ts == a.ts
  }

  /** Everything `x` acknowledges or is about to was sent. */
  ghost predicate Echoes(x: Node, peer: Node) {
    && (forall a :: a in x.e.rcv.acks ==> Sent(peer, a))
    && (forall n, s :: 0 <= n < |x.out| && s in x.out[n] && s.cmd == CMD_ACK ==> Sent(peer, Ack(s.sn, s.ts)))
  }

  lemma {:induction false} OwedWasThere(st: Intake, segs: seq<Segment>, a: Ack)
    requires a in AcksFor(st, segs)
    ensures exists q :: q in segs && q.cmd == CMD_PUSH && q.sn == a.sn && q.ts == a.ts
    decreases |segs|
  {
    hide TakeSegment, S32;
    var rest := AcksFor(TakeSegment(Lifted, st, segs[0]), segs[1..]);
    if a in rest {
      OwedWasThere(TakeSegment(Lifted, st, segs[0]), segs[1..], a);
      var q :| q in segs[1..] && q.cmd == CMD_PUSH && q.sn == a.sn && q.ts == a.ts;
      assert q in segs;
    } else {
      assert segs[0] in segs;
    }
  }

  lemma {:induction false} AckIsIn(segs: seq<Segment>, s: Segment)
    requires s in segs && s.cmd == CMD_ACK
    ensures Ack(s.sn, s.ts) in AcksIn(segs)
  {
    var n := |segs| - 1;
    if s in segs[..n] {
      AckIsIn(segs[..n], s);
    } else {
      assert s == segs[n];
    }
  }

  lemma DeliverEchoes(x: Node, peer: Node, act: Action)
    requires Echoes(x, peer) && act.Deliver?
    ensures Echoes(LiftedAct(x, peer, act), peer)
  {
    hide Input, AcksFor;
    var x' := LiftedAct(x, peer, act);
    ActOwes(x, peer, act);
    if act.k < |peer.out| {
      var segs := peer.out[act.k];
      forall a | a in x'.e.rcv.acks ensures Sent(peer, a) {
        if a !in x.e.rcv.acks {
          OwedWasThere(Intake(x.e, false, 0, 0), segs, a);
          var q :| q in segs && q.cmd == CMD_PUSH && q.sn == a.sn && q.ts == a.ts;
          assert q in peer.out[act.k];
        }
      }
    }
  }

  lemma FlushEchoes(x: Node, peer: Node, e: Endpoint)
    requires Sane(x) && Echoes(x, peer) && e == x.e.(pace := e.pace) && EndpointOnWire(e) && e.pace.updated
    ensures Echoes(Emit(x, Flush(Ideal, e)), peer)
  {
    hide Sane, Flush, EndpointOnWire, AcksIn, Sent, Packets;
    var x' := Emit(x, Flush(Ideal, e));
    FlushJoins(x, e);
    FlushPays(e);
    FlushReceiver(Ideal, e);
    forall n, s | 0 <= n < |x'.out| && s in x'.out[n] && s.cmd == CMD_ACK ensures Sent(peer, Ack(s.sn, s.ts)) {
      if n >= |x.out| {
        assert Sends(x, x', s);
        FlushSends(x, e, s);
        AckIsIn(Flush(Ideal, e).out, s);
      } else {
        assert x'.out[n] == x.out[n];
      }
    }
  }

  lemma ActEchoes(x: Node, peer: Node, act: Action)
    requires Sane(x) && Echoes(x, peer)
    ensures Echoes(LiftedAct(x, peer, act), peer)
  {
    hide Sane, Flush, Send, KcpModel.Recv, TickAt, Input, Sent, EndpointOnWire;
    match act
    case SendBytes(_, _) =>
    case RecvBytes(_, cap) => RecvKeepsAcks(Lifted, x.e.cfg.rcvWnd, x.e.rcv, cap);
    case UpdateAt(_, _) =>
      FlushActs(x, peer, act);
      ClockedWire(x, act);
      if Flushes(x.e, act) {
        FlushEchoes(x, peer, Clocked(x.e, act));
      }
    case FlushNow(_) =>
      FlushActs(x, peer, act);
      ClockedWire(x, act);
      if Flushes(x.e, act) {
        FlushEchoes(x, peer, x.e);
      }
    case Deliver(_, _, _) => DeliverEchoes(x, peer, act);
  }

  /** Nothing is ever unsent. */
  lemma OutGrows(x: Node, peer: Node, act: Action)
    ensures x.out <= LiftedAct(x, peer, act).out
  {
    hide Flush, Send, KcpModel.Recv, TickAt, Input, Packets;
  }

  lemma PeerGrows(x: Node, peer: Node, peer': Node)
    requires Echoes(x, peer) && peer.out <= peer'.out
    ensures Echoes(x, peer')
  {
    forall a | Sent(peer, a) ensures Sent(peer', a) {
      var n, q :| 0 <= n < |peer.out| && q in peer.out[n] && q.cmd == CMD_PUSH && q.sn == a.sn && q.ts == a.ts;
      assert peer'.out[n] == peer.out[n];
    }
  }

  lemma {:induction false} RunEchoes(s: System, w: WSystem, acts: seq<Action>)
    requires Matched(s, w) && Echoes(s.left, s.right) && Echoes(s.right, s.left)
    ensures var t := LiftedRun(s, acts); Echoes(t.left, t.right) && Echoes(t.right, t.left)
    decreases |acts|
  {
    hide Sane, Sim, Echoes, LiftedAct, WStep;
    if acts != [] {
      var act := acts[0];
      if act.who.Left? {
        ActEchoes(s.left, s.right, act);
        OutGrows(s.left, s.right, act);
        PeerGrows(s.right, s.left, LiftedAct(s.left, s.right, act));
      } else {
        ActEchoes(s.right, s.left, act);
        OutGrows(s.right, s.left, act);
        PeerGrows(s.left, s.right, LiftedAct(s.right, s.left, act));
      }
      StepMatched(s, w, act);
      RunEchoes(LiftedStep(s, act), WStep(w, act), acts[1..]);
    }
  }

  /** Over every run, each acknowledgement carries the number and the time of a data
      segment that its addressee has sent. */
  lemma AcksAreEchoes(left: Config, right: Config, acts: seq<Action>)
    requires left.conv == right.conv
    ensures var s := LiftedRun(Initial(left, right), acts);
            Matched(s, WRun(WInitial(left, right), acts)) && Echoes(s.left, s.right) && Echoes(s.right, s.left)
  {
    hide Matched, LiftedRun, WRun;
    StartMatched(left, right);
    ProgramIsLifted(left, right, acts);
    RunEchoes(Initial(left, right), WInitial(left, right), acts);
  }

  // ---------------------------------------------------------------- the estimate

  /** The round-trip samples that a packet gives at time `now`: the ages of the
      transmissions it acknowledges, unless they lie in the future. */
  function Samples(segs: seq<Segment>, now: int): seq<int> {
    if segs == [] then []
    else (if segs[0].cmd == CMD_ACK && TimeDiff(now, segs[0].ts) >= 0 then [TimeDiff(now, segs[0].ts)] else [])
         + Samples(segs[1..], now)
  }

  /** The estimate after some samples. */
  function Learn(cfg: Config, p: Pace, samples: seq<int>): Pace
    decreases |samples|
  {
    if samples == [] then p else Learn(cfg, UpdateAck(cfg, p, samples[0]), samples[1..])
  }

  /** The fields of the estimate. */
  predicate SameEstimate(p: Pace, q: Pace) { p.srtt == q.srtt && p.rttval == q.rttval && p.rto == q.rto }

  lemma LearnAlike(cfg: Config, p: Pace, q: Pace, rtt: int)
    requires SameEstimate(p, q)
    ensures SameEstimate(UpdateAck(cfg, p, rtt), UpdateAck(cfg, q, rtt))
  {
    hide TruncDiv;
  }

  lemma {:induction false} LearnSame(cfg: Config, p: Pace, q: Pace, samples: seq<int>)
    requires SameEstimate(p, q)
    ensures SameEstimate(Learn(cfg, p, samples), Learn(cfg, q, samples))
    decreases |samples|
  {
    hide UpdateAck, SameEstimate;
    if samples != [] {
      LearnAlike(cfg, p, q, samples[0]);
      LearnSame(cfg, UpdateAck(cfg, p, samples[0]), UpdateAck(cfg, q, samples[0]), samples[1..]);
    }
  }

  lemma TakeLearns(m: Arith, st: Intake, s: Segment)
    ensures var e, p, rtt := TakeSegment(m, st, s).e, st.e.pace, TimeDiff(st.e.pace.current, s.ts);
            && e.cfg == st.e.cfg && e.pace.current == p.current
            && SameEstimate(e.pace, if s.cmd == CMD_ACK && rtt >= 0 then UpdateAck(st.e.cfg, p, rtt) else p)
  {
    hide ParseUna, ParseAck, ParsePush, UpdateAck, TimeDiff;
    LearnAlike(st.e.cfg, st.e.pace, st.e.pace.(rmtWnd := s.wnd), TimeDiff(st.e.pace.current, s.ts));
  }

  lemma SamplesStep(segs: seq<Segment>, now: int, cfg: Config, p: Pace)
    requires segs != []
    ensures var s, rest := segs[0], Samples(segs[1..], now);
            Learn(cfg, p, Samples(segs, now)) ==
            Learn(cfg,
                  if s.cmd == CMD_ACK && TimeDiff(now, s.ts) >= 0 then UpdateAck(cfg, p, TimeDiff(now, s.ts)) else p,
                  rest)
  {
    hide UpdateAck, TimeDiff;
    var s, rest := segs[0], Samples(segs[1..], now);
    if s.cmd == CMD_ACK && TimeDiff(now, s.ts) >= 0 {
      assert Samples(segs, now)[0] == TimeDiff(now, s.ts) && Samples(segs, now)[1..] == rest;
    } else {
      assert Samples(segs, now) == rest;
    }
  }

  lemma {:induction false} TakeAllLearn(m: Arith, st: Intake, segs: seq<Segment>)
    ensures SameEstimate(TakeSegments(m, st, segs).e.pace, Learn(st.e.cfg, st.e.pace, Samples(segs, st.e.pace.current)))
    decreases |segs|
  {
    hide TakeSegment, UpdateAck, TimeDiff, Learn, Samples;
    if segs == [] {
      NoSamples(st.e.cfg, st.e.pace, st.e.pace.current);
    } else {
      var cfg, p, s, now := st.e.cfg, st.e.pace, segs[0], st.e.pace.current;
      var st1 := TakeSegment(m, st, s);
      var p1 := if s.cmd == CMD_ACK && TimeDiff(now, s.ts) >= 0 then UpdateAck(cfg, p, TimeDiff(now, s.ts)) else p;
      TakeLearns(m, st, s);
      TakeAllLearn(m, st1, segs[1..]);
      SamplesStep(segs, now, cfg, p);
      LearnSame(cfg, st1.e.pace, p1, Samples(segs[1..], now));
    }
  }

  lemma NoSamples(cfg: Config, p: Pace, now: int)
    ensures Learn(cfg, p, Samples([], now)) == p
  {
  }

  /** ikcp_input learns from every acknowledgement in a packet, in order. */
  lemma InputLearns(m: Arith, e: Endpoint, segs: seq<Segment>)
    ensures SameEstimate(Input(m, e, segs).pace, Learn(e.cfg, e.pace, Samples(segs, e.pace.current)))
  {
    hide TakeSegments, ParseFastack, Learn;
    TakeAllLearn(m, Intake(e, false, 0, 0), segs);
  }

  /** The first sample is taken as it is. A later one moves the mean by an eighth of the
      distance and the deviation by a quarter, rounded down. The timeout is the mean with
      four deviations, or the interval if that is more, within its limits. */
  lemma LearnOne(cfg: Config, p: Pace, rtt: int)
    requires p.srtt >= 0 && p.rttval >= 0 && rtt >= 0
    ensures var q, off := UpdateAck(cfg, p, rtt), if rtt >= p.srtt then rtt - p.srtt else p.srtt - rtt;
            && (p.srtt == 0 ==> q.srtt == rtt && 2 * q.rttval <= rtt <= 2 * q.rttval + 1)
            && (p.srtt > 0 ==> && (8 * q.srtt <= 7 * p.srtt + rtt < 8 * q.srtt + 8 || (q.srtt == 1 && 7 * p.srtt + rtt < 8))
                               && 4 * q.rttval <= 3 * p.rttval + off < 4 * q.rttval + 4
                               && Min(p.srtt, rtt) <= q.srtt <= Max(p.srtt, rtt))
            && q.rto == Min(Max(q.srtt + Max(cfg.interval, 4 * q.rttval), cfg.minRto), 4000)
  {
  }

  lemma Rest(samples: seq<int>)
    requires samples != []
    ensures forall x :: x in samples[1..] ==> x in samples
  {
  }

  /** Samples between `lo` and `hi` keep the mean there, and the deviation below their
      range once it is. */
  lemma {:induction false} LearnWithin(cfg: Config, p: Pace, samples: seq<int>, lo: int, hi: int)
    requires 1 <= lo <= p.srtt <= hi && 0 <= p.rttval && (forall x :: x in samples ==> lo <= x <= hi)
    ensures var q := Learn(cfg, p, samples); lo <= q.srtt <= hi && 0 <= q.rttval <= Max(p.rttval, hi - lo)
    decreases |samples|
  {
    hide UpdateAck;
    if samples != [] {
      assert samples[0] in samples;
      LearnOne(cfg, p, samples[0]);
      Rest(samples);
      LearnWithin(cfg, UpdateAck(cfg, p, samples[0]), samples[1..], lo, hi);
    }
  }

  /** On a link with a constant round trip `r` the estimate settles on it: after as many
      samples as the first deviation, the timeout is `r` and one interval, in its limits. */
  lemma {:induction false} LearnSettles(cfg: Config, p: Pace, samples: seq<int>, r: int)
    requires 1 <= r && p.srtt == r && 0 <= p.rttval <= |samples| && samples != []
    requires forall x :: x in samples ==> x == r
    ensures var q := Learn(cfg, p, samples);
            q.srtt == r && q.rttval == 0 && q.rto == Min(Max(r + cfg.interval, cfg.minRto), 4000)
    decreases |samples|
  {
    hide UpdateAck;
    assert samples[0] in samples;
    LearnOne(cfg, p, samples[0]);
    var q := UpdateAck(cfg, p, samples[0]);
    Rest(samples);
    if |samples| > 1 {
      LearnSettles(cfg, q, samples[1..], r);
    } else {
      assert Learn(cfg, p, samples) == q by {
        assert samples[1..] == [];
      }
    }
  }
}
