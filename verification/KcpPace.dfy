/** What congestion control and window probing of contrib/kcp/ikcp.c keep. */
module KcpPace {
  import opened Words
  import opened KcpModel
  import opened KcpLists
  import opened KcpSystem
  import opened KcpProgram

  /** The window is a 16-bit number, and its byte count runs at most one segment
      ahead of it, so that no product or sum wraps around. */
  ghost predicate Paced(cfg: Config, p: Pace) {
    0 <= p.rmtWnd <= 0xffff && 0 <= p.cwnd <= 0xffff && 0 <= p.incr <= (p.cwnd + 1) * cfg.mss
  }

  /** An acknowledgement never shrinks the congestion window. It leaves a window that is
      not below what the peer announced alone, and takes no other past that; in slow
      start it adds exactly one. */
  lemma GrowthIsBounded(cfg: Config, p: Pace)
    requires Paced(cfg, p)
    ensures var q := GrowCwnd(cfg, p);
            && Paced(cfg, q) && p.cwnd <= q.cwnd <= Max(p.cwnd, p.rmtWnd)
            && (p.cwnd < p.rmtWnd && p.cwnd < p.ssthresh ==> q.cwnd == p.cwnd + 1)
  {
    hide U32, WindowFor;
    if p.cwnd < p.rmtWnd {
      Small(p.cwnd + 1);
      Product(p.cwnd + 1, cfg.mss);
      Product(p.rmtWnd, cfg.mss);
      OneMore(p.rmtWnd, cfg.mss);
      if p.cwnd < p.ssthresh {
        OneMore(p.cwnd + 1, cfg.mss);
        Small(p.incr + cfg.mss);
      } else {
        AvoidanceGrows(cfg, p);
      }
    }
  }

  lemma AvoidanceGrows(cfg: Config, p: Pace)
    requires Paced(cfg, p) && p.ssthresh <= p.cwnd < p.rmtWnd
    requires U32(p.rmtWnd * cfg.mss) == p.rmtWnd * cfg.mss >= 0
    ensures Paced(cfg, GrowCwnd(cfg, p)) && p.cwnd <= GrowCwnd(cfg, p).cwnd <= p.rmtWnd
  {
    hide U32, WindowFor;
    var mss, incr1 := cfg.mss, Max(p.incr, cfg.mss);
    MulMono(1, p.cwnd + 1, mss);
    Avoidance(mss, p.cwnd, incr1);
    var incr2 := U32(incr1 + (mss * mss) / incr1 + mss / 16);
    OneMore(p.rmtWnd, mss);
    OneMore(WindowFor(incr2, mss), mss);
  }

  /** One step of congestion avoidance below the peer's window adds its share of a segment,
      mss * mss / incr, and a sixteenth of one to the byte count. The window grows exactly
      when the byte count reaches one segment more. */
  lemma AvoidanceStep(cfg: Config, p: Pace)
    requires Paced(cfg, p) && p.ssthresh <= p.cwnd < p.rmtWnd && GrowCwnd(cfg, p).cwnd < p.rmtWnd
    ensures var q, incr, mss := GrowCwnd(cfg, p), Max(p.incr, cfg.mss), cfg.mss;
            var share := q.incr - incr - mss / 16;
            && share * incr <= mss * mss < (share + 1) * incr
            && (q.cwnd > p.cwnd <==> (p.cwnd + 1) * mss <= q.incr)
  {
    hide U32, WindowFor;
    var mss, incr := cfg.mss, Max(p.incr, cfg.mss);
    MulMono(1, p.cwnd + 1, mss);
    Product(p.cwnd + 1, mss);
    Share(mss, incr);
    Avoidance(mss, p.cwnd, incr);
    Small(incr + (mss * mss) / incr + mss / 16);
    ShareIs(mss, incr);
  }

  lemma ShareIs(mss: int, incr: int)
    requires 0 < mss <= incr
    ensures var share := (mss * mss) / incr; share * incr <= mss * mss < (share + 1) * incr
  {
    var share := (mss * mss) / incr;
    OneMore(share, incr);
    assert mss * mss == share * incr + (mss * mss) % incr;
  }

  /** A packet changes the congestion window only if it moves `una` forward, and then
      as one step of growth under the window it announces; never the threshold. */
  lemma InputGrows(m: Arith, e: Endpoint, segs: seq<Segment>)
    ensures var e', p, q := Input(m, e, segs), e.pace, Input(m, e, segs).pace;
            var grown := GrowCwnd(e.cfg, p.(rmtWnd := q.rmtWnd));
            && q.ssthresh == p.ssthresh
            && if Diff(m, e'.snd.una, e.snd.una) > 0 then q.cwnd == grown.cwnd && q.incr == grown.incr
               else q.cwnd == p.cwnd && q.incr == p.incr
  {
    hide TakeSegments, ParseFastack, GrowCwnd, Diff;
    var st0 := Intake(e, false, 0, 0);
    TakeKeepsCwnd(m, st0, segs);
    var st := TakeSegments(m, st0, segs);
    GrowAlike(e.cfg, st.e.pace, e.pace.(rmtWnd := st.e.pace.rmtWnd));
  }

  predicate SameCwnd(p: Pace, q: Pace) { p.cwnd == q.cwnd && p.incr == q.incr && p.ssthresh == q.ssthresh }

  lemma {:induction false} TakeKeepsCwnd(m: Arith, st: Intake, segs: seq<Segment>)
    ensures var e := TakeSegments(m, st, segs).e; e.cfg == st.e.cfg && SameCwnd(e.pace, st.e.pace)
    decreases |segs|
  {
    hide ParseUna, ParsePush, ParseAck, UpdateAck, TimeDiff, Diff;
    if segs != [] {
      TakeKeepsCwnd(m, TakeSegment(m, st, segs[0]), segs[1..]);
    }
  }

  lemma GrowAlike(cfg: Config, p: Pace, q: Pace)
    requires SameCwnd(p, q) && p.rmtWnd == q.rmtWnd
    ensures SameCwnd(GrowCwnd(cfg, p), GrowCwnd(cfg, q)) && GrowCwnd(cfg, p).rmtWnd == p.rmtWnd
  {
    hide U32, WindowFor;
    if p.ssthresh <= p.cwnd < p.rmtWnd {
      var mss, incr := cfg.mss, Max(p.incr, cfg.mss);
      AvoidanceIs(cfg, p, mss, incr, U32(incr + (mss * mss) / incr + mss / 16), U32((p.cwnd + 1) * mss),
        U32(p.rmtWnd * mss));
      AvoidanceIs(cfg, q, mss, incr, U32(incr + (mss * mss) / incr + mss / 16), U32((p.cwnd + 1) * mss),
        U32(p.rmtWnd * mss));
    }
  }

  /** Avoidance with its products named. */
  lemma AvoidanceIs(cfg: Config, p: Pace, mss: int, incr: int, more: int, full: int, most: int)
    requires p.ssthresh <= p.cwnd < p.rmtWnd && mss == cfg.mss && incr == Max(p.incr, mss)
    requires more == U32(incr + (mss * mss) / incr + mss / 16)
    requires full == U32((p.cwnd + 1) * mss) && most == U32(p.rmtWnd * mss)
    ensures var q, w := GrowCwnd(cfg, p), if full <= more then WindowFor(more, mss) else p.cwnd;
            q == p.(cwnd := Min(w, p.rmtWnd), incr := if w > p.rmtWnd then most else more)
  {
    hide U32, WindowFor;
  }

  lemma OneMore(a: int, b: int)
    requires 0 <= b
    ensures (a + 1) * b == a * b + b >= a * b
  {
  }

  lemma Small(x: int)
    requires 0 <= x < W32
    ensures U32(x) == x
  {
  }

  /** The step of congestion avoidance. */
  lemma Avoidance(mss: int, cwnd: int, incr: int)
    requires 0 < mss <= 1500 && 0 <= cwnd <= 0xffff && mss <= incr <= (cwnd + 1) * mss
    ensures var incr2 := U32(incr + (mss * mss) / incr + mss / 16);
            && 0 <= incr2
            && if U32((cwnd + 1) * mss) <= incr2
               then cwnd + 1 <= WindowFor(incr2, mss) && incr2 <= WindowFor(incr2, mss) * mss
               else incr2 <= (cwnd + 1) * mss
  {
    hide WindowFor, U32;
    Product(cwnd + 1, mss);
    Share(mss, incr);
    AvoidanceSum(mss, cwnd, incr, (mss * mss) / incr, (cwnd + 1) * mss);
  }

  /** The same with the products named: `share` is mss * mss / incr, `full` is the
      byte count of one segment more. */
  lemma AvoidanceSum(mss: int, cwnd: int, incr: int, share: int, full: int)
    requires 0 < mss <= 1500 && 0 <= cwnd <= 0xffff && mss <= incr <= full && 0 <= share <= mss
    requires full == (cwnd + 1) * mss <= 0x1_0000 * 1500
    ensures var incr2 := U32(incr + share + mss / 16);
            && 0 <= incr2
            && if U32(full) <= incr2
               then cwnd + 1 <= WindowFor(incr2, mss) && incr2 <= WindowFor(incr2, mss) * mss
               else incr2 <= full
  {
    hide WindowFor, U32;
    var incr2 := incr + share + mss / 16;
    Small(full);
    Small(incr2);
    if full <= incr2 {
      CeilAtLeast(incr2, mss, cwnd + 1);
    }
  }

  lemma Product(a: int, b: int)
    requires 0 <= a <= 0x1_0000 && 0 <= b <= 1500
    ensures U32(a * b) == a * b && 0 <= a * b <= 0x1_0000 * 1500
  {
    MulMono(a, 0x1_0000, b);
    MulMono(0, a, b);
  }

  lemma MulMono(a: int, b: int, c: int)
    requires a <= b && 0 <= c
    ensures a * c <= b * c
  {
    assert (b - a) * c >= 0;
  }

  lemma Share(mss: int, incr: int)
    requires 0 < mss <= incr
    ensures 0 <= (mss * mss) / incr <= mss
  {
    var q, r := (mss * mss) / incr, (mss * mss) % incr;
    MulMono(mss, incr, mss);
    assert mss * mss == incr * q + r;
    assert q > mss ==> incr * q > incr * mss by {
      if q > mss {
        MulMono(mss + 1, q, incr);
      }
    }
  }

  lemma CeilAtLeast(incr: int, mss: int, n: int)
    requires 0 < mss <= 1500 && 0 <= n && n * mss <= incr < 0x2000_0000
    ensures WindowFor(incr, mss) >= n && incr <= WindowFor(incr, mss) * mss
  {
    hide U32;
    Small(incr + mss - 1);
    var w := (incr + mss - 1) / mss;
    assert mss * w + (incr + mss - 1) % mss == incr + mss - 1;
    assert w < n ==> mss * w + mss <= mss * n by {
      if w < n {
        MulMono(w + 1, n, mss);
      }
    }
  }

  /** While the peer announces a closed window, probes wait between 7 and 120
      seconds, and a flush asks exactly when the wait is over. */
  lemma ProbesKeepComing(p: Pace)
    requires p.rmtWnd == 0 && (p.probeWait == 0 || PROBE_INIT <= p.probeWait <= PROBE_LIMIT) && !p.ask
    ensures var q := Probe(p);
            && PROBE_INIT <= q.probeWait <= PROBE_LIMIT
            && (q.ask <==> p.probeWait != 0 && TimeDiff(p.current, p.tsProbe) >= 0)
            && (p.probeWait == 0 || q.ask ==> q.tsProbe == U32(p.current + q.probeWait))
            && (q.ask ==> p.probeWait < q.probeWait || q.probeWait == PROBE_LIMIT)
  {
  }

  // ---------------------------------------------------------------- every run

  /** The configurations that conf_check accepts. */
  predicate Tame(cfg: Config) { cfg.fastResend <= 100 }

  lemma FlushPaced(cfg: Config, p: Pace, inflight: int, cwnd: int, lost: nat, change: nat, dead: bool)
    requires Tame(cfg) && Paced(cfg, p) && 0 <= inflight <= 65536
    ensures Paced(cfg, AfterFlush(cfg, p, inflight, cwnd, lost, change, dead))
  {
    hide U32;
    var th := Max(inflight / 2, THRESH_MIN);
    Resents(cfg, th);
    var w := U32(th + Resent(cfg));
    Product(w, cfg.mss);
    OneMore(w, cfg.mss);
    OneMore(1, cfg.mss);
  }

  /** Without fast retransmission the threshold is reached only after 2^32 - 1 skips,
      and the window then is one less. */
  lemma Resents(cfg: Config, th: int)
    requires Tame(cfg) && 2 <= th <= 32768
    ensures 0 <= U32(th + Resent(cfg)) <= 0xffff
  {
  }

  lemma ProbePaced(cfg: Config, p: Pace)
    requires Paced(cfg, p)
    ensures Paced(cfg, Probed(p))
  {
  }

  lemma EmitPaced(e: Endpoint)
    requires Tame(e.cfg) && Paced(e.cfg, e.pace)
    requires 0 <= e.snd.nxt - e.snd.una <= e.cfg.sndWnd
    ensures Paced(e.cfg, Flush(Ideal, e).e.pace)
  {
    hide Paced, AfterFlush, TransmitAll, Probed, Header;
    if e.pace.updated {
      var hdr, p := Header(e), Probed(e.pace);
      ProbePaced(e.cfg, e.pace);
      var k := FillSpec(e.snd, Window(e.cfg, p), p.current, p.rto);
      var s := Fill(Ideal, e.snd, Window(e.cfg, p), p.current, p.rto);
      var t := TransmitAll(e.cfg, p.rto, p.current, hdr, s.buf);
      FlushPaced(e.cfg, p, s.nxt - s.una, Window(e.cfg, p), t.lost, t.change, t.dead);
    }
  }

  lemma {:induction false} TakePaced(m: Arith, st: Intake, segs: seq<Segment>)
    requires Paced(st.e.cfg, st.e.pace) && forall s :: s in segs ==> 0 <= s.wnd <= 0xffff
    ensures var e := TakeSegments(m, st, segs).e; e.cfg == st.e.cfg && Paced(e.cfg, e.pace)
    decreases |segs|
  {
    hide ParseUna, ParsePush, ParseAck, UpdateAck;
    if segs != [] {
      assert segs[0] in segs;
      TakePaced(m, TakeSegment(m, st, segs[0]), segs[1..]);
    }
  }

  lemma InputPaced(m: Arith, e: Endpoint, segs: seq<Segment>)
    requires Paced(e.cfg, e.pace) && forall s :: s in segs ==> 0 <= s.wnd <= 0xffff
    ensures var e' := Input(m, e, segs); e'.cfg == e.cfg && Paced(e.cfg, e'.pace)
  {
    hide Paced, TakeSegments, GrowCwnd;
    var st0 := Intake(e, false, 0, 0);
    TakePaced(m, st0, segs);
    GrowthIsBounded(e.cfg, TakeSegments(m, st0, segs).e.pace);
  }

  lemma ActPaced(x: Node, peer: Node, act: Action)
    requires Stream(x, peer) && WireOk(peer) && Tame(x.e.cfg) && Paced(x.e.cfg, x.e.pace)
    ensures Paced(x.e.cfg, Act(x, peer, act).e.pace)
  {
    hide Paced, Flush, Input, KcpModel.Send, KcpModel.Recv, Stream;
    Ahead(x, peer);
    match act
    case SendBytes(_, _) =>
    case RecvBytes(_, _) => SamePace(x.e.cfg, x.e.pace, Act(x, peer, act).e.pace);
    case FlushNow(_) => EmitPaced(x.e);
    case UpdateAt(_, now) =>
      var t := TickAt(x.e.cfg, x.e.pace, now);
      var p := x.e.pace.(current := now, updated := true, tsFlush := t.tsFlush);
      SamePace(x.e.cfg, x.e.pace, p);
      EmitPaced(x.e.(pace := p));
    case Deliver(_, k, _) =>
      if k < |peer.out| {
        assert peer.out[k] in peer.out;
        InputPaced(Ideal, x.e, peer.out[k]);
      }
  }

  lemma Ahead(x: Node, peer: Node)
    requires Stream(x, peer)
    ensures 0 <= x.e.snd.nxt - x.e.snd.una <= x.e.cfg.sndWnd
  {
  }

  lemma SamePace(cfg: Config, p: Pace, q: Pace)
    requires Paced(cfg, p) && q.rmtWnd == p.rmtWnd && q.cwnd == p.cwnd && q.incr == p.incr
    ensures Paced(cfg, q)
  {
  }

  lemma {:induction false} RunPaced(s: System, w: WSystem, acts: seq<Action>)
    requires Coupled(s, w) && RecentRun(s, acts)
    requires Tame(s.left.e.cfg) && Paced(s.left.e.cfg, s.left.e.pace)
    requires Tame(s.right.e.cfg) && Paced(s.right.e.cfg, s.right.e.pace)
    ensures var w' := WRun(w, acts);
            && w'.left.e.cfg == s.left.e.cfg && Paced(s.left.e.cfg, w'.left.e.pace)
            && w'.right.e.cfg == s.right.e.cfg && Paced(s.right.e.cfg, w'.right.e.pace)
    decreases |acts|
  {
    hide Paced, Act, WAct, Stream, WireOk;
    if acts != [] {
      var act := acts[0];
      StepCoupled(s, w, act);
      if act.who.Left? {
        ActPaced(s.left, s.right, act);
        ActOnWire(s.left, s.right, act);
      } else {
        ActPaced(s.right, s.left, act);
        ActOnWire(s.right, s.left, act);
      }
      RunPaced(Step(s, act), WStep(w, act), acts[1..]);
    }
  }

  /** In every reachable state of the program the congestion window is in range, so
      that `GrowthIsBounded` says what its next growth does. */
  lemma PaceHolds(left: Config, right: Config, acts: seq<Action>)
    requires left.conv == right.conv && Tame(left) && Tame(right) && RecentRun(Initial(left, right), acts)
    ensures var w := WRun(WInitial(left, right), acts);
            Paced(left, w.left.e.pace) && Paced(right, w.right.e.pace)
  {
    hide WRun, RecentRun, Coupled;
    StartCoupled(left, right);
    RunPaced(Initial(left, right), WInitial(left, right), acts);
  }

  // ---------------------------------------------------------------- round trips

  /** With round trips under 2^27 milliseconds, which is 37 hours, the estimators stay
      below that too, and no intermediate value of ikcp_update_ack leaves 32 bits: the
      unbounded numbers of the model are what the program computes. */
  lemma EstimateFits(cfg: Config, p: Pace, rtt: int)
    requires 0 <= rtt < 0x800_0000 && 0 <= p.srtt < 0x800_0000 && 0 <= p.rttval < 0x800_0000
    ensures var q := UpdateAck(cfg, p, rtt);
            && 0 <= q.srtt < 0x800_0000 && 0 <= q.rttval < 0x800_0000
            && 7 * p.srtt + rtt < H32 && 3 * p.rttval + 0x800_0000 < H32 && q.srtt + 4 * q.rttval < H32
  {
  }
}
