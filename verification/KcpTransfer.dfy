/** What is proved of the unbounded system, said of the program as it runs: of its
    32-bit numbers, compared modulo 2^32. */
module KcpTransfer {
  import opened Words
  import opened KcpModel
  import opened KcpLists
  import opened KcpBytes
  import opened KcpWrap
  import opened KcpSystem
  import opened KcpProgram
  import opened KcpProgress

  lemma ProgramCoupled(left: Config, right: Config, acts: seq<Action>)
    requires left.conv == right.conv && RecentRun(Initial(left, right), acts)
    ensures Coupled(Run(Initial(left, right), acts), WRun(WInitial(left, right), acts))
  {
    StartCoupled(left, right);
    RunCoupled(Initial(left, right), WInitial(left, right), acts);
  }

  /** How far `x` lies above `y` on the 32-bit circle. */
  function Above(x: int, y: int): int { U32(x - y) }

  lemma AboveIs(x: int, y: int)
    requires 0 <= x - y < W32
    ensures Above(U32(x), U32(y)) == x - y
  {
    SubWraps(x, y);
  }

  // ---------------------------------------------------------------- no last copy is dropped

  /** The `k`-th number from the one `r` expects next. */
  function Coming(r: Receiver, k: int): int { U32(r.nxt + k) }

  /** Every number from the one the receiver expects up to the one the sender assigns
      next is buffered by the sender or held by the receiver. */
  ghost predicate WNothingLost(s: Sender, r: Receiver) {
    forall k :: 0 <= k < Above(s.nxt, r.nxt) ==> Flying(s.buf, Coming(r, k)) || Arrived(r.buf, Coming(r, k))
  }

  lemma FlyingCut(buf: seq<InFlight>, sn: int)
    requires Flying(buf, sn)
    ensures Flying(WrapFlight(buf), U32(sn))
  {
    var i :| 0 <= i < |buf| && buf[i].sn == sn;
    assert WrapFlight(buf)[i].sn == U32(sn);
  }

  lemma ArrivedCut(buf: seq<Received>, sn: int)
    requires Arrived(buf, sn)
    ensures Arrived(WrapArrived(buf), U32(sn))
  {
    var i :| 0 <= i < |buf| && buf[i].sn == sn;
    assert WrapArrived(buf)[i].sn == U32(sn);
  }

  lemma NothingLostCut(x: Node, y: Node)
    requires Stream(x, y)
    ensures WNothingLost(WrapSender(x.e.snd), WrapReceiver(y.e.rcv))
  {
    LeadBound(x, y);
    NumbersCut(x.e.snd, y.e.rcv);
  }

  lemma NumbersCut(s: Sender, r: Receiver)
    requires NothingLost(s, r) && 0 <= r.nxt <= s.nxt < r.nxt + W32
    ensures WNothingLost(WrapSender(s), WrapReceiver(r))
  {
    hide WrapFlight, WrapArrived, Flying, Arrived;
    var ws, wr := WrapSender(s), WrapReceiver(r);
    AboveIs(s.nxt, r.nxt);
    forall k | 0 <= k < Above(ws.nxt, wr.nxt)
      ensures Flying(ws.buf, Coming(wr, k)) || Arrived(wr.buf, Coming(wr, k))
    {
      AddWraps(r.nxt, k);
      var sn := r.nxt + k;
      assert Flying(s.buf, sn) || Has(r, sn);
      if Flying(s.buf, sn) {
        FlyingCut(s.buf, sn);
      } else {
        ArrivedCut(r.buf, sn);
      }
    }
  }

  /** In every reachable state of the program no acknowledgement has removed the last
      copy of a segment. */
  lemma ProgramNeverLast(left: Config, right: Config, acts: seq<Action>)
    requires left.conv == right.conv && RecentRun(Initial(left, right), acts)
    ensures var w := WRun(WInitial(left, right), acts);
            WNothingLost(w.left.e.snd, w.right.e.rcv) && WNothingLost(w.right.e.snd, w.left.e.rcv)
  {
    hide Run, WRun, WNothingLost;
    ProgramCoupled(left, right, acts);
    var s := Run(Initial(left, right), acts);
    NothingLostCut(s.left, s.right);
    NothingLostCut(s.right, s.left);
  }

  // ---------------------------------------------------------------- windows

  /** The windows of one direction on the circle: both lists in order from where they
      begin, at most the send window in flight, arrivals inside the receive window,
      and neither receive list longer than it. */
  ghost predicate WWindowsOk(cfg: Config, s: Sender, peer: Config, r: Receiver) {
    && Above(s.nxt, s.una) <= cfg.sndWnd
    && (forall i :: 0 <= i < |s.buf| ==> Above(s.buf[i].sn, s.una) < Above(s.nxt, s.una))
    && (forall i, j :: 0 <= i < j < |s.buf| ==> Above(s.buf[i].sn, s.una) < Above(s.buf[j].sn, s.una))
    && (forall i :: 0 <= i < |r.buf| ==> Above(r.buf[i].sn, r.nxt) < peer.rcvWnd)
    && (forall i, j :: 0 <= i < j < |r.buf| ==> Above(r.buf[i].sn, r.nxt) < Above(r.buf[j].sn, r.nxt))
    && |r.buf| <= peer.rcvWnd && |r.queue| <= peer.rcvWnd
  }

  lemma WindowsCut(x: Node, y: Node)
    requires WindowsOk(x, y)
    ensures WWindowsOk(x.e.cfg, WrapSender(x.e.snd), y.e.cfg, WrapReceiver(y.e.rcv))
  {
    var s, r := x.e.snd, y.e.rcv;
    var ws, wr := WrapSender(s), WrapReceiver(r);
    AboveIs(s.nxt, s.una);
    forall i | 0 <= i < |s.buf| ensures Above(ws.buf[i].sn, ws.una) == s.buf[i].sn - s.una < s.nxt - s.una {
      assert s.buf[i] in s.buf;
      AboveIs(s.buf[i].sn, s.una);
    }
    forall i | 0 <= i < |r.buf| ensures Above(wr.buf[i].sn, wr.nxt) == r.buf[i].sn - r.nxt < y.e.cfg.rcvWnd {
      assert r.buf[i] in r.buf;
      AboveIs(r.buf[i].sn, r.nxt);
    }
  }

  /** The windows hold in every reachable state of the program. */
  lemma ProgramWindowsHold(left: Config, right: Config, acts: seq<Action>)
    requires left.conv == right.conv && RecentRun(Initial(left, right), acts)
    ensures var w := WRun(WInitial(left, right), acts);
            && WWindowsOk(w.left.e.cfg, w.left.e.snd, w.right.e.cfg, w.right.e.rcv)
            && WWindowsOk(w.right.e.cfg, w.right.e.snd, w.left.e.cfg, w.left.e.rcv)
  {
    hide Run, WRun, WWindowsOk, WindowsOk;
    ProgramCoupled(left, right, acts);
    WindowsHold(left, right, acts);
    var s := Run(Initial(left, right), acts);
    WindowsCut(s.left, s.right);
    WindowsCut(s.right, s.left);
  }

  // ---------------------------------------------------------------- a clean round

  lemma DueCut(e: Endpoint)
    ensures AllDue(WrapEndpoint(e)) ==> AllDue(e)
  {
    if AllDue(WrapEndpoint(e)) {
      forall f | f in e.snd.buf ensures !Due(e.cfg, e.pace.current, f).Quiet? {
        var i :| 0 <= i < |e.snd.buf| && e.snd.buf[i] == f;
        assert WrapEndpoint(e).snd.buf[i] in WrapEndpoint(e).snd.buf;
      }
    }
  }

  /** From every reachable state of the program one clean round clears the window. The
      run is `acts`, a flush, the deliveries `there`, a flush back and `back`. */
  lemma ProgramCleanRound(left: Config, right: Config, acts: seq<Action>, there: seq<Action>, back: seq<Action>)
    requires left.conv == right.conv && RecentRun(Initial(left, right), acts)
    requires var s1 := Step(Run(Initial(left, right), acts), FlushNow(Left));
             RecentRun(s1, there) && RecentRun(Step(Run(s1, there), FlushNow(Right)), back)
    requires var w := WRun(WInitial(left, right), acts);
             && w.left.e.pace.updated && w.right.e.pace.updated && AllDue(w.left.e)
             && w.right.e.rcv.queue == [] && w.right.e.cfg.rcvWnd >= w.left.e.cfg.sndWnd
             && OnlyDeliveries(there, Right) && OnlyDeliveries(back, Left)
             && Covers(there, |w.left.out|, |WStep(w, FlushNow(Left)).left.out|)
             && var w2 := WRun(WStep(w, FlushNow(Left)), there);
                Covers(back, |w2.right.out|, |WStep(w2, FlushNow(Right)).right.out|)
    ensures var w1 := WStep(WRun(WInitial(left, right), acts), FlushNow(Left));
            var w4 := WRun(WStep(WRun(w1, there), FlushNow(Right)), back);
            && w4.left.e.snd.una == w4.left.e.snd.nxt == w1.left.e.snd.nxt && w4.left.e.snd.buf == []
  {
    hide Run, WRun, Step, WStep, Coupled, RecentRun, AllDue, Covers, OnlyDeliveries;
    var s, w := Run(Initial(left, right), acts), WRun(WInitial(left, right), acts);
    ProgramCoupled(left, right, acts);
    FlushCoupled(s, w, Left);
    var s1, w1 := Step(s, FlushNow(Left)), WStep(w, FlushNow(Left));
    RunCoupled(s1, w1, there);
    var s2, w2 := Run(s1, there), WRun(w1, there);
    FlushCoupled(s2, w2, Right);
    var s3, w3 := Step(s2, FlushNow(Right)), WStep(w2, FlushNow(Right));
    RunCoupled(s3, w3, back);
    Same(s, w);
    Same(s1, w1);
    Same(s2, w2);
    Same(s3, w3);
    Same(Run(s3, back), WRun(w3, back));
    CleanRoundWhenever(left, right, acts, there, back);
  }

  lemma FlushCoupled(s: System, w: WSystem, who: Side)
    requires Coupled(s, w)
    ensures Coupled(Step(s, FlushNow(who)), WStep(w, FlushNow(who)))
  {
    hide Coupled, Step, WStep;
    StepCoupled(s, w, FlushNow(who));
  }

  /** What the two systems show alike. */
  lemma Same(s: System, w: WSystem)
    requires Coupled(s, w)
    ensures |w.left.out| == |s.left.out| && |w.right.out| == |s.right.out|
    ensures w.left.e.pace == s.left.e.pace && w.right.e.pace == s.right.e.pace
    ensures w.left.e.cfg == s.left.e.cfg && w.right.e.cfg == s.right.e.cfg
    ensures w.right.e.rcv.queue == [] <==> s.right.e.rcv.queue == []
    ensures AllDue(w.left.e) ==> AllDue(s.left.e)
    ensures w.left.e.snd == WrapSender(s.left.e.snd)
    ensures w.left.e.snd.buf == [] <==> s.left.e.snd.buf == []
  {
    hide Inv, WireOk, AllDue;
    DueCut(s.left.e);
  }
}
