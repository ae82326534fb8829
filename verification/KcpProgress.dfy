/** One clean round trip empties the send window: from any reachable state whose
    receiver has been drained, one flush of which every datagram arrives, and
    one flush back of which every datagram arrives, acknowledge everything. */
module KcpProgress {
  import opened Words
  import opened KcpModel
  import opened KcpLists
  import opened KcpBytes
  import opened KcpSystem

  // ---------------------------------------------------------------- what deliveries are

  ghost predicate OnlyDeliveries(acts: seq<Action>, who: Side) {
    forall a :: a in acts ==> a.Deliver? && a.who == who
  }

  /** Every datagram with index from `lo` up to `hi` is delivered at least once,
      in any order, among any other deliveries. */
  ghost predicate Covers(acts: seq<Action>, lo: nat, hi: nat) {
    forall k :: lo <= k < hi ==> Delivers(acts, k)
  }

  ghost predicate Delivers(acts: seq<Action>, k: nat) {
    exists i :: 0 <= i < |acts| && acts[i].Deliver? && acts[i].k == k
  }

  // ---------------------------------------------------------------- the receiving side

  /** What one packet leaves behind: every data segment inside the window has
      arrived and something waits to be acknowledged. */
  ghost predicate Got(r: Receiver, top: int, segs: seq<Segment>) {
    forall s :: s in segs && s.cmd == CMD_PUSH && s.sn < top ==> Has(r, s.sn) && r.acks != []
  }

  lemma TakeOneGets(x: Node, peer: Node, st: Intake, s: Segment, top: int)
    requires Taking(x, peer, st.e) && Honest(peer.e.rcv, peer.log, s)
    requires top <= st.e.rcv.nxt + st.e.cfg.rcvWnd
    ensures var e := TakeSegment(Ideal, st, s).e;
            && Got(e.rcv, top, [s]) && |st.e.rcv.acks| <= |e.rcv.acks|
            && Grows(st.e.rcv, e.rcv) && e.cfg == st.e.cfg
  {
    if s.cmd == CMD_PUSH {
      PushKeeps(st.e.cfg.rcvWnd, st.e.rcv, peer.log, s);
    }
  }

  lemma {:induction false} TakeAllGets(x: Node, peer: Node, st: Intake, segs: seq<Segment>, top: int)
    requires Taking(x, peer, st.e) && HonestPacket(peer.e.rcv, peer.log, segs)
    requires top <= st.e.rcv.nxt + st.e.cfg.rcvWnd
    ensures var e := TakeSegments(Ideal, st, segs).e;
            Got(e.rcv, top, segs) && |st.e.rcv.acks| <= |e.rcv.acks| && Grows(st.e.rcv, e.rcv)
    decreases |segs|
  {
    if segs != [] {
      TakeOneGets(x, peer, st, segs[0], top);
      TakeOneKeeps(x, peer, st, segs[0]);
      var st1 := TakeSegment(Ideal, st, segs[0]);
      TakeAllGets(x, peer, st1, segs[1..], top);
      GotCons(st1.e.rcv, TakeSegments(Ideal, st1, segs[1..]).e.rcv, top, segs);
    }
  }

  lemma GotCons(r: Receiver, r': Receiver, top: int, segs: seq<Segment>)
    requires segs != [] && Got(r, top, [segs[0]]) && Got(r', top, segs[1..])
    requires Grows(r, r') && |r.acks| <= |r'.acks|
    ensures Got(r', top, segs)
  {
    forall s | s in segs && s.cmd == CMD_PUSH && s.sn < top ensures Has(r', s.sn) && r'.acks != [] {
      if s == segs[0] {
        assert s in [segs[0]];
      } else {
        assert s in segs[1..];
      }
    }
  }

  /** The receiver from `y` to `y'` by deliveries alone. */
  ghost predicate Advances(y: Node, y': Node) {
    && y'.e.cfg == y.e.cfg && y'.out == y.out && y'.log == y.log && y'.e.pace.updated == y.e.pace.updated
    && Grows(y.e.rcv, y'.e.rcv) && |y.e.rcv.acks| <= |y'.e.rcv.acks|
    && |y'.e.rcv.queue| - y'.e.rcv.nxt == |y.e.rcv.queue| - y.e.rcv.nxt
  }

  lemma {:induction false} TakeAllUpdated(m: Arith, st: Intake, segs: seq<Segment>)
    ensures TakeSegments(m, st, segs).e.pace.updated == st.e.pace.updated
    decreases |segs|
  {
    if segs != [] {
      TakeAllUpdated(m, TakeSegment(m, st, segs[0]), segs[1..]);
    }
  }

  lemma DeliverGets(y: Node, x: Node, act: Action, top: int)
    requires Stream(x, y) && Stream(y, x) && act.Deliver? && top <= y.e.rcv.nxt + y.e.cfg.rcvWnd
    ensures var y' := Act(y, x, act);
            Advances(y, y') && (act.k < |x.out| ==> Got(y'.e.rcv, top, x.out[act.k]))
  {
    hide Stream, Got, Taking, HonestPacket;
    if act.k < |x.out| {
      var p := x.out[act.k];
      SentHonest(y, x, act.k);
      var st0 := Intake(y.e, false, 0, 0);
      TakingStarts(y, x);
      TakeAllGets(y, x, st0, p, top);
      TakeAllUpdated(Ideal, st0, p);
      InputKeeps(y, x, p);
    }
  }

  /** After the deliveries, every covered packet has been received. */
  lemma {:induction false} DeliveriesGet(s: System, acts: seq<Action>, top: int)
    requires Inv(s) && OnlyDeliveries(acts, Right) && top <= s.right.e.rcv.nxt + s.right.e.cfg.rcvWnd
    ensures var t := Run(s, acts);
            && Inv(t) && t.left == s.left && Advances(s.right, t.right)
            && forall k :: 0 <= k < |s.left.out| && Delivers(acts, k) ==> Got(t.right.e.rcv, top, s.left.out[k])
    decreases |acts|
  {
    hide Stream, Act, Got;
    if acts != [] {
      var act := acts[0];
      assert act in acts;
      DeliverGets(s.right, s.left, act, top);
      ActKeeps(s.right, s.left, act);
      var s1 := Step(s, act);
      assert forall a :: a in acts[1..] ==> a in acts;
      DeliveriesGet(s1, acts[1..], top);
      var t := Run(s1, acts[1..]);
      forall k | 0 <= k < |s.left.out| && Delivers(acts, k) ensures Got(t.right.e.rcv, top, s.left.out[k]) {
        if act.k == k {
          GotGrows(s1.right.e.rcv, t.right.e.rcv, top, s.left.out[k]);
        } else {
          DeliversTail(acts, k);
        }
      }
    }
  }

  lemma DeliversTail(acts: seq<Action>, k: nat)
    requires Delivers(acts, k) && !(acts[0].Deliver? && acts[0].k == k)
    ensures Delivers(acts[1..], k)
  {
    var i :| 0 <= i < |acts| && acts[i].Deliver? && acts[i].k == k;
    assert acts[1..][i - 1] == acts[i];
  }

  lemma GotGrows(r: Receiver, r': Receiver, top: int, segs: seq<Segment>)
    requires Got(r, top, segs) && Grows(r, r') && |r.acks| <= |r'.acks|
    ensures Got(r', top, segs)
  {
  }

  // ---------------------------------------------------------------- the sending side

  /** Everything in the send buffer is transmitted by a flush at this time. */
  ghost predicate AllDue(e: Endpoint) {
    forall f :: f in e.snd.buf ==> !Due(e.cfg, e.pace.current, f).Quiet?
  }

  lemma AllDueAfterFill(cfg: Config, s: Sender, cwnd: int, now: int, rto: int)
    requires forall f :: f in s.buf ==> !Due(cfg, now, f).Quiet?
    ensures forall f :: f in Fill(Ideal, s, cwnd, now, rto).buf ==> !Due(cfg, now, f).Quiet?
  {
    var k := FillSpec(s, cwnd, now, rto);
    var t := Fill(Ideal, s, cwnd, now, rto);
    forall f | f in t.buf ensures !Due(cfg, now, f).Quiet? {
      var i :| 0 <= i < |t.buf| && t.buf[i] == f;
      if i < |s.buf| {
        assert t.buf[..|s.buf|][i] == f;
        assert f in s.buf;
      } else {
        var j := i - |s.buf|;
        assert t.buf[|s.buf| + j] == InFlight(s.nxt + j, now, now, rto, 0, 0, s.queue[j]);
      }
    }
  }

  /** A flush with everything due carries every number in flight. */
  lemma FlushCarries(e: Endpoint, sn: int)
    requires e.pace.updated && AllDue(e) && Flying(Flush(Ideal, e).e.snd.buf, sn)
    ensures Carried(Flush(Ideal, e).out, sn)
  {
    var hdr, p := Header(e), Probed(e.pace);
    var s := Fill(Ideal, e.snd, Window(e.cfg, p), p.current, p.rto);
    AllDueAfterFill(e.cfg, e.snd, Window(e.cfg, p), p.current, p.rto);
    TransmitSpec(e.cfg, p.rto, p.current, hdr, s.buf);
    var t := TransmitAll(e.cfg, p.rto, p.current, hdr, s.buf);
    var i :| 0 <= i < |t.buf| && t.buf[i].sn == sn;
    assert s.buf[i] in s.buf;
    CarriedMore(ControlSegments(hdr, e.rcv.acks, Probe(e.pace)), t.out, sn);
  }

  /** A carried number travels in some new datagram. */
  lemma CarriedIn(mtu: int, segs: seq<Segment>, sn: int) returns (k: nat, s: Segment)
    requires Carried(segs, sn) && forall s :: s in segs ==> SegmentSize(s) <= mtu
    ensures k < |Packets(mtu, segs)| && s in Packets(mtu, segs)[k] && s.cmd == CMD_PUSH && s.sn == sn
  {
    PacketsSpec(mtu, segs);
    var i :| 0 <= i < |segs| && segs[i].cmd == CMD_PUSH && segs[i].sn == sn;
    s := segs[i];
    JoinMember(Packets(mtu, segs), s);
    var p :| p in Packets(mtu, segs) && s in p;
    k :| k < |Packets(mtu, segs)| && Packets(mtu, segs)[k] == p;
  }

  /** A drained receiver has everything below the sender's oldest number. */
  lemma UnaReached(x: Node, y: Node)
    requires Stream(x, y) && y.e.rcv.queue == []
    ensures x.e.snd.una <= y.e.rcv.nxt
  {
    var n := y.e.rcv.nxt;
    if n < x.e.snd.nxt {
      NextMissing(y.e.cfg.rcvWnd, y.e.rcv, x.log);
      assert !Has(y.e.rcv, n);
      var i :| 0 <= i < |x.e.snd.buf| && x.e.snd.buf[i].sn == n;
      assert i == 0 || x.e.snd.buf[0].sn < x.e.snd.buf[i].sn;
    }
  }

  lemma NextMissing(wnd: int, r: Receiver, log: seq<seq<byte>>)
    requires ReceiverOk(wnd, r, log) && Drained(wnd, r) && |r.queue| < wnd
    ensures !Has(r, r.nxt)
  {
    forall i | 0 <= i < |r.buf| ensures r.buf[i].sn != r.nxt {
      assert r.buf[0] in r.buf;
      assert i == 0 || r.buf[0].sn < r.buf[i].sn;
    }
  }

  /** Once every assigned number has arrived, and the queue has room for them,
      the receiver expects the next unassigned number. */
  lemma CaughtUp(x: Node, y: Node)
    requires Stream(x, y)
    requires forall sn :: 0 <= sn < x.e.snd.nxt ==> Has(y.e.rcv, sn)
    requires |y.e.rcv.queue| + (x.e.snd.nxt - y.e.rcv.nxt) <= y.e.cfg.rcvWnd
    ensures y.e.rcv.nxt == x.e.snd.nxt
  {
    if y.e.rcv.nxt < x.e.snd.nxt {
      NextMissing(y.e.cfg.rcvWnd, y.e.rcv, x.log);
      assert false;
    }
  }

  // ---------------------------------------------------------------- the way back

  lemma {:induction false} AckUna(hdr: Segment, acks: seq<Ack>)
    ensures |AckSegments(hdr, acks)| == |acks|
    ensures forall s :: s in AckSegments(hdr, acks) ==> s.una == hdr.una
  {
    if acks != [] {
      AckUna(hdr, acks[..|acks| - 1]);
    }
  }

  /** Every segment of a flush announces what its sender expects next. */
  lemma FlushAnnounces(e: Endpoint)
    requires e.pace.updated
    ensures forall s :: s in Flush(Ideal, e).out ==> s.una == e.rcv.nxt
    ensures e.rcv.acks != [] ==> Flush(Ideal, e).out != []
  {
    var hdr, p := Header(e), Probed(e.pace);
    var s := Fill(Ideal, e.snd, Window(e.cfg, p), p.current, p.rto);
    AckUna(hdr, e.rcv.acks);
    TransmitFrom(e.cfg, p.rto, p.current, hdr, s.buf);
  }

  /** A sender with nothing in flight stays so while it only receives. */
  lemma {:induction false} EmptyStays(st: Intake, segs: seq<Segment>)
    requires st.e.snd.buf == [] && st.e.snd.una == st.e.snd.nxt
    ensures var e := TakeSegments(Ideal, st, segs).e; e.snd == st.e.snd
    decreases |segs|
  {
    if segs != [] {
      EmptyStays(TakeSegment(Ideal, st, segs[0]), segs[1..]);
    }
  }

  /** An announcement of everything empties the send buffer. */
  lemma AnnounceClears(s: Sender, log: seq<seq<byte>>)
    requires SenderOk(s, log)
    ensures ParseUna(Ideal, s, s.nxt) == Sender(s.nxt, s.nxt, s.queue, [])
  {
    var k := DropBeforeSpec(s.buf, s.nxt);
    forall i | 0 <= i < |s.buf| ensures s.buf[i].sn < s.nxt {
      assert s.buf[i] in s.buf;
    }
    assert k == |s.buf|;
  }

  lemma InputEmpty(e: Endpoint, segs: seq<Segment>)
    requires e.snd.buf == [] && e.snd.una == e.snd.nxt
    ensures Input(Ideal, e, segs).snd == e.snd
  {
    EmptyStays(Intake(e, false, 0, 0), segs);
  }

  lemma InputClears(e: Endpoint, log: seq<seq<byte>>, segs: seq<Segment>)
    requires SenderOk(e.snd, log) && segs != [] && segs[0].una == e.snd.nxt
    ensures Input(Ideal, e, segs).snd == Sender(e.snd.nxt, e.snd.nxt, e.snd.queue, [])
  {
    AnnounceClears(e.snd, log);
    var st := TakeSegment(Ideal, Intake(e, false, 0, 0), segs[0]);
    assert st.e.snd == Sender(e.snd.nxt, e.snd.nxt, e.snd.queue, []);
    EmptyStays(st, segs[1..]);
  }

  ghost predicate Idle(s: Sender) { s.buf == [] && s.una == s.nxt }

  lemma {:induction false} DeliveriesClear(s: System, acts: seq<Action>, k: nat)
    requires Inv(s) && OnlyDeliveries(acts, Left)
    requires Idle(s.left.e.snd) ||
             (k < |s.right.out| && Delivers(acts, k) && s.right.out[k] != [] &&
              s.right.out[k][0].una == s.left.e.snd.nxt)
    ensures var t := Run(s, acts); Idle(t.left.e.snd) && t.left.e.snd.nxt == s.left.e.snd.nxt
    decreases |acts|
  {
    if acts == [] {
    } else {
      var act := acts[0];
      assert act in acts;
      ActKeeps(s.left, s.right, act);
      DeliverClears(s.left, s.right, act, k);
      var rest := acts[1..];
      assert forall a :: a in rest ==> a in acts;
      if !Idle(s.left.e.snd) && act.k != k {
        DeliversTail(acts, k);
      }
      DeliveriesClear(Step(s, act), rest, k);
    }
  }

  lemma DeliverClears(x: Node, y: Node, act: Action, k: nat)
    requires Stream(x, y) && Stream(y, x) && act.Deliver?
    requires Idle(x.e.snd) || (k < |y.out| && y.out[k] != [] && y.out[k][0].una == x.e.snd.nxt)
    ensures var x' := Act(x, y, act);
            x'.e.snd.nxt == x.e.snd.nxt && (Idle(x.e.snd) || act.k == k ==> Idle(x'.e.snd))
  {
    hide RecvOk, NothingLost, Input;
    if act.k < |y.out| {
      SentHonest(x, y, act.k);
      InputKeeps(x, y, y.out[act.k]);
      if Idle(x.e.snd) {
        InputEmpty(x.e, y.out[act.k]);
      } else if act.k == k {
        InputClears(x.e, x.log, y.out[k]);
      }
    }
  }

  // ---------------------------------------------------------------- the round

  /** Some datagram with index `lo` or more carries number `sn`. */
  ghost predicate Travels(out: seq<seq<Segment>>, lo: nat, sn: int) {
    exists n, s :: lo <= n < |out| && s in out[n] && s.cmd == CMD_PUSH && s.sn == sn
  }

  /** Everything in flight travels in a datagram with index `lo` or more. */
  ghost predicate Loaded(x: Node, lo: nat) {
    forall sn :: Flying(x.e.snd.buf, sn) ==> Travels(x.out, lo, sn)
  }

  lemma TravelsArrives(out: seq<seq<Segment>>, lo: nat, acts: seq<Action>, r: Receiver, top: int, sn: int)
    requires Travels(out, lo, sn) && sn < top && Covers(acts, lo, |out|)
    requires forall k :: 0 <= k < |out| && Delivers(acts, k) ==> Got(r, top, out[k])
    ensures Has(r, sn) && r.acks != []
  {
    var n, s :| lo <= n < |out| && s in out[n] && s.cmd == CMD_PUSH && s.sn == sn;
    assert Delivers(acts, n);
  }

  /** Delivering what carries everything in flight completes the receiver. */
  lemma DeliveredAll(s: System, acts: seq<Action>, lo: nat)
    requires Inv(s) && OnlyDeliveries(acts, Right) && Loaded(s.left, lo) && Covers(acts, lo, |s.left.out|)
    requires s.right.e.rcv.queue == [] && s.left.e.snd.nxt <= s.right.e.rcv.nxt + s.right.e.cfg.rcvWnd
    ensures var t := Run(s, acts);
            && Inv(t) && t.left == s.left && Advances(s.right, t.right)
            && t.right.e.rcv.nxt == s.left.e.snd.nxt
            && (s.left.e.snd.buf != [] ==> t.right.e.rcv.acks != [])
  {
    var top := s.left.e.snd.nxt;
    DeliveriesGet(s, acts, top);
    var t := Run(s, acts);
    var r := t.right.e.rcv;
    forall sn | 0 <= sn < top ensures Has(r, sn) {
      if !Has(s.right.e.rcv, sn) {
        TravelsArrives(s.left.out, lo, acts, r, top, sn);
      }
    }
    if s.left.e.snd.buf != [] {
      var f := s.left.e.snd.buf[0];
      assert f in s.left.e.snd.buf;
      TravelsArrives(s.left.out, lo, acts, r, top, f.sn);
    }
    CaughtUp(t.left, t.right);
  }

  /** The first flush loads everything in flight, within the peer's window. */
  lemma FirstFlush(x: Node, y: Node)
    requires Stream(x, y) && Stream(y, x) && x.e.pace.updated && AllDue(x.e)
    requires y.e.rcv.queue == [] && y.e.cfg.rcvWnd >= x.e.cfg.sndWnd
    ensures var x' := Emit(x, Flush(Ideal, x.e));
            && Stream(x', y) && Stream(y, x') && Loaded(x', |x.out|)
            && x'.e.snd.nxt <= y.e.rcv.nxt + y.e.cfg.rcvWnd
  {
    hide Flush, RecvOk, NetOk, NothingLost, SenderOk;
    SentSizes(x, y);
    var x' := Emit(x, Flush(Ideal, x.e));
    forall sn | Flying(x'.e.snd.buf, sn) ensures Travels(x'.out, |x.out|, sn) {
      var n, s := FoundIn(x, sn);
    }
    EmitKeeps(x, y, x.e);
    UnaReached(x, y);
    FlushUna(x.e);
    FlushReceiver(Ideal, x.e);
  }

  lemma FlushUna(e: Endpoint)
    ensures Flush(Ideal, e).e.snd.una == e.snd.una
  {
    if e.pace.updated {
      var p := Probed(e.pace);
      var k := FillSpec(e.snd, Window(e.cfg, p), p.current, p.rto);
    }
  }

  /** The datagrams a flush adds to the network. */
  lemma EmitAdds(x: Node, f: FlushResult, k: nat)
    requires k < |Packets(x.e.cfg.mtu, f.out)|
    ensures |x.out| + k < |Emit(x, f).out| == |x.out| + |Packets(x.e.cfg.mtu, f.out)|
    ensures Emit(x, f).out[|x.out| + k] == Packets(x.e.cfg.mtu, f.out)[k]
  {
  }

  lemma SentSizes(x: Node, y: Node)
    requires Stream(x, y) && Stream(y, x)
    ensures forall s :: s in Flush(Ideal, x.e).out ==> SegmentSize(s) <= x.e.cfg.mtu
  {
    var k, log' := FlushKeeps(x.e, x.log, y.e.rcv);
  }

  lemma FoundIn(x: Node, sn: int) returns (n: nat, seg: Segment)
    requires x.e.pace.updated && AllDue(x.e) && Flying(Flush(Ideal, x.e).e.snd.buf, sn)
    requires forall s :: s in Flush(Ideal, x.e).out ==> SegmentSize(s) <= x.e.cfg.mtu
    ensures var x' := Emit(x, Flush(Ideal, x.e));
            |x.out| <= n < |x'.out| && seg in x'.out[n] && seg.cmd == CMD_PUSH && seg.sn == sn
  {
    var f := Flush(Ideal, x.e);
    FlushCarries(x.e, sn);
    var k;
    k, seg := CarriedIn(x.e.cfg.mtu, f.out, sn);
    n := |x.out| + k;
    EmitAdds(x, f, k);
  }

  /** One clean round clears the window: whatever was in flight, and whatever
      else the flush added, is acknowledged. */
  lemma CleanRound(s: System, there: seq<Action>, back: seq<Action>)
    requires Inv(s) && s.left.e.pace.updated && s.right.e.pace.updated && AllDue(s.left.e)
    requires s.right.e.rcv.queue == [] && s.right.e.cfg.rcvWnd >= s.left.e.cfg.sndWnd
    requires OnlyDeliveries(there, Right) && OnlyDeliveries(back, Left)
    requires Covers(there, |s.left.out|, |Step(s, FlushNow(Left)).left.out|)
    requires var s2 := Run(Step(s, FlushNow(Left)), there);
             Covers(back, |s2.right.out|, |Step(s2, FlushNow(Right)).right.out|)
    ensures var s1 := Step(s, FlushNow(Left));
            var s4 := Run(Step(Run(s1, there), FlushNow(Right)), back);
            && s4.left.e.snd.una == s4.left.e.snd.nxt == s1.left.e.snd.nxt && s4.left.e.snd.buf == []
  {
    hide Run, Delivers, OnlyDeliveries, Flush, RecvOk, NetOk, NothingLost;
    var s1 := Step(s, FlushNow(Left));
    FirstFlush(s.left, s.right);
    DeliveredAll(s1, there, |s.left.out|);
    var s2 := Run(s1, there);
    ActKeeps(s2.right, s2.left, FlushNow(Right));
    var s3 := Step(s2, FlushNow(Right));
    if Idle(s3.left.e.snd) {
      DeliveriesClear(s3, back, 0);
    } else {
      assert s1.left.e.snd.buf != [];
      var k := Announced(s2.right, s2.left);
      assert Delivers(back, k);
      DeliveriesClear(s3, back, k);
    }
  }

  /** So it does from every reachable state. */
  lemma CleanRoundWhenever(left: Config, right: Config, acts: seq<Action>, there: seq<Action>, back: seq<Action>)
    requires var s := Run(Initial(left, right), acts);
             && s.left.e.pace.updated && s.right.e.pace.updated && AllDue(s.left.e)
             && s.right.e.rcv.queue == [] && s.right.e.cfg.rcvWnd >= s.left.e.cfg.sndWnd
             && OnlyDeliveries(there, Right) && OnlyDeliveries(back, Left)
             && Covers(there, |s.left.out|, |Step(s, FlushNow(Left)).left.out|)
             && var s2 := Run(Step(s, FlushNow(Left)), there);
                Covers(back, |s2.right.out|, |Step(s2, FlushNow(Right)).right.out|)
    ensures var s := Run(Initial(left, right), acts);
            var s1 := Step(s, FlushNow(Left));
            var s4 := Run(Step(Run(s1, there), FlushNow(Right)), back);
            && s4.left.e.snd.una == s4.left.e.snd.nxt == s1.left.e.snd.nxt && s4.left.e.snd.buf == []
  {
    hide Run, Step;
    InitialOk(left, right);
    RunKeeps(Initial(left, right), acts);
    CleanRound(Run(Initial(left, right), acts), there, back);
  }

  /** The first datagram of the answering flush announces everything. */
  lemma Announced(x: Node, y: Node) returns (k: nat)
    requires Stream(x, y) && Stream(y, x) && x.e.pace.updated && x.e.rcv.acks != []
    ensures var x' := Emit(x, Flush(Ideal, x.e));
            |x.out| <= k < |x'.out| && x'.out[k] != [] && x'.out[k][0].una == x.e.rcv.nxt
  {
    FlushAnnounces(x.e);
    SentSizes(x, y);
    k := FirstOf(x, Flush(Ideal, x.e), x.e.rcv.nxt);
  }

  lemma FirstOf(x: Node, f: FlushResult, una: int) returns (k: nat)
    requires f.out != [] && forall s :: s in f.out ==> s.una == una && SegmentSize(s) <= x.e.cfg.mtu
    ensures var x' := Emit(x, f); |x.out| <= k < |x'.out| && x'.out[k] != [] && x'.out[k][0].una == una
  {
    FirstPacket(x.e.cfg.mtu, f.out);
    EmitAdds(x, f, 0);
    k := |x.out|;
  }

  lemma FirstPacket(mtu: int, segs: seq<Segment>)
    requires segs != [] && forall s :: s in segs ==> SegmentSize(s) <= mtu
    ensures var ps := Packets(mtu, segs); ps != [] && ps[0] != [] && ps[0][0] in segs
  {
    PacketsSpec(mtu, segs);
    var ps := Packets(mtu, segs);
    assert ps != [];
    assert ps[0] in ps;
    JoinMember(ps, ps[0][0]);
  }
}
