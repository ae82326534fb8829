/** Two KCP endpoints over a network that keeps every datagram ever sent, so
    that it can lose, duplicate, reorder and delay them at will. A run is any
    list of actions; this module proves what every state of every run keeps
    when sequence numbers are unbounded. */
module KcpSystem {
  import opened Words
  import opened KcpModel
  import opened KcpLists
  import opened KcpBytes

  /** An endpoint with its history: every datagram it sent, the payload of each
      number it assigned, the bytes its user gave and the bytes its user got. */
  datatype Node = Node(
    e: Endpoint, out: seq<seq<Segment>>, log: seq<seq<byte>>, accepted: seq<byte>, delivered: seq<byte>)

  datatype Side = Left | Right

  type Time = x: int | 0 <= x < W32

  /** Bytes the packet layer adds behind a datagram: fewer than a header. */
  type Pad = x: seq<byte> | |x| < OVERHEAD

  datatype Action =
    | SendBytes(who: Side, data: seq<byte>)
    | RecvBytes(who: Side, cap: int)
    | UpdateAt(who: Side, now: Time)
    | FlushNow(who: Side)
    | Deliver(who: Side, k: nat, pad: Pad)

  datatype System = System(left: Node, right: Node)

  // ---------------------------------------------------------------- steps

  function Start(cfg: Config): Node { Node(Create(cfg), [], [], [], []) }

  /** Records a flush: its datagrams, and the payloads that got numbers. */
  function Emit(x: Node, f: FlushResult): Node {
    var moved := |x.e.snd.queue| - |f.e.snd.queue|;
    x.(e := f.e, out := x.out + Packets(x.e.cfg.mtu, f.out),
       log := x.log + if 0 <= moved <= |x.e.snd.queue| then x.e.snd.queue[..moved] else [])
  }

  function Act(x: Node, peer: Node, act: Action): Node {
    match act
    case SendBytes(_, data) =>
      var r := Send(x.e.cfg.mss, x.e.snd.queue, data);
      x.(e := x.e.(snd := x.e.snd.(queue := r.queue)), accepted := x.accepted + data[..Max(r.ret, 0)])
    case RecvBytes(_, cap) =>
      var r := Recv(Ideal, x.e.cfg.rcvWnd, x.e.rcv, cap);
      x.(e := x.e.(rcv := r.rcv, pace := x.e.pace.(tell := x.e.pace.tell || r.tell)),
         delivered := x.delivered + r.data)
    case UpdateAt(_, now) => Emit(x, Update(Ideal, x.e, now))
    case FlushNow(_) => Emit(x, Flush(Ideal, x.e))
    case Deliver(_, k, _) =>
      if k < |peer.out| then x.(e := Input(Ideal, x.e, peer.out[k])) else x
  }

  function Step(s: System, act: Action): System {
    if act.who.Left? then s.(left := Act(s.left, s.right, act)) else s.(right := Act(s.right, s.left, act))
  }

  function Run(s: System, acts: seq<Action>): System
    decreases |acts|
  {
    if acts == [] then s else Run(Step(s, acts[0]), acts[1..])
  }

  // ---------------------------------------------------------------- invariant

  ghost predicate SenderOk(s: Sender, log: seq<seq<byte>>) {
    && s.nxt == |log| && SortedFlight(s.buf)
    && (forall x :: x in s.buf ==> 0 <= x.sn < |log| && x.data == log[x.sn])
    && s.una == (if s.buf == [] then s.nxt else s.buf[0].sn)
  }

  ghost predicate SendOk(x: Node) {
    && SenderOk(x.e.snd, x.log)
    && x.e.snd.nxt - x.e.snd.una <= x.e.cfg.sndWnd
    && x.accepted == Flat(x.log) + Flat(x.e.snd.queue)
    && Sized(x.e.cfg.mss, x.e.snd.queue) && Sized(x.e.cfg.mss, x.log)
  }

  /** Number `sn` has reached this receiver. */
  ghost predicate Has(r: Receiver, sn: int) { 0 <= sn && (sn < r.nxt || Arrived(r.buf, sn)) }

  /** Nothing that could be handed on is held back. */
  ghost predicate Drained(wnd: int, r: Receiver) {
    r.buf == [] || r.buf[0].sn != r.nxt || |r.queue| >= wnd
  }

  ghost predicate Genuine(r: Receiver, log: seq<seq<byte>>, x: Received) {
    0 <= x.sn < |log| && x.data == log[x.sn] && x.frg == 0
  }

  ghost predicate ReceiverOk(wnd: int, r: Receiver, log: seq<seq<byte>>) {
    && 0 <= r.nxt <= |log| && |r.queue| <= wnd
    && SortedArrived(r.buf)
    && (forall x :: x in r.buf ==> Genuine(r, log, x) && r.nxt <= x.sn < r.nxt + wnd)
    && (forall x :: x in r.queue ==> x.frg == 0)
    && (forall a :: a in r.acks ==> Has(r, a.sn))
  }

  ghost predicate RecvOk(log: seq<seq<byte>>, y: Node) {
    && ReceiverOk(y.e.cfg.rcvWnd, y.e.rcv, log)
    && Drained(y.e.cfg.rcvWnd, y.e.rcv)
    && y.delivered + Payload(y.e.rcv.queue) == Flat(log[..y.e.rcv.nxt])
  }

  /** A segment that its sender may have put on the network. */
  ghost predicate Honest(r: Receiver, log: seq<seq<byte>>, s: Segment) {
    && 0 <= s.una <= r.nxt
    && (s.cmd == CMD_PUSH ==> 0 <= s.sn < |log| && s.data == log[s.sn] && s.frg == 0)
    && (s.cmd == CMD_ACK ==> Has(r, s.sn))
  }

  ghost predicate HonestPacket(r: Receiver, log: seq<seq<byte>>, p: seq<Segment>) {
    forall s :: s in p ==> Honest(r, log, s)
  }

  ghost predicate NetOk(x: Node) {
    forall p :: p in x.out ==> HonestPacket(x.e.rcv, x.log, p)
  }

  /** Every assigned number is still buffered by its sender or has arrived. */
  ghost predicate NothingLost(s: Sender, r: Receiver) {
    forall sn :: 0 <= sn < s.nxt ==> Flying(s.buf, sn) || Has(r, sn)
  }

  /** The half of the invariant about the stream from `x` to `y`. */
  ghost predicate Stream(x: Node, y: Node) {
    SendOk(x) && RecvOk(x.log, y) && NetOk(x) && NothingLost(x.e.snd, y.e.rcv)
  }

  ghost predicate Inv(s: System) { Stream(s.left, s.right) && Stream(s.right, s.left) }

  // ---------------------------------------------------------------- growth

  /** What a receiver may do between two states: move forward, forget nothing. */
  ghost predicate Grows(r: Receiver, r': Receiver) {
    r.nxt <= r'.nxt && forall sn :: Has(r, sn) ==> Has(r', sn)
  }

  lemma NetGrows(x: Node, x': Node)
    requires NetOk(x) && x'.out == x.out && x.log <= x'.log && Grows(x.e.rcv, x'.e.rcv)
    ensures NetOk(x')
  {
    forall p | p in x'.out ensures HonestPacket(x'.e.rcv, x'.log, p) {
      assert HonestPacket(x.e.rcv, x.log, p);
      forall s | s in p ensures Honest(x'.e.rcv, x'.log, s) {
        assert Honest(x.e.rcv, x.log, s);
      }
    }
  }

  lemma RecvLogGrows(log: seq<seq<byte>>, log': seq<seq<byte>>, y: Node)
    requires RecvOk(log, y) && log <= log'
    ensures RecvOk(log', y)
  {
    assert log'[..y.e.rcv.nxt] == log[..y.e.rcv.nxt];
  }

  lemma PayloadAppend(a: seq<Received>, b: seq<Received>)
    ensures Payload(a + b) == Payload(a) + Payload(b)
  {
    if a == [] {
      assert a + b == b;
    } else {
      assert (a + b)[1..] == a[1..] + b;
    }
  }

  // ---------------------------------------------------------------- receiving

  /** Handing on `k` genuine segments in order extends the stream by exactly
      their payloads. */
  lemma {:induction false} RunOfPayloads(log: seq<seq<byte>>, nxt: nat, run: seq<Received>)
    requires nxt + |run| <= |log|
    requires forall i :: 0 <= i < |run| ==> run[i].data == log[nxt + i]
    ensures Flat(log[..nxt]) + Payload(run) == Flat(log[..nxt + |run|])
  {
    if run == [] {
    } else {
      var k := |run| - 1;
      RunOfPayloads(log, nxt, run[..k]);
      assert run == run[..k] + [run[k]];
      PayloadAppend(run[..k], [run[k]]);
      assert Payload([run[k]]) == run[k].data;
      assert log[..nxt + k + 1] == log[..nxt + k] + [log[nxt + k]];
      FlatSnoc(log[..nxt + k], log[nxt + k]);
    }
  }

  /** From `r` to `d` the receiver queued exactly the payloads of the numbers
      it moved past. */
  ghost predicate Hands(log: seq<seq<byte>>, r: Receiver, d: Receiver) {
    && 0 <= r.nxt <= d.nxt <= |log|
    && |d.queue| == |r.queue| + (d.nxt - r.nxt) && d.queue[..|r.queue|] == r.queue
    && Flat(log[..r.nxt]) + Payload(d.queue[|r.queue|..]) == Flat(log[..d.nxt])
  }

  lemma HandsStream(log: seq<seq<byte>>, r: Receiver, d: Receiver, delivered: seq<byte>)
    requires Hands(log, r, d) && delivered + Payload(r.queue) == Flat(log[..r.nxt])
    ensures delivered + Payload(d.queue) == Flat(log[..d.nxt])
  {
    var more := d.queue[|r.queue|..];
    assert d.queue == r.queue + more;
    PayloadAppend(r.queue, more);
    Associate(delivered, Payload(r.queue), Payload(more));
  }

  /** `d` is `r` after its first `k` arrived segments went to the queue. */
  ghost predicate Moved(r: Receiver, d: Receiver, k: nat) {
    && k <= |r.buf|
    && d == Receiver(r.nxt + k, r.queue + r.buf[..k], r.buf[k..], r.acks)
    && forall i :: 0 <= i < k ==> r.buf[i].sn == r.nxt + i
  }

  lemma MovedHands(wnd: int, r: Receiver, d: Receiver, k: nat, log: seq<seq<byte>>)
    requires ReceiverOk(wnd, r, log) && Moved(r, d, k)
    ensures Hands(log, r, d)
  {
    hide Flat, Payload, ReceiverOk;
    var run := r.buf[..k];
    assert d.queue[|r.queue|..] == run && d.queue[..|r.queue|] == r.queue;
    RunGenuine(wnd, r, k, log);
    RunOfPayloads(log, r.nxt, run);
  }

  lemma RunGenuine(wnd: int, r: Receiver, k: nat, log: seq<seq<byte>>)
    requires ReceiverOk(wnd, r, log) && k <= |r.buf| && forall i :: 0 <= i < k ==> r.buf[i].sn == r.nxt + i
    ensures 0 <= r.nxt && r.nxt + k <= |log|
    ensures forall i :: 0 <= i < k ==> r.buf[..k][i].data == log[r.nxt + i]
  {
    forall i | 0 <= i < k ensures r.buf[i].data == log[r.nxt + i] && r.nxt + i < |log| {
      assert r.buf[i] in r.buf;
    }
    if k > 0 {
      assert r.buf[k - 1].data == log[r.nxt + (k - 1)];
    }
  }

  lemma MovedGrows(r: Receiver, d: Receiver, k: nat)
    requires Moved(r, d, k)
    ensures Grows(r, d)
  {
    forall sn | Has(r, sn) ensures Has(d, sn) {
      if sn >= r.nxt {
        var i :| 0 <= i < |r.buf| && r.buf[i].sn == sn;
        if i >= k {
          assert d.buf[i - k].sn == sn;
        }
      }
    }
  }

  lemma MovedBuffer(wnd: int, r: Receiver, d: Receiver, k: nat, log: seq<seq<byte>>)
    requires ReceiverOk(wnd, r, log) && Moved(r, d, k)
    ensures SortedArrived(d.buf)
    ensures forall x :: x in d.buf ==> Genuine(d, log, x) && d.nxt <= x.sn < d.nxt + wnd
    ensures forall x :: x in d.queue ==> x.frg == 0
  {
    forall i | 0 <= i < |d.buf| ensures d.buf[i] in r.buf && d.buf[i].sn >= d.nxt {
      assert d.buf[i] == r.buf[k + i];
      if k > 0 {
        assert r.buf[k - 1].sn < r.buf[k + i].sn;
      }
    }
    forall x | x in d.queue ensures x.frg == 0 {
      if x !in r.queue {
        assert x in r.buf[..k];
        assert x in r.buf;
      }
    }
  }

  lemma DrainKeeps(wnd: int, r: Receiver, log: seq<seq<byte>>)
    requires ReceiverOk(wnd, r, log)
    ensures var d := Drain(Ideal, wnd, r);
            && ReceiverOk(wnd, d, log) && Drained(wnd, d) && Grows(r, d) && Hands(log, r, d)
            && d.acks == r.acks
  {
    var k := DrainSpec(wnd, r);
    var d := Drain(Ideal, wnd, r);
    assert Moved(r, d, k);
    MovedHands(wnd, r, d, k, log);
    MovedGrows(r, d, k);
    MovedBuffer(wnd, r, d, k, log);
  }

  lemma InsertKeepsReceiver(wnd: int, r: Receiver, log: seq<seq<byte>>, seg: Received)
    requires ReceiverOk(wnd, r, log) && Genuine(r, log, seg) && r.nxt <= seg.sn < r.nxt + wnd
    ensures var r' := r.(buf := Insert(Ideal, r.buf, seg));
            ReceiverOk(wnd, r', log) && Grows(r, r') && Has(r', seg.sn)
  {
    hide Insert, SortedArrived, Arrived;
    InsertKeeps(r.buf, seg);
  }

  /** A genuine data segment leaves the receiver consistent, and its number,
      once acknowledged, has arrived. */
  lemma PushKeeps(wnd: int, r: Receiver, log: seq<seq<byte>>, s: Segment)
    requires ReceiverOk(wnd, r, log) && Drained(wnd, r) && wnd > 0
    requires 0 <= s.sn < |log| && s.data == log[s.sn] && s.frg == 0
    ensures var d := ParsePush(Ideal, wnd, r, s);
            && ReceiverOk(wnd, d, log) && Drained(wnd, d) && Grows(r, d) && Hands(log, r, d)
            && (s.sn < r.nxt + wnd ==> Has(d, s.sn) && d.acks == r.acks + [Ack(s.sn, s.ts)])
            && (s.sn >= r.nxt + wnd ==> d == r)
  {
    HandsSelf(log, r);
    if r.nxt <= s.sn < r.nxt + wnd {
      StoreKeeps(wnd, r, log, s);
    }
  }

  lemma HandsSelf(log: seq<seq<byte>>, r: Receiver)
    requires 0 <= r.nxt <= |log|
    ensures Hands(log, r, r) && forall acks :: Hands(log, r, r.(acks := acks))
  {
    assert r.queue[|r.queue|..] == [];
  }

  lemma AckListed(wnd: int, r: Receiver, log: seq<seq<byte>>, a: Ack)
    requires ReceiverOk(wnd, r, log) && Has(r, a.sn)
    ensures ReceiverOk(wnd, r.(acks := r.acks + [a]), log)
  {
    var r' := r.(acks := r.acks + [a]);
    forall b | b in r'.acks ensures Has(r', b.sn) {
      assert Has(r, b.sn);
    }
  }

  lemma StoreKeeps(wnd: int, r: Receiver, log: seq<seq<byte>>, s: Segment)
    requires ReceiverOk(wnd, r, log) && r.nxt <= s.sn < r.nxt + wnd
    requires s.sn < |log| && s.data == log[s.sn] && s.frg == 0
    ensures var d := ParsePush(Ideal, wnd, r, s);
            && ReceiverOk(wnd, d, log) && Drained(wnd, d) && Grows(r, d) && Hands(log, r, d)
            && Has(d, s.sn) && d.acks == r.acks + [Ack(s.sn, s.ts)]
  {
    var seg := Received(s.sn, s.frg, s.data);
    InsertKeepsReceiver(wnd, r, log, seg);
    var r1 := r.(buf := Insert(Ideal, r.buf, seg));
    AckListed(wnd, r1, log, Ack(s.sn, s.ts));
    var r2 := r1.(acks := r.acks + [Ack(s.sn, s.ts)]);
    DrainKeeps(wnd, r2, log);
    assert ParsePush(Ideal, wnd, r, s) == Drain(Ideal, wnd, r2);
    assert Has(r2, s.sn);
    assert Grows(r, r2);
  }

  lemma RecvKeeps(log: seq<seq<byte>>, y: Node, peer: Node, cap: int)
    requires RecvOk(log, y)
    ensures var y' := Act(y, peer, RecvBytes(Left, cap));
            RecvOk(log, y') && Grows(y.e.rcv, y'.e.rcv)
  {
    var wnd, r := y.e.cfg.rcvWnd, y.e.rcv;
    if r.queue != [] && PeekSize(r) <= cap {
      assert r.queue[0] in r.queue;
      TakeHead(wnd, r, log, y.delivered);
      assert Payload(r.queue[..1]) == r.queue[0].data;
    }
  }

  /** Handing out the first queued segment and refilling the queue. */
  lemma TakeHead(wnd: int, r: Receiver, log: seq<seq<byte>>, delivered: seq<byte>)
    requires ReceiverOk(wnd, r, log) && r.queue != []
    requires delivered + Payload(r.queue) == Flat(log[..r.nxt])
    ensures var d := Drain(Ideal, wnd, r.(queue := r.queue[1..]));
            && ReceiverOk(wnd, d, log) && Drained(wnd, d) && Grows(r, d)
            && delivered + r.queue[0].data + Payload(d.queue) == Flat(log[..d.nxt])
  {
    var r1 := r.(queue := r.queue[1..]);
    DrainKeeps(wnd, r1, log);
    Associate(delivered, r.queue[0].data, Payload(r1.queue));
    HandsStream(log, r1, Drain(Ideal, wnd, r1), delivered + r.queue[0].data);
  }

  // ---------------------------------------------------------------- acknowledgements

  /** Removing what the peer has from the send buffer keeps it consistent and
      never removes the last copy. */
  lemma UnaKeeps(s: Sender, log: seq<seq<byte>>, r: Receiver, una: int)
    requires SenderOk(s, log) && NothingLost(s, r) && una <= r.nxt
    ensures var s' := ParseUna(Ideal, s, una);
            SenderOk(s', log) && NothingLost(s', r) && s.una <= s'.una && s'.nxt == s.nxt && s'.queue == s.queue
  {
    var k := DropBeforeSpec(s.buf, una);
    var s' := ParseUna(Ideal, s, una);
    forall i | 0 <= i < |s'.buf| ensures s'.buf[i] == s.buf[k + i] {}
    forall sn | 0 <= sn < s.nxt ensures Flying(s'.buf, sn) || Has(r, sn) {
      if !Has(r, sn) {
        var i :| 0 <= i < |s.buf| && s.buf[i].sn == sn;
        assert i >= k;
        assert s'.buf[i - k].sn == sn;
      }
    }
  }

  lemma AckKeeps(s: Sender, log: seq<seq<byte>>, r: Receiver, sn: int)
    requires SenderOk(s, log) && NothingLost(s, r) && Has(r, sn)
    ensures var s' := ParseAck(Ideal, s, sn);
            SenderOk(s', log) && NothingLost(s', r) && s.una <= s'.una && s'.nxt == s.nxt && s'.queue == s.queue
  {
    DropOneKeeps(s.buf, sn);
    var s' := ParseAck(Ideal, s, sn);
    forall n | 0 <= n < s.nxt ensures Flying(s'.buf, n) || Has(r, n) {
      assert Flying(s.buf, n) || Has(r, n);
    }
  }

  lemma SameLineKeeps(s: Sender, s': Sender, log: seq<seq<byte>>, r: Receiver)
    requires SenderOk(s, log) && NothingLost(s, r)
    requires SameLine(s.buf, s'.buf) && s' == s.(buf := s'.buf)
    ensures SenderOk(s', log) && NothingLost(s', r)
  {
    forall sn | 0 <= sn < s.nxt ensures Flying(s'.buf, sn) || Has(r, sn) {
      if !Has(r, sn) {
        var i :| 0 <= i < |s.buf| && s.buf[i].sn == sn;
        assert s'.buf[i].sn == sn;
      }
    }
  }

  // ---------------------------------------------------------------- input

  /** What holds of endpoint `e` half-way through a packet from `peer`. */
  ghost predicate Taking(x: Node, peer: Node, e: Endpoint) {
    && e.cfg == x.e.cfg && e.snd.queue == x.e.snd.queue
    && SenderOk(e.snd, x.log) && x.e.snd.una <= e.snd.una && NothingLost(e.snd, peer.e.rcv)
    && ReceiverOk(e.cfg.rcvWnd, e.rcv, peer.log) && Drained(e.cfg.rcvWnd, e.rcv)
    && Grows(x.e.rcv, e.rcv) && |e.rcv.queue| - e.rcv.nxt == |x.e.rcv.queue| - x.e.rcv.nxt
    && x.delivered + Payload(e.rcv.queue) == Flat(peer.log[..e.rcv.nxt])
  }

  lemma TakingStarts(x: Node, peer: Node)
    requires Stream(x, peer) && Stream(peer, x)
    ensures Taking(x, peer, x.e)
  {
    assert Grows(x.e.rcv, x.e.rcv);
  }

  lemma SentHonest(x: Node, peer: Node, k: nat)
    requires Stream(peer, x) && k < |peer.out|
    ensures HonestPacket(peer.e.rcv, peer.log, peer.out[k])
  {
    assert peer.out[k] in peer.out;
  }

  lemma TakeOneKeeps(x: Node, peer: Node, st: Intake, s: Segment)
    requires Taking(x, peer, st.e) && Honest(peer.e.rcv, peer.log, s)
    ensures Taking(x, peer, TakeSegment(Ideal, st, s).e)
  {
    var e := st.e;
    var r := peer.e.rcv;
    UnaKeeps(e.snd, x.log, r, s.una);
    var s1 := ParseUna(Ideal, e.snd, s.una);
    if s.cmd == CMD_ACK {
      AckKeeps(s1, x.log, r, s.sn);
    } else if s.cmd == CMD_PUSH {
      PushKeeps(e.cfg.rcvWnd, e.rcv, peer.log, s);
      HandsStream(peer.log, e.rcv, ParsePush(Ideal, e.cfg.rcvWnd, e.rcv, s), x.delivered);
    }
  }

  lemma {:induction false} TakeAllKeeps(x: Node, peer: Node, st: Intake, segs: seq<Segment>)
    requires Taking(x, peer, st.e) && HonestPacket(peer.e.rcv, peer.log, segs)
    ensures Taking(x, peer, TakeSegments(Ideal, st, segs).e)
    decreases |segs|
  {
    if segs != [] {
      TakeOneKeeps(x, peer, st, segs[0]);
      TakeAllKeeps(x, peer, TakeSegment(Ideal, st, segs[0]), segs[1..]);
    }
  }

  lemma InputKeeps(x: Node, peer: Node, segs: seq<Segment>)
    requires Stream(x, peer) && Stream(peer, x) && HonestPacket(peer.e.rcv, peer.log, segs)
    ensures Taking(x, peer, Input(Ideal, x.e, segs))
  {
    var st0 := Intake(x.e, false, 0, 0);
    TakeAllKeeps(x, peer, st0, segs);
    var st := TakeSegments(Ideal, st0, segs);
    if st.acked {
      SkippedSpec(Ideal, st.e.snd.buf, st.maxAck, st.latestTs);
      SameLineKeeps(st.e.snd, ParseFastack(Ideal, st.e.snd, st.maxAck, st.latestTs), x.log, peer.e.rcv);
    }
  }

  // ---------------------------------------------------------------- flush

  /** Giving the next number to one payload. */
  lemma NumberOne(s: Sender, log: seq<seq<byte>>, r: Receiver, seg: InFlight, rest: seq<seq<byte>>)
    requires SenderOk(s, log) && NothingLost(s, r) && seg.sn == s.nxt
    ensures var t := Sender(s.una, s.nxt + 1, rest, s.buf + [seg]);
            SenderOk(t, log + [seg.data]) && NothingLost(t, r)
  {
    var t := Sender(s.una, s.nxt + 1, rest, s.buf + [seg]);
    var n := |s.buf|;
    assert t.buf[n] == seg;
    forall i | 0 <= i < n ensures t.buf[i] == s.buf[i] && s.buf[i] in s.buf {}
    forall sn | 0 <= sn < t.nxt ensures Flying(t.buf, sn) || Has(r, sn) {
      if sn < s.nxt && !Has(r, sn) {
        var i :| 0 <= i < n && s.buf[i].sn == sn;
        assert t.buf[i].sn == sn;
      }
    }
  }

  lemma {:induction false} FillKeeps(s: Sender, log: seq<seq<byte>>, r: Receiver, cwnd: int, now: int, rto: int)
    returns (k: nat)
    requires SenderOk(s, log) && NothingLost(s, r)
    ensures k <= |s.queue|
    ensures var t := Fill(Ideal, s, cwnd, now, rto);
            && SenderOk(t, log + s.queue[..k]) && NothingLost(t, r)
            && t.queue == s.queue[k..] && t.una == s.una && (k > 0 ==> t.nxt - t.una <= cwnd)
    decreases |s.queue|
  {
    if s.nxt - (s.una + cwnd) < 0 && s.queue != [] {
      var seg := InFlight(s.nxt, now, now, rto, 0, 0, s.queue[0]);
      NumberOne(s, log, r, seg, s.queue[1..]);
      var s1 := Sender(s.una, s.nxt + 1, s.queue[1..], s.buf + [seg]);
      var j := FillKeeps(s1, log + [seg.data], r, cwnd, now, rto);
      k := j + 1;
      ShiftOne(log, s.queue, j);
      assert Fill(Ideal, s, cwnd, now, rto) == Fill(Ideal, s1, cwnd, now, rto);
      assert |log + s.queue[..k]| == |log| + k;
    } else {
      k := 0;
      assert log + s.queue[..0] == log;
    }
  }

  /** Every control segment of a flush acknowledges what has arrived. */
  lemma {:induction false} ControlHonest(r: Receiver, log: seq<seq<byte>>, hdr: Segment, acks: seq<Ack>)
    requires forall a :: a in acks ==> Has(r, a.sn)
    requires hdr.cmd == CMD_ACK && 0 <= hdr.una <= r.nxt
    ensures HonestPacket(r, log, AckSegments(hdr, acks))
  {
    if acks != [] {
      ControlHonest(r, log, hdr, acks[..|acks| - 1]);
    }
  }

  /** The data segments of a flush are genuine and fit a datagram. */
  lemma DataHonest(cfg: Config, r: Receiver, s: Sender, log: seq<seq<byte>>, hdr: Segment, now: int, out: seq<Segment>)
    requires SenderOk(s, log) && Sized(cfg.mss, log) && 0 <= hdr.una <= r.nxt
    requires forall o :: o in out ==> FromFlight(hdr, now, s.buf, o)
    ensures HonestPacket(r, log, out)
    ensures forall o :: o in out ==> SegmentSize(o) <= cfg.mtu
  {
    forall o | o in out ensures Honest(r, log, o) && SegmentSize(o) <= cfg.mtu {
      assert FromFlight(hdr, now, s.buf, o);
      var i :| 0 <= i < |s.buf| && s.buf[i].sn == o.sn && s.buf[i].data == o.data;
      assert s.buf[i] in s.buf && log[o.sn] in log;
    }
  }

  /** The numbering and transmission passes of a flush. */
  lemma PassKeeps(cfg: Config, s: Sender, log: seq<seq<byte>>, mine: Receiver, r: Receiver,
                  hdr: Segment, cwnd: int, now: int, rto: int)
    returns (k: nat)
    requires SenderOk(s, log) && NothingLost(s, r) && Sized(cfg.mss, log) && Sized(cfg.mss, s.queue)
    requires 0 <= hdr.una <= mine.nxt && cwnd <= cfg.sndWnd
    ensures k <= |s.queue|
    ensures var s1 := Fill(Ideal, s, cwnd, now, rto);
            var t := TransmitAll(cfg, rto, now, hdr, s1.buf);
            var s2 := s1.(buf := t.buf);
            var log' := log + s.queue[..k];
            && SenderOk(s2, log') && NothingLost(s2, r) && Sized(cfg.mss, log')
            && s2.una == s.una && s2.queue == s.queue[k..] && (k > 0 ==> s2.nxt - s2.una <= cfg.sndWnd)
            && HonestPacket(mine, log', t.out)
            && (forall o :: o in t.out ==> SegmentSize(o) <= cfg.mtu)
  {
    k := FillKeeps(s, log, r, cwnd, now, rto);
    var s1 := Fill(Ideal, s, cwnd, now, rto);
    var log' := log + s.queue[..k];
    TransmitSpec(cfg, rto, now, hdr, s1.buf);
    var t := TransmitAll(cfg, rto, now, hdr, s1.buf);
    SameLineKeeps(s1, s1.(buf := t.buf), log', r);
    assert Sized(cfg.mss, log');
    DataHonest(cfg, mine, s1, log', hdr, now, t.out);
  }

  /** What a flush leaves in the send side and puts on the network. */
  ghost predicate Flushed(e: Endpoint, f: FlushResult, log: seq<seq<byte>>, log': seq<seq<byte>>, r: Receiver, k: nat) {
    && k <= |e.snd.queue| && log' == log + e.snd.queue[..k]
    && SenderOk(f.e.snd, log') && NothingLost(f.e.snd, r) && Sized(e.cfg.mss, log')
    && f.e.snd.una == e.snd.una && f.e.snd.queue == e.snd.queue[k..]
    && (k > 0 ==> f.e.snd.nxt - f.e.snd.una <= e.cfg.sndWnd)
    && HonestPacket(e.rcv, log', f.out)
    && (forall s :: s in f.out ==> SegmentSize(s) <= e.cfg.mtu)
  }

  lemma FlushKeeps(e: Endpoint, log: seq<seq<byte>>, r: Receiver) returns (k: nat, log': seq<seq<byte>>)
    requires SenderOk(e.snd, log) && NothingLost(e.snd, r)
    requires Sized(e.cfg.mss, log) && Sized(e.cfg.mss, e.snd.queue)
    requires 0 <= e.rcv.nxt && forall a :: a in e.rcv.acks ==> Has(e.rcv, a.sn)
    ensures Flushed(e, Flush(Ideal, e), log, log', r, k)
  {
    hide Fill, TransmitAll, AfterFlush, UnusedWindow, AckSegments, SenderOk, NothingLost;
    if e.pace.updated {
      var hdr, p := Header(e), Probed(e.pace);
      k := PassKeeps(e.cfg, e.snd, log, e.rcv, r, hdr, Window(e.cfg, p), p.current, p.rto);
      log' := log + e.snd.queue[..k];
      ControlHonest(e.rcv, log', hdr, e.rcv.acks);
      AckSizes(hdr, e.rcv.acks);
    } else {
      k, log' := 0, log;
      assert log + e.snd.queue[..0] == log;
    }
  }

  lemma {:induction false} AckSizes(hdr: Segment, acks: seq<Ack>)
    requires hdr.data == []
    ensures forall s :: s in AckSegments(hdr, acks) ==> s.data == []
  {
    if acks != [] {
      AckSizes(hdr, acks[..|acks| - 1]);
    }
  }

  lemma FlushReceiver(m: Arith, e: Endpoint)
    ensures var f := Flush(m, e);
            && f.e.cfg == e.cfg
            && (f.e.rcv == e.rcv || f.e.rcv == e.rcv.(acks := []))
  {
  }

  lemma FlushedAnyPace(e: Endpoint, e': Endpoint, f: FlushResult, log: seq<seq<byte>>, log': seq<seq<byte>>,
                       r: Receiver, k: nat)
    requires Flushed(e, f, log, log', r, k) && e.cfg == e'.cfg && e.snd == e'.snd && e.rcv == e'.rcv
    ensures Flushed(e', f, log, log', r, k)
  {
  }

  /** A flush keeps both streams, whatever the clock and window state is. */
  lemma EmitKeeps(x: Node, peer: Node, e: Endpoint)
    requires Stream(x, peer) && Stream(peer, x) && e == x.e.(pace := e.pace)
    ensures var x' := Emit(x, Flush(Ideal, e)); Stream(x', peer) && Stream(peer, x')
  {
    hide Flush, Flushed, NetOk, Flat, Payload, SortedArrived;
    var k, log' := FlushKeeps(e, x.log, peer.e.rcv);
    FlushReceiver(Ideal, e);
    FlushedAnyPace(e, x.e, Flush(Ideal, e), x.log, log', peer.e.rcv, k);
    EmitStreams(x, peer, Flush(Ideal, e), log', k);
  }

  lemma EmitStreams(x: Node, peer: Node, f: FlushResult, log': seq<seq<byte>>, k: nat)
    requires Stream(x, peer) && Stream(peer, x) && Flushed(x.e, f, x.log, log', peer.e.rcv, k)
    requires f.e.cfg == x.e.cfg && (f.e.rcv == x.e.rcv || f.e.rcv == x.e.rcv.(acks := []))
    ensures var x' := Emit(x, f); Stream(x', peer) && Stream(peer, x')
  {
    hide SendOk, RecvOk, NetOk, NothingLost, SenderOk, Packets;
    var x' := Emit(x, f);
    EmitSend(x, peer, f, log', k);
    RecvLogGrows(x.log, log', peer);
    EmitNet(x, x', f.out);
    SameReceiver(x, x', peer);
  }

  lemma SameReceiver(x: Node, x': Node, peer: Node)
    requires Stream(peer, x) && x'.e.cfg == x.e.cfg && x'.delivered == x.delivered
    requires x'.e.rcv == x.e.rcv || x'.e.rcv == x.e.rcv.(acks := [])
    ensures Stream(peer, x')
  {
  }

  lemma EmitSend(x: Node, peer: Node, f: FlushResult, log': seq<seq<byte>>, k: nat)
    requires SendOk(x) && Flushed(x.e, f, x.log, log', peer.e.rcv, k) && f.e.cfg == x.e.cfg
    ensures Emit(x, f).log == log' && SendOk(Emit(x, f))
  {
    var q := x.e.snd.queue;
    SplitFlat(x.log, q, k);
    assert |q| - |f.e.snd.queue| == k;
  }

  lemma SplitFlat(log: seq<seq<byte>>, q: seq<seq<byte>>, k: nat)
    requires k <= |q|
    ensures Flat(log + q[..k]) + Flat(q[k..]) == Flat(log) + Flat(q)
  {
    assert q == q[..k] + q[k..];
    FlatAppend(log, q[..k]);
    FlatAppend(q[..k], q[k..]);
    Associate(Flat(log), Flat(q[..k]), Flat(q[k..]));
  }

  lemma EmitNet(x: Node, x': Node, segs: seq<Segment>)
    requires NetOk(x) && x.log <= x'.log && Grows(x.e.rcv, x'.e.rcv)
    requires HonestPacket(x'.e.rcv, x'.log, segs)
    requires forall s :: s in segs ==> SegmentSize(s) <= x.e.cfg.mtu
    requires x'.out == x.out + Packets(x.e.cfg.mtu, segs)
    ensures NetOk(x')
  {
    NetGrows(x, x'.(out := x.out));
    PacketsSpec(x.e.cfg.mtu, segs);
    var ps := Packets(x.e.cfg.mtu, segs);
    forall p | p in ps ensures HonestPacket(x'.e.rcv, x'.log, p) {
      forall s | s in p ensures Honest(x'.e.rcv, x'.log, s) {
        JoinMember(ps, s);
      }
    }
  }

  // ---------------------------------------------------------------- every run

  lemma SendKeeps(x: Node, peer: Node, act: Action)
    requires Stream(x, peer) && Stream(peer, x) && act.SendBytes?
    ensures var x' := Act(x, peer, act); Stream(x', peer) && Stream(peer, x')
  {
    var r := Send(x.e.cfg.mss, x.e.snd.queue, act.data);
    SendSpec(x.e.cfg.mss, x.e.snd.queue, act.data);
    QueueGrows(x, peer, r.queue, act.data[..Max(r.ret, 0)]);
  }

  lemma QueueGrows(x: Node, peer: Node, queue: seq<seq<byte>>, more: seq<byte>)
    requires Stream(x, peer) && Stream(peer, x)
    requires Flat(queue) == Flat(x.e.snd.queue) + more && Sized(x.e.cfg.mss, queue)
    ensures var x' := x.(e := x.e.(snd := x.e.snd.(queue := queue)), accepted := x.accepted + more);
            Stream(x', peer) && Stream(peer, x')
  {
    Associate(Flat(x.log), Flat(x.e.snd.queue), more);
    var x' := x.(e := x.e.(snd := x.e.snd.(queue := queue)), accepted := x.accepted + more);
    NetGrows(x, x');
  }

  lemma UpdateKeeps(x: Node, peer: Node, now: Time)
    requires Stream(x, peer) && Stream(peer, x)
    ensures var x' := Emit(x, Update(Ideal, x.e, now)); Stream(x', peer) && Stream(peer, x')
  {
    var t := TickAt(x.e.cfg, x.e.pace, now);
    var e := x.e.(pace := x.e.pace.(current := now, updated := true, tsFlush := t.tsFlush));
    if t.flush {
      EmitKeeps(x, peer, e);
    } else {
      EmitNothing(x, e);
    }
  }

  lemma EmitNothing(x: Node, e: Endpoint)
    requires e.snd.queue == x.e.snd.queue
    ensures Emit(x, FlushResult(e, [])) == x.(e := e)
  {
    assert Packets(x.e.cfg.mtu, []) == [];
  }

  lemma DeliverKeeps(x: Node, peer: Node, act: Action)
    requires Stream(x, peer) && Stream(peer, x) && act.Deliver?
    ensures var x' := Act(x, peer, act); Stream(x', peer) && Stream(peer, x')
  {
    hide Input, NetOk, HonestPacket;
    if act.k < |peer.out| {
      var p := peer.out[act.k];
      SentHonest(x, peer, act.k);
      InputKeeps(x, peer, p);
      NetGrows(x, x.(e := Input(Ideal, x.e, p)));
    }
  }

  lemma ActKeeps(x: Node, peer: Node, act: Action)
    requires Stream(x, peer) && Stream(peer, x)
    ensures var x' := Act(x, peer, act); Stream(x', peer) && Stream(peer, x')
  {
    match act
    case SendBytes(_, data) => SendKeeps(x, peer, act);
    case RecvBytes(_, cap) =>
      RecvKeeps(peer.log, x, peer, cap);
      NetGrows(x, Act(x, peer, act));
    case UpdateAt(_, now) => UpdateKeeps(x, peer, now);
    case FlushNow(_) => EmitKeeps(x, peer, x.e);
    case Deliver(_, k, _) => DeliverKeeps(x, peer, act);
  }

  lemma {:induction false} RunKeeps(s: System, acts: seq<Action>)
    requires Inv(s)
    ensures Inv(Run(s, acts))
    decreases |acts|
  {
    if acts != [] {
      if acts[0].who.Left? {
        ActKeeps(s.left, s.right, acts[0]);
      } else {
        ActKeeps(s.right, s.left, acts[0]);
      }
      RunKeeps(Step(s, acts[0]), acts[1..]);
    }
  }

  function Initial(left: Config, right: Config): System { System(Start(left), Start(right)) }

  lemma InitialOk(left: Config, right: Config)
    ensures Inv(Initial(left, right))
  {
  }

  /** In every reachable state the bytes handed to each user are an initial part
      of the bytes accepted from the other, in order and without gaps. */
  lemma ReliableStream(left: Config, right: Config, acts: seq<Action>)
    ensures var s := Run(Initial(left, right), acts);
            && s.right.delivered <= s.left.accepted
            && s.left.delivered <= s.right.accepted
  {
    InitialOk(left, right);
    RunKeeps(Initial(left, right), acts);
    var s := Run(Initial(left, right), acts);
    StreamPrefix(s.left, s.right);
    StreamPrefix(s.right, s.left);
  }

  lemma StreamPrefix(x: Node, y: Node)
    requires Stream(x, y)
    ensures y.delivered <= x.accepted
  {
    FlatPrefix(x.log, y.e.rcv.nxt);
  }

  /** In every reachable state each number assigned so far is still buffered by
      its sender, or below the peer's next expected number, or held by the peer
      out of order: no acknowledgement ever removes the last copy. */
  lemma NeverLast(left: Config, right: Config, acts: seq<Action>)
    ensures var s := Run(Initial(left, right), acts);
            && NothingLost(s.left.e.snd, s.right.e.rcv)
            && NothingLost(s.right.e.snd, s.left.e.rcv)
  {
    InitialOk(left, right);
    RunKeeps(Initial(left, right), acts);
  }

  lemma {:induction false} SortedSpread(buf: seq<Received>, lo: int, i: nat)
    requires SortedArrived(buf) && i < |buf| && forall x :: x in buf ==> lo <= x.sn
    ensures buf[i].sn >= lo + i
  {
    if i == 0 {
      assert buf[0] in buf;
    } else {
      SortedSpread(buf, lo, i - 1);
      assert buf[i - 1].sn < buf[i].sn;
    }
  }

  /** The windows of one direction: both lists strictly in order, at most the
      send window in flight, arrivals inside the receive window, and neither
      receive list longer than it. */
  ghost predicate WindowsOk(x: Node, y: Node) {
    && SortedFlight(x.e.snd.buf) && SortedArrived(y.e.rcv.buf)
    && 0 <= x.e.snd.nxt - x.e.snd.una <= x.e.cfg.sndWnd
    && (forall f :: f in x.e.snd.buf ==> x.e.snd.una <= f.sn < x.e.snd.nxt)
    && (forall r :: r in y.e.rcv.buf ==> y.e.rcv.nxt <= r.sn < y.e.rcv.nxt + y.e.cfg.rcvWnd)
    && |y.e.rcv.buf| <= y.e.cfg.rcvWnd && |y.e.rcv.queue| <= y.e.cfg.rcvWnd
    && y.e.rcv.nxt <= x.e.snd.nxt
  }

  lemma StreamWindows(x: Node, y: Node)
    requires Stream(x, y)
    ensures WindowsOk(x, y)
  {
    var buf := y.e.rcv.buf;
    if buf != [] {
      SortedSpread(buf, y.e.rcv.nxt, |buf| - 1);
      assert buf[|buf| - 1] in buf;
    }
    forall f | f in x.e.snd.buf ensures x.e.snd.una <= f.sn {
      var i :| 0 <= i < |x.e.snd.buf| && x.e.snd.buf[i] == f;
      assert i == 0 || x.e.snd.buf[0].sn < x.e.snd.buf[i].sn;
    }
  }

  /** The windows hold in every reachable state. */
  lemma WindowsHold(left: Config, right: Config, acts: seq<Action>)
    ensures var s := Run(Initial(left, right), acts);
            WindowsOk(s.left, s.right) && WindowsOk(s.right, s.left)
  {
    InitialOk(left, right);
    RunKeeps(Initial(left, right), acts);
    var s := Run(Initial(left, right), acts);
    StreamWindows(s.left, s.right);
    StreamWindows(s.right, s.left);
  }

  /** The window a flush announces is the free room of the receive queue, except
      that an empty queue of 65536 is announced as closed. */
  lemma AnnouncedWindow(e: Endpoint)
    ensures Header(e).wnd == UnusedWindow(e.cfg, e.rcv) <==> !(e.cfg.rcvWnd == 65536 && e.rcv.queue == [])
    ensures e.cfg.rcvWnd == 65536 && e.rcv.queue == [] ==> Header(e).wnd == 0
  {
  }
}
