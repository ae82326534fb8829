/** What datagrams that arrive later than `KcpProgram` allows do to the 32-bit
    program: when it takes a segment the unbounded system would not, and when it
    forgets one that never arrived. */
module KcpStale {
  import opened Words
  import opened KcpModel
  import opened KcpWire
  import opened KcpLists
  import opened KcpBytes
  import opened KcpWrap
  import KcpLift
  import opened KcpSystem
  import opened KcpProgram

  // ---------------------------------------------------------------- stale data

  /** The window test that ikcp_input and ikcp_parse_data make. */
  predicate Admits(m: Arith, wnd: int, r: Receiver, sn: int) {
    Diff(m, sn, Num(m, r.nxt + wnd)) < 0 && Diff(m, sn, r.nxt) >= 0
  }

  /** A PUSH that is not admitted is at most acknowledged. */
  lemma PushStored(m: Arith, wnd: int, r: Receiver, seg: Segment)
    ensures var d, r1 := ParsePush(m, wnd, r, seg), r.(acks := r.acks + [Ack(seg.sn, seg.ts)]);
            if Admits(m, wnd, r, seg.sn)
            then d == Drain(m, wnd, r1.(buf := Insert(m, r.buf, Received(seg.sn, seg.frg, seg.data))))
            else d == r || d == r1
  {
  }

  /** The program admits the numbers that lie in the window modulo 2^32. */
  lemma AdmitsModulo(wnd: int, r: Receiver, sn: int)
    requires 0 < wnd <= 65536
    ensures Admits(Word, wnd, WrapReceiver(r), U32(sn)) <==> U32(sn - r.nxt) < wnd
  {
    hide Diff;
    AddWraps(r.nxt, wnd);
    KcpLift.DiffCut(sn, r.nxt + wnd);
    KcpLift.DiffCut(sn, r.nxt);
    KcpLift.AdmitsModulo(wnd, r.nxt, sn);
  }

  /** It admits a number the unbounded system does not exactly when the number is in
      the window modulo 2^32 but not in the window. A PUSH late by more than 2^31 and
      not by a multiple of 2^32, up to the window, is therefore harmless. */
  lemma AdmitsStale(wnd: int, r: Receiver, sn: int)
    requires 0 < wnd <= 65536
    ensures Admits(Word, wnd, WrapReceiver(r), U32(sn)) && !Admits(Ideal, wnd, r, sn) <==>
            U32(sn - r.nxt) < wnd && !(r.nxt <= sn < r.nxt + wnd)
    ensures Admits(Ideal, wnd, r, sn) ==> Admits(Word, wnd, WrapReceiver(r), U32(sn))
  {
    AdmitsModulo(wnd, r, sn);
  }

  lemma InputPush(m: Arith, e: Endpoint, seg: Segment)
    requires seg.cmd == CMD_PUSH
    ensures Input(m, e, [seg]).rcv == ParsePush(m, e.cfg.rcvWnd, e.rcv, seg) && Input(m, e, [seg]).cfg == e.cfg
  {
    var st := Intake(e, false, 0, 0);
    assert TakeSegments(m, TakeSegment(m, st, seg), []) == TakeSegment(m, st, seg);
    assert [seg][1..] == [];
  }

  // ---------------------------------------------------------------- two states of the system

  function Zeros(n: nat): (log: seq<seq<byte>>)
    ensures |log| == n && (forall i :: 0 <= i < n ==> log[i] == [0])
  {
    seq(n, _ => [0])
  }

  /** The program's view of a node. */
  function Cut(x: Node): WNode { WNode(WrapEndpoint(x.e), EncodePackets(x.out), x.accepted, x.delivered) }

  function CutSystem(s: System): WSystem { WSystem(Cut(s.left), Cut(s.right)) }

  function FirstPush(cfg: Config): Segment { Segment(cfg.conv, CMD_PUSH, 0, WND_RCV, 0, 0, 0, [0]) }

  /** 2^32 segments were sent, received and acknowledged; a copy of the first is still
      in the network. */
  function Lapped(left: Config, right: Config): System {
    var log := Zeros(W32);
    System(Node(Create(left).(snd := Sender(W32, W32, [], [])), [[FirstPush(left)]], log, Flat(log), []),
           Node(Create(right).(rcv := Receiver(W32, [], [], [])), [], [], [], Flat(log)))
  }

  lemma LappedOk(left: Config, right: Config)
    ensures Inv(Lapped(left, right))
  {
    var s, log := Lapped(left, right), Zeros(W32);
    assert log[..W32] == log;
    assert Flat(log) + Flat([]) == Flat(log) && Flat(log) + Payload([]) == Flat(log);
    assert Flat([]) == [];
    assert SendOk(s.left) && SendOk(s.right);
    assert RecvOk(log, s.right) && RecvOk([], s.left);
  }

  /** A PUSH that is exactly 2^32 late is taken for the next one: although the state
      satisfies the invariant, the receiving user then gets a byte that was never
      offered again. */
  lemma StalePushIsTaken(left: Config, right: Config)
    requires left.conv == right.conv
    ensures var s := Lapped(left, right);
            var w := WRun(CutSystem(s), [Deliver(Right, 0, []), RecvBytes(Right, 1)]);
            && Inv(s) && w.right.delivered == s.right.delivered + [0] && w.left.accepted == s.left.accepted
            && !(w.right.delivered <= w.left.accepted)
  {
    hide Inv, Zeros, Flat, WAct, Lapped;
    LappedOk(left, right);
    var s, a, b := Lapped(left, right), Deliver(Right, 0, []), RecvBytes(Right, 1);
    var w := CutSystem(s);
    assert [a, b][1..] == [b] && [b][1..] == [];
    assert WRun(w, [a, b]) == WRun(WStep(w, a), [b]) == WStep(WStep(w, a), b);
    LappedTakes(left, right);
    LappedEnds(left, right);
  }

  lemma LappedEnds(left: Config, right: Config)
    ensures Lapped(left, right).right.delivered == Lapped(left, right).left.accepted
  {
  }

  lemma LappedTakes(left: Config, right: Config)
    requires left.conv == right.conv
    ensures var s := Lapped(left, right);
            var w := WAct(Cut(s.right), Cut(s.left), Deliver(Right, 0, []));
            WAct(w, Cut(s.left), RecvBytes(Right, 1)).delivered == s.right.delivered + [0]
  {
    hide Zeros, Flat, EncodeAll, InputBytes, ParsePush, KcpModel.Recv;
    var s, seg := Lapped(left, right), FirstPush(left);
    var e := Cut(s.right).e;
    assert Cut(s.left).out[0] == EncodeAll([seg]);
    InputPadded(Word, e, [seg], []);
    assert TruncateAll([seg]) == [seg];
    InputPush(Word, e, seg);
    TakenAsNext(right.rcvWnd, seg);
    RecvOne(Word, right.rcvWnd, Receiver(1, [Received(0, 0, [0])], [], [Ack(0, 0)]), 1);
  }

  /** Number 0 is what the program expects after 2^32 segments. */
  lemma TakenAsNext(wnd: int, seg: Segment)
    requires WND_RCV <= wnd <= 65536 && seg == Segment(seg.conv, CMD_PUSH, 0, WND_RCV, 0, 0, 0, [0])
    ensures ParsePush(Word, wnd, WrapReceiver(Receiver(W32, [], [], [])), seg) ==
            Receiver(1, [Received(0, 0, [0])], [], [Ack(0, 0)])
  {
    hide Diff;
    FirstFits(wnd);
    var r := Receiver(0, [], [], [Ack(0, 0)]);
    assert WrapReceiver(Receiver(W32, [], [], [])) == Receiver(0, [], [], []);
    assert [] + [Ack(0, 0)] == [Ack(0, 0)];
    var x := Received(0, 0, [0]);
    assert Insert(Word, [], x) == [x];
    var d := r.(nxt := 1, queue := [] + [x], buf := [x][1..]);
    assert d == Receiver(1, [x], [], [Ack(0, 0)]);
    assert Drain(Word, wnd, r.(buf := [x])) == Drain(Word, wnd, d) == d;
  }

  lemma FirstFits(wnd: int)
    requires 0 < wnd <= 65536
    ensures Diff(Word, 0, Num(Word, 0 + wnd)) < 0 && Diff(Word, 0, 0) == 0
  {
  }

  // ---------------------------------------------------------------- stale acknowledgements

  /** A cumulative acknowledgement below a whole send buffer, less than 2^32 late. The
      unbounded system drops nothing. The program drops nothing either, unless the
      buffer begins more than 2^31 above it: then it drops everything. */
  lemma {:induction false} StaleUnaDrops(buf: seq<InFlight>, una: int)
    requires SortedFlight(buf) && (forall i :: 0 <= i < |buf| ==> 0 <= buf[i].sn - una < W32)
    ensures DropBefore(Ideal, buf, una) == buf
    ensures DropBefore(Word, WrapFlight(buf), U32(una)) ==
            if buf != [] && buf[0].sn - una > H32 then [] else WrapFlight(buf)
  {
    if buf != [] {
      KcpLift.DiffCut(una, buf[0].sn);
      var d := buf[0].sn - una;
      assert U32(-d) == if d == 0 then 0 else W32 - d;
      if d > H32 {
        assert WrapFlight(buf)[1..] == WrapFlight(buf[1..]);
        StaleUnaDrops(buf[1..], una);
        assert buf[1..] != [] ==> buf[1].sn > buf[0].sn;
      }
    }
  }

  /** The last of 2^31 + 2 segments is on its way; a datagram of the receiver from the
      beginning, which acknowledges nothing, is still in the network. */
  function Waiting(left: Config, right: Config): System {
    var n := H32 + 1;
    var log := Zeros(n + 1);
    System(Node(Create(left).(snd := Sender(n, n + 1, [], [InFlight(n, 0, 0, 0, 0, 1, [0])])), [], log, Flat(log), []),
           Node(Create(right).(rcv := Receiver(n, [], [], [])), [[Wins(right)]], [], [], Flat(log[..n])))
  }

  function Wins(cfg: Config): Segment { Segment(cfg.conv, CMD_WINS, 0, WND_RCV, 0, 0, 0, []) }

  lemma WaitingOk(left: Config, right: Config)
    ensures Inv(Waiting(left, right))
  {
    var s := Waiting(left, right);
    var n, log := H32 + 1, s.left.log;
    assert Flat(log) + Flat([]) == Flat(log) && Flat(log[..n]) + Payload([]) == Flat(log[..n]);
    assert Flat([]) == [];
    assert s.left.e.snd.buf[0].sn == n;
    assert SendOk(s.left) && SendOk(s.right);
    assert RecvOk(log, s.right) && RecvOk([], s.left);
    assert forall sn :: 0 <= sn < n + 1 ==> sn < n || Flying(s.left.e.snd.buf, sn);
  }

  /** More than 2^31 late it makes the program forget a segment that never arrived:
      `NothingLost` is gone, and the stream stalls. The unbounded system keeps it. */
  lemma StaleUnaLoses(left: Config, right: Config)
    requires left.conv == right.conv
    ensures var s, act := Waiting(left, right), Deliver(Left, 0, []);
            var w := WStep(CutSystem(s), act);
            && Inv(s) && w.left.e.snd.buf == [] && w.right.e.rcv.buf == []
            && w.right.e.rcv.nxt != w.left.e.snd.nxt
            && Flying(Step(s, act).left.e.snd.buf, H32 + 1)
  {
    hide Inv, Zeros, Flat, EncodeAll, InputBytes;
    WaitingOk(left, right);
    var s, seg := Waiting(left, right), Wins(right);
    var e, n := s.left.e, H32 + 1;
    assert Cut(s.right).out[0] == EncodeAll([seg]);
    InputPadded(Word, WrapEndpoint(e), [seg], []);
    assert TruncateAll([seg]) == [seg];
    StaleUnaDrops(e.snd.buf, 0);
    InputWins(Word, WrapEndpoint(e), seg);
    InputWins(Ideal, e, seg);
    assert Input(Ideal, e, [seg]).snd.buf[0].sn == n;
  }

  lemma InputWins(m: Arith, e: Endpoint, seg: Segment)
    requires seg.cmd == CMD_WINS
    ensures Input(m, e, [seg]).snd == ParseUna(m, e.snd, seg.una)
  {
    var st := Intake(e, false, 0, 0);
    assert TakeSegments(m, TakeSegment(m, st, seg), []) == TakeSegment(m, st, seg);
    assert [seg][1..] == [];
  }
}
