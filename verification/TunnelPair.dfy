/** The two ends of a tunnel as objects: on each side a session and the KCP control
    block under it, driven by any list of socket, packet and timer events. What one
    end writes to TCP is a prefix of what the other has read. */
module TunnelPair {
  import opened Words
  import opened KcpModel
  import opened KcpBytes
  import opened KcpSystem
  import opened KcpProgram
  import opened KcpReady
  import opened KcpEndpoint
  import opened KcpPair
  import opened Frames
  import opened Sessions
  import Tunnel

  /** One end. A callback of the session asks KCP for segments and hands it frames; the
      same calls are then made on the control block, so that both agree between
      callbacks. */
  class End {
    const who: Side
    const host: Host
    const ss: Session

    constructor (who: Side, host: Host, ss: Session)
      ensures this.who == who && this.host == host && this.ss == ss
    {
      this.who, this.host, this.ss := who, host, ss;
    }

    /** Everything handed to the session's KCP is with the control block, and what the
        session has yet to take is what the control block holds ready. */
    ghost predicate Valid()
      reads this, host, host.kcp, ss
    {
      && host.Valid() && ss.Valid() && ss.sends == [] && ss.mss == host.kcp.cfg.mss
      && host.accepted == ss.h.offered == ss.h.handed && host.delivered == ss.h.received
      && host.kcp.sndQueue == ss.sndQueue == ss.h.base && ss.inbound == Ready(Word, host.State().e.rcv)
    }

    /** In the middle of a callback: the session has taken the first of the ready
        segments and asked for some frames to be sent. */
    ghost predicate Owes()
      reads this, host, host.kcp, ss
    {
      && host.Valid() && ss.Valid() && ss.mss == host.kcp.cfg.mss
      && host.accepted == ss.h.handed && host.kcp.sndQueue == ss.h.base
      && Took(host.delivered, Ready(Word, host.State().e.rcv), ss.h.received, ss.inbound)
    }

    /** One call on the control block, which the unbounded system follows. */
    method Call(act: Action, sent: seq<seq<byte>>, ghost x: Node, ghost y: Node, ghost wy: WNode)
      returns (ghost x': Node)
      requires host.Valid() && Joint(x, y, host.State(), wy) && sent == wy.out && RecentAct(x, y, act)
      modifies host, host.kcp
      ensures host.Valid() && host.State() == WAct(old(host.State()), wy, act)
      ensures x' == Act(x, y, act) && Joint(x', y, host.State(), wy)
    {
      hide Joint, WAct, Act, RecentAct;
      JointStep(x, y, host.State(), wy, act);
      host.Do(act, wy, sent);
      x' := Act(x, y, act);
    }

    /** Makes the receive calls of the callback. */
    method Receive(n: nat, sent: seq<seq<byte>>, ghost x: Node, ghost y: Node, ghost wy: WNode)
      returns (ghost x': Node)
      requires Owes() && Joint(x, y, host.State(), wy) && sent == wy.out
      requires n == |Ready(Word, host.State().e.rcv)| - |ss.inbound|
      modifies host, host.kcp
      ensures Owes() && Joint(x', y, host.State(), wy) && host.out == old(host.out)
      ensures ss.inbound == Ready(Word, host.State().e.rcv) && host.delivered == ss.h.received
    {
      hide Joint, WAct, Act, Ready, Session.Valid, Took;
      x' := x;
      var i := 0;
      while i < n
        invariant 0 <= i <= n && Owes() && Joint(x', y, host.State(), wy) && host.out == old(host.out)
        invariant n - i == |Ready(Word, host.State().e.rcv)| - |ss.inbound|
      {
        var act := RecvBytes(who, BUF_SIZE);
        ghost var w := host.State();
        LocalIsRecent(x', y, act);
        JointRecv(x', y, w, wy, act);
        TookFirst(w.delivered, Ready(Word, w.e.rcv), ss.h.received, ss.inbound);
        x' := Call(act, sent, x', y, wy);
        i := i + 1;
      }
      TookAll(host.delivered, Ready(Word, host.State().e.rcv), ss.h.received, ss.inbound);
    }

    /** Makes the send calls of the callback. */
    method Hand(out: seq<seq<byte>>, sent: seq<seq<byte>>, ghost base: seq<seq<byte>>,
                ghost x: Node, ghost y: Node, ghost wy: WNode) returns (ghost x': Node)
      requires host.Valid() && Joint(x, y, host.State(), wy) && sent == wy.out && host.kcp.cfg.mss >= 118
      requires host.kcp.sndQueue == base && (forall i :: 0 <= i < |out| ==> |out[i]| <= MAX_LENGTH)
      modifies host, host.kcp
      ensures host.Valid() && Joint(x', y, host.State(), wy) && host.out == old(host.out)
      ensures host.kcp.sndQueue == SendEach(host.kcp.cfg.mss, base, out)
      ensures host.accepted == old(host.accepted) + Flat(out) && host.delivered == old(host.delivered)
      ensures host.State().e.rcv == old(host.State()).e.rcv
    {
      hide Joint, WAct, Act, Flat;
      ghost var w0, mss := host.State(), host.kcp.cfg.mss;
      x' := x;
      var i := 0;
      NoneHanded(mss, base, out, host.accepted);
      while i < |out|
        invariant 0 <= i <= |out| && host.Valid() && Joint(x', y, host.State(), wy)
        invariant host.State() == w0.(e := host.State().e, accepted := host.accepted)
        invariant host.State().e.rcv == w0.e.rcv
        invariant host.State().e.snd.queue == SendEach(mss, base, out[..i])
        invariant host.accepted == w0.accepted + Flat(out[..i])
      {
        var act := SendBytes(who, out[i]);
        LocalIsRecent(x', y, act);
        JointSized(x', y, host.State(), wy);
        Handed(host.State(), wy, act, mss, base, out[..i]);
        OneMoreHanded(out, i, w0.accepted);
        x' := Call(act, sent, x', y, wy);
        i := i + 1;
      }
      assert out[..i] == out;
    }

    /** What the control block holds ready. */
    method Held() returns (q: seq<seq<byte>>)
      ensures q == Ready(Word, host.State().e.rcv)
    {
      q := Ready(Word, Receiver(host.kcp.rcvNxt, host.kcp.rcvQueue, host.kcp.rcvBuf, host.kcp.acklist));
    }

    /** Makes on the control block the calls that the session's callback made. */
    method Settle(sent: seq<seq<byte>>, ghost x: Node, ghost y: Node, ghost wy: WNode) returns (ghost x': Node)
      requires Owes() && Joint(x, y, host.State(), wy) && sent == wy.out
      modifies host, host.kcp, ss
      ensures Valid() && Joint(x', y, host.State(), wy) && host.out == old(host.out)
      ensures ss.peer == old(ss.peer) && ss.h.sent == old(ss.h).sent
    {
      hide Joint, Ready, Session.Valid, Took, Asked;
      var q := Held();
      MssAtLeast(ss);
      TookSome(host.delivered, q, ss.h.received, ss.inbound);
      x' := Receive(|q| - |ss.inbound|, sent, x, y, wy);
      ghost var h := ss.h;
      var out := ss.Handover();
      AskedFor(ss.mss, h, out, ss.sndQueue);
      x' := Hand(out, sent, h.base, x', y, wy);
    }

    /** tcp_socket_cb, when the watcher is armed. */
    method OnSocket(canRead: bool, canWrite: bool, failed: bool, incoming: seq<ReadResult>, outgoing: seq<WriteResult>,
                    now: real, sent: seq<seq<byte>>, ghost x: Node, ghost y: Node, ghost wy: WNode)
      returns (ghost x': Node)
      requires Valid() && Joint(x, y, host.State(), wy) && sent == wy.out
      modifies host, host.kcp, ss
      ensures Valid() && Joint(x', y, host.State(), wy) && host.out == old(host.out)
      ensures ss.peer == old(ss.peer) && old(ss.h).sent <= ss.h.sent
    {
      hide Joint, Ready, Session.Valid, Took, ReadOut, Ends, LastRead, Session.Waits, Unfed;
      x' := x;
      if ss.tcpState == Connect || ss.tcpState == Connected {
        ss.Arm(incoming, outgoing, ss.dial, now);
        ss.SocketCb(canRead, canWrite, failed);
        x' := Settle(sent, x, y, wy);
      }
    }

    /** The session's timer. */
    method OnTimer(lim: Limits, now: real, sent: seq<seq<byte>>, ghost x: Node, ghost y: Node, ghost wy: WNode)
      returns (ghost x': Node)
      requires Valid() && Joint(x, y, host.State(), wy) && sent == wy.out
      modifies host, host.kcp, ss
      ensures Valid() && Joint(x', y, host.State(), wy) && host.out == old(host.out)
      ensures ss.peer == old(ss.peer) && old(ss.h).sent <= ss.h.sent
    {
      hide Joint, Ready, Session.Valid, Took, Expire;
      ss.Arm(ss.readScript, ss.writeScript, ss.dial, now);
      TookOn(ss.h.received, ss.inbound, ss.h.received, ss.inbound, ss.h.received, ss.inbound);
      var keep := ss.TimeoutFilt(lim);
      x' := Settle(sent, x, y, wy);
    }

    /** A reset from the peer. */
    method OnReset()
      requires Valid()
      modifies ss
      ensures Valid() && ss.peer == old(ss.peer) && ss.h == old(ss.h)
    {
      hide Ready, Session.Valid;
      ss.ResetCb();
    }

    /** kcp_update: the control block sends what it has to. */
    method OnUpdate(ms: Time, sent: seq<seq<byte>>, ghost x: Node, ghost y: Node, ghost wy: WNode)
      returns (ghost x': Node)
      requires Valid() && Joint(x, y, host.State(), wy) && sent == wy.out
      modifies host, host.kcp, ss
      ensures Valid() && Joint(x', y, host.State(), wy)
      ensures ss.peer == old(ss.peer) && ss.h.sent == old(ss.h).sent
    {
      hide Joint, WAct, Act, Session.Valid, Ready;
      x' := x;
      if ss.kcpState != State.Init && ss.kcpState != TimeWait {
        var act := UpdateAt(who, ms);
        LocalIsRecent(x, y, act);
        UpdateLeaves(host.State(), wy, act);
        x' := Call(act, sent, x, y, wy);
        JointSized(x', y, host.State(), wy);
        ss.KcpPump(host.kcp.sndQueue, |host.kcp.sndBuf|);
      }
    }

    /** queue_recv: a datagram for this conversation. `frames` are the frames the other
        end has handed to its KCP so far. */
    method OnPacket(k: nat, pad: Pad, sameAddr: bool, outgoing: seq<WriteResult>, dial: DialResult, now: real,
                    sent: seq<seq<byte>>, ghost frames: seq<Frame>, ghost x: Node, ghost y: Node, ghost wy: WNode)
      returns (ghost x': Node)
      requires Valid() && Joint(x, y, host.State(), wy) && sent == wy.out
      requires AllHonest(frames) && wy.accepted == EncodeFrames(frames) && ss.peer <= frames
      requires wy.e.cfg.mss <= MAX_SEGMENT && RecentAct(x, y, Deliver(who, k, pad))
      modifies host, host.kcp, ss
      ensures Valid() && Joint(x', y, host.State(), wy) && host.out == old(host.out)
      ensures ss.peer <= frames && old(ss.h).sent <= ss.h.sent
    {
      hide Joint, WAct, Act, Session.Valid, Ready, Took, EncodeFrames, Session.Waits, RecentAct, Flat, Segments,
        AllHonest;
      ss.Arm(ss.readScript, outgoing, dial, now);
      x' := x;
      TookOn(ss.h.received, ss.inbound, ss.h.received, ss.inbound, ss.h.received, ss.inbound);
      if !sameAddr || ss.kcpState == TimeWait {
        ss.PacketCb(sameAddr, true, []);
        x' := Settle(sent, x, y, wy);
        return;
      }
      x' := Take(k, pad, sent, frames, x, y, wy);
      var q := Held();
      Appending(ss.inbound, q);
      ss.PacketCb(true, true, q[|ss.inbound|..]);
      x' := Settle(sent, x', y, wy);
    }

    /** ikcp_input, and what the session learns from it. */
    method Take(k: nat, pad: Pad, sent: seq<seq<byte>>, ghost frames: seq<Frame>,
                ghost x: Node, ghost y: Node, ghost wy: WNode) returns (ghost x': Node)
      requires Valid() && Joint(x, y, host.State(), wy) && sent == wy.out
      requires AllHonest(frames) && wy.accepted == EncodeFrames(frames) && ss.peer <= frames
      requires wy.e.cfg.mss <= MAX_SEGMENT && RecentAct(x, y, Deliver(who, k, pad))
      modifies host, host.kcp, ss`peer, ss`sndQueue, ss`sends, ss`h, ss`nsndBuf
      ensures Joint(x', y, host.State(), wy) && host.out == old(host.out) && ss.h.sent == old(ss.h).sent
      ensures host.Valid() && ss.Valid() && ss.sends == [] && ss.peer == frames
      ensures host.accepted == ss.h.handed == ss.h.offered && host.delivered == ss.h.received
      ensures host.kcp.sndQueue == ss.h.base
      ensures var q := Ready(Word, host.State().e.rcv);
              && ss.inbound <= q && (forall i :: 0 <= i < |q| ==> 0 < |q[i]| <= MAX_SEGMENT)
              && ss.h.received + Flat(q) <= EncodeFrames(frames)
    {
      hide Joint, WAct, Act, Session.Valid, Ready, EncodeFrames, RecentAct, Flat, AllHonest;
      var act := Deliver(who, k, pad);
      JointDeliver(x, y, host.State(), wy, act);
      x' := Call(act, sent, x, y, wy);
      JointReady(x', y, host.State(), wy);
      JointSized(x', y, host.State(), wy);
      ss.Foresee(frames);
      ss.CatchUp(host.kcp.sndQueue, |host.kcp.sndBuf|);
    }
  }

  /** The state of a host after it was handed some frames. */
  lemma Handed(w: WNode, wy: WNode, act: Action, mss: int, base: seq<seq<byte>>, done: seq<seq<byte>>)
    requires act.SendBytes? && w.e.cfg.mss == mss >= 118 && |act.data| <= MAX_LENGTH && Sized(mss, w.e.snd.queue)
    requires w.e.snd.queue == SendEach(mss, base, done)
    ensures var w' := WAct(w, wy, act);
            && w'.e.snd.queue == SendEach(mss, base, done + [act.data]) && w'.accepted == w.accepted + act.data
            && w'.e.rcv == w.e.rcv && w'.delivered == w.delivered && w'.out == w.out && w'.e.cfg == w.e.cfg
  {
    hide KcpModel.Send;
    FrameTaken(mss, w.e.snd.queue, act.data);
    assert (done + [act.data])[..|done|] == done;
    assert act.data[..|act.data|] == act.data;
  }

  lemma NoneHanded(mss: int, base: seq<seq<byte>>, out: seq<seq<byte>>, accepted: seq<byte>)
    requires mss > 0
    ensures base == SendEach(mss, base, out[..0]) && accepted == accepted + Flat(out[..0])
  {
    assert out[..0] == [];
  }

  lemma OneMoreHanded(out: seq<seq<byte>>, i: nat, accepted: seq<byte>)
    requires i < |out|
    ensures out[..i + 1] == out[..i] + [out[i]]
    ensures accepted + Flat(out[..i + 1]) == accepted + Flat(out[..i]) + out[i]
  {
    assert out[..i + 1] == out[..i] + [out[i]];
    FlatSnoc(out[..i], out[i]);
    Associate(accepted, Flat(out[..i]), out[i]);
  }

  lemma MssAtLeast(ss: Session)
    requires ss.Valid()
    ensures ss.mss >= 118
  {
  }

  lemma TookSome(d: seq<byte>, q: seq<seq<byte>>, r: seq<byte>, ib: seq<seq<byte>>)
    requires Took(d, q, r, ib)
    ensures |ib| <= |q|
  {
  }

  lemma AskedFor(mss: int, h: Log, out: seq<seq<byte>>, queue: seq<seq<byte>>)
    requires Asked(mss, h, out, queue)
    ensures mss > 0 && queue == SendEach(mss, h.base, out) && h.offered == h.handed + Flat(out)
    ensures forall i :: 0 <= i < |out| ==> |out[i]| <= MAX_LENGTH
  {
  }

  lemma UpdateLeaves(w: WNode, wy: WNode, act: Action)
    requires act.UpdateAt?
    ensures var w' := WAct(w, wy, act);
            && w'.accepted == w.accepted && w'.delivered == w.delivered && w'.e.cfg == w.e.cfg
            && Ready(Word, w'.e.rcv) == Ready(Word, w.e.rcv)
  {
    var t := TickAt(w.e.cfg, w.e.pace, act.now);
    FlushReceiver(Word, w.e.(pace := w.e.pace.(current := act.now, updated := true, tsFlush := t.tsFlush)));
  }

  lemma Appending(a: seq<seq<byte>>, q: seq<seq<byte>>)
    requires a <= q && (forall i :: 0 <= i < |q| ==> 0 < |q[i]| <= MAX_SEGMENT)
    ensures a + q[|a|..] == q && Segments(q[|a|..])
  {
  }

  lemma JointSized(x: Node, y: Node, wx: WNode, wy: WNode)
    requires Joint(x, y, wx, wy)
    ensures Sized(wx.e.cfg.mss, wx.e.snd.queue)
  {
  }

  lemma TookFirst(d: seq<byte>, q: seq<seq<byte>>, r: seq<byte>, ib: seq<seq<byte>>)
    requires Took(d, q, r, ib) && |ib| < |q|
    ensures Took(d + q[0], q[1..], r, ib)
  {
    var k := |q| - |ib|;
    assert q[1..][k - 1..] == q[k..] && q[..k] == [q[0]] + q[1..][..k - 1];
    assert q[..k][1..] == q[1..][..k - 1];
    Associate(d, q[0], Flat(q[1..][..k - 1]));
  }

  lemma TookAll(d: seq<byte>, q: seq<seq<byte>>, r: seq<byte>, ib: seq<seq<byte>>)
    requires Took(d, q, r, ib) && |ib| == |q|
    ensures ib == q && r == d
  {
    assert q[..0] == [] && q[0..] == q && d + [] == d;
  }

  // ---------------------------------------------------------------- two ends

  /** Something that happens at one end. */
  datatype Happening =
    | Socket(who: Side, canRead: bool, canWrite: bool, failed: bool, incoming: seq<ReadResult>,
             outgoing: seq<WriteResult>, now: real)
    | Packet(who: Side, k: nat, pad: Pad, sameAddr: bool, outgoing: seq<WriteResult>, dial: DialResult, now: real)
    | Pump(who: Side, ms: Time)
    | Timer(who: Side, lim: Limits, now: real)
    | Reset(who: Side)

  /** Both ends are right, and each has received from frames the other has sent. */
  ghost predicate Linked(a: End, b: End, x: Node, y: Node)
    reads a, a.host, a.host.kcp, a.ss, b, b.host, b.host.kcp, b.ss
  {
    && a.Valid() && b.Valid() && Joint(x, y, a.host.State(), b.host.State())
    && a.ss.peer <= b.ss.h.sent && b.ss.peer <= a.ss.h.sent
  }

  ghost predicate Apart(a: End, b: End)
    reads a, b
  {
    a != b && a.host != b.host && a.host.kcp != b.host.kcp && a.ss != b.ss
  }

  lemma JointRecent(x: Node, y: Node, wx: WNode, wy: WNode, act: Action)
    requires Joint(x, y, wx, wy) && |wx.accepted| <= HORIZON && |wy.accepted| <= HORIZON
    ensures RecentAct(x, y, act)
  {
    hide Stream, RecentAct;
    ActRecent(x, y, act);
  }

  /** One event at end `a`. A datagram is dropped once either side has accepted
      2^31 - 65536 bytes, so that none is ever too old. */
  method Happen(a: End, b: End, ev: Happening, ghost x: Node, ghost y: Node) returns (ghost x': Node)
    requires Linked(a, b, x, y) && Apart(a, b)
    modifies a.host, a.host.kcp, a.ss
    ensures Linked(a, b, x', y)
  {
    hide Joint, Session.Valid, Ready, EncodeFrames, AllHonest;
    ghost var wy := b.host.State();
    x' := x;
    match ev
    case Socket(_, canRead, canWrite, failed, incoming, outgoing, now) =>
      x' := a.OnSocket(canRead, canWrite, failed, incoming, outgoing, now, b.host.out, x, y, wy);
    case Pump(_, ms) => x' := a.OnUpdate(ms, b.host.out, x, y, wy);
    case Timer(_, lim, now) => x' := a.OnTimer(lim, now, b.host.out, x, y, wy);
    case Reset(_) => a.OnReset();
    case Packet(_, k, pad, sameAddr, outgoing, dial, now) =>
      if |a.host.accepted| <= HORIZON && |b.host.accepted| <= HORIZON {
        JointRecent(x, y, a.host.State(), wy, Deliver(a.who, k, pad));
        Tunnel.Sending(b.ss);
        x' := a.OnPacket(k, pad, sameAddr, outgoing, dial, now, b.host.out, b.ss.h.sent, x, y, wy);
      }
  }

  /** What the two users have seen of each other. */
  lemma LinkedPrefix(a: End, b: End, x: Node, y: Node)
    requires Linked(a, b, x, y)
    ensures b.ss.h.written <= a.ss.h.read && (b.ss.h.eof ==> b.ss.h.written == a.ss.h.read)
    ensures a.ss.h.written <= b.ss.h.read && (a.ss.h.eof ==> a.ss.h.written == b.ss.h.read)
  {
    hide Session.Valid, Joint, Ready;
    JointTurned(x, y, a.host.State(), b.host.State());
    JointReady(x, y, a.host.State(), b.host.State());
    JointReady(y, x, b.host.State(), a.host.State());
    Tunnel.TunnelIsPrefix(a.ss, b.ss);
    Tunnel.TunnelIsPrefix(b.ss, a.ss);
  }

  /** A tunnel from a TCP client on the left to a server on the right: whatever happens,
      each end has written to TCP a prefix of what the other has read from TCP, and
      all of it if it has acted on the EOF. */
  method Play(left: Config, right: Config, evs: seq<Happening>) returns (l: End, r: End)
    requires left.conv == right.conv && left.mss >= 118 && right.mss >= 118
    ensures r.ss.h.written <= l.ss.h.read && (r.ss.h.eof ==> r.ss.h.written == l.ss.h.read)
    ensures l.ss.h.written <= r.ss.h.read && (l.ss.h.eof ==> l.ss.h.written == r.ss.h.read)
  {
    hide Joint, Session.Valid, Ready, End.Valid;
    ghost var x, y;
    l, r, x, y := Begin(left, right);
    var i := 0;
    while i < |evs|
      invariant 0 <= i <= |evs| && Linked(l, r, x, y) && Apart(l, r)
      invariant fresh(l) && fresh(l.host) && fresh(l.host.kcp) && fresh(l.ss)
      invariant fresh(r) && fresh(r.host) && fresh(r.host.kcp) && fresh(r.ss)
    {
      if evs[i].who.Left? {
        x := Happen(l, r, evs[i], x, y);
      } else {
        JointTurned(x, y, l.host.State(), r.host.State());
        y := Happen(r, l, evs[i], y, x);
        JointTurned(y, x, r.host.State(), l.host.State());
      }
      i := i + 1;
    }
    LinkedPrefix(l, r, x, y);
  }

  lemma NothingReady(cfg: Config)
    ensures Ready(Word, Create(cfg).rcv) == [] && Took([], [], [], [])
  {
  }

  /** A session for a packet of an unknown conversation, over a new control block. */
  method NewServer(cfg: Config) returns (r: End)
    requires cfg.mss >= 118
    ensures fresh(r) && fresh(r.host) && fresh(r.host.kcp) && fresh(r.ss)
    ensures r.Valid() && r.host.State() == WStart(cfg) && r.ss.peer == [] && r.ss.h.sent == []
  {
    hide Session.Valid, Ready, Took;
    NothingReady(cfg);
    var host := new Host(cfg);
    var ss := new Session(cfg.mss, cfg.sndWnd, 0.0, true, []);
    r := new End(Right, host, ss);
  }

  /** A session for a TCP client, which has asked for its DIAL to be sent. */
  method NewClient(cfg: Config) returns (l: End)
    requires cfg.mss >= 118
    ensures fresh(l) && fresh(l.host) && fresh(l.host.kcp) && fresh(l.ss)
    ensures l.Owes() && l.host.State() == WStart(cfg) && l.ss.peer == []
  {
    hide Session.Valid, Ready, Took;
    NothingReady(cfg);
    var host := new Host(cfg);
    var ss := Session.AcceptOne(cfg.mss, cfg.sndWnd, 0.0, []);
    l := new End(Left, host, ss);
  }

  method Begin(left: Config, right: Config) returns (l: End, r: End, ghost x: Node, ghost y: Node)
    requires left.conv == right.conv && left.mss >= 118 && right.mss >= 118
    ensures Linked(l, r, x, y) && Apart(l, r)
    ensures fresh(l) && fresh(l.host) && fresh(l.host.kcp) && fresh(l.ss)
    ensures fresh(r) && fresh(r.host) && fresh(r.host.kcp) && fresh(r.ss)
  {
    hide Joint, End.Valid, End.Owes, Start, WStart;
    r := NewServer(right);
    l := NewClient(left);
    JointStart(left, right);
    x, y := Start(left), Start(right);
    x := l.Settle(r.host.out, x, y, r.host.State());
  }
}
