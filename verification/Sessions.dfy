/** A tunnel session (src/session.c, src/event_tcp.c, src/event_kcp.c): one TCP
    connection carried as frames over one KCP conversation. Sockets answer from
    scripts the environment fills in; KCP is seen as a send queue and a list of
    segments ready to be received. */
module Sessions {
  import opened Words
  import opened Network
  import opened KcpModel
  import opened KcpBytes
  import opened Frames

  const MAX_SEGMENT := MAX_PACKET_SIZE - OVERHEAD

  datatype State = Init | Connect | Connected | Linger | TimeWait

  function Rank(s: State): int {
    match s case Init => 0 case Connect => 1 case Connected => 2 case Linger => 3 case TimeWait => 4
  }

  datatype ReadResult = Data(bytes: seq<byte>) | ReadWait | ReadClosed
  datatype WriteResult = Sent(n: nat) | WriteWait | WriteFailed
  datatype DialResult = DialDone | DialPending | DialFailed

  /** What TCP takes of `len` bytes over a number of writes. */
  datatype Taken = Taken(bytes: nat, failed: bool, rest: seq<WriteResult>)

  /** The answers to tcp_flush: it goes on after a short write and stops when
      everything is taken, when TCP would block and when it fails. */
  function Writes(script: seq<WriteResult>, len: nat): (t: Taken)
    ensures t.bytes <= len
  {
    if len == 0 || script == [] then Taken(0, false, script)
    else if script[0].WriteFailed? then Taken(0, true, script[1..])
    else
      var n := if script[0].Sent? then Min(script[0].n, len) else 0;
      if n == 0 || n == len then Taken(n, false, script[1..])
      else
        var t := Writes(script[1..], len - n);
        Taken(n + t.bytes, t.failed, t.rest)
  }

  /** Bytes that one read gives: no more than a frame can carry. */
  function Fetch(a: ReadResult): (b: seq<byte>)
    ensures |b| <= MAX_LENGTH - HEADER_SIZE
  {
    if a.Data? then a.bytes[..Min(MAX_LENGTH - HEADER_SIZE, |a.bytes|)] else []
  }

  function FetchAll(script: seq<ReadResult>): seq<byte> {
    if script == [] then [] else FetchAll(script[..|script| - 1]) + Fetch(script[|script| - 1])
  }

  /** The stream has ended. */
  predicate Ends(a: ReadResult) { a.ReadClosed? || (a.Data? && a.bytes == []) }

  predicate Flows(a: ReadResult) { a.Data? && a.bytes != [] }

  /** `rest` is left of the script `all` after reads that gave `bytes`; every read
      but the last gave some. */
  ghost predicate ReadOut(all: seq<ReadResult>, rest: seq<ReadResult>, bytes: seq<byte>) {
    var k := |all| - |rest|;
    && 0 <= k && rest == all[k..] && bytes == FetchAll(all[..k])
    && (forall i :: 0 <= i < k - 1 ==> Flows(all[i]))
  }

  /** The last read of a script. */
  ghost function LastRead(all: seq<ReadResult>, rest: seq<ReadResult>): ReadResult {
    if |rest| < |all| then all[|all| - |rest| - 1] else ReadWait
  }

  lemma NoneRead(all: seq<ReadResult>)
    ensures ReadOut(all, all, []) && LastRead(all, all) == ReadWait
  {
    assert all[..0] == [];
  }

  lemma ReadOneMore(all: seq<ReadResult>, rest: seq<ReadResult>, bytes: seq<byte>)
    requires ReadOut(all, rest, bytes) && rest != [] && (|rest| < |all| ==> Flows(LastRead(all, rest)))
    ensures ReadOut(all, rest[1..], bytes + Fetch(rest[0])) && LastRead(all, rest[1..]) == rest[0]
  {
    var k := |all| - |rest|;
    assert all[..k + 1][..k] == all[..k] && all[k] == rest[0];
  }

  datatype Moment = Never | At(time: real)

  datatype Timers = Timers(created: real, lastReset: Moment, lastSend: Moment, lastRecv: Moment)

  /** What a session has done so far: bytes read from and written to TCP, frames
      handed to KCP, bytes received from KCP, frames acted on to the end, whether
      the peer's EOF was acted on, the send queue and the bytes offered when KCP was
      last brought up to date, and the resets answered. */
  datatype Log = Log(
    read: seq<byte>, written: seq<byte>, offered: seq<byte>, sent: seq<Frame>,
    received: seq<byte>, done: seq<Frame>, eof: bool,
    base: seq<seq<byte>>, handed: seq<byte>, resets: seq<real>)

  ghost function NewLog(): Log { Log([], [], [], [], [], [], false, [], [], []) }

  ghost predicate Grows(a: Log, b: Log) {
    && a.read <= b.read && a.written <= b.written && a.offered <= b.offered && a.sent <= b.sent
    && a.received <= b.received && a.done <= b.done && (a.eof ==> b.eof)
    && a.base == b.base && a.handed == b.handed && a.resets == b.resets
  }

  datatype Limits = Limits(dial: real, session: real, keepalive: real, linger: real, timeWait: real)

  datatype Expiry = Expiry(state: State, timers: Timers, keep: bool)

  /** Time since `m`, or since the session was created. */
  function Since(t: Timers, m: Moment, now: real): real {
    now - if m.At? then m.time else t.created
  }

  /** What the timer does to a session. */
  function Expire(lim: Limits, accepted: bool, s: State, t: Timers, now: real): Expiry {
    match s
    case Init | Connect =>
      if now - t.created > lim.dial then Expiry(Linger, t.(lastSend := At(now)), true) else Expiry(s, t, true)
    case Connected =>
      if Since(t, t.lastRecv, now) > lim.session then Expiry(TimeWait, t, true)
      else if !accepted && Since(t, t.lastRecv, now) > lim.keepalive
      then Expiry(s, t.(lastSend := At(now)), true) else Expiry(s, t, true)
    case Linger => Expiry(if Since(t, t.lastSend, now) > lim.linger then TimeWait else s, t, true)
    case TimeWait => Expiry(s, t, Since(t, t.lastReset, now) <= lim.timeWait)
  }

  /** What the timer sends: EOF when dialling takes too long, and on the client a
      keepalive whenever nothing has been heard for that long. */
  function Reminder(lim: Limits, accepted: bool, s: State, t: Timers, now: real): seq<Frame> {
    if s.Connect? && now - t.created > lim.dial then [Eof]
    else if s.Connected? && !accepted && lim.keepalive < Since(t, t.lastRecv, now) <= lim.session then [KeepAlive]
    else []
  }

  /** What a callback does to the KCP state and the timestamps when no packet comes
      and no ready segment is taken: at most a close, and sending only before that. */
  predicate Silent(s: State, t: Timers, s': State, t': Timers, now: real) {
    && t' == t.(lastSend := t'.lastSend) && (t'.lastSend == t.lastSend || t'.lastSend == At(now))
    && (if s == Linger || s == TimeWait then s' == s && t' == t else s' == s || s' == Linger)
  }

  /** The same when ready segments may be taken: their number goes from `n` to `n'`,
      and the session counts as seen only if it went down. */
  predicate Unfed(s: State, t: Timers, n: nat, s': State, t': Timers, n': nat, now: real) {
    && Silent(s, t.(lastRecv := t'.lastRecv), s', t', now) && n' <= n
    && (t'.lastRecv == t.lastRecv || (t'.lastRecv == At(now) && n' < n && s != Linger && s != TimeWait))
  }

  /** Segments leave the ready list in order and become received bytes. */
  ghost predicate Took(bytes: seq<byte>, ready: seq<seq<byte>>, bytes': seq<byte>, ready': seq<seq<byte>>) {
    var k := |ready| - |ready'|;
    0 <= k && ready' == ready[k..] && bytes' == bytes + Flat(ready[..k])
  }

  lemma TookOn(a: seq<byte>, x: seq<seq<byte>>, b: seq<byte>, y: seq<seq<byte>>, c: seq<byte>, z: seq<seq<byte>>)
    ensures Took(a, x, a, x)
    ensures Took(a, x, b, y) && Took(b, y, c, z) ==> Took(a, x, c, z)
  {
    assert x[..0] == [] && x[0..] == x;
    if Took(a, x, b, y) && Took(b, y, c, z) {
      var k, j := |x| - |y|, |y| - |z|;
      assert x[..k + j] == x[..k] + y[..j] && x[k..][j..] == x[k + j..];
      FlatAppend(x[..k], y[..j]);
      Associate(a, Flat(x[..k]), Flat(y[..j]));
    }
  }

  lemma TookOne(bytes: seq<byte>, ready: seq<seq<byte>>)
    requires ready != []
    ensures Took(bytes, ready, bytes + ready[0], ready[1..])
  {
    assert ready[..1] == [ready[0]];
    assert Flat([ready[0]]) == ready[0] + Flat([]) == ready[0];
  }

  /** Resets answered so far: any two are more than a second apart. */
  ghost predicate Spaced(resets: seq<real>, last: Moment) {
    && (if resets == [] then last == Never else last == At(resets[|resets| - 1]))
    && (forall i, j :: 0 <= i < j < |resets| ==> resets[j] - resets[i] > 1.0)
  }

  /** The resets after a packet that is refused at `now`: one more, unless the last one
      is at most a second old. */
  ghost function Answered(resets: seq<real>, now: real): seq<real> {
    if resets == [] || now - resets[|resets| - 1] > 1.0 then resets + [now] else resets
  }

  // ---------------------------------------------------------------- what is asked of KCP

  /** The send queue after a number of ikcp_send calls. */
  ghost function SendEach(mss: int, queue: seq<seq<byte>>, bufs: seq<seq<byte>>): seq<seq<byte>>
    requires mss > 0
  {
    if bufs == [] then queue
    else KcpModel.Send(mss, SendEach(mss, queue, bufs[..|bufs| - 1]), bufs[|bufs| - 1]).queue
  }

  /** Since KCP was last brought up to date the session asked for `sends`. */
  ghost predicate Asked(mss: int, h: Log, sends: seq<seq<byte>>, queue: seq<seq<byte>>) {
    && mss > 0 && queue == SendEach(mss, h.base, sends) && h.offered == h.handed + Flat(sends)
    && (forall i :: 0 <= i < |sends| ==> |sends[i]| <= MAX_LENGTH)
  }

  lemma AskedOneMore(mss: int, h: Log, sends: seq<seq<byte>>, queue: seq<seq<byte>>, f: Frame)
    requires Asked(mss, h, sends, queue) && Honest(f)
    ensures var b := EncodeFrame(f); Asked(mss, AddFrame(h, f), sends + [b], KcpModel.Send(mss, queue, b).queue)
  {
    var b := EncodeFrame(f);
    FlatAppend(sends, [b]);
    assert Flat([b]) == b + Flat([]) == b;
    Associate(h.handed, Flat(sends), b);
    assert (sends + [b])[..|sends|] == sends;
  }

  lemma AlsoAsked(mss: int, h: Log, sends: seq<seq<byte>>, queue: seq<seq<byte>>, h': Log)
    requires Asked(mss, h, sends, queue) && h'.base == h.base && h'.handed == h.handed && h'.offered == h.offered
    ensures Asked(mss, h', sends, queue)
  {
  }

  lemma NothingAsked(mss: int, h: Log, queue: seq<seq<byte>>)
    requires mss > 0 && h.base == queue && h.handed == h.offered
    ensures Asked(mss, h, [], queue)
  {
    assert h.offered + [] == h.offered;
  }

  // ---------------------------------------------------------------- the sending direction

  /** Everything read from TCP is in frames handed to KCP or still in `rbuf`, in
      order; EOF is the last frame ever sent, and only a closing session sent it. */
  ghost predicate Outbound(h: Log, rbuf: seq<byte>, closing: bool) {
    && AllHonest(h.sent) && h.offered == EncodeFrames(h.sent)
    && h.read == Payloads(h.sent) + rbuf && |rbuf| <= MAX_LENGTH - HEADER_SIZE
    && (forall i :: 0 <= i < |h.sent| && h.sent[i].Eof? ==> i == |h.sent| - 1 && closing)
  }

  ghost function AddFrame(h: Log, f: Frame): Log
    requires Honest(f)
  {
    h.(offered := h.offered + EncodeFrame(f), sent := h.sent + [f])
  }

  /** Handing over a frame that carries all of `rbuf`, or none of it. */
  lemma FrameSent(h: Log, rbuf: seq<byte>, f: Frame, rbuf': seq<byte>, closing: bool)
    requires Outbound(h, rbuf, false) && Honest(f) && Body(f) + rbuf' == rbuf && (f.Eof? ==> closing)
    ensures Outbound(AddFrame(h, f), rbuf', closing) && Grows(h, AddFrame(h, f)) && AddFrame(h, f).resets == h.resets
  {
    EncodeFramesSnoc(h.sent, f);
    PayloadsSnoc(h.sent, f);
    Associate(Payloads(h.sent), Body(f), rbuf');
  }

  // ---------------------------------------------------------------- the receiving direction

  /** Part of the payload in progress that TCP has taken. */
  ghost function Partial(peer: seq<Frame>, n: nat, flush: int, next: int): seq<byte> {
    if next > 0 && n < |peer| && peer[n].Push? && 0 <= flush - HEADER_SIZE <= |peer[n].payload|
    then peer[n].payload[..flush - HEADER_SIZE] else []
  }

  ghost predicate Segments(inbound: seq<seq<byte>>) {
    forall i :: 0 <= i < |inbound| ==> 0 < |inbound[i]| <= MAX_SEGMENT
  }

  /** `wbuf` continues the peer's frames where the finished ones end; a frame in
      progress is whole in `wbuf`, and TCP has taken its payload up to `flush`. */
  ghost predicate Deframed(peer: seq<Frame>, h: Log, wbuf: seq<byte>, flush: int, next: int, inbound: seq<seq<byte>>) {
    var n := |h.done|;
    && AllHonest(peer) && n <= |peer| && h.done == peer[..n]
    && wbuf + Flat(inbound) <= EncodeFrames(peer[n..]) && h.received == EncodeFrames(peer[..n]) + wbuf
    && Segments(inbound) && |wbuf| <= BUF_SIZE && 0 <= flush <= next <= |wbuf|
    && h.written == Payloads(peer[..n]) + Partial(peer, n, flush, next)
    && (if next == 0 then !h.eof
        else && n < |peer| && next == |EncodeFrame(peer[n])| && flush >= HEADER_SIZE
             && (if h.eof then peer[n].Eof? && flush == next else peer[n].Push?))
  }

  /** The first `n` frames came whole, TCP got a prefix of their payloads, and
      all of them if EOF was acted on, which then is the last of them. */
  ghost predicate Reached(peer: seq<Frame>, h: Log, n: nat) {
    && AllHonest(peer) && n <= |peer| && EncodeFrames(peer[..n]) <= h.received && h.written <= Payloads(peer[..n])
    && (h.eof ==> n > 0 && peer[n - 1].Eof? && h.written == Payloads(peer[..n]))
  }

  /** What holds of the TCP side whatever the state. */
  ghost predicate Delivered(peer: seq<Frame>, h: Log) {
    exists n :: Reached(peer, h, n)
  }

  lemma DeframedDelivers(peer: seq<Frame>, h: Log, wbuf: seq<byte>, flush: int, next: int, inbound: seq<seq<byte>>)
    requires Deframed(peer, h, wbuf, flush, next, inbound)
    ensures Delivered(peer, h)
  {
    hide EncodeFrame, EncodeFrames, Payloads, Flat, AllHonest, Delivered, Segments;
    var n := |h.done|;
    if next == 0 {
      assert Partial(peer, n, flush, next) == [];
      ReachedBy(peer, h, n, wbuf);
    } else {
      assert peer[..n + 1] == peer[..n] + [peer[n]];
      HonestFrom(peer, n);
      EncodeFramesSnoc(peer[..n], peer[n]);
      PayloadsSnoc(peer[..n], peer[n]);
      HeadFrame(peer, n, wbuf, inbound, next);
      var e, rest := EncodeFrame(peer[n]), wbuf[next..];
      SplitAt(wbuf, next);
      Associate(EncodeFrames(peer[..n]), e, rest);
      PartOf(peer, n, flush, next);
      Prefixed(Payloads(peer[..n]), Partial(peer, n, flush, next), Body(peer[n]));
      ReachedBy(peer, h, n + 1, rest);
    }
  }

  lemma HonestFrom(peer: seq<Frame>, n: nat)
    requires AllHonest(peer) && n < |peer|
    ensures AllHonest(peer[..n]) && Honest(peer[n])
  {
  }

  lemma PartOf(peer: seq<Frame>, n: nat, flush: int, next: int)
    requires n < |peer| && Honest(peer[n]) && next == |EncodeFrame(peer[n])| && 0 <= flush <= next
    ensures Partial(peer, n, flush, next) <= Body(peer[n])
    ensures flush == next && !peer[n].Push? ==> Partial(peer, n, flush, next) == Body(peer[n])
  {
  }

  lemma Prefixed(a: seq<byte>, b: seq<byte>, c: seq<byte>)
    requires b <= c
    ensures a + b <= a + c
  {
  }

  lemma ReachedBy(peer: seq<Frame>, h: Log, n: nat, rest: seq<byte>)
    requires AllHonest(peer) && n <= |peer| && h.received == EncodeFrames(peer[..n]) + rest
    requires h.written <= Payloads(peer[..n])
    requires h.eof ==> n > 0 && peer[n - 1].Eof? && h.written == Payloads(peer[..n])
    ensures Delivered(peer, h)
  {
    hide EncodeFrames, Payloads, AllHonest;
    assert Reached(peer, h, n);
  }

  /** ikcp_recv gave the first ready segment. */
  lemma SegmentTaken(peer: seq<Frame>, h: Log, wbuf: seq<byte>, inbound: seq<seq<byte>>)
    requires Deframed(peer, h, wbuf, 0, 0, inbound) && inbound != [] && |wbuf| + |inbound[0]| <= BUF_SIZE
    ensures Deframed(peer, h.(received := h.received + inbound[0]), wbuf + inbound[0], 0, 0, inbound[1..])
  {
    Associate(wbuf, inbound[0], Flat(inbound[1..]));
    Associate(EncodeFrames(peer[..|h.done|]), wbuf, inbound[0]);
  }

  /** The loop of kcp_recv. */
  method Gather(wbuf: seq<byte>, ready: seq<seq<byte>>, ghost peer: seq<Frame>, ghost h: Log)
    returns (wbuf': seq<byte>, ready': seq<seq<byte>>, ghost h': Log)
    requires Deframed(peer, h, wbuf, 0, 0, ready)
    ensures Deframed(peer, h', wbuf', 0, 0, ready') && h' == h.(received := h'.received) && h.received <= h'.received
    ensures ready' == [] || |wbuf'| > BUF_SIZE - MAX_SEGMENT
    ensures |wbuf'| + |Flat(ready')| == |wbuf| + |Flat(ready)|
    ensures Took(h.received, ready, h'.received, ready') && |ready'| <= |ready|
  {
    hide Deframed, EncodeFrames, Payloads, Took;
    wbuf', ready', h' := wbuf, ready, h;
    TookOn(h.received, ready, h.received, ready, h.received, ready);
    RoomLeft(peer, h, wbuf, 0, ready);
    while ready' != []
      invariant Deframed(peer, h', wbuf', 0, 0, ready') && h' == h.(received := h'.received) && h.received <= h'.received
      invariant |wbuf'| + |Flat(ready')| == |wbuf| + |Flat(ready)|
      invariant Took(h.received, ready, h'.received, ready') && |ready'| <= |ready|
      invariant |wbuf'| <= BUF_SIZE && Segments(ready')
      decreases |ready'|
    {
      var seg := ready'[0];
      if |seg| > BUF_SIZE - |wbuf'| {
        break;
      }
      SegmentTaken(peer, h', wbuf', ready');
      TookOne(h'.received, ready');
      TookOn(h.received, ready, h'.received, ready', h'.received + seg, ready'[1..]);
      h' := h'.(received := h'.received + seg);
      wbuf', ready' := wbuf' + seg, ready'[1..];
    }
  }

  /** More segments became ready. */
  lemma SegmentsReady(peer: seq<Frame>, h: Log, wbuf: seq<byte>, flush: int, next: int,
                      inbound: seq<seq<byte>>, more: seq<seq<byte>>)
    requires Deframed(peer, h, wbuf, flush, next, inbound) && Segments(more)
    requires h.received + Flat(inbound + more) <= EncodeFrames(peer)
    ensures Deframed(peer, h, wbuf, flush, next, inbound + more)
  {
    var n := |h.done|;
    var a, b, c := EncodeFrames(peer[..n]), wbuf, Flat(inbound + more);
    Associate(a, b, c);
    EncodeFramesSplit(peer, n);
    StripPrefix(a, b + c, EncodeFrames(peer[n..]));
  }

  lemma StripPrefix(a: seq<byte>, b: seq<byte>, c: seq<byte>)
    requires a + b <= a + c
    ensures b <= c
  {
    assert b == (a + b)[|a|..] && c == (a + c)[|a|..];
  }

  lemma {:induction false} EncodeFramesSplit(fs: seq<Frame>, n: nat)
    requires AllHonest(fs) && n <= |fs|
    ensures EncodeFrames(fs) == EncodeFrames(fs[..n]) + EncodeFrames(fs[n..])
  {
    if n > 0 {
      EncodeFramesSplit(fs, n - 1);
      assert fs[..n] == fs[..n - 1] + [fs[n - 1]];
      EncodeFramesSnoc(fs[..n - 1], fs[n - 1]);
      assert fs[n - 1..][1..] == fs[n..];
      Associate(EncodeFrames(fs[..n - 1]), EncodeFrame(fs[n - 1]), EncodeFrames(fs[n..]));
    }
  }

  /** The frame at the head of `wbuf` is finished with: drop it. */
  lemma FrameConsumed(peer: seq<Frame>, h: Log, wbuf: seq<byte>, n: nat, rest: seq<byte>, inbound: seq<seq<byte>>)
    requires n == |h.done| < |peer| && AllHonest(peer) && h.done == peer[..n] && !h.eof
    requires |wbuf| <= BUF_SIZE && wbuf == EncodeFrame(peer[n]) + rest && Segments(inbound)
    requires wbuf + Flat(inbound) <= EncodeFrames(peer[n..]) && h.received == EncodeFrames(peer[..n]) + wbuf
    requires h.written == Payloads(peer[..n]) + Body(peer[n])
    ensures Deframed(peer, h.(done := h.done + [peer[n]]), rest, 0, 0, inbound)
  {
    assert peer[..n + 1] == peer[..n] + [peer[n]];
    assert peer[n..][1..] == peer[n + 1..];
    EncodeFramesSnoc(peer[..n], peer[n]);
    PayloadsSnoc(peer[..n], peer[n]);
    Associate(EncodeFrames(peer[..n]), EncodeFrame(peer[n]), rest);
    Associate(EncodeFrame(peer[n]), rest, Flat(inbound));
    StripPrefix(EncodeFrame(peer[n]), rest + Flat(inbound), EncodeFrames(peer[n + 1..]));
  }

  /** TCP took the next `k` bytes of the payload in progress. */
  lemma BytesWritten(peer: seq<Frame>, h: Log, wbuf: seq<byte>, flush: int, next: int, inbound: seq<seq<byte>>, k: nat)
    requires Deframed(peer, h, wbuf, flush, next, inbound) && flush + k <= next && flush < next
    ensures Deframed(peer, h.(written := h.written + wbuf[flush..flush + k]), wbuf, flush + k, next, inbound)
  {
    hide EncodeFrame, EncodeFrames, Payloads, Flat, Segments;
    var n := |h.done|;
    HonestFrom(peer, n);
    HeadFrame(peer, n, wbuf, inbound, next);
    var p, d := peer[n].payload, flush - HEADER_SIZE;
    PayloadBytes(peer[n], wbuf, flush, k);
    assert p[..d] + p[d..d + k] == p[..d + k];
    Associate(Payloads(peer[..n]), p[..d], p[d..d + k]);
  }

  /** Bytes of `wbuf` past the header of a PUSH are bytes of its payload. */
  lemma PayloadBytes(f: Frame, wbuf: seq<byte>, flush: int, k: nat)
    requires f.Push? && Honest(f) && EncodeFrame(f) <= wbuf && HEADER_SIZE <= flush && flush + k <= |EncodeFrame(f)|
    ensures |f.payload| == |EncodeFrame(f)| - HEADER_SIZE
    ensures wbuf[flush..flush + k] == f.payload[flush - HEADER_SIZE..flush - HEADER_SIZE + k]
  {
    var e := EncodeFrame(f);
    SlicePrefix(e, wbuf, flush, flush + k);
    SliceTail(Big16(Kind(f)) + Big16(HEADER_SIZE + |f.payload|), f.payload, flush, flush + k);
  }

  lemma SlicePrefix(s: seq<byte>, t: seq<byte>, a: nat, b: nat)
    requires s <= t && a <= b <= |s|
    ensures t[a..b] == s[a..b]
  {
  }

  lemma SliceTail(s: seq<byte>, t: seq<byte>, a: nat, b: nat)
    requires |s| <= a <= b <= |s| + |t|
    ensures (s + t)[a..b] == t[a - |s|..b - |s|]
  {
  }

  lemma HeadFrame(peer: seq<Frame>, n: nat, wbuf: seq<byte>, inbound: seq<seq<byte>>, next: int)
    requires AllHonest(peer) && n < |peer| && wbuf + Flat(inbound) <= EncodeFrames(peer[n..])
    requires next == |EncodeFrame(peer[n])| <= |wbuf|
    ensures wbuf[..next] == EncodeFrame(peer[n])
  {
    assert wbuf[..next] == (wbuf + Flat(inbound))[..next] == EncodeFrames(peer[n..])[..next];
    assert EncodeFrames(peer[n..]) == EncodeFrame(peer[n]) + EncodeFrames(peer[n..][1..]);
  }

  /** What the header at the head of `wbuf` says. */
  lemma HeaderSeen(peer: seq<Frame>, h: Log, wbuf: seq<byte>, inbound: seq<seq<byte>>)
    requires Deframed(peer, h, wbuf, 0, 0, inbound) && HEADER_SIZE <= |wbuf|
    ensures var n := |h.done|;
            && n < |peer| && Read16(wbuf, 0) == Kind(peer[n]) && Read16(wbuf, 2) == |EncodeFrame(peer[n])|
            && (Read16(wbuf, 2) <= |wbuf| ==> wbuf == EncodeFrame(peer[n]) + wbuf[Read16(wbuf, 2)..])
  {
    var n := |h.done|;
    assert wbuf <= wbuf + Flat(inbound);
    FirstFrame(wbuf, peer[n..]);
    if Read16(wbuf, 2) <= |wbuf| {
      SplitAt(wbuf, Read16(wbuf, 2));
    }
  }

  lemma PushBegun(peer: seq<Frame>, h: Log, wbuf: seq<byte>, inbound: seq<seq<byte>>, next: int)
    requires Deframed(peer, h, wbuf, 0, 0, inbound) && |h.done| < |peer| && peer[|h.done|].Push?
    requires next == |EncodeFrame(peer[|h.done|])| <= |wbuf|
    ensures Deframed(peer, h, wbuf, HEADER_SIZE, next, inbound)
  {
  }

  lemma EofSeen(peer: seq<Frame>, h: Log, wbuf: seq<byte>, inbound: seq<seq<byte>>)
    requires Deframed(peer, h, wbuf, 0, 0, inbound) && |h.done| < |peer| && peer[|h.done|].Eof? && HEADER_SIZE <= |wbuf|
    ensures Deframed(peer, h.(eof := true), wbuf, HEADER_SIZE, HEADER_SIZE, inbound)
  {
  }

  lemma FrameSkipped(peer: seq<Frame>, h: Log, wbuf: seq<byte>, inbound: seq<seq<byte>>, next: int)
    requires Deframed(peer, h, wbuf, 0, 0, inbound) && |h.done| < |peer| && Body(peer[|h.done|]) == []
    requires next == |EncodeFrame(peer[|h.done|])| <= |wbuf|
    ensures Deframed(peer, h.(done := h.done + [peer[|h.done|]]), wbuf[next..], 0, 0, inbound)
  {
    var n := |h.done|;
    HeadFrame(peer, n, wbuf, inbound, next);
    SplitAt(wbuf, next);
    FrameConsumed(peer, h, wbuf, n, wbuf[next..], inbound);
  }

  lemma PushFinished(peer: seq<Frame>, h: Log, wbuf: seq<byte>, next: int, inbound: seq<seq<byte>>)
    requires Deframed(peer, h, wbuf, next, next, inbound) && next > 0 && !h.eof
    ensures |h.done| < |peer| && Deframed(peer, h.(done := h.done + [peer[|h.done|]]), wbuf[next..], 0, 0, inbound)
  {
    var n := |h.done|;
    HeadFrame(peer, n, wbuf, inbound, next);
    SplitAt(wbuf, next);
    assert peer[n].payload[..next - HEADER_SIZE] == peer[n].payload;
    FrameConsumed(peer, h, wbuf, n, wbuf[next..], inbound);
  }

  // ---------------------------------------------------------------- the session

  class Session {
    const mss: int
    const sndWnd: int
    const accepted: bool
    var tcpState: State
    var kcpState: State
    var fd: bool
    var alive: bool
    var sndQueue: seq<seq<byte>>
    var nsndBuf: nat
    var inbound: seq<seq<byte>>
    var rbuf: seq<byte>
    var wbuf: seq<byte>
    var wbufFlush: int
    var wbufNext: int
    var readScript: seq<ReadResult>
    var writeScript: seq<WriteResult>
    var dial: DialResult
    var now: real
    var timers: Timers
    var wantRead: bool
    var wantWrite: bool
    var sends: seq<seq<byte>>
    ghost var peer: seq<Frame>
    ghost var h: Log

    predicate Closing()
      reads this
    {
      kcpState == Linger || kcpState == TimeWait
    }

    /** What every piece of code keeps. */
    ghost predicate Core()
      reads this
    {
      && mss >= 118 && AllHonest(peer) && Sized(mss, sndQueue) && Outbound(h, rbuf, Closing())
      && Asked(mss, h, sends, sndQueue) && Spaced(h.resets, timers.lastReset)
      && (if alive then Deframed(peer, h, wbuf, wbufFlush, wbufNext, inbound) else Delivered(peer, h))
      && (tcpState == Connect || tcpState == Connected ==> fd)
    }

    /** What holds between the steps of a callback. Buffers and KCP exist exactly
        until the KCP side reaches TimeWait. */
    ghost predicate Mid()
      reads this
    {
      && Core() && rbuf == [] && kcpState != Init && (alive <==> kcpState != TimeWait)
      && (if Closing() then tcpState == TimeWait || (tcpState == Linger && kcpState == Linger && h.eof)
          else tcpState != TimeWait && tcpState != Linger && !h.eof)
    }

    /** What holds between callbacks: TCP is in TimeWait exactly when KCP is in
        Linger or TimeWait. */
    ghost predicate Valid()
      reads this
    {
      Mid() && tcpState != Linger && (tcpState == TimeWait <==> Closing())
    }

    /** Progress since an earlier moment of the same callback. */
    twostate predicate Forward()
      reads this
    {
      && Rank(old(tcpState)) <= Rank(tcpState) && Rank(old(kcpState)) <= Rank(kcpState)
      && Grows(old(h), h)
    }

    // -------------------------------------------------------------- KCP side

    /** kcp_cansend */
    method CanSend() returns (ok: bool)
      ensures ok <==> alive && nsndBuf + |sndQueue| < sndWnd
    {
      ok := alive && nsndBuf + |sndQueue| < sndWnd;
    }

    /** kcp_send: ikcp_send takes all of a frame. */
    method KcpSend(buf: seq<byte>)
      requires mss >= 118 && Sized(mss, sndQueue) && |buf| <= MAX_LENGTH
      modifies this`sndQueue, this`timers, this`sends
      ensures Sized(mss, sndQueue) && Flat(sndQueue) == Flat(old(sndQueue)) + buf
      ensures sndQueue == KcpModel.Send(mss, old(sndQueue), buf).queue && sends == old(sends) + [buf]
      ensures timers == old(timers).(lastSend := At(now))
    {
      hide Sized, Flat;
      FrameTaken(mss, sndQueue, buf);
      var r := KcpModel.Send(mss, sndQueue, buf);
      sndQueue := r.queue;
      sends := sends + [buf];
      timers := timers.(lastSend := At(now));
    }

    /** kcp_sendmsg of a frame without payload. */
    method SendMsg(f: Frame)
      requires Core() && alive && !Closing() && !f.Push? && !f.Eof?
      modifies this`sndQueue, this`h, this`timers, this`sends
      ensures Core() && h == AddFrame(old(h), f) && timers == old(timers).(lastSend := At(now))
    {
      hide Outbound, Deframed, Delivered, Asked, Spaced, AllHonest, Took, Sized, EncodeFrame, AddFrame, Grows,
        EncodeFrames, Payloads, KcpModel.Send, Flat;
      FrameSent(h, rbuf, f, rbuf, false);
      AskedOneMore(mss, h, sends, sndQueue, f);
      BeforeSend(peer, h, wbuf, wbufFlush, wbufNext, inbound, f);
      KcpSend(EncodeFrame(f));
      h := AddFrame(h, f);
    }

    /** kcp_push: all of `rbuf` leaves as one frame. */
    method KcpPush()
      requires Core() && alive && !Closing() && rbuf != []
      modifies this`sndQueue, this`h, this`rbuf, this`timers, this`sends
      ensures Core() && rbuf == [] && h == AddFrame(old(h), Push(old(rbuf)))
      ensures timers == old(timers).(lastSend := At(now))
    {
      hide Outbound, Deframed, Delivered, Asked, Spaced, AllHonest, Took, Sized, EncodeFrame, AddFrame, Grows,
        EncodeFrames, Payloads, KcpModel.Send, Flat;
      var f := Push(rbuf);
      PushFits(h, rbuf, Closing());
      FrameSent(h, rbuf, f, [], false);
      AskedOneMore(mss, h, sends, sndQueue, f);
      BeforeSend(peer, h, wbuf, wbufFlush, wbufNext, inbound, f);
      KcpSend(EncodeFrame(f));
      h := AddFrame(h, f);
      rbuf := [];
    }

    /** session_kcp_close: says EOF once, then lingers. */
    method KcpClose()
      requires Core() && rbuf == [] && kcpState != Init && (alive || Closing())
      modifies this`sndQueue, this`h, this`kcpState, this`timers, this`sends
      ensures Core() && kcpState == (if old(Closing()) then old(kcpState) else Linger)
      ensures h == if old(Closing()) then old(h) else AddFrame(old(h), Eof)
      ensures timers == if old(Closing()) then old(timers) else old(timers).(lastSend := At(now))
    {
      hide Outbound, Deframed, Delivered, Asked, Spaced, AllHonest, Took, Sized, EncodeFrame, AddFrame, Grows,
        EncodeFrames, Payloads, KcpModel.Send, Flat;
      if Closing() {
        return;
      }
      var f := Eof;
      FrameSent(h, rbuf, f, rbuf, true);
      AskedOneMore(mss, h, sends, sndQueue, f);
      BeforeSend(peer, h, wbuf, wbufFlush, wbufNext, inbound, f);
      KcpSend(EncodeFrame(f));
      h := AddFrame(h, f);
      kcpState := Linger;
    }

    /** session_kcp_stop: releases KCP and both buffers. */
    method KcpStop()
      requires Core() && rbuf == []
      modifies this`kcpState, this`alive, this`wbuf
      ensures Core() && kcpState == TimeWait && !alive
    {
      hide Outbound, Deframed, Delivered, Asked, Spaced, AllHonest, Took, EncodeFrames, Payloads, KcpModel.Send,
        Flat, Sized;
      if alive {
        DeframedDelivers(peer, h, wbuf, wbufFlush, wbufNext, inbound);
      }
      StopsSending(h, rbuf, Closing());
      kcpState := TimeWait;
      alive := false;
      wbuf := [];
    }

    /** kcp_recv: takes ready segments while they fit. What stays behind is more
        than the reserved tail can hold. */
    method KcpRecv()
      requires Core() && alive && wbufNext == 0
      modifies this`wbuf, this`inbound, this`h, this`timers
      ensures Core() && Grows(old(h), h) && h == old(h).(received := h.received)
      ensures inbound == [] || |wbuf| > BUF_SIZE - MAX_SEGMENT
      ensures |wbuf| + |Flat(inbound)| == old(|wbuf| + |Flat(inbound)|)
      ensures Took(old(h).received, old(inbound), h.received, inbound) && |inbound| <= |old(inbound)|
      ensures timers == if |inbound| < |old(inbound)| then old(timers).(lastRecv := At(now)) else old(timers)
    {
      hide Outbound, Deframed, Delivered, Asked, Spaced, AllHonest, Took, Sized, EncodeFrame, AddFrame, EncodeFrames,
        Payloads, KcpModel.Send, Flat;
      RoomLeft(peer, h, wbuf, wbufFlush, inbound);
      ghost var h';
      var n := |inbound|;
      wbuf, inbound, h' := Gather(wbuf, inbound, peer, h);
      AlsoOutbound(h, rbuf, Closing(), h');
      AlsoAsked(mss, h, sends, sndQueue, h');
      h := h';
      if |inbound| < n {
        timers := timers.(lastRecv := At(now));
      }
    }

    // -------------------------------------------------------------- TCP side

    /** session_tcp_stop */
    method TcpStop()
      requires Core()
      modifies this`tcpState, this`fd
      ensures Core() && tcpState == TimeWait
    {
      hide Outbound, Deframed, Delivered, Asked, Spaced, AllHonest, Took, EncodeFrames, Payloads, KcpModel.Send,
        Flat, Sized;
      tcpState := TimeWait;
      fd := false;
    }

    /** tcp_send: 0 to go on, 1 to wait, -1 on failure. */
    method TcpSend() returns (ret: int)
      requires Core() && alive && (tcpState == Connected || tcpState == Linger)
      modifies this`writeScript, this`wbufFlush, this`h
      ensures Core() && Grows(old(h), h) && h == old(h).(written := h.written)
      ensures 0 <= old(wbufFlush) <= wbufFlush <= wbufNext
      ensures var t, len := Writes(old(writeScript), old(wbufNext - wbufFlush)), wbufNext - wbufFlush;
              if ret == 0 then
                && len > 0 && |writeScript| < |old(writeScript)|
                && var u := Writes(writeScript, len); t == u.(bytes := u.bytes + wbufFlush - old(wbufFlush))
              else t == Taken(wbufFlush - old(wbufFlush), ret < 0, writeScript)
    {
      hide Outbound, Deframed, Delivered, Asked, Spaced, AllHonest, Took, Sized, EncodeFrame, AddFrame, EncodeFrames,
        Payloads, KcpModel.Send, Flat;
      FlushRange(peer, h, wbuf, wbufFlush, wbufNext, inbound);
      var len := wbufNext - wbufFlush;
      if len == 0 || writeScript == [] {
        return 1;
      }
      var answer := writeScript[0];
      writeScript := writeScript[1..];
      if answer.WriteFailed? {
        return -1;
      }
      var n := if answer.Sent? then Min(answer.n, len) else 0;
      if n == 0 {
        return 1;
      }
      BytesWritten(peer, h, wbuf, wbufFlush, wbufNext, inbound, n);
      ghost var h' := h.(written := h.written + wbuf[wbufFlush..wbufFlush + n]);
      AlsoOutbound(h, rbuf, Closing(), h');
      AlsoAsked(mss, h, sends, sndQueue, h');
      h := h';
      wbufFlush := wbufFlush + n;
      ret := if n < len then 0 else 1;
    }

    /** The loop of tcp_flush. */
    method TcpSendAll() returns (ret: int)
      requires Core() && alive && (tcpState == Connected || tcpState == Linger)
      modifies this`writeScript, this`wbufFlush, this`h
      ensures Core() && Grows(old(h), h) && h == old(h).(written := h.written) && ret != 0
      ensures 0 <= old(wbufFlush) <= wbufFlush <= wbufNext
      ensures Writes(old(writeScript), old(wbufNext - wbufFlush)) == Taken(wbufFlush - old(wbufFlush), ret < 0, writeScript)
    {
      hide Outbound, Deframed, Delivered, Asked, Spaced, AllHonest, Took, Sized, EncodeFrame, AddFrame, Writes,
        EncodeFrames, Payloads, KcpModel.Send, Flat;
      ret := TcpSend();
      while ret == 0
        invariant Core() && Grows(old(h), h) && h == old(h).(written := h.written)
        invariant 0 <= old(wbufFlush) <= wbufFlush <= wbufNext
        invariant var t, len := Writes(old(writeScript), old(wbufNext - wbufFlush)), wbufNext - wbufFlush;
                  if ret == 0 then var u := Writes(writeScript, len); t == u.(bytes := u.bytes + wbufFlush - old(wbufFlush))
                  else t == Taken(wbufFlush - old(wbufFlush), ret < 0, writeScript)
        decreases if ret == 0 then |writeScript| + 1 else 0
      {
        ret := TcpSend();
      }
    }

    /** tcp_flush */
    method TcpFlush()
      requires Mid()
      modifies this`writeScript, this`wbufFlush, this`h, this`tcpState, this`fd, this`sndQueue, this`sends,
        this`kcpState, this`timers
      ensures Mid() && Forward() && Silent(old(kcpState), old(timers), kcpState, timers, now) && h.read == old(h).read
      ensures h.done == old(h).done && h.received == old(h).received
      ensures if old(tcpState) != Connected && old(tcpState) != Linger
              then wbufFlush == old(wbufFlush) && tcpState == old(tcpState) && kcpState == old(kcpState)
              else
                0 <= old(wbufFlush) <= wbufNext &&
                var t := Writes(old(writeScript), old(wbufNext - wbufFlush));
                && wbufFlush == old(wbufFlush) + t.bytes && writeScript == t.rest
                && (if t.failed then tcpState == TimeWait && Closing()
                    else tcpState == old(tcpState) && kcpState == old(kcpState))
    {
      hide Session.Core, Outbound, Deframed, Delivered, Asked, Spaced, AllHonest, Took, Sized, EncodeFrame, AddFrame,
        Writes, Grows, EncodeFrames, Payloads, KcpModel.Send, Flat;
      GrowsOn(h, h, h);
      if tcpState != Connected && tcpState != Linger {
        return;
      }
      var ret := TcpSendAll();
      if ret < 0 {
        TcpStop();
        AddsFrame(h, Eof);
        GrowsOn(old(h), h, AddFrame(h, Eof));
        KcpClose();
      }
    }

    /** tcp_notify: arms the socket watcher, or finishes a lingering connection. */
    method TcpNotify()
      requires Mid()
      modifies this`tcpState, this`fd, this`wantRead, this`wantWrite
      ensures Valid() && Rank(old(tcpState)) <= Rank(tcpState)
      ensures old(tcpState) != Linger ==> tcpState == old(tcpState)
      ensures tcpState == Connected ==>
                && (wantRead <==> nsndBuf + |sndQueue| < sndWnd)
                && (wantWrite <==> wbufFlush < wbufNext)
    {
      hide Outbound, Deframed, Delivered, Asked, Spaced, AllHonest, Took, Sized, EncodeFrames, Payloads,
        KcpModel.Send, Flat;
      if tcpState != Connected && tcpState != Linger {
        return;
      }
      FlushRange(peer, h, wbuf, wbufFlush, wbufNext, inbound);
      var lingers := tcpState == Linger;
      var hasData := wbufFlush < wbufNext;
      if lingers && !hasData {
        TcpStop();
        return;
      }
      assert fd;
      wantRead := CanSend();
      wantWrite := lingers || hasData;
    }

    // -------------------------------------------------------------- frames from the peer

    /** forward_dial */
    method ForwardDial() returns (ok: bool)
      requires Core() && tcpState == Init
      modifies this`tcpState, this`fd
      ensures Core() && (ok <==> !dial.DialFailed?)
      ensures tcpState == if !ok then Init else if dial.DialDone? then Connected else Connect
    {
      hide Outbound, Deframed, Delivered, Asked, Spaced, AllHonest, Took, Sized, EncodeFrames, Payloads,
        KcpModel.Send, Flat;
      ok := !dial.DialFailed?;
      if ok {
        fd := true;
        tcpState := if dial.DialDone? then Connected else Connect;
      }
    }

    /** Frames acted on so far, with the one in progress. */
    ghost function Touched(): nat
      reads this`h, this`wbufNext
    {
      |h.done| + if wbufNext > 0 then 1 else 0
    }

    /** What acting on a frame of the peer does. A frame refused changes nothing. */
    twostate predicate Acted(f: Frame, ok: bool, len: int)
      reads this
    {
      if !ok then h == old(h) && tcpState == old(tcpState) && kcpState == old(kcpState) && wbufNext == 0
      else
        match f
        case Dial =>
          && tcpState == (if dial.DialDone? then Connected else Connect) && kcpState == old(kcpState)
          && h == old(h).(done := old(h).done + [f]) && wbufNext == 0
        case Push(_) =>
          && tcpState == old(tcpState) && kcpState == old(kcpState) && h == old(h)
          && wbufFlush == HEADER_SIZE && wbufNext == len
        case Eof => tcpState == Linger && kcpState == Linger && h == old(h).(eof := true) && wbufFlush == wbufNext == len
        case KeepAlive =>
          && tcpState == old(tcpState) && kcpState == old(kcpState) && wbufNext == 0
          && h.done == old(h).done + [f] && h.sent == old(h).sent + if accepted then [KeepAlive] else []
    }

    /** The frame of the peer that is next is `f`, and whole in `wbuf`. */
    ghost predicate Comes(f: Frame, len: int)
      reads this
    {
      && Mid() && kcpState == Connected && wbufNext == 0 && |h.done| < |peer| && peer[|h.done|] == f && Honest(f)
      && len == |EncodeFrame(f)| <= |wbuf|
    }

    /** session_on_msg for DIAL: refused when TCP has been dialled before or
        dialling fails. */
    method OnDial(len: int) returns (ok: bool)
      requires Comes(Dial, len)
      modifies this`wbuf, this`h, this`tcpState, this`fd
      ensures Mid() && Forward() && Acted(Dial, ok, len)
      ensures h.read == old(h).read && h.received == old(h).received
      ensures !ok <==> old(tcpState) != Init || dial.DialFailed?
      ensures if ok then |wbuf| < |old(wbuf)| else wbuf == old(wbuf)
    {
      hide Outbound, Deframed, Delivered, Asked, Spaced, AllHonest, Took, Sized, EncodeFrame, AddFrame, EncodeFrames,
        Payloads, KcpModel.Send, Flat;
      HeaderLength(Dial);
      GrowsOn(h, h, h);
      ok := false;
      if len == HEADER_SIZE && tcpState == Init {
        ok := ForwardDial();
        if ok {
          Skip(len);
        }
      }
    }

    /** session_on_msg for EOF: both sides close once the payloads are flushed. */
    method OnEof(len: int) returns (ok: bool)
      requires Comes(Eof, len)
      modifies this`wbufFlush, this`wbufNext, this`h, this`tcpState, this`kcpState
      ensures ok && Mid() && Forward() && Acted(Eof, ok, len)
      ensures h.read == old(h).read && h.received == old(h).received
    {
      hide Outbound, Deframed, Delivered, Asked, Spaced, AllHonest, Took, Sized, EncodeFrame, AddFrame, EncodeFrames,
        Payloads, KcpModel.Send, Flat;
      HeaderLength(Eof);
      ok := len == HEADER_SIZE;
      if ok {
        RoomLeft(peer, h, wbuf, wbufFlush, inbound);
        ghost var h' := h.(eof := true);
        EofSeen(peer, h, wbuf, inbound);
        AlsoOutbound(h, rbuf, Closing(), h');
        StopsSending(h', rbuf, Closing());
        AlsoAsked(mss, h, sends, sndQueue, h');
        kcpState, tcpState := Linger, Linger;
        h := h';
        wbufFlush, wbufNext := HEADER_SIZE, HEADER_SIZE;
      }
    }

    /** session_on_msg for KEEPALIVE: the accepting side answers. */
    method OnKeepAlive(len: int) returns (ok: bool)
      requires Comes(KeepAlive, len)
      modifies this`wbuf, this`h, this`sndQueue, this`sends, this`timers
      ensures ok && Mid() && Forward() && Acted(KeepAlive, ok, len)
      ensures Silent(kcpState, old(timers), kcpState, timers, now)
      ensures h.read == old(h).read && h.received == old(h).received && |wbuf| < |old(wbuf)|
    {
      hide Outbound, Deframed, Delivered, Asked, Spaced, AllHonest, Took, Sized, EncodeFrame, AddFrame, EncodeFrames,
        Payloads, KcpModel.Send, Flat, Grows;
      HeaderLength(KeepAlive);
      ghost var h0 := h;
      GrowsOn(h0, h0, h0);
      ok := len == HEADER_SIZE;
      if ok {
        if accepted {
          AddsFrame(h, KeepAlive);
          SendMsg(KeepAlive);
        }
        ghost var h1 := h;
        Skip(len);
        GrowsOn(h0, h1, h);
      }
    }

    /** session_on_msg. The header belongs to the frame the peer sent next. Only a
        DIAL can be refused: when TCP has been dialled before or dialling fails. */
    method OnMsg(msg: int, len: int) returns (ok: bool)
      requires Mid() && kcpState == Connected && wbufNext == 0 && HEADER_SIZE <= |wbuf| && len <= |wbuf|
      requires msg == Read16(wbuf, 0) && len == Read16(wbuf, 2)
      modifies this`wbufFlush, this`wbufNext, this`wbuf, this`h, this`tcpState, this`fd, this`kcpState,
               this`sndQueue, this`sends, this`timers
      ensures Mid() && Forward() && Silent(old(kcpState), old(timers), kcpState, timers, now)
      ensures |old(h).done| < |peer| && Acted(peer[|old(h).done|], ok, len)
      ensures h.read == old(h).read && h.received == old(h).received
      ensures Touched() == old(Touched()) + if ok then 1 else 0
      ensures !ok <==> peer[|old(h).done|].Dial? && (old(tcpState) != Init || dial.DialFailed?)
      ensures ok ==> |wbuf| <= |old(wbuf)| && (|wbuf| == |old(wbuf)| ==> wbufNext > 0)
    {
      hide Outbound, Deframed, Delivered, Asked, Spaced, AllHonest, Took, Sized, EncodeFrame, AddFrame, EncodeFrames,
        Payloads, KcpModel.Send, Flat;
      RoomLeft(peer, h, wbuf, wbufFlush, inbound);
      HeaderSeen(peer, h, wbuf, inbound);
      HonestAt(peer, h, wbuf, wbufFlush, wbufNext, inbound);
      HeaderLength(peer[|h.done|]);
      if msg == MSG_DIAL {
        ok := OnDial(len);
      } else if msg == MSG_PUSH {
        PushBegun(peer, h, wbuf, inbound, len);
        wbufFlush, wbufNext := HEADER_SIZE, len;
        ok := true;
      } else if msg == MSG_EOF {
        ok := OnEof(len);
      } else if msg == MSG_KEEPALIVE {
        ok := OnKeepAlive(len);
      } else {
        ok := false;
      }
    }

    /** consume_wbuf of a frame that needs no flushing. */
    method Skip(len: int)
      requires Core() && alive && wbufNext == 0 && |h.done| < |peer| && Honest(peer[|h.done|])
      requires Body(peer[|h.done|]) == [] && len == |EncodeFrame(peer[|h.done|])| <= |wbuf|
      modifies this`wbuf, this`h
      ensures Core() && Grows(old(h), h) && h == old(h).(done := old(h).done + [peer[|old(h).done|]])
      ensures |wbuf| < |old(wbuf)|
    {
      hide Outbound, Deframed, Delivered, Asked, Spaced, AllHonest, Took, Sized, EncodeFrames, Payloads,
        KcpModel.Send, Flat;
      RoomLeft(peer, h, wbuf, wbufFlush, inbound);
      FrameSkipped(peer, h, wbuf, inbound, len);
      ghost var h' := h.(done := h.done + [peer[|h.done|]]);
      AlsoOutbound(h, rbuf, Closing(), h');
      AlsoAsked(mss, h, sends, sndQueue, h');
      h := h';
      wbuf := wbuf[len..];
    }

    /** consume_wbuf of a frame that TCP has taken. */
    method Consume()
      requires Core() && alive && wbufNext > 0 && wbufFlush == wbufNext && !h.eof
      modifies this`wbuf, this`wbufFlush, this`wbufNext, this`h
      ensures |old(h).done| < |peer| && h == old(h).(done := old(h).done + [peer[|old(h).done|]])
      ensures Core() && Grows(old(h), h) && wbufNext == 0 && |wbuf| < |old(wbuf)|
    {
      hide Outbound, Deframed, Delivered, Asked, Spaced, AllHonest, Took, Sized, EncodeFrames, Payloads,
        KcpModel.Send, Flat;
      FlushRange(peer, h, wbuf, wbufFlush, wbufNext, inbound);
      PushFinished(peer, h, wbuf, wbufNext, inbound);
      ghost var h' := h.(done := h.done + [peer[|h.done|]]);
      AlsoOutbound(h, rbuf, Closing(), h');
      AlsoAsked(mss, h, sends, sndQueue, h');
      h := h';
      wbuf := wbuf[wbufNext..];
      wbufFlush, wbufNext := 0, 0;
    }

    /** Bounds the turns of the loop in session_read_cb. */
    ghost function Left(): nat
      reads this
    {
      2 * (|wbuf| + |Flat(inbound)|) + if wbufNext > 0 then 0 else 1
    }

    /** Nothing can be done now: TCP has yet to take the frame in progress, or KCP
        has nothing more and what is buffered is not a whole frame. */
    ghost predicate Waits()
      reads this`wbuf, this`wbufFlush, this`wbufNext, this`inbound
    {
      wbufFlush < wbufNext || (inbound == [] && wbufNext == 0 && (|wbuf| < HEADER_SIZE || |wbuf| < Read16(wbuf, 2)))
    }

    /** The part of ss_process before a frame: drops the one that is finished
        and fills `wbuf`. */
    method Refill() returns (ready: bool)
      requires Mid() && kcpState == Connected
      modifies this`wbuf, this`wbufFlush, this`wbufNext, this`h, this`inbound, this`timers
      ensures Mid() && Grows(old(h), h) && Left() <= old(Left()) && Touched() == old(Touched()) && h.read == old(h).read
      ensures if ready then wbufNext == 0 && HEADER_SIZE <= |wbuf| && Read16(wbuf, 2) <= |wbuf| else Waits()
      ensures Took(old(h).received, old(inbound), h.received, inbound) && |inbound| <= |old(inbound)|
      ensures timers == if |inbound| < |old(inbound)| then old(timers).(lastRecv := At(now)) else old(timers)
    {
      hide Outbound, Deframed, Delivered, Asked, Spaced, AllHonest, Took, Sized, EncodeFrame, AddFrame, Flat,
        EncodeFrames, Payloads, KcpModel.Send;
      FlushRange(peer, h, wbuf, wbufFlush, wbufNext, inbound);
      TookOn(h.received, inbound, h.received, inbound, h.received, inbound);
      if wbufFlush < wbufNext {
        return false;
      }
      if wbufFlush > 0 {
        Consume();
      }
      KcpRecv();
      if |wbuf| < HEADER_SIZE {
        return false;
      }
      RoomLeft(peer, h, wbuf, wbufFlush, inbound);
      HeaderSeen(peer, h, wbuf, inbound);
      HonestAt(peer, h, wbuf, wbufFlush, wbufNext, inbound);
      ready := |wbuf| >= Read16(wbuf, 2);
    }

    /** ss_process: 0 after a frame, 1 to wait, -1 on an error. */
    method Process() returns (ret: int)
      requires Mid() && kcpState == Connected
      modifies this`wbuf, this`wbufFlush, this`wbufNext, this`h, this`inbound, this`timers, this`tcpState, this`fd,
               this`kcpState, this`sndQueue, this`sends, this`writeScript
      ensures Mid() && Forward() && (kcpState == Connected || kcpState == Linger) && h.read == old(h).read
      ensures ret == 0 ==> Left() < old(Left()) && Touched() == old(Touched()) + 1
      ensures ret != 0 ==> kcpState == Connected && Touched() == old(Touched())
      ensures ret > 0 ==> Waits()
      ensures Took(old(h).received, old(inbound), h.received, inbound)
      ensures Unfed(old(kcpState), old(timers), |old(inbound)|, kcpState, timers, |inbound|, now)
      ensures |inbound| < |old(inbound)| ==> timers.lastRecv == At(now)
    {
      hide Session.Core, Outbound, Deframed, Delivered, Asked, Spaced, AllHonest, Took, Sized, EncodeFrame, AddFrame,
        Flat, Read16, Grows, Writes, EncodeFrames, Payloads, KcpModel.Send;
      var ready := Refill();
      ghost var h1 := h;
      GrowsOn(old(h), h1, h1);
      if !ready {
        return 1;
      }
      var ok := OnMsg(Read16(wbuf, 0), Read16(wbuf, 2));
      ghost var h2 := h;
      GrowsOn(old(h), h1, h2);
      if !ok {
        return -1;
      }
      if wbufFlush > 0 {
        TcpFlush();
        GrowsOn(old(h), h2, h);
      }
      ret := 0;
    }

    /** session_read_cb: acts on every frame that is there. It ends, and while
        the session stays connected it stops only to wait for TCP or for KCP. */
    method ReadCb()
      requires Valid()
      modifies this`wbuf, this`wbufFlush, this`wbufNext, this`h, this`inbound, this`timers, this`tcpState, this`fd,
               this`kcpState, this`sndQueue, this`sends, this`writeScript, this`wantRead, this`wantWrite
      ensures Valid() && Forward() && h.read == old(h).read
      ensures kcpState == Connected ==> Waits()
      ensures old(kcpState) != Connected ==> kcpState == old(kcpState) && h == old(h)
      ensures Took(old(h).received, old(inbound), h.received, inbound)
      ensures Unfed(old(kcpState), old(timers), |old(inbound)|, kcpState, timers, |inbound|, now)
      ensures |inbound| < |old(inbound)| ==> timers.lastRecv == At(now)
    {
      hide Session.Core, Outbound, Deframed, Delivered, Asked, Spaced, AllHonest, Took, Sized, EncodeFrame, AddFrame,
        Flat, Grows, Waits, EncodeFrames, Payloads, KcpModel.Send;
      ghost var h0, ready := h, inbound;
      GrowsOn(h0, h0, h0);
      TookOn(h0.received, ready, h0.received, ready, h0.received, ready);
      var ret := 0;
      while kcpState == Connected && ret == 0
        invariant Mid() && Forward() && h.read == h0.read
        invariant kcpState == Connected ==> ret <= 0 || Waits()
        invariant ret < 0 ==> kcpState == Connected
        invariant old(kcpState) != Connected ==> kcpState == old(kcpState) && h == h0 && ret == 0
        invariant Took(h0.received, ready, h.received, inbound)
        invariant Unfed(old(kcpState), old(timers), |ready|, kcpState, timers, |inbound|, now)
        invariant |inbound| < |ready| ==> timers.lastRecv == At(now)
        decreases if ret == 0 then Left() + 1 else 0
      {
        ghost var h1, ready1 := h, inbound;
        ret := Process();
        GrowsOn(h0, h1, h);
        TookOn(h0.received, ready, h1.received, ready1, h.received, inbound);
      }
      if ret < 0 {
        TcpStop();
        AddsFrame(h, Eof);
        GrowsOn(h0, h, AddFrame(h, Eof));
        KcpClose();
        return;
      }
      TcpNotify();
    }

    // -------------------------------------------------------------- TCP to KCP

    /** tcp_recv: 0 to go on, 1 to wait, -1 when the peer closed. */
    method TcpRecv() returns (ret: int)
      requires Core() && alive && rbuf == []
      modifies this`readScript, this`rbuf, this`h
      ensures Core() && Grows(old(h), h) && h == old(h).(read := h.read)
      ensures if nsndBuf + |sndQueue| >= sndWnd || old(readScript) == []
              then ret == 1 && rbuf == [] && readScript == old(readScript) && h == old(h)
              else
                var a := old(readScript)[0];
                && readScript == old(readScript)[1..] && h.read == old(h).read + Fetch(a) && rbuf == Fetch(a)
                && ret == (if Flows(a) then 0 else if Ends(a) then -1 else 1)
    {
      hide Outbound, Deframed, Delivered, Asked, Spaced, AllHonest, Took, Sized, EncodeFrames, Payloads,
        KcpModel.Send, Flat;
      var can := CanSend();
      if !can {
        return 1;
      }
      var cap := MAX_LENGTH - HEADER_SIZE - |rbuf|;
      if cap == 0 || readScript == [] {
        return 1;
      }
      var answer := readScript[0];
      readScript := readScript[1..];
      assert h.read + [] == h.read;
      if answer.ReadWait? {
        return 1;
      }
      if answer.ReadClosed? || answer.bytes == [] {
        return -1;
      }
      var got := answer.bytes[..Min(cap, |answer.bytes|)];
      BytesRead(peer, h, rbuf, Closing(), got, wbuf, wbufFlush, wbufNext, inbound);
      AlsoAsked(mss, h, sends, sndQueue, h.(read := h.read + got));
      rbuf := rbuf + got;
      h := h.(read := h.read + got);
      ret := 0;
    }

    /** session_kcp_send */
    method SessionSend() returns (ok: bool)
      requires Core() && (alive || rbuf == [])
      modifies this`sndQueue, this`h, this`rbuf, this`timers, this`sends
      ensures Core() && Grows(old(h), h) && h == old(h).(offered := h.offered, sent := h.sent)
      ensures ok <==> kcpState == Connect || kcpState == Connected
      ensures ok ==> rbuf == []
      ensures !ok || old(rbuf) == [] ==> h == old(h) && sndQueue == old(sndQueue) && rbuf == old(rbuf)
      ensures Silent(old(kcpState), old(timers), kcpState, timers, now)
    {
      hide Outbound, Deframed, Delivered, Asked, Spaced, AllHonest, Took, Sized, EncodeFrame, EncodeFrames, Payloads,
        KcpModel.Send, Flat;
      if kcpState != Connect && kcpState != Connected {
        return false;
      }
      if rbuf != [] {
        PushFits(h, rbuf, Closing());
        AddsFrame(h, Push(rbuf));
        KcpPush();
      }
      ok := true;
    }

    /** The loop of tcp_recv_all: 1 to wait, -1 when the peer closed. What is
        read is handed to KCP at once, which cannot fail here. */
    method TcpRelay() returns (ret: int)
      requires Core() && alive && rbuf == [] && (kcpState == Connect || kcpState == Connected)
      modifies this`readScript, this`rbuf, this`h, this`sndQueue, this`sends, this`timers
      ensures Core() && rbuf == [] && h.eof == old(h).eof && h.received == old(h).received && Grows(old(h), h)
      ensures Silent(kcpState, old(timers), kcpState, timers, now)
      ensures old(h).read <= h.read && ReadOut(old(readScript), readScript, h.read[|old(h).read|..])
      ensures var last := LastRead(old(readScript), readScript);
              && (ret < 0 <==> Ends(last))
              && (ret >= 0 ==> nsndBuf + |sndQueue| >= sndWnd || readScript == [] || last.ReadWait?)
    {
      hide Session.Core, Outbound, Deframed, Delivered, Asked, Spaced, AllHonest, Took, Sized, EncodeFrame, AddFrame,
        Grows, ReadOut, LastRead, EncodeFrames, Payloads, KcpModel.Send, Flat;
      ghost var h0, all, bytes := h, readScript, [];
      GrowsOn(h0, h0, h0);
      NoneRead(all);
      assert h.read + bytes == h.read;
      ret := 0;
      while ret == 0
        invariant Core() && rbuf == [] && h.eof == h0.eof && h.received == h0.received && Grows(h0, h)
        invariant Silent(kcpState, old(timers), kcpState, timers, now)
        invariant h.read == h0.read + bytes && ReadOut(all, readScript, bytes)
        invariant ret == 0 ==> |readScript| < |all| ==> Flows(LastRead(all, readScript))
        invariant ret < 0 <==> Ends(LastRead(all, readScript))
        invariant ret > 0 ==> nsndBuf + |sndQueue| >= sndWnd || readScript == [] || LastRead(all, readScript).ReadWait?
        decreases if ret == 0 then |readScript| + 1 else 0
      {
        ghost var h1, rest := h, readScript;
        ret := TcpRecv();
        if |readScript| < |rest| {
          ReadOneMore(all, rest, bytes);
          Associate(h0.read, bytes, Fetch(rest[0]));
          bytes := bytes + Fetch(rest[0]);
        }
        ghost var h2 := h;
        var ok := SessionSend();
        GrowsOn(h1, h2, h);
        GrowsOn(h0, h1, h);
      }
    }

    /** tcp_recv_all */
    method TcpRecvAll()
      requires Mid()
      modifies this`readScript, this`rbuf, this`h, this`sndQueue, this`sends, this`tcpState, this`fd, this`kcpState,
        this`timers
      ensures Mid() && Forward() && Silent(old(kcpState), old(timers), kcpState, timers, now)
      ensures h.received == old(h).received
      ensures if old(tcpState) != Connected
              then tcpState == old(tcpState) && h == old(h) && kcpState == old(kcpState) && readScript == old(readScript)
              else
                && old(h).read <= h.read && ReadOut(old(readScript), readScript, h.read[|old(h).read|..])
                && var last := LastRead(old(readScript), readScript);
                   if Ends(last) then tcpState == TimeWait && Closing()
                   else && tcpState == Connected && kcpState == old(kcpState)
                        && (nsndBuf + |sndQueue| >= sndWnd || readScript == [] || last.ReadWait?)
    {
      hide Session.Core, Outbound, Deframed, Delivered, Asked, Spaced, AllHonest, Took, Sized, EncodeFrame, AddFrame,
        Grows, ReadOut, LastRead, Ends, EncodeFrames, Payloads, KcpModel.Send, Flat;
      GrowsOn(h, h, h);
      if tcpState != Connected {
        return;
      }
      var ret := TcpRelay();
      if ret < 0 {
        TcpStop();
        AddsFrame(h, Eof);
        GrowsOn(old(h), h, AddFrame(h, Eof));
        KcpClose();
      }
    }

    /** connected_cb; `failed` is the error state of the socket. */
    method ConnectedCb(failed: bool)
      requires Mid() && tcpState == Connect
      modifies this`tcpState, this`fd, this`kcpState, this`sndQueue, this`sends, this`h, this`timers
      ensures Mid() && Forward() && Silent(old(kcpState), old(timers), kcpState, timers, now)
      ensures h.read == old(h).read && h.received == old(h).received
      ensures if failed then tcpState == TimeWait && Closing() else tcpState == Connected && kcpState == old(kcpState)
    {
      hide Outbound, Deframed, Delivered, Asked, Spaced, AllHonest, Took, Sized, EncodeFrame, AddFrame, EncodeFrames,
        Payloads, KcpModel.Send, Flat;
      if failed {
        TcpStop();
        AddsFrame(h, Eof);
        KcpClose();
        return;
      }
      tcpState := Connected;
    }

    /** tcp_socket_cb when the socket can be written. */
    method OnWritable()
      requires Valid()
      modifies this`wbuf, this`wbufFlush, this`wbufNext, this`h, this`inbound, this`timers, this`tcpState, this`fd,
               this`kcpState, this`sndQueue, this`sends, this`writeScript, this`wantRead, this`wantWrite
      ensures Valid() && Forward() && h.read == old(h).read
      ensures Took(old(h).received, old(inbound), h.received, inbound)
      ensures Unfed(old(kcpState), old(timers), |old(inbound)|, kcpState, timers, |inbound|, now)
      ensures |inbound| < |old(inbound)| ==> timers.lastRecv == At(now)
      ensures tcpState == Connected && kcpState == Connected ==> Waits()
      ensures old(tcpState) == TimeWait ==> tcpState == TimeWait
    {
      hide Outbound, Deframed, Delivered, Asked, Spaced, AllHonest, Took, Sized, EncodeFrame, AddFrame, Flat, Grows,
        Writes, EncodeFrames, Payloads, KcpModel.Send;
      ghost var h0, ready := h, inbound;
      TookOn(h0.received, ready, h0.received, ready, h0.received, ready);
      TcpFlush();
      ghost var h1 := h;
      GrowsOn(h0, h1, h1);
      if tcpState == Connected && wbufFlush == wbufNext {
        ReadCb();
        GrowsOn(h0, h1, h);
        return;
      }
      if tcpState == Connected {
        FlushRange(peer, h, wbuf, wbufFlush, wbufNext, inbound);
      }
      TcpNotify();
    }

    /** tcp_socket_cb */
    method SocketCb(canRead: bool, canWrite: bool, failed: bool)
      requires Valid() && (tcpState == Connect || tcpState == Connected)
      modifies this`wbuf, this`wbufFlush, this`wbufNext, this`h, this`inbound, this`timers, this`tcpState, this`fd,
               this`kcpState, this`sndQueue, this`sends, this`readScript, this`writeScript, this`rbuf, this`wantRead,
               this`wantWrite
      ensures Valid() && Forward()
      ensures Took(old(h).received, old(inbound), h.received, inbound)
      ensures Unfed(old(kcpState), old(timers), |old(inbound)|, kcpState, timers, |inbound|, now)
      ensures |inbound| < |old(inbound)| ==> timers.lastRecv == At(now)
      ensures old(tcpState) == Connect ==> if failed then tcpState == TimeWait else tcpState != Connect
      ensures canWrite && tcpState == Connected && kcpState == Connected ==> Waits()
      ensures old(h).read <= h.read
      ensures if canRead && !(old(tcpState) == Connect && failed)
              then && ReadOut(old(readScript), readScript, h.read[|old(h).read|..])
                   && (Ends(LastRead(old(readScript), readScript)) ==> tcpState == TimeWait)
              else h.read == old(h).read && readScript == old(readScript)
    {
      hide Session.Core, Outbound, Deframed, Delivered, Asked, Spaced, AllHonest, Took, Sized, EncodeFrame, AddFrame,
        Flat, Grows, Writes, ReadOut, LastRead, Ends, Waits, EncodeFrames, Payloads, KcpModel.Send;
      ghost var h0, ready := h, inbound;
      GrowsOn(h0, h0, h0);
      TookOn(h0.received, ready, h0.received, ready, h0.received, ready);
      if tcpState == Connect {
        ConnectedCb(failed);
      }
      ghost var h1 := h;
      if canRead {
        TcpRecvAll();
        GrowsOn(h0, h1, h);
      }
      ghost var h2 := h;
      if canWrite {
        OnWritable();
        GrowsOn(h0, h2, h);
      } else {
        TcpNotify();
      }
    }

    // -------------------------------------------------------------- birth, packets and timers

    /** A session that has received nothing, and what it knows of its KCP. */
    ghost predicate Newborn(mss: int, sndWnd: int, peer: seq<Frame>)
      reads this
    {
      && this.mss == mss && this.sndWnd == sndWnd && this.peer == peer && kcpState == Connect
      && inbound == [] && nsndBuf == 0 && h.received == [] && h.base == [] && h.handed == []
    }

    /** session_new with what its two callers set: `accepted` for a packet of an
        unknown conversation, otherwise for a TCP client. */
    constructor (mss: int, sndWnd: int, now: real, accepted: bool, ghost peer: seq<Frame>)
      requires mss >= 118 && AllHonest(peer)
      ensures Valid() && Newborn(mss, sndWnd, peer) && this.accepted == accepted && h.sent == []
      ensures tcpState == (if accepted then Init else Connected) && sends == [] && sndQueue == [] && h.offered == []
    {
      this.mss, this.sndWnd, this.now, this.peer, this.accepted := mss, sndWnd, now, peer, accepted;
      tcpState, kcpState, fd, alive := if accepted then Init else Connected, Connect, !accepted, true;
      sndQueue, nsndBuf, sends, inbound, rbuf, wbuf := [], 0, [], [], [], [];
      wbufFlush, wbufNext, wantRead, wantWrite := 0, 0, false, false;
      readScript, writeScript, dial := [], [], DialPending;
      timers := Timers(now, Never, Never, Never);
      h := NewLog();
      new;
      NothingYet(mss, peer);
    }

    /** accept_one: a session for a TCP client says DIAL first. */
    static method AcceptOne(mss: int, sndWnd: int, now: real, ghost peer: seq<Frame>) returns (s: Session)
      requires mss >= 118 && AllHonest(peer)
      ensures fresh(s) && s.Valid() && s.Newborn(mss, sndWnd, peer) && !s.accepted
      ensures s.h.sent == [Dial] && s.tcpState == Connected
    {
      hide Session.Core, Outbound, Deframed, Delivered, Asked, Spaced, AllHonest, Took, Sized, EncodeFrame, AddFrame,
        EncodeFrames, Payloads, KcpModel.Send, Flat;
      s := new Session(mss, sndWnd, now, false, peer);
      AddsFrame(s.h, Dial);
      s.SendMsg(Dial);
    }

    /** queue_recv for a session that exists. `more` are the segments that
        ikcp_input made ready; what KCP delivers is a prefix of what the peer
        sent. */
    method PacketCb(sameAddr: bool, inputOk: bool, more: seq<seq<byte>>)
      requires Valid()
      requires sameAddr && kcpState != TimeWait ==>
                 Segments(more) && h.received + Flat(inbound + more) <= EncodeFrames(peer)
      modifies this`wbuf, this`wbufFlush, this`wbufNext, this`h, this`inbound, this`timers, this`tcpState, this`fd,
               this`kcpState, this`sndQueue, this`sends, this`writeScript, this`wantRead, this`wantWrite
      ensures Valid()
      ensures sameAddr && inputOk && kcpState == Connected ==> Waits()
      ensures sameAddr && old(kcpState) == Connect ==> kcpState != Connect
      ensures if !sameAddr || old(kcpState) == TimeWait
              then && h == old(h).(resets := Answered(old(h).resets, now)) && kcpState == old(kcpState)
                   && tcpState == old(tcpState) && inbound == old(inbound) && sends == old(sends)
              else && Forward() && Took(old(h).received, old(inbound) + more, h.received, inbound)
                   && timers.lastRecv == if |inbound| < |old(inbound)| + |more| then At(now) else old(timers).lastRecv
    {
      hide Outbound, Deframed, Delivered, Asked, Spaced, AllHonest, Took, Sized, EncodeFrame, EncodeFrames, Flat,
        Payloads, KcpModel.Send;
      if !sameAddr {
        var answered := Refuse();
        SameStreams(peer, old(h), rbuf, Closing(), wbuf, wbufFlush, wbufNext, inbound, h);
        AlsoAsked(mss, old(h), sends, sndQueue, h);
        return;
      }
      if kcpState == Connect {
        kcpState := Connected;
      } else if kcpState == TimeWait {
        var answered := Refuse();
        SameStreams(peer, old(h), rbuf, Closing(), wbuf, wbufFlush, wbufNext, inbound, h);
        AlsoAsked(mss, old(h), sends, sndQueue, h);
        return;
      }
      SegmentsReady(peer, h, wbuf, wbufFlush, wbufNext, inbound, more);
      inbound := inbound + more;
      TookOn(h.received, inbound, h.received, inbound, h.received, inbound);
      if !inputOk {
        return;
      }
      ReadCb();
    }

    /** Answers with a reset, unless one was sent within the last second. That
        keeps `Spaced`: no two resets of a session are a second apart or less. */
    method Refuse() returns (answered: bool)
      requires Spaced(h.resets, timers.lastReset)
      modifies this`timers, this`h
      ensures Spaced(h.resets, timers.lastReset) && timers == old(timers).(lastReset := timers.lastReset)
      ensures h == old(h).(resets := old(h).resets + if answered then [now] else [])
      ensures var was := old(h).resets; answered <==> was == [] || now - was[|was| - 1] > 1.0
    {
      answered := timers.lastReset == Never || now - timers.lastReset.time > 1.0;
      if answered {
        timers := timers.(lastReset := At(now));
        h := h.(resets := h.resets + [now]);
      }
    }

    /** KCP has caught up: `queue` and `flying` are what it leaves unnumbered and
        unacknowledged. */
    method CatchUp(queue: seq<seq<byte>>, flying: nat)
      requires Valid() && Sized(mss, queue)
      modifies this`sndQueue, this`sends, this`h, this`nsndBuf
      ensures Valid() && sndQueue == queue && nsndBuf == flying && sends == []
      ensures h == old(h).(base := queue, handed := old(h).offered)
    {
      hide Outbound, Deframed, Delivered, Asked, Spaced, AllHonest, Took, Sized, EncodeFrame, AddFrame, EncodeFrames,
        Payloads, KcpModel.Send, Flat;
      ghost var h' := h.(base := queue, handed := h.offered);
      NothingAsked(mss, h', queue);
      SameStreams(peer, h, rbuf, Closing(), wbuf, wbufFlush, wbufNext, inbound, h');
      h := h';
      sndQueue, nsndBuf, sends := queue, flying, [];
    }

    /** What the environment has ready for the next callback. */
    method Arm(incoming: seq<ReadResult>, outgoing: seq<WriteResult>, dial: DialResult, now: real)
      requires Valid()
      modifies this`readScript, this`writeScript, this`dial, this`now
      ensures Valid()
    {
      hide Outbound, Deframed, Delivered, Asked, Spaced, AllHonest, Took, Sized, EncodeFrame, AddFrame, EncodeFrames,
        Payloads, KcpModel.Send, Flat;
      readScript, writeScript, this.dial, this.now := incoming, outgoing, dial, now;
    }

    /** The peer turns out to have sent more. */
    ghost method Foresee(frames: seq<Frame>)
      requires Valid() && peer <= frames && AllHonest(frames)
      modifies this`peer
      ensures Valid() && this.peer == frames
    {
      hide Outbound, Deframed, Delivered, Asked, Spaced, AllHonest, Took, Sized, EncodeFrame, AddFrame, EncodeFrames,
        Payloads, KcpModel.Send, Flat;
      PeerMore(peer, frames, h, wbuf, wbufFlush, wbufNext, inbound);
      peer := frames;
    }

    /** Gives away what was asked of ikcp_send since KCP was last brought up to date. */
    method Handover() returns (out: seq<seq<byte>>)
      requires Valid()
      modifies this`sends, this`h, this`sndQueue, this`nsndBuf
      ensures Valid() && sends == [] && sndQueue == old(sndQueue) && out == old(sends)
      ensures Asked(mss, old(h), out, sndQueue) && h == old(h).(base := sndQueue, handed := old(h).offered)
    {
      hide Outbound, Deframed, Delivered, Asked, Spaced, AllHonest, Took, Sized, EncodeFrame, AddFrame, EncodeFrames,
        Payloads, KcpModel.Send, Flat;
      out := sends;
      CatchUp(sndQueue, nsndBuf);
    }

    /** kcp_update and ss_flush_cb. */
    method KcpPump(queue: seq<seq<byte>>, flying: nat)
      requires Valid() && Sized(mss, queue)
      modifies this`sndQueue, this`sends, this`h, this`nsndBuf, this`tcpState, this`fd, this`wantRead, this`wantWrite
      ensures Valid() && tcpState == old(tcpState)
      ensures kcpState != TimeWait ==>
                sndQueue == queue && nsndBuf == flying && sends == [] && h == old(h).(base := queue, handed := h.offered)
      ensures tcpState == Connected ==>
                (wantRead <==> nsndBuf + |sndQueue| < sndWnd) && (wantWrite <==> wbufFlush < wbufNext)
    {
      hide Session.Core, Outbound, Deframed, Delivered, Asked, Spaced, AllHonest, Took, Sized, EncodeFrame, AddFrame,
        EncodeFrames, Payloads, KcpModel.Send, Flat;
      if kcpState == Init || kcpState == TimeWait {
        return;
      }
      CatchUp(queue, flying);
      TcpNotify();
    }

    /** ss0_on_reset */
    method ResetCb()
      requires Valid()
      modifies this`tcpState, this`fd, this`kcpState, this`alive, this`wbuf
      ensures Valid() && Forward() && kcpState == TimeWait && tcpState == TimeWait
    {
      hide Outbound, Deframed, Delivered, Asked, Spaced, AllHonest, Took, Sized, EncodeFrames, Payloads,
        KcpModel.Send, Flat;
      if kcpState == TimeWait {
        return;
      }
      TcpStop();
      KcpStop();
    }

    /** timeout_filt; not `keep` means the session was freed. */
    method TimeoutFilt(lim: Limits) returns (keep: bool)
      requires Valid()
      modifies this`tcpState, this`fd, this`kcpState, this`alive, this`wbuf, this`sndQueue, this`sends, this`h,
        this`timers
      ensures Valid() && Forward()
      ensures Expiry(kcpState, timers, keep) == Expire(lim, accepted, old(kcpState), old(timers), now)
      ensures h.sent == old(h).sent + Reminder(lim, accepted, old(kcpState), old(timers), now)
      ensures h.received == old(h).received
    {
      hide Session.Core, Outbound, Deframed, Delivered, Asked, Spaced, AllHonest, Took, Sized, EncodeFrame, AddFrame,
        EncodeFrames, Payloads, KcpModel.Send, Flat;
      keep := true;
      var notSeen := now - timers.created;
      if kcpState == Init || kcpState == Connect {
        if notSeen > lim.dial {
          TcpStop();
          AddsFrame(h, Eof);
          KcpClose();
        }
      } else if kcpState == Connected {
        if timers.lastRecv.At? {
          notSeen := now - timers.lastRecv.time;
        }
        if notSeen > lim.session {
          TcpStop();
          KcpStop();
        } else if !accepted && notSeen > lim.keepalive {
          AddsFrame(h, KeepAlive);
          SendMsg(KeepAlive);
        }
      } else if kcpState == Linger {
        if timers.lastSend.At? {
          notSeen := now - timers.lastSend.time;
        }
        if notSeen > lim.linger {
          KcpStop();
        }
      } else {
        if timers.lastReset.At? {
          notSeen := now - timers.lastReset.time;
        }
        if notSeen > lim.timeWait {
          TcpStop();
          KcpStop();
          keep := false;
        }
      }
    }
  }

  lemma NothingYet(mss: int, peer: seq<Frame>)
    requires mss > 0 && AllHonest(peer)
    ensures var h := NewLog();
            && Outbound(h, [], false) && Deframed(peer, h, [], 0, 0, []) && Asked(mss, h, [], [])
            && Sized(mss, []) && Spaced(h.resets, Never) && !h.eof
            && h.sent == [] && h.received == [] && h.base == [] && h.handed == [] && h.offered == []
  {
    assert peer[0..] == peer;
    NothingAsked(mss, NewLog(), []);
  }

  /** The largest that `wbuf` can be, and where its marks lie. */
  lemma RoomLeft(peer: seq<Frame>, h: Log, wbuf: seq<byte>, flush: int, inbound: seq<seq<byte>>)
    requires Deframed(peer, h, wbuf, flush, 0, inbound)
    ensures |wbuf| <= BUF_SIZE && Segments(inbound) && flush == 0
  {
  }

  lemma FlushRange(peer: seq<Frame>, h: Log, wbuf: seq<byte>, flush: int, next: int, inbound: seq<seq<byte>>)
    requires Deframed(peer, h, wbuf, flush, next, inbound)
    ensures 0 <= flush <= next <= |wbuf|
    ensures next > 0 && h.eof ==> flush == next
  {
  }

  lemma AlsoOutbound(h: Log, rbuf: seq<byte>, closing: bool, h': Log)
    requires Outbound(h, rbuf, closing)
    requires h'.read == h.read && h'.offered == h.offered && h'.sent == h.sent
    ensures Outbound(h', rbuf, closing)
  {
  }

  lemma SameStreams(peer: seq<Frame>, h: Log, rbuf: seq<byte>, closing: bool,
                    wbuf: seq<byte>, flush: int, next: int, inbound: seq<seq<byte>>, h': Log)
    requires h' == h.(base := h'.base, handed := h'.handed, resets := h'.resets)
    ensures Outbound(h, rbuf, closing) ==> Outbound(h', rbuf, closing)
    ensures Deframed(peer, h, wbuf, flush, next, inbound) ==> Deframed(peer, h', wbuf, flush, next, inbound)
    ensures Delivered(peer, h) ==> Delivered(peer, h')
  {
    if Delivered(peer, h) {
      var n: nat :| Reached(peer, h, n);
      assert Reached(peer, h', n);
    }
  }

  /** What was received stays right when the peer sends more. */
  lemma PeerMore(peer: seq<Frame>, frames: seq<Frame>, h: Log, wbuf: seq<byte>, flush: int, next: int,
                 inbound: seq<seq<byte>>)
    requires AllHonest(peer) && AllHonest(frames) && peer <= frames
    ensures Deframed(peer, h, wbuf, flush, next, inbound) ==> Deframed(frames, h, wbuf, flush, next, inbound)
    ensures Delivered(peer, h) ==> Delivered(frames, h)
  {
    hide AllHonest, EncodeFrame, EncodeFrames, Payloads, Flat, Segments;
    if Delivered(peer, h) {
      var n: nat :| Reached(peer, h, n);
      assert peer[..n] == frames[..n];
      assert Reached(frames, h, n);
    }
    if Deframed(peer, h, wbuf, flush, next, inbound) {
      var n := |h.done|;
      assert frames[..n] == peer[..n];
      FramesMore(peer, frames, n);
      PrefixOn(wbuf + Flat(inbound), EncodeFrames(peer[n..]), EncodeFrames(frames[n..]));
    }
  }

  lemma FramesMore(peer: seq<Frame>, frames: seq<Frame>, n: nat)
    requires AllHonest(peer) && AllHonest(frames) && peer <= frames && n <= |peer|
    ensures AllHonest(peer[n..]) && AllHonest(frames[n..]) && EncodeFrames(peer[n..]) <= EncodeFrames(frames[n..])
  {
    hide EncodeFrames;
    assert frames[n..][..|peer| - n] == peer[n..];
    EncodeFramesSplit(frames[n..], |peer| - n);
  }

  lemma PrefixOn(a: seq<byte>, b: seq<byte>, c: seq<byte>)
    requires a <= b <= c
    ensures a <= c
  {
  }

  lemma HonestAt(peer: seq<Frame>, h: Log, wbuf: seq<byte>, flush: int, next: int, inbound: seq<seq<byte>>)
    requires Deframed(peer, h, wbuf, flush, next, inbound)
    ensures |h.done| < |peer| ==> Honest(peer[|h.done|])
  {
  }

  lemma BytesRead(peer: seq<Frame>, h: Log, rbuf: seq<byte>, closing: bool, got: seq<byte>,
                  wbuf: seq<byte>, flush: int, next: int, inbound: seq<seq<byte>>)
    requires Outbound(h, rbuf, closing) && Deframed(peer, h, wbuf, flush, next, inbound)
    requires |rbuf| + |got| <= MAX_LENGTH - HEADER_SIZE
    ensures var h' := h.(read := h.read + got);
            Outbound(h', rbuf + got, closing) && Deframed(peer, h', wbuf, flush, next, inbound)
  {
    Associate(Payloads(h.sent), rbuf, got);
  }

  lemma GrowsOn(a: Log, b: Log, c: Log)
    ensures Grows(a, a) && (Grows(a, b) && Grows(b, c) ==> Grows(a, c))
  {
  }

  lemma HeaderLength(f: Frame)
    requires Honest(f)
    ensures !f.Push? ==> |EncodeFrame(f)| == HEADER_SIZE
  {
  }

  lemma AddsFrame(h: Log, f: Frame)
    requires Honest(f)
    ensures Grows(h, AddFrame(h, f))
    ensures AddFrame(h, f).done == h.done && AddFrame(h, f).eof == h.eof && AddFrame(h, f).received == h.received
    ensures AddFrame(h, f) == h.(offered := AddFrame(h, f).offered, sent := h.sent + [f])
  {
  }

  lemma StopsSending(h: Log, rbuf: seq<byte>, closing: bool)
    requires Outbound(h, rbuf, closing)
    ensures Outbound(h, rbuf, true)
  {
  }

  lemma PushFits(h: Log, rbuf: seq<byte>, closing: bool)
    requires Outbound(h, rbuf, closing) && rbuf != []
    ensures Honest(Push(rbuf)) && Body(Push(rbuf)) + [] == rbuf
  {
  }

  /** Sending leaves the receiving direction alone. */
  lemma BeforeSend(peer: seq<Frame>, h: Log, wbuf: seq<byte>, flush: int, next: int, inbound: seq<seq<byte>>, f: Frame)
    requires Honest(f)
    ensures Deframed(peer, h, wbuf, flush, next, inbound) ==>
              Deframed(peer, AddFrame(h, f), wbuf, flush, next, inbound)
  {
  }
}
