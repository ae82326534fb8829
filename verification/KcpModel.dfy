/** KCP, the reliable-stream protocol of contrib/kcp/ikcp.c, as functions on the
    value of a control block. Every function takes the arithmetic that sequence
    numbers are computed in: `Word` is the 32-bit arithmetic of the program,
    `Ideal` is arithmetic on unbounded numbers, and `Lifted` keeps unbounded numbers
    but compares them as the program does, by their last 32 bits. */
module KcpModel {
  import opened Words

  datatype Arith = Word | Ideal | Lifted

  /** A sequence number as it is stored. */
  function Num(m: Arith, x: int): int { if m.Word? then U32(x) else x }

  /** The comparison of two stored sequence numbers. */
  function Diff(m: Arith, later: int, earlier: int): int {
    if m.Ideal? then later - earlier else TimeDiff(later, earlier)
  }

  /** Whether two stored sequence numbers are taken for the same. */
  predicate Same(m: Arith, x: int, y: int) { if m.Lifted? then U32(x) == U32(y) else x == y }

  const RTO_MAX := 4000
  const CMD_PUSH := 81
  const CMD_ACK := 82
  const CMD_WASK := 83
  const CMD_WINS := 84
  const WND_RCV := 128
  const OVERHEAD := 24
  const THRESH_MIN := 2
  const PROBE_INIT := 7000
  const PROBE_LIMIT := 120000
  const NO_RESEND := 0xffff_ffff

  // ---------------------------------------------------------------- state

  datatype ConfigFields = Config(
    conv: int, mtu: int, mss: int, sndWnd: int, rcvWnd: int, interval: int,
    nodelay: int, minRto: int, fastResend: int, fastLimit: int, noCwnd: bool, deadLink: int)

  /** The ranges that ikcp_setmtu, ikcp_wndsize and ikcp_nodelay leave. */
  predicate ConfigOk(c: ConfigFields) {
    && 0 <= c.conv < W32
    && 50 <= c.mtu <= 1500 && c.mss == c.mtu - OVERHEAD
    && 1 <= c.sndWnd <= 65536 && WND_RCV <= c.rcvWnd <= 65536
    && 10 <= c.interval <= 5000
    && 0 <= c.nodelay && 0 <= c.fastResend < W32
    && 0 < c.minRto <= RTO_MAX
  }

  type Config = c: ConfigFields | ConfigOk(c)
    witness Config(1, 1400, 1376, 32, 128, 100, 0, 100, 0, 5, false, 20)

  /** A segment as it travels. */
  datatype Segment = Segment(
    conv: int, cmd: int, frg: int, wnd: int, ts: int, sn: int, una: int, data: seq<byte>)

  /** A numbered segment that has not been acknowledged. */
  datatype InFlight = InFlight(
    sn: int, ts: int, resendts: int, rto: int, fastack: int, xmit: int, data: seq<byte>)

  /** A segment that has arrived. */
  datatype Received = Received(sn: int, frg: int, data: seq<byte>)

  datatype Ack = Ack(sn: int, ts: int)

  datatype Sender = Sender(una: int, nxt: int, queue: seq<seq<byte>>, buf: seq<InFlight>)

  datatype Receiver = Receiver(nxt: int, queue: seq<Received>, buf: seq<Received>, acks: seq<Ack>)

  /** Window, round-trip and timer state. */
  datatype Pace = Pace(
    rmtWnd: int, cwnd: int, ssthresh: int, incr: int,
    ask: bool, tell: bool, tsProbe: int, probeWait: int,
    srtt: int, rttval: int, rto: int,
    current: int, tsFlush: int, updated: bool, xmit: int, dead: bool)

  datatype Endpoint = Endpoint(cfg: Config, snd: Sender, rcv: Receiver, pace: Pace)

  function Create(cfg: Config): Endpoint {
    Endpoint(cfg, Sender(0, 0, [], []), Receiver(0, [], [], []),
             Pace(WND_RCV, 0, 2, 0, false, false, 0, 0, 0, 0, 200, 0, 100, false, 0, false))
  }

  // ---------------------------------------------------------------- sending bytes

  datatype SendResult = SendResult(queue: seq<seq<byte>>, ret: int)

  /** Cuts bytes into pieces of at most `mss`. */
  function Chunks(mss: int, data: seq<byte>): seq<seq<byte>>
    requires mss > 0
    decreases |data|
  {
    if data == [] then []
    else if |data| <= mss then [data]
    else [data[..mss]] + Chunks(mss, data[mss..])
  }

  /** How many bytes the last queued segment still takes. */
  function Extend(mss: int, queue: seq<seq<byte>>, data: seq<byte>): (n: nat)
    ensures n <= |data|
  {
    if queue != [] && |queue[|queue| - 1]| < mss
    then Min(|data|, mss - |queue[|queue| - 1]|) else 0
  }

  function TopUp(mss: int, queue: seq<seq<byte>>, data: seq<byte>): seq<seq<byte>> {
    var n := Extend(mss, queue, data);
    if n == 0 then queue else queue[|queue| - 1 := queue[|queue| - 1] + data[..n]]
  }

  function SegmentCount(mss: int, len: int): int
    requires mss > 0
  {
    if len <= mss then 1 else (len + mss - 1) / mss
  }

  function Send(mss: int, queue: seq<seq<byte>>, data: seq<byte>): SendResult
    requires mss > 0
  {
    var n := Extend(mss, queue, data);
    var queue' := TopUp(mss, queue, data);
    var rest := data[n..];
    if rest == [] then SendResult(queue', n)
    else if SegmentCount(mss, |rest|) >= WND_RCV then SendResult(queue', if n > 0 then n else -2)
    else SendResult(queue' + Chunks(mss, rest), |data|)
  }

  // ---------------------------------------------------------------- giving bytes back

  /** Moves arrived segments that are next in order to the receive queue. */
  function Drain(m: Arith, rcvWnd: int, r: Receiver): Receiver
    decreases |r.buf|
  {
    if r.buf != [] && Same(m, r.buf[0].sn, r.nxt) && |r.queue| < rcvWnd
    then Drain(m, rcvWnd, r.(nxt := Num(m, r.nxt + 1), queue := r.queue + [r.buf[0]], buf := r.buf[1..]))
    else r
  }

  /** Number of queued segments up to and including the first final fragment. */
  function MessageSpan(queue: seq<Received>): (n: nat)
    ensures n <= |queue|
    ensures queue != [] ==> n > 0
  {
    if queue == [] then 0
    else if queue[0].frg == 0 then 1
    else 1 + MessageSpan(queue[1..])
  }

  function Payload(rs: seq<Received>): seq<byte> {
    if rs == [] then [] else rs[0].data + Payload(rs[1..])
  }

  function PeekSize(r: Receiver): int {
    if r.queue == [] then -1
    else if r.queue[0].frg == 0 then |r.queue[0].data|
    else if |r.queue| < r.queue[0].frg + 1 then -1
    else |Payload(r.queue[..MessageSpan(r.queue)])|
  }

  datatype RecvResult = RecvResult(rcv: Receiver, tell: bool, ret: int, data: seq<byte>)

  function Recv(m: Arith, rcvWnd: int, r: Receiver, cap: int): RecvResult {
    if r.queue == [] then RecvResult(r, false, -1, [])
    else if PeekSize(r) < 0 then RecvResult(r, false, -2, [])
    else if PeekSize(r) > cap then RecvResult(r, false, -3, [])
    else
      var n := MessageSpan(r.queue);
      var data := Payload(r.queue[..n]);
      var r' := Drain(m, rcvWnd, r.(queue := r.queue[n..]));
      RecvResult(r', |r.queue| >= rcvWnd && |r'.queue| < rcvWnd, |data|, data)
  }

  // ---------------------------------------------------------------- acknowledgements

  function UpdateAck(cfg: Config, p: Pace, rtt: int): (q: Pace)
    ensures cfg.minRto <= q.rto <= RTO_MAX
    ensures q == p.(srtt := q.srtt, rttval := q.rttval, rto := q.rto)
  {
    var p1 :=
      if p.srtt == 0 then p.(srtt := rtt, rttval := TruncDiv(rtt, 2))
      else
        var delta := if rtt >= p.srtt then rtt - p.srtt else p.srtt - rtt;
        p.(rttval := TruncDiv(3 * p.rttval + delta, 4),
           srtt := Max(1, TruncDiv(7 * p.srtt + rtt, 8)));
    p1.(rto := Min(Max(cfg.minRto, p1.srtt + Max(cfg.interval, 4 * p1.rttval)), RTO_MAX))
  }

  /** Segments that remain after the peer says it has everything below `una`. */
  function DropBefore(m: Arith, buf: seq<InFlight>, una: int): seq<InFlight> {
    if buf != [] && Diff(m, una, buf[0].sn) > 0 then DropBefore(m, buf[1..], una) else buf
  }

  function Shrink(s: Sender): Sender {
    s.(una := if s.buf == [] then s.nxt else s.buf[0].sn)
  }

  function ParseUna(m: Arith, s: Sender, una: int): Sender {
    Shrink(s.(buf := DropBefore(m, s.buf, una)))
  }

  function DropOne(m: Arith, buf: seq<InFlight>, sn: int): seq<InFlight> {
    if buf == [] then []
    else if Same(m, buf[0].sn, sn) then buf[1..]
    else if Diff(m, sn, buf[0].sn) < 0 then buf
    else [buf[0]] + DropOne(m, buf[1..], sn)
  }

  predicate InSendWindow(m: Arith, s: Sender, sn: int) {
    Diff(m, sn, s.una) >= 0 && Diff(m, sn, s.nxt) < 0
  }

  function ParseAck(m: Arith, s: Sender, sn: int): Sender {
    Shrink(if InSendWindow(m, s, sn) then s.(buf := DropOne(m, s.buf, sn)) else s)
  }

  function Skipped(m: Arith, buf: seq<InFlight>, sn: int, ts: int): seq<InFlight> {
    if buf == [] || Diff(m, sn, buf[0].sn) < 0 then buf
    else
      var head := if !Same(m, sn, buf[0].sn) && TimeDiff(ts, buf[0].ts) >= 0
                  then buf[0].(fastack := U32(buf[0].fastack + 1)) else buf[0];
      [head] + Skipped(m, buf[1..], sn, ts)
  }

  function ParseFastack(m: Arith, s: Sender, sn: int, ts: int): Sender {
    if InSendWindow(m, s, sn) then s.(buf := Skipped(m, s.buf, sn, ts)) else s
  }

  // ---------------------------------------------------------------- arriving data

  /** Places a segment by number, searching from the far end; a number already
      present keeps its first copy. */
  function Insert(m: Arith, buf: seq<Received>, seg: Received): seq<Received> {
    if buf == [] then [seg]
    else
      var last := buf[|buf| - 1];
      if Same(m, last.sn, seg.sn) then buf
      else if Diff(m, seg.sn, last.sn) > 0 then buf + [seg]
      else Insert(m, buf[..|buf| - 1], seg) + [last]
  }

  function ParseData(m: Arith, rcvWnd: int, r: Receiver, seg: Received): Receiver {
    if Diff(m, seg.sn, Num(m, r.nxt + rcvWnd)) >= 0 || Diff(m, seg.sn, r.nxt) < 0 then r
    else Drain(m, rcvWnd, r.(buf := Insert(m, r.buf, seg)))
  }

  function ParsePush(m: Arith, rcvWnd: int, r: Receiver, seg: Segment): Receiver {
    if Diff(m, seg.sn, Num(m, r.nxt + rcvWnd)) < 0 then
      var r1 := r.(acks := r.acks + [Ack(seg.sn, seg.ts)]);
      if Diff(m, seg.sn, r1.nxt) >= 0
      then ParseData(m, rcvWnd, r1, Received(seg.sn, seg.frg, seg.data)) else r1
    else r
  }

  // ---------------------------------------------------------------- input

  /** Progress through one packet. */
  datatype Intake = Intake(e: Endpoint, acked: bool, maxAck: int, latestTs: int)

  function TakeAck(m: Arith, st: Intake, s: Sender, p: Pace, seg: Segment): Intake {
    var rtt := TimeDiff(p.current, seg.ts);
    var p' := if rtt >= 0 then UpdateAck(st.e.cfg, p, rtt) else p;
    var newer := !st.acked ||
                 (Diff(m, seg.sn, st.maxAck) > 0 && TimeDiff(seg.ts, st.latestTs) > 0);
    Intake(Endpoint(st.e.cfg, ParseAck(m, s, seg.sn), st.e.rcv, p'), true,
           if newer then seg.sn else st.maxAck, if newer then seg.ts else st.latestTs)
  }

  function TakeSegment(m: Arith, st: Intake, seg: Segment): Intake {
    var e := st.e;
    var s := ParseUna(m, e.snd, seg.una);
    var p := e.pace.(rmtWnd := seg.wnd);
    if seg.cmd == CMD_ACK then TakeAck(m, st, s, p, seg)
    else if seg.cmd == CMD_PUSH then
      st.(e := Endpoint(e.cfg, s, ParsePush(m, e.cfg.rcvWnd, e.rcv, seg), p))
    else if seg.cmd == CMD_WASK then st.(e := Endpoint(e.cfg, s, e.rcv, p.(tell := true)))
    else st.(e := Endpoint(e.cfg, s, e.rcv, p))
  }

  function TakeSegments(m: Arith, st: Intake, segs: seq<Segment>): Intake
    decreases |segs|
  {
    if segs == [] then st
    else TakeSegments(m, TakeSegment(m, st, segs[0]), segs[1..])
  }

  function WindowFor(incr: int, mss: int): (w: int)
    requires mss > 0
    ensures w >= 0
  {
    U32(incr + mss - 1) / mss
  }

  function GrowCwnd(cfg: Config, p: Pace): (q: Pace)
    ensures q == p.(cwnd := q.cwnd, incr := q.incr)
    ensures p.cwnd >= 0 && p.rmtWnd >= 0 ==> q.cwnd >= 0
  {
    if p.cwnd >= p.rmtWnd then p
    else
      var mss := cfg.mss;
      var p1 :=
        if p.cwnd < p.ssthresh then p.(cwnd := U32(p.cwnd + 1), incr := U32(p.incr + mss))
        else
          var incr1 := Max(p.incr, mss);
          var incr2 := U32(incr1 + (mss * mss) / incr1 + mss / 16);
          p.(incr := incr2,
             cwnd := if U32((p.cwnd + 1) * mss) <= incr2 then WindowFor(incr2, mss) else p.cwnd);
      if p1.cwnd > p1.rmtWnd then p1.(cwnd := p1.rmtWnd, incr := U32(p1.rmtWnd * mss)) else p1
  }

  /** What follows the last segment of a well-formed packet. */
  function FinishInput(m: Arith, st: Intake, prevUna: int): Endpoint {
    var s := if st.acked then ParseFastack(m, st.e.snd, st.maxAck, st.latestTs) else st.e.snd;
    var p := if Diff(m, s.una, prevUna) > 0 then GrowCwnd(st.e.cfg, st.e.pace) else st.e.pace;
    Endpoint(st.e.cfg, s, st.e.rcv, p)
  }

  function Input(m: Arith, e: Endpoint, segs: seq<Segment>): Endpoint {
    FinishInput(m, TakeSegments(m, Intake(e, false, 0, 0), segs), e.snd.una)
  }

  // ---------------------------------------------------------------- flush

  function UnusedWindow(cfg: Config, r: Receiver): int {
    if |r.queue| < cfg.rcvWnd then cfg.rcvWnd - |r.queue| else 0
  }

  /** The header every segment of one flush starts from; the window field is
      16 bits wide on the wire. */
  function Header(e: Endpoint): Segment {
    Segment(e.cfg.conv, CMD_ACK, 0, U16(UnusedWindow(e.cfg, e.rcv)), 0, 0, e.rcv.nxt, [])
  }

  function AckSegments(hdr: Segment, acks: seq<Ack>): seq<Segment> {
    if acks == [] then []
    else
      var a := acks[|acks| - 1];
      AckSegments(hdr, acks[..|acks| - 1]) + [hdr.(sn := a.sn, ts := a.ts)]
  }

  /** The scratch header after the acknowledgements; probes inherit it. */
  function ProbeHeader(hdr: Segment, acks: seq<Ack>): Segment {
    if acks == [] then hdr else hdr.(sn := acks[|acks| - 1].sn, ts := acks[|acks| - 1].ts)
  }

  /** Window probing while the peer announces a closed window. */
  function Probe(p: Pace): (q: Pace)
    ensures q.cwnd == p.cwnd && q.rmtWnd == p.rmtWnd && q.current == p.current && q.rto == p.rto
  {
    if p.rmtWnd != 0 then p.(tsProbe := 0, probeWait := 0)
    else if p.probeWait == 0 then p.(probeWait := PROBE_INIT, tsProbe := U32(p.current + PROBE_INIT))
    else if TimeDiff(p.current, p.tsProbe) >= 0 then
      var w := Max(p.probeWait, PROBE_INIT);
      var w' := Min(w + w / 2, PROBE_LIMIT);
      p.(probeWait := w', tsProbe := U32(p.current + w'), ask := true)
    else p
  }

  /** The state after the probes went out. */
  function Probed(p: Pace): Pace { Probe(p).(ask := false, tell := false) }

  function ProbeSegments(hdr: Segment, p: Pace): seq<Segment> {
    (if p.ask then [hdr.(cmd := CMD_WASK)] else []) + (if p.tell then [hdr.(cmd := CMD_WINS)] else [])
  }

  function Window(cfg: Config, p: Pace): int {
    var w := Min(cfg.sndWnd, p.rmtWnd);
    if cfg.noCwnd then w else Min(p.cwnd, w)
  }

  /** Numbers queued segments while the window has room. */
  function Fill(m: Arith, s: Sender, cwnd: int, now: int, rto: int): Sender
    decreases |s.queue|
  {
    if Diff(m, s.nxt, Num(m, s.una + cwnd)) < 0 && s.queue != [] then
      var seg := InFlight(s.nxt, now, now, rto, 0, 0, s.queue[0]);
      Fill(m, Sender(s.una, Num(m, s.nxt + 1), s.queue[1..], s.buf + [seg]), cwnd, now, rto)
    else s
  }

  datatype Reason = Quiet | First | Timeout | Fast

  /** Why a segment is transmitted in this flush, if it is. */
  function Due(cfg: Config, now: int, seg: InFlight): Reason {
    if seg.xmit == 0 then First
    else if TimeDiff(now, seg.resendts) >= 0 then Timeout
    else if seg.fastack >= Resent(cfg) && (S32(seg.xmit) <= cfg.fastLimit || cfg.fastLimit <= 0) then Fast
    else Quiet
  }

  function Resent(cfg: Config): int { if cfg.fastResend > 0 then cfg.fastResend else NO_RESEND }

  function Backoff(cfg: Config, rxRto: int, rto: int): int {
    if cfg.nodelay == 0 then U32(rto + Max(rto, U32(rxRto)))
    else U32(rto + TruncDiv(if cfg.nodelay < 2 then S32(rto) else rxRto, 2))
  }

  function Transmit(cfg: Config, rxRto: int, now: int, seg: InFlight): InFlight {
    match Due(cfg, now, seg)
    case Quiet => seg
    case First =>
      var rto := U32(rxRto);
      var slack := if cfg.nodelay == 0 then rto / 8 else 0;
      seg.(xmit := 1, rto := rto, resendts := U32(now + rto + slack), ts := now)
    case Timeout =>
      var rto := Backoff(cfg, rxRto, seg.rto);
      seg.(xmit := U32(seg.xmit + 1), rto := rto, resendts := U32(now + rto), ts := now)
    case Fast =>
      seg.(xmit := U32(seg.xmit + 1), fastack := 0, resendts := U32(now + seg.rto), ts := now)
  }

  function PushSegment(hdr: Segment, seg: InFlight): Segment {
    Segment(hdr.conv, CMD_PUSH, 0, hdr.wnd, seg.ts, seg.sn, hdr.una, seg.data)
  }

  /** Outcome of the transmission pass over the send buffer. */
  datatype Pass = Pass(buf: seq<InFlight>, out: seq<Segment>, lost: nat, change: nat, dead: bool)

  function TransmitOne(cfg: Config, rxRto: int, now: int, hdr: Segment, a: Pass, seg: InFlight): Pass {
    var seg' := Transmit(cfg, rxRto, now, seg);
    var why := Due(cfg, now, seg);
    Pass(a.buf + [seg'],
         if why.Quiet? then a.out else a.out + [PushSegment(hdr, seg')],
         if why.Timeout? then a.lost + 1 else a.lost,
         if why.Fast? then a.change + 1 else a.change,
         a.dead || (!why.Quiet? && seg'.xmit >= cfg.deadLink))
  }

  function TransmitAll(cfg: Config, rxRto: int, now: int, hdr: Segment, buf: seq<InFlight>): Pass {
    if buf == [] then Pass([], [], 0, 0, false)
    else TransmitOne(cfg, rxRto, now, hdr,
                     TransmitAll(cfg, rxRto, now, hdr, buf[..|buf| - 1]), buf[|buf| - 1])
  }

  /** Congestion window after a flush that saw retransmissions. */
  function AfterFlush(cfg: Config, p: Pace, inflight: int, cwnd: int, lost: nat, change: nat, dead: bool): (q: Pace)
    ensures q.cwnd >= 1 && q.rmtWnd == p.rmtWnd && q.current == p.current && q.updated == p.updated
  {
    var p0 := p.(xmit := U32(p.xmit + lost), dead := p.dead || dead);
    var p1 :=
      if change == 0 then p0
      else
        var th := Max(inflight / 2, THRESH_MIN);
        var w := U32(th + Resent(cfg));
        p0.(ssthresh := th, cwnd := w, incr := U32(w * cfg.mss));
    var p2 := if lost == 0 then p1
              else p1.(ssthresh := Max(cwnd / 2, THRESH_MIN), cwnd := 1, incr := cfg.mss);
    if p2.cwnd < 1 then p2.(cwnd := 1, incr := cfg.mss) else p2
  }

  datatype FlushResult = FlushResult(e: Endpoint, out: seq<Segment>)

  function ControlSegments(hdr: Segment, acks: seq<Ack>, p: Pace): seq<Segment> {
    AckSegments(hdr, acks) + ProbeSegments(ProbeHeader(hdr, acks), p)
  }

  /** Puts together what the passes of a flush produced. */
  function Assemble(e: Endpoint, p: Pace, s: Sender, inflight: int, t: Pass, control: seq<Segment>): FlushResult {
    FlushResult(
      Endpoint(e.cfg, s.(buf := t.buf), e.rcv.(acks := []),
               AfterFlush(e.cfg, p, inflight, Window(e.cfg, p), t.lost, t.change, t.dead)),
      control + t.out)
  }

  function Flush(m: Arith, e: Endpoint): FlushResult {
    if !e.pace.updated then FlushResult(e, [])
    else
      var hdr, p := Header(e), Probed(e.pace);
      var s := Fill(m, e.snd, Window(e.cfg, p), p.current, p.rto);
      var t := TransmitAll(e.cfg, p.rto, p.current, hdr, s.buf);
      Assemble(e, p, s, Num(m, s.nxt - s.una), t, ControlSegments(hdr, e.rcv.acks, Probe(e.pace)))
  }

  /** The result of an active flush in terms of its passes. */
  lemma FlushIs(m: Arith, e: Endpoint, hdr: Segment, p: Pace, s: Sender, inflight: int, t: Pass, ctl: seq<Segment>)
    requires e.pace.updated && hdr == Header(e) && p == Probed(e.pace)
    requires s == Fill(m, e.snd, Window(e.cfg, p), p.current, p.rto) && inflight == Num(m, s.nxt - s.una)
    requires t == TransmitAll(e.cfg, p.rto, p.current, hdr, s.buf)
    requires ctl == ControlSegments(hdr, e.rcv.acks, Probe(e.pace))
    ensures Flush(m, e) == Assemble(e, p, s, inflight, t, ctl)
  {
  }

  // ---------------------------------------------------------------- packets

  function SegmentSize(seg: Segment): nat { OVERHEAD + |seg.data| }

  function PacketSize(segs: seq<Segment>): nat {
    if segs == [] then 0 else PacketSize(segs[..|segs| - 1]) + SegmentSize(segs[|segs| - 1])
  }

  datatype Packing = Packing(done: seq<seq<Segment>>, cur: seq<Segment>)

  function Close(pk: Packing): seq<seq<Segment>> {
    if pk.cur == [] then pk.done else pk.done + [pk.cur]
  }

  function AddSegment(mtu: int, pk: Packing, seg: Segment): Packing {
    if PacketSize(pk.cur) + SegmentSize(seg) > mtu then Packing(Close(pk), [seg])
    else Packing(pk.done, pk.cur + [seg])
  }

  function Pack(mtu: int, segs: seq<Segment>): Packing {
    if segs == [] then Packing([], [])
    else AddSegment(mtu, Pack(mtu, segs[..|segs| - 1]), segs[|segs| - 1])
  }

  /** The datagrams a flush hands to the output callback. */
  function Packets(mtu: int, segs: seq<Segment>): seq<seq<Segment>> { Close(Pack(mtu, segs)) }

  // ---------------------------------------------------------------- clock

  /** Whether ikcp_update flushes, and the flush time it leaves behind. */
  datatype Tick = Tick(flush: bool, tsFlush: int)

  function TickAt(cfg: Config, p: Pace, now: int): Tick {
    var ts0 := if p.updated then p.tsFlush else now;
    var slap0 := TimeDiff(now, ts0);
    var reset := slap0 >= 10000 || slap0 < -10000;
    var ts1 := if reset then now else ts0;
    var slap := if reset then 0 else slap0;
    if slap < 0 then Tick(false, ts1)
    else
      var ts2 := U32(ts1 + cfg.interval);
      Tick(true, if TimeDiff(now, ts2) >= 0 then U32(now + cfg.interval) else ts2)
  }

  function Update(m: Arith, e: Endpoint, now: int): FlushResult {
    var t := TickAt(e.cfg, e.pace, now);
    var e' := e.(pace := e.pace.(current := now, updated := true, tsFlush := t.tsFlush));
    if t.flush then Flush(m, e') else FlushResult(e', [])
  }
}
