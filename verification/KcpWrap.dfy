/** The 32-bit program follows the unbounded one: truncating every stored number
    commutes with each list operation while the numbers compared are less than
    2^31 apart. */
module KcpWrap {
  import opened Words
  import opened KcpModel
  import opened KcpLists

  // ---------------------------------------------------------------- truncation

  function WrapFlight(buf: seq<InFlight>): (r: seq<InFlight>)
    ensures |r| == |buf|
    ensures forall i :: 0 <= i < |buf| ==> r[i] == buf[i].(sn := U32(buf[i].sn))
  {
    seq(|buf|, i requires 0 <= i < |buf| => buf[i].(sn := U32(buf[i].sn)))
  }

  function WrapArrived(buf: seq<Received>): (r: seq<Received>)
    ensures |r| == |buf|
    ensures forall i :: 0 <= i < |buf| ==> r[i] == buf[i].(sn := U32(buf[i].sn))
  {
    seq(|buf|, i requires 0 <= i < |buf| => buf[i].(sn := U32(buf[i].sn)))
  }

  function WrapAcks(acks: seq<Ack>): (r: seq<Ack>)
    ensures |r| == |acks|
    ensures forall i :: 0 <= i < |acks| ==> r[i] == acks[i].(sn := U32(acks[i].sn))
  {
    seq(|acks|, i requires 0 <= i < |acks| => acks[i].(sn := U32(acks[i].sn)))
  }

  function WrapSender(s: Sender): Sender { Sender(U32(s.una), U32(s.nxt), s.queue, WrapFlight(s.buf)) }

  function WrapReceiver(r: Receiver): Receiver {
    Receiver(U32(r.nxt), WrapArrived(r.queue), WrapArrived(r.buf), WrapAcks(r.acks))
  }

  function WrapEndpoint(e: Endpoint): Endpoint {
    Endpoint(e.cfg, WrapSender(e.snd), WrapReceiver(e.rcv), e.pace)
  }

  function WrapIntake(st: Intake): Intake {
    Intake(WrapEndpoint(st.e), st.acked, U32(st.maxAck), st.latestTs)
  }

  function WrapSegment(s: Segment): Segment { s.(sn := U32(s.sn), una := U32(s.una)) }

  function WrapSegments(segs: seq<Segment>): (r: seq<Segment>)
    ensures |r| == |segs|
    ensures forall i :: 0 <= i < |segs| ==> r[i] == WrapSegment(segs[i])
  {
    seq(|segs|, i requires 0 <= i < |segs| => WrapSegment(segs[i]))
  }

  // ---------------------------------------------------------------- comparisons

  ghost predicate Comparable(x: int, y: int) { -H32 <= x - y < H32 }

  lemma DiffWrap(x: int, y: int)
    requires Comparable(x, y)
    ensures Diff(Word, U32(x), U32(y)) == Diff(Ideal, x, y)
    ensures U32(x) == U32(y) <==> x == y
  {
    TimeDiffExact(x, y);
    WrapInjective(x, y);
  }

  // ---------------------------------------------------------------- send side

  ghost predicate AllComparable(n: int, buf: seq<InFlight>) {
    forall x :: x in buf ==> Comparable(n, x.sn)
  }

  lemma {:induction false} DropBeforeWraps(buf: seq<InFlight>, una: int)
    requires AllComparable(una, buf)
    ensures DropBefore(Word, WrapFlight(buf), U32(una)) == WrapFlight(DropBefore(Ideal, buf, una))
  {
    if buf != [] {
      assert buf[0] in buf;
      DiffWrap(una, buf[0].sn);
      if una - buf[0].sn > 0 {
        assert WrapFlight(buf)[1..] == WrapFlight(buf[1..]);
        DropBeforeWraps(buf[1..], una);
      }
    }
  }

  lemma ParseUnaWraps(s: Sender, una: int)
    requires AllComparable(una, s.buf)
    ensures ParseUna(Word, WrapSender(s), U32(una)) == WrapSender(ParseUna(Ideal, s, una))
  {
    DropBeforeWraps(s.buf, una);
  }

  lemma {:induction false} DropOneWraps(buf: seq<InFlight>, sn: int)
    requires AllComparable(sn, buf)
    ensures DropOne(Word, WrapFlight(buf), U32(sn)) == WrapFlight(DropOne(Ideal, buf, sn))
  {
    if buf != [] {
      assert buf[0] in buf;
      DiffWrap(sn, buf[0].sn);
      assert WrapFlight(buf)[1..] == WrapFlight(buf[1..]);
      if buf[0].sn != sn && sn - buf[0].sn >= 0 {
        DropOneWraps(buf[1..], sn);
      }
    }
  }

  lemma ParseAckWraps(s: Sender, sn: int)
    requires AllComparable(sn, s.buf) && Comparable(sn, s.una) && Comparable(sn, s.nxt)
    ensures ParseAck(Word, WrapSender(s), U32(sn)) == WrapSender(ParseAck(Ideal, s, sn))
  {
    DiffWrap(sn, s.una);
    DiffWrap(sn, s.nxt);
    DropOneWraps(s.buf, sn);
  }

  lemma {:induction false} SkippedWraps(buf: seq<InFlight>, sn: int, ts: int)
    requires AllComparable(sn, buf)
    ensures Skipped(Word, WrapFlight(buf), U32(sn), ts) == WrapFlight(Skipped(Ideal, buf, sn, ts))
  {
    if buf != [] {
      assert buf[0] in buf;
      DiffWrap(sn, buf[0].sn);
      assert WrapFlight(buf)[1..] == WrapFlight(buf[1..]);
      SkippedWraps(buf[1..], sn, ts);
    }
  }

  lemma ParseFastackWraps(s: Sender, sn: int, ts: int)
    requires AllComparable(sn, s.buf) && Comparable(sn, s.una) && Comparable(sn, s.nxt)
    ensures ParseFastack(Word, WrapSender(s), U32(sn), ts) == WrapSender(ParseFastack(Ideal, s, sn, ts))
  {
    DiffWrap(sn, s.una);
    DiffWrap(sn, s.nxt);
    SkippedWraps(s.buf, sn, ts);
  }

  lemma {:induction false} FillWraps(s: Sender, cwnd: int, now: int, rto: int)
    requires 0 <= cwnd <= 65536 && s.una <= s.nxt <= s.una + 65536
    ensures Fill(Word, WrapSender(s), cwnd, now, rto) == WrapSender(Fill(Ideal, s, cwnd, now, rto))
    decreases |s.queue|
  {
    var w := WrapSender(s);
    AddWraps(s.una, cwnd);
    DiffWrap(s.nxt, s.una + cwnd);
    if s.nxt - (s.una + cwnd) < 0 && s.queue != [] {
      AddWraps(s.nxt, 1);
      var seg := InFlight(s.nxt, now, now, rto, 0, 0, s.queue[0]);
      var s1 := Sender(s.una, s.nxt + 1, s.queue[1..], s.buf + [seg]);
      FillWraps(s1, cwnd, now, rto);
      assert WrapFlight(s1.buf) == w.buf + [seg.(sn := w.nxt)];
      assert WrapSender(s1) == Sender(w.una, Num(Word, w.nxt + 1), w.queue[1..], w.buf + [seg.(sn := w.nxt)]);
    }
  }

  // ---------------------------------------------------------------- receive side

  lemma {:induction false} InsertWraps(buf: seq<Received>, seg: Received)
    requires forall x :: x in buf ==> Comparable(seg.sn, x.sn)
    ensures Insert(Word, WrapArrived(buf), seg.(sn := U32(seg.sn))) == WrapArrived(Insert(Ideal, buf, seg))
  {
    if buf == [] {
    } else {
      var n := |buf| - 1;
      assert buf[n] in buf;
      DiffWrap(seg.sn, buf[n].sn);
      assert WrapArrived(buf)[..n] == WrapArrived(buf[..n]);
      InsertWraps(buf[..n], seg);
    }
  }

  /** The numbers of a receiver are in order and less than 2^32 ahead. */
  ghost predicate Ahead(nxt: int, buf: seq<Received>) {
    SortedArrived(buf) && forall x :: x in buf ==> nxt <= x.sn < nxt + W32
  }

  lemma AheadTail(nxt: int, buf: seq<Received>)
    requires Ahead(nxt, buf) && buf != []
    ensures Ahead(nxt + 1, buf[1..])
  {
    forall i | 0 <= i < |buf| - 1 ensures nxt + 1 <= buf[1..][i].sn < nxt + 1 + W32 {
      assert buf[1..][i] == buf[i + 1] && buf[i + 1] in buf && buf[0] in buf;
    }
  }

  lemma {:induction false} DrainWraps(wnd: int, r: Receiver)
    requires Ahead(r.nxt, r.buf)
    ensures Drain(Word, wnd, WrapReceiver(r)) == WrapReceiver(Drain(Ideal, wnd, r))
    decreases |r.buf|
  {
    if r.buf != [] {
      assert r.buf[0] in r.buf;
      WrapInjective(r.buf[0].sn, r.nxt);
      if r.buf[0].sn == r.nxt && |r.queue| < wnd {
        var r1 := r.(nxt := r.nxt + 1, queue := r.queue + [r.buf[0]], buf := r.buf[1..]);
        AheadTail(r.nxt, r.buf);
        DrainWraps(wnd, r1);
        StepWraps(r, r1);
      }
    }
  }

  lemma StepWraps(r: Receiver, r1: Receiver)
    requires r.buf != [] && r1 == r.(nxt := r.nxt + 1, queue := r.queue + [r.buf[0]], buf := r.buf[1..])
    ensures var w := WrapReceiver(r);
            WrapReceiver(r1) == w.(nxt := Num(Word, w.nxt + 1), queue := w.queue + [w.buf[0]], buf := w.buf[1..])
  {
    AddWraps(r.nxt, 1);
    assert WrapArrived(r1.queue) == WrapArrived(r.queue) + [WrapArrived(r.buf)[0]];
    assert WrapArrived(r1.buf) == WrapArrived(r.buf)[1..];
  }

  /** The two window tests on arriving data. */
  lemma WindowTestWraps(wnd: int, nxt: int, sn: int, wnxt: int, wsn: int)
    requires Comparable(sn, nxt + wnd) && Comparable(sn, nxt)
    requires wnxt == U32(nxt) && wsn == U32(sn)
    ensures Diff(Word, wsn, Num(Word, wnxt + wnd)) == sn - (nxt + wnd)
    ensures Diff(Word, wsn, wnxt) == sn - nxt
  {
    AddWraps(nxt, wnd);
    DiffWrap(sn, nxt + wnd);
    DiffWrap(sn, nxt);
  }

  lemma StoreWraps(wnd: int, r: Receiver, seg: Received)
    requires Ahead(r.nxt, Insert(Ideal, r.buf, seg))
    requires forall x :: x in r.buf ==> Comparable(seg.sn, x.sn)
    ensures var w := WrapReceiver(r);
            Drain(Word, wnd, w.(buf := Insert(Word, w.buf, seg.(sn := U32(seg.sn))))) ==
            WrapReceiver(Drain(Ideal, wnd, r.(buf := Insert(Ideal, r.buf, seg))))
  {
    InsertWraps(r.buf, seg);
    DrainWraps(wnd, r.(buf := Insert(Ideal, r.buf, seg)));
  }

  lemma ParseDataWraps(wnd: int, r: Receiver, seg: Received)
    requires Comparable(seg.sn, r.nxt + wnd) && Comparable(seg.sn, r.nxt)
    requires forall x :: x in r.buf ==> Comparable(seg.sn, x.sn)
    requires r.nxt <= seg.sn < r.nxt + wnd ==> Ahead(r.nxt, Insert(Ideal, r.buf, seg))
    ensures ParseData(Word, wnd, WrapReceiver(r), seg.(sn := U32(seg.sn))) == WrapReceiver(ParseData(Ideal, wnd, r, seg))
  {
    var w, ws := WrapReceiver(r), seg.(sn := U32(seg.sn));
    WindowTestWraps(wnd, r.nxt, seg.sn, w.nxt, ws.sn);
    if r.nxt <= seg.sn < r.nxt + wnd {
      StoreWraps(wnd, r, seg);
      ParseDataStores(Word, wnd, w, ws);
      ParseDataStores(Ideal, wnd, r, seg);
    } else {
      ParseDataIgnores(Word, wnd, w, ws);
    }
  }

  lemma ParseDataStores(m: Arith, wnd: int, r: Receiver, seg: Received)
    requires Diff(m, seg.sn, Num(m, r.nxt + wnd)) < 0 && Diff(m, seg.sn, r.nxt) >= 0
    ensures ParseData(m, wnd, r, seg) == Drain(m, wnd, r.(buf := Insert(m, r.buf, seg)))
  {
  }

  lemma ParseDataIgnores(m: Arith, wnd: int, r: Receiver, seg: Received)
    requires Diff(m, seg.sn, Num(m, r.nxt + wnd)) >= 0 || Diff(m, seg.sn, r.nxt) < 0
    ensures ParseData(m, wnd, r, seg) == r
  {
  }

  /** The numbers of a receiver that is within its window. */
  ghost predicate Windowed(wnd: int, r: Receiver) {
    && 0 < wnd <= 65536 && SortedArrived(r.buf)
    && forall x :: x in r.buf ==> r.nxt <= x.sn < r.nxt + wnd
  }

  lemma ParsePushWraps(wnd: int, r: Receiver, s: Segment)
    requires Windowed(wnd, r)
    requires r.nxt + wnd - s.sn <= H32 && s.sn - r.nxt < H32
    ensures ParsePush(Word, wnd, WrapReceiver(r), WrapSegment(s)) == WrapReceiver(ParsePush(Ideal, wnd, r, s))
  {
    var w, ws := WrapReceiver(r), WrapSegment(s);
    WindowTestWraps(wnd, r.nxt, s.sn, w.nxt, ws.sn);
    var r1 := r.(acks := r.acks + [Ack(s.sn, s.ts)]);
    assert WrapReceiver(r1) == w.(acks := w.acks + [Ack(ws.sn, ws.ts)]);
    ParsePushCases(Word, wnd, w, ws);
    ParsePushCases(Ideal, wnd, r, s);
    if r.nxt <= s.sn < r.nxt + wnd {
      var seg := Received(s.sn, s.frg, s.data);
      InsertKeeps(r.buf, seg);
      ParseDataWraps(wnd, r1, seg);
      assert seg.(sn := ws.sn) == Received(ws.sn, ws.frg, ws.data);
    }
  }

  lemma ParsePushCases(m: Arith, wnd: int, r: Receiver, s: Segment)
    ensures var early, late := Diff(m, s.sn, r.nxt) < 0, Diff(m, s.sn, Num(m, r.nxt + wnd)) >= 0;
            var r1 := r.(acks := r.acks + [Ack(s.sn, s.ts)]);
            ParsePush(m, wnd, r, s) ==
            if late then r else if early then r1
            else ParseData(m, wnd, r1, Received(s.sn, s.frg, s.data))
  {
  }

  lemma {:induction false} SpanWraps(q: seq<Received>)
    ensures MessageSpan(WrapArrived(q)) == MessageSpan(q)
  {
    if q != [] {
      assert WrapArrived(q)[1..] == WrapArrived(q[1..]);
      SpanWraps(q[1..]);
    }
  }

  lemma {:induction false} PayloadWraps(q: seq<Received>)
    ensures Payload(WrapArrived(q)) == Payload(q)
  {
    if q != [] {
      assert WrapArrived(q)[1..] == WrapArrived(q[1..]);
      PayloadWraps(q[1..]);
    }
  }

  lemma RecvWraps(wnd: int, r: Receiver, cap: int)
    requires Windowed(wnd, r)
    ensures var a, b := Recv(Word, wnd, WrapReceiver(r), cap), Recv(Ideal, wnd, r, cap);
            a == b.(rcv := WrapReceiver(b.rcv))
  {
    var n := MessageSpan(r.queue);
    SpanWraps(r.queue);
    assert WrapArrived(r.queue)[..n] == WrapArrived(r.queue[..n]);
    assert WrapArrived(r.queue)[n..] == WrapArrived(r.queue[n..]);
    PayloadWraps(r.queue[..n]);
    DrainWraps(wnd, r.(queue := r.queue[n..]));
  }

  // ---------------------------------------------------------------- transmission

  lemma TransmitOneWraps(cfg: Config, rto: int, now: int, hdr: Segment, a: Pass, seg: InFlight)
    ensures var w := a.(buf := WrapFlight(a.buf), out := WrapSegments(a.out));
            var b := TransmitOne(cfg, rto, now, hdr, a, seg);
            TransmitOne(cfg, rto, now, WrapSegment(hdr), w, seg.(sn := U32(seg.sn))) ==
            b.(buf := WrapFlight(b.buf), out := WrapSegments(b.out))
  {
    var seg' := Transmit(cfg, rto, now, seg);
    assert Transmit(cfg, rto, now, seg.(sn := U32(seg.sn))) == seg'.(sn := U32(seg.sn));
    assert WrapFlight(a.buf + [seg']) == WrapFlight(a.buf) + [seg'.(sn := U32(seg.sn))];
    assert WrapSegments(a.out + [PushSegment(hdr, seg')]) ==
           WrapSegments(a.out) + [WrapSegment(PushSegment(hdr, seg'))];
  }

  lemma {:induction false} TransmitWraps(cfg: Config, rto: int, now: int, hdr: Segment, buf: seq<InFlight>)
    ensures var a := TransmitAll(cfg, rto, now, WrapSegment(hdr), WrapFlight(buf));
            var b := TransmitAll(cfg, rto, now, hdr, buf);
            a == b.(buf := WrapFlight(b.buf), out := WrapSegments(b.out))
  {
    if buf != [] {
      var n := |buf| - 1;
      assert WrapFlight(buf)[..n] == WrapFlight(buf[..n]);
      TransmitWraps(cfg, rto, now, hdr, buf[..n]);
      TransmitOneWraps(cfg, rto, now, hdr, TransmitAll(cfg, rto, now, hdr, buf[..n]), buf[n]);
    }
  }

  lemma {:induction false} AckSegmentsWraps(hdr: Segment, acks: seq<Ack>)
    ensures AckSegments(WrapSegment(hdr), WrapAcks(acks)) == WrapSegments(AckSegments(hdr, acks))
  {
    if acks != [] {
      var n := |acks| - 1;
      assert WrapAcks(acks)[..n] == WrapAcks(acks[..n]);
      AckSegmentsWraps(hdr, acks[..n]);
    }
  }

  lemma WrapSegmentsAppend(a: seq<Segment>, b: seq<Segment>)
    ensures WrapSegments(a + b) == WrapSegments(a) + WrapSegments(b)
  {
  }

  lemma ControlWraps(hdr: Segment, acks: seq<Ack>, p: Pace)
    ensures ControlSegments(WrapSegment(hdr), WrapAcks(acks), p) == WrapSegments(ControlSegments(hdr, acks, p))
  {
    AckSegmentsWraps(hdr, acks);
    var ph := ProbeHeader(hdr, acks);
    assert ProbeHeader(WrapSegment(hdr), WrapAcks(acks)) == WrapSegment(ph);
    assert ProbeSegments(WrapSegment(ph), p) == WrapSegments(ProbeSegments(ph, p));
    WrapSegmentsAppend(AckSegments(hdr, acks), ProbeSegments(ph, p));
  }

  /** The numbering and transmission passes of the 32-bit endpoint. */
  lemma PassWraps(cfg: Config, s: Sender, hdr: Segment, cwnd: int, now: int, rto: int)
    requires 0 <= cwnd <= 65536 && s.una <= s.nxt <= s.una + 65536
    ensures var a, b := Fill(Word, WrapSender(s), cwnd, now, rto), Fill(Ideal, s, cwnd, now, rto);
            var ta, tb := TransmitAll(cfg, rto, now, WrapSegment(hdr), a.buf), TransmitAll(cfg, rto, now, hdr, b.buf);
            && a == WrapSender(b)
            && ta == tb.(buf := WrapFlight(tb.buf), out := WrapSegments(tb.out))
  {
    FillWraps(s, cwnd, now, rto);
    TransmitWraps(cfg, rto, now, hdr, Fill(Ideal, s, cwnd, now, rto).buf);
  }

  lemma AssembleWraps(e: Endpoint, p: Pace, s: Sender, inflight: int, t: Pass, control: seq<Segment>)
    ensures var a := Assemble(WrapEndpoint(e), p, WrapSender(s), inflight,
                              t.(buf := WrapFlight(t.buf), out := WrapSegments(t.out)), WrapSegments(control));
            var b := Assemble(e, p, s, inflight, t, control);
            a.e == WrapEndpoint(b.e) && a.out == WrapSegments(b.out)
  {
    WrapSegmentsAppend(control, t.out);
    assert WrapAcks([]) == [];
  }

  lemma InflightWraps(s: Sender, w: Sender)
    requires s.una <= s.nxt < s.una + W32 && w == WrapSender(s)
    ensures Num(Word, w.nxt - w.una) == s.nxt - s.una
  {
    SubWraps(s.nxt, s.una);
  }

  /** A flush of the 32-bit endpoint is the truncated flush. */
  lemma FlushWraps(e: Endpoint)
    requires e.snd.una <= e.snd.nxt <= e.snd.una + 65536
    requires e.pace.rmtWnd >= 0 && e.pace.cwnd >= 0
    ensures var a, b := Flush(Word, WrapEndpoint(e)), Flush(Ideal, e);
            a.e == WrapEndpoint(b.e) && a.out == WrapSegments(b.out)
  {
    hide Fill, TransmitAll, AfterFlush, UnusedWindow, ControlSegments, Probe, WrapFlight, WrapArrived, WrapAcks,
      WrapSegments;
    if e.pace.updated {
      var hdr, p := Header(e), Probed(e.pace);
      var w := WrapEndpoint(e);
      HeaderWraps(e, w);
      var cwnd := Window(e.cfg, p);
      PassWraps(e.cfg, e.snd, hdr, cwnd, p.current, p.rto);
      ControlWraps(hdr, e.rcv.acks, Probe(e.pace));
      FillRange(e.snd, cwnd, p.current, p.rto);
      var s := Fill(Ideal, e.snd, cwnd, p.current, p.rto);
      InflightWraps(s, WrapSender(s));
      var t := TransmitAll(e.cfg, p.rto, p.current, hdr, s.buf);
      var ctl := ControlSegments(hdr, e.rcv.acks, Probe(e.pace));
      var tw := t.(buf := WrapFlight(t.buf), out := WrapSegments(t.out));
      AssembleWraps(e, p, s, s.nxt - s.una, t, ctl);
      FlushIs(Ideal, e, hdr, p, s, s.nxt - s.una, t, ctl);
      FlushIs(Word, w, WrapSegment(hdr), p, WrapSender(s), s.nxt - s.una, tw, WrapSegments(ctl));
    }
  }

  lemma HeaderWraps(e: Endpoint, w: Endpoint)
    requires w == WrapEndpoint(e)
    ensures Header(w) == WrapSegment(Header(e))
  {
  }

  lemma {:induction false} FillRange(s: Sender, cwnd: int, now: int, rto: int)
    requires s.una <= s.nxt <= s.una + 65536 && cwnd <= 65536
    ensures var t := Fill(Ideal, s, cwnd, now, rto); t.una == s.una && s.nxt <= t.nxt <= t.una + 65536
    decreases |s.queue|
  {
    if s.nxt - (s.una + cwnd) < 0 && s.queue != [] {
      var seg := InFlight(s.nxt, now, now, rto, 0, 0, s.queue[0]);
      FillRange(Sender(s.una, s.nxt + 1, s.queue[1..], s.buf + [seg]), cwnd, now, rto);
    }
  }
}
