/** The program on true sequence numbers. `Lifted` arithmetic keeps every number
    unbounded and compares by the last 32 bits, so that without any condition the
    32-bit program is its truncation. What an arriving datagram can then do to the
    numbers is visible, however old it is. */
module KcpLift {
  import opened Words
  import opened KcpModel
  import opened KcpWrap

  /** A 32-bit comparison sees the difference modulo 2^32. */
  lemma DiffCut(x: int, y: int)
    ensures Diff(Word, U32(x), U32(y)) == Diff(Lifted, x, y) == S32(x - y)
  {
    SubWraps(x, y);
  }

  /** The window test admits the numbers that lie in the window modulo 2^32. */
  lemma AdmitsModulo(wnd: int, nxt: int, sn: int)
    requires 0 < wnd <= 65536
    ensures Diff(Lifted, sn, nxt + wnd) < 0 && Diff(Lifted, sn, nxt) >= 0 <==> U32(sn - nxt) < wnd
  {
    hide Diff;
    DiffCut(sn, nxt + wnd);
    DiffCut(sn, nxt);
    ShiftBack(sn - nxt, wnd);
  }

  lemma ShiftBack(d: int, wnd: int)
    requires 0 < wnd <= 65536
    ensures U32(d - wnd) == if U32(d) < wnd then U32(d) - wnd + W32 else U32(d) - wnd
  {
    var u, q := U32(d), d / W32;
    assert d - wnd == u - wnd + q * W32;
    ModShift(u - wnd, q);
  }

  lemma {:induction false} DropBeforeCut(buf: seq<InFlight>, una: int)
    ensures DropBefore(Word, WrapFlight(buf), U32(una)) == WrapFlight(DropBefore(Lifted, buf, una))
  {
    hide Diff;
    if buf != [] {
      DiffCut(una, buf[0].sn);
      assert WrapFlight(buf)[1..] == WrapFlight(buf[1..]);
      DropBeforeCut(buf[1..], una);
    }
  }

  lemma {:induction false} DropOneCut(buf: seq<InFlight>, sn: int)
    ensures DropOne(Word, WrapFlight(buf), U32(sn)) == WrapFlight(DropOne(Lifted, buf, sn))
  {
    hide Diff;
    if buf != [] {
      DiffCut(sn, buf[0].sn);
      assert WrapFlight(buf)[1..] == WrapFlight(buf[1..]);
      DropOneCut(buf[1..], sn);
    }
  }

  lemma {:induction false} SkippedCut(buf: seq<InFlight>, sn: int, ts: int)
    ensures Skipped(Word, WrapFlight(buf), U32(sn), ts) == WrapFlight(Skipped(Lifted, buf, sn, ts))
  {
    hide Diff;
    if buf != [] {
      DiffCut(sn, buf[0].sn);
      assert WrapFlight(buf)[1..] == WrapFlight(buf[1..]);
      SkippedCut(buf[1..], sn, ts);
    }
  }

  lemma {:induction false} InsertCut(buf: seq<Received>, seg: Received)
    ensures Insert(Word, WrapArrived(buf), seg.(sn := U32(seg.sn))) == WrapArrived(Insert(Lifted, buf, seg))
  {
    hide Diff;
    if buf != [] {
      var n := |buf| - 1;
      DiffCut(seg.sn, buf[n].sn);
      assert WrapArrived(buf)[..n] == WrapArrived(buf[..n]);
      InsertCut(buf[..n], seg);
    }
  }

  lemma {:induction false} DrainCut(wnd: int, r: Receiver)
    ensures Drain(Word, wnd, WrapReceiver(r)) == WrapReceiver(Drain(Lifted, wnd, r))
    decreases |r.buf|
  {
    if r.buf != [] && Same(Lifted, r.buf[0].sn, r.nxt) && |r.queue| < wnd {
      var r1 := r.(nxt := r.nxt + 1, queue := r.queue + [r.buf[0]], buf := r.buf[1..]);
      DrainCut(wnd, r1);
      StepWraps(r, r1);
    }
  }

  lemma PushCut(wnd: int, r: Receiver, s: Segment)
    ensures ParsePush(Word, wnd, WrapReceiver(r), WrapSegment(s)) == WrapReceiver(ParsePush(Lifted, wnd, r, s))
  {
    hide Diff, Drain, Insert;
    var seg := Received(s.sn, s.frg, s.data);
    AddWraps(r.nxt, wnd);
    DiffCut(s.sn, r.nxt + wnd);
    DiffCut(s.sn, r.nxt);
    InsertCut(r.buf, seg);
    var r1 := r.(acks := r.acks + [Ack(s.sn, s.ts)]);
    AcksCut(r, s);
    DrainCut(wnd, r1.(buf := Insert(Lifted, r.buf, seg)));
  }

  lemma AcksCut(r: Receiver, s: Segment)
    ensures WrapAcks(r.acks + [Ack(s.sn, s.ts)]) == WrapAcks(r.acks) + [Ack(U32(s.sn), s.ts)]
  {
  }

  lemma SenderCut(s: Sender, una: int, sn: int, ts: int)
    ensures ParseUna(Word, WrapSender(s), U32(una)) == WrapSender(ParseUna(Lifted, s, una))
    ensures ParseAck(Word, WrapSender(s), U32(sn)) == WrapSender(ParseAck(Lifted, s, sn))
    ensures ParseFastack(Word, WrapSender(s), U32(sn), ts) == WrapSender(ParseFastack(Lifted, s, sn, ts))
  {
    hide Diff, DropBefore, DropOne, Skipped;
    DropBeforeCut(s.buf, una);
    DropOneCut(s.buf, sn);
    SkippedCut(s.buf, sn, ts);
    DiffCut(sn, s.una);
    DiffCut(sn, s.nxt);
  }

  lemma TakeOneCut(st: Intake, s: Segment)
    ensures TakeSegment(Word, WrapIntake(st), WrapSegment(s)) == WrapIntake(TakeSegment(Lifted, st, s))
  {
    hide Diff, ParseUna, ParseAck, ParsePush, UpdateAck, WrapFlight, WrapArrived, WrapAcks;
    var e := st.e;
    SenderCut(e.snd, s.una, s.sn, 0);
    SenderCut(ParseUna(Lifted, e.snd, s.una), s.una, s.sn, 0);
    PushCut(e.cfg.rcvWnd, e.rcv, s);
    DiffCut(s.sn, st.maxAck);
  }

  lemma {:induction false} TakeAllCut(st: Intake, segs: seq<Segment>)
    ensures TakeSegments(Word, WrapIntake(st), WrapSegments(segs)) == WrapIntake(TakeSegments(Lifted, st, segs))
    decreases |segs|
  {
    hide TakeSegment, WrapIntake;
    if segs != [] {
      TakeOneCut(st, segs[0]);
      assert WrapSegments(segs)[1..] == WrapSegments(segs[1..]);
      TakeAllCut(TakeSegment(Lifted, st, segs[0]), segs[1..]);
    }
  }

  /** Feeding a packet to the program is feeding it to the lifted one, whatever
      numbers it carries. */
  lemma InputCut(e: Endpoint, segs: seq<Segment>)
    ensures Input(Word, WrapEndpoint(e), WrapSegments(segs)) == WrapEndpoint(Input(Lifted, e, segs))
  {
    hide Diff, TakeSegments, ParseFastack, GrowCwnd, WrapFlight, WrapReceiver;
    var st0 := Intake(e, false, 0, 0);
    TakeAllCut(st0, segs);
    var st := TakeSegments(Lifted, st0, segs);
    SenderCut(st.e.snd, 0, st.maxAck, st.latestTs);
    var s := if st.acked then ParseFastack(Lifted, st.e.snd, st.maxAck, st.latestTs) else st.e.snd;
    DiffCut(s.una, e.snd.una);
  }

  /** Receiving is the same in both, too. */
  lemma RecvCut(wnd: int, r: Receiver, cap: int)
    ensures var a, b := Recv(Word, wnd, WrapReceiver(r), cap), Recv(Lifted, wnd, r, cap);
            a == b.(rcv := WrapReceiver(b.rcv))
  {
    hide Drain;
    var n := MessageSpan(r.queue);
    SpanWraps(r.queue);
    assert WrapArrived(r.queue)[..n] == WrapArrived(r.queue[..n]);
    assert WrapArrived(r.queue)[n..] == WrapArrived(r.queue[n..]);
    PayloadWraps(r.queue[..n]);
    DrainCut(wnd, r.(queue := r.queue[n..]));
  }
}
