/** When the program sends a segment again: over every run, datagrams of any age
    included, and told from the outside. A ledger records each transmission as it goes
    out, and computes from those records when the next one is due. */
module KcpResend {
  import opened Words
  import opened KcpModel
  import opened KcpLists
  import opened KcpSystem
  import opened KcpProgram
  import opened KcpRun

  // ---------------------------------------------------------------- the ledger

  /** The last transmission of a number: when it was, its timeout, how long to wait for
      the next, how many there have been, and how often it has been passed over. */
  datatype Entry = Entry(at: int, rto: int, wait: int, times: nat, skips: nat)

  /** What has been sent, and the time of the last update. */
  datatype Book = Book(clock: int, sent: map<int, Entry>)

  /** How a timeout grows: it doubles at least with nodelay 0, grows by half with 1,
      and by half of the current estimate otherwise. */
  function Grown(nodelay: int, estimate: int, rto: int): int {
    if nodelay == 0 then rto + Max(rto, estimate)
    else if nodelay == 1 then rto + rto / 2
    else rto + estimate / 2
  }

  /** The wait is over. Time is told by a 32-bit clock, and it is for 2^31 milliseconds. */
  predicate Overdue(en: Entry, now: int) { en.wait <= U32(now - en.at) < en.wait + H32 }

  /** The record of a transmission at `now` when the round-trip estimate allows `estimate`:
      the first one, one because the wait was over, or a fast one. */
  function Record(cfg: Config, estimate: int, now: int, sent: map<int, Entry>, sn: int): Entry {
    if sn !in sent then Entry(now, estimate, estimate + (if cfg.nodelay == 0 then estimate / 8 else 0), 1, 0)
    else
      var en := sent[sn];
      if Overdue(en, now) then
        var rto := Grown(cfg.nodelay, estimate, en.rto);
        Entry(now, rto, rto, en.times + 1, en.skips)
      else Entry(now, en.rto, en.rto, en.times + 1, 0)
  }

  /** The acknowledgement that counts for a packet, after `c`: the first, until one is
      later both in number and in time. */
  function Chosen(c: Option<Ack>, segs: seq<Segment>): Option<Ack>
    decreases |segs|
  {
    if segs == [] then c
    else
      var a := segs[0];
      var later := c.None? || (S32(a.sn - c.value.sn) > 0 && S32(a.ts - c.value.ts) > 0);
      Chosen(if a.cmd == CMD_ACK && later then Some(Ack(a.sn, a.ts)) else c, segs[1..])
  }

  datatype Option<T> = None | Some(value: T)

  /** A packet passes over number `sn`, last sent at `at`, if the acknowledgement that
      counts is for a later number in the send window and not for an earlier time. */
  ghost predicate PassesOver(s: Sender, segs: seq<Segment>, sn: int, at: int) {
    var c := Chosen(None, segs);
    c.Some? && sn - s.una < U32(c.value.sn - s.una) < s.nxt - s.una && TimeDiff(c.value.ts, at) >= 0
  }

  /** Number `sn` is carried by what `x'` has sent and `x` had not. */
  ghost predicate Pushes(x: Node, x': Node, sn: int) {
    exists s :: Sends(x, x', s) && s.cmd == CMD_PUSH && s.sn == sn
  }

  ghost function Noted(x: Node, peer: Node, x': Node, act: Action, b: Book): Book {
    var now := if act.UpdateAt? then act.now else b.clock;
    Book(now, map sn | 0 <= sn < x'.e.snd.nxt && (sn in b.sent || Pushes(x, x', sn)) ::
                if Pushes(x, x', sn) then Record(x.e.cfg, x.e.pace.rto, now, b.sent, sn)
                else if act.Deliver? && act.k < |peer.out| then Counted(x'.e.snd, peer.out[act.k], sn, b.sent[sn])
                else b.sent[sn])
  }

  ghost function Counted(s: Sender, segs: seq<Segment>, sn: int, en: Entry): Entry {
    if PassesOver(s, segs, sn, en.at) then en.(skips := en.skips + 1) else en
  }

  ghost function Ledger(s: System, acts: seq<Action>, who: Side, b: Book): Book
    decreases |acts|
  {
    if acts == [] then b
    else
      var t := LiftedStep(s, acts[0]);
      Ledger(t, acts[1..], who,
             if acts[0].who == who then Noted(Of(s, who), Of(s, Other(who)), Of(t, who), acts[0], b) else b)
  }

  // ---------------------------------------------------------------- entries and segments

  /** Timeouts below 2^31 have not been truncated. */
  predicate Sound(en: Entry) { en.rto < H32 && en.times < H32 }

  /** Segment `f` of the send buffer agrees with its record. */
  predicate Tracks(f: InFlight, en: Entry) {
    && f.ts == en.at && f.resendts == U32(en.at + en.wait) && f.rto == en.rto && f.xmit == en.times
    && f.fastack == U32(en.skips)
  }

  /** The largest timeout after `n` more transmissions. */
  function Doubled(n: nat): nat { if n == 0 then RTO_MAX else 2 * Doubled(n - 1) }

  predicate EntryOk(en: Entry) {
    && 0 <= en.at < W32 && 0 < en.rto && 1 <= en.times && en.rto <= Doubled(en.times - 1)
    && en.rto <= en.wait && (en.wait == en.rto || (en.rto <= RTO_MAX && en.wait <= en.rto + RTO_MAX))
  }

  /** No timeout is truncated before the 21st transmission. */
  lemma EarlyIsSound(en: Entry)
    requires EntryOk(en) && en.times <= 20
    ensures Sound(en)
  {
    DoubledGrows(en.times - 1, 19);
    assert Doubled(19) == 2097152000 by {
      DoubledIs();
    }
  }

  lemma {:induction false} DoubledGrows(a: nat, b: nat)
    requires a <= b
    ensures Doubled(a) <= Doubled(b)
    decreases b
  {
    if a < b {
      DoubledGrows(a, b - 1);
    }
  }

  lemma DoubledIs()
    ensures Doubled(19) == 2097152000
  {
    assert Doubled(4) == 64000;
    assert Doubled(8) == 1024000;
    assert Doubled(12) == 16384000;
    assert Doubled(16) == 262144000;
  }

  /** The test of ikcp_flush is whether the wait is over. */
  lemma DueIs(f: InFlight, en: Entry, now: int)
    requires EntryOk(en) && Sound(en) && Tracks(f, en)
    ensures TimeDiff(now, f.resendts) >= 0 <==> Overdue(en, now)
  {
    ElapsedIs(now, en.at, en.wait);
  }

  lemma ElapsedIs(now: int, at: int, wait: int)
    requires 0 <= wait < H32
    ensures S32(now - U32(at + wait)) >= 0 <==> wait <= U32(now - at) < wait + H32
  {
    var u := U32(now - at);
    var q, r := (now - at) / W32, (at + wait) / W32;
    assert now - U32(at + wait) == (u - wait) + (q + r) * W32;
    ModShift(u - wait, q + r);
    assert U32(u - wait) == if u >= wait then u - wait else u - wait + W32;
  }

  /** A segment may also go out early, for acknowledgements that passed it over. */
  predicate Fast(cfg: Config, en: Entry) {
    && U32(en.skips) >= (if cfg.fastResend > 0 then cfg.fastResend else 0xffff_ffff)
    && (en.times <= cfg.fastLimit || cfg.fastLimit <= 0)
  }

  lemma DueExactly(cfg: Config, f: InFlight, en: Entry, now: int)
    requires EntryOk(en) && Sound(en) && Tracks(f, en)
    ensures !Due(cfg, now, f).Quiet? <==> Overdue(en, now) || Fast(cfg, en)
    ensures Due(cfg, now, f).Timeout? <==> Overdue(en, now)
    ensures !Due(cfg, now, f).First?
  {
    hide TimeDiff, Overdue;
    DueIs(f, en, now);
  }

  /** Transmitting a segment again makes it agree with its new record. */
  lemma AgainTracks(cfg: Config, estimate: int, now: int, f: InFlight, sent: map<int, Entry>)
    requires f.sn in sent && EntryOk(sent[f.sn]) && 0 < estimate <= RTO_MAX && 0 <= now < W32
    requires Sound(sent[f.sn]) && Tracks(f, sent[f.sn]) && Sound(Record(cfg, estimate, now, sent, f.sn))
    requires !Due(cfg, now, f).Quiet?
    ensures Tracks(Transmit(cfg, estimate, now, f), Record(cfg, estimate, now, sent, f.sn))
  {
    hide Overdue, Due;
    DueExactly(cfg, f, sent[f.sn], now);
    if Overdue(sent[f.sn], now) {
      BackoffIs(cfg, estimate, f.rto);
    }
  }

  lemma BackoffIs(cfg: Config, estimate: int, rto: int)
    requires 0 < estimate <= RTO_MAX && 0 < rto < H32 && Grown(cfg.nodelay, estimate, rto) < H32
    ensures Backoff(cfg, estimate, rto) == Grown(cfg.nodelay, estimate, rto)
  {
    hide U32, S32, TruncDiv;
    Small(estimate);
    Small(rto);
    Small(Grown(cfg.nodelay, estimate, rto));
    Halves(estimate);
    Halves(rto);
  }

  lemma Small(x: int)
    requires 0 <= x < H32
    ensures U32(x) == x && S32(x) == x
  {
  }

  lemma Halves(x: int)
    requires 0 <= x
    ensures TruncDiv(x, 2) == x / 2
  {
  }

  lemma FirstTracks(cfg: Config, estimate: int, now: int, f: InFlight, sent: map<int, Entry>)
    requires f.sn !in sent && 0 < estimate <= RTO_MAX && f.xmit == 0 && f.fastack == 0
    ensures Tracks(Transmit(cfg, estimate, now, f), Record(cfg, estimate, now, sent, f.sn))
  {
  }

  lemma RecordOk(cfg: Config, estimate: int, now: int, sent: map<int, Entry>, sn: int)
    requires 0 < estimate <= RTO_MAX && 0 <= now < W32 && (sn in sent ==> EntryOk(sent[sn]))
    ensures EntryOk(Record(cfg, estimate, now, sent, sn))
    ensures sn in sent && Sound(Record(cfg, estimate, now, sent, sn)) ==> Sound(sent[sn])
  {
    hide Overdue;
    if sn in sent {
      DoubledGrows(0, sent[sn].times - 1);
    }
  }

  // ---------------------------------------------------------------- one pass

  lemma {:induction false} TransmitEach(cfg: Config, rto: int, now: int, hdr: Segment, buf: seq<InFlight>, i: nat)
    requires i < |buf|
    ensures var t := TransmitAll(cfg, rto, now, hdr, buf); |t.buf| == |buf| && t.buf[i] == Transmit(cfg, rto, now, buf[i])
  {
    hide Transmit, Due;
    var n := |buf| - 1;
    TransmitLine(cfg, rto, now, hdr, buf[..n]);
    if i < n {
      TransmitEach(cfg, rto, now, hdr, buf[..n], i);
    }
  }

  lemma {:induction false} TransmitOnly(cfg: Config, rto: int, now: int, hdr: Segment, buf: seq<InFlight>, o: Segment)
    returns (i: nat)
    requires o in TransmitAll(cfg, rto, now, hdr, buf).out
    ensures i < |buf| && !Due(cfg, now, buf[i]).Quiet? && o.sn == buf[i].sn && o.cmd == CMD_PUSH
  {
    hide Due;
    var n := |buf| - 1;
    if o in TransmitAll(cfg, rto, now, hdr, buf[..n]).out {
      i := TransmitOnly(cfg, rto, now, hdr, buf[..n], o);
    } else {
      i := n;
    }
  }

  /** What a flush does with the buffer: `buf` is it with the newly numbered segments. */
  ghost predicate Passed(e: Endpoint, f: FlushResult, buf: seq<InFlight>) {
    && e.snd.buf <= buf && |f.e.snd.buf| == |buf| && f.e.snd.nxt == e.snd.nxt + (|buf| - |e.snd.buf|)
    && (forall i :: |e.snd.buf| <= i < |buf| ==>
          buf[i].sn == e.snd.nxt + (i - |e.snd.buf|) && buf[i].xmit == 0 && buf[i].fastack == 0)
    && (forall i :: 0 <= i < |buf| ==> f.e.snd.buf[i] == Transmit(e.cfg, e.pace.rto, e.pace.current, buf[i]))
    && (forall i :: 0 <= i < |buf| && !Due(e.cfg, e.pace.current, buf[i]).Quiet? ==> Carried(f.out, buf[i].sn))
    && (forall o :: o in f.out && o.cmd == CMD_PUSH ==> Called(e.cfg, e.pace.current, buf, o.sn))
    && f.e.pace.rto == e.pace.rto && f.e.pace.current == e.pace.current && f.e.pace.updated
  }

  /** A segment with number `sn` is due. */
  ghost predicate Called(cfg: Config, now: int, buf: seq<InFlight>, sn: int) {
    exists i :: 0 <= i < |buf| && buf[i].sn == sn && !Due(cfg, now, buf[i]).Quiet?
  }

  lemma FillNumbers(s: Sender, cwnd: int, now: int, rto: int)
    ensures var t, n := Fill(Ideal, s, cwnd, now, rto), |s.buf|;
            && s.buf <= t.buf && t.nxt == s.nxt + (|t.buf| - n)
            && (forall i :: n <= i < |t.buf| ==>
                  t.buf[i].sn == s.nxt + (i - n) && t.buf[i].xmit == 0 && t.buf[i].fastack == 0)
  {
    hide Fill;
    var k := FillSpec(s, cwnd, now, rto);
    var t, n := Fill(Ideal, s, cwnd, now, rto), |s.buf|;
    forall i | n <= i < |t.buf| ensures t.buf[i].sn == s.nxt + (i - n) && t.buf[i].xmit == 0 && t.buf[i].fastack == 0 {
      var j := i - n;
      assert t.buf[n + j] == InFlight(s.nxt + j, now, now, rto, 0, 0, s.queue[j]);
    }
  }

  /** What the transmission pass does with it. */
  lemma PassIs(cfg: Config, rto: int, now: int, hdr: Segment, buf: seq<InFlight>, ctl: seq<Segment>)
    requires forall s :: s in ctl ==> s.cmd != CMD_PUSH
    ensures var t := TransmitAll(cfg, rto, now, hdr, buf);
            && |t.buf| == |buf| && (forall i :: 0 <= i < |buf| ==> t.buf[i] == Transmit(cfg, rto, now, buf[i]))
            && (forall i :: 0 <= i < |buf| && !Due(cfg, now, buf[i]).Quiet? ==> Carried(ctl + t.out, buf[i].sn))
            && (forall o :: o in ctl + t.out && o.cmd == CMD_PUSH ==> Called(cfg, now, buf, o.sn))
  {
    hide TransmitAll, Due, Transmit;
    var t := TransmitAll(cfg, rto, now, hdr, buf);
    TransmitSpec(cfg, rto, now, hdr, buf);
    forall i | 0 <= i < |buf| ensures t.buf[i] == Transmit(cfg, rto, now, buf[i]) {
      TransmitEach(cfg, rto, now, hdr, buf, i);
    }
    forall i | 0 <= i < |buf| && !Due(cfg, now, buf[i]).Quiet? ensures Carried(ctl + t.out, buf[i].sn) {
      CarriedMore(ctl, t.out, buf[i].sn);
    }
    forall o | o in ctl + t.out && o.cmd == CMD_PUSH ensures Called(cfg, now, buf, o.sn) {
      var i := TransmitOnly(cfg, rto, now, hdr, buf, o);
    }
  }

  lemma FlushPasses(e: Endpoint) returns (buf: seq<InFlight>)
    requires e.pace.updated
    ensures Passed(e, Flush(Ideal, e), buf)
    ensures buf == Fill(Ideal, e.snd, Window(e.cfg, Probed(e.pace)), e.pace.current, e.pace.rto).buf
  {
    hide Fill, TransmitAll, ControlSegments, Window, Resent, U32, U16, UnusedWindow, Due, Transmit, Carried, Called;
    var hdr, p := Header(e), Probed(e.pace);
    FillNumbers(e.snd, Window(e.cfg, p), p.current, p.rto);
    buf := Fill(Ideal, e.snd, Window(e.cfg, p), p.current, p.rto).buf;
    ControlsOnly(hdr, e.rcv.acks, Probe(e.pace));
    PassIs(e.cfg, p.rto, p.current, hdr, buf, ControlSegments(hdr, e.rcv.acks, Probe(e.pace)));
  }

  lemma ControlsOnly(hdr: Segment, acks: seq<Ack>, p: Pace)
    requires hdr.cmd == CMD_ACK
    ensures forall s :: s in ControlSegments(hdr, acks, p) ==> s.cmd != CMD_PUSH
  {
    AcksAreAcks(hdr, acks);
  }

  // ---------------------------------------------------------------- the invariant

  /** Each buffered segment has a record, which it agrees with as long as that is sound. */
  ghost predicate Timed(x: Node, b: Book) {
    && (forall i :: 0 <= i < |x.e.snd.buf| ==> Booked(x.e.snd.buf[i], b.sent))
    && (forall sn :: sn in b.sent ==> 0 <= sn < x.e.snd.nxt && EntryOk(b.sent[sn]))
    && (x.e.pace.updated ==> b.clock == x.e.pace.current) && 0 < x.e.pace.rto <= RTO_MAX
  }

  ghost predicate Booked(f: InFlight, sent: map<int, Entry>) {
    f.sn in sent && (Sound(sent[f.sn]) ==> Tracks(f, sent[f.sn]))
  }

  // ---------------------------------------------------------------- acknowledgements

  /** A number that lies in the send window modulo 2^32 compares with the numbers in it
      by its place there. */
  lemma PlaceIs(m: int, una: int, nxt: int, sn: int)
    requires una <= sn < nxt <= una + 65536 && U32(m - una) < nxt - una
    ensures Diff(Lifted, m, sn) == una + U32(m - una) - sn && (Same(Lifted, m, sn) <==> una + U32(m - una) == sn)
  {
    var a, q := U32(m - una), (m - una) / W32;
    assert m - sn == (una + a - sn) + q * W32;
    ModShift(una + a - sn, q);
    assert m == (una + a) + q * W32;
    ModShift(una + a, q);
    WrapInjective(una + a, sn);
  }

  /** The window test of ikcp_parse_fastack, modulo 2^32. */
  lemma InWindowIs(s: Sender, m: int)
    requires s.una <= s.nxt <= s.una + 65536
    ensures InSendWindow(Lifted, s, m) <==> U32(m - s.una) < s.nxt - s.una
  {
    var a, q, w := U32(m - s.una), (m - s.una) / W32, s.nxt - s.una;
    assert m - s.nxt == (a - w) + q * W32;
    ModShift(a - w, q);
    assert U32(a - w) == if a >= w then a - w else a - w + W32;
  }

  lemma {:induction false} SkippedIs(buf: seq<InFlight>, m: int, ts: int, top: int, i: nat)
    requires i < |buf| && SortedFlight(buf)
    requires forall f :: f in buf ==> Diff(Lifted, m, f.sn) == top - f.sn && (Same(Lifted, m, f.sn) <==> top == f.sn)
    ensures var r := Skipped(Lifted, buf, m, ts);
            && |r| == |buf|
            && r[i] == buf[i].(fastack := if buf[i].sn < top && TimeDiff(ts, buf[i].ts) >= 0
                                          then U32(buf[i].fastack + 1) else buf[i].fastack)
  {
    hide Diff, Same, TimeDiff, U32;
    SkippedSpec(Lifted, buf, m, ts);
    assert buf[0] in buf;
    if i > 0 {
      if Diff(Lifted, m, buf[0].sn) < 0 {
        assert buf[0].sn < buf[i].sn;
      } else {
        SkippedIs(buf[1..], m, ts, top, i - 1);
      }
    }
  }

  /** Segment `g` is segment `f` after a packet. */
  ghost predicate Acked(s: Sender, segs: seq<Segment>, f: InFlight, g: InFlight) {
    g == f.(fastack := if PassesOver(s, segs, f.sn, f.ts) then U32(f.fastack + 1) else f.fastack)
  }

  lemma FastackIs(s: Sender, log: seq<seq<byte>>, segs: seq<Segment>, g: InFlight) returns (f: InFlight)
    requires SenderOk(s, log) && s.una <= s.nxt <= s.una + 65536 && Chosen(None, segs).Some?
    requires var a := Chosen(None, segs).value; g in ParseFastack(Lifted, s, a.sn, a.ts).buf
    ensures f in s.buf && Acked(s, segs, f, g)
  {
    hide InSendWindow, Skipped, TimeDiff, Chosen, U32, Diff, Same;
    var a := Chosen(None, segs).value;
    InWindowIs(s, a.sn);
    if InSendWindow(Lifted, s, a.sn) {
      var r, top := Skipped(Lifted, s.buf, a.sn, a.ts), s.una + U32(a.sn - s.una);
      SkippedSpec(Lifted, s.buf, a.sn, a.ts);
      var i :| 0 <= i < |r| && r[i] == g;
      f := s.buf[i];
      PlacesAre(s, log, a.sn, top);
      SkippedIs(s.buf, a.sn, a.ts, top, i);
    } else {
      f := g;
    }
  }

  lemma PlacesAre(s: Sender, log: seq<seq<byte>>, m: int, top: int)
    requires SenderOk(s, log) && s.nxt - s.una <= 65536 && top == s.una + U32(m - s.una) < s.nxt
    ensures forall f :: f in s.buf ==> Diff(Lifted, m, f.sn) == top - f.sn && (Same(Lifted, m, f.sn) <==> top == f.sn)
  {
    hide Diff, Same, U32;
    forall f | f in s.buf ensures Diff(Lifted, m, f.sn) == top - f.sn && (Same(Lifted, m, f.sn) <==> top == f.sn) {
      var j :| 0 <= j < |s.buf| && s.buf[j] == f;
      assert j == 0 || s.buf[0].sn < s.buf[j].sn;
      PlaceIs(m, s.una, s.nxt, f.sn);
    }
  }

  lemma {:induction false} ChosenIs(st: Intake, segs: seq<Segment>)
    ensures var st' := TakeSegments(Lifted, st, segs);
            Chosen(if st.acked then Some(Ack(st.maxAck, st.latestTs)) else None, segs) ==
            if st'.acked then Some(Ack(st'.maxAck, st'.latestTs)) else None
    decreases |segs|
  {
    hide ParseUna, ParseAck, ParsePush, UpdateAck, S32;
    if segs != [] {
      ChosenIs(TakeSegment(Lifted, st, segs[0]), segs[1..]);
    }
  }

  /** What a packet leaves of an endpoint: nothing new in the buffer, the same clock. */
  ghost predicate Thinned(e: Endpoint, e': Endpoint) {
    && (forall g :: g in e'.snd.buf ==> g in e.snd.buf) && e'.snd.nxt == e.snd.nxt
    && e'.pace.current == e.pace.current && e'.pace.updated == e.pace.updated && 0 < e'.pace.rto <= RTO_MAX
    && e'.cfg == e.cfg
  }

  lemma UnaThins(m: Arith, s: Sender, una: int)
    ensures var t := ParseUna(m, s, una); (forall g :: g in t.buf ==> g in s.buf) && t.nxt == s.nxt
  {
    hide DropBefore;
    var k := DropBeforeSuffix(m, s.buf, una);
  }

  lemma AckThins(m: Arith, s: Sender, sn: int)
    ensures var t := ParseAck(m, s, sn); (forall g :: g in t.buf ==> g in s.buf) && t.nxt == s.nxt
  {
    hide DropOne, InSendWindow;
    var k := DropOneLess(m, s.buf, sn);
  }

  lemma TakeThins(m: Arith, e: Endpoint, st: Intake, s: Segment)
    requires Thinned(e, st.e)
    ensures Thinned(e, TakeSegment(m, st, s).e)
  {
    hide ParseUna, ParseAck, ParsePush, UpdateAck;
    UnaThins(m, st.e.snd, s.una);
    AckThins(m, ParseUna(m, st.e.snd, s.una), s.sn);
  }

  lemma {:induction false} TakeAllTimers(m: Arith, e: Endpoint, st: Intake, segs: seq<Segment>)
    requires Thinned(e, st.e)
    ensures Thinned(e, TakeSegments(m, st, segs).e)
    decreases |segs|
  {
    hide Thinned, TakeSegment;
    if segs != [] {
      TakeThins(m, e, st, segs[0]);
      TakeAllTimers(m, e, TakeSegment(m, st, segs[0]), segs[1..]);
    }
  }

  /** What a packet does to a buffered segment, as long as it stays. */
  ghost predicate AllAcked(e: Endpoint, segs: seq<Segment>, e': Endpoint) {
    forall g :: g in e'.snd.buf ==> exists f :: f in e.snd.buf && Acked(e'.snd, segs, f, g)
  }

  lemma InputTimers(e: Endpoint, segs: seq<Segment>, log: seq<seq<byte>>)
    requires 0 < e.pace.rto <= RTO_MAX && SenderOk(e.snd, log) && e.snd.una <= e.snd.nxt <= e.snd.una + 65536
    ensures var e' := Input(Lifted, e, segs);
            && AllAcked(e, segs, e') && e'.snd.nxt == e.snd.nxt
            && e'.pace.current == e.pace.current && e'.pace.updated == e.pace.updated && 0 < e'.pace.rto <= RTO_MAX
  {
    hide TakeSegments, ParseFastack, SenderOk, Chosen, Acked;
    var st0 := Intake(e, false, 0, 0);
    var st, e' := TakeSegments(Lifted, st0, segs), Input(Lifted, e, segs);
    TakeAllTimers(Lifted, e, st0, segs);
    TakeAllNarrows(e, st0, segs, log);
    ChosenIs(st0, segs);
    FastackNumbers(Lifted, st.e.snd, st.maxAck, st.latestTs);
    forall g | g in e'.snd.buf ensures exists f :: f in e.snd.buf && Acked(e'.snd, segs, f, g) {
      if st.acked {
        var f := FastackIs(st.e.snd, log, segs, g);
        AckedBy(st.e.snd, e'.snd, segs, f, g);
      } else {
        NoneAcked(e'.snd, segs, g);
      }
    }
  }

  lemma AckedBy(s: Sender, t: Sender, segs: seq<Segment>, f: InFlight, g: InFlight)
    requires Acked(s, segs, f, g) && s.una == t.una && s.nxt == t.nxt
    ensures Acked(t, segs, f, g)
  {
  }

  lemma NoneAcked(s: Sender, segs: seq<Segment>, g: InFlight)
    requires Chosen(None, segs).None?
    ensures Acked(s, segs, g, g)
  {
  }

  lemma FastackNumbers(m: Arith, s: Sender, sn: int, ts: int)
    ensures ParseFastack(m, s, sn, ts).nxt == s.nxt && ParseFastack(m, s, sn, ts).una == s.una
  {
  }

  // ---------------------------------------------------------------- one action

  /** An action that sends nothing and delivers nothing leaves the records as they are. */
  lemma QuietTimed(x: Node, peer: Node, x': Node, act: Action, b: Book)
    requires Timed(x, b) && x'.out == x.out && x'.e.snd.buf == x.e.snd.buf && x'.e.snd.nxt == x.e.snd.nxt
    requires !(act.Deliver? && act.k < |peer.out|) && x'.e.pace.rto == x.e.pace.rto
    requires if act.UpdateAt? then x'.e.pace.current == act.now
             else x'.e.pace.current == x.e.pace.current && x'.e.pace.updated == x.e.pace.updated
    ensures Timed(x', Noted(x, peer, x', act, b))
  {
    hide EntryOk, Booked, Record;
    assert forall sn :: !Pushes(x, x', sn);
    assert Noted(x, peer, x', act, b).sent == b.sent;
  }

  /** A delivery changes only how often a number has been passed over. */
  lemma DeliverTimed(x: Node, peer: Node, act: Action, b: Book)
    requires Sane(x) && Timed(x, b) && act.Deliver? && act.k < |peer.out|
    ensures var x' := LiftedAct(x, peer, act); Timed(x', Noted(x, peer, x', act, b))
  {
    hide EntryOk, Tracks, Sound, Record, Input, Acked, SenderOk, WireOk;
    var x', segs := LiftedAct(x, peer, act), peer.out[act.k];
    SenderSpan(x);
    InputTimers(x.e, segs, x.log);
    assert forall sn :: !Pushes(x, x', sn);
    var b' := Noted(x, peer, x', act, b);
    forall sn | sn in b'.sent ensures EntryOk(b'.sent[sn]) {
      CountedOk(x'.e.snd, segs, sn, b.sent[sn]);
    }
    forall i | 0 <= i < |x'.e.snd.buf| ensures Booked(x'.e.snd.buf[i], b'.sent) {
      var g := x'.e.snd.buf[i];
      assert g in x'.e.snd.buf;
      var f :| f in x.e.snd.buf && Acked(x'.e.snd, segs, f, g);
      var j :| 0 <= j < |x.e.snd.buf| && x.e.snd.buf[j] == f;
      CountedTracks(x'.e.snd, segs, f, g, b.sent[f.sn]);
    }
  }

  lemma CountedOk(s: Sender, segs: seq<Segment>, sn: int, en: Entry)
    requires EntryOk(en)
    ensures EntryOk(Counted(s, segs, sn, en))
  {
  }

  lemma CountedTracks(s: Sender, segs: seq<Segment>, f: InFlight, g: InFlight, en: Entry)
    requires Acked(s, segs, f, g)
    ensures g.sn == f.sn && (Sound(Counted(s, segs, f.sn, en)) <==> Sound(en))
    ensures Tracks(f, en) ==> Tracks(g, Counted(s, segs, f.sn, en))
  {
    hide PassesOver;
    AddWraps(en.skips, 1);
  }

  /** What is pushed is what is due. */
  lemma PushedIsCalled(x: Node, e: Endpoint, buf: seq<InFlight>, i: nat)
    requires Sane(x) && e == x.e.(pace := e.pace) && EndpointOnWire(e) && Passed(e, Flush(Ideal, e), buf)
    requires i < |buf| && Distinct(buf)
    ensures Pushes(x, Emit(x, Flush(Ideal, e)), buf[i].sn) <==> !Due(e.cfg, e.pace.current, buf[i]).Quiet?
  {
    hide Sane, Flush, Emit, Sends, EndpointOnWire, Due, Transmit;
    var x', f := Emit(x, Flush(Ideal, e)), Flush(Ideal, e);
    forall s ensures Sends(x, x', s) <==> s in f.out {
      FlushSends(x, e, s);
    }
    if Pushes(x, x', buf[i].sn) {
      var s :| Sends(x, x', s) && s.cmd == CMD_PUSH && s.sn == buf[i].sn;
      assert Called(e.cfg, e.pace.current, buf, s.sn);
    }
    if !Due(e.cfg, e.pace.current, buf[i]).Quiet? {
      assert Carried(f.out, buf[i].sn);
      var j :| 0 <= j < |f.out| && f.out[j].cmd == CMD_PUSH && f.out[j].sn == buf[i].sn;
      assert f.out[j] in f.out;
    }
  }

  ghost predicate Distinct(buf: seq<InFlight>) {
    forall i, j :: 0 <= i < |buf| && 0 <= j < |buf| && buf[i].sn == buf[j].sn ==> i == j
  }

  lemma PassedDistinct(x': Node, e: Endpoint, f: FlushResult, buf: seq<InFlight>)
    requires Sane(x') && x'.e == f.e && Passed(e, f, buf)
    ensures Distinct(buf)
  {
    hide Due, WireOk, Carried, Called;
    forall i | 0 <= i < |buf| ensures buf[i].sn == f.e.snd.buf[i].sn {}
    assert SortedFlight(f.e.snd.buf);
  }

  /** One buffered segment through a flush. */
  lemma FlushBooks(cfg: Config, estimate: int, now: int, f: InFlight, sent: map<int, Entry>, nxt: int)
    requires 0 < estimate <= RTO_MAX && 0 <= now < W32
    requires if f.sn < nxt then Booked(f, sent) && EntryOk(sent[f.sn]) else f.sn !in sent && f.xmit == 0 && f.fastack == 0
    ensures var en := if Due(cfg, now, f).Quiet?
                      then (if f.sn in sent then sent[f.sn] else Record(cfg, estimate, now, sent, f.sn))
                      else Record(cfg, estimate, now, sent, f.sn);
            Sound(en) ==> Tracks(Transmit(cfg, estimate, now, f), en)
  {
    hide EntryOk, Tracks, Sound, Record, Due;
    if f.sn !in sent {
      FirstTracks(cfg, estimate, now, f, sent);
    } else if Due(cfg, now, f).Quiet? {
      QuietStays(cfg, estimate, now, f);
    } else if Sound(Record(cfg, estimate, now, sent, f.sn)) {
      RecordOk(cfg, estimate, now, sent, f.sn);
      AgainTracks(cfg, estimate, now, f, sent);
    }
  }

  lemma QuietStays(cfg: Config, estimate: int, now: int, f: InFlight)
    requires Due(cfg, now, f).Quiet?
    ensures Transmit(cfg, estimate, now, f) == f
  {
  }

  lemma FlushTimed(x: Node, peer: Node, e: Endpoint, act: Action, b: Book)
    requires Sane(x) && Timed(x, b) && (act.UpdateAt? || act.FlushNow?) && e == Clocked(x.e, act) && e.pace.updated
    ensures var x' := Emit(x, Flush(Ideal, e)); Timed(x', Noted(x, peer, x', act, b))
  {
    hide Sane, Flush, EndpointOnWire, TickAt, Due, Transmit, EntryOk, Tracks, Sound, Record, Pushes;
    var x', now := Emit(x, Flush(Ideal, e)), e.pace.current;
    ClockedWire(x, act);
    EmitSane(x, e);
    var buf := FlushPasses(e);
    PassedDistinct(x', e, Flush(Ideal, e), buf);
    InBuffer(x');
    WireClock(e);
    var b' := Noted(x, peer, x', act, b);
    assert b'.clock == now;
    forall sn | sn in b'.sent ensures EntryOk(b'.sent[sn]) {
      RecordOk(x.e.cfg, x.e.pace.rto, now, b.sent, sn);
    }
    forall i | 0 <= i < |buf| ensures Booked(x'.e.snd.buf[i], b'.sent) {
      TransmitKeeps(x.e.cfg, x.e.pace.rto, now, buf[i]);
      FlushOne(x, peer, e, act, b, buf, i);
    }
  }

  lemma WireClock(e: Endpoint)
    requires EndpointOnWire(e)
    ensures 0 <= e.pace.current < W32
  {
  }

  lemma InBuffer(x: Node)
    requires Sane(x)
    ensures forall i :: 0 <= i < |x.e.snd.buf| ==> 0 <= x.e.snd.buf[i].sn < x.e.snd.nxt
  {
    hide WireOk;
    forall i | 0 <= i < |x.e.snd.buf| ensures 0 <= x.e.snd.buf[i].sn < x.e.snd.nxt {
      assert x.e.snd.buf[i] in x.e.snd.buf;
    }
  }

  lemma FlushOne(x: Node, peer: Node, e: Endpoint, act: Action, b: Book, buf: seq<InFlight>, i: nat)
    requires Sane(x) && Timed(x, b) && (act.UpdateAt? || act.FlushNow?) && e == Clocked(x.e, act) && e.pace.updated
    requires Passed(e, Flush(Ideal, e), buf) && i < |buf| && Distinct(buf)
    requires 0 <= buf[i].sn < Flush(Ideal, e).e.snd.nxt
    ensures var x' := Emit(x, Flush(Ideal, e)); Booked(x'.e.snd.buf[i], Noted(x, peer, x', act, b).sent)
  {
    hide Sane, Flush, EndpointOnWire, TickAt, Due, Transmit, EntryOk, Tracks, Sound, Record, Pushes, Distinct;
    var x', f, now := Emit(x, Flush(Ideal, e)), buf[i], e.pace.current;
    ClockedWire(x, act);
    WireClock(e);
    PushedIsCalled(x, e, buf, i);
    InBuffer(x);
    assert i < |e.snd.buf| ==> f == x.e.snd.buf[i];
    FlushBooks(x.e.cfg, x.e.pace.rto, now, f, b.sent, x.e.snd.nxt);
    TransmitKeeps(x.e.cfg, x.e.pace.rto, now, f);
  }

  lemma TransmitKeeps(cfg: Config, estimate: int, now: int, f: InFlight)
    ensures Transmit(cfg, estimate, now, f).sn == f.sn && (f.xmit == 0 ==> !Due(cfg, now, f).Quiet?)
  {
  }

  lemma ActTimed(x: Node, peer: Node, act: Action, b: Book)
    requires Sane(x) && Timed(x, b)
    ensures var x' := LiftedAct(x, peer, act); Timed(x', Noted(x, peer, x', act, b))
  {
    hide Sane, Flush, Send, KcpModel.Recv, TickAt, Input, Booked, EntryOk, Noted;
    var x' := LiftedAct(x, peer, act);
    match act
    case SendBytes(_, _) => QuietTimed(x, peer, x', act, b);
    case RecvBytes(_, _) => QuietTimed(x, peer, x', act, b);
    case UpdateAt(_, _) =>
      FlushActs(x, peer, act);
      if Flushes(x.e, act) {
        FlushTimed(x, peer, Clocked(x.e, act), act, b);
      } else {
        QuietTimed(x, peer, x', act, b);
      }
    case FlushNow(_) =>
      FlushActs(x, peer, act);
      if Flushes(x.e, act) {
        FlushTimed(x, peer, x.e, act, b);
      } else {
        QuietTimed(x, peer, x', act, b);
      }
    case Deliver(_, k, _) =>
      if k < |peer.out| {
        DeliverTimed(x, peer, act, b);
      } else {
        QuietTimed(x, peer, x', act, b);
      }
  }

  // ---------------------------------------------------------------- every run

  lemma {:induction false} RunTimed(s: System, w: WSystem, acts: seq<Action>, who: Side, b: Book)
    requires Matched(s, w) && Timed(Of(s, who), b)
    ensures Timed(Of(LiftedRun(s, acts), who), Ledger(s, acts, who, b))
    decreases |acts|
  {
    hide Matched, Timed, LiftedAct, WStep, Noted;
    if acts != [] {
      var act := acts[0];
      StepMatched(s, w, act);
      MatchedOf(s, w, who);
      if act.who == who {
        ActTimed(Of(s, who), Of(s, Other(who)), act, b);
      }
      var t := LiftedStep(s, act);
      var c := if act.who == who then Noted(Of(s, who), Of(s, Other(who)), Of(t, who), act, b) else b;
      RunTimed(t, WStep(w, act), acts[1..], who, c);
    }
  }

  /** What a flush at time `now` pushes, told from the records: each buffered segment
      whose record is sound exactly if its wait is over or it was passed over, each newly
      numbered segment, and nothing else. */
  ghost predicate OnTime(x: Node, x': Node, b: Book, now: int) {
    && (forall i :: 0 <= i < |x.e.snd.buf| ==>
          var f := x.e.snd.buf[i];
          f.sn in b.sent && (Sound(b.sent[f.sn]) ==>
                               (Pushes(x, x', f.sn) <==> Overdue(b.sent[f.sn], now) || Fast(x.e.cfg, b.sent[f.sn]))))
    && (forall sn :: x.e.snd.nxt <= sn < x'.e.snd.nxt ==> Pushes(x, x', sn))
    && (forall sn :: Pushes(x, x', sn) ==> x.e.snd.nxt <= sn < x'.e.snd.nxt || Flying(x.e.snd.buf, sn))
  }

  lemma FlushOnTime(x: Node, e: Endpoint, act: Action, b: Book)
    requires Sane(x) && Timed(x, b) && (act.UpdateAt? || act.FlushNow?) && e == Clocked(x.e, act) && e.pace.updated
    ensures OnTime(x, Emit(x, Flush(Ideal, e)), b, e.pace.current)
  {
    hide Sane, Flush, EndpointOnWire, TickAt, Due, Transmit, EntryOk, Tracks, Sound, Record, Pushes, Overdue, Fast;
    var x', now := Emit(x, Flush(Ideal, e)), e.pace.current;
    ClockedWire(x, act);
    EmitSane(x, e);
    var buf := FlushPasses(e);
    var n := |x.e.snd.buf|;
    PassedDistinct(x', e, Flush(Ideal, e), buf);
    forall i | 0 <= i < n && Sound(b.sent[x.e.snd.buf[i].sn])
      ensures Pushes(x, x', x.e.snd.buf[i].sn) <==>
                Overdue(b.sent[x.e.snd.buf[i].sn], now) || Fast(x.e.cfg, b.sent[x.e.snd.buf[i].sn])
    {
      assert buf[i] == x.e.snd.buf[i];
      PushedIsCalled(x, e, buf, i);
      DueExactly(x.e.cfg, buf[i], b.sent[buf[i].sn], now);
    }
    forall sn | x.e.snd.nxt <= sn < x'.e.snd.nxt ensures Pushes(x, x', sn) {
      var i := n + (sn - x.e.snd.nxt);
      assert buf[i].sn == sn;
      PushedIsCalled(x, e, buf, i);
      TransmitKeeps(x.e.cfg, x.e.pace.rto, now, buf[i]);
    }
    forall sn | Pushes(x, x', sn) ensures x.e.snd.nxt <= sn < x'.e.snd.nxt || Flying(x.e.snd.buf, sn) {
      PushedFrom(x, e, buf, sn);
    }
  }

  lemma PushedFrom(x: Node, e: Endpoint, buf: seq<InFlight>, sn: int)
    requires Sane(x) && e == x.e.(pace := e.pace) && EndpointOnWire(e) && Passed(e, Flush(Ideal, e), buf)
    requires Pushes(x, Emit(x, Flush(Ideal, e)), sn)
    ensures x.e.snd.nxt <= sn < Flush(Ideal, e).e.snd.nxt || Flying(x.e.snd.buf, sn)
  {
    hide Sane, Flush, Emit, Sends, EndpointOnWire, Due, Transmit;
    var x' := Emit(x, Flush(Ideal, e));
    var s :| Sends(x, x', s) && s.cmd == CMD_PUSH && s.sn == sn;
    FlushSends(x, e, s);
    assert Called(e.cfg, e.pace.current, buf, s.sn);
    var i :| 0 <= i < |buf| && buf[i].sn == sn;
    if i < |e.snd.buf| {
      assert x.e.snd.buf[i] == buf[i];
    }
  }

  /** Over every run of the program: a segment that is neither acknowledged nor passed
      over is sent again by a flush exactly if the time since it was last sent has reached
      its timeout, which starts with the round-trip estimate and an eighth of it with
      nodelay 0, and grows with each timeout. All numbers are those of the lifted run. */
  lemma ProgramResendsOnTime(left: Config, right: Config, acts: seq<Action>, act: Action)
    requires left.conv == right.conv && (act.UpdateAt? || act.FlushNow?)
    ensures var s, b := LiftedRun(Initial(left, right), acts), Ledger(Initial(left, right), acts, act.who, Book(0, map[]));
            var x, x' := Of(s, act.who), Of(LiftedStep(s, act), act.who);
            && Matched(s, WRun(WInitial(left, right), acts))
            && Matched(LiftedStep(s, act), WStep(WRun(WInitial(left, right), acts), act))
            && (forall sn :: sn in b.sent && b.sent[sn].times <= 20 ==> Sound(b.sent[sn]))
            && (Flushes(x.e, act) ==> OnTime(x, x', b, if act.UpdateAt? then act.now else b.clock))
  {
    hide Matched, LiftedRun, WRun, Ledger, Flush, Sane, TickAt, Booked, OnTime, Sound, EntryOk;
    var i, w := Initial(left, right), WRun(WInitial(left, right), acts);
    var s, b := LiftedRun(i, acts), Ledger(i, acts, act.who, Book(0, map[]));
    ProgramIsLifted(left, right, acts);
    StepMatched(s, w, act);
    StartMatched(left, right);
    RunTimed(i, WInitial(left, right), acts, act.who, Book(0, map[]));
    MatchedOf(s, w, act.who);
    forall sn | sn in b.sent && b.sent[sn].times <= 20 ensures Sound(b.sent[sn]) {
      EarlyIsSound(b.sent[sn]);
    }
    var x := Of(s, act.who);
    FlushActs(x, Of(s, Other(act.who)), act);
    if Flushes(x.e, act) {
      FlushOnTime(x, Clocked(x.e, act), act, b);
    }
  }

  // ---------------------------------------------------------------- backing off

  /** Some segment is due for this reason. */
  ghost predicate AnyDue(cfg: Config, now: int, buf: seq<InFlight>, why: Reason) {
    exists i :: 0 <= i < |buf| && Due(cfg, now, buf[i]) == why
  }

  lemma {:induction false} PassCounts(cfg: Config, rto: int, now: int, hdr: Segment, buf: seq<InFlight>)
    ensures var t := TransmitAll(cfg, rto, now, hdr, buf);
            (t.lost > 0 <==> AnyDue(cfg, now, buf, Timeout)) && (t.change > 0 <==> AnyDue(cfg, now, buf, Reason.Fast))
  {
    hide Due, Transmit;
    if buf != [] {
      var n := |buf| - 1;
      PassCounts(cfg, rto, now, hdr, buf[..n]);
      AnyMore(cfg, now, buf, Timeout);
      AnyMore(cfg, now, buf, Reason.Fast);
    }
  }

  /** The segments that are late, by their places. */
  ghost function Late(cfg: Config, now: int, buf: seq<InFlight>): set<int> {
    set i | 0 <= i < |buf| && Due(cfg, now, buf[i]) == Timeout
  }

  lemma {:induction false} PassCountsAll(cfg: Config, rto: int, now: int, hdr: Segment, buf: seq<InFlight>)
    ensures TransmitAll(cfg, rto, now, hdr, buf).lost == |Late(cfg, now, buf)|
  {
    hide Due, Transmit;
    if buf != [] {
      var n := |buf| - 1;
      PassCountsAll(cfg, rto, now, hdr, buf[..n]);
      var last := if Due(cfg, now, buf[n]) == Timeout then {n} else {};
      assert Late(cfg, now, buf) == Late(cfg, now, buf[..n]) + last;
      assert Late(cfg, now, buf[..n]) !! {n};
    }
  }

  lemma AnyMore(cfg: Config, now: int, buf: seq<InFlight>, why: Reason)
    requires buf != []
    ensures var n := |buf| - 1;
            AnyDue(cfg, now, buf, why) <==> AnyDue(cfg, now, buf[..n], why) || Due(cfg, now, buf[n]) == why
  {
    hide Due;
    var n := |buf| - 1;
    if AnyDue(cfg, now, buf[..n], why) {
      var i :| 0 <= i < n && Due(cfg, now, buf[..n][i]) == why;
      assert Due(cfg, now, buf[i]) == why;
    }
    if AnyDue(cfg, now, buf, why) {
      var i :| 0 <= i < |buf| && Due(cfg, now, buf[i]) == why;
      assert i < n ==> buf[..n][i] == buf[i];
    }
  }

  /** What a flush does to the congestion window: `late` is whether some wait was over, and
      `early` whether some segment was passed over often enough. */
  ghost predicate Reacts(e: Endpoint, q: Pace, room: int, flight: int, late: bool, early: bool) {
    var resend := if e.cfg.fastResend > 0 then e.cfg.fastResend else 0xffff_ffff;
    if late then q.cwnd == 1 && q.incr == e.cfg.mss && q.ssthresh == Max(room / 2, 2)
    else if early then
      var w := U32(q.ssthresh + resend);
      && q.ssthresh == Max(flight / 2, 2) && q.cwnd == Max(w, 1)
      && q.incr == (if w < 1 then e.cfg.mss else U32(w * e.cfg.mss))
    else
      && q.ssthresh == e.pace.ssthresh && q.cwnd == Max(e.pace.cwnd, 1)
      && q.incr == (if e.pace.cwnd < 1 then e.cfg.mss else e.pace.incr)
  }

  lemma FlushReacts(e: Endpoint) returns (buf: seq<InFlight>)
    requires e.pace.updated
    ensures Passed(e, Flush(Ideal, e), buf)
    ensures var f, now := Flush(Ideal, e), e.pace.current;
            Reacts(e, f.e.pace, Window(e.cfg, e.pace), f.e.snd.nxt - f.e.snd.una,
                   AnyDue(e.cfg, now, buf, Timeout), AnyDue(e.cfg, now, buf, Reason.Fast))
    ensures Flush(Ideal, e).e.pace.xmit == U32(e.pace.xmit + |Late(e.cfg, e.pace.current, buf)|)
  {
    hide Late, Fill, TransmitAll, ControlSegments, U32, UnusedWindow, Due, Transmit, AnyDue, Passed;
    var hdr, p := Header(e), Probed(e.pace);
    buf := FlushPasses(e);
    PassCounts(e.cfg, p.rto, p.current, hdr, buf);
    PassCountsAll(e.cfg, p.rto, p.current, hdr, buf);
  }

  /** A buffered segment whose wait is over, or one that is sent early, by the records. */
  ghost predicate AnyOverdue(x: Node, b: Book, now: int) {
    exists i :: 0 <= i < |x.e.snd.buf| && x.e.snd.buf[i].sn in b.sent && Overdue(b.sent[x.e.snd.buf[i].sn], now)
  }

  ghost predicate AnyFast(x: Node, b: Book, now: int) {
    exists i :: 0 <= i < |x.e.snd.buf| && x.e.snd.buf[i].sn in b.sent
                && !Overdue(b.sent[x.e.snd.buf[i].sn], now) && Fast(x.e.cfg, b.sent[x.e.snd.buf[i].sn])
  }

  ghost predicate AllSound(x: Node, b: Book) {
    forall i :: 0 <= i < |x.e.snd.buf| ==> x.e.snd.buf[i].sn in b.sent && Sound(b.sent[x.e.snd.buf[i].sn])
  }

  lemma ReasonIs(x: Node, b: Book, e: Endpoint, buf: seq<InFlight>, f: FlushResult, i: nat)
    requires Timed(x, b) && AllSound(x, b) && e == x.e.(pace := e.pace) && Passed(e, f, buf) && i < |buf|
    ensures var why := Due(e.cfg, e.pace.current, buf[i]);
            if i < |x.e.snd.buf| then
              var f := x.e.snd.buf[i];
              && f.sn in b.sent && (why == Timeout <==> Overdue(b.sent[f.sn], e.pace.current))
              && (why == Reason.Fast <==> !Overdue(b.sent[f.sn], e.pace.current) && Fast(x.e.cfg, b.sent[f.sn]))
            else why == First
  {
    hide EntryOk, Sound, Tracks, Overdue, Fast, Transmit;
    if i < |x.e.snd.buf| {
      var f := x.e.snd.buf[i];
      assert buf[i] == f;
      DueExactly(e.cfg, f, b.sent[f.sn], e.pace.current);
    }
  }

  lemma AnyIs(x: Node, b: Book, e: Endpoint, buf: seq<InFlight>, f: FlushResult)
    requires Timed(x, b) && AllSound(x, b) && e == x.e.(pace := e.pace) && Passed(e, f, buf)
    ensures AnyDue(e.cfg, e.pace.current, buf, Timeout) <==> AnyOverdue(x, b, e.pace.current)
    ensures AnyDue(e.cfg, e.pace.current, buf, Reason.Fast) <==> AnyFast(x, b, e.pace.current)
  {
    hide Timed, AllSound, Overdue, Fast, Due, Transmit;
    var n, now := |x.e.snd.buf|, e.pace.current;
    forall i | 0 <= i < |buf|
      ensures i >= n ==> Due(e.cfg, now, buf[i]) == First
      ensures i < n ==> var f := x.e.snd.buf[i];
                        && f.sn in b.sent && (Due(e.cfg, now, buf[i]) == Timeout <==> Overdue(b.sent[f.sn], now))
                        && (Due(e.cfg, now, buf[i]) == Reason.Fast <==>
                             !Overdue(b.sent[f.sn], now) && Fast(x.e.cfg, b.sent[f.sn]))
    {
      ReasonIs(x, b, e, buf, f, i);
    }
    if AnyOverdue(x, b, now) {
      var i :| 0 <= i < n && x.e.snd.buf[i].sn in b.sent && Overdue(b.sent[x.e.snd.buf[i].sn], now);
      assert Due(e.cfg, now, buf[i]) == Timeout;
    }
    if AnyFast(x, b, now) {
      var i :| 0 <= i < n && x.e.snd.buf[i].sn in b.sent
               && !Overdue(b.sent[x.e.snd.buf[i].sn], now) && Fast(x.e.cfg, b.sent[x.e.snd.buf[i].sn]);
      assert Due(e.cfg, now, buf[i]) == Reason.Fast;
    }
  }

  /** Over every run: a flush that finds a wait over leaves a congestion window of one
      segment; one that only resends early leaves half of what was in flight and the
      threshold; any other leaves it alone. */
  lemma ProgramBacksOff(left: Config, right: Config, acts: seq<Action>, act: Action)
    requires left.conv == right.conv && (act.UpdateAt? || act.FlushNow?)
    ensures var s, b := LiftedRun(Initial(left, right), acts), Ledger(Initial(left, right), acts, act.who, Book(0, map[]));
            var x, x' := Of(s, act.who), Of(LiftedStep(s, act), act.who);
            var now := if act.UpdateAt? then act.now else b.clock;
            && Matched(LiftedStep(s, act), WStep(WRun(WInitial(left, right), acts), act))
            && (Flushes(x.e, act) && AllSound(x, b) ==>
                  Reacts(x.e, x'.e.pace, Window(x.e.cfg, x.e.pace), x'.e.snd.nxt - x'.e.snd.una,
                         AnyOverdue(x, b, now), AnyFast(x, b, now)))
  {
    hide Matched, LiftedRun, WRun, Ledger, Flush, Sane, TickAt, Booked, AllSound, AnyOverdue, AnyFast, EntryOk,
      Passed, AnyDue, Late;
    var i, w := Initial(left, right), WRun(WInitial(left, right), acts);
    var s, b := LiftedRun(i, acts), Ledger(i, acts, act.who, Book(0, map[]));
    ProgramIsLifted(left, right, acts);
    StepMatched(s, w, act);
    StartMatched(left, right);
    RunTimed(i, WInitial(left, right), acts, act.who, Book(0, map[]));
    var x := Of(s, act.who);
    FlushActs(x, Of(s, Other(act.who)), act);
    if Flushes(x.e, act) && AllSound(x, b) {
      var e := Clocked(x.e, act);
      var buf := FlushReacts(e);
      AnyIs(x, b, e, buf, Flush(Ideal, e));
    }
  }

  // ---------------------------------------------------------------- a dead link

  lemma {:induction false} PassDies(cfg: Config, rto: int, now: int, hdr: Segment, buf: seq<InFlight>)
    ensures TransmitAll(cfg, rto, now, hdr, buf).dead <==>
            exists i :: 0 <= i < |buf| && Dies(cfg, rto, now, buf[i])
  {
    hide Dies, Due, Transmit;
    if buf != [] {
      var n := |buf| - 1;
      PassDies(cfg, rto, now, hdr, buf[..n]);
      LastDies(cfg, rto, now, buf[n]);
      assert forall i :: 0 <= i < n ==> buf[..n][i] == buf[i];
    }
  }

  /** A segment goes out as often as a dead link allows. */
  predicate Dies(cfg: Config, rto: int, now: int, f: InFlight) {
    !Due(cfg, now, f).Quiet? && Transmit(cfg, rto, now, f).xmit >= cfg.deadLink
  }

  lemma LastDies(cfg: Config, rto: int, now: int, f: InFlight)
    ensures Dies(cfg, rto, now, f) <==> !Due(cfg, now, f).Quiet? && Transmit(cfg, rto, now, f).xmit >= cfg.deadLink
  {
  }

  /** Over every run, as long as no record is older than its 32-bit fields: the link counts
      as dead once a number has been pushed `deadLink` times, 20 in this program, and
      never before. */
  lemma ProgramGivesUp(left: Config, right: Config, acts: seq<Action>, act: Action)
    requires left.conv == right.conv && (act.UpdateAt? || act.FlushNow?)
    ensures var s, b := LiftedRun(Initial(left, right), acts), Ledger(Initial(left, right), acts, act.who, Book(0, map[]));
            var x, x' := Of(s, act.who), Of(LiftedStep(s, act), act.who);
            && Matched(LiftedStep(s, act), WStep(WRun(WInitial(left, right), acts), act))
            && (Flushes(x.e, act) && AllSound(x, b) ==>
                  (x'.e.pace.dead <==>
                     x.e.pace.dead || exists sn :: Pushes(x, x', sn) && Times(b, sn) + 1 >= x.e.cfg.deadLink))
  {
    hide Matched, LiftedRun, WRun, Ledger, Flush, Sane, TickAt, Booked, AllSound, EntryOk, Passed, Pushes;
    var i, w := Initial(left, right), WRun(WInitial(left, right), acts);
    var s, b := LiftedRun(i, acts), Ledger(i, acts, act.who, Book(0, map[]));
    ProgramIsLifted(left, right, acts);
    StepMatched(s, w, act);
    StartMatched(left, right);
    RunTimed(i, WInitial(left, right), acts, act.who, Book(0, map[]));
    MatchedOf(s, w, act.who);
    var x := Of(s, act.who);
    FlushActs(x, Of(s, Other(act.who)), act);
    if Flushes(x.e, act) && AllSound(x, b) {
      FlushGivesUp(x, Clocked(x.e, act), act, b);
    }
  }

  /** How often a number has been pushed. */
  function Times(b: Book, sn: int): nat { if sn in b.sent then b.sent[sn].times else 0 }

  lemma FlushGivesUp(x: Node, e: Endpoint, act: Action, b: Book)
    requires Sane(x) && Timed(x, b) && AllSound(x, b)
    requires (act.UpdateAt? || act.FlushNow?) && e == Clocked(x.e, act) && e.pace.updated
    ensures var x' := Emit(x, Flush(Ideal, e));
            x'.e.pace.dead <==> x.e.pace.dead || exists sn :: Pushes(x, x', sn) && Times(b, sn) + 1 >= x.e.cfg.deadLink
  {
    hide Sane, Flush, EndpointOnWire, TickAt, Due, Transmit, Pushes, Times, Timed, AllSound, Dies, Distinct;
    var x', now := Emit(x, Flush(Ideal, e)), e.pace.current;
    ClockedWire(x, act);
    EmitSane(x, e);
    var buf := FlushDies(e);
    PassedDistinct(x', e, Flush(Ideal, e), buf);
    forall i | 0 <= i < |buf|
      ensures Dies(e.cfg, e.pace.rto, now, buf[i]) <==>
                Pushes(x, x', buf[i].sn) && Times(b, buf[i].sn) + 1 >= e.cfg.deadLink
    {
      PushedIsCalled(x, e, buf, i);
      DiesIs(x, b, e, buf, Flush(Ideal, e), i);
    }
    if exists sn :: Pushes(x, x', sn) && Times(b, sn) + 1 >= x.e.cfg.deadLink {
      var sn :| Pushes(x, x', sn) && Times(b, sn) + 1 >= x.e.cfg.deadLink;
      var i := PushedAt(x, e, buf, sn);
      assert Dies(e.cfg, e.pace.rto, now, buf[i]);
    }
  }

  lemma FlushDies(e: Endpoint) returns (buf: seq<InFlight>)
    requires e.pace.updated
    ensures Passed(e, Flush(Ideal, e), buf)
    ensures Flush(Ideal, e).e.pace.dead <==>
            e.pace.dead || exists i :: 0 <= i < |buf| && Dies(e.cfg, e.pace.rto, e.pace.current, buf[i])
  {
    hide Fill, TransmitAll, ControlSegments, U32, UnusedWindow, Due, Transmit, Passed, Dies, Resent;
    var hdr, p := Header(e), Probed(e.pace);
    buf := FlushPasses(e);
    PassDies(e.cfg, p.rto, p.current, hdr, buf);
  }

  lemma PushedAt(x: Node, e: Endpoint, buf: seq<InFlight>, sn: int) returns (i: nat)
    requires Sane(x) && e == x.e.(pace := e.pace) && EndpointOnWire(e) && Passed(e, Flush(Ideal, e), buf)
    requires Pushes(x, Emit(x, Flush(Ideal, e)), sn)
    ensures i < |buf| && buf[i].sn == sn
  {
    hide Sane, Flush, Emit, Sends, EndpointOnWire, Due, Transmit;
    var x' := Emit(x, Flush(Ideal, e));
    var s :| Sends(x, x', s) && s.cmd == CMD_PUSH && s.sn == sn;
    FlushSends(x, e, s);
    assert Called(e.cfg, e.pace.current, buf, s.sn);
    i :| 0 <= i < |buf| && buf[i].sn == sn;
  }

  lemma DiesIs(x: Node, b: Book, e: Endpoint, buf: seq<InFlight>, f: FlushResult, i: nat)
    requires Timed(x, b) && AllSound(x, b) && e == x.e.(pace := e.pace) && Passed(e, f, buf) && i < |buf|
    ensures Dies(e.cfg, e.pace.rto, e.pace.current, buf[i]) <==>
            !Due(e.cfg, e.pace.current, buf[i]).Quiet? && Times(b, buf[i].sn) + 1 >= e.cfg.deadLink
  {
    hide EntryOk, Due, TimeDiff;
    if i < |x.e.snd.buf| {
      assert buf[i] == x.e.snd.buf[i] && Tracks(buf[i], b.sent[buf[i].sn]);
      XmitIs(e.cfg, e.pace.rto, e.pace.current, buf[i]);
    } else {
      XmitIs(e.cfg, e.pace.rto, e.pace.current, buf[i]);
    }
  }

  lemma XmitIs(cfg: Config, rto: int, now: int, f: InFlight)
    requires 0 <= f.xmit < H32
    ensures !Due(cfg, now, f).Quiet? ==> Transmit(cfg, rto, now, f).xmit == f.xmit + 1
  {
  }
}
