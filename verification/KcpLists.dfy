/** What the list operations of KCP do on unbounded sequence numbers, for every
    list in order. */
module KcpLists {
  import opened KcpModel

  ghost predicate SortedFlight(buf: seq<InFlight>) {
    forall i, j :: 0 <= i < j < |buf| ==> buf[i].sn < buf[j].sn
  }

  ghost predicate SortedArrived(buf: seq<Received>) {
    forall i, j :: 0 <= i < j < |buf| ==> buf[i].sn < buf[j].sn
  }

  ghost predicate Flying(buf: seq<InFlight>, sn: int) {
    exists i :: 0 <= i < |buf| && buf[i].sn == sn
  }

  ghost predicate Arrived(buf: seq<Received>, sn: int) {
    exists i :: 0 <= i < |buf| && buf[i].sn == sn
  }

  // ---------------------------------------------------------------- send buffer

  /** A cumulative acknowledgement removes exactly the numbers below it. */
  lemma {:induction false} DropBeforeSpec(buf: seq<InFlight>, una: int) returns (k: nat)
    ensures k <= |buf| && DropBefore(Ideal, buf, una) == buf[k..]
    ensures forall i :: 0 <= i < k ==> buf[i].sn < una
    ensures k < |buf| ==> buf[k].sn >= una
  {
    if buf != [] && una > buf[0].sn {
      var j := DropBeforeSpec(buf[1..], una);
      k := j + 1;
      assert buf[1..][j..] == buf[k..];
    } else {
      k := 0;
    }
  }

  /** A selective acknowledgement removes its number, if it is there, and nothing else. */
  lemma DropOneSpec(buf: seq<InFlight>, sn: int) returns (k: nat)
    requires SortedFlight(buf)
    ensures k <= |buf| && (k < |buf| <==> Flying(buf, sn)) && (k < |buf| ==> buf[k].sn == sn)
    ensures DropOne(Ideal, buf, sn) == if k < |buf| then buf[..k] + buf[k + 1..] else buf
    ensures !Flying(DropOne(Ideal, buf, sn), sn)
  {
    k := DropOneCuts(buf, sn);
    if k < |buf| {
      assert Flying(buf, sn);
    }
  }

  lemma {:induction false} DropOneCuts(buf: seq<InFlight>, sn: int) returns (k: nat)
    requires SortedFlight(buf)
    ensures k <= |buf| && (k < |buf| ==> buf[k].sn == sn)
    ensures k == |buf| ==> forall i :: 0 <= i < |buf| ==> buf[i].sn != sn
    ensures DropOne(Ideal, buf, sn) == if k < |buf| then buf[..k] + buf[k + 1..] else buf
  {
    if buf == [] || sn < buf[0].sn {
      k := |buf|;
    } else if buf[0].sn == sn {
      k := 0;
      assert buf[..0] + buf[1..] == buf[1..];
    } else {
      var rest := buf[1..];
      var j := DropOneCuts(rest, sn);
      k := j + 1;
      if j < |rest| {
        CutCons(buf, j);
      } else {
        assert [buf[0]] + rest == buf;
      }
    }
  }

  lemma CutCons<T>(s: seq<T>, j: nat)
    requires j + 1 < |s|
    ensures [s[0]] + (s[1..][..j] + s[1..][j + 1..]) == s[..j + 1] + s[j + 2..]
  {
  }

  lemma SpliceSnoc<T>(s: seq<T>, k: nat, x: T)
    requires k < |s|
    ensures var init, last := s[..|s| - 1], s[|s| - 1];
            init[..k] + [x] + init[k..] + [last] == s[..k] + [x] + s[k..]
  {
  }

  lemma DropOneKeeps(buf: seq<InFlight>, sn: int)
    requires SortedFlight(buf)
    ensures var r := DropOne(Ideal, buf, sn);
            && SortedFlight(r)
            && (forall x :: x in r ==> x in buf)
            && (forall n :: n != sn && Flying(buf, n) ==> Flying(r, n))
            && (r != [] ==> r[0].sn >= buf[0].sn)
  {
    var k := DropOneCuts(buf, sn);
    if k < |buf| {
      CutKeeps(buf, k);
    }
  }

  lemma CutKeeps(buf: seq<InFlight>, k: nat)
    requires SortedFlight(buf) && k < |buf|
    ensures var r := buf[..k] + buf[k + 1..];
            && SortedFlight(r)
            && (forall x :: x in r ==> x in buf)
            && (forall n :: n != buf[k].sn && Flying(buf, n) ==> Flying(r, n))
            && (r != [] ==> r[0].sn >= buf[0].sn)
  {
    var r := buf[..k] + buf[k + 1..];
    forall n | n != buf[k].sn && Flying(buf, n) ensures Flying(r, n) {
      var i :| 0 <= i < |buf| && buf[i].sn == n;
      assert r[if i < k then i else i - 1].sn == n;
    }
  }

  ghost predicate SameLine(a: seq<InFlight>, b: seq<InFlight>) {
    |a| == |b| && forall i :: 0 <= i < |a| ==> a[i].sn == b[i].sn && a[i].data == b[i].data
  }

  lemma {:induction false} SkippedSpec(m: Arith, buf: seq<InFlight>, sn: int, ts: int)
    ensures SameLine(buf, Skipped(m, buf, sn, ts))
  {
    if buf == [] || Diff(m, sn, buf[0].sn) < 0 {
    } else {
      SkippedSpec(m, buf[1..], sn, ts);
    }
  }

  /** Numbering takes the first `k` queued payloads, in order, and stops at the
      window. */
  lemma {:induction false} FillSpec(s: Sender, cwnd: int, now: int, rto: int) returns (k: nat)
    ensures k <= |s.queue|
    ensures var t := Fill(Ideal, s, cwnd, now, rto);
            && t.una == s.una && t.nxt == s.nxt + k && t.queue == s.queue[k..]
            && |t.buf| == |s.buf| + k && t.buf[..|s.buf|] == s.buf
            && (forall i :: 0 <= i < k ==> t.buf[|s.buf| + i] == InFlight(s.nxt + i, now, now, rto, 0, 0, s.queue[i]))
            && (k > 0 ==> t.nxt <= t.una + cwnd)
            && (t.queue == [] || t.nxt >= t.una + cwnd)
    decreases |s.queue|
  {
    if s.nxt - (s.una + cwnd) < 0 && s.queue != [] {
      var seg := InFlight(s.nxt, now, now, rto, 0, 0, s.queue[0]);
      var s1 := Sender(s.una, s.nxt + 1, s.queue[1..], s.buf + [seg]);
      var j := FillSpec(s1, cwnd, now, rto);
      var t := Fill(Ideal, s1, cwnd, now, rto);
      k := j + 1;
      assert s.queue[1..][j..] == s.queue[k..];
      assert t.buf[..|s.buf|] == t.buf[..|s1.buf|][..|s.buf|];
      assert t.buf[|s.buf|] == t.buf[..|s1.buf|][|s.buf|] == seg;
      forall i | 0 <= i < k
        ensures t.buf[|s.buf| + i] == InFlight(s.nxt + i, now, now, rto, 0, 0, s.queue[i])
      {
        if i > 0 {
          assert t.buf[|s1.buf| + (i - 1)].data == s1.queue[i - 1];
        }
      }
    } else {
      k := 0;
    }
  }

  lemma {:induction false} TransmitLine(cfg: Config, rto: int, now: int, hdr: Segment, buf: seq<InFlight>)
    ensures SameLine(buf, TransmitAll(cfg, rto, now, hdr, buf).buf)
  {
    if buf != [] {
      var n := |buf| - 1;
      TransmitLine(cfg, rto, now, hdr, buf[..n]);
      assert buf == buf[..n] + [buf[n]];
    }
  }

  lemma {:induction false} TransmitFrom(cfg: Config, rto: int, now: int, hdr: Segment, buf: seq<InFlight>)
    ensures forall o :: o in TransmitAll(cfg, rto, now, hdr, buf).out ==> FromFlight(hdr, now, buf, o)
  {
    if buf != [] {
      var n := |buf| - 1;
      TransmitFrom(cfg, rto, now, hdr, buf[..n]);
      var a := TransmitAll(cfg, rto, now, hdr, buf[..n]);
      forall o | o in a.out ensures FromFlight(hdr, now, buf, o) {
        var i :| 0 <= i < n && buf[..n][i].sn == o.sn && buf[..n][i].data == o.data;
        assert buf[i].sn == o.sn && buf[i].data == o.data;
      }
      var last := PushSegment(hdr, Transmit(cfg, rto, now, buf[n]));
      assert !Due(cfg, now, buf[n]).Quiet? ==> FromFlight(hdr, now, buf, last);
    }
  }

  lemma CarriedMore(a: seq<Segment>, b: seq<Segment>, sn: int)
    requires Carried(a, sn) || Carried(b, sn)
    ensures Carried(a + b, sn)
  {
    if Carried(a, sn) {
      var i :| 0 <= i < |a| && a[i].cmd == CMD_PUSH && a[i].sn == sn;
      assert (a + b)[i] == a[i];
    } else {
      var i :| 0 <= i < |b| && b[i].cmd == CMD_PUSH && b[i].sn == sn;
      assert (a + b)[|a| + i] == b[i];
    }
  }

  lemma {:induction false} TransmitCarries(cfg: Config, rto: int, now: int, hdr: Segment, buf: seq<InFlight>, i: nat)
    requires i < |buf| && !Due(cfg, now, buf[i]).Quiet?
    ensures Carried(TransmitAll(cfg, rto, now, hdr, buf).out, buf[i].sn)
  {
    var n := |buf| - 1;
    var a := TransmitAll(cfg, rto, now, hdr, buf[..n]);
    var last := PushSegment(hdr, Transmit(cfg, rto, now, buf[n]));
    if i < n {
      TransmitCarries(cfg, rto, now, hdr, buf[..n], i);
      CarriedMore(a.out, [last], buf[i].sn);
    } else {
      assert [last][0].sn == buf[i].sn;
      CarriedMore(a.out, [last], buf[i].sn);
    }
  }

  /** A transmission pass keeps numbers and payloads, and sends exactly the
      segments that are due, with their own payload. */
  lemma TransmitSpec(cfg: Config, rto: int, now: int, hdr: Segment, buf: seq<InFlight>)
    ensures var t := TransmitAll(cfg, rto, now, hdr, buf);
            && SameLine(buf, t.buf)
            && (forall o :: o in t.out ==> FromFlight(hdr, now, buf, o))
            && (forall i :: 0 <= i < |buf| && !Due(cfg, now, buf[i]).Quiet? ==> Carried(t.out, buf[i].sn))
  {
    TransmitLine(cfg, rto, now, hdr, buf);
    TransmitFrom(cfg, rto, now, hdr, buf);
    forall i | 0 <= i < |buf| && !Due(cfg, now, buf[i]).Quiet?
      ensures Carried(TransmitAll(cfg, rto, now, hdr, buf).out, buf[i].sn)
    {
      TransmitCarries(cfg, rto, now, hdr, buf, i);
    }
  }

  ghost predicate FromFlight(hdr: Segment, now: int, buf: seq<InFlight>, o: Segment) {
    && o.cmd == CMD_PUSH && o.frg == 0 && o.conv == hdr.conv && o.wnd == hdr.wnd && o.una == hdr.una
    && o.ts == now
    && exists i :: 0 <= i < |buf| && buf[i].sn == o.sn && buf[i].data == o.data
  }

  /** Some data segment of the list carries number `sn`. */
  ghost predicate Carried(out: seq<Segment>, sn: int) {
    exists i :: 0 <= i < |out| && out[i].cmd == CMD_PUSH && out[i].sn == sn
  }

  // ---------------------------------------------------------------- receive buffer

  /** Insertion puts a new number behind the last smaller one and ignores a
      number that is already there. */
  lemma {:induction false} InsertSpec(buf: seq<Received>, seg: Received) returns (k: nat, repeat: bool)
    ensures k <= |buf|
    ensures forall i :: k <= i < |buf| ==> buf[i].sn > seg.sn
    ensures repeat ==> k > 0 && buf[k - 1].sn == seg.sn && Insert(Ideal, buf, seg) == buf
    ensures !repeat ==> (k > 0 ==> buf[k - 1].sn < seg.sn) && Insert(Ideal, buf, seg) == buf[..k] + [seg] + buf[k..]
  {
    if buf == [] {
      k, repeat := 0, false;
    } else {
      var n := |buf| - 1;
      var init, last := buf[..n], buf[n];
      assert buf == init + [last];
      if last.sn == seg.sn {
        k, repeat := |buf|, true;
      } else if seg.sn > last.sn {
        k, repeat := |buf|, false;
        assert buf[..k] + [seg] + buf[k..] == buf + [seg];
      } else {
        k, repeat := InsertSpec(init, seg);
        SpliceSnoc(buf, k, seg);
      }
    }
  }

  /** The numbers held after an insertion, and their order. */
  lemma InsertKeeps(buf: seq<Received>, seg: Received)
    requires SortedArrived(buf)
    ensures var r := Insert(Ideal, buf, seg);
            && SortedArrived(r)
            && (forall x :: x in r ==> x in buf || x == seg)
            && Arrived(r, seg.sn)
            && (forall sn :: Arrived(buf, sn) ==> Arrived(r, sn))
  {
    var k, repeat := InsertSpec(buf, seg);
    if !repeat {
      SpliceKeeps(buf, k, seg);
    }
  }

  lemma SpliceKeeps(buf: seq<Received>, k: nat, seg: Received)
    requires SortedArrived(buf) && k <= |buf|
    requires k > 0 ==> buf[k - 1].sn < seg.sn
    requires forall i :: k <= i < |buf| ==> buf[i].sn > seg.sn
    ensures var r := buf[..k] + [seg] + buf[k..];
            && SortedArrived(r)
            && (forall x :: x in r ==> x in buf || x == seg)
            && Arrived(r, seg.sn)
            && (forall sn :: Arrived(buf, sn) ==> Arrived(r, sn))
  {
    var r := buf[..k] + [seg] + buf[k..];
    assert r[k] == seg;
    forall i | 0 <= i < k ensures r[i].sn < seg.sn {
      assert i == k - 1 || buf[i].sn < buf[k - 1].sn;
    }
    forall sn | Arrived(buf, sn) ensures Arrived(r, sn) {
      var i :| 0 <= i < |buf| && buf[i].sn == sn;
      assert r[if i < k then i else i + 1].sn == sn;
    }
  }

  /** Draining moves the longest run that starts at the next number and fits. */
  lemma {:induction false} DrainSpec(rcvWnd: int, r: Receiver) returns (k: nat)
    requires |r.queue| <= rcvWnd
    ensures k <= |r.buf|
    ensures var d := Drain(Ideal, rcvWnd, r);
            && d.nxt == r.nxt + k && d.queue == r.queue + r.buf[..k] && d.buf == r.buf[k..] && d.acks == r.acks
            && |d.queue| <= rcvWnd
            && (d.buf == [] || d.buf[0].sn != d.nxt || |d.queue| >= rcvWnd)
    ensures forall i :: 0 <= i < k ==> r.buf[i].sn == r.nxt + i
    decreases |r.buf|
  {
    if r.buf != [] && r.buf[0].sn == r.nxt && |r.queue| < rcvWnd {
      var r1 := r.(nxt := r.nxt + 1, queue := r.queue + [r.buf[0]], buf := r.buf[1..]);
      var j := DrainSpec(rcvWnd, r1);
      k := j + 1;
      ShiftOne(r.queue, r.buf, j);
      Consecutive(r.buf, r1.buf, r.nxt, j);
    } else {
      k := 0;
      assert r.queue + r.buf[..0] == r.queue;
    }
  }

  lemma Consecutive(buf: seq<Received>, rest: seq<Received>, nxt: int, j: nat)
    requires buf != [] && rest == buf[1..] && j <= |rest| && buf[0].sn == nxt
    requires forall i :: 0 <= i < j ==> rest[i].sn == nxt + 1 + i
    ensures forall i :: 0 <= i < j + 1 ==> buf[i].sn == nxt + i
  {
    forall i | 0 < i < j + 1 ensures buf[i].sn == nxt + i {
      assert rest[i - 1].sn == nxt + 1 + (i - 1);
    }
  }

  lemma ShiftOne<T>(q: seq<T>, s: seq<T>, j: nat)
    requires j < |s|
    ensures q + [s[0]] + s[1..][..j] == q + s[..j + 1]
    ensures s[1..][j..] == s[j + 1..]
  {
  }
}
