/** What ikcp_send does to the byte stream, and how a flush is cut into
    datagrams. */
module KcpBytes {
  import opened Words
  import opened KcpModel

  /** Every payload carries at least one byte and at most `mss`. */
  ghost predicate Sized(mss: int, ss: seq<seq<byte>>) {
    forall s :: s in ss ==> 0 < |s| <= mss
  }

  lemma {:induction false} ChunksFlat(mss: int, data: seq<byte>)
    requires mss > 0
    ensures Flat(Chunks(mss, data)) == data
    decreases |data|
  {
    if data == [] {
    } else if |data| <= mss {
      FlatOne(data);
    } else {
      ChunksFlat(mss, data[mss..]);
      FlatCons(data[..mss], Chunks(mss, data[mss..]));
      SplitAt(data, mss);
    }
  }

  lemma FlatCons(x: seq<byte>, ss: seq<seq<byte>>)
    ensures Flat([x] + ss) == x + Flat(ss)
  {
    assert ([x] + ss)[1..] == ss;
  }

  lemma {:induction false} ChunksSized(mss: int, data: seq<byte>)
    requires mss > 0
    ensures Sized(mss, Chunks(mss, data))
    ensures data != [] ==> |Chunks(mss, data)| == SegmentCount(mss, |data|)
    decreases |data|
  {
    if |data| > mss {
      ChunksSized(mss, data[mss..]);
      CeilStep(mss, |data|);
    }
  }

  lemma CeilStep(mss: int, n: int)
    requires 0 < mss < n
    ensures SegmentCount(mss, n) == 1 + SegmentCount(mss, n - mss)
  {
    var a := n - 1;
    DivUnique(a + mss, mss, a / mss + 1, a % mss);
    if n - mss <= mss {
      DivUnique(a, mss, 1, a - mss);
    }
  }

  lemma DivUnique(x: int, m: int, q: int, r: int)
    requires m > 0 && x == q * m + r && 0 <= r < m
    ensures x / m == q
  {
    var d := x / m - q;
    assert d * m == r - x % m;
    assert d > 0 ==> d * m >= m;
    assert d < 0 ==> d * m <= -m;
  }

  lemma TopUpSpec(mss: int, queue: seq<seq<byte>>, data: seq<byte>)
    requires Sized(mss, queue)
    ensures Flat(TopUp(mss, queue, data)) == Flat(queue) + data[..Extend(mss, queue, data)]
    ensures Sized(mss, TopUp(mss, queue, data)) && |TopUp(mss, queue, data)| == |queue|
  {
    var n := Extend(mss, queue, data);
    if n > 0 {
      var k := |queue| - 1;
      var more := queue[k] + data[..n];
      assert TopUp(mss, queue, data) == queue[..k] + [more];
      assert queue == queue[..k] + [queue[k]];
      FlatSnoc(queue[..k], more);
      FlatSnoc(queue[..k], queue[k]);
      Associate(Flat(queue[..k]), queue[k], data[..n]);
    } else {
      assert data[..0] == [];
    }
  }

  /** The queue always grows by exactly the bytes reported as sent; everything
      is taken unless it needs 128 segments or more. */
  lemma SendSpec(mss: int, queue: seq<seq<byte>>, data: seq<byte>)
    requires mss > 0 && Sized(mss, queue)
    ensures var r := Send(mss, queue, data);
            && (r.ret == -2 || 0 <= r.ret <= |data|)
            && Flat(r.queue) == Flat(queue) + data[..Max(r.ret, 0)]
            && Sized(mss, r.queue)
            && (r.ret == |data| <==> Takes(mss, queue, data))
  {
    hide Flat, Sized, Chunks, SegmentCount, TopUp;
    var n := Extend(mss, queue, data);
    TopUpSpec(mss, queue, data);
    if n < |data| && SegmentCount(mss, |data| - n) < WND_RCV {
      AppendChunks(mss, queue, TopUp(mss, queue, data), data, n);
      assert data[..|data|] == data;
    }
  }

  /** Whether ikcp_send has room for all of `data`. */
  predicate Takes(mss: int, queue: seq<seq<byte>>, data: seq<byte>)
    requires mss > 0
  {
    var rest := |data| - Extend(mss, queue, data);
    rest == 0 || SegmentCount(mss, rest) < WND_RCV
  }

  /** Free bytes of the last queued segment. */
  function Spare(mss: int, queue: seq<seq<byte>>): int {
    if queue == [] then 0 else mss - |queue[|queue| - 1]|
  }

  /** All segments but the last are full. */
  ghost predicate Compact(mss: int, queue: seq<seq<byte>>) {
    forall i :: 0 <= i < |queue| - 1 ==> |queue[i]| == mss
  }

  /** ikcp_send fills the last segment first. It then takes all, or if that needs 128
      segments or more, nothing beyond. The queue is never longer than its bytes need. */
  lemma SendExactly(mss: int, queue: seq<seq<byte>>, data: seq<byte>)
    requires mss > 0 && Sized(mss, queue)
    ensures var r, spare := Send(mss, queue, data), Spare(mss, queue);
            && r.ret == (if |data| <= spare || (|data| - spare + mss - 1) / mss < 128 then |data|
                         else if spare > 0 then spare else -2)
            && (Compact(mss, queue) ==> Compact(mss, r.queue))
  {
    hide Flat, Chunks;
    var n, rest := Extend(mss, queue, data), data[Extend(mss, queue, data)..];
    assert queue != [] ==> queue[|queue| - 1] in queue;
    assert n == Min(|data|, Spare(mss, queue));
    if rest != [] {
      CountIs(mss, |rest|);
      FullChunks(mss, rest);
      if Compact(mss, queue) {
        JoinCompact(mss, TopUp(mss, queue, data), Chunks(mss, rest));
      }
    }
  }

  lemma CountIs(mss: int, n: int)
    requires 0 < mss && 0 < n
    ensures SegmentCount(mss, n) == (n + mss - 1) / mss
  {
    if n <= mss {
      DivUnique(n + mss - 1, mss, 1, n - 1);
    }
  }

  lemma {:induction false} FullChunks(mss: int, data: seq<byte>)
    requires mss > 0
    ensures Compact(mss, Chunks(mss, data))
    decreases |data|
  {
    if |data| > mss {
      FullChunks(mss, data[mss..]);
      JoinCompact(mss, [data[..mss]], Chunks(mss, data[mss..]));
    }
  }

  lemma JoinCompact(mss: int, a: seq<seq<byte>>, b: seq<seq<byte>>)
    requires Compact(mss, b) && forall i :: 0 <= i < |a| ==> |a[i]| == mss
    ensures Compact(mss, a + b)
  {
  }

  lemma AppendChunks(mss: int, queue: seq<seq<byte>>, queue': seq<seq<byte>>, data: seq<byte>, n: nat)
    requires mss > 0 && n <= |data| && Sized(mss, queue')
    requires Flat(queue') == Flat(queue) + data[..n]
    ensures Flat(queue' + Chunks(mss, data[n..])) == Flat(queue) + data
    ensures Sized(mss, queue' + Chunks(mss, data[n..]))
  {
    ChunksFlat(mss, data[n..]);
    ChunksSized(mss, data[n..]);
    FlatAppend(queue', Chunks(mss, data[n..]));
    Associate(Flat(queue), data[..n], data[n..]);
    SplitAt(data, n);
  }

  // ---------------------------------------------------------------- datagrams

  function Join(packets: seq<seq<Segment>>): seq<Segment> {
    if packets == [] then [] else Join(packets[..|packets| - 1]) + packets[|packets| - 1]
  }

  lemma JoinSnoc(packets: seq<seq<Segment>>, p: seq<Segment>)
    ensures Join(packets + [p]) == Join(packets) + p
  {
    assert (packets + [p])[..|packets|] == packets;
  }

  lemma PacketSizeSnoc(segs: seq<Segment>, s: Segment)
    ensures PacketSize(segs + [s]) == PacketSize(segs) + SegmentSize(s)
  {
    assert (segs + [s])[..|segs|] == segs;
  }

  ghost predicate Fits(mtu: int, packets: seq<seq<Segment>>) {
    forall p :: p in packets ==> p != [] && PacketSize(p) <= mtu
  }

  lemma {:induction false} PackJoin(mtu: int, segs: seq<Segment>)
    ensures var pk := Pack(mtu, segs); Join(pk.done) + pk.cur == segs
  {
    hide Join, AddSegment, PacketSize;
    if segs == [] {
      JoinNone();
    } else {
      var n := |segs| - 1;
      PackJoin(mtu, segs[..n]);
      AddJoin(mtu, Pack(mtu, segs[..n]), segs[n]);
      assert segs[..n] + [segs[n]] == segs;
    }
  }

  lemma JoinNone()
    ensures Join([]) + [] == []
  {
  }

  lemma AddJoin(mtu: int, pk: Packing, s: Segment)
    ensures var q := AddSegment(mtu, pk, s); Join(q.done) + q.cur == Join(pk.done) + pk.cur + [s]
  {
    JoinClose(pk);
    Associate(Join(pk.done), pk.cur, [s]);
  }

  lemma JoinClose(pk: Packing)
    ensures Join(Close(pk)) == Join(pk.done) + pk.cur
  {
    if pk.cur != [] {
      JoinSnoc(pk.done, pk.cur);
    }
  }

  lemma {:induction false} PackFits(mtu: int, segs: seq<Segment>)
    requires forall s :: s in segs ==> SegmentSize(s) <= mtu
    ensures var pk := Pack(mtu, segs); Fits(mtu, pk.done) && PacketSize(pk.cur) <= Max(mtu, 0)
  {
    if segs != [] {
      var n := |segs| - 1;
      PackFits(mtu, segs[..n]);
      AddFits(mtu, Pack(mtu, segs[..n]), segs[n]);
    }
  }

  lemma AddFits(mtu: int, pk: Packing, s: Segment)
    requires Fits(mtu, pk.done) && PacketSize(pk.cur) <= Max(mtu, 0) && SegmentSize(s) <= mtu
    ensures var q := AddSegment(mtu, pk, s); Fits(mtu, q.done) && PacketSize(q.cur) <= Max(mtu, 0)
  {
    PacketSizeSnoc(pk.cur, s);
    PacketSizeSnoc([], s);
    assert [] + [s] == [s];
  }

  /** Cutting a flush into datagrams loses, adds and reorders nothing, and
      every datagram is non-empty and at most `mtu` bytes. */
  lemma PacketsSpec(mtu: int, segs: seq<Segment>)
    requires forall s :: s in segs ==> SegmentSize(s) <= mtu
    ensures Join(Packets(mtu, segs)) == segs && Fits(mtu, Packets(mtu, segs))
  {
    PackJoin(mtu, segs);
    PackFits(mtu, segs);
    JoinClose(Pack(mtu, segs));
    assert segs != [] ==> SegmentSize(segs[0]) <= mtu;
  }

  /** No datagram could have taken the first segment of the next. */
  ghost predicate Greedy(mtu: int, ps: seq<seq<Segment>>) {
    forall i :: 0 <= i < |ps| - 1 ==> Tight(mtu, ps, i)
  }

  ghost predicate Tight(mtu: int, ps: seq<seq<Segment>>, i: nat)
    requires i < |ps| - 1
  {
    ps[i + 1] != [] && PacketSize(ps[i]) + SegmentSize(ps[i + 1][0]) > mtu
  }

  lemma AddGreedy(mtu: int, pk: Packing, s: Segment)
    requires Greedy(mtu, Close(pk)) && (pk.cur == [] ==> pk.done == []) && SegmentSize(s) <= mtu
    ensures var q := AddSegment(mtu, pk, s); Greedy(mtu, Close(q)) && q.cur != []
  {
    hide PacketSize, SegmentSize;
    var q := AddSegment(mtu, pk, s);
    if pk.cur == [] {
      NoBytes();
    } else if q.done == pk.done {
      forall i | 0 <= i < |pk.done| ensures Tight(mtu, Close(q), i) {
        assert Tight(mtu, Close(pk), i);
        assert Close(pk)[i] == Close(q)[i] && Close(pk)[i + 1][0] == Close(q)[i + 1][0];
      }
    } else {
      forall i | 0 <= i < |q.done| ensures Tight(mtu, Close(q), i) {
        assert i < |q.done| - 1 ==> Tight(mtu, Close(pk), i);
        assert i < |q.done| - 1 ==> Close(pk)[i] == Close(q)[i] && Close(pk)[i + 1] == Close(q)[i + 1];
      }
    }
  }

  lemma NoBytes()
    ensures PacketSize([]) == 0
  {
  }

  lemma {:induction false} PackGreedy(mtu: int, segs: seq<Segment>)
    requires forall s :: s in segs ==> SegmentSize(s) <= mtu
    ensures var pk := Pack(mtu, segs); Greedy(mtu, Close(pk)) && (pk.cur == [] ==> pk.done == [])
  {
    hide AddSegment, SegmentSize;
    if segs != [] {
      var n := |segs| - 1;
      PackGreedy(mtu, segs[..n]);
      AddGreedy(mtu, Pack(mtu, segs[..n]), segs[n]);
    }
  }

  /** A flush uses no datagram that it could have saved by filling the one before. */
  lemma PacketsAreFull(mtu: int, segs: seq<Segment>)
    requires forall s :: s in segs ==> SegmentSize(s) <= mtu
    ensures Greedy(mtu, Packets(mtu, segs))
  {
    PackGreedy(mtu, segs);
  }

  /** A segment is in a datagram exactly when it is in the joined list. */
  lemma {:induction false} JoinMember(packets: seq<seq<Segment>>, s: Segment)
    ensures s in Join(packets) <==> exists p :: p in packets && s in p
  {
    if packets != [] {
      var init, last := packets[..|packets| - 1], packets[|packets| - 1];
      assert packets == init + [last];
      JoinMember(init, s);
    }
  }

  /** Segments of one message: the fragment numbers count down to 0. */
  ghost predicate Message(queue: seq<Received>, n: nat) {
    0 < n <= |queue| && forall i :: 0 <= i < n ==> queue[i].frg == n - 1 - i
  }

  lemma {:induction false} MessageIs(queue: seq<Received>, n: nat)
    requires Message(queue, n)
    ensures MessageSpan(queue) == n
    decreases n
  {
    if n > 1 {
      MessageIs(queue[1..], n - 1);
    }
  }

  /** A receive gives a whole message if it fits, and otherwise says so and changes
      nothing; it does not begin with a message that has not arrived as a whole. */
  lemma RecvMessage(m: Arith, rcvWnd: int, r: Receiver, cap: int, n: nat)
    requires Message(r.queue, n)
    ensures var x, data := Recv(m, rcvWnd, r, cap), Payload(r.queue[..n]);
            if |data| <= cap then x.ret == |data| && x.data == data && x.rcv == Drain(m, rcvWnd, r.(queue := r.queue[n..]))
            else x.ret == -3 && x.data == [] && x.rcv == r
  {
    hide Drain, Payload;
    MessageIs(r.queue, n);
    if n == 1 {
      OnePayload(r.queue);
    }
  }

  lemma OnePayload(queue: seq<Received>)
    requires queue != []
    ensures Payload(queue[..1]) == queue[0].data
  {
    assert queue[..1] == [queue[0]] && [queue[0]][1..] == [];
    assert Payload([queue[0]]) == queue[0].data + Payload([]);
  }

  /** Nothing is received while there is no message or not all of it. */
  lemma RecvPartial(m: Arith, rcvWnd: int, r: Receiver, cap: int)
    requires r.queue == [] || r.queue[0].frg >= |r.queue|
    ensures Recv(m, rcvWnd, r, cap) == RecvResult(r, false, if r.queue == [] then -1 else -2, [])
  {
    hide Drain, Payload;
  }

  /** In stream mode a receive gives exactly the first queued segment if it fits,
      and otherwise says so and changes nothing. */
  lemma RecvOne(m: Arith, rcvWnd: int, r: Receiver, cap: int)
    requires r.queue != [] && r.queue[0].frg == 0
    ensures var x, head := Recv(m, rcvWnd, r, cap), r.queue[0].data;
            if |head| <= cap then x.ret == |head| && x.data == head && x.rcv == Drain(m, rcvWnd, r.(queue := r.queue[1..]))
            else x.ret == -3 && x.data == [] && x.rcv == r
  {
    hide Drain, Payload;
    RecvMessage(m, rcvWnd, r, cap, 1);
    OnePayload(r.queue);
  }
}
