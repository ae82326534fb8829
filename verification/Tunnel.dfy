/** What a tunnel promises as a whole: the bytes one side writes to TCP are a
    prefix of the bytes the other side reads from TCP, and a session nobody talks
    to goes away. */
module Tunnel {
  import opened Frames
  import opened Sessions

  /** If KCP gave side `b` a prefix of the bytes side `a` handed to it, then `b`
      has written to TCP a prefix of what `a` has read from TCP, and all of it
      if `b` has acted on the EOF. */
  lemma TunnelIsPrefix(a: Session, b: Session)
    requires a.Valid() && b.Valid() && b.h.received <= a.h.offered
    ensures b.h.written <= a.h.read
    ensures b.h.eof ==> b.h.written == a.h.read
  {
    hide Session.Valid;
    Receiving(b);
    Sending(a);
    PrefixOf(a.h, b.peer, b.h);
  }

  lemma PrefixOf(a: Log, peer: seq<Frame>, b: Log)
    requires AllHonest(a.sent) && a.offered == EncodeFrames(a.sent) && a.read == Payloads(a.sent)
    requires forall i :: 0 <= i < |a.sent| && a.sent[i].Eof? ==> i == |a.sent| - 1
    requires Delivered(peer, b) && b.received <= a.offered
    ensures b.written <= a.read && (b.eof ==> b.written == a.read)
  {
    var n: nat :| Reached(peer, b, n);
    var fs := peer[..n];
    SameFrames(fs, a.sent);
    PayloadsPrefix(a.sent, n);
    assert a.sent[..n] == fs;
    if b.eof {
      assert a.sent[n - 1] == fs[n - 1] == peer[n - 1];
      assert a.sent[..n] == a.sent;
    }
  }

  lemma Receiving(b: Session)
    requires b.Valid()
    ensures Delivered(b.peer, b.h)
  {
    if b.alive {
      DeframedDelivers(b.peer, b.h, b.wbuf, b.wbufFlush, b.wbufNext, b.inbound);
    }
  }

  lemma Sending(a: Session)
    requires a.Valid()
    ensures AllHonest(a.h.sent) && a.h.offered == EncodeFrames(a.h.sent) && a.h.read == Payloads(a.h.sent)
    ensures forall i :: 0 <= i < |a.h.sent| && a.h.sent[i].Eof? ==> i == |a.h.sent| - 1
  {
  }

  // ---------------------------------------------------------------- silent sessions

  /** What the timer looks at, and the number of segments KCP holds ready. */
  datatype Watch = Watch(state: State, timers: Timers, pending: nat, freed: bool)

  /** A tick of the timer, or some other callback that leaves what is given. */
  datatype Event = Tick(now: real) | Other(now: real, state: State, lastSend: Moment, lastRecv: Moment, pending: nat)

  function After(t: Timers, ev: Event): Timers
    requires ev.Other?
  {
    t.(lastSend := ev.lastSend, lastRecv := ev.lastRecv)
  }

  function Observe(lim: Limits, accepted: bool, w: Watch, ev: Event): Watch {
    if w.freed then w
    else if ev.Tick? then
      var e := Expire(lim, accepted, w.state, w.timers, ev.now);
      Watch(e.state, e.timers, w.pending, !e.keep)
    else Watch(ev.state, After(w.timers, ev), ev.pending, false)
  }

  function Watched(lim: Limits, accepted: bool, w: Watch, evs: seq<Event>): Watch {
    if evs == [] then w
    else Observe(lim, accepted, Watched(lim, accepted, w, evs[..|evs| - 1]), evs[|evs| - 1])
  }

  /** A callback other than the timer does what every callback does when no packet
      has come. */
  predicate Allowed(w: Watch, ev: Event) {
    ev.Other? ==> Unfed(w.state, w.timers, w.pending, ev.state, After(w.timers, ev), ev.pending, ev.now)
  }

  ghost predicate NoPackets(lim: Limits, accepted: bool, w: Watch, evs: seq<Event>) {
    forall i :: 0 <= i < |evs| ==> Allowed(Watched(lim, accepted, w, evs[..i]), evs[i])
  }

  ghost predicate InOrder(evs: seq<Event>) {
    forall i, j :: 0 <= i <= j < |evs| ==> evs[i].now <= evs[j].now
  }

  /** The timer ticks in every stretch of `period` up to `end`. */
  ghost predicate Regular(evs: seq<Event>, start: real, end: real, period: real) {
    forall x: real :: start <= x && x + period <= end ==> TicksIn(evs, x, period)
  }

  ghost predicate TicksIn(evs: seq<Event>, from: real, period: real) {
    exists i :: 0 <= i < |evs| && evs[i].Tick? && from < evs[i].now <= from + period
  }

  predicate Past(t: Timers, x: real) {
    && t.created <= x && (t.lastReset.At? ==> t.lastReset.time <= x)
    && (t.lastSend.At? ==> t.lastSend.time <= x) && (t.lastRecv.At? ==> t.lastRecv.time <= x)
  }

  /** A session that is watched and the events it sees. */
  ghost predicate Quiescent(lim: Limits, accepted: bool, w: Watch, evs: seq<Event>) {
    w.state != Init && !w.freed && InOrder(evs) && NoPackets(lim, accepted, w, evs)
  }

  /** The first `n` events are over by time `x`. */
  ghost predicate Over(evs: seq<Event>, n: nat, x: real) {
    n <= |evs| && forall k :: 0 <= k < n ==> evs[k].now <= x
  }

  function Closeness(w: Watch): int { if w.freed then 5 else Rank(w.state) }

  /** From `u` to `v` without packets: nothing is taken back, the timestamps stay in
      the past of `x`, and a session that counts as seen holds fewer segments. */
  predicate Later(u: Watch, v: Watch, x: real) {
    && v.state != Init && Closeness(u) <= Closeness(v) && v.pending <= u.pending
    && v.timers == u.timers.(lastSend := v.timers.lastSend, lastRecv := v.timers.lastRecv)
    && (Past(u.timers, x) ==> Past(v.timers, x))
    && (v.timers.lastRecv != u.timers.lastRecv ==> v.pending < u.pending)
    && (Closeness(u) >= 3 ==> v.timers == u.timers)
  }

  lemma OneEvent(lim: Limits, accepted: bool, w: Watch, ev: Event, x: real)
    requires Allowed(w, ev) && w.state != Init && ev.now <= x
    ensures Later(w, Observe(lim, accepted, w, ev), x)
  {
  }

  lemma LaterOn(u: Watch, v: Watch, w: Watch, x: real)
    requires Later(u, v, x) && Later(v, w, x)
    ensures Later(u, w, x)
  {
  }

  lemma {:induction false} Lasts(lim: Limits, accepted: bool, w: Watch, evs: seq<Event>, i: nat, j: nat, x: real)
    requires Quiescent(lim, accepted, w, evs) && i <= j && Over(evs, j, x)
    ensures Later(Watched(lim, accepted, w, evs[..i]), Watched(lim, accepted, w, evs[..j]), x)
    decreases j
  {
    hide Observe, Past, Allowed, Watched;
    var u := Watched(lim, accepted, w, evs[..i]);
    if j == 0 {
      NothingWatched(lim, accepted, w, evs);
    } else {
      var v := Watched(lim, accepted, w, evs[..j - 1]);
      Lasts(lim, accepted, w, evs, if i < j then i else j - 1, j - 1, x);
      Step(lim, accepted, w, evs, j - 1);
      OneEvent(lim, accepted, v, evs[j - 1], x);
      if i < j {
        LaterOn(u, v, Watched(lim, accepted, w, evs[..j]), x);
      }
    }
  }

  lemma Step(lim: Limits, accepted: bool, w: Watch, evs: seq<Event>, i: nat)
    requires i < |evs|
    ensures Watched(lim, accepted, w, evs[..i + 1]) ==
            Observe(lim, accepted, Watched(lim, accepted, w, evs[..i]), evs[i])
  {
    assert evs[..i + 1][..i] == evs[..i];
  }

  /** Time enough for `n` segments to be taken and one more stretch without any. */
  function Span(n: nat, open: real, period: real): real {
    open + period + if n == 0 then 0.0 else Span(n - 1, open, period)
  }

  lemma {:induction false} SpanIs(n: nat, open: real, period: real)
    ensures Span(n, open, period) == (n + 1) as real * open + (n + 1) as real * period
  {
    if n > 0 {
      SpanIs(n - 1, open, period);
      assert (n + 1) as real == n as real + 1.0;
      assert (n as real + 1.0) * open == n as real * open + open;
      assert (n as real + 1.0) * period == n as real * period + period;
    }
  }

  lemma {:induction false} SpanPositive(n: nat, open: real, period: real)
    requires open >= 0.0 && period > 0.0
    ensures Span(n, open, period) > 0.0
  {
    if n > 0 {
      SpanPositive(n - 1, open, period);
    }
  }

  /** A session with at most `n` ready segments closes: a stretch without packets
      either outlasts the dial and session limits or uses up a segment. */
  lemma {:induction false} Closes(lim: Limits, accepted: bool, w: Watch, evs: seq<Event>, i: nat, x: real, n: nat,
                                  start: real, end: real, period: real, open: real) returns (j: nat)
    requires Quiescent(lim, accepted, w, evs) && Regular(evs, start, end, period)
    requires Over(evs, i, x) && Past(Watched(lim, accepted, w, evs[..i]).timers, x)
    requires Watched(lim, accepted, w, evs[..i]).pending <= n
    requires open >= lim.dial && open >= lim.session && open >= 0.0 && period > 0.0
    requires start <= x && x + Span(n, open, period) <= end
    ensures i <= j && Over(evs, j, x + Span(n, open, period)) && Closeness(Watched(lim, accepted, w, evs[..j])) >= 3
    decreases n
  {
    hide Quiescent, Regular, Watched, Over;
    SpanAtLeast(n, open, period);
    var k := SomeTick(evs, start, end, period, x + open);
    TickLater(evs, i, k, x);
    Ordered(lim, accepted, w, evs, k);
    Lasts(lim, accepted, w, evs, i, k, evs[k].now);
    Step(lim, accepted, w, evs, k);
    var u, v := Watched(lim, accepted, w, evs[..i]), Watched(lim, accepted, w, evs[..k]);
    OverMore(evs, k, evs[k].now, x + Span(n, open, period));
    if Closeness(v) >= 3 {
      j := k;
    } else if v.state == Connected && v.timers.lastRecv != u.timers.lastRecv {
      PastLater(u.timers, x, evs[k].now);
      j := Closes(lim, accepted, w, evs, k, evs[k].now, n - 1, start, end, period, open);
      OverMore(evs, j, evs[k].now + Span(n - 1, open, period), x + Span(n, open, period));
    } else {
      TickCloses(lim, accepted, v, evs[k].now, x);
      j := k + 1;
    }
  }

  lemma SpanAtLeast(n: nat, open: real, period: real)
    requires open >= 0.0 && period > 0.0
    ensures Span(n, open, period) >= open + period
    ensures n > 0 ==> Span(n, open, period) == open + period + Span(n - 1, open, period)
  {
    if n > 0 {
      SpanPositive(n - 1, open, period);
    }
  }

  lemma TickLater(evs: seq<Event>, i: nat, k: nat, x: real)
    requires Over(evs, i, x) && k < |evs| && evs[k].now > x
    ensures i <= k
  {
  }

  lemma Ordered(lim: Limits, accepted: bool, w: Watch, evs: seq<Event>, k: nat)
    requires Quiescent(lim, accepted, w, evs) && k < |evs|
    ensures Over(evs, k, evs[k].now) && Over(evs, k + 1, evs[k].now)
  {
  }

  lemma OverMore(evs: seq<Event>, n: nat, x: real, y: real)
    requires Over(evs, n, x) && x <= y
    ensures Over(evs, n, y)
    ensures n < |evs| && evs[n].now <= x ==> Over(evs, n + 1, y)
  {
  }

  lemma PastLater(t: Timers, x: real, y: real)
    requires Past(t, x) && x <= y
    ensures Past(t, y)
  {
  }

  /** A tick past the dial and session limits closes an open session. */
  lemma TickCloses(lim: Limits, accepted: bool, v: Watch, now: real, x: real)
    requires v.state != Init && v.timers.created <= x
    requires v.state == Connected && v.timers.lastRecv.At? ==> v.timers.lastRecv.time <= x
    requires now > x + lim.dial && now > x + lim.session
    ensures Closeness(Observe(lim, accepted, v, Tick(now))) >= 3
  {
  }

  /** A session that no packet reaches is freed, whatever its TCP side does and
      however many segments KCP still holds for it: each of them can keep it open
      for one more session limit. */
  lemma SilentIsReclaimed(lim: Limits, accepted: bool, w: Watch, evs: seq<Event>,
                          start: real, end: real, period: real, open: real)
    requires Quiescent(lim, accepted, w, evs) && Past(w.timers, start)
    requires open >= lim.dial >= 0.0 && open >= lim.session >= 0.0 && lim.linger >= 0.0 && lim.timeWait >= 0.0
    requires period > 0.0 && Regular(evs, start, end, period)
    requires end >= start + (w.pending + 1) as real * open + lim.linger + lim.timeWait + (w.pending + 3) as real * period
    ensures Watched(lim, accepted, w, evs).freed
  {
    hide Quiescent, Past, Regular, Over;
    SpanIs(w.pending, open, period);
    TwoMore(w.pending, period);
    SpanPositive(w.pending, open, period);
    assert evs[..0] == [];
    var x1 := start + Span(w.pending, open, period);
    assert Over(evs, 0, start) by { NothingOver(evs, start); }
    var j := Closes(lim, accepted, w, evs, 0, start, w.pending, start, end, period, open);
    Frees(lim, accepted, w, evs, j, start, x1, end, period);
  }

  lemma NothingOver(evs: seq<Event>, x: real)
    ensures Over(evs, 0, x)
  {
  }

  lemma TwoMore(n: nat, period: real)
    ensures (n + 3) as real * period == (n + 1) as real * period + 2.0 * period
  {
    assert (n + 3) as real == (n + 1) as real + 2.0;
  }

  /** A session closed by time `x` is freed after the linger and time-wait limits. */
  lemma Frees(lim: Limits, accepted: bool, w: Watch, evs: seq<Event>, j: nat,
              start: real, x: real, end: real, period: real)
    requires Quiescent(lim, accepted, w, evs) && Past(w.timers, start) && Regular(evs, start, end, period)
    requires Over(evs, j, x) && start <= x && Closeness(Watched(lim, accepted, w, evs[..j])) >= 3
    requires lim.linger >= 0.0 && lim.timeWait >= 0.0 && period > 0.0
    requires end >= x + lim.linger + lim.timeWait + 2.0 * period
    ensures Watched(lim, accepted, w, evs).freed
  {
    hide Quiescent, Regular, Over, Watched;
    var k := SomeTick(evs, start, end, period, x + lim.linger);
    var l := SomeTick(evs, start, end, period, x + lim.linger + period + lim.timeWait);
    TickLater(evs, j, k, x);
    Ordered(lim, accepted, w, evs, k);
    Ordered(lim, accepted, w, evs, l);
    OverMore(evs, k, evs[k].now, evs[k].now);
    TickLater(evs, k + 1, l, evs[k].now);
    PastLater(w.timers, start, x);
    NothingWatched(lim, accepted, w, evs);
    Lasts(lim, accepted, w, evs, 0, j, x);
    Lasts(lim, accepted, w, evs, j, k, evs[k].now);
    Step(lim, accepted, w, evs, k);
    Lasts(lim, accepted, w, evs, k + 1, l, evs[l].now);
    Lasts(lim, accepted, w, evs, 0, l, evs[l].now);
    Step(lim, accepted, w, evs, l);
    var u, v := Watched(lim, accepted, w, evs[..k]), Watched(lim, accepted, w, evs[..l]);
    TickReleases(lim, accepted, u, evs[k].now, x);
    TickFrees(lim, accepted, v, evs[l].now, x);
    AllOver(lim, accepted, w, evs, l);
  }

  lemma NothingWatched(lim: Limits, accepted: bool, w: Watch, evs: seq<Event>)
    ensures Watched(lim, accepted, w, evs[..0]) == w
  {
  }

  /** A tick past the linger limit ends Linger. */
  lemma TickReleases(lim: Limits, accepted: bool, u: Watch, now: real, x: real)
    requires Closeness(u) >= 3 && Past(u.timers, x) && now > x + lim.linger
    ensures Closeness(Observe(lim, accepted, u, Tick(now))) >= 4
  {
  }

  /** A tick past the time-wait limit frees. */
  lemma TickFrees(lim: Limits, accepted: bool, v: Watch, now: real, x: real)
    requires Closeness(v) >= 4 && now > x + lim.timeWait
    requires v.timers.created <= x && (v.timers.lastReset.At? ==> v.timers.lastReset.time <= x)
    ensures Observe(lim, accepted, v, Tick(now)).freed
  {
  }

  lemma AllOver(lim: Limits, accepted: bool, w: Watch, evs: seq<Event>, l: nat)
    requires Quiescent(lim, accepted, w, evs) && l < |evs| && Watched(lim, accepted, w, evs[..l + 1]).freed
    ensures Watched(lim, accepted, w, evs).freed
  {
    hide Watched, Quiescent, Over;
    var n := |evs|;
    Ordered(lim, accepted, w, evs, n - 1);
    Lasts(lim, accepted, w, evs, l + 1, n, evs[n - 1].now);
    assert evs[..n] == evs;
  }

  lemma SomeTick(evs: seq<Event>, start: real, end: real, period: real, x: real) returns (i: nat)
    requires Regular(evs, start, end, period) && start <= x && x + period <= end
    ensures i < |evs| && evs[i].Tick? && x < evs[i].now <= x + period
  {
    assert TicksIn(evs, x, period);
    i :| 0 <= i < |evs| && evs[i].Tick? && x < evs[i].now <= x + period;
  }

  // ---------------------------------------------------------------- a session that stays longer

  /** Ticks every ten seconds, the first at `10 * (a + 1)`. */
  function Ticks(a: nat, n: nat): seq<Event> {
    seq(n, i requires 0 <= i < n => Tick((10 * (a + i + 1)) as real))
  }

  lemma {:induction false} Idle(lim: Limits, w: Watch, a: nat, n: nat)
    requires w.state == Connected && w.timers.lastRecv.At?
    requires (10 * (a + n)) as real <= w.timers.lastRecv.time + lim.session
    ensures Watched(lim, true, w, Ticks(a, n)) == w
  {
    if n > 0 {
      assert Ticks(a, n)[..n - 1] == Ticks(a, n - 1);
      Idle(lim, w, a, n - 1);
    }
  }

  lemma {:induction false} WatchedJoin(lim: Limits, accepted: bool, w: Watch, a: seq<Event>, b: seq<Event>)
    ensures Watched(lim, accepted, w, a + b) == Watched(lim, accepted, Watched(lim, accepted, w, a), b)
  {
    if b == [] {
      assert a + b == a;
    } else {
      var n := |b| - 1;
      assert (a + b)[..|a| + n] == a + b[..n];
      WatchedJoin(lim, accepted, w, a, b[..n]);
    }
  }

  /** Ticks up to 600 and on to 780 with `ev` in between. */
  function Minutes(ev: Event): seq<Event> { Ticks(0, 60) + [ev] + Ticks(60, 18) }

  lemma MinutesRegular(ev: Event)
    requires ev.Other? && ev.now == 600.0
    ensures InOrder(Minutes(ev)) && Regular(Minutes(ev), 0.0, 780.0, 10.0)
  {
    var evs := Minutes(ev);
    forall x: real | 0.0 <= x && x + 10.0 <= 780.0 ensures TicksIn(evs, x, 10.0) {
      var k := (x / 10.0).Floor;
      assert k as real <= x / 10.0 < k as real + 1.0;
      assert 0 <= k <= 77;
      var i := if k < 60 then k else k + 1;
      assert evs[i] == Tick((10 * (k + 1)) as real);
      assert x < (10 * (k + 1)) as real <= x + 10.0;
    }
  }

  /** With one segment left in KCP, a session of the default configuration (600 s,
      30 s and 120 s, a tick every 10 s) is still there at the time by which every
      session without one is freed: its TCP reader took the segment after 600 s. */
  lemma BufferedSegmentStays(w: Watch, ev: Event)
    requires w == Watch(Connected, Timers(0.0, Never, Never, At(0.0)), 1, false)
    requires ev == Other(600.0, Connected, Never, At(600.0), 0)
    ensures var lim, evs := Limits(30.0, 600.0, 25.0, 30.0, 120.0), Minutes(ev);
            && Quiescent(lim, true, w, evs) && Past(w.timers, 0.0)
            && Regular(evs, 0.0, 600.0 + 30.0 + 120.0 + 3.0 * 10.0, 10.0)
            && !Watched(lim, true, w, evs).freed
  {
    hide Regular;
    var lim, evs := Limits(30.0, 600.0, 25.0, 30.0, 120.0), Minutes(ev);
    MinutesRegular(ev);
    var v := Observe(lim, true, w, ev);
    Idle(lim, w, 0, 60);
    Idle(lim, v, 60, 18);
    assert (Ticks(0, 60) + [ev])[..60] == Ticks(0, 60);
    WatchedJoin(lim, true, w, Ticks(0, 60) + [ev], Ticks(60, 18));
    assert evs[..60] == Ticks(0, 60) && evs[60] == ev;
    assert Allowed(w, ev);
    forall i | 0 <= i < |evs| ensures Allowed(Watched(lim, true, w, evs[..i]), evs[i]) {
      assert i != 60 ==> evs[i].Tick?;
    }
  }

  // ---------------------------------------------------------------- not before its time

  /** How long a session may stay in a state, and since when that counts. */
  function Limit(lim: Limits, s: State): real {
    match s
    case Init | Connect => lim.dial
    case Connected => lim.session
    case Linger => lim.linger
    case TimeWait => lim.timeWait
  }

  function Mark(s: State, t: Timers): real {
    var m := match s
             case Init | Connect => Never
             case Connected => t.lastRecv
             case Linger => t.lastSend
             case TimeWait => t.lastReset;
    if m.At? then m.time else t.created
  }

  /** A tick takes a session forward exactly if it has been in its state for longer than
      the limit of that state. */
  lemma TickMoves(lim: Limits, accepted: bool, w: Watch, now: real)
    requires !w.freed
    ensures var v := Observe(lim, accepted, w, Tick(now));
            if now > Mark(w.state, w.timers) + Limit(lim, w.state) then Closeness(v) > Closeness(w)
            else
              && v.state == w.state && !v.freed && v.pending == w.pending
              && Mark(v.state, v.timers) == Mark(w.state, w.timers)
  {
  }

  /** However often the timer ticks, no session is taken forward before its limit. */
  lemma {:induction false} NeverEarly(lim: Limits, accepted: bool, w: Watch, evs: seq<Event>)
    requires !w.freed
    requires forall i :: 0 <= i < |evs| ==> evs[i].Tick? && evs[i].now <= Mark(w.state, w.timers) + Limit(lim, w.state)
    ensures var v := Watched(lim, accepted, w, evs);
            v.state == w.state && !v.freed && v.pending == w.pending && Mark(v.state, v.timers) == Mark(w.state, w.timers)
  {
    hide Observe, Mark, Limit;
    if evs != [] {
      var n := |evs| - 1;
      NeverEarly(lim, accepted, w, evs[..n]);
      TickMoves(lim, accepted, Watched(lim, accepted, w, evs[..n]), evs[n].now);
    }
  }

  /** What the timer says, after any number of ticks that left the session where it was: a
      client asks at every tick more than `keepalive` after the last packet, the accepting
      side never does, and a dial that took too long ends with EOF. */
  lemma AsksOnTime(lim: Limits, accepted: bool, w: Watch, evs: seq<Event>, now: real)
    requires !w.freed
    requires forall i :: 0 <= i < |evs| ==> evs[i].Tick? && evs[i].now <= Mark(w.state, w.timers) + Limit(lim, w.state)
    ensures var v, waited := Watched(lim, accepted, w, evs), now - Mark(w.state, w.timers);
            Reminder(lim, accepted, v.state, v.timers, now) ==
            match w.state
            case Connected => if !accepted && lim.keepalive < waited <= lim.session then [KeepAlive] else []
            case Connect => if waited > lim.dial then [Eof] else []
            case _ => []
  {
    NeverEarly(lim, accepted, w, evs);
  }
}
