/** The scheduling hint of ikcp_check and its agreement with ikcp_update. */
module KcpClock {
  import opened Words
  import opened KcpModel

  const NO_LIMIT := 0x7fff_ffff

  /** Time until the next flush, or 0 if ikcp_update would flush at `now`. */
  function FlushDelay(p: Pace, now: int): int {
    if !p.updated then 0
    else
      var slap := TimeDiff(now, p.tsFlush);
      if slap >= 0 || slap < -10000 then 0 else TimeDiff(p.tsFlush, now)
  }

  /** Time until the first of the segments is due again; not positive if one is. */
  function PacketDelay(buf: seq<InFlight>, now: int): int {
    if buf == [] then NO_LIMIT
    else Min(PacketDelay(buf[..|buf| - 1], now), TimeDiff(buf[|buf| - 1].resendts, now))
  }

  function CheckDelay(cfg: Config, p: Pace, buf: seq<InFlight>, now: int): int {
    if FlushDelay(p, now) == 0 then 0
    else Max(0, Min(Min(PacketDelay(buf, now), FlushDelay(p, now)), cfg.interval))
  }

  /** The time ikcp_check returns. */
  function Check(cfg: Config, p: Pace, buf: seq<InFlight>, now: int): int {
    U32(now + CheckDelay(cfg, p, buf, now))
  }

  /** The signed difference follows a small step of the clock, across the wrap. */
  lemma LaterBy(now: int, ts: int, d: int)
    requires 0 <= d && TimeDiff(now, ts) + d < H32
    ensures TimeDiff(U32(now + d), ts) == TimeDiff(now, ts) + d
  {
    var k := (now - ts) / W32;
    var t := U32(now - ts);
    assert now - ts == k * W32 + t;
    AddWraps(now + d, -ts);
    ModShift(t + d, k);
    ModShift(t + d - W32, 1);
  }

  lemma Opposite(x: int, y: int)
    requires TimeDiff(x, y) != -H32
    ensures TimeDiff(y, x) == -TimeDiff(x, y)
  {
    var k := (x - y) / W32;
    assert x - y == k * W32 + U32(x - y);
    ModShift(-U32(x - y), -k);
    ModShift(-U32(x - y), 1);
  }

  /** From `now` on, ikcp_update flushes first after exactly the flush delay,
      also when the clock wraps, and the resynchronisation after ten seconds
      neither hastens nor delays that flush. */
  lemma FlushesExactlyThen(cfg: Config, p: Pace, now: int, d: int)
    requires 0 <= d <= FlushDelay(p, now) && 0 <= now < W32
    ensures TickAt(cfg, p, U32(now + d)).flush <==> d == FlushDelay(p, now)
  {
    if FlushDelay(p, now) > 0 {
      Opposite(now, p.tsFlush);
      LaterBy(now, p.tsFlush, d);
    }
  }

  /** The hint is `now` exactly when a flush or a segment is due already. */
  lemma HintIsNow(cfg: Config, p: Pace, buf: seq<InFlight>, now: int)
    requires 0 <= now < W32
    ensures Check(cfg, p, buf, now) == now <==>
            TickAt(cfg, p, now).flush || (exists i :: 0 <= i < |buf| && TimeDiff(buf[i].resendts, now) <= 0)
  {
    FlushesExactlyThen(cfg, p, now, 0);
    DelayRange(p, now);
    EarliestDue(buf, now);
    WrapInjective(now + CheckDelay(cfg, p, buf, now), now);
  }

  lemma DelayRange(p: Pace, now: int)
    ensures 0 <= FlushDelay(p, now) <= 10000
  {
    if FlushDelay(p, now) != 0 {
      Opposite(now, p.tsFlush);
    }
  }

  lemma {:induction false} EarliestDue(buf: seq<InFlight>, now: int)
    ensures PacketDelay(buf, now) <= NO_LIMIT
    ensures PacketDelay(buf, now) <= 0 <==> exists i :: 0 <= i < |buf| && TimeDiff(buf[i].resendts, now) <= 0
  {
    if buf != [] {
      var rest, last := buf[..|buf| - 1], |buf| - 1;
      EarliestDue(rest, now);
      assert forall i :: 0 <= i < last ==> rest[i] == buf[i];
      assert TimeDiff(buf[last].resendts, now) <= 0 || PacketDelay(rest, now) == PacketDelay(buf, now) ||
             PacketDelay(buf, now) > 0;
    }
  }

  /** No update from `now` until just before the hint flushes, and the hint does
      not lie after the first flush. */
  lemma HintIsSafe(cfg: Config, p: Pace, buf: seq<InFlight>, now: int, d: int)
    requires 0 <= now < W32 && 0 <= d < CheckDelay(cfg, p, buf, now)
    ensures !TickAt(cfg, p, U32(now + d)).flush
    ensures CheckDelay(cfg, p, buf, now) <= FlushDelay(p, now)
    ensures TickAt(cfg, p, U32(now + FlushDelay(p, now))).flush
  {
    FlushesExactlyThen(cfg, p, now, d);
    FlushesExactlyThen(cfg, p, now, FlushDelay(p, now));
  }

  /** After `d` milliseconds an update would flush, a segment is due again, or the
      interval is over. */
  ghost predicate Wakes(cfg: Config, p: Pace, buf: seq<InFlight>, now: int, d: int) {
    || TickAt(cfg, p, U32(now + d)).flush
    || (exists i :: 0 <= i < |buf| && TimeDiff(buf[i].resendts, now) <= d)
    || d == cfg.interval
  }

  lemma {:induction false} EarliestBy(buf: seq<InFlight>, now: int, d: int)
    requires d < NO_LIMIT
    ensures PacketDelay(buf, now) <= d <==> exists i :: 0 <= i < |buf| && TimeDiff(buf[i].resendts, now) <= d
  {
    hide TimeDiff;
    if buf != [] {
      var rest, last := buf[..|buf| - 1], |buf| - 1;
      EarliestBy(rest, now, d);
      assert forall i :: 0 <= i < last ==> rest[i] == buf[i];
      assert TimeDiff(buf[last].resendts, now) <= d || PacketDelay(rest, now) == PacketDelay(buf, now) ||
             PacketDelay(buf, now) > d;
    }
  }

  /** The hint is the first time, from `now` on, at which one of these happens. */
  lemma HintIsEarliest(cfg: Config, p: Pace, buf: seq<InFlight>, now: int)
    requires 0 <= now < W32
    ensures var d := CheckDelay(cfg, p, buf, now);
            && Check(cfg, p, buf, now) == U32(now + d) && 0 <= d <= cfg.interval
            && Wakes(cfg, p, buf, now, d) && (forall e :: 0 <= e < d ==> !Wakes(cfg, p, buf, now, e))
  {
    hide TickAt, TimeDiff, PacketDelay, FlushDelay, U32;
    var d := CheckDelay(cfg, p, buf, now);
    DelayRange(p, now);
    FlushesExactlyThen(cfg, p, now, FlushDelay(p, now));
    EarliestBy(buf, now, d);
    forall e | 0 <= e < d ensures !Wakes(cfg, p, buf, now, e) {
      FlushesExactlyThen(cfg, p, now, e);
      EarliestBy(buf, now, e);
    }
  }

  /** After an update that flushed at `now`, the next flush comes one interval after the
      time that one was due, or one interval after `now` if that is past or unknown. An
      update that does not flush changes nothing about it. */
  lemma NextFlush(cfg: Config, p: Pace, now: int)
    requires 0 <= now < W32
    ensures var t := TickAt(cfg, p, now);
            var q, late := p.(updated := true, current := now, tsFlush := t.tsFlush), TimeDiff(now, p.tsFlush);
            if t.flush then
              FlushDelay(q, now) == if p.updated && 0 <= late < cfg.interval then cfg.interval - late else cfg.interval
            else p.updated && t.tsFlush == p.tsFlush
  {
    var t, late := TickAt(cfg, p, now), TimeDiff(now, p.tsFlush);
    if t.flush {
      if p.updated && 0 <= late < cfg.interval {
        After(p.tsFlush, now, cfg.interval, late);
      } else {
        After(now, now, cfg.interval, 0);
        if p.updated && cfg.interval <= late < 10000 {
          Passed(p.tsFlush, now, cfg.interval, late);
        }
      }
    }
  }

  /** A time `d` after `ts`, seen from `late` after `ts`. */
  lemma After(ts: int, now: int, d: int, late: int)
    requires 0 <= late < d <= 5000 && TimeDiff(now, ts) == late
    ensures TimeDiff(now, U32(ts + d)) == late - d && TimeDiff(U32(ts + d), now) == d - late
  {
    var k, l := (now - ts) / W32, (ts + d) / W32;
    assert now - ts == k * W32 + late;
    assert now - U32(ts + d) == late - d + (k + l) * W32;
    ModShift(late - d, k + l);
    Opposite(now, U32(ts + d));
  }

  lemma Passed(ts: int, now: int, d: int, late: int)
    requires 0 <= d <= late < 10000 && TimeDiff(now, ts) == late
    ensures TimeDiff(now, U32(ts + d)) == late - d
  {
    var k, l := (now - ts) / W32, (ts + d) / W32;
    assert now - ts == k * W32 + late;
    assert now - U32(ts + d) == late - d + (k + l) * W32;
    ModShift(late - d, k + l);
  }
}
