/**
 The sliding window of a throttle rule (`auth/throttle.go`): when an attempt
 fits, and how long a refused client is told to wait. The window fraction and
 the weighted counts are reals; a reported wait is whole seconds in
 nanoseconds.
 */
module ThrottleWait {

  const SECOND: int := 1_000_000_000

  /** Whether one more attempt fits, `tau` windows after the start of a bucket with `current` attempts
      that followed one with `previous`, when nothing else is attempted: in the bucket itself, in the
      next one, whose previous bucket it is, or after both. */
  predicate FitsAt(previous: real, current: real, limit: real, tau: real) {
    if tau < 1.0 then previous * (1.0 - tau) + current + 1.0 <= limit
    else if tau < 2.0 then current * (2.0 - tau) + 1.0 <= limit
    else 1.0 <= limit
  }

  /** The instant `throttleWait` aims at, in windows from the start of the bucket. */
  function FitInstant(previous: real, current: real, limit: real): real
    requires if current + 1.0 <= limit then previous > 0.0 else current > 0.0
  {
    if current + 1.0 <= limit then 1.0 - (limit - current - 1.0) / previous
    else 2.0 - (limit - 1.0) / current
  }

  lemma ScaledOrder(factor: real, a: real, b: real)
    requires factor > 0.0
    ensures factor * a <= factor * b <==> a <= b
  {
    if a < b {
      assert factor * (b - a) > 0.0;
    } else if a > b {
      assert factor * (a - b) > 0.0;
    }
  }

  lemma ProductSign(a: real, b: real)
    requires a >= 0.0 && b >= 0.0
    ensures a * b >= 0.0
  {
  }

  /** The weighted count fits exactly from the instant at which what is left of the weight is `room`. */
  lemma DecaysTo(weight: real, room: real, end: real, tau: real)
    requires weight > 0.0
    ensures weight * (end - tau) <= room <==> tau >= end - room / weight
  {
    assert weight * (room / weight) == room;
    ScaledOrder(weight, end - tau, room / weight);
  }

  /** For an attempt that does not fit now, the instant is the least at which one more fits, and it
      goes on fitting from then. */
  lemma FitInstantExact(previous: real, current: real, limit: real, elapsed: real, tau: real)
    requires previous >= 0.0 && current >= 0.0 && limit >= 1.0
    requires 0.0 <= elapsed < 1.0 && !FitsAt(previous, current, limit, elapsed)
    requires tau >= elapsed
    ensures if current + 1.0 <= limit then previous > 0.0 else current > 0.0
    ensures FitInstant(previous, current, limit) > elapsed
    ensures FitsAt(previous, current, limit, tau) <==> tau >= FitInstant(previous, current, limit)
  {
    SomethingDecays(previous, current, limit, elapsed);
    if current + 1.0 <= limit {
      FitsInThisBucket(previous, current, limit, elapsed, tau);
    } else {
      FitsInTheNext(previous, current, limit, elapsed, tau);
    }
  }

  lemma FitsInThisBucket(previous: real, current: real, limit: real, elapsed: real, tau: real)
    requires previous > 0.0 && current >= 0.0 && current + 1.0 <= limit
    requires 0.0 <= elapsed < 1.0 && !FitsAt(previous, current, limit, elapsed) && tau >= elapsed
    ensures FitInstant(previous, current, limit) > elapsed
    ensures FitsAt(previous, current, limit, tau) <==> tau >= FitInstant(previous, current, limit)
  {
    var room := limit - current - 1.0;
    DecaysTo(previous, room, 1.0, elapsed);
    DecaysTo(previous, room, 1.0, tau);
    assert room / previous >= 0.0;
    if 1.0 <= tau < 2.0 {
      ProductSign(current, tau - 1.0);
    }
  }

  lemma FitsInTheNext(previous: real, current: real, limit: real, elapsed: real, tau: real)
    requires previous >= 0.0 && limit >= 1.0 && current + 1.0 > limit
    requires 0.0 <= elapsed < 1.0 && tau >= elapsed
    ensures FitInstant(previous, current, limit) > 1.0
    ensures FitsAt(previous, current, limit, tau) <==> tau >= FitInstant(previous, current, limit)
  {
    DecaysTo(current, limit - 1.0, 2.0, tau);
    DecaysTo(current, limit - 1.0, 2.0, 1.0);
    if tau < 1.0 {
      ProductSign(previous, 1.0 - tau);
    }
    assert (limit - 1.0) / current >= 0.0;
  }

  // The reported wait

  /** `Round`: to the nearest second, half a second up. */
  function RoundToSecond(n: int): int
    requires n >= 0
  {
    var r := n % SECOND;
    if 2 * r < SECOND then n - r else n + SECOND - r
  }

  function MaxInt(a: int, b: int): int {
    if a < b then b else a
  }

  /** `throttleWait`: the time from `elapsed` to the instant, as it is reported. */
  function Wait(previous: real, current: real, limit: real, elapsed: real, window: int): int
    requires if current + 1.0 <= limit then previous > 0.0 else current > 0.0
  {
    Reported(TimeTo(FitInstant(previous, current, limit), elapsed, window))
  }

  /** The time from `elapsed` to `instant`, both in windows. */
  function TimeTo(instant: real, elapsed: real, window: int): real {
    (instant - elapsed) * window as real
  }

  /** The wait reported for an exact one: cut to nanoseconds, rounded to seconds, at least one. */
  function Reported(exact: real): int {
    MaxInt(if exact >= 0.0 then RoundToSecond(exact.Floor) else 0, SECOND)
  }

  /** Half a second from exact at most, or the least wait of one second for a shorter one. */
  predicate Near(wait: int, exact: real) {
    || -0.5 * SECOND as real <= wait as real - exact <= 0.5 * SECOND as real
    || (wait == SECOND && exact < SECOND as real)
  }

  /** The reported wait is whole seconds, at least one, and otherwise within half a second of exact. */
  lemma WaitWithinHalfASecond(previous: real, current: real, limit: real, elapsed: real, window: int)
    requires if current + 1.0 <= limit then previous > 0.0 else current > 0.0
    requires FitInstant(previous, current, limit) >= elapsed && window > 0
    ensures var exact := TimeTo(FitInstant(previous, current, limit), elapsed, window);
            var wait := Wait(previous, current, limit, elapsed, window);
            wait >= 1_000_000_000 && wait % 1_000_000_000 == 0 && Near(wait, exact)
  {
    ProductSign(FitInstant(previous, current, limit) - elapsed, window as real);
    ReportedNear(TimeTo(FitInstant(previous, current, limit), elapsed, window));
  }

  lemma ReportedNear(exact: real)
    requires exact >= 0.0
    ensures Reported(exact) >= SECOND && Reported(exact) % SECOND == 0 && Near(Reported(exact), exact)
  {
    Rounding(exact.Floor);
  }

  lemma Rounding(n: int)
    requires n >= 0
    ensures RoundToSecond(n) % SECOND == 0 && RoundToSecond(n) >= 0
    ensures 2 * (RoundToSecond(n) - n) <= SECOND
    ensures 2 * (n + 1 - RoundToSecond(n)) <= SECOND
  {
    var r := n % SECOND;
    assert n == n / SECOND * SECOND + r;
    if 2 * r < SECOND {
      assert n - r == n / SECOND * SECOND;
      assert (n / SECOND * SECOND) % SECOND == 0;
    } else {
      assert n + SECOND - r == (n / SECOND + 1) * SECOND;
      assert ((n / SECOND + 1) * SECOND) % SECOND == 0;
    }
  }

  /** A count that does not fit leaves something to wait for. */
  lemma SomethingDecays(previous: real, current: real, limit: real, elapsed: real)
    requires previous >= 0.0 && limit >= 1.0 && 0.0 <= elapsed < 1.0
    requires previous * (1.0 - elapsed) + current + 1.0 > limit
    ensures if current + 1.0 <= limit then previous > 0.0 else current > 0.0
  {
    assert previous == 0.0 ==> previous * (1.0 - elapsed) == 0.0;
  }

  /** `slidingWindow.wait`: zero when an attempt that makes the bucket's count `count` fits now. */
  function WindowWait(previous: int, count: int, limit: int, elapsed: real, window: int): (wait: int)
    requires limit >= 1 && 0.0 <= elapsed < 1.0
    ensures wait >= 0
    ensures wait == 0 <==> MaxInt(previous, 0) as real * (1.0 - elapsed) + count as real <= limit as real
  {
    var weighed := MaxInt(previous, 0) as real;
    if weighed * (1.0 - elapsed) + count as real <= limit as real then 0
    else
      SomethingDecays(weighed, (count - 1) as real, limit as real, elapsed);
      Wait(weighed, (count - 1) as real, limit as real, elapsed, window)
  }

  /** `wait` leads, within half a second or after the least wait of one, to the instant from which the
      attempt fits and before which it does not, as seen at `later`. */
  predicate LeadsToFit(previous: real, current: real, limit: real, elapsed: real, window: int, later: real, wait: int) {
    && (if current + 1.0 <= limit then previous > 0.0 else current > 0.0)
    && (FitsAt(previous, current, limit, later) <==> later >= FitInstant(previous, current, limit))
    && var exact := TimeTo(FitInstant(previous, current, limit), elapsed, window);
       exact > 0.0 && Near(wait, exact)
  }

  /** A refused attempt is told to come back when it is the first to fit again. */
  lemma WindowWaitExact(previous: int, count: int, limit: int, elapsed: real, window: int, later: real)
    requires count >= 1 && limit >= 1 && window > 0 && 0.0 <= elapsed < 1.0 && later >= elapsed
    requires WindowWait(previous, count, limit, elapsed, window) > 0
    ensures LeadsToFit(MaxInt(previous, 0) as real, (count - 1) as real, limit as real, elapsed, window, later,
                       WindowWait(previous, count, limit, elapsed, window))
  {
    WaitsWhenRefused(previous, count, limit, elapsed, window);
    RefusedWaits(MaxInt(previous, 0) as real, (count - 1) as real, limit as real, elapsed, window, later);
  }

  /** A refused attempt has something to wait for, and is told how long. */
  lemma WaitsWhenRefused(previous: int, count: int, limit: int, elapsed: real, window: int)
    requires count >= 1 && limit >= 1 && 0.0 <= elapsed < 1.0
    requires WindowWait(previous, count, limit, elapsed, window) > 0
    ensures !FitsAt(MaxInt(previous, 0) as real, (count - 1) as real, limit as real, elapsed)
    ensures if (count - 1) as real + 1.0 <= limit as real then MaxInt(previous, 0) > 0 else count > 1
    ensures WindowWait(previous, count, limit, elapsed, window)
            == Wait(MaxInt(previous, 0) as real, (count - 1) as real, limit as real, elapsed, window)
  {
    SomethingDecays(MaxInt(previous, 0) as real, (count - 1) as real, limit as real, elapsed);
  }

  lemma RefusedWaits(previous: real, current: real, limit: real, elapsed: real, window: int, later: real)
    requires previous >= 0.0 && current >= 0.0 && limit >= 1.0 && 0.0 <= elapsed < 1.0 && window > 0
    requires later >= elapsed && !FitsAt(previous, current, limit, elapsed)
    requires if current + 1.0 <= limit then previous > 0.0 else current > 0.0
    ensures LeadsToFit(previous, current, limit, elapsed, window, later,
                       Wait(previous, current, limit, elapsed, window))
  {
    FitInstantExact(previous, current, limit, elapsed, later);
    WaitWithinHalfASecond(previous, current, limit, elapsed, window);
    TimeAhead(FitInstant(previous, current, limit), elapsed, window);
  }

  lemma TimeAhead(instant: real, elapsed: real, window: int)
    requires instant > elapsed && window > 0
    ensures TimeTo(instant, elapsed, window) > 0.0
  {
    ScaledOrder(window as real, instant - elapsed, 0.0);
  }
}
