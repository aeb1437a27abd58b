/** How far apart the ticks of the two schedule shapes are, and when the configured
    minimum chaos interval really is a minimum. */
module Spacing {
  import opened Instants
  import opened Cron

  /** The least distance between multiples of n restarted at every multiple of period. */
  function Gap(period: nat, n: nat): nat
    requires period > 0 && n > 0
  {
    if n >= period then period else if period % n == 0 then n else period % n
  }

  predicate Restarted(a: int, period: nat, n: nat)
    requires period > 0 && n > 0
  {
    a % period % n == 0
  }

  lemma MulOrder(p: int, q: int, n: nat)
    requires p < q
    ensures p * n + n <= q * n
  {
    var d: nat := q - p - 1;
    assert d * n >= 0;
    assert q * n == (p + 1 + d) * n == p * n + n + d * n;
  }

  lemma DivMod(a: int, n: nat)
    requires n > 0
    ensures a == a / n * n + a % n && 0 <= a % n < n
  {
  }

  lemma DivModUnique(a: int, n: nat, q: int, r: nat)
    requires n > 0 && a == q * n + r && r < n
    ensures a / n == q && a % n == r
  {
    DivMod(a, n);
    if q < a / n {
      MulOrder(q, a / n, n);
    } else if a / n < q {
      MulOrder(a / n, q, n);
    }
  }

  lemma MultiplesApart(i: int, j: int, n: nat)
    requires n > 0 && i % n == 0 && j % n == 0 && i < j
    ensures j - i >= n
  {
    DivMod(i, n);
    DivMod(j, n);
    if i / n < j / n {
      MulOrder(i / n, j / n, n);
    } else if j / n < i / n {
      MulOrder(j / n, i / n, n);
    }
  }

  lemma LastMultiple(period: nat, n: nat)
    requires n > 0
    ensures (period - period % n) % n == 0
  {
    DivMod(period, n);
    DivModUnique(period - period % n, n, period / n, 0);
  }

  lemma TailGap(i: nat, period: nat, n: nat)
    requires n > 0 && i < period && i % n == 0
    ensures period - i >= Gap(period, n)
  {
    if n >= period {
      if i > 0 {
        MultiplesApart(0, i, n);
      }
    } else if period % n == 0 {
      MultiplesApart(i, period, n);
    } else {
      LastMultiple(period, n);
      var last := period - period % n;
      if i > last {
        MultiplesApart(last, i, n);
      }
    }
  }

  lemma RestartGap(a: int, b: int, period: nat, n: nat)
    requires period > 0 && n > 0 && a < b
    requires Restarted(a, period, n) && Restarted(b, period, n)
    ensures b - a >= Gap(period, n)
  {
    DivMod(a, period);
    DivMod(b, period);
    if a / period < b / period {
      MulOrder(a / period, b / period, period);
      TailGap(a % period, period, n);
    } else if b / period < a / period {
      MulOrder(b / period, a / period, period);
    } else {
      MultiplesApart(a % period, b % period, n);
    }
  }

  // ---------------------------------------------------------------- minute mode

  ghost predicate MinuteMode(s: Schedule, n: nat) {
    n > 0 && s.Valid() && s.minutes == Steps(0, 59, n)
  }

  /** Any two ticks of a "every n minutes" schedule, whatever its hours and days. */
  lemma MinuteModeSpacing(s: Schedule, n: nat, x: int, y: int)
    requires MinuteMode(s, n)
    requires IsTick(s, x) && IsTick(s, y) && x < y
    ensures y - x >= Gap(60, n) * MINUTE
  {
    var a, b := x / MINUTE, y / MINUTE;
    assert OnStep(a % 60, 0, n) && OnStep(b % 60, 0, n);
    RestartGap(a, b, 60, n);
    assert y - x == (b - a) * MINUTE;
  }

  /** Every two ticks are at least n minutes apart. */
  ghost predicate KeepsInterval(s: Schedule, n: nat) {
    forall x, y :: IsTick(s, x) && IsTick(s, y) && x < y ==> y - x >= n * MINUTE
  }

  ghost predicate HoursWithin(s: Schedule, minutes: nat) {
    exists h, g :: s.HourIncluded(h) && s.HourIncluded(g) && h < g && 60 * (g - h) < minutes
  }

  ghost predicate AdjacentHours(s: Schedule) {
    exists h :: s.HourIncluded(h) && s.HourIncluded(h + 1)
  }

  lemma TickAt(s: Schedule, hour: int, m: nat)
    requires s.HourIncluded(hour) && m < 60 && m in s.minutes
    ensures IsTick(s, (60 * hour + m) * MINUTE)
  {
    var minute := 60 * hour + m;
    assert minute / 60 == hour && minute % 60 == m;
    assert minute * MINUTE / MINUTE == minute;
  }

  /** The last tick of an hour and the first of the next are 60 % n minutes apart. */
  lemma LastOfHour(s: Schedule, n: nat, hour: int)
    requires MinuteMode(s, n) && n < 60 && 60 % n != 0
    requires s.HourIncluded(hour) && s.HourIncluded(hour + 1)
    ensures IsTick(s, (60 * hour + 60 - 60 % n) * MINUTE) && IsTick(s, 60 * (hour + 1) * MINUTE)
  {
    var last := 60 - 60 % n;
    LastMultiple(60, n);
    assert OnStep(last, 0, n) && OnStep(0, 0, n);
    TickAt(s, hour, last);
    TickAt(s, hour + 1, 0);
  }

  /** Below an hour, the interval is kept exactly when n divides 60 or no included hour
      is followed by an included hour. */
  lemma ShortIntervalExact(s: Schedule, n: nat)
    requires MinuteMode(s, n) && n <= 60
    ensures KeepsInterval(s, n) <==> (60 % n == 0 || !AdjacentHours(s))
  {
    if 60 % n == 0 {
      forall x, y | IsTick(s, x) && IsTick(s, y) && x < y
        ensures y - x >= n * MINUTE
      {
        MinuteModeSpacing(s, n, x, y);
      }
    } else if AdjacentHours(s) {
      var h :| s.HourIncluded(h) && s.HourIncluded(h + 1);
      LastOfHour(s, n, h);
      var x, y := (60 * h + 60 - 60 % n) * MINUTE, 60 * (h + 1) * MINUTE;
      assert x < y && y - x < n * MINUTE;
    } else {
      forall x, y | IsTick(s, x) && IsTick(s, y) && x < y
        ensures y - x >= n * MINUTE
      {
        IsolatedHours(s, n, x, y);
      }
    }
  }

  lemma IsolatedHours(s: Schedule, n: nat, x: int, y: int)
    requires MinuteMode(s, n) && n <= 60 && !AdjacentHours(s)
    requires IsTick(s, x) && IsTick(s, y) && x < y
    ensures y - x >= n * MINUTE
  {
    var a, b := x / MINUTE, y / MINUTE;
    assert x == a * MINUTE && y == b * MINUTE;
    if a / 60 == b / 60 {
      assert OnStep(a % 60, 0, n) && OnStep(b % 60, 0, n);
      MultiplesApart(a % 60, b % 60, n);
    } else {
      var h := a / 60;
      assert s.HourIncluded(h);
      assert b / 60 != h + 1;
      assert b - a >= 60;
    }
  }

  /** With one minute of the hour alone, as in hour mode or above an hour, any interval is
      kept exactly when no two included hours are closer than it. */
  lemma SingleMinuteExact(s: Schedule, m: nat, n: nat)
    requires s.Valid() && s.minutes == {m}
    ensures KeepsInterval(s, n) <==> !HoursWithin(s, n)
  {
    assert m in s.minutes;
    if HoursWithin(s, n) {
      var h, g :| s.HourIncluded(h) && s.HourIncluded(g) && h < g && 60 * (g - h) < n;
      TickAt(s, h, m);
      TickAt(s, g, m);
      var x, y := (60 * h + m) * MINUTE, (60 * g + m) * MINUTE;
      assert x < y && y - x < n * MINUTE;
    } else {
      forall x, y | IsTick(s, x) && IsTick(s, y) && x < y
        ensures y - x >= n * MINUTE
      {
        var a, b := x / MINUTE, y / MINUTE;
        assert x == a * MINUTE && y == b * MINUTE;
        assert a % 60 == m && b % 60 == m;
        assert s.HourIncluded(a / 60) && s.HourIncluded(b / 60);
        assert b - a == 60 * (b / 60 - a / 60);
      }
    }
  }

  /** Above an hour the step is clipped to "at minute 0", so the interval is kept exactly
      when no two included hours are closer than n minutes. */
  lemma LongIntervalExact(s: Schedule, n: nat)
    requires MinuteMode(s, n) && n > 60
    ensures s.minutes == {0}
    ensures KeepsInterval(s, n) <==> !HoursWithin(s, n)
  {
    assert OnStep(0, 0, n);
    assert forall m: nat :: m <= 59 && OnStep(m, 0, n) ==> m == 0;
    SingleMinuteExact(s, 0, n);
  }

  /** With every hour and day included, the interval is kept exactly when n divides 60. */
  lemma EveryHourExact(s: Schedule, n: nat)
    requires MinuteMode(s, n)
    requires s.hours == Steps(0, 23, 1) && s.days == Steps(0, 6, 1)
    ensures KeepsInterval(s, n) <==> 60 % n == 0
  {
    forall h: int
      ensures s.HourIncluded(h)
    {
      assert OnStep(h % 24, 0, 1) && OnStep(Weekday(h / 24), 0, 1);
    }
    if n <= 60 {
      assert s.HourIncluded(0) && s.HourIncluded(0 + 1);
      ShortIntervalExact(s, n);
    } else {
      assert s.HourIncluded(0) && s.HourIncluded(1) && 60 * (1 - 0) < n;
      LongIntervalExact(s, n);
    }
  }

  // ---------------------------------------------------------------- hour mode

  /** "Every n hours" with unrestricted hours, at minute m. */
  ghost predicate HourMode(s: Schedule, n: nat, m: nat) {
    n > 0 && s.Valid() && s.minutes == {m} && s.hours == Steps(0, 23, n)
  }

  lemma HourModeSpacing(s: Schedule, n: nat, m: nat, x: int, y: int)
    requires HourMode(s, n, m)
    requires IsTick(s, x) && IsTick(s, y) && x < y
    ensures y - x >= Gap(24, n) * HOUR
  {
    var a, b := x / MINUTE, y / MINUTE;
    assert x == a * MINUTE && y == b * MINUTE;
    assert a % 60 == m && b % 60 == m;
    assert b - a == 60 * (b / 60 - a / 60);
    assert OnStep(a / 60 % 24, 0, n) && OnStep(b / 60 % 24, 0, n);
    RestartGap(a / 60, b / 60, 24, n);
  }

  /** With every day included, hour mode keeps its interval exactly when n divides 24. */
  lemma HourModeExact(s: Schedule, n: nat, m: nat)
    requires HourMode(s, n, m) && s.days == Steps(0, 6, 1)
    ensures KeepsInterval(s, 60 * n) <==> 24 % n == 0
  {
    if 24 % n == 0 {
      forall x, y | IsTick(s, x) && IsTick(s, y) && x < y
        ensures y - x >= 60 * n * MINUTE
      {
        HourModeSpacing(s, n, m, x, y);
      }
    } else {
      var last := LastStep(n);
      EveryDay(s, n, m, last);
      EveryDay(s, n, m, 24);
      var x, y := LastOfDay(s, n, m, last);
    }
  }

  lemma EveryDay(s: Schedule, n: nat, m: nat, hour: nat)
    requires HourMode(s, n, m) && s.days == Steps(0, 6, 1)
    requires hour == 24 || (hour < 24 && OnStep(hour, 0, n))
    ensures s.HourIncluded(hour) && m in s.minutes && m < 60
  {
    assert m in s.minutes;
    var day := Weekday(hour / 24);
    assert OnStep(day, 0, 1) && day in s.days;
    assert OnStep(0, 0, n) && 0 in s.hours;
    assert hour < 24 ==> hour in s.hours;
  }

  lemma LastStep(n: nat) returns (last: nat)
    requires n > 0 && 24 % n != 0
    ensures last < 24 && OnStep(last, 0, n) && 24 - last < n
  {
    if n < 24 {
      last := 24 - 24 % n;
      LastMultiple(24, n);
    } else {
      last := 0;
    }
  }

  /** The last tick of a day and the first of the next, closer than n hours. */
  lemma LastOfDay(s: Schedule, n: nat, m: nat, last: nat) returns (x: int, y: int)
    requires m in s.minutes && m < 60 && last < 24 && 24 - last < n
    requires s.HourIncluded(last) && s.HourIncluded(24)
    ensures IsTick(s, x) && IsTick(s, y) && x < y && y - x < 60 * n * MINUTE
  {
    TickAt(s, last, m);
    TickAt(s, 24, m);
    x, y := (60 * last + m) * MINUTE, (60 * 24 + m) * MINUTE;
  }
}
