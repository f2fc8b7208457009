/**
 * System.DateTime reduced to what the attendance core uses: a day number,
 * the time of day in 100-nanosecond ticks, ordering, `.Date`, `AddDays`
 * and the `.Days` of a difference.
 */
module DateTimes {

  /** Ticks (100 ns) in one day: 24 * 60 * 60 * 10_000_000. */
  const TicksPerDay: nat := 864_000_000_000

  type TimeOfDay = t: nat | t < TicksPerDay

  /** A point in time: whole days since the epoch plus ticks since that day's midnight. */
  datatype DateTime = DateTime(day: int, tick: TimeOfDay)

  /** The tick count DateTime.Ticks reports (up to the choice of epoch). */
  function Ticks(d: DateTime): int {
    d.day * TicksPerDay + d.tick
  }

  predicate IsMidnight(d: DateTime) {
    d.tick == 0
  }

  /** `a < b` on DateTime. */
  predicate Before(a: DateTime, b: DateTime) {
    a.day < b.day || (a.day == b.day && a.tick < b.tick)
  }

  /** `a >= b` on DateTime. */
  predicate NotBefore(a: DateTime, b: DateTime) {
    !Before(a, b)
  }

  /** DateTime comparison is the comparison of tick counts. */
  lemma BeforeIsTickOrder(a: DateTime, b: DateTime)
    ensures Before(a, b) <==> Ticks(a) < Ticks(b)
  {
    if a.day < b.day {
      assert (b.day - a.day) * TicksPerDay >= TicksPerDay;
      assert Ticks(b) - Ticks(a) == (b.day - a.day) * TicksPerDay + b.tick - a.tick;
    } else if a.day > b.day {
      assert (a.day - b.day) * TicksPerDay >= TicksPerDay;
      assert Ticks(a) - Ticks(b) == (a.day - b.day) * TicksPerDay + a.tick - b.tick;
    }
  }

  /** `d.Date`: the midnight that starts d's calendar day. */
  function DateOf(d: DateTime): (r: DateTime)
    ensures IsMidnight(r)
    ensures NotBefore(d, r) && Before(d, AddDays(r, 1))
  {
    DateTime(d.day, 0)
  }

  /** `d.AddDays(n)` for a whole number of days. */
  function AddDays(d: DateTime, n: int): (r: DateTime)
    ensures Ticks(r) == Ticks(d) + n * TicksPerDay
  {
    DateTime(d.day + n, d.tick)
  }

  /** TimeSpan.Days of a span of `x` ticks: whole days, truncated toward zero. */
  function SpanDays(x: int): (q: int)
    ensures x >= 0 ==> 0 <= q * TicksPerDay <= x < q * TicksPerDay + TicksPerDay
    ensures x < 0 ==> x <= q * TicksPerDay <= 0 && q * TicksPerDay < x + TicksPerDay
  {
    if x >= 0 then
      assert x == (x / TicksPerDay) * TicksPerDay + x % TicksPerDay;
      x / TicksPerDay
    else
      assert -x == ((-x) / TicksPerDay) * TicksPerDay + (-x) % TicksPerDay;
      -((-x) / TicksPerDay)
  }

  /** `(a - b).Days`: whole days in the difference, truncated toward zero. */
  function SubtractDays(a: DateTime, b: DateTime): int {
    SpanDays(Ticks(a) - Ticks(b))
  }

  /** Between two midnights `.Days` is exactly the difference of day numbers. */
  lemma SubtractMidnights(a: DateTime, b: DateTime)
    requires IsMidnight(a) && IsMidnight(b)
    ensures SubtractDays(a, b) == a.day - b.day
  {
    var n := a.day - b.day;
    assert Ticks(a) - Ticks(b) == n * TicksPerDay;
    var q := SubtractDays(a, b);
    if n >= 0 {
      assert q * TicksPerDay <= n * TicksPerDay < q * TicksPerDay + TicksPerDay;
      assert (q - n) * TicksPerDay <= 0 < (q - n + 1) * TicksPerDay;
    } else {
      assert n * TicksPerDay - TicksPerDay < q * TicksPerDay <= n * TicksPerDay;
      assert (n - q - 1) * TicksPerDay < 0 <= (n - q) * TicksPerDay;
    }
  }

  /** The half-open window `[d, d.AddDays(1))` the repository filters on. */
  predicate InWindow(x: DateTime, d: DateTime) {
    NotBefore(x, d) && Before(x, AddDays(d, 1))
  }

  /** A window starting at any time of day covers the rest of that day and the start of the next. */
  lemma WindowSpan(x: DateTime, d: DateTime)
    ensures InWindow(x, d) <==>
              (x.day == d.day && x.tick >= d.tick) || (x.day == d.day + 1 && x.tick < d.tick)
  {
  }

  /** A window starting at midnight is exactly one calendar day. */
  lemma MidnightWindow(x: DateTime, d: DateTime)
    requires IsMidnight(d)
    ensures InWindow(x, d) <==> DateOf(x) == d
  {
  }
}
