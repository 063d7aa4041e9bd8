/**
 * Naive date-times as Python's datetime keeps them: a proleptic Gregorian
 * date in years 1..9999, a time of day down to the microsecond, and the day
 * ordinal (0001-01-01 is day 1) that datetime subtraction works with.
 */
module Calendar {

  predicate IsLeapYear(y: int) {
    y % 4 == 0 && (y % 100 != 0 || y % 400 == 0)
  }

  function DaysInYear(y: int): (n: int) {
    if IsLeapYear(y) then 366 else 365
  }

  function DaysInMonth(y: int, m: int): (n: int)
    requires 1 <= m <= 12
    ensures 28 <= n <= 31
    ensures n == 29 <==> m == 2 && IsLeapYear(y)
    ensures n == 28 <==> m == 2 && !IsLeapYear(y)
  {
    if m == 2 then (if IsLeapYear(y) then 29 else 28)
    else if m == 4 || m == 6 || m == 9 || m == 11 then 30
    else 31
  }

  /** Days in the months of year `y` before month `m`, as datetime's table gives them. */
  function DaysBeforeMonth(y: int, m: int): (n: int)
    requires 1 <= m <= 12
  {
    var table := [0, 0, 31, 59, 90, 120, 151, 181, 212, 243, 273, 304, 334];
    table[m] + (if m > 2 && IsLeapYear(y) then 1 else 0)
  }

  /** Days in the years before year `y`, counted from 0001-01-01. */
  function DaysBeforeYear(y: int): (n: int)
    requires y >= 1
  {
    var p := y - 1;
    p * 365 + p / 4 - p / 100 + p / 400
  }

  predicate ValidDate(y: int, m: int, d: int) {
    1 <= y <= 9999 && 1 <= m <= 12 && 1 <= d <= DaysInMonth(y, m)
  }

  /** date.toordinal(): 0001-01-01 is day 1. */
  function Ordinal(y: int, m: int, d: int): (n: int)
    requires ValidDate(y, m, d)
  {
    DaysBeforeYear(y) + DaysBeforeMonth(y, m) + d
  }

  /** A naive datetime (no time zone), field by field. */
  datatype DateTime = DateTime(year: int, month: int, day: int,
                               hour: int, minute: int, second: int, microsecond: int)

  /** The values datetime's constructor accepts. */
  predicate Valid(t: DateTime) {
    && ValidDate(t.year, t.month, t.day)
    && 0 <= t.hour < 24 && 0 <= t.minute < 60 && 0 <= t.second < 60
    && 0 <= t.microsecond < 1000000
  }

  const MicrosPerDay: int := 86_400_000_000

  function TimeOfDay(t: DateTime): (us: int)
    requires Valid(t)
    ensures 0 <= us < MicrosPerDay
  {
    ((t.hour * 60 + t.minute) * 60 + t.second) * 1000000 + t.microsecond
  }

  /** The instant `t` stands for, in microseconds since the start of day 0. */
  function Micros(t: DateTime): (us: int)
    requires Valid(t)
  {
    Ordinal(t.year, t.month, t.day) * MicrosPerDay + TimeOfDay(t)
  }

  /** Chronological order of date-times, field by field. */
  predicate Before(a: DateTime, b: DateTime) {
    || a.year < b.year
    || (a.year == b.year && a.month < b.month)
    || (a.year == b.year && a.month == b.month && a.day < b.day)
    || (a.year == b.year && a.month == b.month && a.day == b.day && a.hour < b.hour)
    || (a.year == b.year && a.month == b.month && a.day == b.day && a.hour == b.hour
        && a.minute < b.minute)
    || (a.year == b.year && a.month == b.month && a.day == b.day && a.hour == b.hour
        && a.minute == b.minute && a.second < b.second)
    || (a.year == b.year && a.month == b.month && a.day == b.day && a.hour == b.hour
        && a.minute == b.minute && a.second == b.second && a.microsecond < b.microsecond)
  }

  // ---------------------------------------------------------------------------
  // Lemmas
  // ---------------------------------------------------------------------------

  /** February 29 exists exactly in leap years. */
  lemma LeapDayExists(y: int)
    requires 1 <= y <= 9999
    ensures ValidDate(y, 2, 29) <==> IsLeapYear(y)
  {
  }

  /** `a` divided by `k` with quotient `q` and remainder `r`. */
  lemma {:induction false} DivMod(a: int, k: int, q: int, r: int)
    requires k > 0 && a == q * k + r && 0 <= r < k
    ensures a / k == q && a % k == r
  {
    var q', r' := a / k, a % k;
    assert q' * k + r' == q * k + r;
    if q' > q {
      MulMonotone(q' - q, k);
    } else if q' < q {
      MulMonotone(q - q', k);
    }
  }

  lemma MulMonotone(d: int, k: int)
    requires d >= 1 && k > 0
    ensures d * k >= k
  {
  }

  /** One more day-count step of a floored quotient. */
  lemma {:induction false} DivStep(p: int, k: int)
    requires p >= 0 && k > 0
    ensures (p + 1) / k == p / k + (if (p + 1) % k == 0 then 1 else 0)
  {
    var q, r := p / k, p % k;
    if r == k - 1 {
      DivMod(p + 1, k, q + 1, 0);
    } else {
      DivMod(p + 1, k, q, r + 1);
    }
  }

  /** Divisibility by 400 implies by 100, and by 100 implies by 4. */
  lemma {:induction false} DivisibilityChain(y: int)
    ensures y % 400 == 0 ==> y % 100 == 0
    ensures y % 100 == 0 ==> y % 4 == 0
  {
    if y % 400 == 0 {
      DivMod(y, 100, (y / 400) * 4, 0);
    }
    if y % 100 == 0 {
      DivMod(y, 4, (y / 100) * 25, 0);
    }
  }

  /** Consecutive years: the days before year y + 1 are those before y plus the length of y. */
  lemma {:induction false} DaysBeforeYearStep(y: int)
    requires y >= 1
    ensures DaysBeforeYear(y + 1) == DaysBeforeYear(y) + DaysInYear(y)
  {
    DivStep(y - 1, 4);
    DivStep(y - 1, 100);
    DivStep(y - 1, 400);
    DivisibilityChain(y);
  }

  lemma {:induction false} DaysBeforeYearMonotone(y1: int, y2: int)
    requires 1 <= y1 <= y2
    ensures DaysBeforeYear(y1) + 365 * (y2 - y1) <= DaysBeforeYear(y2)
    decreases y2 - y1
  {
    if y1 < y2 {
      DaysBeforeYearMonotone(y1, y2 - 1);
      DaysBeforeYearStep(y2 - 1);
    }
  }

  /** A month ends where the next begins, and December ends the year. */
  lemma MonthsTileYear(y: int, m: int)
    requires 1 <= m <= 12
    ensures m < 12 ==> DaysBeforeMonth(y, m + 1) == DaysBeforeMonth(y, m) + DaysInMonth(y, m)
    ensures m == 12 ==> DaysBeforeMonth(y, m) + DaysInMonth(y, m) == DaysInYear(y)
  {
  }

  lemma MonthEndWithinYear(y: int, m: int)
    requires 1 <= m <= 12
    ensures DaysBeforeMonth(y, m) + DaysInMonth(y, m) <= DaysInYear(y)
  {
  }

  /** The day after the last of December is the first of January of the next year. */
  lemma {:induction false} NewYearFollowsDecember(y: int)
    requires 1 <= y < 9999
    ensures Ordinal(y + 1, 1, 1) == Ordinal(y, 12, 31) + 1
  {
    DaysBeforeYearStep(y);
  }

  /** The ordinal numbers dates in calendar order. */
  lemma {:induction false} OrdinalIncreasing(y1: int, m1: int, d1: int, y2: int, m2: int, d2: int)
    requires ValidDate(y1, m1, d1) && ValidDate(y2, m2, d2)
    requires y1 < y2 || (y1 == y2 && m1 < m2) || (y1 == y2 && m1 == m2 && d1 < d2)
    ensures Ordinal(y1, m1, d1) < Ordinal(y2, m2, d2)
  {
    if y1 < y2 {
      MonthEndWithinYear(y1, m1);
      DaysBeforeYearStep(y1);
      DaysBeforeYearMonotone(y1 + 1, y2);
    } else if m1 < m2 {
      MonthsTileYear(y1, m1);
      assert DaysBeforeMonth(y1, m1 + 1) <= DaysBeforeMonth(y1, m2);
    }
  }

  /** Micros orders date-times chronologically. */
  lemma {:induction false} BeforeIsEarlier(a: DateTime, b: DateTime)
    requires Valid(a) && Valid(b) && Before(a, b)
    ensures Micros(a) < Micros(b)
  {
    var oa, ob := Ordinal(a.year, a.month, a.day), Ordinal(b.year, b.month, b.day);
    if a.year != b.year || a.month != b.month || a.day != b.day {
      OrdinalIncreasing(a.year, a.month, a.day, b.year, b.month, b.day);
      assert oa * MicrosPerDay + MicrosPerDay <= ob * MicrosPerDay by {
        assert (ob - oa) * MicrosPerDay >= MicrosPerDay;
      }
    }
  }

  /** Distinct date-times are distinct instants. */
  lemma {:induction false} MicrosInjective(a: DateTime, b: DateTime)
    requires Valid(a) && Valid(b) && Micros(a) == Micros(b)
    ensures a == b
  {
    if a != b {
      if Before(a, b) {
        BeforeIsEarlier(a, b);
      } else {
        assert Before(b, a);
        BeforeIsEarlier(b, a);
      }
    }
  }

  /** The first day of the calendar is day 1. */
  lemma FirstDay()
    ensures Ordinal(1, 1, 1) == 1
  {
  }
}
