/** The proleptic Gregorian calendar of Python's `datetime.date`: years
    1 through 9999, the 4/100/400 leap-year rule, and the day ordinal of
    `date.toordinal()` (0001-01-01 is day 1, a Monday). Adding a
    `timedelta` of whole days is ordinal arithmetic; leaving the
    representable range raises `OverflowError`, modelled as `None`. */
module Calendar {
  import opened Wrappers

  datatype Date = Date(year: int, month: int, day: int)

  const MinYear: int := 1
  const MaxYear: int := 9999
  /** `date.max.toordinal()`, the ordinal of 9999-12-31. */
  const MaxOrdinal: int := 3652059

  predicate IsLeap(y: int) {
    y % 4 == 0 && (y % 100 != 0 || y % 400 == 0)
  }

  function DaysInMonth(y: int, m: int): (n: int)
    requires 1 <= m <= 12
    ensures 28 <= n <= 31
  {
    if m == 2 then (if IsLeap(y) then 29 else 28)
    else if m == 4 || m == 6 || m == 9 || m == 11 then 30
    else 31
  }

  /** A date `datetime.date(y, m, d)` accepts without raising. */
  predicate Valid(d: Date) {
    && MinYear <= d.year <= MaxYear
    && 1 <= d.month <= 12
    && 1 <= d.day <= DaysInMonth(d.year, d.month)
  }

  function DaysInYear(y: int): int {
    if IsLeap(y) then 366 else 365
  }

  /** Days in the years 1 .. y-1. */
  function DaysBeforeYear(y: int): (n: int)
    requires y >= 1
    ensures n >= 365 * (y - 1)
    decreases y
  {
    if y == 1 then 0 else DaysBeforeYear(y - 1) + DaysInYear(y - 1)
  }

  /** Days in the months 1 .. m-1 of year y. */
  function DaysBeforeMonth(y: int, m: int): int
    requires 1 <= m <= 12
  {
    [0, 31, 59, 90, 120, 151, 181, 212, 243, 273, 304, 334][m - 1]
      + (if m > 2 && IsLeap(y) then 1 else 0)
  }

  /** The closed form of the days before year `p + 1`: 365 a year plus
      one for every fourth year, less the centuries not divisible by 400. */
  function ClosedDaysBefore(p: int): int {
    365 * p + p / 4 - p / 100 + p / 400
  }

  lemma {:induction false} DaysBeforeYearClosed(y: int)
    requires y >= 1
    ensures DaysBeforeYear(y) == ClosedDaysBefore(y - 1)
    decreases y
  {
    if y > 1 {
      DaysBeforeYearClosed(y - 1);
      ClosedStep(y - 2);
    }
  }

  /** MaxOrdinal is the number of days in the years 1 through 9999. */
  lemma DaysBeforeEnd()
    ensures DaysBeforeYear(MaxYear + 1) == MaxOrdinal
  {
    DaysBeforeYearClosed(MaxYear + 1);
  }

  /** The closed form grows by one year's length per year. */
  lemma ClosedStep(p: nat)
    ensures ClosedDaysBefore(p + 1) == ClosedDaysBefore(p) + DaysInYear(p + 1)
  {
    DivStep4(p);
    DivStep100(p);
    DivStep400(p);
  }

  lemma DivStep4(p: nat)
    ensures (p + 1) / 4 == p / 4 + (if (p + 1) % 4 == 0 then 1 else 0)
  {
  }

  lemma DivStep100(p: nat)
    ensures (p + 1) / 100 == p / 100 + (if (p + 1) % 100 == 0 then 1 else 0)
  {
  }

  lemma DivStep400(p: nat)
    ensures (p + 1) / 400 == p / 400 + (if (p + 1) % 400 == 0 then 1 else 0)
  {
  }

  lemma {:induction false} DaysBeforeYearMonotone(a: int, b: int)
    requires 1 <= a <= b
    ensures DaysBeforeYear(a) + 365 * (b - a) <= DaysBeforeYear(b)
    decreases b - a
  {
    if a < b {
      DaysBeforeYearMonotone(a, b - 1);
    }
  }

  lemma DaysBeforeMonthStep(y: int, m: int)
    requires 1 <= m <= 12
    ensures m < 12 ==> DaysBeforeMonth(y, m + 1) == DaysBeforeMonth(y, m) + DaysInMonth(y, m)
    ensures m == 12 ==> DaysBeforeMonth(y, m) + DaysInMonth(y, m) == DaysInYear(y)
  {
  }

  lemma {:induction false} DaysBeforeMonthMonotone(y: int, a: int, b: int)
    requires 1 <= a <= b <= 12
    ensures DaysBeforeMonth(y, a) + 28 * (b - a) <= DaysBeforeMonth(y, b)
    decreases b - a
  {
    if a < b {
      DaysBeforeMonthMonotone(y, a, b - 1);
      DaysBeforeMonthStep(y, b - 1);
    }
  }

  /** 1-based position of a valid date within its year. */
  function DayOfYear(d: Date): (k: int)
    requires Valid(d)
    ensures DaysBeforeMonth(d.year, d.month) < k
    ensures k <= DaysBeforeMonth(d.year, d.month) + DaysInMonth(d.year, d.month)
    ensures 1 <= k <= DaysInYear(d.year)
  {
    MonthEndsWithinYear(d.year, d.month);
    DaysBeforeMonth(d.year, d.month) + d.day
  }

  lemma MonthEndsWithinYear(y: int, m: int)
    requires 1 <= m <= 12
    ensures DaysBeforeMonth(y, m) + DaysInMonth(y, m) <= DaysInYear(y)
  {
    DaysBeforeMonthStep(y, m);
    if m < 12 {
      DaysBeforeMonthMonotone(y, m + 1, 12);
      DaysBeforeMonthStep(y, 12);
    }
  }

  /** Python's `date.toordinal()`. */
  function ToOrdinal(d: Date): (n: int)
    requires Valid(d)
    ensures DaysBeforeYear(d.year) < n <= DaysBeforeYear(d.year + 1)
    ensures 1 <= n <= MaxOrdinal
  {
    DaysBeforeYearMonotone(d.year + 1, MaxYear + 1);
    DaysBeforeEnd();
    DaysBeforeYear(d.year) + DayOfYear(d)
  }

  /** The year holding day `n`, searching upward from year `y`. */
  function YearOf(n: int, y: int): (r: int)
    requires MinYear <= y <= MaxYear && DaysBeforeYear(y) < n <= MaxOrdinal
    ensures y <= r <= MaxYear && DaysBeforeYear(r) < n <= DaysBeforeYear(r + 1)
    decreases MaxYear - y
  {
    DaysBeforeEnd();
    if n <= DaysBeforeYear(y + 1) then y else YearOf(n, y + 1)
  }

  /** The month holding day-of-year `k` of year `y`, searching upward from month `m`. */
  function MonthOf(y: int, k: int, m: int): (r: int)
    requires 1 <= m <= 12 && DaysBeforeMonth(y, m) < k <= DaysInYear(y)
    ensures m <= r <= 12
    ensures DaysBeforeMonth(y, r) < k <= DaysBeforeMonth(y, r) + DaysInMonth(y, r)
    decreases 12 - m
  {
    DaysBeforeMonthStep(y, m);
    if k <= DaysBeforeMonth(y, m) + DaysInMonth(y, m) then m else MonthOf(y, k, m + 1)
  }

  /** The search `date.fromordinal(n)` performs: the year first, then
      the month. */
  function DateOfOrdinal(n: int): (d: Date)
    requires 1 <= n <= MaxOrdinal
    ensures Valid(d) && ToOrdinal(d) == n
  {
    var y := YearOf(n, MinYear);
    var k := n - DaysBeforeYear(y);
    var m := MonthOf(y, k, 1);
    Date(y, m, k - DaysBeforeMonth(y, m))
  }

  /** Python's `date.fromordinal(n)`: the one valid date whose ordinal is
      `n`. DateOfOrdinal shows it exists and OrdinalsDiffer that there is
      only one; stating it as a choice keeps the search out of the proofs
      about date arithmetic. */
  function FromOrdinal(n: int): (d: Date)
    requires 1 <= n <= MaxOrdinal
    ensures Valid(d) && ToOrdinal(d) == n
  {
    var found := DateOfOrdinal(n);
    OrdinalsDiffer();
    var d :| Valid(d) && ToOrdinal(d) == n;
    d
  }

  /** A date in an earlier year has a smaller ordinal. */
  lemma EarlierYearSmallerOrdinal(a: Date, b: Date)
    requires Valid(a) && Valid(b) && a.year < b.year
    ensures ToOrdinal(a) < ToOrdinal(b)
  {
    DaysBeforeYearMonotone(a.year + 1, b.year);
  }

  /** Within one year, a date in an earlier month comes earlier in the year. */
  lemma EarlierMonthSmallerDayOfYear(a: Date, b: Date)
    requires Valid(a) && Valid(b) && a.year == b.year && a.month < b.month
    ensures DayOfYear(a) < DayOfYear(b)
  {
    DaysBeforeMonthStep(a.year, a.month);
    DaysBeforeMonthMonotone(a.year, a.month + 1, b.month);
  }

  /** Distinct valid dates have distinct ordinals. */
  lemma ToOrdinalInjective(a: Date, b: Date)
    requires Valid(a) && Valid(b) && ToOrdinal(a) == ToOrdinal(b)
    ensures a == b
  {
    if a.year < b.year {
      EarlierYearSmallerOrdinal(a, b);
    } else if b.year < a.year {
      EarlierYearSmallerOrdinal(b, a);
    } else {
      assert DayOfYear(a) == DayOfYear(b);
      if a.month < b.month {
        EarlierMonthSmallerDayOfYear(a, b);
      } else if b.month < a.month {
        EarlierMonthSmallerDayOfYear(b, a);
      }
    }
  }

  /** Distinct valid dates have distinct ordinals, for all dates at once. */
  lemma OrdinalsDiffer()
    ensures forall a: Date, b: Date :: Valid(a) && Valid(b) && ToOrdinal(a) == ToOrdinal(b) ==> a == b
  {
    forall a: Date, b: Date | Valid(a) && Valid(b) && ToOrdinal(a) == ToOrdinal(b)
      ensures a == b
    {
      ToOrdinalInjective(a, b);
    }
  }

  /** `fromordinal` undoes `toordinal`. */
  lemma FromToOrdinal(d: Date)
    requires Valid(d)
    ensures FromOrdinal(ToOrdinal(d)) == d
  {
    ToOrdinalInjective(FromOrdinal(ToOrdinal(d)), d);
  }

  /** `d + timedelta(days=k)`; `None` where Python raises `OverflowError`. */
  function AddDays(d: Date, k: int): (r: Option<Date>)
    requires Valid(d)
    ensures r.Some? <==> 1 <= ToOrdinal(d) + k <= MaxOrdinal
    ensures r.Some? ==> Valid(r.value) && ToOrdinal(r.value) == ToOrdinal(d) + k
  {
    var n := ToOrdinal(d) + k;
    if 1 <= n <= MaxOrdinal then Some(FromOrdinal(n)) else None
  }

  /** A date is the k-day shift of another exactly when the ordinals differ by k. */
  lemma AddDaysIs(d: Date, k: int, e: Date)
    requires Valid(d) && Valid(e)
    ensures AddDays(d, k) == Some(e) <==> ToOrdinal(e) == ToOrdinal(d) + k
  {
    if ToOrdinal(e) == ToOrdinal(d) + k {
      ToOrdinalInjective(AddDays(d, k).value, e);
    }
  }

  /** Shifts that land on the same ordinal give the same result. */
  lemma AddDaysSameTarget(d: Date, a: int, e: Date, b: int)
    requires Valid(d) && Valid(e) && ToOrdinal(d) + a == ToOrdinal(e) + b
    ensures AddDays(d, a) == AddDays(e, b)
  {
  }

  /** Shifting by a then by b is shifting by a + b. */
  lemma AddDaysCompose(d: Date, a: int, b: int)
    requires Valid(d) && AddDays(d, a).Some?
    ensures AddDays(AddDays(d, a).value, b) == AddDays(d, a + b)
  {
    var e := AddDays(d, a).value;
    if AddDays(d, a + b).Some? {
      AddDaysIs(e, b, AddDays(d, a + b).value);
    }
  }

  /** Python's `date.weekday()`: Monday is 0, Sunday is 6. */
  function Weekday(d: Date): (w: int)
    requires Valid(d)
    ensures 0 <= w < 7
  {
    (ToOrdinal(d) + 6) % 7
  }

  /** A fixed point to check the convention against: 2025-12-24 is a Wednesday. */
  lemma ChristmasEve2025IsWednesday()
    ensures Valid(Date(2025, 12, 24)) && ToOrdinal(Date(2025, 12, 24)) == 739609
    ensures Weekday(Date(2025, 12, 24)) == 2
  {
    assert DayOfYear(Date(2025, 12, 24)) == 358;
    DaysBeforeYearClosed(2025);
  }

  /** The last representable date, 9999-12-31, has ordinal MaxOrdinal and is a Friday. */
  lemma LastDayOrdinal()
    ensures Valid(Date(9999, 12, 31)) && ToOrdinal(Date(9999, 12, 31)) == MaxOrdinal
    ensures Weekday(Date(9999, 12, 31)) == 4
  {
    DaysBeforeYearClosed(9999);
  }
}
