/** The proleptic Gregorian calendar as the library's `datetime.date` sees it:
    years 1..9999, leap years, the replace operations and day arithmetic
    through the day ordinal (1 = 0001-01-01). */
module Calendar {
  import opened Wrappers
  import opened Arith

  datatype Date = Date(year: int, month: int, day: int)

  const MinYear := 1
  const MaxYear := 9999
  /** Ordinal of 9999-12-31, the last representable date. */
  const MaxOrdinal := 3652059

  predicate IsLeap(y: int) {
    y % 4 == 0 && (y % 100 != 0 || y % 400 == 0)
  }

  function DaysInMonth(y: int, m: int): (n: int)
    requires 1 <= m <= 12
    ensures 28 <= n <= 31
    ensures n == 29 <==> m == 2 && IsLeap(y)
  {
    if m == 2 then (if IsLeap(y) then 29 else 28)
    else if m == 4 || m == 6 || m == 9 || m == 11 then 30
    else 31
  }

  function DaysInYear(y: int): (n: int) {
    if IsLeap(y) then 366 else 365
  }

  predicate ValidDate(d: Date) {
    MinYear <= d.year <= MaxYear && 1 <= d.month <= 12 && 1 <= d.day <= DaysInMonth(d.year, d.month)
  }

  /** The date constructor: a date only if the three parts form one. */
  function MakeDate(y: int, m: int, d: int): (r: Option<Date>)
    ensures r.Some? <==> ValidDate(Date(y, m, d))
    ensures r.Some? ==> r.value == Date(y, m, d)
  {
    if ValidDate(Date(y, m, d)) then Some(Date(y, m, d)) else None
  }

  /** The constructor's rule in days: any month has days 1..28, the 29th
      except in February of a common year, the 30th except in February, and
      the 31st only in the seven long months. */
  lemma MakeDateRule(y: int, m: int, d: int)
    requires MinYear <= y <= MaxYear
    ensures MakeDate(y, m, d).Some? <==>
      && 1 <= m <= 12
      && 1 <= d
      && (|| d <= 28
          || (d == 29 && (m != 2 || IsLeap(y)))
          || (d == 30 && m != 2)
          || (d == 31 && (m == 1 || m == 3 || m == 5 || m == 7 || m == 8 || m == 10 || m == 12)))
  {
  }

  function ReplaceYear(d: Date, y: int): (r: Option<Date>) { MakeDate(y, d.month, d.day) }
  function ReplaceMonth(d: Date, m: int): (r: Option<Date>) { MakeDate(d.year, m, d.day) }
  function ReplaceDay(d: Date, day: int): (r: Option<Date>) { MakeDate(d.year, d.month, day) }

  /** Days in the years before `y`. */
  function DaysBeforeYear(y: int): (n: int)
    requires y >= 1
  {
    var p := y - 1;
    p * 365 + p / 4 - p / 100 + p / 400
  }

  /** Days in the months of year `y` before month `m` (m = 13 gives the whole year). */
  function DaysBeforeMonth(y: int, m: int): (n: int)
    requires 1 <= m <= 13
  {
    var table := [0, 31, 59, 90, 120, 151, 181, 212, 243, 273, 304, 334, 365];
    table[m - 1] + (if m > 2 && IsLeap(y) then 1 else 0)
  }

  function ToOrdinal(d: Date): (n: int)
    requires ValidDate(d)
  {
    DaysBeforeYear(d.year) + DaysBeforeMonth(d.year, d.month) + d.day
  }

  lemma MonthStep(y: int, m: int)
    requires 1 <= m <= 12
    ensures DaysBeforeMonth(y, m + 1) == DaysBeforeMonth(y, m) + DaysInMonth(y, m)
    ensures DaysBeforeMonth(y, 13) == DaysInYear(y)
  {
  }

  lemma {:induction false} MonthMonotone(y: int, m1: int, m2: int)
    requires 1 <= m1 < m2 <= 13
    ensures DaysBeforeMonth(y, m1 + 1) <= DaysBeforeMonth(y, m2)
    decreases m2 - m1
  {
    if m1 + 1 < m2 {
      MonthMonotone(y, m1, m2 - 1);
      MonthStep(y, m2 - 1);
    }
  }

  /** The year-length step of the day count: one ordinary or leap year. */
  lemma YearStep(y: int)
    requires y >= 1
    ensures DaysBeforeYear(y + 1) == DaysBeforeYear(y) + DaysInYear(y)
  {
    DivStep(y - 1, 4);
    DivStep(y - 1, 100);
    DivStep(y - 1, 400);
    Multiples(y);
  }

  lemma {:induction false} YearMonotone(a: int, b: int)
    requires 1 <= a <= b
    ensures DaysBeforeYear(a) + 365 * (b - a) <= DaysBeforeYear(b)
    decreases b - a
  {
    if a < b {
      YearMonotone(a, b - 1);
      YearStep(b - 1);
    }
  }

  /** The year whose days contain ordinal `n`, searched upwards from `y`. */
  function FindYear(n: int, y: int): (r: int)
    requires y >= 1 && DaysBeforeYear(y) < n
    ensures r >= y && DaysBeforeYear(r) < n <= DaysBeforeYear(r + 1)
    decreases n - DaysBeforeYear(y)
  {
    YearStep(y);
    if n <= DaysBeforeYear(y + 1) then y else FindYear(n, y + 1)
  }

  /** The month of year `y` containing day-of-year `k`, searched upwards from `m`. */
  function FindMonth(y: int, k: int, m: int): (r: int)
    requires 1 <= m <= 12 && DaysBeforeMonth(y, m) < k <= DaysInYear(y)
    ensures m <= r <= 12
    ensures DaysBeforeMonth(y, r) < k <= DaysBeforeMonth(y, r) + DaysInMonth(y, r)
    decreases 12 - m
  {
    MonthStep(y, m);
    if m == 12 || k <= DaysBeforeMonth(y, m + 1) then m else FindMonth(y, k, m + 1)
  }

  /** Ordinals up to MaxOrdinal fall in the years up to MaxYear. */
  lemma YearBeforeEnd(y: int, n: int)
    requires y >= 1 && DaysBeforeYear(y) < n <= MaxOrdinal
    ensures y <= MaxYear
  {
    if y > MaxYear {
      YearMonotone(MaxYear + 1, y);
    }
  }

  /** Some date has ordinal `n`: the one found by searching the years and
      then the months. */
  lemma OrdinalHasDate(n: int)
    requires 1 <= n <= MaxOrdinal
    ensures exists d :: ValidDate(d) && ToOrdinal(d) == n
  {
    var y := FindYear(n, 1);
    YearStep(y);
    YearBeforeEnd(y, n);
    var k := n - DaysBeforeYear(y);
    var m := FindMonth(y, k, 1);
    var d := Date(y, m, k - DaysBeforeMonth(y, m));
    assert ValidDate(d) && ToOrdinal(d) == n;
  }

  /** The date with the given ordinal. */
  function FromOrdinal(n: int): (d: Date)
    requires 1 <= n <= MaxOrdinal
    ensures ValidDate(d) && ToOrdinal(d) == n
  {
    OrdinalHasDate(n);
    OrdinalsDistinct();
    var d :| ValidDate(d) && ToOrdinal(d) == n;
    d
  }

  /** No two dates share an ordinal. */
  lemma OrdinalsDistinct()
    ensures forall a, b :: ValidDate(a) && ValidDate(b) && ToOrdinal(a) == ToOrdinal(b) ==> a == b
  {
    forall a, b | ValidDate(a) && ValidDate(b) && ToOrdinal(a) == ToOrdinal(b) {
      OrdinalInjective(a, b);
    }
  }

  /** The ordinal of a date lies inside its year's block of days. */
  lemma OrdinalInYear(d: Date)
    requires ValidDate(d)
    ensures DaysBeforeYear(d.year) < ToOrdinal(d) <= DaysBeforeYear(d.year + 1)
  {
    YearStep(d.year);
    MonthStep(d.year, d.month);
    if d.month < 12 {
      MonthMonotone(d.year, d.month, 13);
    }
  }

  lemma YearBracketUnique(y1: int, y2: int, n: int)
    requires y1 >= 1 && y2 >= 1
    requires DaysBeforeYear(y1) < n <= DaysBeforeYear(y1 + 1)
    requires DaysBeforeYear(y2) < n <= DaysBeforeYear(y2 + 1)
    ensures y1 == y2
  {
    if y1 < y2 {
      YearMonotone(y1 + 1, y2);
    } else if y2 < y1 {
      YearMonotone(y2 + 1, y1);
    }
  }

  lemma MonthBracketUnique(y: int, m1: int, m2: int, k: int)
    requires 1 <= m1 <= 12 && 1 <= m2 <= 12
    requires DaysBeforeMonth(y, m1) < k <= DaysBeforeMonth(y, m1) + DaysInMonth(y, m1)
    requires DaysBeforeMonth(y, m2) < k <= DaysBeforeMonth(y, m2) + DaysInMonth(y, m2)
    ensures m1 == m2
  {
    MonthStep(y, m1);
    MonthStep(y, m2);
    if m1 < m2 {
      MonthMonotone(y, m1, m2);
    } else if m2 < m1 {
      MonthMonotone(y, m2, m1);
    }
  }

  /** Distinct calendar dates have distinct ordinals. */
  lemma OrdinalInjective(a: Date, b: Date)
    requires ValidDate(a) && ValidDate(b) && ToOrdinal(a) == ToOrdinal(b)
    ensures a == b
  {
    OrdinalInYear(a);
    OrdinalInYear(b);
    YearBracketUnique(a.year, b.year, ToOrdinal(a));
    MonthBracketUnique(a.year, a.month, b.month, ToOrdinal(a) - DaysBeforeYear(a.year));
  }

  /** Every valid date has an ordinal in 1..MaxOrdinal, and FromOrdinal gives it back. */
  lemma {:induction false} OrdinalRoundTrip(d: Date)
    requires ValidDate(d)
    ensures 1 <= ToOrdinal(d) <= MaxOrdinal
    ensures FromOrdinal(ToOrdinal(d)) == d
  {
    OrdinalInYear(d);
    YearMonotone(1, d.year);
    YearMonotone(d.year + 1, MaxYear + 1);
    OrdinalInjective(FromOrdinal(ToOrdinal(d)), d);
  }

  /** `date + timedelta(days=k)`: the date `k` days later, or an overflow
      when the result would leave the years 1..9999. */
  function AddDays(d: Date, k: int): (r: Option<Date>)
    requires ValidDate(d)
    ensures r.Some? <==> 1 <= ToOrdinal(d) + k <= MaxOrdinal
    ensures r.Some? ==> ValidDate(r.value) && ToOrdinal(r.value) == ToOrdinal(d) + k
  {
    var o := ToOrdinal(d) + k;
    if 1 <= o <= MaxOrdinal then Some(FromOrdinal(o)) else None
  }

  /** Adding `k` days lands on the date whose ordinal is `k` further on. */
  lemma AddDaysTo(d: Date, e: Date, k: int)
    requires ValidDate(d) && ValidDate(e) && ToOrdinal(e) == ToOrdinal(d) + k
    ensures AddDays(d, k) == Some(e)
  {
    OrdinalRoundTrip(e);
  }

  /** Adding days is undone by subtracting them. */
  lemma AddDaysInverse(d: Date, e: Date, k: int)
    requires ValidDate(d) && AddDays(d, k) == Some(e)
    ensures AddDays(e, -k) == Some(d)
  {
    assert ValidDate(e) && ToOrdinal(e) == ToOrdinal(d) + k;
    AddDaysTo(e, d, -k);
  }

  /** Adding zero days is the identity. */
  lemma AddNoDays(d: Date)
    requires ValidDate(d)
    ensures AddDays(d, 0) == Some(d)
  {
    AddDaysTo(d, d, 0);
  }

  /** Dates of the years lo..hi occupy exactly the ordinals between their first and last day. */
  lemma {:induction false} OrdinalBounds(d: Date, lo: int, hi: int)
    requires ValidDate(d) && 1 <= lo <= d.year <= hi <= MaxYear
    ensures ToOrdinal(Date(lo, 1, 1)) <= ToOrdinal(d) <= ToOrdinal(Date(hi, 12, 31))
  {
    OrdinalInYear(d);
    YearMonotone(lo, d.year);
    YearMonotone(d.year + 1, hi + 1);
    YearStep(hi);
    assert ToOrdinal(Date(lo, 1, 1)) == DaysBeforeYear(lo) + 1;
    assert ToOrdinal(Date(hi, 12, 31)) == DaysBeforeYear(hi) + DaysInYear(hi);
  }

  /** The last day of a year is followed by the first day of the next. */
  lemma NewYear(y: int)
    requires MinYear <= y < MaxYear
    ensures AddDays(Date(y, 12, 31), 1) == Some(Date(y + 1, 1, 1))
    ensures AddDays(Date(y + 1, 1, 1), -1) == Some(Date(y, 12, 31))
  {
    var last, first := Date(y, 12, 31), Date(y + 1, 1, 1);
    YearStep(y);
    assert ToOrdinal(last) == DaysBeforeYear(y) + DaysInYear(y);
    assert ToOrdinal(first) == DaysBeforeYear(y + 1) + 1;
    AddDaysTo(last, first, 1);
    AddDaysTo(first, last, -1);
  }

  /** Calendar order of dates: year first, then month, then day. */
  predicate DateLess(a: Date, b: Date) {
    || a.year < b.year
    || (a.year == b.year && a.month < b.month)
    || (a.year == b.year && a.month == b.month && a.day < b.day)
  }

  /** A date of an earlier year has a smaller ordinal. */
  lemma EarlierYear(a: Date, b: Date)
    requires ValidDate(a) && ValidDate(b) && a.year < b.year
    ensures ToOrdinal(a) < ToOrdinal(b)
  {
    OrdinalInYear(a);
    OrdinalInYear(b);
    YearMonotone(a.year + 1, b.year);
  }

  /** A date of an earlier month of the same year has a smaller ordinal. */
  lemma EarlierMonth(a: Date, b: Date)
    requires ValidDate(a) && ValidDate(b) && a.year == b.year && a.month < b.month
    ensures ToOrdinal(a) < ToOrdinal(b)
  {
    MonthStep(a.year, a.month);
    MonthMonotone(a.year, a.month, b.month);
  }

  /** Ordinals follow calendar order in both directions. */
  lemma OrdinalOrder(a: Date, b: Date)
    requires ValidDate(a) && ValidDate(b)
    ensures ToOrdinal(a) < ToOrdinal(b) <==> DateLess(a, b)
  {
    if a.year < b.year {
      EarlierYear(a, b);
    } else if b.year < a.year {
      EarlierYear(b, a);
    } else if a.month < b.month {
      EarlierMonth(a, b);
    } else if b.month < a.month {
      EarlierMonth(b, a);
    }
  }

  /** A date lies in the years lo..hi exactly when its ordinal lies between
      the ordinals of the first day of lo and the last day of hi. */
  lemma YearRangeByOrdinal(d: Date, lo: int, hi: int)
    requires ValidDate(d) && MinYear < lo <= hi < MaxYear
    ensures lo <= d.year <= hi <==> ToOrdinal(Date(lo, 1, 1)) <= ToOrdinal(d) <= ToOrdinal(Date(hi, 12, 31))
  {
    OrdinalOrder(d, Date(lo, 1, 1));
    OrdinalOrder(Date(hi, 12, 31), d);
  }
}
