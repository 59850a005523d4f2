/** Calendar dates as Python's `datetime.date` sees them: proleptic Gregorian
    (year, month, day) triples with years 1..9999, ordered lexicographically,
    with `replace(year=…)`, the ordinal day number behind date subtraction,
    and the ISO text form `YYYY-MM-DD`. */
module Dates {
  import opened Text
  import opened Wrappers

  datatype Date = Date(year: int, month: int, day: int)

  predicate IsLeap(y: int)
  {
    y % 4 == 0 && (y % 100 != 0 || y % 400 == 0)
  }

  function DaysInMonth(y: int, m: int): (n: int)
    requires 1 <= m <= 12
    ensures 28 <= n <= 31
    ensures n == 29 <==> m == 2 && IsLeap(y)
  {
    if m == 2 then (if IsLeap(y) then 29 else 28)
    else if m == 4 || m == 6 || m == 9 || m == 11 then 30
    else 31
  }

  /** A date `datetime.date` accepts (MINYEAR = 1, MAXYEAR = 9999). */
  predicate Valid(d: Date)
  {
    1 <= d.year <= 9999 && 1 <= d.month <= 12 && 1 <= d.day <= DaysInMonth(d.year, d.month)
  }

  /** A value of Python's `date` type: always a valid calendar day. */
  type CalendarDate = d: Date | Valid(d) witness Date(2000, 1, 1)

  /** Python's `a <= b` on dates (and on (year, month, day) tuples). */
  predicate LessEq(a: Date, b: Date)
  {
    a.year < b.year || (a.year == b.year && (a.month < b.month || (a.month == b.month && a.day <= b.day)))
  }

  /** Python's `a < b` on dates. */
  predicate Before(a: Date, b: Date)
  {
    LessEq(a, b) && a != b
  }

  lemma LessEqTotal(a: Date, b: Date)
    ensures LessEq(a, b) || LessEq(b, a)
    ensures LessEq(a, b) && LessEq(b, a) ==> a == b
    ensures Before(a, b) <==> !LessEq(b, a)
  {
  }

  lemma LessEqTransitive(a: Date, b: Date, c: Date)
    requires LessEq(a, b) && LessEq(b, c)
    ensures LessEq(a, c)
  {
  }

  /** `d.replace(year=y)`: the same month and day in year `y`, or the
      ValueError (None) that Python raises when that day does not exist
      in year `y` or `y` is out of range. */
  function ReplaceYear(d: Date, y: int): (r: Option<Date>)
    requires Valid(d)
    ensures r.Some? ==> Valid(r.value) && r.value == Date(y, d.month, d.day)
    ensures 1 <= y <= 9999 && !(d.month == 2 && d.day == 29) ==> r.Some?
    ensures d.month == 2 && d.day == 29 ==> (r.Some? <==> 1 <= y <= 9999 && IsLeap(y))
    ensures !(1 <= y <= 9999) ==> r.None?
  {
    if 1 <= y <= 9999 && d.day <= DaysInMonth(y, d.month) then Some(Date(y, d.month, d.day)) else None
  }

  /** Moving 29 February by 18 years, forward or back, never lands on a leap
      year, so `replace(year=year ± 18)` always raises for it. */
  lemma Feb29ShiftFails(d: Date, k: int)
    requires Valid(d) && d.month == 2 && d.day == 29
    requires k == 18 || k == -18
    ensures ReplaceYear(d, d.year + k).None?
  {
    assert IsLeap(d.year);
    assert (d.year + k) % 4 == (d.year % 4 + k % 4) % 4;
    assert !IsLeap(d.year + k);
  }

  function DaysInYear(y: int): (n: int)
    ensures n == 365 || n == 366
  {
    if IsLeap(y) then 366 else 365
  }

  /** Days in the years before `y` (counting from year 1). */
  function DaysBeforeYear(y: int): nat
    requires y >= 1
    decreases y
  {
    if y == 1 then 0 else DaysBeforeYear(y - 1) + DaysInYear(y - 1)
  }

  /** Days in the months of year `y` before month `m`. */
  function DaysBeforeMonth(y: int, m: int): nat
    requires 1 <= m <= 13
    decreases m
  {
    if m == 1 then 0 else DaysBeforeMonth(y, m - 1) + DaysInMonth(y, m - 1)
  }

  /** `d.toordinal()`: 0001-01-01 is day 1. Python's `(a - b).days` is
      `a.toordinal() - b.toordinal()`. */
  function Ordinal(d: Date): int
    requires Valid(d)
  {
    DaysBeforeYear(d.year) + DaysBeforeMonth(d.year, d.month) + d.day
  }

  lemma {:induction false} DaysBeforeMonthYear(y: int)
    ensures DaysBeforeMonth(y, 13) == DaysInYear(y)
  {
    assert DaysBeforeMonth(y, 3) == 31 + DaysInMonth(y, 2);
  }

  lemma {:induction false} DaysBeforeMonthMonotone(y: int, m1: int, m2: int)
    requires 1 <= m1 < m2 <= 13
    ensures DaysBeforeMonth(y, m1) + DaysInMonth(y, m1) <= DaysBeforeMonth(y, m2)
    decreases m2 - m1
  {
    if m1 + 1 < m2 {
      DaysBeforeMonthMonotone(y, m1 + 1, m2);
    }
  }

  lemma {:induction false} DaysBeforeYearMonotone(y1: int, y2: int)
    requires 1 <= y1 < y2
    ensures DaysBeforeYear(y1) + DaysInYear(y1) <= DaysBeforeYear(y2)
    decreases y2 - y1
  {
    if y1 + 1 < y2 {
      DaysBeforeYearMonotone(y1 + 1, y2);
    }
  }

  /** The ordinal is strictly increasing, so date order and day-number
      order agree and subtraction of dates is positive exactly when the
      first date is later. */
  lemma OrdinalMonotone(a: Date, b: Date)
    requires Valid(a) && Valid(b) && Before(a, b)
    ensures Ordinal(a) < Ordinal(b)
  {
    if a.year < b.year {
      DaysBeforeMonthMonotone(a.year, a.month, 13);
      DaysBeforeMonthYear(a.year);
      DaysBeforeYearMonotone(a.year, b.year);
    } else if a.month < b.month {
      DaysBeforeMonthMonotone(a.year, a.month, b.month);
    }
  }

  lemma OrdinalInjective(a: Date, b: Date)
    requires Valid(a) && Valid(b) && Ordinal(a) == Ordinal(b)
    ensures a == b
  {
    LessEqTotal(a, b);
    if Before(a, b) {
      OrdinalMonotone(a, b);
    } else if Before(b, a) {
      OrdinalMonotone(b, a);
    }
  }

  /** The day after `d` (`d + timedelta(days=1)`), within the valid range. */
  function NextDay(d: Date): (r: Date)
    requires Valid(d)
    ensures Before(d, r)
  {
    if d.day < DaysInMonth(d.year, d.month) then Date(d.year, d.month, d.day + 1)
    else if d.month < 12 then Date(d.year, d.month + 1, 1)
    else Date(d.year + 1, 1, 1)
  }

  /** The next day is one ordinal further on. */
  lemma NextDayOrdinal(d: Date)
    requires Valid(d) && Valid(NextDay(d))
    ensures Ordinal(NextDay(d)) == Ordinal(d) + 1
  {
    if d.day == DaysInMonth(d.year, d.month) && d.month == 12 {
      DaysBeforeMonthYear(d.year);
    }
  }

  /** `str(d)` / `d.isoformat()`: `YYYY-MM-DD` with zero-padded fields. */
  function IsoText(d: Date): (s: string)
    requires Valid(d)
    ensures |s| == 10 && s[4] == '-' && s[7] == '-'
  {
    IsoField(d.year, 4) + "-" + IsoField(d.month, 2) + "-" + IsoField(d.day, 2)
  }

  /** A zero-padded field of exactly `width` digits. */
  function IsoField(n: nat, width: nat): (s: string)
    requires n < Pow10(width) && width >= 1
    ensures |s| == width && IsDigits(s) && DigitsValue(s) == n
  {
    ZeroPadWidth(n, width);
    ZeroPad(n, width)
  }
}
