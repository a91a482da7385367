/** Proleptic Gregorian calendar dates as Python's `datetime.date` sees them:
    years 1 to 9999, leap years, month lengths (`calendar.monthrange`),
    the weekday (Monday = 0, via the proleptic ordinal of `date.toordinal()`),
    the successor day (`date + timedelta(days=1)`) and inclusive date ranges. */
module Calendar {
  import opened Basics

  datatype Date = Date(year: int, month: int, day: int)

  const MinYear := 1
  const MaxYear := 9999

  /** The last representable date; adding a day to it overflows. */
  const MaxDate := Date(MaxYear, 12, 31)

  predicate IsLeapYear(y: int)
  {
    y % 4 == 0 && (y % 100 != 0 || y % 400 == 0)
  }

  /** `calendar.monthrange(y, m)[1]`. */
  function DaysInMonth(y: int, m: int): (n: int)
    requires 1 <= m <= 12
    ensures 28 <= n <= 31
    ensures m == 2 ==> (n == 29 <==> IsLeapYear(y))
    ensures m != 2 ==> (n == 30 <==> m in {4, 6, 9, 11})
  {
    if m == 2 then (if IsLeapYear(y) then 29 else 28)
    else if m == 4 || m == 6 || m == 9 || m == 11 then 30
    else 31
  }

  predicate ValidDate(d: Date)
  {
    MinYear <= d.year <= MaxYear && 1 <= d.month <= 12 && 1 <= d.day <= DaysInMonth(d.year, d.month)
  }

  /** Chronological order. */
  predicate Before(a: Date, b: Date)
  {
    a.year < b.year
    || (a.year == b.year && a.month < b.month)
    || (a.year == b.year && a.month == b.month && a.day < b.day)
  }

  predicate AtOrBefore(a: Date, b: Date)
  {
    a == b || Before(a, b)
  }

  lemma BeforeIsStrictTotalOrder()
    ensures StrictTotalOrder(Before)
  {
  }

  /** Days in the years before `y`. */
  function DaysBeforeYear(y: int): int
    requires y >= 1
  {
    var p := y - 1;
    365 * p + p / 4 - p / 100 + p / 400
  }

  /** Days in the months of year `y` before month `m`. */
  function DaysBeforeMonth(y: int, m: int): (r: int)
    requires 1 <= m <= 12
    ensures r >= 0
  {
    if m == 1 then 0 else DaysBeforeMonth(y, m - 1) + DaysInMonth(y, m - 1)
  }

  /** `date.toordinal()`: 1 for 0001-01-01. */
  function Ordinal(d: Date): int
    requires ValidDate(d)
  {
    DaysBeforeYear(d.year) + DaysBeforeMonth(d.year, d.month) + d.day
  }

  /** `date.weekday()`: Monday is 0 and Sunday is 6. */
  function Weekday(d: Date): (w: int)
    requires ValidDate(d)
    ensures 0 <= w < 7
  {
    (Ordinal(d) + 6) % 7
  }

  predicate IsWorkday(d: Date)
  {
    ValidDate(d) && Weekday(d) < 5
  }

  /** A year has 365 days, or 366 when it is a leap year. */
  lemma YearLength(y: int)
    requires y >= 1
    ensures DaysBeforeYear(y + 1) - DaysBeforeYear(y) == (if IsLeapYear(y) then 366 else 365)
    ensures DaysBeforeMonth(y, 12) + 31 == (if IsLeapYear(y) then 366 else 365)
  {
    var p := y - 1;
    assert (p + 1) / 4 - p / 4 == (if y % 4 == 0 then 1 else 0);
    assert (p + 1) / 100 - p / 100 == (if y % 100 == 0 then 1 else 0);
    assert (p + 1) / 400 - p / 400 == (if y % 400 == 0 then 1 else 0);
    DaysBeforeMonthTable(y, 12);
  }

  /** The cumulative month lengths of a common year, plus the leap day after February. */
  lemma {:induction false} DaysBeforeMonthTable(y: int, m: int)
    requires 1 <= m <= 12
    ensures DaysBeforeMonth(y, m)
      == [0, 31, 59, 90, 120, 151, 181, 212, 243, 273, 304, 334][m - 1] + (if m > 2 && IsLeapYear(y) then 1 else 0)
  {
    if m > 1 {
      DaysBeforeMonthTable(y, m - 1);
    }
  }

  /** `d + timedelta(days=1)`, or None where Python raises OverflowError. */
  function NextDay(d: Date): (r: Option<Date>)
    requires ValidDate(d)
    ensures r.None? <==> d == MaxDate
    ensures r.Some? ==> ValidDate(r.value) && Before(d, r.value)
  {
    if d.day < DaysInMonth(d.year, d.month) then Some(Date(d.year, d.month, d.day + 1))
    else if d.month < 12 then Some(Date(d.year, d.month + 1, 1))
    else if d.year < MaxYear then Some(Date(d.year + 1, 1, 1))
    else None
  }

  /** The successor is the very next day: its ordinal is one more, so its weekday is the next one. */
  lemma NextDayOrdinal(d: Date)
    requires ValidDate(d) && d != MaxDate
    ensures Ordinal(NextDay(d).value) == Ordinal(d) + 1
    ensures Weekday(NextDay(d).value) == (Weekday(d) + 1) % 7
  {
    var n := NextDay(d).value;
    if d.day < DaysInMonth(d.year, d.month) {
      assert n == Date(d.year, d.month, d.day + 1);
    } else if d.month < 12 {
      assert n == Date(d.year, d.month + 1, 1);
      assert DaysBeforeMonth(d.year, d.month + 1) == DaysBeforeMonth(d.year, d.month) + d.day;
    } else {
      NewYearOrdinal(d.year);
    }
    WeekdayStep(Ordinal(d));
  }

  lemma NewYearOrdinal(y: int)
    requires MinYear <= y < MaxYear
    ensures Ordinal(Date(y + 1, 1, 1)) == Ordinal(Date(y, 12, 31)) + 1
  {
    YearLength(y);
  }

  lemma WeekdayStep(o: int)
    ensures (o + 1 + 6) % 7 == ((o + 6) % 7 + 1) % 7
  {
  }

  /** No valid date lies strictly between a date and its successor. */
  lemma NextDayIsImmediate(d: Date, e: Date)
    requires ValidDate(d) && ValidDate(e) && Before(d, e)
    ensures NextDay(d).Some? && AtOrBefore(NextDay(d).value, e)
  {
  }

  /** Every valid date is at or before the last representable one. */
  lemma AtOrBeforeMax(d: Date)
    requires ValidDate(d)
    ensures AtOrBefore(d, MaxDate)
  {
  }

  /** Number of days from `lo` to `hi` inclusive, used as a termination measure. */
  function Span(lo: Date, hi: Date): nat
    requires ValidDate(lo) && ValidDate(hi)
  {
    if Ordinal(hi) >= Ordinal(lo) then Ordinal(hi) - Ordinal(lo) + 1 else 0
  }

  /** The dates from `lo` to `hi`, both included, in ascending order. */
  function DateRange(lo: Date, hi: Date): (r: seq<Date>)
    requires ValidDate(lo) && ValidDate(hi)
    ensures forall k :: 0 <= k < |r| ==> ValidDate(r[k])
    decreases Span(lo, hi)
  {
    if Before(hi, lo) then []
    else if lo == hi then [lo]
    else
      NextDayIsImmediate(lo, hi);
      NextDayOrdinal(lo);
      OrdinalMonotone(NextDay(lo).value, hi);
      [lo] + DateRange(NextDay(lo).value, hi)
  }

  /** Days of a year before a date of it, fewer than the year's length. */
  lemma DaysBeforeMonthBound(y: int, m: int)
    requires 1 <= m <= 12
    ensures DaysBeforeMonth(y, m) + DaysInMonth(y, m) <= DaysBeforeMonth(y, 12) + 31
    decreases 12 - m
  {
    if m < 12 {
      DaysBeforeMonthBound(y, m + 1);
    }
  }

  /** Later dates have larger ordinals. */
  lemma OrdinalMonotone(a: Date, b: Date)
    requires ValidDate(a) && ValidDate(b) && AtOrBefore(a, b)
    ensures Ordinal(a) <= Ordinal(b)
  {
    if a.year < b.year {
      DaysBeforeMonthBound(a.year, a.month);
      YearLength(a.year);
      DaysBeforeYearMonotone(a.year + 1, b.year);
    } else if a.month < b.month {
      DaysBeforeMonthMonotone(a.year, a.month + 1, b.month);
    }
  }

  lemma {:induction false} DaysBeforeYearMonotone(y: int, z: int)
    requires 1 <= y <= z
    ensures DaysBeforeYear(y) <= DaysBeforeYear(z)
    decreases z - y
  {
    if y < z {
      YearLength(y);
      DaysBeforeYearMonotone(y + 1, z);
    }
  }

  lemma {:induction false} DaysBeforeMonthMonotone(y: int, m: int, n: int)
    requires 1 < m <= n <= 12
    ensures DaysBeforeMonth(y, m) <= DaysBeforeMonth(y, n)
    ensures DaysBeforeMonth(y, m - 1) + DaysInMonth(y, m - 1) <= DaysBeforeMonth(y, n)
    decreases n - m
  {
    if m < n {
      DaysBeforeMonthMonotone(y, m + 1, n);
    }
  }

  /** A date is in the range exactly when it is valid and lies between the bounds. */
  lemma {:induction false} DateRangeMembers(lo: Date, hi: Date)
    requires ValidDate(lo) && ValidDate(hi)
    ensures forall d :: d in DateRange(lo, hi) <==> ValidDate(d) && AtOrBefore(lo, d) && AtOrBefore(d, hi)
    decreases Span(lo, hi)
  {
    if !Before(hi, lo) && lo != hi {
      NextDayIsImmediate(lo, hi);
      NextDayOrdinal(lo);
      OrdinalMonotone(NextDay(lo).value, hi);
      var n := NextDay(lo).value;
      DateRangeMembers(n, hi);
      forall d | ValidDate(d) && Before(lo, d) ensures AtOrBefore(n, d) {
        NextDayIsImmediate(lo, d);
      }
    }
  }

  /** The range is in strictly ascending order. */
  lemma {:induction false} DateRangeAscending(lo: Date, hi: Date)
    requires ValidDate(lo) && ValidDate(hi)
    ensures StrictlySorted(DateRange(lo, hi), Before)
    decreases Span(lo, hi)
  {
    if !Before(hi, lo) && lo != hi {
      NextDayIsImmediate(lo, hi);
      NextDayOrdinal(lo);
      OrdinalMonotone(NextDay(lo).value, hi);
      var n := NextDay(lo).value;
      var rest := DateRange(n, hi);
      DateRangeAscending(n, hi);
      DateRangeMembers(n, hi);
      assert forall k :: 0 <= k < |rest| ==> rest[k] in rest;
    }
  }

  /** Python's `calendar.month_name[1:]`. */
  const MonthNames: seq<string> := ["January", "February", "March", "April", "May", "June",
    "July", "August", "September", "October", "November", "December"]

  /** `MONTH_NAMES.index(name) + 1`, or None where `index` raises ValueError. */
  function MonthIndex(name: string): (r: Option<int>)
    ensures r.Some? <==> name in MonthNames
    ensures r.Some? ==> 1 <= r.value <= 12 && MonthNames[r.value - 1] == name
  {
    match FirstWhere(MonthNames, n => n == name)
    case None => None
    case Some(i) => Some(i + 1)
  }

  /** The default month of the sidebar is month 11. */
  lemma NovemberIndex()
    ensures MonthIndex("November") == Some(11)
  {
    assert forall j :: 0 <= j < 10 ==> MonthNames[j][0] != 'N';
    FirstWhereAt(MonthNames, n => n == "November", 10);
  }

  /** December is month 12. */
  lemma DecemberIndex()
    ensures MonthIndex("December") == Some(12)
  {
    assert forall j :: 0 <= j < 11 ==> MonthNames[j][0] != 'D';
    FirstWhereAt(MonthNames, n => n == "December", 11);
  }

  /** Every day of month `m` of year `y`, in order. */
  function MonthDates(y: int, m: int): (r: seq<Date>)
    requires 1 <= m <= 12
    ensures |r| == DaysInMonth(y, m)
  {
    seq(DaysInMonth(y, m), i requires 0 <= i < DaysInMonth(y, m) => Date(y, m, i + 1))
  }
}
