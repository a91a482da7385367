/** The calendar helpers behind the week and day selectors: the Monday-to-Friday
    business weeks of a month (`get_weeks_in_month`) and the business days of a
    week label or of a whole month (`get_days_in_period`). */
module Periods {
  import opened Basics
  import opened PyStr
  import opened Calendar
  import opened DateText

  /** Day of the month on which the month's first Monday falls. */
  function FirstMonday(y: int, m: int): (f: int)
    requires MinYear <= y <= MaxYear && 1 <= m <= 12
    ensures 1 <= f <= 7
  {
    1 + (7 - Weekday(Date(y, m, 1))) % 7
  }

  /** Within a month the weekday is the distance from the first Monday, modulo 7. */
  lemma WeekdayInMonth(y: int, m: int, d: int)
    requires ValidDate(Date(y, m, d))
    ensures Weekday(Date(y, m, d)) == (d - FirstMonday(y, m)) % 7
  {
    var o1 := Ordinal(Date(y, m, 1));
    var w1, q := (o1 + 6) % 7, (o1 + 6) / 7;
    assert Weekday(Date(y, m, 1)) == w1;
    assert Ordinal(Date(y, m, d)) + 6 == (d - 1) + 7 * q + w1;
    if w1 == 0 {
      ModShift(d - 1, q);
    } else {
      ModOfMultiple(7 - w1, 0, 7 - w1);
      assert FirstMonday(y, m) == 8 - w1;
      ModShift(d - 8 + w1, q + 1);
    }
  }

  lemma ModShift(x: int, q: int)
    ensures (x + 7 * q) % 7 == x % 7
  {
    ModOfMultiple(x + 7 * q, x / 7 + q, x % 7);
  }

  /** The business weeks of a month of `n` days whose first Monday is day `f`,
      as (start, end) pairs: one per Monday, ending on that week's Friday or on
      the month's last day, whichever comes first. */
  function SpansFrom(y: int, m: int, f: int, n: int): (r: seq<(Date, Date)>)
    requires MinYear <= y <= MaxYear && 1 <= m <= 12 && n == DaysInMonth(y, m) && 1 <= f <= 7
    ensures |r| == (n - f) / 7 + 1
    ensures forall k :: 0 <= k < |r| ==> ValidDate(r[k].0) && ValidDate(r[k].1)
  {
    seq((n - f) / 7 + 1, k requires 0 <= k <= (n - f) / 7 =>
      (Date(y, m, f + 7 * k), Date(y, m, if f + 7 * k + 4 <= n then f + 7 * k + 4 else n)))
  }

  /** The business weeks of month `m` of year `y`. */
  function WeekSpans(y: int, m: int): (r: seq<(Date, Date)>)
    requires MinYear <= y <= MaxYear && 1 <= m <= 12
    ensures |r| == (DaysInMonth(y, m) - FirstMonday(y, m)) / 7 + 1
    ensures forall k :: 0 <= k < |r| ==> ValidDate(r[k].0) && ValidDate(r[k].1)
  {
    SpansFrom(y, m, FirstMonday(y, m), DaysInMonth(y, m))
  }

  /** The labels of a sequence of weeks, numbered from 1. */
  function WeekLabels(spans: seq<(Date, Date)>): (r: seq<string>)
    requires forall k :: 0 <= k < |spans| ==> ValidDate(spans[k].0) && ValidDate(spans[k].1)
    ensures |r| == |spans|
  {
    seq(|spans|, i requires 0 <= i < |spans| => WeekLabel(i + 1, spans[i].0, spans[i].1))
  }

  /** Every week starts on a Monday and ends on that week's Friday; only the last
      week may instead end on the month's last day, and then that day is Monday to Thursday. */
  lemma WeekSpanShape(y: int, m: int, k: int)
    requires MinYear <= y <= MaxYear && 1 <= m <= 12
    requires 0 <= k < |WeekSpans(y, m)|
    ensures var (a, b) := WeekSpans(y, m)[k];
      && a.year == y && a.month == m && b.year == y && b.month == m
      && Weekday(a) == 0
      && ((b.day == a.day + 4 && Weekday(b) == 4)
          || (k == |WeekSpans(y, m)| - 1 && b.day == DaysInMonth(y, m) && b.day < a.day + 4 && Weekday(b) <= 3))
  {
    var f, n := FirstMonday(y, m), DaysInMonth(y, m);
    var a, b := Date(y, m, f + 7 * k), Date(y, m, if f + 7 * k + 4 <= n then f + 7 * k + 4 else n);
    assert WeekSpans(y, m)[k] == (a, b);
    WeekdayInMonth(y, m, a.day);
    WeekdayInMonth(y, m, b.day);
    ModOfMultiple(7 * k + (b.day - a.day), k, b.day - a.day);
    ModOfMultiple(7 * k, k, 0);
  }

  lemma ModOfMultiple(x: int, q: int, r: int)
    requires x == 7 * q + r && 0 <= r < 7
    ensures x % 7 == r && x / 7 == q
  {
  }

  /** A day of the month lies in one of the weeks exactly when it is a business
      day on or after the first Monday: the days before it belong to no week. */
  lemma WeekSpansCover(y: int, m: int, d: int)
    requires MinYear <= y <= MaxYear && 1 <= m <= 12 && 1 <= d <= DaysInMonth(y, m)
    ensures (exists k :: 0 <= k < |WeekSpans(y, m)| && WeekSpans(y, m)[k].0.day <= d <= WeekSpans(y, m)[k].1.day)
      <==> d >= FirstMonday(y, m) && Weekday(Date(y, m, d)) < 5
  {
    var spans := WeekSpans(y, m);
    var f, n := FirstMonday(y, m), DaysInMonth(y, m);
    WeekdayInMonth(y, m, d);
    if d >= f && (d - f) % 7 < 5 {
      var k := (d - f) / 7;
      DivBound(d - f, n - f);
      assert spans[k] == (Date(y, m, f + 7 * k), Date(y, m, if f + 7 * k + 4 <= n then f + 7 * k + 4 else n));
    }
    forall k | 0 <= k < |spans| && spans[k].0.day <= d <= spans[k].1.day
      ensures d >= f && (d - f) % 7 < 5
    {
      assert spans[k].0.day == f + 7 * k && spans[k].1.day <= f + 7 * k + 4;
      ModOfMultiple(d - f, k, d - spans[k].0.day);
    }
  }

  lemma DivBound(a: int, b: int)
    requires 0 <= a <= b
    ensures a / 7 <= b / 7
  {
  }

  /** The first Monday is the first: no earlier day of the month is a Monday. */
  lemma FirstMondayIsFirst(y: int, m: int, d: int)
    requires MinYear <= y <= MaxYear && 1 <= m <= 12 && 1 <= d <= DaysInMonth(y, m)
    ensures Weekday(Date(y, m, d)) == 0 <==> d >= FirstMonday(y, m) && (d - FirstMonday(y, m)) % 7 == 0
  {
    WeekdayInMonth(y, m, d);
  }

  /** The state of the weeks loop of month `m` of year `y` once the days up to
      `last` are processed: `e` labels emitted, week `e` (if any) starting on day
      `f + 7 * e`, and `open` the Monday of the week in progress. */
  ghost predicate WeeksLoop(y: int, m: int, f: int, n: int, total: int, e: int, open: Option<Date>, last: int)
  {
    && 0 <= e <= total
    && (open.Some? && e < total ==> open.value == Date(y, m, f + 7 * e) && f + 7 * e <= last <= f + 7 * e + 3 && last < n)
    && (open.Some? && e == total ==> open.value == Date(y, m, f + 7 * (total - 1)) && last == n)
    && (open.None? && e < total ==> last < f + 7 * e && (e > 0 ==> f + 7 * e - 3 <= last))
    && (open.None? && e == total ==> f + 7 * total - 3 <= last)
  }

  /** One iteration of the weeks loop (Dialers.py:273-286) on day `d`, whose
      weekday is `w`, keeps the loop state, and every label it emits is the next week's. */
  lemma WeeksLoopStep(y: int, m: int, f: int, n: int, total: int, e: int, open: Option<Date>, d: int, w: int)
    requires MinYear <= y <= MaxYear && 1 <= m <= 12 && n == DaysInMonth(y, m) && 1 <= f <= 7
    requires total == (n - f) / 7 + 1 && 1 <= d <= n && w == (d - f) % 7
    requires WeeksLoop(y, m, f, n, total, e, open, d - 1)
    ensures var open' := if w == 0 then Some(Date(y, m, d)) else open;
      var friday := w == 4 && open'.Some?;
      var monthEnd := !friday && d == n && open'.Some? && w <= 3;
      && (friday || monthEnd ==> e < total && SpansFrom(y, m, f, n)[e] == (open'.value, Date(y, m, d)))
      && WeeksLoop(y, m, f, n, total, if friday || monthEnd then e + 1 else e, if friday then None else open', d)
  {
    ModOfMultiple(n - f, total - 1, n - f - 7 * (total - 1));
    var monday := f + 7 * e;
    if open.Some? {
      ModOfMultiple(d - f, e, d - monday);
    } else if e < total && d == monday {
      ModOfMultiple(d - f, e, 0);
    } else if e == 0 {
      ModOfMultiple(d - f, -1, d - f + 7);
    } else {
      ModOfMultiple(d - f, e - 1, d - monday + 7);
    }
  }

  /** `get_weeks_in_month(year, month_name)` (Dialers.py:259-288). */
  method WeeksInMonth(year: int, monthName: string) returns (weeks: seq<string>)
    requires MonthIndex(monthName).Some? ==> MinYear <= year <= MaxYear
    ensures MonthIndex(monthName).None? ==> weeks == ["All Weeks"]
    ensures MonthIndex(monthName).Some? ==>
      weeks == ["All Weeks"] + WeekLabels(WeekSpans(year, MonthIndex(monthName).value))
  {
    var monthIndex := MonthIndex(monthName);
    if monthIndex.None? {
      return ["All Weeks"];
    }
    var month := monthIndex.value;
    var numDays := DaysInMonth(year, month);
    var labels := WeekLabelsLoop(year, month, numDays);
    assert labels == WeekLabels(WeekSpans(year, month));
    weeks := ["All Weeks"] + labels;
  }

  /** The state of the day loop of `get_weeks_in_month` once the days up to `last`
      of a month of `n` days whose first Monday is day `f` are processed: the
      labels of the weeks that have ended, the number the next label will carry
      and the Monday of the week in progress. */
  ghost predicate LabelsLoop(y: int, m: int, f: int, n: int, labels: seq<string>, counter: int, open: Option<Date>, last: int)
    requires MinYear <= y <= MaxYear && 1 <= m <= 12 && n == DaysInMonth(y, m) && 1 <= f <= 7
  {
    var spans := SpansFrom(y, m, f, n);
    && WeeksLoop(y, m, f, n, |spans|, |labels|, open, last)
    // The label for a week cut short by the month's end does not advance the counter.
    && counter == (if open.Some? && |labels| == |spans| then |labels| else |labels| + 1)
    && labels == WeekLabels(spans[..|labels|])
  }

  /** The day loop of `get_weeks_in_month` (Dialers.py:268-286) over a month of
      `numDays` days whose first Monday is day `f`. */
  method WeekLabelsLoop(year: int, month: int, numDays: int) returns (labels: seq<string>)
    requires MinYear <= year <= MaxYear && 1 <= month <= 12 && numDays == DaysInMonth(year, month)
    ensures labels == WeekLabels(WeekSpans(year, month))
  {
    ghost var f := FirstMonday(year, month);
    labels := [];
    var weekCounter := 1;
    var weekStart: Option<Date> := None;
    for day := 1 to numDays + 1
      invariant LabelsLoop(year, month, f, numDays, labels, weekCounter, weekStart, day - 1)
    {
      WeekdayInMonth(year, month, day);
      labels, weekCounter, weekStart := VisitDay(year, month, numDays, day, labels, weekCounter, weekStart, f);
    }
    ghost var spans := SpansFrom(year, month, f, numDays);
    assert spans[..|labels|] == spans;
  }

  /** One day of the loop of `get_weeks_in_month` (Dialers.py:269-286): a Monday
      opens a week, a Friday closes the open week, and the month's last day closes
      a week it cuts short without advancing the counter. */
  method VisitDay(year: int, month: int, numDays: int, day: int, labels: seq<string>, weekCounter: int,
                  weekStart: Option<Date>, ghost f: int)
    returns (labels': seq<string>, weekCounter': int, weekStart': Option<Date>)
    requires MinYear <= year <= MaxYear && 1 <= month <= 12 && numDays == DaysInMonth(year, month) && 1 <= f <= 7
    requires 1 <= day <= numDays && Weekday(Date(year, month, day)) == (day - f) % 7
    requires LabelsLoop(year, month, f, numDays, labels, weekCounter, weekStart, day - 1)
    ensures LabelsLoop(year, month, f, numDays, labels', weekCounter', weekStart', day)
  {
    ghost var spans := SpansFrom(year, month, f, numDays);
    labels', weekCounter', weekStart' := labels, weekCounter, weekStart;
    var date := Date(year, month, day);
    var dayOfWeek := Weekday(date);
    WeeksLoopStep(year, month, f, numDays, |spans|, |labels|, weekStart, day, dayOfWeek);
    if dayOfWeek == 0 {
      weekStart' := Some(date);
    }
    if dayOfWeek == 4 && weekStart'.Some? {
      labels' := AppendWeek(labels', weekCounter', weekStart'.value, date, spans);
      weekCounter' := weekCounter' + 1;
      weekStart' := None;
    } else if day == numDays && weekStart'.Some? && dayOfWeek <= 3 {
      labels' := AppendWeek(labels', weekCounter', weekStart'.value, date, spans);
    }
  }

  /** Appends the label of week `counter`, the next of `spans` (Dialers.py:281, 286). */
  method AppendWeek(labels: seq<string>, counter: int, start: Date, end: Date, ghost spans: seq<(Date, Date)>)
    returns (r: seq<string>)
    requires forall k :: 0 <= k < |spans| ==> ValidDate(spans[k].0) && ValidDate(spans[k].1)
    requires 0 <= counter - 1 < |spans| && spans[counter - 1] == (start, end) && labels == WeekLabels(spans[..counter - 1])
    ensures r == WeekLabels(spans[..counter])
  {
    EmitLabel(spans, labels, counter - 1, start, end);
    r := labels + [WeekLabel(counter, start, end)];
  }

  /** Labelling one more week appends that week's label. */
  lemma EmitLabel(spans: seq<(Date, Date)>, labels: seq<string>, e: int, a: Date, b: Date)
    requires forall k :: 0 <= k < |spans| ==> ValidDate(spans[k].0) && ValidDate(spans[k].1)
    requires 0 <= e < |spans| && spans[e] == (a, b) && labels == WeekLabels(spans[..e])
    ensures labels + [WeekLabel(e + 1, a, b)] == WeekLabels(spans[..e + 1])
  {
    WeekLabelsSnoc(spans, e);
  }

  lemma WeekLabelsSnoc(spans: seq<(Date, Date)>, e: int)
    requires forall k :: 0 <= k < |spans| ==> ValidDate(spans[k].0) && ValidDate(spans[k].1)
    requires 0 <= e < |spans|
    ensures WeekLabels(spans[..e + 1]) == WeekLabels(spans[..e]) + [WeekLabel(e + 1, spans[e].0, spans[e].1)]
  {
  }

  /** November 2025 opens on a Saturday, so its first week runs from Monday the 3rd to Friday the 7th. */
  lemma NovemberFirstWeek()
    ensures WeekLabels(WeekSpans(2025, 11))[0] == "Week 1 (2025-11-03 to 2025-11-07)"
  {
    NovemberFirstMonday();
    assert WeekSpans(2025, 11)[0] == (Date(2025, 11, 3), Date(2025, 11, 7));
    NovemberFirstLabel();
  }

  lemma NovemberFirstLabel()
    ensures WeekLabel(1, Date(2025, 11, 3), Date(2025, 11, 7)) == "Week 1 (2025-11-03 to 2025-11-07)"
  {
    assert Format(Date(2025, 11, 3)) == "2025-11-03";
    assert Format(Date(2025, 11, 7)) == "2025-11-07";
    assert NatToString(1) == "1";
  }

  lemma NovemberFirstMonday()
    ensures FirstMonday(2025, 11) == 3
  {
    assert DaysBeforeYear(2025) == 739251;
    DaysBeforeMonthTable(2025, 11);
    assert Ordinal(Date(2025, 11, 1)) == 739556;
  }

  /** Each date printed with `strftime('%Y-%m-%d')`. */
  function FormatAll(ds: seq<Date>): (r: seq<string>)
    requires forall k :: 0 <= k < |ds| ==> ValidDate(ds[k])
    ensures |r| == |ds|
  {
    seq(|ds|, i requires 0 <= i < |ds| => Format(ds[i]))
  }

  lemma FormatAllAppend(a: seq<Date>, b: seq<Date>)
    requires forall k :: 0 <= k < |a| ==> ValidDate(a[k])
    requires forall k :: 0 <= k < |b| ==> ValidDate(b[k])
    ensures FormatAll(a + b) == FormatAll(a) + FormatAll(b)
  {
  }

  /** The Monday-to-Friday dates among `ds`, in their order. */
  function Workdays(ds: seq<Date>): (r: seq<Date>)
    ensures forall k :: 0 <= k < |r| ==> IsWorkday(r[k])
  {
    var r := Filter(ds, IsWorkday);
    assert forall k :: 0 <= k < |r| ==> r[k] in r;
    r
  }

  /** Business days of a date followed by more dates, as strings. */
  lemma FormatWorkdaysCons(d: Date, ds: seq<Date>)
    requires ValidDate(d) && forall k :: 0 <= k < |ds| ==> ValidDate(ds[k])
    ensures FormatAll(Workdays([d] + ds)) == (if Weekday(d) < 5 then [Format(d)] else []) + FormatAll(Workdays(ds))
  {
    FilterCons(d, ds, IsWorkday);
    var head := if IsWorkday(d) then [d] else [];
    assert Workdays([d] + ds) == head + Workdays(ds);
    FormatAllAppend(head, Workdays(ds));
    assert FormatAll(head) == if Weekday(d) < 5 then [Format(d)] else [];
  }

  /** Business days of some dates followed by one more date, as strings. */
  lemma FormatWorkdaysSnoc(ds: seq<Date>, d: Date)
    requires ValidDate(d) && forall k :: 0 <= k < |ds| ==> ValidDate(ds[k])
    ensures FormatAll(Workdays(ds + [d])) == FormatAll(Workdays(ds)) + (if Weekday(d) < 5 then [Format(d)] else [])
  {
    FilterAppend(ds, [d], IsWorkday);
    var tail := if IsWorkday(d) then [d] else [];
    assert Filter([d], IsWorkday) == Filter([], IsWorkday) + tail;
    FormatAllAppend(Workdays(ds), tail);
  }

  /** A range that is not empty starts with its lower bound, followed by the
      (shorter) range from the next day. */
  lemma DateRangeStep(lo: Date, hi: Date)
    requires ValidDate(lo) && ValidDate(hi) && AtOrBefore(lo, hi) && lo != MaxDate
    ensures DateRange(lo, hi) == [lo] + DateRange(NextDay(lo).value, hi)
    ensures Span(NextDay(lo).value, hi) < Span(lo, hi)
  {
    NextDayOrdinal(lo);
    OrdinalMonotone(lo, hi);
    if lo == hi {
      assert DateRange(NextDay(lo).value, hi) == [];
    }
  }

  /** The business days from a date are that date, if it is a business day,
      followed by the business days from its successor `next`. */
  lemma WorkdaysStep(current: Date, next: Date, endDate: Date)
    requires ValidDate(current) && ValidDate(endDate) && AtOrBefore(current, endDate)
    requires NextDay(current) == Some(next)
    ensures Weekday(current) < 5 ==>
      FormatAll(Workdays(DateRange(current, endDate))) == [Format(current)] + FormatAll(Workdays(DateRange(next, endDate)))
    ensures Weekday(current) >= 5 ==>
      FormatAll(Workdays(DateRange(current, endDate))) == FormatAll(Workdays(DateRange(next, endDate)))
    ensures Span(next, endDate) < Span(current, endDate)
  {
    DateRangeStep(current, endDate);
    FormatWorkdaysCons(current, DateRange(next, endDate));
  }

  /** One step of the day loop: the current date, if it is a business day, moves from
      the pending range onto the days collected so far, and the range shrinks. */
  lemma WalkStep(acc: seq<string>, current: Date, next: Date, endDate: Date, total: seq<string>)
    requires ValidDate(current) && ValidDate(endDate) && AtOrBefore(current, endDate)
    requires NextDay(current) == Some(next)
    requires acc + FormatAll(Workdays(DateRange(current, endDate))) == total
    ensures Weekday(current) < 5 ==> (acc + [Format(current)]) + FormatAll(Workdays(DateRange(next, endDate))) == total
    ensures Weekday(current) >= 5 ==> acc + FormatAll(Workdays(DateRange(next, endDate))) == total
    ensures Span(next, endDate) < Span(current, endDate)
  {
    WorkdaysStep(current, next, endDate);
    if Weekday(current) < 5 {
      ConcatStep(acc, FormatAll(Workdays(DateRange(current, endDate))), [Format(current)],
        FormatAll(Workdays(DateRange(next, endDate))), total);
    }
  }

  /** Stepping a day at a time from `lo` overflows exactly when the walk reaches
      the last representable date, that is when `hi` is that date and `lo` is not after it. */
  predicate WalkOverflows(lo: Date, hi: Date)
  {
    AtOrBefore(lo, hi) && hi == MaxDate
  }

  /** The week branch of `get_days_in_period` (Dialers.py:302-313): the business
      days from `startDate` to `endDate` as `YYYY-MM-DD` strings, or None where
      `current_date += timedelta(days=1)` raises OverflowError. */
  method WeekWorkdays(startDate: Date, endDate: Date) returns (r: Option<seq<string>>)
    requires ValidDate(startDate) && ValidDate(endDate)
    ensures r.None? <==> WalkOverflows(startDate, endDate)
    ensures r.Some? ==> r.value == FormatAll(Workdays(DateRange(startDate, endDate)))
  {
    var days: seq<string> := [];
    var current := startDate;
    ghost var all := FormatAll(Workdays(DateRange(startDate, endDate)));
    while AtOrBefore(current, endDate)
      invariant ValidDate(current)
      invariant days + FormatAll(Workdays(DateRange(current, endDate))) == all
      decreases Span(current, endDate)
    {
      ghost var before := days;
      if Weekday(current) < 5 {
        days := days + [Format(current)];
      }
      var next := NextDay(current);
      if next.None? {
        AtOrBeforeMax(endDate);
        AtOrBeforeMax(startDate);
        return None;
      }
      WalkStep(before, current, next.value, endDate, all);
      current := next.value;
    }
    assert Workdays(DateRange(current, endDate)) == [];
    AtOrBeforeMax(current);
    return Some(days);
  }

  /** The month branch of `get_days_in_period` (Dialers.py:318-325): every
      business day of the month as a `YYYY-MM-DD` string, in order. */
  method MonthWorkdayStrings(year: int, month: int) returns (days: seq<string>)
    requires MinYear <= year <= MaxYear && 1 <= month <= 12
    ensures days == FormatAll(Workdays(MonthDates(year, month)))
  {
    days := [];
    var numDays := DaysInMonth(year, month);
    ghost var dates := MonthDates(year, month);
    for day := 1 to numDays + 1
      invariant days == FormatAll(Workdays(dates[..day - 1]))
    {
      var date := Date(year, month, day);
      assert dates[..day] == dates[..day - 1] + [date];
      FormatWorkdaysSnoc(dates[..day - 1], date);
      if Weekday(date) < 5 {
        days := days + [Format(date)];
      }
    }
    assert dates[..numDays] == dates;
  }

  /** The days offered for a week label: the sentinel, then every business day
      from the label's start to its end; only the sentinel when the label does not
      parse or when the walk to its end overflows. */
  function LabelDays(weekStr: string): (r: seq<string>)
    ensures |r| >= 1 && r[0] == "All Days"
  {
    match ParseWeekLabel(weekStr)
    case None => ["All Days"]
    case Some((a, b)) =>
      if WalkOverflows(a, b) then ["All Days"] else ["All Days"] + FormatAll(Workdays(DateRange(a, b)))
  }

  /** `get_days_in_period(year, month_name, week_str)` (Dialers.py:291-327). */
  method DaysInPeriod(year: int, monthName: string, weekStr: string) returns (days: seq<string>)
    requires MonthIndex(monthName).Some? && weekStr == "All Weeks" ==> MinYear <= year <= MaxYear
    ensures MonthIndex(monthName).None? ==> days == ["All Days"]
    ensures MonthIndex(monthName).Some? && weekStr != "All Weeks" ==> days == LabelDays(weekStr)
    ensures MonthIndex(monthName).Some? && weekStr == "All Weeks" ==>
      days == ["All Days"] + FormatAll(Workdays(MonthDates(year, MonthIndex(monthName).value)))
  {
    var monthIndex := MonthIndex(monthName);
    if monthIndex.None? {
      return ["All Days"];
    }
    if weekStr != "All Weeks" {
      var parsed := ParseWeekLabel(weekStr);
      if parsed.None? {
        return ["All Days"];
      }
      var walked := WeekWorkdays(parsed.value.0, parsed.value.1);
      if walked.None? {
        return ["All Days"];
      }
      days := ["All Days"] + walked.value;
    } else {
      var month := monthIndex.value;
      var monthDays := MonthWorkdayStrings(year, month);
      days := ["All Days"] + monthDays;
    }
  }

  /** The business days of a range are strictly ascending, and they are exactly
      the Monday-to-Friday dates from `lo` to `hi`. */
  lemma RangeWorkdays(lo: Date, hi: Date)
    requires ValidDate(lo) && ValidDate(hi)
    ensures StrictlySorted(Workdays(DateRange(lo, hi)), Before)
    ensures forall d :: d in Workdays(DateRange(lo, hi)) <==> IsWorkday(d) && AtOrBefore(lo, d) && AtOrBefore(d, hi)
  {
    DateRangeAscending(lo, hi);
    FilterSorted(DateRange(lo, hi), IsWorkday, Before);
    DateRangeMembers(lo, hi);
  }

  /** The days of a month are strictly ascending. */
  lemma MonthDatesAscending(y: int, m: int)
    requires 1 <= m <= 12
    ensures StrictlySorted(MonthDates(y, m), Before)
  {
  }

  /** The business days of a month are strictly ascending, and they are exactly
      its Monday-to-Friday dates. */
  lemma MonthWorkdays(y: int, m: int)
    requires MinYear <= y <= MaxYear && 1 <= m <= 12
    ensures StrictlySorted(Workdays(MonthDates(y, m)), Before)
    ensures forall d :: d in Workdays(MonthDates(y, m)) <==> IsWorkday(d) && d.year == y && d.month == m
  {
    MonthDatesAscending(y, m);
    FilterSorted(MonthDates(y, m), IsWorkday, Before);
    forall d | IsWorkday(d) && d.year == y && d.month == m
      ensures d in MonthDates(y, m)
    {
      assert MonthDates(y, m)[d.day - 1] == d;
    }
  }

  /** The label of week `n` printed by the week enumerator reads back as the days
      from its start to its end, unless the walk to its end overflows. */
  lemma LabelDaysOfWeek(n: nat, a: Date, b: Date)
    requires ValidDate(a) && ValidDate(b)
    ensures LabelDays(WeekLabel(n, a, b))
      == if WalkOverflows(a, b) then ["All Days"] else ["All Days"] + FormatAll(Workdays(DateRange(a, b)))
  {
    ParseWeekLabelRoundTrip(n, a, b);
  }

  /** Choosing the k-th week of a month offers exactly that week's Monday-to-Friday
      dates, in ascending order (for every month before December 9999, whose last
      week ends on the last representable date). */
  lemma WeekChoiceDays(y: int, m: int, k: int)
    requires MinYear <= y <= MaxYear && 1 <= m <= 12 && 0 <= k < |WeekSpans(y, m)|
    requires y < MaxYear || m < 12
    ensures var (a, b) := WeekSpans(y, m)[k];
      && LabelDays(WeekLabels(WeekSpans(y, m))[k]) == ["All Days"] + FormatAll(Workdays(DateRange(a, b)))
      && StrictlySorted(Workdays(DateRange(a, b)), Before)
      && forall d :: d in Workdays(DateRange(a, b)) <==> IsWorkday(d) && AtOrBefore(a, d) && AtOrBefore(d, b)
  {
    var spans := WeekSpans(y, m);
    var (a, b) := spans[k];
    assert b.year == y && b.month == m;
    assert WeekLabels(spans)[k] == WeekLabel(k + 1, a, b);
    LabelDaysOfWeek(k + 1, a, b);
    RangeWorkdays(a, b);
  }
}
