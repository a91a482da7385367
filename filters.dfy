/** The row filters every page applies in turn: by year and month, by the chosen
    week, by the chosen day and by the chosen dialers. Each keeps a subsequence of
    the rows in their original order, and each lets its input through unchanged
    when the choice is its "All ..." sentinel or the table cannot be filtered. */
module Filters {
  import opened Basics
  import opened PyStr
  import opened Calendar
  import opened DateText
  import opened Tables
  import opened Reconcile

  const AllWeeks := "All Weeks"
  const AllDays := "All Days"
  /** Helper columns the week and day filters write into their input. */
  const DateOnlyColumn := "DateOnly"
  const WeekdayColumn := "Weekday"

  // ---------------------------------------------------------------- by month

  /** `df[col] = pd.to_datetime(df[col], errors='coerce')` on one row. */
  function ParseRow(col: string): Row -> Row
  {
    (row: Row) => row[col := When(AsDate(Get(row, col)))]
  }

  /** The row's date in `col` lies in the selected year and months. */
  function DatedIn(col: string, year: int, months: MonthSelection): Row -> bool
  {
    (row: Row) => InPeriod(AsDate(Get(row, col)), year, months)
  }

  /** `_filter_by_date_local(df, col, year, months)`: parse the column, drop NaT, keep
      the selected year and months. */
  function FilterByDate(t: Table, col: string, year: int, months: MonthSelection): Table
  {
    if col !in t.columns then EmptyTable
    else Table(t.columns, Filter(MapSeq(t.rows, ParseRow(col)), DatedIn(col, year, months)))
  }

  /** Parsing a row's date cell twice reads the same date as parsing it once. */
  lemma ParsedRow(row: Row, col: string)
    ensures Get(ParseRow(col)(row), col) == When(AsDate(Get(row, col)))
    ensures AsDate(Get(ParseRow(col)(row), col)) == AsDate(Get(row, col))
  {
    AsDateOfWhen(Get(row, col));
  }

  /** Without the column the result is an empty table; otherwise it keeps the columns and
      exactly the rows dated in the period, in order, with their dates parsed. */
  lemma FilterByDateSpec(t: Table, col: string, year: int, months: MonthSelection)
    ensures col !in t.columns ==> FilterByDate(t, col, year, months) == EmptyTable
    ensures col in t.columns ==>
      FilterByDate(t, col, year, months) == Table(t.columns, MapSeq(Filter(t.rows, DatedIn(col, year, months)), ParseRow(col)))
    ensures var r := FilterByDate(t, col, year, months).rows;
      forall i :: 0 <= i < |r| ==> InPeriod(AsDate(Get(r[i], col)), year, months) && Get(r[i], col) == When(AsDate(Get(r[i], col)))
  {
    if col in t.columns {
      forall i | 0 <= i < |t.rows|
        ensures DatedIn(col, year, months)(t.rows[i]) == DatedIn(col, year, months)(ParseRow(col)(t.rows[i]))
      {
        ParsedRow(t.rows[i], col);
      }
      FilterMap(t.rows, ParseRow(col), DatedIn(col, year, months), DatedIn(col, year, months));
      var kept := Filter(t.rows, DatedIn(col, year, months));
      var r := MapSeq(kept, ParseRow(col));
      forall i | 0 <= i < |r|
        ensures InPeriod(AsDate(Get(r[i], col)), year, months) && Get(r[i], col) == When(AsDate(Get(r[i], col)))
      {
        var row := kept[i];
        assert row in kept;
        assert DatedIn(col, year, months)(row);
        assert r[i] == ParseRow(col)(row);
        ParsedRow(row, col);
      }
    }
  }

  // ---------------------------------------------------------------- by week

  /** `pd.to_datetime(df[col], errors='coerce').dt.date` of one row. */
  function DateOnlyCell(row: Row, col: string): Cell
  {
    When(AsDate(Get(row, col)))
  }

  /** `pd.to_datetime(df[col], errors='coerce').dt.weekday` of one row: NaN for NaT. */
  function WeekdayCell(row: Row, col: string): Cell
  {
    match AsDate(Get(row, col))
    case None => Missing
    case Some(d) => Number(Weekday(d))
  }

  function DateOnlyCells(rows: seq<Row>, col: string): (r: seq<Cell>)
    ensures |r| == |rows| && forall i :: 0 <= i < |rows| ==> r[i] == DateOnlyCell(rows[i], col)
  {
    MapSeq(rows, (row: Row) => DateOnlyCell(row, col))
  }

  function WeekdayCells(rows: seq<Row>, col: string): (r: seq<Cell>)
    ensures |r| == |rows| && forall i :: 0 <= i < |rows| ==> r[i] == WeekdayCell(rows[i], col)
  {
    MapSeq(rows, (row: Row) => WeekdayCell(row, col))
  }

  /** The frame after the week filter's two helper-column writes. */
  function WeekAnnotated(t: Table, col: string): Table
  {
    var t1 := SetColumnValue(t, DateOnlyColumn, DateOnlyCells(t.rows, col));
    SetColumnValue(t1, WeekdayColumn, WeekdayCells(t1.rows, col))
  }

  /** `(df['DateOnly'] >= a) & (df['DateOnly'] <= b) & (df['Weekday'] <= 4)`; NaT and NaN compare false. */
  function KeepWeek(a: Date, b: Date): Row -> bool
  {
    (row: Row) =>
      && Get(row, DateOnlyColumn).When? && Get(row, DateOnlyColumn).date.Some?
      && AtOrBefore(a, Get(row, DateOnlyColumn).date.value) && AtOrBefore(Get(row, DateOnlyColumn).date.value, b)
      && Get(row, WeekdayColumn).Number? && Get(row, WeekdayColumn).n <= 4
  }

  /** The week filter does its work: not the sentinel, a non-empty table with the column,
      and a label whose two dates parse. */
  predicate WeekFilterApplies(t: Table, col: string, weekStr: string)
  {
    weekStr != AllWeeks && !IsEmpty(t) && col in t.columns && ParseWeekLabel(weekStr).Some?
  }

  /** `_apply_week_filter_local(df, col, weekStr)`. */
  function WeekFilter(t: Table, col: string, weekStr: string): Table
  {
    if WeekFilterApplies(t, col, weekStr) then
      var (a, b) := ParseWeekLabel(weekStr).value;
      var w := WeekAnnotated(t, col);
      DropColumn(DropColumn(Table(w.columns, Filter(w.rows, KeepWeek(a, b))), DateOnlyColumn), WeekdayColumn)
    else t
  }

  /** The week filter on a frame: writes `DateOnly` and `Weekday` into it, as the source
      does, and returns the filtered copy; on every pass-through path it writes nothing. */
  method ApplyWeekFilter(df: Frame, col: string, weekStr: string) returns (r: Table)
    modifies df
    ensures r == WeekFilter(old(df.Contents()), col, weekStr)
    ensures df.Contents() == if WeekFilterApplies(old(df.Contents()), col, weekStr) then WeekAnnotated(old(df.Contents()), col) else old(df.Contents())
  {
    if weekStr != AllWeeks && !IsEmpty(df.Contents()) && col in df.columns {
      var parsed := ParseWeekLabel(weekStr);
      if parsed.None? {
        return df.Contents();
      }
      var (a, b) := parsed.value;
      df.SetColumn(DateOnlyColumn, DateOnlyCells(df.rows, col));
      df.SetColumn(WeekdayColumn, WeekdayCells(df.rows, col));
      var kept := Table(df.columns, Filter(df.rows, KeepWeek(a, b)));
      kept := DropColumn(kept, DateOnlyColumn);
      r := DropColumn(kept, WeekdayColumn);
    } else {
      r := df.Contents();
    }
  }

  /** The date and weekday the week filter tests, stated on the original row. */
  function InWeek(col: string, a: Date, b: Date): Row -> bool
  {
    (row: Row) =>
      var d := AsDate(Get(row, col));
      d.Some? && AtOrBefore(a, d.value) && AtOrBefore(d.value, b) && Weekday(d.value) <= 4
  }

  /** The row without the helper columns. */
  function WithoutHelpers(): Row -> Row
  {
    (row: Row) => row - {DateOnlyColumn} - {WeekdayColumn}
  }

  /** Both helper columns written into one row. */
  function Annotate(col: string): Row -> Row
  {
    (row: Row) => row[DateOnlyColumn := DateOnlyCell(row, col)][WeekdayColumn := WeekdayCell(row, col)]
  }

  lemma WeekAnnotatedRows(t: Table, col: string)
    ensures WeekAnnotated(t, col).rows == MapSeq(t.rows, Annotate(col))
  {
    var t1 := SetColumnValue(t, DateOnlyColumn, DateOnlyCells(t.rows, col));
    forall i | 0 <= i < |t.rows| ensures WeekdayCell(t1.rows[i], col) == WeekdayCell(t.rows[i], col) {
      AsDateOfWhen(Get(t.rows[i], col));
    }
  }

  /** Dropping the helper columns after filtering leaves every other column, in order. */
  lemma HelperColumns(columns: seq<string>)
    ensures DropColumn(DropColumn(Table(AddColumnName(AddColumnName(columns, DateOnlyColumn), WeekdayColumn), []), DateOnlyColumn), WeekdayColumn).columns
         == Filter(columns, (c: string) => c != DateOnlyColumn && c != WeekdayColumn)
  {
    var notD := (c: string) => c != DateOnlyColumn;
    var notW := (c: string) => c != WeekdayColumn;
    var neither := (c: string) => c != DateOnlyColumn && c != WeekdayColumn;
    var c2 := AddColumnName(AddColumnName(columns, DateOnlyColumn), WeekdayColumn);
    FilterFilter(c2, notD, notW, neither);
    FilterFilter(columns, notD, notW, neither);
    HelperTail(columns, neither);
  }

  lemma HelperTail(columns: seq<string>, neither: string -> bool)
    requires forall c :: neither(c) == (c != DateOnlyColumn && c != WeekdayColumn)
    ensures Filter(AddColumnName(AddColumnName(columns, DateOnlyColumn), WeekdayColumn), neither) == Filter(columns, neither)
  {
    var c1 := AddColumnName(columns, DateOnlyColumn);
    if DateOnlyColumn !in columns {
      FilterAppend(columns, [DateOnlyColumn], neither);
      assert Filter([DateOnlyColumn], neither) == Filter([], neither) + [];
    }
    assert Filter(c1, neither) == Filter(columns, neither);
    if WeekdayColumn !in c1 {
      FilterAppend(c1, [WeekdayColumn], neither);
      assert Filter([WeekdayColumn], neither) == Filter([], neither) + [];
    }
  }

  /** The week filter keeps exactly the rows dated from the label's start to its end on
      Monday to Friday, in order and without the helper columns; it returns its input
      unchanged on the sentinel, an empty table, a missing column or a label that does not
      parse. */
  lemma WeekFilterSpec(t: Table, col: string, weekStr: string)
    ensures !WeekFilterApplies(t, col, weekStr) ==> WeekFilter(t, col, weekStr) == t
    ensures WeekFilterApplies(t, col, weekStr) ==>
      var (a, b) := ParseWeekLabel(weekStr).value;
      && WeekFilter(t, col, weekStr).rows == MapSeq(Filter(t.rows, InWeek(col, a, b)), WithoutHelpers())
      && WeekFilter(t, col, weekStr).columns == Filter(t.columns, (c: string) => c != DateOnlyColumn && c != WeekdayColumn)
  {
    if WeekFilterApplies(t, col, weekStr) {
      var (a, b) := ParseWeekLabel(weekStr).value;
      WeekAnnotatedRows(t, col);
      WeekKept(t.rows, col, a, b);
      var kept := Filter(t.rows, InWeek(col, a, b));
      var r := WeekFilter(t, col, weekStr);
      assert r.rows == MapSeq(MapSeq(kept, Annotate(col)), WithoutHelpers());
      WeekUnannotate(kept, col);
      HelperColumns(t.columns);
    }
  }

  /** The annotated rows passing the week test are the annotated in-week rows. */
  lemma WeekKept(rows: seq<Row>, col: string, a: Date, b: Date)
    ensures Filter(MapSeq(rows, Annotate(col)), KeepWeek(a, b)) == MapSeq(Filter(rows, InWeek(col, a, b)), Annotate(col))
  {
    forall i | 0 <= i < |rows|
      ensures InWeek(col, a, b)(rows[i]) == KeepWeek(a, b)(Annotate(col)(rows[i]))
    {
      AnnotatedRow(rows[i], col, a, b);
    }
    FilterMap(rows, Annotate(col), KeepWeek(a, b), InWeek(col, a, b));
  }

  /** Removing the helpers after writing them leaves the rows without the helpers. */
  lemma WeekUnannotate(rows: seq<Row>, col: string)
    ensures MapSeq(MapSeq(rows, Annotate(col)), WithoutHelpers()) == MapSeq(rows, WithoutHelpers())
  {
    forall i | 0 <= i < |rows| ensures WithoutHelpers()(Annotate(col)(rows[i])) == WithoutHelpers()(rows[i]) {
      HelpersRemoved(rows[i], col);
    }
  }

  /** On one row: the helper cells pass the week test exactly when the row's own date does. */
  lemma AnnotatedRow(row: Row, col: string, a: Date, b: Date)
    ensures KeepWeek(a, b)(Annotate(col)(row)) == InWeek(col, a, b)(row)
  {
  }

  /** On one row: removing the helper columns undoes writing them. */
  lemma HelpersRemoved(row: Row, col: string)
    ensures WithoutHelpers()(Annotate(col)(row)) == WithoutHelpers()(row)
  {
  }

  // ---------------------------------------------------------------- by day

  /** `df['DateOnly'] == target`; NaT compares false. */
  function KeepDay(target: Date): Row -> bool
  {
    (row: Row) => Get(row, DateOnlyColumn) == When(Some(target))
  }

  predicate DayFilterApplies(t: Table, col: string, dayStr: string)
  {
    dayStr != AllDays && !IsEmpty(t) && col in t.columns && ParseDate(dayStr).Some?
  }

  /** The frame after the day filter's helper-column write. */
  function DayAnnotated(t: Table, col: string): Table
  {
    SetColumnValue(t, DateOnlyColumn, DateOnlyCells(t.rows, col))
  }

  /** `_apply_day_filter_local(df, col, dayStr)`. */
  function DayFilter(t: Table, col: string, dayStr: string): Table
  {
    if DayFilterApplies(t, col, dayStr) then
      var w := DayAnnotated(t, col);
      DropColumn(Table(w.columns, Filter(w.rows, KeepDay(ParseDate(dayStr).value))), DateOnlyColumn)
    else t
  }

  /** The day filter on a frame: writes `DateOnly` into it and returns the filtered copy. */
  method ApplyDayFilter(df: Frame, col: string, dayStr: string) returns (r: Table)
    modifies df
    ensures r == DayFilter(old(df.Contents()), col, dayStr)
    ensures df.Contents() == if DayFilterApplies(old(df.Contents()), col, dayStr) then DayAnnotated(old(df.Contents()), col) else old(df.Contents())
  {
    if dayStr != AllDays && !IsEmpty(df.Contents()) && col in df.columns {
      var target := ParseDate(dayStr);
      if target.None? {
        return df.Contents();
      }
      df.SetColumn(DateOnlyColumn, DateOnlyCells(df.rows, col));
      var kept := Table(df.columns, Filter(df.rows, KeepDay(target.value)));
      r := DropColumn(kept, DateOnlyColumn);
    } else {
      r := df.Contents();
    }
  }

  function OnDay(col: string, target: Date): Row -> bool
  {
    (row: Row) => AsDate(Get(row, col)) == Some(target)
  }

  function WithoutDateOnly(): Row -> Row
  {
    (row: Row) => row - {DateOnlyColumn}
  }

  /** The day filter keeps exactly the rows dated on the chosen day, in order and without
      the helper column; it returns its input unchanged on the sentinel, an empty table, a
      missing column or a day that does not parse. */
  lemma DayFilterSpec(t: Table, col: string, dayStr: string)
    ensures !DayFilterApplies(t, col, dayStr) ==> DayFilter(t, col, dayStr) == t
    ensures DayFilterApplies(t, col, dayStr) ==>
      && DayFilter(t, col, dayStr).rows == MapSeq(Filter(t.rows, OnDay(col, ParseDate(dayStr).value)), WithoutDateOnly())
      && DayFilter(t, col, dayStr).columns == Filter(t.columns, (c: string) => c != DateOnlyColumn)
  {
    if DayFilterApplies(t, col, dayStr) {
      var target := ParseDate(dayStr).value;
      assert DayAnnotated(t, col).rows == MapSeq(t.rows, AnnotateDay(col));
      forall i | 0 <= i < |t.rows|
        ensures OnDay(col, target)(t.rows[i]) == KeepDay(target)(AnnotateDay(col)(t.rows[i]))
      {
        DayAnnotatedRow(t.rows[i], col, target);
      }
      FilterMap(t.rows, AnnotateDay(col), KeepDay(target), OnDay(col, target));
      var kept := Filter(t.rows, OnDay(col, target));
      var r := DayFilter(t, col, dayStr);
      forall i | 0 <= i < |kept| ensures r.rows[i] == WithoutDateOnly()(kept[i]) {
        DayAnnotatedRow(kept[i], col, target);
      }
      var notD := (c: string) => c != DateOnlyColumn;
      if DateOnlyColumn !in t.columns {
        FilterAppend(t.columns, [DateOnlyColumn], notD);
        assert Filter([DateOnlyColumn], notD) == Filter([], notD) + [];
      }
    }
  }

  /** The day filter's helper column written into one row. */
  function AnnotateDay(col: string): Row -> Row
  {
    (row: Row) => row[DateOnlyColumn := DateOnlyCell(row, col)]
  }

  /** On one row: the helper cell matches the day exactly when the row's own date does,
      and removing the helper undoes writing it. */
  lemma DayAnnotatedRow(row: Row, col: string, target: Date)
    ensures KeepDay(target)(AnnotateDay(col)(row)) == OnDay(col, target)(row)
    ensures WithoutDateOnly()(AnnotateDay(col)(row)) == WithoutDateOnly()(row)
  {
  }

  // ---------------------------------------------------------------- by dialer

  /** The dialer choice: a list from a multi-select, or a single name. */
  datatype DialerChoice = Names(names: seq<string>) | Name(name: string)

  /** The dialer filter lets the table through unchanged. */
  predicate DialerPassThrough(t: Table, col: string, choice: DialerChoice)
  {
    || IsEmpty(t) || col !in t.columns
    || (match choice
        case Names(ns) => |ns| == 0 || AllDialers in ns
        case Name(n) => n == AllDialers)
  }

  /** The chosen names as the filter compares them: stripped and upper-cased. */
  function Wanted(choice: DialerChoice): seq<string>
  {
    match choice
    case Names(ns) => MapSeq(Filter(ns, (d: string) => d != AllDialers), CleanName)
    case Name(n) => [CleanName(n)]
  }

  /** `df[col].isin(wanted)`: only text cells can match. */
  function KeepDialer(col: string, wanted: seq<string>): Row -> bool
  {
    (row: Row) => Get(row, col).Text? && Get(row, col).s in wanted
  }

  /** `_apply_dialer_filter_local(df, col, choice)`. */
  method ApplyDialerFilter(t: Table, col: string, choice: DialerChoice) returns (r: Table)
    ensures DialerPassThrough(t, col, choice) ==> r == t
    ensures !DialerPassThrough(t, col, choice) ==> r == Table(t.columns, Filter(t.rows, KeepDialer(col, Wanted(choice))))
  {
    r := t;
    if IsEmpty(r) || col !in r.columns {
      return;
    }
    match choice {
      case Names(ns) =>
        if |ns| == 0 || AllDialers in ns {
        } else {
          var cleaned := MapSeq(Filter(ns, (d: string) => d != AllDialers), CleanName);
          r := Table(r.columns, Filter(r.rows, KeepDialer(col, cleaned)));
        }
      case Name(n) =>
        if n != AllDialers {
          var cleaned := CleanName(n);
          r := Table(r.columns, Filter(r.rows, KeepDialer(col, [cleaned])));
        }
    }
  }

  /** A name is wanted exactly when it is the cleaned form of a chosen name other than
      "All Dialers". */
  lemma WantedMembers(choice: DialerChoice, s: string)
    ensures s in Wanted(choice) <==>
      match choice
      case Names(ns) => exists d :: d in ns && d != AllDialers && CleanName(d) == s
      case Name(n) => CleanName(n) == s
  {
    if choice.Names? {
      var notAll := (d: string) => d != AllDialers;
      MapFilterMember(choice.names, notAll, CleanName, s);
    }
  }

  /** Outside the pass-through cases a row survives the dialer filter exactly when its
      dialer cell is the text of a wanted name. */
  lemma DialerFilterKeeps(t: Table, col: string, choice: DialerChoice, row: Row)
    requires !DialerPassThrough(t, col, choice)
    ensures row in Filter(t.rows, KeepDialer(col, Wanted(choice))) <==>
      row in t.rows && Get(row, col).Text? && Get(row, col).s in Wanted(choice)
  {
  }
}
