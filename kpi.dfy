/** The integer KPIs of the three dashboard pages, on exact rationals: ratios scaled
    to percent, averages per distinct day, the attendance total and the oplans
    transfer ratio. Python's `round` rounds half to even; every ratio falls back to
    0 when its denominator is 0. */
module Kpi {
  import opened Basics
  import opened PyStr
  import opened Calendar
  import opened Tables
  import opened Reconcile
  import opened Filters

  /** The attendance sheet's count column. */
  const AttendanceColumn := "attendance"
  /** The helper column the oplans page writes into its filtered frame. */
  const StatusCleanColumn := "_status_clean"
  /** The cleaned opener statuses that count as a transfer. */
  const TransferStatuses := ["TRANSFERRED", "GREEN FLAG", "RED FLAGS"]

  // ---------------------------------------------------------------- rounding

  /** `round(num / den)`: the integer nearest to the exact quotient, ties to the even one. */
  function RoundHalfEven(num: int, den: int): (r: int)
    requires den > 0
    ensures 2 * num - den <= 2 * den * r <= 2 * num + den
    ensures (2 * den * r == 2 * num - den || 2 * den * r == 2 * num + den) ==> r % 2 == 0
  {
    var q := num / den;
    var rem := num % den;
    assert num == den * q + rem;
    if 2 * rem < den then q
    else if 2 * rem > den then q + 1
    else if q % 2 == 0 then q
    else q + 1
  }

  /** Multiplying by a positive factor keeps the order, both ways. */
  lemma MulLe(a: int, b: int, c: int)
    requires a > 0
    ensures a * b <= a * c <==> b <= c
  {
    if b <= c {
      assert a * c - a * b == a * (c - b);
    } else {
      assert a * b - a * c == a * (b - c);
    }
  }

  /** Rounding half to even is the only nearest integer with even ties. */
  lemma RoundUnique(num: int, den: int, k: int)
    requires den > 0
    requires 2 * num - den <= 2 * den * k <= 2 * num + den
    requires (2 * den * k == 2 * num - den || 2 * den * k == 2 * num + den) ==> k % 2 == 0
    ensures k == RoundHalfEven(num, den)
  {
    var r := RoundHalfEven(num, den);
    var a := 2 * den;
    var d := k - r;
    assert a * d == a * k - a * r by {
      Distrib(a, k, r);
    }
    assert -1 <= d <= 1 by {
      MulLe(a, d, 1);
      MulLe(a, -1, d);
    }
    assert d != 1 && d != -1;
  }

  /** Multiplication distributes over a difference. */
  lemma Distrib(a: int, b: int, c: int)
    ensures a * (b - c) == a * b - a * c
  {
  }

  /** An exact quotient rounds to itself. */
  lemma RoundExact(n: int, den: int)
    requires den > 0
    ensures RoundHalfEven(n * den, den) == n
  {
    RoundUnique(n * den, den, n);
  }

  /** `round((part / whole) * 100) if whole > 0 else 0`. */
  function Percent(part: nat, whole: nat): (r: int)
    ensures whole == 0 || part == 0 ==> r == 0
    ensures r >= 0
    ensures part <= whole ==> r <= 100
    ensures 0 < part == whole ==> r == 100
  {
    if whole > 0 then
      var r := RoundHalfEven(100 * part, whole);
      RoundExact(0, whole);
      RoundExact(100, whole);
      MulLe(2 * whole, r, -1);
      MulLe(2 * whole, 101, r);
      r
    else 0
  }

  /** Five transfers among ten oplans give a ratio of 50 percent. */
  lemma HalfTransferred()
    ensures Percent(5, 10) == 50
  {
    RoundExact(50, 10);
  }

  /** On exact rationals 23 of 40 is the tie 57.5, which rounds to the even 58. Python's
      float product `(23 / 40) * 100` lies just below the tie, so the source shows 57. */
  lemma ExactTieRoundsToEven()
    ensures Percent(23, 40) == 58
  {
    RoundUnique(2300, 40, 58);
  }

  /** `round(total / days) if days > 0 else 0`. */
  function PerDay(total: int, days: nat): (r: int)
    ensures days == 0 ==> r == 0
    ensures total >= 0 ==> 0 <= r <= total
    ensures 0 < days <= total ==> r >= 1
  {
    if days > 0 then
      var r := RoundHalfEven(total, days);
      MulLe(2 * days, r, -1);
      MulLe(2 * days, r, 0);
      MulLe(2 * days, total + 1, r);
      assert 2 * days * (total + 1) == 2 * (days * total) + 2 * days;
      if total > 0 then
        MulLe(total, 1, days);
        r
      else r
    else 0
  }

  // ---------------------------------------------------------------- distinct days

  /** `df[col].dt.date` of the rows whose date parses, as a set (`nunique` counts it). */
  function DateSet(rows: seq<Row>, col: string): (r: set<Date>)
    ensures |r| <= |rows|
    decreases |rows|
  {
    if |rows| == 0 then {}
    else
      var last := AsDate(Get(rows[|rows| - 1], col));
      DateSet(rows[..|rows| - 1], col) + (if last.Some? then {last.value} else {})
  }

  /** The row carries a parsed date in `col`. */
  function IsDated(col: string): Row -> bool
  {
    (row: Row) => AsDate(Get(row, col)).Some?
  }

  /** A date is counted exactly when some row carries it. */
  lemma {:induction false} DateSetMembers(rows: seq<Row>, col: string, d: Date)
    ensures d in DateSet(rows, col) <==> exists row :: row in rows && AsDate(Get(row, col)) == Some(d)
    decreases |rows|
  {
    if |rows| > 0 {
      var prefix := rows[..|rows| - 1];
      DateSetMembers(prefix, col, d);
      assert forall row :: row in rows <==> row in prefix || row == rows[|rows| - 1];
    }
  }

  /** Rows without a date add no day: selecting the dated rows keeps the set of days. */
  lemma DatedRowsSameDays(rows: seq<Row>, col: string)
    ensures DateSet(Filter(rows, IsDated(col)), col) == DateSet(rows, col)
  {
    var dated := Filter(rows, IsDated(col));
    forall d ensures d in DateSet(dated, col) <==> d in DateSet(rows, col) {
      DateSetMembers(dated, col, d);
      DateSetMembers(rows, col, d);
    }
  }

  /** No day is counted exactly when no row carries a date. */
  lemma NoDays(rows: seq<Row>, col: string)
    ensures |DateSet(rows, col)| == 0 <==> forall i :: 0 <= i < |rows| ==> AsDate(Get(rows[i], col)).None?
  {
    if exists i :: 0 <= i < |rows| && AsDate(Get(rows[i], col)).Some? {
      var i :| 0 <= i < |rows| && AsDate(Get(rows[i], col)).Some?;
      DateSetMembers(rows, col, AsDate(Get(rows[i], col)).value);
      assert rows[i] in rows;
    } else {
      forall d ensures d !in DateSet(rows, col) {
        DateSetMembers(rows, col, d);
      }
      assert DateSet(rows, col) == {};
    }
  }

  // ---------------------------------------------------------------- sales page

  /** `round((total_sales_count / total_transfers_count) * 100)`, 0 without transfers.
      A sales count that does not exceed the transfers gives a percentage in 0..100. */
  function SalesPercentage(sales: Table, oplans: Table): (r: int)
    ensures |oplans.rows| == 0 || |sales.rows| == 0 ==> r == 0
    ensures |sales.rows| <= |oplans.rows| ==> 0 <= r <= 100
  {
    Percent(|sales.rows|, |oplans.rows|)
  }

  /** `avg_sales_per_day`: sales per distinct sales day, 0 for an empty table or one
      without the date column; at least 1 when every sale is dated and there is one. */
  function SalesPerDay(sales: Table): (r: int)
    ensures IsEmpty(sales) || SalesDateColumn !in sales.columns ==> r == 0
    ensures 0 <= r <= |sales.rows|
    ensures (&& !IsEmpty(sales) && SalesDateColumn in sales.columns
             && forall i :: 0 <= i < |sales.rows| ==> AsDate(Get(sales.rows[i], SalesDateColumn)).Some?) ==> r >= 1
  {
    if !IsEmpty(sales) && SalesDateColumn in sales.columns then
      var days := DateSet(sales.rows, SalesDateColumn);
      NoDays(sales.rows, SalesDateColumn);
      PerDay(|sales.rows|, |days|)
    else 0
  }

  /** `df['attendance'].sum()` over integer cells; NaN and other cells add nothing. */
  function AttendanceSum(rows: seq<Row>): (r: int)
    ensures (forall i :: 0 <= i < |rows| && Get(rows[i], AttendanceColumn).Number? ==> Get(rows[i], AttendanceColumn).n >= 0) ==> r >= 0
    decreases |rows|
  {
    if |rows| == 0 then 0
    else
      var c := Get(rows[|rows| - 1], AttendanceColumn);
      AttendanceSum(rows[..|rows| - 1]) + (if c.Number? then c.n else 0)
  }

  /** `round(total_att_count / days_with_att)`, where the total is 0 without an
      `attendance` column and the days are 0 without a `date` column; the average is 0
      when nothing is dated and never negative for non-negative counts. */
  function AttendancePerDay(att: Table): (r: int)
    ensures AttendanceDateColumn !in att.columns || |att.rows| == 0 ==> r == 0
    ensures (forall i :: 0 <= i < |att.rows| ==> AsDate(Get(att.rows[i], AttendanceDateColumn)).None?) ==> r == 0
    ensures (forall i :: 0 <= i < |att.rows| && Get(att.rows[i], AttendanceColumn).Number? ==> Get(att.rows[i], AttendanceColumn).n >= 0) ==> r >= 0
  {
    var total := if AttendanceColumn in att.columns then AttendanceSum(att.rows) else 0;
    var days := if AttendanceDateColumn in att.columns then |DateSet(att.rows, AttendanceDateColumn)| else 0;
    NoDays(att.rows, AttendanceDateColumn);
    PerDay(total, days)
  }

  /** `avg_att_per_day_op` and `avg_att_per_day_oth`: the same average, but the total and
      the day count are also 0 for an empty frame. */
  function GuardedAttendancePerDay(att: Table): int
  {
    var total := if AttendanceColumn in att.columns && !IsEmpty(att) then AttendanceSum(att.rows) else 0;
    var days := if AttendanceDateColumn in att.columns && !IsEmpty(att) then |DateSet(att.rows, AttendanceDateColumn)| else 0;
    PerDay(total, days)
  }

  /** The emptiness guard of the oplans and others pages changes no result, so their
      attendance average is the sales page's, for every frame. */
  lemma GuardedAttendanceAgrees(att: Table)
    ensures GuardedAttendancePerDay(att) == AttendancePerDay(att)
  {
  }

  // ---------------------------------------------------------------- oplans and others pages

  /** `unique_days` as the oplans and others pages compute it: the rows whose date parses,
      then their distinct days. `None` is the KeyError raised when the frame has no date
      column, as the column-less frame the date filter returns for a sheet without one. */
  function DatedDaysAsWritten(t: Table): (r: Option<nat>)
    ensures SalesDateColumn !in t.columns <==> r.None?
  {
    if SalesDateColumn !in t.columns then None
    else
      var dated := Filter(t.rows, IsDated(SalesDateColumn));
      if IsEmpty(Table(t.columns, dated)) then Some(0)
      else Some(|DateSet(dated, SalesDateColumn)|)
  }

  /** `unique_days` guarded the way the sales page guards it: 0 without the date column. */
  function DatedDays(t: Table): (r: nat)
    ensures SalesDateColumn !in t.columns ==> r == 0
    ensures r <= |t.rows|
    ensures r == 0 <==> SalesDateColumn !in t.columns || forall i :: 0 <= i < |t.rows| ==> AsDate(Get(t.rows[i], SalesDateColumn)).None?
  {
    if SalesDateColumn in t.columns then
      NoDays(t.rows, SalesDateColumn);
      |DateSet(t.rows, SalesDateColumn)|
    else 0
  }

  /** Where the source does not raise, the guarded count is what it computes. */
  lemma DatedDaysAgree(t: Table)
    requires SalesDateColumn in t.columns
    ensures DatedDaysAsWritten(t) == Some(DatedDays(t))
  {
    var dated := Filter(t.rows, IsDated(SalesDateColumn));
    DatedRowsSameDays(t.rows, SalesDateColumn);
    if |dated| == 0 {
      NoDays(dated, SalesDateColumn);
    }
  }

  /** A sheet whose standardised columns hold no `created time` reaches the oplans and
      others KPI code as the column-less frame, passing the week, day and dialer filters
      untouched, and the unguarded day count raises where the guarded one gives 0. */
  lemma MissingDateColumnRaises(t: Table, year: int, months: MonthSelection, weekStr: string, dayStr: string, choice: DialerChoice)
    requires SalesDateColumn !in t.columns
    ensures var f := DayFilter(WeekFilter(FilterByDate(t, SalesDateColumn, year, months), SalesDateColumn, weekStr), SalesDateColumn, dayStr);
      && f == EmptyTable
      && DialerPassThrough(f, DialerColumn, choice)
      && DatedDaysAsWritten(f).None?
      && DatedDays(f) == 0
  {
    FilterByDateSpec(t, SalesDateColumn, year, months);
    WeekFilterSpec(EmptyTable, SalesDateColumn, weekStr);
    DayFilterSpec(EmptyTable, SalesDateColumn, dayStr);
  }

  /** `avg_oplans_per_day` and `avg_others_per_day` with the guard: rows per distinct day,
      0 without the date column or without any dated row. */
  function RowsPerDay(t: Table): (r: int)
    ensures DatedDays(t) == 0 ==> r == 0
    ensures 0 <= r <= |t.rows|
    ensures DatedDays(t) > 0 ==> r >= 1
  {
    PerDay(|t.rows|, DatedDays(t))
  }

  /** `'opener' in c.lower() and 'status' in c.lower()`. */
  predicate IsOpenerStatusName(c: string)
  {
    Contains(Lower(c), "opener") && Contains(Lower(c), "status")
  }

  predicate HasOpenerWord(c: string)
  {
    Contains(Lower(c), "opener")
  }

  predicate HasStatusWord(c: string)
  {
    Contains(Lower(c), "status")
  }

  /** The status column: the first naming both "opener" and "status", else the first
      naming "opener", else the first naming "status". */
  function OpenerStatusColumn(columns: seq<string>): (r: Option<string>)
    ensures r.Some? ==> r.value in columns && (HasOpenerWord(r.value) || HasStatusWord(r.value))
    ensures (exists c :: c in columns && IsOpenerStatusName(c)) ==> r.Some? && IsOpenerStatusName(r.value)
    ensures (exists c :: c in columns && HasOpenerWord(c)) ==> r.Some? && HasOpenerWord(r.value)
    ensures r.None? <==> forall c :: c in columns ==> !HasOpenerWord(c) && !HasStatusWord(c)
  {
    match FirstColumn(columns, IsOpenerStatusName)
    case Some(c) => Some(c)
    case None =>
      match FirstColumn(columns, HasOpenerWord)
      case Some(c) => Some(c)
      case None => FirstColumn(columns, HasStatusWord)
  }

  /** `astype(str).str.strip().str.upper()` of the status cell. */
  function StatusClean(row: Row, col: string): Cell
  {
    Text(CleanText(Get(row, col)))
  }

  function StatusCleanCells(rows: seq<Row>, col: string): (r: seq<Cell>)
    ensures |r| == |rows| && forall i :: 0 <= i < |rows| ==> r[i] == StatusClean(rows[i], col)
  {
    MapSeq(rows, (row: Row) => StatusClean(row, col))
  }

  /** The cleaned status of the row counts as a transfer. */
  function IsTransfer(col: string): Row -> bool
  {
    (row: Row) => CleanText(Get(row, col)) in TransferStatuses
  }

  /** When every row is a transfer, all of them are counted. */
  lemma AllTransfers(rows: seq<Row>, col: string)
    ensures (forall i :: 0 <= i < |rows| ==> IsTransfer(col)(rows[i])) ==> Filter(rows, IsTransfer(col)) == rows
  {
    if forall i :: 0 <= i < |rows| ==> IsTransfer(col)(rows[i]) {
      forall x | x in rows ensures IsTransfer(col)(x) {
        var i :| 0 <= i < |rows| && rows[i] == x;
      }
      FilterAll(rows, IsTransfer(col));
    }
  }

  /** The ratio is computed: a non-empty frame with a status column. */
  predicate TransferRatioApplies(t: Table)
  {
    !IsEmpty(t) && OpenerStatusColumn(t.columns).Some?
  }

  /** `transfer_ratio_pct`: transfers among all oplans, in percent; 0 when the frame is
      empty or has no status column, 100 when every oplan is a transfer. */
  function TransferRatio(t: Table): (r: int)
    ensures !TransferRatioApplies(t) ==> r == 0
    ensures 0 <= r <= 100
    ensures TransferRatioApplies(t) && (forall i :: 0 <= i < |t.rows| ==> IsTransfer(OpenerStatusColumn(t.columns).value)(t.rows[i])) ==> r == 100
  {
    if TransferRatioApplies(t) then
      var col := OpenerStatusColumn(t.columns).value;
      AllTransfers(t.rows, col);
      Percent(|Filter(t.rows, IsTransfer(col))|, |t.rows|)
    else 0
  }

  /** The cleaned-status cell written into one row. */
  function AddStatusClean(col: string): Row -> Row
  {
    (row: Row) => row[StatusCleanColumn := StatusClean(row, col)]
  }

  /** `df['_status_clean'].isin(transfer_statuses)` on a frame that holds the helper. */
  function CleanIsTransfer(): Row -> bool
  {
    (row: Row) => Get(row, StatusCleanColumn).Text? && Get(row, StatusCleanColumn).s in TransferStatuses
  }

  /** Counting on the written helper column counts the transfers of the original rows. */
  lemma HelperCountsTransfers(rows: seq<Row>, col: string)
    ensures |Filter(MapSeq(rows, AddStatusClean(col)), CleanIsTransfer())| == |Filter(rows, IsTransfer(col))|
  {
    FilterMap(rows, AddStatusClean(col), CleanIsTransfer(), IsTransfer(col));
  }

  /** The oplans transfer ratio on the page's frame: writes `_status_clean` into it, as
      the source does, when the ratio is computed; leaves it alone otherwise. */
  method ComputeTransferRatio(df: Frame) returns (ratio: int)
    modifies df
    ensures ratio == TransferRatio(old(df.Contents()))
    ensures 0 <= ratio <= 100
    ensures df.Contents() == if TransferRatioApplies(old(df.Contents()))
      then SetColumnValue(old(df.Contents()), StatusCleanColumn, StatusCleanCells(old(df.rows), OpenerStatusColumn(old(df.columns)).value))
      else old(df.Contents())
  {
    ratio := 0;
    var statusCol := FirstColumn(df.columns, IsOpenerStatusName);
    if statusCol.None? {
      statusCol := FirstColumn(df.columns, HasOpenerWord);
    }
    if statusCol.None? {
      statusCol := FirstColumn(df.columns, HasStatusWord);
    }
    if !IsEmpty(df.Contents()) && statusCol.Some? {
      var col := statusCol.value;
      var before := df.rows;
      df.SetColumn(StatusCleanColumn, StatusCleanCells(df.rows, col));
      assert df.rows == MapSeq(before, AddStatusClean(col));
      var transfers := |Filter(df.rows, CleanIsTransfer())|;
      HelperCountsTransfers(before, col);
      ratio := Percent(transfers, |df.rows|);
    }
  }
}
