/** pandas DataFrames as the reporting pipeline uses them: an ordered list of
    column names and a sequence of rows, each row a mapping from column name to
    cell. A column a row has no entry for reads as NaN. Dates are the already
    parsed values of `pd.to_datetime(..., errors='coerce')`: a date, or NaT. */
module Tables {
  import opened Basics
  import opened PyStr
  import opened Calendar
  import opened DateText

  /** One cell: text, an integer, a parsed date (`None` is NaT) or NaN. */
  datatype Cell = Text(s: string) | Number(n: int) | When(date: Option<Date>) | Missing

  type Row = map<string, Cell>

  datatype Table = Table(columns: seq<string>, rows: seq<Row>)

  /** `pd.DataFrame()`: no columns and no rows. */
  const EmptyTable := Table([], [])

  /** `df.empty`: true when either axis has length zero. */
  predicate IsEmpty(t: Table)
  {
    |t.rows| == 0 || |t.columns| == 0
  }

  /** `row[col]`, NaN when the row holds nothing under that name. */
  function Get(r: Row, col: string): Cell
  {
    if col in r then r[col] else Missing
  }

  /** `str(value)`, as `.astype(str)` renders a cell. */
  function CellText(c: Cell): (r: string)
    ensures c.Text? ==> r == c.s
    ensures c.Missing? ==> r == "nan"
  {
    match c
    case Text(s) => s
    case Number(n) => IntToString(n)
    case When(None) => "NaT"
    case When(Some(d)) => if ValidDate(d) then Format(d) + " 00:00:00" else "NaT"
    case Missing => "nan"
  }

  /** `pd.to_datetime(value, errors='coerce')` of one cell. Date values arrive already
      parsed as date cells; any other cell reads as NaT. */
  function AsDate(c: Cell): (r: Option<Date>)
    ensures r.Some? ==> ValidDate(r.value)
    ensures c.When? && c.date.Some? && ValidDate(c.date.value) ==> r == c.date
  {
    match c
    case When(d) => if d.Some? && ValidDate(d.value) then d else None
    case _ => None
  }

  /** Converting a cell to a date cell and reading it back gives the same date. */
  lemma AsDateOfWhen(c: Cell)
    ensures AsDate(When(AsDate(c))) == AsDate(c)
  {
  }

  /** The column list after `df[name] = ...`: a new name goes last. */
  function AddColumnName(columns: seq<string>, name: string): (r: seq<string>)
    ensures name in r && forall c :: c in r <==> c in columns || c == name
  {
    if name in columns then columns else columns + [name]
  }

  /** `df[name] = values` on a value: one new cell per row, nothing else changes. */
  function SetColumnValue(t: Table, name: string, values: seq<Cell>): (r: Table)
    requires |values| == |t.rows|
    ensures r.columns == AddColumnName(t.columns, name) && |r.rows| == |t.rows|
    ensures forall i :: 0 <= i < |t.rows| ==> r.rows[i] == t.rows[i][name := values[i]]
  {
    Table(AddColumnName(t.columns, name), seq(|t.rows|, i requires 0 <= i < |t.rows| => t.rows[i][name := values[i]]))
  }

  /** `df.drop(columns=[name], errors='ignore')`. */
  function DropColumn(t: Table, name: string): (r: Table)
    ensures name !in r.columns && forall c :: c in r.columns <==> c in t.columns && c != name
    ensures |r.rows| == |t.rows| && forall i :: 0 <= i < |r.rows| ==> r.rows[i] == t.rows[i] - {name}
  {
    Table(Filter(t.columns, c => c != name), MapSeq(t.rows, (row: Row) => row - {name}))
  }

  /** `next((c for c in columns if p(c)), None)`. */
  function FirstColumn(columns: seq<string>, p: string -> bool): (r: Option<string>)
    ensures r.Some? ==> r.value in columns && p(r.value)
    ensures r.None? <==> forall c :: c in columns ==> !p(c)
    ensures r.Some? ==> exists i :: 0 <= i < |columns| && columns[i] == r.value && forall j :: 0 <= j < i ==> !p(columns[j])
  {
    match FirstWhere(columns, p)
    case None => None
    case Some(i) => Some(columns[i])
  }

  /** One row of `df.rename(columns={from: to})`: the value under `from` moves to `to`. */
  function RenameRow(row: Row, from: string, to: string): (r: Row)
    ensures Get(r, to) == Get(row, from)
    ensures forall k :: k != from && k != to ==> Get(r, k) == Get(row, k)
    ensures from != to ==> from !in r
  {
    var rest := row - {from, to};
    if from in row then rest[to := row[from]] else rest
  }

  /** `df.rename(columns={from: to})`: every column called `from` is called `to`. */
  function Rename(t: Table, from: string, to: string): (r: Table)
    ensures |r.columns| == |t.columns| && |r.rows| == |t.rows|
    ensures forall i :: 0 <= i < |t.columns| ==> r.columns[i] == if t.columns[i] == from then to else t.columns[i]
    ensures forall i :: 0 <= i < |t.rows| ==> r.rows[i] == RenameRow(t.rows[i], from, to)
  {
    Table(MapSeq(t.columns, c => if c == from then to else c), MapSeq(t.rows, row => RenameRow(row, from, to)))
  }

  lemma RenamedColumns(t: Table, from: string, to: string)
    requires from in t.columns
    ensures to in Rename(t, from, to).columns
    ensures forall c :: c != from && c in t.columns ==> c in Rename(t, from, to).columns
    ensures forall c :: c != to && c in Rename(t, from, to).columns ==> c in t.columns && c != from
  {
    var r := Rename(t, from, to);
    var i :| 0 <= i < |t.columns| && t.columns[i] == from;
    assert r.columns[i] == to;
    forall c | c != from && c in t.columns ensures c in r.columns {
      var j :| 0 <= j < |t.columns| && t.columns[j] == c;
      assert r.columns[j] == c;
    }
    forall c | c != to && c in r.columns ensures c in t.columns && c != from {
      var j :| 0 <= j < |r.columns| && r.columns[j] == c;
    }
  }

  /** The months a page filters on: one month, or a list of months (`isin`). */
  datatype MonthSelection = Single(month: int) | Several(months: seq<int>)

  predicate MonthSelected(m: int, months: MonthSelection)
  {
    match months
    case Single(k) => m == k
    case Several(ks) => m in ks
  }

  /** The date is present (not NaT) and falls in the selected year and months. */
  predicate InPeriod(d: Option<Date>, year: int, months: MonthSelection)
  {
    d.Some? && d.value.year == year && MonthSelected(d.value.month, months)
  }

  /** A DataFrame the source writes new columns into (`df[name] = values`). */
  class Frame {
    var columns: seq<string>
    var rows: seq<Row>

    constructor (t: Table)
      ensures columns == t.columns && rows == t.rows
    {
      columns := t.columns;
      rows := t.rows;
    }

    /** The frame's current contents as a value. */
    function Contents(): Table
      reads this
    {
      Table(columns, rows)
    }

    /** `df[name] = values`: the frame now holds `SetColumnValue` of what it held. */
    method SetColumn(name: string, values: seq<Cell>)
      requires |values| == |rows|
      modifies this
      ensures Contents() == SetColumnValue(old(Contents()), name, values)
    {
      var current := rows;
      columns := AddColumnName(columns, name);
      rows := seq(|current|, i requires 0 <= i < |current| => current[i][name := values[i]]);
    }
  }
}
