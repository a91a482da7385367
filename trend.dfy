/** The trend tables behind the line charts: the filtered rows grouped by (day, dialer)
    and counted, in ascending (date, dialer) order. pandas' `groupby` drops rows whose
    key is missing; the oplans and others pages label every row "TOTAL" when the frame
    has no dialer column, and drop the "UNKNOWN" group when a dialer was chosen. */
module Trend {
  import opened Basics
  import opened PyStr
  import opened Calendar
  import opened Tables
  import opened Reconcile
  import opened Filters

  /** The single label used when the frame has no dialer column. */
  const TotalLabel := "TOTAL"
  /** The group the oplans and others pages remove when a dialer was chosen. */
  const UnknownLabel := "UNKNOWN"

  /** A group key: the normalised day and the dialer. */
  datatype Key = Key(date: Date, dialer: string)

  /** One row of the trend table: a key and the number of rows in its group. */
  datatype TrendPoint = TrendPoint(date: Date, dialer: string, count: nat)

  function PointKey(p: TrendPoint): Key
  {
    Key(p.date, p.dialer)
  }

  /** `sort_values(['Date', dialer])`: by date, then by dialer name. */
  predicate KeyLess(a: Key, b: Key)
  {
    Before(a.date, b.date) || (a.date == b.date && StrLess(a.dialer, b.dialer))
  }

  /** Trend rows ordered by their keys. */
  predicate PointLess(p: TrendPoint, q: TrendPoint)
  {
    KeyLess(PointKey(p), PointKey(q))
  }

  lemma KeyLessIsStrictTotalOrder()
    ensures StrictTotalOrder(KeyLess)
  {
    BeforeIsStrictTotalOrder();
    StrLessIsStrictTotalOrder();
  }

  /** The group key of one row: its parsed date and, when grouping by a dialer column, the
      text of its dialer cell. NaT and a NaN dialer leave the row out of every group. */
  function RowKey(row: Row, dateCol: string, dialerCol: Option<string>): (r: Option<Key>)
    ensures r.Some? ==> Some(r.value.date) == AsDate(Get(row, dateCol))
    ensures r.Some? && dialerCol.None? ==> r.value.dialer == TotalLabel
    ensures r.None? <==> AsDate(Get(row, dateCol)).None? || (dialerCol.Some? && Get(row, dialerCol.value).Missing?)
  {
    match AsDate(Get(row, dateCol))
    case None => None
    case Some(d) =>
      match dialerCol
      case None => Some(Key(d, TotalLabel))
      case Some(c) => if Get(row, c).Missing? then None else Some(Key(d, CellText(Get(row, c))))
  }

  /** The row belongs to group `k`. */
  function InGroup(k: Key, dateCol: string, dialerCol: Option<string>): Row -> bool
  {
    (row: Row) => RowKey(row, dateCol, dialerCol) == Some(k)
  }

  /** The row belongs to some group. */
  function Keyed(dateCol: string, dialerCol: Option<string>): Row -> bool
  {
    (row: Row) => RowKey(row, dateCol, dialerCol).Some?
  }

  /** The row belongs to one of the groups in `keys`. */
  function InGroups(keys: seq<Key>, dateCol: string, dialerCol: Option<string>): Row -> bool
  {
    (row: Row) => RowKey(row, dateCol, dialerCol).Some? && RowKey(row, dateCol, dialerCol).value in keys
  }

  /** The keys of the rows that have one, in row order. */
  function RowKeys(rows: seq<Row>, dateCol: string, dialerCol: Option<string>): seq<Key>
    decreases |rows|
  {
    if |rows| == 0 then []
    else
      RowKeys(rows[..|rows| - 1], dateCol, dialerCol)
        + match RowKey(rows[|rows| - 1], dateCol, dialerCol) case Some(k) => [k] case None => []
  }

  lemma {:induction false} RowKeysMembers(rows: seq<Row>, dateCol: string, dialerCol: Option<string>, k: Key)
    ensures k in RowKeys(rows, dateCol, dialerCol) <==> exists row :: row in rows && RowKey(row, dateCol, dialerCol) == Some(k)
    decreases |rows|
  {
    if |rows| > 0 {
      var prefix := rows[..|rows| - 1];
      RowKeysMembers(prefix, dateCol, dialerCol, k);
      assert forall row :: row in rows <==> row in prefix || row == rows[|rows| - 1];
    }
  }

  /** `.size()` of group `k`. */
  function GroupSize(rows: seq<Row>, k: Key, dateCol: string, dialerCol: Option<string>): nat
  {
    |Filter(rows, InGroup(k, dateCol, dialerCol))|
  }

  function MakePoint(rows: seq<Row>, dateCol: string, dialerCol: Option<string>): Key -> TrendPoint
  {
    (k: Key) => TrendPoint(k.date, k.dialer, GroupSize(rows, k, dateCol, dialerCol))
  }

  /** The distinct keys in ascending order. */
  function GroupKeys(rows: seq<Row>, dateCol: string, dialerCol: Option<string>): (r: seq<Key>)
    ensures StrictlySorted(r, KeyLess)
    ensures forall k :: k in r <==> k in RowKeys(rows, dateCol, dialerCol)
  {
    KeyLessIsStrictTotalOrder();
    SortDistinct(RowKeys(rows, dateCol, dialerCol), KeyLess)
  }

  /** `groupby([...]).size().reset_index()` followed by the sort. */
  function Groups(rows: seq<Row>, dateCol: string, dialerCol: Option<string>): seq<TrendPoint>
  {
    MapSeq(GroupKeys(rows, dateCol, dialerCol), MakePoint(rows, dateCol, dialerCol))
  }

  /** Sum of the counts. */
  function TotalCount(points: seq<TrendPoint>): nat
    decreases |points|
  {
    if |points| == 0 then 0 else TotalCount(points[..|points| - 1]) + points[|points| - 1].count
  }

  /** The groups are in strictly ascending (date, dialer) order, there is one for each key
      some row has and no other, and each counts exactly the rows of its key, at least one. */
  lemma GroupsSpec(rows: seq<Row>, dateCol: string, dialerCol: Option<string>)
    ensures var g := Groups(rows, dateCol, dialerCol);
      && StrictlySorted(g, PointLess)
      && (forall i :: 0 <= i < |g| ==> g[i].count == |Filter(rows, InGroup(PointKey(g[i]), dateCol, dialerCol))| && g[i].count >= 1)
  {
    var keys := GroupKeys(rows, dateCol, dialerCol);
    var g := Groups(rows, dateCol, dialerCol);
    forall i | 0 <= i < |g| ensures g[i].count >= 1 {
      var k := keys[i];
      assert PointKey(g[i]) == k;
      assert k in keys;
      RowKeysMembers(rows, dateCol, dialerCol, k);
      var row :| row in rows && RowKey(row, dateCol, dialerCol) == Some(k);
      assert row in Filter(rows, InGroup(k, dateCol, dialerCol));
    }
  }

  /** A key heads a group exactly when some row has it. */
  lemma GroupsMembers(rows: seq<Row>, dateCol: string, dialerCol: Option<string>, k: Key)
    ensures k in MapSeq(Groups(rows, dateCol, dialerCol), PointKey) <==> exists row :: row in rows && RowKey(row, dateCol, dialerCol) == Some(k)
  {
    var keys := GroupKeys(rows, dateCol, dialerCol);
    assert MapSeq(Groups(rows, dateCol, dialerCol), PointKey) == keys;
    RowKeysMembers(rows, dateCol, dialerCol, k);
  }

  /** Summing the groups of distinct keys counts the rows of any of those keys once. */
  lemma {:induction false} SumOfGroups(rows: seq<Row>, keys: seq<Key>, dateCol: string, dialerCol: Option<string>)
    requires StrictlySorted(keys, KeyLess)
    ensures TotalCount(MapSeq(keys, MakePoint(rows, dateCol, dialerCol))) == |Filter(rows, InGroups(keys, dateCol, dialerCol))|
    decreases |keys|
  {
    var mk := MakePoint(rows, dateCol, dialerCol);
    if |keys| == 0 {
      FilterNone(rows, InGroups(keys, dateCol, dialerCol));
    } else {
      var init := keys[..|keys| - 1];
      var k := keys[|keys| - 1];
      assert StrictlySorted(init, KeyLess);
      KeyLessIsStrictTotalOrder();
      forall j | 0 <= j < |init| ensures init[j] != k {
        SortedDistinct(keys, KeyLess, j, |keys| - 1);
      }
      SumOfGroups(rows, init, dateCol, dialerCol);
      assert MapSeq(keys, mk)[..|keys| - 1] == MapSeq(init, mk);
      FilterSplitCount(rows, InGroups(init, dateCol, dialerCol), InGroup(k, dateCol, dialerCol), InGroups(keys, dateCol, dialerCol));
    }
  }

  /** The counts add up to the number of rows with a key: rows with NaT or a NaN dialer
      are the only ones not counted. */
  lemma GroupsTotal(rows: seq<Row>, dateCol: string, dialerCol: Option<string>)
    ensures TotalCount(Groups(rows, dateCol, dialerCol)) == |Filter(rows, Keyed(dateCol, dialerCol))|
  {
    var keys := GroupKeys(rows, dateCol, dialerCol);
    SumOfGroups(rows, keys, dateCol, dialerCol);
    forall row | row in rows
      ensures InGroups(keys, dateCol, dialerCol)(row) == Keyed(dateCol, dialerCol)(row)
    {
      if RowKey(row, dateCol, dialerCol).Some? {
        RowKeysMembers(rows, dateCol, dialerCol, RowKey(row, dateCol, dialerCol).value);
      }
    }
    FilterCongruent(rows, InGroups(keys, dateCol, dialerCol), Keyed(dateCol, dialerCol));
  }

  // ---------------------------------------------------------------- the pages

  /** `df_sales_trend`: groups by day and dialer, or an empty table when the sales are
      empty or lack the date or the dialer column. */
  function SalesTrend(t: Table): (r: seq<TrendPoint>)
    ensures IsEmpty(t) || SalesDateColumn !in t.columns || DialerColumn !in t.columns ==> r == []
  {
    if !IsEmpty(t) && SalesDateColumn in t.columns && DialerColumn in t.columns then
      Groups(t.rows, SalesDateColumn, Some(DialerColumn))
    else []
  }

  /** The chosen dialers make the page drop the "UNKNOWN" group. */
  predicate DropsUnknown(choice: DialerChoice)
  {
    match choice
    case Names(ns) => AllDialers !in ns
    case Name(n) => n != AllDialers
  }

  function NotUnknown(): TrendPoint -> bool
  {
    (p: TrendPoint) => p.dialer != UnknownLabel
  }

  /** The oplans and others trend grouping: by day and dialer when the frame has a dialer
      column, by day under "TOTAL" otherwise. */
  function PageGroups(t: Table): seq<TrendPoint>
  {
    Groups(t.rows, SalesDateColumn, if DialerColumn in t.columns then Some(DialerColumn) else None)
  }

  /** `df_oplans_trend` and `df_others_trend`: empty without rows or a date column; the
      groups otherwise, without "UNKNOWN" when a dialer was chosen. */
  function PageTrend(t: Table, choice: DialerChoice): (r: seq<TrendPoint>)
    ensures IsEmpty(t) || SalesDateColumn !in t.columns ==> r == []
    ensures forall i :: 0 <= i < |r| && DropsUnknown(choice) ==> r[i].dialer != UnknownLabel
  {
    if !IsEmpty(t) && SalesDateColumn in t.columns then
      var g := PageGroups(t);
      if DropsUnknown(choice) then
        var kept := Filter(g, NotUnknown());
        assert forall i :: 0 <= i < |kept| ==> kept[i] in kept;
        kept
      else g
    else []
  }

  /** The page trend is a subsequence of the groups in the same ascending order; it keeps
      every group other than "UNKNOWN", and every group when no dialer was chosen. */
  lemma PageTrendSpec(t: Table, choice: DialerChoice)
    requires !IsEmpty(t) && SalesDateColumn in t.columns
    ensures var r := PageTrend(t, choice);
      && StrictlySorted(r, PointLess)
      && (forall p :: p in r <==> p in PageGroups(t) && (DropsUnknown(choice) ==> p.dialer != UnknownLabel))
  {
    var g := PageGroups(t);
    var dialerCol := if DialerColumn in t.columns then Some(DialerColumn) else None;
    GroupsSpec(t.rows, SalesDateColumn, dialerCol);
    if DropsUnknown(choice) {
      FilterSorted(g, NotUnknown(), PointLess);
    }
  }

  /** Without a dialer column every group is "TOTAL", so dropping "UNKNOWN" removes
      nothing: the removal can only ever hit a dialer that is really called "UNKNOWN". */
  lemma NoDialerNothingUnknown(t: Table, choice: DialerChoice)
    requires !IsEmpty(t) && SalesDateColumn in t.columns && DialerColumn !in t.columns
    ensures PageTrend(t, choice) == PageGroups(t)
    ensures forall i :: 0 <= i < |PageGroups(t)| ==> PageGroups(t)[i].dialer == TotalLabel
  {
    var g := PageGroups(t);
    var keys := GroupKeys(t.rows, SalesDateColumn, None);
    forall i | 0 <= i < |g| ensures g[i].dialer == TotalLabel {
      assert keys[i] in keys;
      RowKeysMembers(t.rows, SalesDateColumn, None, keys[i]);
    }
    if DropsUnknown(choice) {
      forall p | p in g ensures NotUnknown()(p) {
        var i :| 0 <= i < |g| && g[i] == p;
      }
      FilterAll(g, NotUnknown());
    }
  }
}
