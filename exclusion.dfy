/** The sales exclusion applied after all row filters: a sale is dropped when its
    client names the "PPO-Braces chasing" campaign, and, independently, when its
    closing status is one of the two rejected statuses. The two drops run one after
    the other, so a row goes when either test hits it. */
module Exclusion {
  import opened Basics
  import opened PyStr
  import opened Tables

  /** `'PPO-Braces chasing'`, matched with `case=False`. */
  const ExcludedClient := "ppo-braces chasing"
  /** `{s.lower() for s in ['Retransfer to client', 'Rejected by client']}`. */
  const ExcludedStatuses := ["retransfer to client", "rejected by client"]
  /** The fall-back closing-status column names. */
  const StatusNames := ["closing status", "closing_status", "status", "closingstatus"]

  predicate IsClientName(c: string)
  {
    Contains(Lower(c), "client")
  }

  predicate IsClosingStatusName(c: string)
  {
    Contains(Lower(c), "closing") && Contains(Lower(c), "status")
  }

  predicate IsStatusName(c: string)
  {
    Strip(Lower(c)) in StatusNames
  }

  /** The first column whose lower-cased name contains "client". */
  function ClientColumn(columns: seq<string>): (r: Option<string>)
    ensures r.Some? ==> r.value in columns && IsClientName(r.value)
    ensures r.None? <==> forall c :: c in columns ==> !IsClientName(c)
  {
    FirstColumn(columns, IsClientName)
  }

  /** The first column naming both "closing" and "status"; failing that, the first whose
      stripped lower-cased name is one of the fall-back names. */
  function ClosingColumn(columns: seq<string>): (r: Option<string>)
    ensures r.Some? ==> r.value in columns && (IsClosingStatusName(r.value) || IsStatusName(r.value))
    ensures (exists c :: c in columns && IsClosingStatusName(c)) ==> r.Some? && IsClosingStatusName(r.value)
    ensures r.None? <==> forall c :: c in columns ==> !IsClosingStatusName(c) && !IsStatusName(c)
  {
    match FirstColumn(columns, IsClosingStatusName)
    case Some(c) => Some(c)
    case None => FirstColumn(columns, IsStatusName)
  }

  /** `df[col].astype(str).str.contains('PPO-Braces chasing', case=False)` on one row. */
  predicate ClientExcluded(row: Row, col: string)
  {
    Contains(Lower(CellText(Get(row, col))), ExcludedClient)
  }

  /** `df[col].astype(str).str.lower().isin(exclude_statuses)` on one row. */
  predicate StatusExcluded(row: Row, col: string)
  {
    Lower(CellText(Get(row, col))) in ExcludedStatuses
  }

  /** The row is hit by the client test on `client` or the status test on `closing`,
      each only when its column was found. */
  predicate DroppedBy(client: Option<string>, closing: Option<string>, row: Row)
  {
    || (client.Some? && ClientExcluded(row, client.value))
    || (closing.Some? && StatusExcluded(row, closing.value))
  }

  /** The row is dropped from a sales table with these columns. */
  predicate Dropped(columns: seq<string>, row: Row)
  {
    DroppedBy(ClientColumn(columns), ClosingColumn(columns), row)
  }

  function KeepClient(col: string): Row -> bool
  {
    (row: Row) => !ClientExcluded(row, col)
  }

  function KeepStatus(col: string): Row -> bool
  {
    (row: Row) => !StatusExcluded(row, col)
  }

  function KeptBy(client: Option<string>, closing: Option<string>): Row -> bool
  {
    (row: Row) => !DroppedBy(client, closing, row)
  }

  function Kept(columns: seq<string>): Row -> bool
  {
    (row: Row) => !Dropped(columns, row)
  }

  /** The two drops in turn select the rows neither test hits. */
  lemma ExclusionSteps(rows: seq<Row>, client: Option<string>, closing: Option<string>)
    ensures var afterClient := if client.Some? then Filter(rows, KeepClient(client.value)) else rows;
      (if closing.Some? then Filter(afterClient, KeepStatus(closing.value)) else afterClient)
        == Filter(rows, KeptBy(client, closing))
  {
    var keep := KeptBy(client, closing);
    if client.Some? && closing.Some? {
      FilterFilter(rows, KeepClient(client.value), KeepStatus(closing.value), keep);
    } else if client.Some? {
      FilterCongruent(rows, KeepClient(client.value), keep);
    } else if closing.Some? {
      FilterCongruent(rows, KeepStatus(closing.value), keep);
    } else {
      FilterAll(rows, keep);
    }
  }

  /** The exclusion block of `process_and_calculate_data`: an empty table is left alone;
      otherwise the columns stay and exactly the rows neither test drops remain, in order. */
  method ExcludeSales(t: Table) returns (r: Table)
    ensures IsEmpty(t) ==> r == t
    ensures !IsEmpty(t) ==> r == Table(t.columns, Filter(t.rows, Kept(t.columns)))
  {
    r := t;
    if !IsEmpty(r) {
      var client := FirstColumn(r.columns, IsClientName);
      if client.Some? {
        r := Table(r.columns, Filter(r.rows, KeepClient(client.value)));
      }
      var closing := FirstColumn(r.columns, IsClosingStatusName);
      if closing.None? {
        closing := FirstColumn(r.columns, IsStatusName);
      }
      if closing.Some? {
        r := Table(r.columns, Filter(r.rows, KeepStatus(closing.value)));
      }
      ExclusionSteps(t.rows, client, closing);
      FilterCongruent(t.rows, KeptBy(client, closing), Kept(t.columns));
    }
  }

  /** A sale stays exactly when it was there and neither test drops it; in particular a
      client match alone, or a status match alone, is enough to drop it. */
  lemma ExclusionKeeps(t: Table, row: Row)
    requires !IsEmpty(t)
    ensures row in Filter(t.rows, Kept(t.columns)) <==>
      && row in t.rows
      && !(ClientColumn(t.columns).Some? && ClientExcluded(row, ClientColumn(t.columns).value))
      && !(ClosingColumn(t.columns).Some? && StatusExcluded(row, ClosingColumn(t.columns).value))
  {
  }
}
