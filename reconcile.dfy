/** Column reconciliation: every sheet names its date and dialer columns in its
    own way. `_standardize_df` renames the first matching column of each kind to
    a canonical name and cleans the dialer values; `get_attended_dialers` builds
    the dialer options from the attendance sheet with its own alias search. */
module Reconcile {
  import opened Basics
  import opened PyStr
  import opened Calendar
  import opened Tables

  /** Canonical name of the date column of the sales, oplans and others sheets. */
  const SalesDateColumn := "created time"
  /** Canonical name of the dialer column of every sheet. */
  const DialerColumn := "dialer"
  /** Canonical name of the date column of the attendance sheet. */
  const AttendanceDateColumn := "date"

  const DateAliases: seq<string> := ["created time", "Created Time", "Created time", "Date", "date", "Timestamp"]
  const DialerAliases: seq<string> := ["dialer", "Dialer", "Agent", "agent", "sales_rep", "Other Leads Dialer"]

  /** The dialer option that stands for every dialer. */
  const AllDialers := "All Dialers"

  /** A column name matches a date alias regardless of case. */
  predicate IsDateAlias(c: string)
  {
    Lower(c) in MapSeq(DateAliases, Lower)
  }

  /** A column name matches a dialer alias exactly. */
  predicate IsDialerAlias(c: string)
  {
    c in DialerAliases
  }

  lemma LowerShape(s: string)
    ensures |Lower(s)| == |s| && (|s| > 0 ==> Lower(s)[0] == LowerChar(s[0]))
  {
  }

  /** A date alias has 12 or 4 letters, or 9 starting with a 't'. */
  lemma DateAliasShape(c: string)
    requires IsDateAlias(c)
    ensures |c| == 12 || |c| == 4 || (|c| == 9 && LowerChar(c[0]) == 't')
  {
    var lowered := MapSeq(DateAliases, Lower);
    var k :| 0 <= k < |lowered| && lowered[k] == Lower(c);
    var alias := DateAliases[k];
    LowerShape(c);
    LowerShape(alias);
    assert |alias| == 12 || |alias| == 4 || (|alias| == 9 && alias[0] == 'T');
  }

  /** No dialer alias is also a date alias, so the two renames never fight over a column. */
  lemma AliasesDisjoint(c: string)
    ensures IsDialerAlias(c) ==> !IsDateAlias(c)
  {
    if IsDialerAlias(c) && IsDateAlias(c) {
      DateAliasShape(c);
      assert false;
    }
  }

  /** `name.strip().upper()`. */
  function CleanName(s: string): string
  {
    Upper(Strip(s))
  }

  /** `str(value).strip().upper()`. */
  function CleanText(c: Cell): string
  {
    CleanName(CellText(c))
  }

  /** `.astype(str).str.strip().str.upper().replace('NAN', np.nan)` on one cell. */
  function Clean(c: Cell): (r: Cell)
    ensures r.Missing? || r == Text(CleanText(c))
  {
    var s := CleanText(c);
    if s == "NAN" then Missing else Text(s)
  }

  /** A cleaned dialer cell: absent, or text without surrounding blanks or lower case, other than "NAN". */
  predicate IsClean(c: Cell)
  {
    c.Missing? || (c.Text? && c.s != "NAN" && Upper(Strip(c.s)) == c.s)
  }

  lemma CleanTextFixed(s: string)
    ensures Upper(Strip(Upper(Strip(s)))) == Upper(Strip(s))
  {
    StripIdempotent(s);
    StripUpper(Strip(s));
    UpperIdempotent(Strip(s));
  }

  /** Every cleaned cell is clean, and cleaning it again changes nothing. */
  lemma CleanIdempotent(c: Cell)
    ensures IsClean(Clean(c))
    ensures Clean(Clean(c)) == Clean(c)
  {
    CleanTextFixed(CellText(c));
    CleanNan();
  }

  /** A missing value reads as "nan", and so cleans to "NAN". */
  lemma CleanNan()
    ensures CleanText(Missing) == "NAN"
  {
    var s := CellText(Missing);
    assert |s| == 3 && s[0] == 'n' && s[1] == 'a' && s[2] == 'n';
    assert !IsSpace(s[0]) && !IsSpace(s[2]);
    StripLeftOfClean(s);
    StripRightOfClean(s);
    assert Strip(s) == s;
    var u := Upper(s);
    assert |u| == 3 && u[0] == 'N' && u[1] == 'A' && u[2] == 'N';
    assert u == "NAN";
  }

  /** `df[col] = clean(df[col])`. */
  function CleanColumn(t: Table, col: string): (r: Table)
    ensures r.columns == t.columns && |r.rows| == |t.rows|
    ensures forall i :: 0 <= i < |t.rows| ==> r.rows[i] == t.rows[i][col := Clean(Get(t.rows[i], col))]
  {
    Table(t.columns, MapSeq(t.rows, (row: Row) => row[col := Clean(Get(row, col))]))
  }

  /** Renames the first column satisfying `p`, unless it already has the name `to`. */
  function RenameFirst(t: Table, p: string -> bool, to: string): Table
  {
    match FirstColumn(t.columns, p)
    case None => t
    case Some(c) => if c != to then Rename(t, c, to) else t
  }

  /** `_standardize_df(df, dateName, dialerName)`. */
  function Standardize(t: Table, dateName: string, dialerName: string): Table
  {
    var t1 := RenameFirst(t, IsDateAlias, dateName);
    var t2 := RenameFirst(t1, IsDialerAlias, dialerName);
    if dialerName in t2.columns then CleanColumn(t2, dialerName) else t2
  }

  /** Renaming a column that does not satisfy `p` into a name that does not either keeps
      the positions of the `p` columns, so the search for the first one finds the same
      column: the date rename does not disturb the dialer search, nor the dialer rename
      the date search. */
  lemma RenameKeepsFirst(t: Table, c: string, to: string, p: string -> bool)
    requires !p(c) && !p(to)
    ensures FirstColumn(Rename(t, c, to).columns, p) == FirstColumn(t.columns, p)
  {
    var r := Rename(t, c, to);
    assert forall i :: 0 <= i < |t.columns| ==> (p(r.columns[i]) <==> p(t.columns[i]));
    FirstWhereSame(t.columns, r.columns, p);
  }

  lemma {:induction false} FirstWhereSame(a: seq<string>, b: seq<string>, p: string -> bool)
    requires |a| == |b| && forall i :: 0 <= i < |a| ==> (p(a[i]) <==> p(b[i]))
    requires forall i :: 0 <= i < |a| && p(a[i]) ==> a[i] == b[i]
    ensures FirstColumn(a, p) == FirstColumn(b, p)
    decreases |a|
  {
    if |a| > 0 && !p(a[0]) {
      FirstWhereSame(a[1..], b[1..], p);
    }
  }

  /** What one alias rename does: the found column's values now sit under `to`, and
      every other column keeps its name and its values. */
  lemma RenameFirstFacts(t: Table, p: string -> bool, to: string)
    ensures var r := RenameFirst(t, p, to); var f := FirstColumn(t.columns, p);
      && |r.rows| == |t.rows|
      && (f.Some? ==> to in r.columns && forall i :: 0 <= i < |t.rows| ==> Get(r.rows[i], to) == Get(t.rows[i], f.value))
      && (forall k :: k in t.columns && k != to && (f.None? || k != f.value) ==> k in r.columns)
      && (forall i, k :: 0 <= i < |t.rows| && k != to && (f.None? || k != f.value) ==> Get(r.rows[i], k) == Get(t.rows[i], k))
  {
    var f := FirstColumn(t.columns, p);
    if f.Some? && f.value != to {
      RenamedColumns(t, f.value, to);
    }
  }

  /** After a rename into a name satisfying `p`, the first `p` column carries that name. */
  lemma RenameFirstSettles(t: Table, p: string -> bool, to: string)
    requires p(to)
    ensures FirstColumn(RenameFirst(t, p, to).columns, p) == if FirstColumn(t.columns, p).Some? then Some(to) else None
  {
    match FirstWhere(t.columns, p)
    case None =>
    case Some(i) =>
      var c := t.columns[i];
      if c != to {
        var r := Rename(t, c, to);
        forall j | 0 <= j < i ensures !p(r.columns[j]) {
          assert t.columns[j] != c;
        }
        FirstWhereAt(r.columns, p, i);
      }
  }

  /** Updating a row's cell with `f` twice is updating it once, when `f` is idempotent on it. */
  lemma UpdateTwice(row: Row, col: string, f: Cell -> Cell)
    requires f(f(Get(row, col))) == f(Get(row, col))
    ensures var once := row[col := f(Get(row, col))];
      once[col := f(Get(once, col))] == once
  {
  }

  /** Cleaning a column twice is cleaning it once. */
  lemma CleanColumnIdempotent(t: Table, col: string)
    ensures CleanColumn(CleanColumn(t, col), col) == CleanColumn(t, col)
  {
    var r := CleanColumn(t, col);
    var again := CleanColumn(r, col);
    forall i | 0 <= i < |r.rows| ensures again.rows[i] == r.rows[i] {
      assert Clean(Clean(Get(t.rows[i], col))) == Clean(Get(t.rows[i], col)) by {
        CleanIdempotent(Get(t.rows[i], col));
      }
      UpdateTwice(t.rows[i], col, Clean);
    }
    assert again.rows == r.rows;
  }

  /** Reconciling an already reconciled sheet changes nothing, for the canonical names the
      pages use: a date name that is itself a date alias, a dialer name that is a dialer alias. */
  lemma StandardizeIdempotent(t: Table, dateName: string, dialerName: string)
    requires IsDateAlias(dateName) && IsDialerAlias(dialerName)
    ensures Standardize(Standardize(t, dateName, dialerName), dateName, dialerName) == Standardize(t, dateName, dialerName)
  {
    var t1 := RenameFirst(t, IsDateAlias, dateName);
    var t2 := RenameFirst(t1, IsDialerAlias, dialerName);
    var r := Standardize(t, dateName, dialerName);
    AliasesDisjoint(dialerName);
    RenameFirstSettles(t, IsDateAlias, dateName);
    RenameFirstSettles(t1, IsDialerAlias, dialerName);
    assert FirstColumn(t2.columns, IsDateAlias) == FirstColumn(t1.columns, IsDateAlias) by {
      match FirstColumn(t1.columns, IsDialerAlias)
      case None =>
      case Some(v) =>
        if v != dialerName {
          AliasesDisjoint(v);
          RenameKeepsFirst(t1, v, dialerName, IsDateAlias);
        }
    }
    assert r.columns == t2.columns;
    assert RenameFirst(r, IsDateAlias, dateName) == r;
    assert RenameFirst(r, IsDialerAlias, dialerName) == r;
    if dialerName in t2.columns {
      CleanColumnIdempotent(t2, dialerName);
    }
  }

  /** `_standardize_df` keeps every row and leaves every dialer value clean. */
  lemma StandardizeCleans(t: Table, dateName: string, dialerName: string)
    ensures var r := Standardize(t, dateName, dialerName);
      && |r.rows| == |t.rows|
      && (dialerName in r.columns ==> forall i :: 0 <= i < |r.rows| ==> IsClean(Get(r.rows[i], dialerName)))
  {
    var t1 := RenameFirst(t, IsDateAlias, dateName);
    var t2 := RenameFirst(t1, IsDialerAlias, dialerName);
    RenameFirstFacts(t, IsDateAlias, dateName);
    RenameFirstFacts(t1, IsDialerAlias, dialerName);
    if dialerName in t2.columns {
      var r := CleanColumn(t2, dialerName);
      forall i | 0 <= i < |r.rows| ensures IsClean(Get(r.rows[i], dialerName)) {
        CleanIdempotent(Get(t2.rows[i], dialerName));
      }
    }
  }

  /** The first column whose lower-case name is a date alias now carries `dateName`, with
      the same values. */
  lemma StandardizeDate(t: Table, dateName: string, dialerName: string)
    requires !IsDialerAlias(dateName) && dateName != dialerName
    requires FirstColumn(t.columns, IsDateAlias).Some?
    ensures var r := Standardize(t, dateName, dialerName); var c := FirstColumn(t.columns, IsDateAlias).value;
      dateName in r.columns && |r.rows| == |t.rows| && forall i :: 0 <= i < |t.rows| ==> Get(r.rows[i], dateName) == Get(t.rows[i], c)
  {
    var t1 := RenameFirst(t, IsDateAlias, dateName);
    var t2 := RenameFirst(t1, IsDialerAlias, dialerName);
    RenameFirstFacts(t, IsDateAlias, dateName);
    RenameFirstFacts(t1, IsDialerAlias, dialerName);
    var fv := FirstColumn(t1.columns, IsDialerAlias);
    assert fv.Some? ==> fv.value != dateName;
    assert dateName in t2.columns;
  }

  /** The first column whose name is exactly a dialer alias now carries `dialerName`, with
      its values cleaned. */
  lemma StandardizeDialer(t: Table, dateName: string, dialerName: string)
    requires !IsDialerAlias(dateName)
    requires FirstColumn(t.columns, IsDialerAlias).Some?
    ensures var r := Standardize(t, dateName, dialerName); var v := FirstColumn(t.columns, IsDialerAlias).value;
      dialerName in r.columns && |r.rows| == |t.rows| && forall i :: 0 <= i < |t.rows| ==> Get(r.rows[i], dialerName) == Clean(Get(t.rows[i], v))
  {
    var t1 := RenameFirst(t, IsDateAlias, dateName);
    var t2 := RenameFirst(t1, IsDialerAlias, dialerName);
    var fd := FirstColumn(t.columns, IsDateAlias);
    var v := FirstColumn(t.columns, IsDialerAlias).value;
    assert FirstColumn(t1.columns, IsDialerAlias) == Some(v) by {
      if fd.Some? {
        AliasesDisjoint(fd.value);
        if fd.value != dateName {
          RenameKeepsFirst(t, fd.value, dateName, IsDialerAlias);
        }
      }
    }
    assert |t1.rows| == |t.rows| && forall i :: 0 <= i < |t.rows| ==> Get(t1.rows[i], v) == Get(t.rows[i], v) by {
      AliasesDisjoint(v);
      RenameFirstFacts(t, IsDateAlias, dateName);
    }
    assert dialerName in t2.columns && |t2.rows| == |t1.rows|
      && forall i :: 0 <= i < |t1.rows| ==> Get(t2.rows[i], dialerName) == Get(t1.rows[i], v) by {
      RenameFirstFacts(t1, IsDialerAlias, dialerName);
    }
  }

  /** `get_attended_dialers` looks for the date column alias by alias: the first alias
      some column matches (ignoring case), then the first column matching it. Unlike the
      column-order search of `_standardize_df`, an earlier alias wins over an earlier column. */
  function DateMatch(columns: seq<string>): (r: Option<string>)
    ensures r.None? <==> forall c :: c in columns ==> !IsDateAlias(c)
    ensures r.Some? ==> r.value in columns && IsDateAlias(r.value)
    ensures r.Some? ==> exists k :: 0 <= k < |DateAliases| && Lower(DateAliases[k]) == Lower(r.value)
                           && forall j :: 0 <= j < k ==> Lower(DateAliases[j]) !in MapSeq(columns, Lower)
    ensures r.Some? ==> exists i :: 0 <= i < |columns| && columns[i] == r.value
                           && forall j :: 0 <= j < i ==> Lower(columns[j]) != Lower(r.value)
  {
    var lowered := MapSeq(columns, Lower);
    match FirstWhere(DateAliases, v => Lower(v) in lowered)
    case None =>
      assert forall c :: c in columns ==> !IsDateAlias(c) by {
        forall c | c in columns ensures !IsDateAlias(c) {
          var i :| 0 <= i < |columns| && columns[i] == c;
          assert lowered[i] == Lower(c);
        }
      }
      None
    case Some(k) =>
      var found := FirstColumn(columns, c => Lower(c) == Lower(DateAliases[k]));
      assert found.Some? by {
        var i :| 0 <= i < |lowered| && lowered[i] == Lower(DateAliases[k]);
        assert columns[i] in columns;
      }
      assert IsDateAlias(found.value) by {
        assert MapSeq(DateAliases, Lower)[k] == Lower(DateAliases[k]);
      }
      found
  }

  /** The first rename of `get_attended_dialers`: the first dialer alias, in alias order,
      that names a column becomes `dialer`. */
  function AttendanceDialer(t: Table): Table
  {
    match FirstWhere(DialerAliases, v => v in t.columns)
    case None => t
    case Some(k) => Rename(t, DialerAliases[k], DialerColumn)
  }

  /** The attendance sheet after the two renames of `get_attended_dialers`: the first
      dialer alias in alias order becomes `dialer`, the matched date column `date`. */
  function AttendanceColumns(t: Table): Table
  {
    var t1 := AttendanceDialer(t);
    match DateMatch(t1.columns)
    case None => t1
    case Some(c) => if c != AttendanceDateColumn then Rename(t1, c, AttendanceDateColumn) else t1
  }

  /** The dialer rename gives a `dialer` column exactly when some column is a dialer
      alias, and it neither adds nor removes a date-alias column. */
  lemma AttendanceDialerFacts(t: Table)
    ensures DialerColumn in AttendanceDialer(t).columns <==> exists c :: c in t.columns && IsDialerAlias(c)
    ensures (exists c :: c in AttendanceDialer(t).columns && IsDateAlias(c)) <==> exists c :: c in t.columns && IsDateAlias(c)
  {
    assert DialerAliases[0] == DialerColumn;
    match FirstWhere(DialerAliases, v => v in t.columns)
    case None =>
      assert forall c :: c in t.columns ==> !IsDialerAlias(c);
    case Some(k) =>
      var v := DialerAliases[k];
      var t1 := Rename(t, v, DialerColumn);
      RenamedColumns(t, v, DialerColumn);
      AliasesDisjoint(v);
      AliasesDisjoint(DialerColumn);
      assert IsDialerAlias(v);
      if c :| c in t.columns && IsDateAlias(c) {
        assert c in t1.columns;
      }
      if c :| c in t1.columns && IsDateAlias(c) {
        assert c in t.columns;
      }
  }

  /** After both renames the sheet has a `dialer` column exactly when one of its columns is
      a dialer alias, and a `date` column exactly when one of its columns is a date alias
      in any case. */
  lemma AttendanceColumnsPresent(t: Table)
    ensures DialerColumn in AttendanceColumns(t).columns <==> exists c :: c in t.columns && IsDialerAlias(c)
    ensures AttendanceDateColumn in AttendanceColumns(t).columns <==> exists c :: c in t.columns && IsDateAlias(c)
  {
    var t1 := AttendanceDialer(t);
    AttendanceDialerFacts(t);
    assert IsDateAlias(AttendanceDateColumn) by {
      assert MapSeq(DateAliases, Lower)[4] == Lower(AttendanceDateColumn);
    }
    AliasesDisjoint(DialerColumn);
    assert IsDialerAlias(DialerColumn) by {
      assert DialerAliases[0] == DialerColumn;
    }
    match DateMatch(t1.columns)
    case None =>
    case Some(c) =>
      if c != AttendanceDateColumn {
        RenamedColumns(t1, c, AttendanceDateColumn);
      }
  }

  /** A name worth offering: not blank, not "NAN", not "NONE". */
  predicate IsOption(d: string)
  {
    |Strip(d)| > 0 && Upper(d) != "NAN" && Upper(d) != "NONE"
  }

  /** The attendance rows of the period. */
  function PeriodRows(rows: seq<Row>, year: int, months: MonthSelection): seq<Row>
  {
    Filter(rows, (row: Row) => InPeriod(AsDate(Get(row, AttendanceDateColumn)), year, months))
  }

  /** The cleaned dialer names of the given rows. */
  function RowNames(rows: seq<Row>): seq<string>
  {
    MapSeq(rows, RowName)
  }

  /** `get_attended_dialers(df, year, months)`. */
  function AttendedDialers(t: Table, year: int, months: MonthSelection): seq<string>
  {
    var a := AttendanceColumns(t);
    if DialerColumn !in a.columns || AttendanceDateColumn !in a.columns then [AllDialers]
    else
      StrLessIsStrictTotalOrder();
      [AllDialers] + Filter(SortDistinct(RowNames(PeriodRows(a.rows, year, months)), StrLess), IsOption)
  }

  /** The cleaned dialer name of a row. */
  function RowName(row: Row): string
  {
    CleanText(Get(row, DialerColumn))
  }

  lemma RowNamesMembers(rows: seq<Row>, s: string)
    ensures s in RowNames(rows) <==> exists row :: row in rows && RowName(row) == s
  {
    var names := RowNames(rows);
    assert forall i :: 0 <= i < |rows| ==> names[i] == RowName(rows[i]);
    if s in names {
      var i :| 0 <= i < |names| && names[i] == s;
      assert rows[i] in rows;
    }
    if exists row :: row in rows && RowName(row) == s {
      var row :| row in rows && RowName(row) == s;
      var i :| 0 <= i < |rows| && rows[i] == row;
      assert names[i] == s;
    }
  }

  /** The option list: "All Dialers" first, then the distinct cleaned names of the
      attendance rows dated in the period, in ascending order, without blank, "NAN" or
      "NONE"; only "All Dialers" when the sheet has no dialer or no date column. */
  lemma AttendedDialersSpec(t: Table, year: int, months: MonthSelection)
    ensures var r := AttendedDialers(t, year, months);
      && |r| >= 1 && r[0] == AllDialers
      && StrictlySorted(r[1..], StrLess)
      && (forall s :: s in r[1..] ==> IsOption(s))
    ensures (forall c :: c in t.columns ==> !IsDialerAlias(c)) || (forall c :: c in t.columns ==> !IsDateAlias(c)) ==>
      AttendedDialers(t, year, months) == [AllDialers]
    ensures var a := AttendanceColumns(t);
      (exists c :: c in t.columns && IsDialerAlias(c)) && (exists c :: c in t.columns && IsDateAlias(c)) ==>
        forall s :: s in AttendedDialers(t, year, months)[1..] <==>
          IsOption(s) && exists row :: row in a.rows && InPeriod(AsDate(Get(row, AttendanceDateColumn)), year, months)
                                      && RowName(row) == s
  {
    StrLessIsStrictTotalOrder();
    AttendanceColumnsPresent(t);
    var a := AttendanceColumns(t);
    var r := AttendedDialers(t, year, months);
    if DialerColumn in a.columns && AttendanceDateColumn in a.columns {
      var inPeriod := PeriodRows(a.rows, year, months);
      var sorted := SortDistinct(RowNames(inPeriod), StrLess);
      assert r[1..] == Filter(sorted, IsOption);
      FilterSorted(sorted, IsOption, StrLess);
      forall s ensures s in r[1..] <==> IsOption(s) && exists row :: row in a.rows && InPeriod(AsDate(Get(row, AttendanceDateColumn)), year, months)
                                                        && RowName(row) == s {
        RowNamesMembers(inPeriod, s);
      }
    } else {
      assert r[1..] == [];
    }
  }
}
