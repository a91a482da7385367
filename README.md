# Dialers dashboard: period choice, row filters and KPIs

This project models the data core of the Dialers Streamlit dashboard (`Dialers.py`) in Dafny. The dashboard has three pages: sales, oplans and others. Each page reads a sidebar choice of year, months, week, day and dialers. It then cuts the loaded sheets down to that choice and shows a few integer KPIs and a per-day trend. The model covers the following, each with its properties proved:

- the period widgets' option lists: the business weeks of a month and the business days of a month or week;
- the column reconciliation: aliases are renamed and dialer names cleaned;
- the four row filters: year/month, week, day and dialer;
- the sales exclusion;
- the KPI arithmetic: Python's `round` half to even, with 0 when a denominator is 0;
- the grouped trend series.

Modules follow the program's layers:

| module | what it holds |
|---|---|
| `Basics` | option, order-preserving `Filter`, `MapSeq`, first-match search, duplicate-free sort |
| `PyStr` | the Python `str` operations used, ASCII only |
| `Calendar` | proleptic Gregorian dates, weekdays, month names |
| `DateText` | `%Y-%m-%d` and the week labels `Week n (start to end)` |
| `Periods` | `get_weeks_in_month` and `get_days_in_period`, as imperative methods proved against reference functions |
| `Tables` | rows as maps from column name to cell; a `Frame` class for the frames the filters write helper columns into |
| `Reconcile` | `_standardize_df` and `get_attended_dialers` |
| `Filters` | row filters |
| `Exclusion` | sales exclusion |
| `Kpi` | KPIs |
| `Trend` | trend series |
| `Selection` | sidebar month normalisation |

Inputs enter as parameters:

- The loaded sheets are `Table` values.
- Dates arrive already parsed, as `When` cells.
- The sidebar choices are strings and `DialerChoice` values.

Nothing reads a file, a clock or the network.

## Model

| member | source | states |
|---|---|---|
| `Calendar.DaysInMonth` | Dialers.py:266 | `calendar.monthrange(y, m)[1]`: 28 to 31 days; February has 29 exactly in leap years; another month has 30 exactly when it is April, June, September or November |
| `Calendar.YearLength` | Dialers.py:266 | a year has 366 days exactly when it is a leap year, and the month table adds up to that |
| `Calendar.NextDay` | Dialers.py:313 | `date + timedelta(days=1)`: no successor exactly at 9999-12-31 (the OverflowError); otherwise a valid date after the input |
| `Calendar.NextDayOrdinal` | Dialers.py:311-313 | the successor's day number is one more, and its weekday (Monday 0) is the next one mod 7 |
| `Calendar.NextDayIsImmediate` | Dialers.py:309-313 | no date lies strictly between a date and its successor, so the day loop skips nothing |
| `Calendar.BeforeIsStrictTotalOrder` | Dialers.py:309 | date comparison is irreflexive, transitive and total |
| `Calendar.DateRangeMembers` | Dialers.py:308-313 | the dates the loop visits are exactly the valid dates from start to end inclusive |
| `Calendar.DateRangeAscending` | Dialers.py:308-313 | they are visited in strictly ascending order |
| `Calendar.MonthIndex` | Dialers.py:262-264 | `MONTH_NAMES.index(name) + 1` exists exactly for a month name, lies in 1..12 and names that month; otherwise ValueError |
| `Calendar.NovemberIndex` | Dialers.py:582-593 | the default month "November" is month 11 |
| `Calendar.DecemberIndex` | Dialers.py:593 | "December" is month 12 |
| `DateText.Format` | Dialers.py:281 | `strftime('%Y-%m-%d')`: ten characters, dashes at positions 4 and 7, digits elsewhere |
| `DateText.ParseDate` | Dialers.py:305-306 | `strptime(s, '%Y-%m-%d')` yields only real calendar dates; None stands for ValueError |
| `DateText.ParseFormat` | Dialers.py:305-306 | parsing a formatted date gives the date back |
| `DateText.FormatParse` | Dialers.py:305-306 | every accepted text parses to a date whose formatted text parses to the same date |
| `DateText.CanonicalRoundTrip` | Dialers.py:305-306 | a canonical `YYYY-MM-DD` text that parses is exactly the formatted form of its date |
| `DateText.CanonicalFields` | Dialers.py:305-306 | the parsed year, month and day are the decimal values of the text's digit groups |
| `DateText.LabelStartText` | Dialers.py:303 | `label.split('(')[1].split(' to ')[0]` of a generated week label is the formatted start date |
| `DateText.LabelEndText` | Dialers.py:304 | `label.split(' to ')[1].replace(')', '')` of a generated week label is the formatted end date |
| `DateText.ParseWeekLabelRoundTrip` | Dialers.py:302-306 | a week label `Week n (a to b)` reads back as the pair (a, b) |
| `Periods.FirstMondayIsFirst` | Dialers.py:274-277 | a day of the month is a Monday exactly when it lies a multiple of seven days on or after the first Monday |
| `Periods.WeekSpanShape` | Dialers.py:272-286 | every listed week starts on a Monday of the month and ends on that week's Friday; only the last may end on the month's final day instead, and then that day is Monday to Thursday |
| `Periods.WeekSpansCover` | Dialers.py:272-286 | a day of the month lies in a listed week exactly when it is a business day on or after the first Monday |
| `Periods.WeeksLoopStep` | Dialers.py:273-286 | one day of the loop: a Monday opens a week; a Friday with an open week, or a Monday-to-Thursday month end, emits exactly the next listed week |
| `Periods.WeeksInMonth` | Dialers.py:259-288 | `["All Weeks"]` for an unknown month name, otherwise `["All Weeks"]` followed by the labels of the month's business weeks numbered from 1 |
| `Periods.WeekLabelsLoop` | Dialers.py:268-286 | the day loop builds exactly the labels of the month's business weeks, in order |
| `Periods.VisitDay` | Dialers.py:273-286 | the loop body keeps the week-loop invariant from one day to the next |
| `Periods.AppendWeek` | Dialers.py:281-282 | appending week `counter`'s label extends the labels of the first weeks by one |
| `Periods.EmitLabel` | Dialers.py:281 | the emitted label is the listed label of that week |
| `Periods.NovemberFirstWeek` | Dialers.py:281 | in November 2025 the first option after "All Weeks" is `Week 1 (2025-11-03 to 2025-11-07)` |
| `Periods.FormatWorkdaysCons` | Dialers.py:311-312 | the formatted business days of a range are its first date's text, when that date is Monday to Friday, followed by those of the rest |
| `Periods.FormatWorkdaysSnoc` | Dialers.py:324-325 | extending a sequence of dates by one adds that date's text exactly when it is a business day |
| `Periods.WorkdaysStep` | Dialers.py:309-313 | the business days from a date are that date, when it is Monday to Friday, followed by the business days from its successor; the range shrinks |
| `Periods.WalkStep` | Dialers.py:309-313 | one iteration of the week loop keeps "collected days followed by pending days equals the answer" |
| `Periods.WeekWorkdays` | Dialers.py:302-313 | the business days from start to end as `YYYY-MM-DD` texts, in order; None exactly when the loop steps past 9999-12-31 |
| `Periods.MonthWorkdayStrings` | Dialers.py:318-325 | the business days of the month as `YYYY-MM-DD` texts, in order |
| `Periods.LabelDays` | Dialers.py:300-316 | the day options of a week label always start with "All Days" |
| `Periods.DaysInPeriod` | Dialers.py:291-327 | `["All Days"]` for an unknown month name; for a week label, that label's days; for "All Weeks", "All Days" followed by the month's business days |
| `Periods.RangeWorkdays` | Dialers.py:308-313 | the week's days are strictly ascending and are exactly the Monday-to-Friday dates from start to end |
| `Periods.MonthWorkdays` | Dialers.py:320-325 | the month's days are strictly ascending and are exactly the Monday-to-Friday dates of that month |
| `Periods.LabelDaysOfWeek` | Dialers.py:300-316 | a generated week label gives "All Days" followed by its business days, or only "All Days" where the walk overflows |
| `Periods.WeekChoiceDays` | Dialers.py:291-327 | choosing week k of a month offers exactly its business days, ascending |
| `PyStr.StripIdempotent` | Dialers.py:362 | `strip()` leaves no whitespace at either end, and stripping again changes nothing |
| `PyStr.StripUpper` | Dialers.py:362 | `strip()` and `upper()` commute |
| `PyStr.UpperIdempotent` | Dialers.py:362 | `upper()` twice is `upper()` once |
| `PyStr.Find` | Dialers.py:303-304 | `s.find(sub)` is the first index where `sub` occurs, None when there is none |
| `PyStr.NatToStringRoundTrip` | Dialers.py:281 | the week counter's decimal text reads back as the counter |
| `PyStr.StrLessIsStrictTotalOrder` | Dialers.py:374 | Python's string `<` is a strict total order, so `sorted` of distinct names is well defined |
| `Tables.CellText` | Dialers.py:495 | `.astype(str)` renders text as itself and NaN as "nan" |
| `Tables.AsDate` | Dialers.py:505 | `pd.to_datetime(..., errors='coerce')` yields only valid dates and keeps a date cell's date |
| `Tables.SetColumnValue` | Dialers.py:528 | `df[name] = values` adds the column name once and writes the value at every row |
| `Tables.DropColumn` | Dialers.py:532 | `drop(columns=[name], errors='ignore')` removes the name and that entry of every row, nothing else |
| `Tables.FirstColumn` | Dialers.py:417 | `next((c for c in columns if p(c)), None)`: a matching column with no match before it, None exactly when none matches |
| `Tables.RenameRow` | Dialers.py:485 | the renamed row holds the old column's value under the new name and is otherwise unchanged |
| `Tables.Rename` | Dialers.py:485 | `rename(columns={from: to})` renames every occurrence of the name and every row, and keeps the order |
| `Tables.RenamedColumns` | Dialers.py:485 | after the rename the new name is present, the other names stay, and no other name appears |
| `Reconcile.AliasesDisjoint` | Dialers.py:52-56 | no dialer alias is also a date alias, so the two renames cannot clash |
| `Reconcile.CleanIdempotent` | Dialers.py:495 | cleaning a dialer cell (`astype(str).str.strip().str.upper()`, "NAN" back to NaN) leaves a clean cell, and cleaning twice is cleaning once |
| `Reconcile.CleanNan` | Dialers.py:495 | a NaN dialer renders as "NAN", which the clean step turns back into NaN |
| `Reconcile.CleanColumn` | Dialers.py:494-495 | only the dialer entry of each row changes, to its cleaned value; columns and row count stay |
| `Reconcile.RenameKeepsFirst` | Dialers.py:483-490 | renaming a column that is not of a kind into a name that is not of that kind leaves the search for the first column of that kind unchanged: the date rename does not move the dialer column found, nor the dialer rename the date column |
| `Reconcile.RenameFirstSettles` | Dialers.py:483-490 | after an alias rename into a name that is itself an alias, the first alias column carries that name, and there is none when there was none |
| `Reconcile.CleanColumnIdempotent` | Dialers.py:494-495 | cleaning the dialer column twice is cleaning it once |
| `Reconcile.StandardizeIdempotent` | Dialers.py:479-495 | `_standardize_df` applied to its own result changes nothing, for a date name that is a date alias and a dialer name that is a dialer alias, as at every call site |
| `Reconcile.RenameFirstFacts` | Dialers.py:483-491 | one alias rename moves the first matching column's values under the new name and keeps every other column's values |
| `Reconcile.StandardizeCleans` | Dialers.py:479-497 | `_standardize_df` keeps every row, and every dialer value it leaves is clean |
| `Reconcile.StandardizeDate` | Dialers.py:482-485 | the first column whose lower-cased name is a date alias now carries the date name, with the same values |
| `Reconcile.StandardizeDialer` | Dialers.py:487-495 | the first column named exactly by a dialer alias now carries the dialer name, with its values cleaned |
| `Reconcile.DateMatch` | Dialers.py:346-352 | a column is found exactly when some column's lower-cased name is a date alias; its alias is the first in alias order that any column matches, and it is the first column matching that alias |
| `Reconcile.AttendanceDialerFacts` | Dialers.py:336-343 | the dialer rename gives a `dialer` column exactly when some column is a dialer alias, and keeps the set of date-alias columns |
| `Reconcile.AttendanceColumnsPresent` | Dialers.py:336-355 | after both renames the sheet has `dialer` exactly when some column is a dialer alias, and `date` exactly when some column is a date alias in any case |
| `Reconcile.RowNamesMembers` | Dialers.py:362-374 | a cleaned name is listed exactly when some row carries it |
| `Reconcile.AttendedDialersSpec` | Dialers.py:331-379 | "All Dialers" comes first. Only it remains when no column of the input sheet is a dialer alias or none is a date alias. Otherwise the rest is strictly ascending, and its entries are exactly the non-blank, non-NAN, non-NONE cleaned names of rows dated in the period |
| `Filters.ParsedRow` | Dialers.py:505 | converting a row's date cell twice reads the same date as converting it once |
| `Filters.FilterByDateSpec` | Dialers.py:500-516 | without the column: the column-less empty frame. Otherwise: the same columns and exactly the rows dated in the selected year and months, in order, with their dates parsed |
| `Filters.ApplyWeekFilter` | Dialers.py:519-536 | the result is the week filter's; the input frame gains `DateOnly` and `Weekday` exactly when the filter applies |
| `Filters.WeekFilterSpec` | Dialers.py:519-536 | the input comes back unchanged on "All Weeks", an empty frame, a missing column or an unreadable label. Otherwise the result is exactly the rows dated Monday to Friday within the week, in order, without the helper columns |
| `Filters.WeekKept` | Dialers.py:528-531 | testing the written helper columns selects the same rows as testing the original date |
| `Filters.WeekUnannotate` | Dialers.py:532 | dropping the helper columns undoes writing them |
| `Filters.ApplyDayFilter` | Dialers.py:539-551 | the result is the day filter's; the input frame gains `DateOnly` exactly when the filter applies |
| `Filters.DayFilterSpec` | Dialers.py:539-551 | the input comes back unchanged on "All Days", an empty frame, a missing column or an unreadable day. Otherwise the result is exactly the rows dated on that day, in order, without the helper column |
| `Filters.DayAnnotatedRow` | Dialers.py:545-547 | on one row the helper matches the day exactly when the row's own date does, and removing it undoes writing it |
| `Filters.ApplyDialerFilter` | Dialers.py:554-568 | the input is returned on an empty frame, a missing column, an empty list, a list containing "All Dialers", or "All Dialers" itself. Otherwise exactly the rows whose dialer text is a wanted name are kept, in order |
| `Filters.WantedMembers` | Dialers.py:558-566 | a name is wanted exactly when it is the stripped, upper-cased form of a chosen name other than "All Dialers" |
| `Filters.DialerFilterKeeps` | Dialers.py:563-566 | outside the pass-through cases a row survives exactly when its dialer cell is the text of a wanted name |
| `Exclusion.ClientColumn` | Dialers.py:417 | the client column contains "client" ignoring case; None exactly when no column does |
| `Exclusion.ClosingColumn` | Dialers.py:421-424 | a column naming both "closing" and "status" wins whenever one exists; otherwise a fall-back status name; None exactly when neither exists |
| `Exclusion.ExclusionSteps` | Dialers.py:418-428 | the client drop followed by the status drop keeps exactly the rows neither drop hits |
| `Exclusion.ExcludeSales` | Dialers.py:414-428 | an empty frame is left alone; otherwise the columns stay and exactly the rows that neither the client test nor the status test hits remain, in order |
| `Exclusion.ExclusionKeeps` | Dialers.py:414-428 | a sale stays exactly when it was there and neither test hits it, so one hit alone drops it |
| `Kpi.RoundHalfEven` | Dialers.py:436 | `round(num / den)` is within one half of the exact quotient, and even on a tie |
| `Kpi.RoundUnique` | Dialers.py:436 | any integer within one half of the quotient, even on a tie, is that rounding |
| `Kpi.RoundExact` | Dialers.py:436 | an exact quotient rounds to itself |
| `Kpi.Percent` | Dialers.py:436 | 0 with no denominator or no numerator; never negative; at most 100 when the part does not exceed the whole; 100 when they are equal |
| `Kpi.HalfTransferred` | Dialers.py:842 | five transfers among ten oplans give 50 percent |
| `Kpi.ExactTieRoundsToEven` | Dialers.py:436 | on exact rationals 23 of 40 is the tie 57.5 and rounds to 58 |
| `Kpi.PerDay` | Dialers.py:442 | 0 with no days; between 0 and the total; at least 1 when there are no more days than items |
| `Kpi.DateSetMembers` | Dialers.py:441 | `.dt.date.nunique()` counts exactly the dates the rows carry |
| `Kpi.DatedRowsSameDays` | Dialers.py:812-814 | first keeping the rows whose date parses does not change the set of days |
| `Kpi.NoDays` | Dialers.py:813-816 | there are no days exactly when no row's date parses |
| `Kpi.SalesPercentage` | Dialers.py:436 | 0 with no transfers or no sales; within 0..100 when sales do not exceed transfers |
| `Kpi.SalesPerDay` | Dialers.py:439-445 | 0 for an empty frame or one without the date column; between 0 and the sales count; at least 1 when every sale is dated |
| `Kpi.AttendanceSum` | Dialers.py:453 | the sum of the attendance column is not negative when its counts are not |
| `Kpi.AttendancePerDay` | Dialers.py:453-457 | 0 without a date column, without rows or without any dated row; never negative for non-negative counts |
| `Kpi.GuardedAttendanceAgrees` | Dialers.py:849-851 | the oplans page's average, with the extra emptiness guard on both the total and the day count, equals the sales page's for every frame; the others page repeats it at lines 1097-1099 |
| `Kpi.DatedDaysAsWritten` | Dialers.py:812-816 | the day count as written raises KeyError exactly when the frame has no `created time` column |
| `Kpi.DatedDays` | Dialers.py:812-816 | the guarded day count: 0 without the column; at most the row count; 0 exactly when no row is dated |
| `Kpi.DatedDaysAgree` | Dialers.py:812-816 | wherever the source does not raise, the guarded count is the value it computes |
| `Kpi.MissingDateColumnRaises` | Dialers.py:1085-1088 | a sheet without `created time` reaches the KPI as the column-less empty frame, through the week, day and dialer filters; there the unguarded count raises and the guarded one gives 0 |
| `Kpi.RowsPerDay` | Dialers.py:817 | `avg_oplans_per_day`: 0 with no dated day; between 0 and the row count; at least 1 when there is one |
| `Kpi.OpenerStatusColumn` | Dialers.py:820-824 | an "opener"+"status" column wins whenever one exists; otherwise an "opener" column; otherwise a "status" column; None exactly when no column names either word |
| `Kpi.StatusCleanCells` | Dialers.py:830 | the helper column holds every row's stripped, upper-cased status |
| `Kpi.AllTransfers` | Dialers.py:837-839 | when every row is a transfer, the transfer selection is every row |
| `Kpi.TransferRatio` | Dialers.py:828-842 | 0 for an empty frame or one without a status column; within 0..100; 100 when every oplan is a transfer |
| `Kpi.HelperCountsTransfers` | Dialers.py:830-839 | counting on the written `_status_clean` column counts the transfers of the original rows |
| `Kpi.ComputeTransferRatio` | Dialers.py:819-842 | returns the transfer ratio; the frame gains `_status_clean` exactly when the ratio is computed |
| `Trend.KeyLessIsStrictTotalOrder` | Dialers.py:469 | sorting by date, then by dialer, is a strict total order |
| `Trend.RowKey` | Dialers.py:859-865 | a row has a group key exactly when its date parses and, with a dialer column, its dialer is not NaN; without a dialer column the key's dialer is "TOTAL" |
| `Trend.RowKeysMembers` | Dialers.py:868-872 | the collected keys are exactly those of the rows that have one |
| `Trend.GroupKeys` | Dialers.py:868-885 | the group keys are strictly ascending by date and then dialer, and are exactly the rows' keys |
| `Trend.GroupsSpec` | Dialers.py:868-885 | the series is strictly ascending; each point's count is the number of rows with its key, at least 1 |
| `Trend.GroupsMembers` | Dialers.py:868-885 | a (date, dialer) pair has a point exactly when some row carries it |
| `Trend.SumOfGroups` | Dialers.py:868-881 | the counts of distinct keys add up to the rows carrying one of them |
| `Trend.GroupsTotal` | Dialers.py:868-881 | the counts add up to the number of rows that have a key |
| `Trend.SalesTrend` | Dialers.py:461-471 | empty when the sales frame is empty or lacks the date or dialer column |
| `Trend.PageTrend` | Dialers.py:853-893 | empty for an empty frame or one without `created time`; no "UNKNOWN" point once a specific dialer is chosen |
| `Trend.PageTrendSpec` | Dialers.py:1128-1165 | the series is strictly ascending, and its points are exactly the groups, minus "UNKNOWN" when a dialer is chosen |
| `Trend.NoDialerNothingUnknown` | Dialers.py:1149-1156 | without a dialer column every point is "TOTAL" and the removal of "UNKNOWN" removes nothing |
| `Selection.MonthNumbers` | Dialers.py:593 | one month number per chosen name, each naming that month |
| `Selection.MonthNumbersFaithful` | Dialers.py:593 | two chosen names get the same number exactly when they are the same name |
| `Selection.ChosenMonths` | Dialers.py:589-591 | the chosen months stand when there are any; an empty choice becomes `["November"]`, month 11 |
| `Selection.Normalize` | Dialers.py:589-607 | the chosen months, at least one, and their numbers; with one month the chosen week and day stand, with several they become "All Weeks" and "All Days" |
| `Selection.TwoMonthsReset` | Dialers.py:589-607 | two chosen months keep their numbers and reset the week and day to "All Weeks" and "All Days" |
| `Selection.NovemberDecemberResets` | Dialers.py:589-607 | choosing November and December gives months 11 and 12, "All Weeks" and "All Days" |

## Left out

- Kpi.Percent: the integer percentages are computed on exact rationals, rounded half to even. The source rounds the float product `(part / whole) * 100`, and that product can land just below a .5 tie: at 23 of 40 the code shows 57, while the model gives 58 (`Kpi.ExactTieRoundsToEven`). Floating-point arithmetic is not modelled.
- Kpi.SalesPercentage: uses `Kpi.Percent`, so it has the same exact-rational reading of the float product at Dialers.py:436.
- Kpi.TransferRatio: uses `Kpi.Percent`, so it has the same exact-rational reading of the float product at Dialers.py:842.
- Kpi.ComputeTransferRatio: returns `Kpi.TransferRatio`, so its ratio has the same exact-rational reading.
- Streamlit widgets, Plotly charts, page layout and the period title strings are not modelled. Neither is reading the sheets (Google Sheets, CSV, `st.cache_data`). The loaded frames are parameters.
- `pd.to_datetime` on free text is not modelled: its format guessing and `dayfirst=True` are heuristics of a foreign library. Date cells arrive already parsed, and any non-date cell reads as NaT. The week filter's `pd.to_datetime` of the two label dates and the day filter's `pd.to_datetime` of the chosen day text are modelled as the strict `YYYY-MM-DD` reading that generated labels and day options satisfy.
- Only date cells carry dates. A time of day is not modelled, so `.dt.normalize()` and `.dt.date` are the identity on dates.
- The floating-point KPIs are not modelled: `avg_att_per_dialer` (a mean), `others_percentage` (rounded to one decimal) and `avg_checks_per_agent` with its `att` column search and `.2f` text. `dialers_present` is used only by `avg_att_per_dialer` and is left out with it.
- Attendance counts are integers. A non-integer or text attendance cell adds nothing to the sum.
- `strptime` accepts any Unicode decimal digit in `%Y`, `%m` and `%d`; `DateText.ParseDate` accepts ASCII digits only, which are the only digits the generated labels hold.
- `upper()` and `lower()` map ASCII letters only; Unicode case mapping is not modelled. `strip()` uses Python's whitespace set. `str.contains(..., case=False)` is a lower-case substring test.
- A frame whose columns repeat a name after a rename is modelled as a list of names over one value per name per row. pandas would keep two columns.
- `%Y` is written as four zero-padded digits, as Python documents. Some C libraries do not pad years below 1000.
- Dates before year 1 or after 9999 do not exist. `datetime` raises at the end of year 9999, and the model keeps that overflow: a week ending on 9999-12-31 offers only "All Days".
- The sales exclusion is not one combined client-and-status condition. The code runs two drops in turn, so a row goes when either test hits it, and the model follows the code.
- `PageTrend` removes every point whose dialer is "UNKNOWN" once a specific dialer is chosen, as the code does. Only a real dialer named "UNKNOWN" can be hit, because the "UNKNOWN" fill is replaced by "TOTAL" when there is no dialer column.
- The attendance KPIs of the oplans and others pages add a `not ... empty` guard that the sales page lacks. The guard changes neither the total nor the day count (`Kpi.GuardedAttendanceAgrees`), so `Kpi.AttendancePerDay` serves all three pages.

## Findings

| source | as written | input that shows it | evidently intended | confidence | as-written member | corrected member |
|---|---|---|---|---|---|---|
| Dialers.py:812-815 | `df_oplans_filtered[DATE_COLUMN_SALES]` is indexed even when the date filter returned the column-less `pd.DataFrame()` | an oplans sheet without a `created time` column (or alias) | 0 days, as the sales page does with its `DATE_COLUMN_SALES in columns` guard | not executed | `Kpi.DatedDaysAsWritten`, `Kpi.MissingDateColumnRaises` | `Kpi.DatedDays`, `Kpi.RowsPerDay` |
| Dialers.py:1085-1088 | the same indexing on the others page | an others sheet without a `created time` column (or alias) | 0 days | not executed | `Kpi.DatedDaysAsWritten`, `Kpi.MissingDateColumnRaises` | `Kpi.DatedDays`, `Kpi.RowsPerDay` |
