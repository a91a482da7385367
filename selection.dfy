/** The period each page reads from its sidebar: the chosen month names (November
    when none is chosen), their numbers 1 to 12, and the chosen week and day, which
    fall back to "All Weeks" and "All Days" when more than one month is chosen. */
module Selection {
  import opened Basics
  import opened Calendar
  import opened Filters

  const DefaultMonth := "November"

  /** The normalised sidebar choice. */
  datatype Period = Period(monthNames: seq<string>, months: seq<int>, week: string, day: string)

  /** `[MONTH_NAMES.index(m) + 1 for m in names]`; the month widget offers only month names. */
  function MonthNumbers(names: seq<string>): (r: seq<int>)
    requires forall i :: 0 <= i < |names| ==> MonthIndex(names[i]).Some?
    ensures |r| == |names|
    ensures forall i :: 0 <= i < |r| ==> MonthIndex(names[i]) == Some(r[i])
  {
    seq(|names|, i requires 0 <= i < |names| => MonthIndex(names[i]).value)
  }

  /** The month name each number stands for is the one chosen, and the numbers of two
      chosen names agree exactly when the names do. */
  lemma MonthNumbersFaithful(names: seq<string>, i: nat, j: nat)
    requires forall k :: 0 <= k < |names| ==> MonthIndex(names[k]).Some?
    requires i < |names| && j < |names|
    ensures MonthNumbers(names)[i] == MonthNumbers(names)[j] <==> names[i] == names[j]
  {
    var r := MonthNumbers(names);
    if names[i] == names[j] {
      assert r[i] == MonthIndex(names[i]).value;
    }
  }

  /** `if not selected_month_names: selected_month_names = [default_month_name]`. */
  function ChosenMonths(picked: seq<string>): (r: seq<string>)
    requires forall i :: 0 <= i < |picked| ==> MonthIndex(picked[i]).Some?
    ensures |r| >= 1 && forall i :: 0 <= i < |r| ==> MonthIndex(r[i]).Some?
    ensures |picked| > 0 ==> r == picked
    ensures |picked| == 0 ==> r == [DefaultMonth] && MonthNumbers(r) == [11]
  {
    NovemberIndex();
    if |picked| == 0 then [DefaultMonth] else picked
  }

  /** The sidebar's month, week and day choice as the page uses it: the chosen months
      and their numbers; with one month the chosen week and day stand, with several they
      are the "All" sentinels. */
  function Normalize(picked: seq<string>, week: string, day: string): (r: Period)
    requires forall i :: 0 <= i < |picked| ==> MonthIndex(picked[i]).Some?
    ensures r.monthNames == ChosenMonths(picked) && |r.months| == |r.monthNames|
    ensures forall i :: 0 <= i < |r.months| ==> MonthIndex(r.monthNames[i]) == Some(r.months[i])
    ensures |r.months| == 1 ==> r.week == week && r.day == day
    ensures |r.months| > 1 ==> r.week == AllWeeks && r.day == AllDays
  {
    var names := ChosenMonths(picked);
    var months := MonthNumbers(names);
    if |months| == 1 then Period(names, months, week, day)
    else Period(names, months, AllWeeks, AllDays)
  }

  /** Choosing two months resets the week and day to "All Weeks" and "All Days",
      whatever was chosen for a single month before. */
  lemma TwoMonthsReset(a: string, b: string, ma: int, mb: int, week: string, day: string)
    requires MonthIndex(a) == Some(ma) && MonthIndex(b) == Some(mb)
    ensures Normalize([a, b], week, day) == Period([a, b], [ma, mb], AllWeeks, AllDays)
  {
    var months := MonthNumbers([a, b]);
    assert months == [ma, mb];
  }

  /** November and December are months 11 and 12, and choosing both resets the week and day. */
  lemma NovemberDecemberResets(week: string, day: string)
    ensures MonthIndex("November").Some? && MonthIndex("December").Some?
    ensures Normalize(["November", "December"], week, day) == Period(["November", "December"], [11, 12], AllWeeks, AllDays)
  {
    NovemberIndex();
    DecemberIndex();
    TwoMonthsReset("November", "December", 11, 12, week, day);
  }
}
