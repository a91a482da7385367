/** Dates as text: `date.strftime('%Y-%m-%d')` (the RFC 3339 section 5.6
    `full-date` form), `datetime.strptime(s, '%Y-%m-%d')`, and the week labels
    `"Week N (YYYY-MM-DD to YYYY-MM-DD)"` with the split-based parser that
    reads their two dates back. */
module DateText {
  import opened Basics
  import opened PyStr
  import opened Calendar

  /** Two decimal digits, zero-padded. */
  function Pad2(n: int): (r: string)
    requires 0 <= n < 100
    ensures |r| == 2 && IsDigit(r[0]) && IsDigit(r[1])
    ensures DigitValue(r[0]) * 10 + DigitValue(r[1]) == n
  {
    [Digit(n / 10), Digit(n % 10)]
  }

  /** Four decimal digits, zero-padded. */
  function Pad4(n: int): (r: string)
    requires 0 <= n < 10000
    ensures |r| == 4 && forall k :: 0 <= k < 4 ==> IsDigit(r[k])
  {
    [Digit(n / 1000), Digit(n / 100 % 10), Digit(n / 10 % 10), Digit(n % 10)]
  }

  /** The four digits read back as the number. */
  lemma Pad4Value(n: int)
    requires 0 <= n < 10000
    ensures var r := Pad4(n); DigitValue(r[0]) * 1000 + DigitValue(r[1]) * 100 + DigitValue(r[2]) * 10 + DigitValue(r[3]) == n
  {
    var a, b, c, d := n / 1000, n / 100 % 10, n / 10 % 10, n % 10;
    assert n / 10 == (n / 100) * 10 + c;
    assert n / 100 == a * 10 + b;
    assert n == (n / 10) * 10 + d;
  }

  /** Four digits are reproduced by padding their value. */
  lemma Pad4OfDigits(s: string)
    requires |s| == 4 && forall k :: 0 <= k < 4 ==> IsDigit(s[k])
    ensures Pad4(DigitValue(s[0]) * 1000 + DigitValue(s[1]) * 100 + DigitValue(s[2]) * 10 + DigitValue(s[3])) == s
  {
    var a, b, c, d := DigitValue(s[0]), DigitValue(s[1]), DigitValue(s[2]), DigitValue(s[3]);
    var n := a * 1000 + b * 100 + c * 10 + d;
    assert n / 10 == a * 100 + b * 10 + c;
    assert n / 100 == a * 10 + b;
    assert n / 1000 == a;
    var r := Pad4(n);
    assert r[0] == s[0] && r[1] == s[1] && r[2] == s[2] && r[3] == s[3];
  }

  /** Two digits are reproduced by padding their value. */
  lemma Pad2OfDigits(s: string)
    requires |s| == 2 && IsDigit(s[0]) && IsDigit(s[1])
    ensures Pad2(DigitValue(s[0]) * 10 + DigitValue(s[1])) == s
  {
    var r := Pad2(DigitValue(s[0]) * 10 + DigitValue(s[1]));
    assert r[0] == s[0] && r[1] == s[1];
  }

  /** `d.strftime('%Y-%m-%d')`. */
  function Format(d: Date): (r: string)
    requires ValidDate(d)
    ensures |r| == 10 && r[4] == '-' && r[7] == '-'
    ensures forall k :: 0 <= k < 10 && k != 4 && k != 7 ==> IsDigit(r[k])
  {
    Pad4(d.year) + "-" + Pad2(d.month) + "-" + Pad2(d.day)
  }

  /** Formatted dates contain only digits and dashes. */
  lemma FormatChars(d: Date)
    requires ValidDate(d)
    ensures forall c :: c in Format(d) ==> IsDigit(c) || c == '-'
  {
    var r := Format(d);
    forall c | c in r ensures IsDigit(c) || c == '-' {
      var k :| 0 <= k < |r| && r[k] == c;
    }
  }

  /** The month field of `%m`: `1[0-2]`, `0[1-9]` or `[1-9]`, followed by the
      literal dash; yields the month and the text after the dash. */
  function ParseMonthField(s: string): (r: Option<(int, string)>)
    ensures r.Some? ==> 1 <= r.value.0 <= 12
  {
    if |s| >= 3 && s[0] == '1' && '0' <= s[1] <= '2' && s[2] == '-' then
      Some((10 + DigitValue(s[1]), s[3..]))
    else if |s| >= 3 && s[0] == '0' && '1' <= s[1] <= '9' && s[2] == '-' then
      Some((DigitValue(s[1]), s[3..]))
    else if |s| >= 2 && '1' <= s[0] <= '9' && s[1] == '-' then
      Some((DigitValue(s[0]), s[2..]))
    else None
  }

  /** The day field of `%d` as the whole remaining text: `3[01]`, `[12][0-9]`,
      `0[1-9]`, `[1-9]` or a space and `[1-9]`. Anything left over is
      "unconverted data", which `strptime` rejects. */
  function ParseDayField(s: string): (r: Option<int>)
    ensures r.Some? ==> 1 <= r.value <= 31
  {
    if |s| == 2 && s[0] == '3' && '0' <= s[1] <= '1' then Some(30 + DigitValue(s[1]))
    else if |s| == 2 && '1' <= s[0] <= '2' && IsDigit(s[1]) then Some(10 * DigitValue(s[0]) + DigitValue(s[1]))
    else if |s| == 2 && s[0] == '0' && '1' <= s[1] <= '9' then Some(DigitValue(s[1]))
    else if |s| == 1 && '1' <= s[0] <= '9' then Some(DigitValue(s[0]))
    else if |s| == 2 && s[0] == ' ' && '1' <= s[1] <= '9' then Some(DigitValue(s[1]))
    else None
  }

  /** `datetime.strptime(s, '%Y-%m-%d').date()` on ASCII digits, or None where it raises
      ValueError: four-digit year, dash, month field, dash, day field, and a day that
      exists. (`strptime` also takes other Unicode decimal digits; these are rejected.) */
  function ParseDate(s: string): (r: Option<Date>)
    ensures r.Some? ==> ValidDate(r.value)
  {
    if |s| < 5 || !(IsDigit(s[0]) && IsDigit(s[1]) && IsDigit(s[2]) && IsDigit(s[3])) || s[4] != '-' then None
    else
      var y := DigitValue(s[0]) * 1000 + DigitValue(s[1]) * 100 + DigitValue(s[2]) * 10 + DigitValue(s[3]);
      match ParseMonthField(s[5..])
      case None => None
      case Some((m, rest)) =>
        match ParseDayField(rest)
        case None => None
        case Some(d) =>
          if MinYear <= y && d <= DaysInMonth(y, m) then Some(Date(y, m, d)) else None
  }

  /** Parsing reads back exactly the date that was printed. */
  lemma ParseFormat(d: Date)
    requires ValidDate(d)
    ensures ParseDate(Format(d)) == Some(d)
  {
    var s := Format(d);
    Pad4Value(d.year);
    assert s[5..] == Pad2(d.month) + "-" + Pad2(d.day);
    assert s[5..][3..] == Pad2(d.day);
  }

  /** Printing a parsed date canonicalises it: the printed form parses to the same date. */
  lemma FormatParse(s: string)
    requires ParseDate(s).Some?
    ensures ParseDate(Format(ParseDate(s).value)) == ParseDate(s)
  {
    ParseFormat(ParseDate(s).value);
  }

  /** A text already in canonical form is reproduced by printing what it parses to. */
  lemma CanonicalRoundTrip(s: string)
    requires |s| == 10 && s[4] == '-' && s[7] == '-'
    requires forall k :: 0 <= k < 10 && k != 4 && k != 7 ==> IsDigit(s[k])
    requires ParseDate(s).Some?
    ensures Format(ParseDate(s).value) == s
  {
    var d := ParseDate(s).value;
    CanonicalFields(s);
    Pad4OfDigits(s[..4]);
    Pad2OfDigits(s[5..7]);
    Pad2OfDigits(s[8..]);
    assert s == s[..4] + "-" + s[5..7] + "-" + s[8..];
  }

  /** The fields a canonical text parses to are the values of its digit groups. */
  lemma CanonicalFields(s: string)
    requires |s| == 10 && s[4] == '-' && s[7] == '-'
    requires forall k :: 0 <= k < 10 && k != 4 && k != 7 ==> IsDigit(s[k])
    requires ParseDate(s).Some?
    ensures ParseDate(s).value.year == DigitValue(s[0]) * 1000 + DigitValue(s[1]) * 100 + DigitValue(s[2]) * 10 + DigitValue(s[3])
    ensures ParseDate(s).value.month == DigitValue(s[5]) * 10 + DigitValue(s[6])
    ensures ParseDate(s).value.day == DigitValue(s[8]) * 10 + DigitValue(s[9])
  {
    var r := s[5..];
    assert r[2] == '-' && r[3..] == s[8..];
  }

  /** The label printed at Dialers.py lines 281 and 286. */
  function WeekLabel(n: nat, start: Date, end: Date): string
    requires ValidDate(start) && ValidDate(end)
  {
    "Week " + NatToString(n) + " (" + Format(start) + " to " + Format(end) + ")"
  }

  /** `week_str.split('(')[1].split(' to ')[0]` and `week_str.split(' to ')[1].replace(')', '')`,
      each parsed as a date; None where an index is out of range or a parse fails. */
  function ParseWeekLabel(s: string): Option<(Date, Date)>
  {
    var byParen := Split(s, "(");
    var byTo := Split(s, " to ");
    if |byParen| < 2 || |byTo| < 2 then None
    else
      var startText := Split(byParen[1], " to ")[0];
      var endText := RemoveChar(byTo[1], ')');
      match (ParseDate(startText), ParseDate(endText))
      case (Some(a), Some(b)) => Some((a, b))
      case _ => None
  }

  /** A separator whose first character is not in `s` is not found. */
  lemma FindAbsent(s: string, sub: string)
    requires |sub| > 0 && sub[0] !in s
    ensures Find(s, sub) == None
  {
    forall j ensures !Occurs(s, sub, j) {
      if 0 <= j && j + |sub| <= |s| {
        assert s[j] in s;
        assert s[j..j + |sub|][0] == s[j];
      }
    }
  }

  /** A separator is found first right after a prefix that cannot start it. */
  lemma FindAfter(pre: string, sub: string, post: string)
    requires |sub| > 0
    requires sub[0] !in pre || (|sub| >= 2 && sub[1] !in pre && sub[1] != sub[0])
    ensures Find(pre + sub + post, sub) == Some(|pre|)
  {
    var s := pre + sub + post;
    assert s[|pre|..|pre| + |sub|] == sub;
    forall j | 0 <= j < |pre| ensures !Occurs(s, sub, j) {
      assert pre[j] in pre && s[j] == pre[j];
      if j + |sub| <= |s| {
        var w := s[j..j + |sub|];
        assert w[0] == s[j];
        if sub[0] in pre {
          assert w[1] == s[j + 1];
          if j + 1 < |pre| {
            assert s[j + 1] == pre[j + 1] && pre[j + 1] in pre;
          } else {
            assert s[j + 1] == sub[0];
          }
        }
      }
    }
    FindAt(s, sub, |pre|);
  }

  /** Splitting at a first occurrence peels off the prefix. */
  lemma SplitAfter(pre: string, sep: string, post: string)
    requires |sep| > 0
    requires Find(pre + sep + post, sep) == Some(|pre|)
    ensures Split(pre + sep + post, sep) == [pre] + Split(post, sep)
  {
    var s := pre + sep + post;
    assert s[..|pre|] == pre && s[|pre| + |sep|..] == post;
  }

  /** Splitting text without the separator gives the text itself. */
  lemma SplitAbsent(s: string, sep: string)
    requires |sep| > 0 && sep[0] !in s
    ensures Split(s, sep) == [s]
  {
    FindAbsent(s, sep);
  }

  /** The number in a label is made of digits only. */
  lemma NumberChars(n: nat)
    ensures forall c :: c in NatToString(n) ==> IsDigit(c)
  {
    var num := NatToString(n);
    forall c | c in num ensures IsDigit(c) {
      var k :| 0 <= k < |num| && num[k] == c;
    }
  }

  /** The label up to its opening parenthesis, and what follows it. */
  function LabelHead(n: nat): string
  {
    "Week " + NatToString(n) + " "
  }

  lemma LabelHeadChars(n: nat)
    ensures '(' !in LabelHead(n) && 't' !in LabelHead(n)
  {
    NumberChars(n);
    assert LabelHead(n) == "Week " + NatToString(n) + " ";
  }

  /** `split('(')[1].split(' to ')[0]` of a label is its printed start date. */
  lemma LabelStartText(n: nat, a: Date, b: Date)
    requires ValidDate(a) && ValidDate(b)
    ensures |Split(WeekLabel(n, a, b), "(")| >= 2
    ensures Split(Split(WeekLabel(n, a, b), "(")[1], " to ")[0] == Format(a)
  {
    var fa, fb := Format(a), Format(b);
    FormatChars(a);
    FormatChars(b);
    LabelHeadChars(n);
    var head := LabelHead(n);
    var tail := fa + " to " + fb + ")";
    assert WeekLabel(n, a, b) == head + "(" + tail;
    FindAfter(head, "(", tail);
    SplitAfter(head, "(", tail);
    assert '(' !in tail;
    SplitAbsent(tail, "(");
    assert tail == fa + " to " + (fb + ")");
    FindAfter(fa, " to ", fb + ")");
    SplitAfter(fa, " to ", fb + ")");
  }

  /** `split(' to ')[1].replace(')', '')` of a label is its printed end date. */
  lemma LabelEndText(n: nat, a: Date, b: Date)
    requires ValidDate(a) && ValidDate(b)
    ensures |Split(WeekLabel(n, a, b), " to ")| >= 2
    ensures RemoveChar(Split(WeekLabel(n, a, b), " to ")[1], ')') == Format(b)
  {
    var fa, fb := Format(a), Format(b);
    FormatChars(a);
    FormatChars(b);
    LabelHeadChars(n);
    var pre := LabelHead(n) + "(" + fa;
    assert WeekLabel(n, a, b) == pre + " to " + (fb + ")");
    assert 't' !in pre;
    FindAfter(pre, " to ", fb + ")");
    SplitAfter(pre, " to ", fb + ")");
    assert ' ' !in fb + ")";
    SplitAbsent(fb + ")", " to ");
    RemoveLastChar(fb, ')');
  }

  /** The two dates of a printed label are read back exactly (Dialers.py lines 281/286 against 303-306). */
  lemma ParseWeekLabelRoundTrip(n: nat, a: Date, b: Date)
    requires ValidDate(a) && ValidDate(b)
    ensures ParseWeekLabel(WeekLabel(n, a, b)) == Some((a, b))
  {
    LabelStartText(n, a, b);
    LabelEndText(n, a, b);
    ParseFormat(a);
    ParseFormat(b);
  }
}
