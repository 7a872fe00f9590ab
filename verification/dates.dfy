/** Calendar dates as the application stores them: zero-padded
    `YYYY-MM-DD` strings. `Parse` is the parsed view that the screens obtain
    through `new Date(s)` (0-based `getMonth()`, `getFullYear()`), `SplitYearMonth`
    is the `split('-')` + `parseInt` view of the dashboard (1-based month),
    and the central fact is that comparing two such strings as strings
    compares them as dates, which the date-range filter relies on. */
module Dates {
  import opened Wrappers
  import opened Numbers
  import StringOrder
  import Text

  /** A calendar date; `month` is 1-based, as written in the string. */
  datatype Date = Date(year: int, month: int, day: int)

  /** The fields a stored date can hold: a four-digit year, month 1-12,
      day 1-31. */
  predicate Valid(d: Date)
  {
    0 <= d.year < 10000 && 1 <= d.month <= 12 && 1 <= d.day <= 31
  }

  /** Chronological order: year first, then month, then day. */
  predicate Earlier(a: Date, b: Date)
  {
    a.year < b.year
    || (a.year == b.year && a.month < b.month)
    || (a.year == b.year && a.month == b.month && a.day < b.day)
  }

  /** The text shape `^\d{4}-\d{2}-\d{2}$`. */
  predicate IsIsoShape(s: string)
  {
    |s| == 10 && AllDigits(s[..4]) && s[4] == '-' && AllDigits(s[5..7])
    && s[7] == '-' && AllDigits(s[8..])
  }

  /** The three numerals of an ISO-shaped string, read as written. */
  function Fields(s: string): Date
    requires IsIsoShape(s)
  {
    Date(DigitsValue(s[..4]), DigitsValue(s[5..7]), DigitsValue(s[8..]))
  }

  /** `new Date(s)` for a stored date: the calendar fields when `s` is an
      ISO date with plausible month and day, `None` (an Invalid Date, whose
      `getMonth()` and `getFullYear()` are NaN) otherwise. */
  function Parse(s: string): (r: Option<Date>)
    ensures r.Some? ==> Valid(r.value)
  {
    if IsIsoShape(s) && Valid(Fields(s)) then
      DigitsBound(s[..4]);
      Some(Fields(s))
    else None
  }

  /** `getFullYear()`, `None` standing for NaN. */
  function FullYear(s: string): (r: Option<int>)
    ensures r.Some? <==> Parse(s).Some?
    ensures r.Some? ==> r.value == Parse(s).value.year
  {
    match Parse(s)
    case Some(d) => Some(d.year)
    case None => None
  }

  /** `getMonth()`: the 0-based month, `None` standing for NaN. */
  function Month0(s: string): (r: Option<int>)
    ensures r.Some? <==> Parse(s).Some?
    ensures r.Some? ==> 0 <= r.value < 12 && r.value + 1 == Parse(s).value.month
  {
    match Parse(s)
    case Some(d) => Some(d.month - 1)
    case None => None
  }

  /** The dashboard's reading `parseInt(s.split('-')[0])`,
      `parseInt(s.split('-')[1])`: year and 1-based month. */
  function SplitYearMonth(s: string): (Option<int>, Option<int>)
  {
    var year := ParseInt(Text.Before(s, '-'));
    var month := match Text.SecondField(s, '-')
      case None => None
      case Some(f) => ParseInt(f);
    (year, month)
  }

  // ---- rendering, the inverse of parsing

  /** The stored form of a date. */
  function Format(d: Date): (s: string)
    requires Valid(d)
    ensures IsIsoShape(s)
  {
    var s := Digits(d.year, 4) + "-" + Digits(d.month, 2) + "-" + Digits(d.day, 2);
    assert s[..4] == Digits(d.year, 4) && s[5..7] == Digits(d.month, 2) && s[8..] == Digits(d.day, 2);
    s
  }

  /** Parsing the stored form of a valid date gives the date back. */
  lemma ParseFormat(d: Date)
    requires Valid(d)
    ensures Parse(Format(d)) == Some(d)
  {
    var s := Format(d);
    assert s[..4] == Digits(d.year, 4) && s[5..7] == Digits(d.month, 2) && s[8..] == Digits(d.day, 2);
    ValueOfDigits(d.year, 4);
    ValueOfDigits(d.month, 2);
    ValueOfDigits(d.day, 2);
  }

  /** A string that parses is the stored form of what it parses to. */
  lemma FormatParse(s: string)
    requires Parse(s).Some?
    ensures Format(Parse(s).value) == s
  {
    DigitsOfValue(s[..4]);
    DigitsOfValue(s[5..7]);
    DigitsOfValue(s[8..]);
    assert s == s[..4] + "-" + s[5..7] + "-" + s[8..];
  }

  // ---- string order is date order

  /** The string `a + [c] + u` against `b + [c] + v`, for heads of equal
      length sharing the separator `c`. */
  lemma FieldThenRest(x: string, y: string, c: char, u: string, v: string)
    requires |x| == |y|
    ensures StringOrder.Lt(x + [c] + u, y + [c] + v)
        <==> StringOrder.Lt(x, y) || (x == y && StringOrder.Lt(u, v))
  {
    assert x + [c] + u == x + ([c] + u) && y + [c] + v == y + ([c] + v);
    StringOrder.LtConcat(x, [c] + u, y, [c] + v);
    assert ([c] + u)[1..] == u && ([c] + v)[1..] == v;
  }

  /** For two ISO-shaped strings, `a < b` as strings exactly when `a`'s
      fields come before `b`'s in calendar order. */
  lemma StringOrderIsChronological(a: string, b: string)
    requires IsIsoShape(a) && IsIsoShape(b)
    ensures StringOrder.Lt(a, b) <==> Earlier(Fields(a), Fields(b))
    ensures a == b <==> Fields(a) == Fields(b)
  {
    assert a == a[..4] + ['-'] + (a[5..7] + ['-'] + a[8..]);
    assert b == b[..4] + ['-'] + (b[5..7] + ['-'] + b[8..]);
    FieldThenRest(a[..4], b[..4], '-', a[5..7] + ['-'] + a[8..], b[5..7] + ['-'] + b[8..]);
    FieldThenRest(a[5..7], b[5..7], '-', a[8..], b[8..]);
    DigitsOrder(a[..4], b[..4]);
    DigitsOrder(a[5..7], b[5..7]);
    DigitsOrder(a[8..], b[8..]);
  }

  /** The inclusive bound checks `d >= from` and `d <= to` of the date-range
      filter agree with calendar order. */
  lemma BoundIsChronological(bound: string, d: string)
    requires IsIsoShape(bound) && IsIsoShape(d)
    ensures StringOrder.Le(bound, d) <==> Fields(bound) == Fields(d) || Earlier(Fields(bound), Fields(d))
  {
    StringOrderIsChronological(bound, d);
  }

  /** The field before the first `c` when that `c` sits at position `k`. */
  lemma {:induction false} BeforeAt(s: string, c: char, k: nat)
    requires k < |s| && s[k] == c && c !in s[..k]
    ensures Text.Before(s, c) == s[..k]
    decreases k
  {
    if k > 0 {
      assert s[0] in s[..k];
      assert s[1..][..k - 1] == s[..k][1..];
      BeforeAt(s[1..], c, k - 1);
      assert s[..k] == [s[0]] + s[1..][..k - 1];
    }
  }

  lemma FirstFieldOfIso(s: string)
    requires IsIsoShape(s)
    ensures Text.Before(s, '-') == s[..4]
  {
    assert forall i :: 0 <= i < 4 ==> IsDigit(s[..4][i]);
    BeforeAt(s, '-', 4);
  }

  lemma SplitYearOfIso(s: string)
    requires IsIsoShape(s)
    ensures SplitYearMonth(s).0 == Some(Fields(s).year)
  {
    FirstFieldOfIso(s);
    ParseIntDigits(s[..4]);
  }

  lemma SecondFieldOfIso(s: string)
    requires IsIsoShape(s)
    ensures Text.SecondField(s, '-') == Some(s[5..7])
  {
    FirstFieldOfIso(s);
    var rest := Text.After(s, '-').value;
    assert s == s[..4] + ['-'] + rest;
    assert rest == s[5..];
    assert forall i :: 0 <= i < 2 ==> IsDigit(s[5..7][i]);
    assert rest[..2] == s[5..7];
    BeforeAt(rest, '-', 2);
  }

  lemma SplitMonthOfIso(s: string)
    requires IsIsoShape(s)
    ensures SplitYearMonth(s).1 == Some(Fields(s).month)
  {
    SecondFieldOfIso(s);
    ParseIntDigits(s[5..7]);
  }

  /** On an ISO date the dashboard's split-and-parse reading gives the
      written year and the 1-based month, one more than `getMonth()`. */
  lemma SplitYearMonthOfIso(s: string)
    requires IsIsoShape(s)
    ensures SplitYearMonth(s) == (Some(Fields(s).year), Some(Fields(s).month))
    ensures Month0(s).Some? ==> SplitYearMonth(s).1 == Some(Month0(s).value + 1)
  {
    SplitYearOfIso(s);
    SplitMonthOfIso(s);
  }

  /** For a string that parses, the split-and-parse reading is the
      `getFullYear()` year and one more than the `getMonth()` month. */
  lemma SplitYearMonthOfParsed(s: string)
    requires Parse(s).Some?
    ensures FullYear(s).Some? && Month0(s).Some?
    ensures SplitYearMonth(s) == (FullYear(s), Some(Month0(s).value + 1))
  {
    var d := Parse(s).value;
    assert IsIsoShape(s) && d == Fields(s);
    assert FullYear(s) == Some(d.year);
    assert Month0(s) == Some(d.month - 1);
    assert SplitYearMonth(s).0 == Some(d.year) by {
      SplitYearOfIso(s);
    }
    assert SplitYearMonth(s).1 == Some(d.month) by {
      SplitMonthOfIso(s);
    }
  }
}
