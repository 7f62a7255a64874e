/**
 * Calendar dates of ledger entries and the `YYYY-MM` month keys the page
 * groups them by (static/chart.js, `loadChartData` and `loadBalanceTable`),
 * with `monthLabel`, which turns a month key into an axis label.
 */
module Dates {
  import opened Wrappers
  import opened Text

  datatype CalendarDate = CalendarDate(year: int, month: int, day: int)

  /** A date as `new Date(text)` yields it for a stored `YYYY-MM-DD` value. */
  type Date = d: CalendarDate | 1 <= d.month <= 12 && 1 <= d.day <= 31 witness CalendarDate(1970, 1, 1)

  /** `a` is an earlier day than `b`. */
  predicate Before(a: Date, b: Date) {
    a.year < b.year || (a.year == b.year && (a.month < b.month || (a.month == b.month && a.day < b.day)))
  }

  /** A number standing for the time value of `new Date(d)`: only its order matters. */
  function Timestamp(d: Date): int {
    d.year * 372 + (d.month - 1) * 31 + (d.day - 1)
  }

  /** Comparing timestamps is comparing dates. */
  lemma TimestampChronological(a: Date, b: Date)
    ensures Timestamp(a) < Timestamp(b) <==> Before(a, b)
    ensures Timestamp(a) == Timestamp(b) <==> a == b
  {
    var dy := a.year - b.year;
    var rest := (a.month - b.month) * 31 + (a.day - b.day);
    assert Timestamp(a) - Timestamp(b) == dy * 372 + rest;
    assert -372 < rest < 372;
    if dy > 0 {
      assert dy * 372 >= 372;
    } else if dy < 0 {
      assert dy * 372 <= -372;
    }
  }

  /** `String(year)`: a minus sign for negative years, no zero padding. */
  function YearText(y: int): string {
    if y < 0 then "-" + Decimal(-y) else Decimal(y)
  }

  /** `String(m).padStart(2, "0")`. */
  function TwoDigits(m: nat): string {
    PadStart(Decimal(m), 2, '0')
  }

  lemma TwoDigitsOfMonth(m: int)
    requires 1 <= m <= 12
    ensures TwoDigits(m) == [Digit(m / 10), Digit(m % 10)]
  {
    if m >= 10 {
      assert Decimal(m) == Decimal(m / 10) + [Digit(m % 10)];
      assert Decimal(m / 10) == [Digit(m / 10)];
    }
  }

  /**
   * The month key of a date (static/chart.js:194, 266): the year, a dash and
   * the two-digit month, written out in one pass (see MonthKeyText).
   */
  function MonthKey(d: Date): (k: string)
  {
    var tail := ['-', Digit(d.month / 10), Digit(d.month % 10)];
    if d.year < 0 then ['-'] + DecimalThen(-d.year, tail) else DecimalThen(d.year, tail)
  }

  /** The key is `getFullYear() + "-" + String(getMonth() + 1).padStart(2, "0")`. */
  lemma MonthKeyText(d: Date)
    ensures MonthKey(d) == YearText(d.year) + "-" + TwoDigits(d.month)
  {
    var tail := ['-', Digit(d.month / 10), Digit(d.month % 10)];
    TwoDigitsOfMonth(d.month);
    assert tail == "-" + TwoDigits(d.month);
    if d.year < 0 {
      DecimalThenAppends(-d.year, tail);
    } else {
      DecimalThenAppends(d.year, tail);
    }
  }

  /** `a` falls in an earlier month than `b`. */
  predicate EarlierMonth(a: Date, b: Date) {
    a.year < b.year || (a.year == b.year && a.month < b.month)
  }

  lemma YearTextInjective(y1: int, y2: int)
    requires |YearText(y1)| == |YearText(y2)|
    ensures YearText(y1) == YearText(y2) <==> y1 == y2
  {
    if y1 < 0 && y2 < 0 {
      assert YearText(y1)[1..] == Decimal(-y1) && YearText(y2)[1..] == Decimal(-y2);
      DecimalOrder(-y1, -y2);
    } else if y1 >= 0 && y2 >= 0 {
      DecimalOrder(y1, y2);
    } else if y1 < 0 {
      DecimalDigits(y2);
      assert YearText(y1)[0] == '-' && IsDigit(YearText(y2)[0]);
    } else {
      DecimalDigits(y1);
      assert YearText(y2)[0] == '-' && IsDigit(YearText(y1)[0]);
    }
  }

  /** Two dates share a month key exactly when they fall in the same month of the same year. */
  lemma MonthKeySameMonth(a: Date, b: Date)
    ensures MonthKey(a) == MonthKey(b) <==> a.year == b.year && a.month == b.month
  {
    MonthKeyText(a);
    MonthKeyText(b);
    TwoDigitsOfMonth(a.month);
    TwoDigitsOfMonth(b.month);
    var ka, kb := MonthKey(a), MonthKey(b);
    if ka == kb {
      var n := |YearText(a.year)|;
      assert ka[..n] == YearText(a.year) && kb[..n] == YearText(b.year);
      YearTextInjective(a.year, b.year);
      assert ka[n + 1..] == TwoDigits(a.month) && kb[n + 1..] == TwoDigits(b.month);
      assert a.month == 10 * (a.month / 10) + a.month % 10;
    }
  }

  lemma DigitOrder(x: int, y: int)
    requires 0 <= x < 10 && 0 <= y < 10
    ensures Digit(x) < Digit(y) <==> x < y
    ensures Digit(x) == Digit(y) <==> x == y
  {
  }

  /** Two-digit months compare as strings the way the months compare. */
  lemma TwoDigitsOrder(m1: int, m2: int)
    requires 1 <= m1 <= 12 && 1 <= m2 <= 12
    ensures StrLess(TwoDigits(m1), TwoDigits(m2)) <==> m1 < m2
  {
    var t1, t2 := TwoDigits(m1), TwoDigits(m2);
    TwoDigitsOfMonth(m1);
    TwoDigitsOfMonth(m2);
    assert t1 == [t1[0]] + [t1[1]] && t2 == [t2[0]] + [t2[1]];
    StrLessConcat([t1[0]], [t1[1]], [t2[0]], [t2[1]]);
    DigitOrder(m1 / 10, m2 / 10);
    DigitOrder(m1 % 10, m2 % 10);
  }

  /**
   * For four-digit years, sorting month keys as strings (the default
   * comparison of `Array.prototype.sort`) sorts them chronologically.
   */
  lemma MonthKeyChronological(a: Date, b: Date)
    requires 1000 <= a.year <= 9999 && 1000 <= b.year <= 9999
    ensures StrLess(MonthKey(a), MonthKey(b)) <==> EarlierMonth(a, b)
  {
    MonthKeyText(a);
    MonthKeyText(b);
    DecimalFourDigits(a.year);
    DecimalFourDigits(b.year);
    DecimalOrder(a.year, b.year);
    var ya, yb := YearText(a.year), YearText(b.year);
    var ma, mb := TwoDigits(a.month), TwoDigits(b.month);
    assert MonthKey(a) == ya + ("-" + ma) && MonthKey(b) == yb + ("-" + mb);
    StrLessConcat(ya, "-" + ma, yb, "-" + mb);
    StrLessConcat("-", ma, "-", mb);
    StrLessIrreflexive("-");
    TwoDigitsOrder(a.month, b.month);
  }

  /** Month names of the French locale (static/chart.js:96). */
  const MonthNames: seq<string> :=
    ["Jan", "Fév", "Mar", "Avr", "Mai", "Juin", "Juil", "Août", "Sept", "Oct", "Nov", "Déc"]

  /** `monthNames[n - 1]` inside a template string: out of range it reads `undefined`. */
  function MonthName(n: Option<int>): string {
    if n.Some? && 1 <= n.value <= 12 then MonthNames[n.value - 1] else "undefined"
  }

  /**
   * `monthLabel(monthKey)` (static/chart.js:94-98): the key is split on
   * `-`; the second piece is read with `parseInt` and names the month, the
   * first piece is the year.
   */
  function MonthLabel(monthKey: string): string {
    var parts := Split(monthKey, '-');
    var month := if |parts| > 1 then ParseInt(parts[1]) else None;
    MonthName(month) + " " + parts[0]
  }

  /** Reading a two-digit text with `parseInt`. */
  lemma ParseDigitPair(t: string, x: int, y: int)
    requires 0 <= x < 10 && 0 <= y < 10
    requires t == [Digit(x), Digit(y)]
    ensures ParseInt(t) == Some(10 * x + y)
  {
    assert !IsSpace(t[0]);
    assert TrimStart(t) == t;
    assert t[1..] == [Digit(y)];
    assert LeadingDigits([Digit(y)]) == [Digit(y)];
    assert LeadingDigits(t) == [t[0]] + LeadingDigits(t[1..]);
    assert t[..1] == [Digit(x)];
    assert DigitsValue([Digit(x)]) == x;
    assert DigitsValue(t) == DigitsValue(t[..1]) * 10 + DigitValue(t[1]);
  }

  /** The month piece of a key reads back as the month. */
  lemma ParseTwoDigits(m: int)
    requires 1 <= m <= 12
    ensures ParseInt(TwoDigits(m)) == Some(m)
  {
    var x, y := m / 10, m % 10;
    assert m == 10 * x + y;
    TwoDigitsOfMonth(m);
    ParseDigitPair(TwoDigits(m), x, y);
  }

  lemma DigitsHaveNoDash(s: string)
    requires forall i :: 0 <= i < |s| ==> IsDigit(s[i])
    ensures '-' !in s
  {
  }

  /** A key of a year from 0 on splits into the year text and the month text. */
  lemma SplitMonthKey(d: Date)
    requires d.year >= 0
    ensures Split(MonthKey(d), '-') == [Decimal(d.year), TwoDigits(d.month)]
  {
    var y, m := Decimal(d.year), TwoDigits(d.month);
    MonthKeyText(d);
    DecimalDigits(d.year);
    DigitsHaveNoDash(y);
    TwoDigitsOfMonth(d.month);
    DigitsHaveNoDash(m);
    SplitPair(y, '-', m);
    assert MonthKey(d) == y + ['-'] + m;
  }

  /**
   * The label of a date's month key is the French month name and the year,
   * as in "2024-05" giving "Mai 2024", for every year from 0 on.
   */
  lemma MonthLabelOfKey(d: Date)
    requires d.year >= 0
    ensures MonthLabel(MonthKey(d)) == MonthNames[d.month - 1] + " " + Decimal(d.year)
  {
    SplitMonthKey(d);
    ParseTwoDigits(d.month);
  }
}
