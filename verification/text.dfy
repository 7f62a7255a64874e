/**
 * The string operations of the JavaScript runtime that the ledger page relies
 * on, over `string` = `seq<char>` (one `char` per UTF-16 code unit of the
 * basic multilingual plane): `<` on strings, `String(n)` for integers,
 * `padStart`, `split` on one character, `parseInt` with no radix, the
 * `\s` character class, `replace(/\s+/g, ...)` and `toLowerCase`.
 */
module Text {
  import opened Wrappers

  // ---------------------------------------------------------------------
  // Comparison of strings: `a < b` compares UTF-16 code units left to right.
  // ---------------------------------------------------------------------

  /** `a < b` on JavaScript strings: first differing unit decides, a proper prefix is smaller. */
  predicate StrLess(a: string, b: string) {
    if |a| == 0 then |b| > 0
    else if |b| == 0 then false
    else if a[0] != b[0] then a[0] < b[0]
    else StrLess(a[1..], b[1..])
  }

  lemma {:induction false} StrLessIrreflexive(a: string)
    ensures !StrLess(a, a)
  {
    if |a| > 0 {
      StrLessIrreflexive(a[1..]);
    }
  }

  lemma {:induction false} StrLessTransitive(a: string, b: string, c: string)
    requires StrLess(a, b) && StrLess(b, c)
    ensures StrLess(a, c)
  {
    if |a| > 0 && a[0] == b[0] && b[0] == c[0] {
      StrLessTransitive(a[1..], b[1..], c[1..]);
    }
  }

  /** Two different strings are always ordered one way or the other. */
  lemma {:induction false} StrLessTotal(a: string, b: string)
    requires a != b
    ensures StrLess(a, b) || StrLess(b, a)
  {
    if |a| > 0 && |b| > 0 && a[0] == b[0] {
      assert a == [a[0]] + a[1..] && b == [b[0]] + b[1..];
      StrLessTotal(a[1..], b[1..]);
    }
  }

  /** Comparing two strings that start with parts of the same length. */
  lemma {:induction false} StrLessConcat(a: string, c: string, b: string, d: string)
    requires |a| == |b|
    ensures StrLess(a + c, b + d) <==> StrLess(a, b) || (a == b && StrLess(c, d))
  {
    if |a| > 0 {
      assert (a + c)[1..] == a[1..] + c && (b + d)[1..] == b[1..] + d;
      StrLessConcat(a[1..], c, b[1..], d);
      if a[0] == b[0] {
        assert a == [a[0]] + a[1..] && b == [b[0]] + b[1..];
      }
    } else {
      assert a + c == c && b + d == d;
    }
  }

  // ---------------------------------------------------------------------
  // Decimal digits: `String(n)` and `padStart`.
  // ---------------------------------------------------------------------

  predicate IsDigit(c: char) {
    '0' <= c <= '9'
  }

  function Digit(d: int): (c: char)
    requires 0 <= d < 10
    ensures IsDigit(c)
  {
    (48 + d) as char
  }

  function DigitValue(c: char): (d: nat)
    requires IsDigit(c)
    ensures d < 10 && Digit(d) == c
  {
    c as int - 48
  }

  /** `String(n)` for a non-negative integer: its decimal digits, no leading zero. */
  function Decimal(n: nat): (s: string)
    ensures |s| > 0
    decreases n
  {
    if n < 10 then [Digit(n)] else Decimal(n / 10) + [Digit(n % 10)]
  }

  /** The decimal digits of `n` written in front of `tail`, most significant first. */
  function DecimalThen(n: nat, tail: string): (s: string)
    decreases n
  {
    if n < 10 then [Digit(n)] + tail else DecimalThen(n / 10, [Digit(n % 10)] + tail)
  }

  lemma {:induction false} DecimalThenAppends(n: nat, tail: string)
    ensures DecimalThen(n, tail) == Decimal(n) + tail
    decreases n
  {
    if n >= 10 {
      DecimalThenAppends(n / 10, [Digit(n % 10)] + tail);
      assert Decimal(n) + tail == Decimal(n / 10) + ([Digit(n % 10)] + tail);
    }
  }

  /** The decimal text is made of digits only. */
  lemma {:induction false} DecimalDigits(n: nat)
    ensures forall i :: 0 <= i < |Decimal(n)| ==> IsDigit(Decimal(n)[i])
  {
    if n >= 10 {
      DecimalDigits(n / 10);
    }
  }

  /** Decimal texts of equal length compare as strings the way the numbers compare. */
  lemma {:induction false} DecimalOrder(n: nat, m: nat)
    requires |Decimal(n)| == |Decimal(m)|
    ensures StrLess(Decimal(n), Decimal(m)) <==> n < m
    ensures Decimal(n) == Decimal(m) <==> n == m
    decreases n
  {
    if n < 10 || m < 10 {
    } else {
      DecimalOrder(n / 10, m / 10);
      StrLessConcat(Decimal(n / 10), [Digit(n % 10)], Decimal(m / 10), [Digit(m % 10)]);
      if Decimal(n) == Decimal(m) {
        assert Decimal(n)[..|Decimal(n)| - 1] == Decimal(n / 10);
        assert Decimal(m)[..|Decimal(m)| - 1] == Decimal(m / 10);
        assert Decimal(n)[|Decimal(n)| - 1] == Digit(n % 10);
        assert Decimal(m)[|Decimal(m)| - 1] == Digit(m % 10);
      }
    }
  }

  /** Four-digit numbers have four-character decimal texts. */
  lemma DecimalFourDigits(n: nat)
    requires 1000 <= n <= 9999
    ensures |Decimal(n)| == 4
  {
    assert |Decimal(n / 1000)| == 1;
    assert |Decimal(n / 100)| == 2;
    assert |Decimal(n / 10)| == 3;
  }

  /** `s.padStart(n, c)`: `s` behind enough copies of `c` to reach length `n`. */
  function PadStart(s: string, n: nat, c: char): (r: string)
    ensures |r| == if |s| >= n then |s| else n
  {
    if |s| >= n then s else seq(n - |s|, _ => c) + s
  }

  // ---------------------------------------------------------------------
  // `split` on one separator character.
  // ---------------------------------------------------------------------

  /** `s.split(sep)`: the pieces between occurrences of `sep`; never empty. */
  function Split(s: string, sep: char): (parts: seq<string>)
    ensures |parts| > 0
  {
    if |s| == 0 then [""]
    else if s[0] == sep then [""] + Split(s[1..], sep)
    else
      var rest := Split(s[1..], sep);
      [[s[0]] + rest[0]] + rest[1..]
  }

  /** A string without the separator is a single piece. */
  lemma {:induction false} SplitWithout(s: string, sep: char)
    requires sep !in s
    ensures Split(s, sep) == [s]
  {
    if |s| > 0 {
      SplitWithout(s[1..], sep);
      assert s == [s[0]] + s[1..];
    }
  }

  /** The first piece ends at the first separator. */
  lemma {:induction false} SplitAt(a: string, sep: char, b: string)
    requires sep !in a
    ensures Split(a + [sep] + b, sep) == [a] + Split(b, sep)
  {
    if |a| == 0 {
      assert a + [sep] + b == [sep] + b;
      assert ([sep] + b)[1..] == b;
    } else {
      assert (a + [sep] + b)[1..] == a[1..] + [sep] + b;
      SplitAt(a[1..], sep, b);
      assert a == [a[0]] + a[1..];
    }
  }

  /** Splitting two separator-free pieces joined by the separator gives them back. */
  lemma SplitPair(a: string, sep: char, b: string)
    requires sep !in a && sep !in b
    ensures Split(a + [sep] + b, sep) == [a, b]
  {
    SplitAt(a, sep, b);
    SplitWithout(b, sep);
  }

  // ---------------------------------------------------------------------
  // Whitespace, `replace(/\s+/g, "-")`, `toLowerCase()` and `parseInt`.
  // ---------------------------------------------------------------------

  /** The characters of `\s`: ECMAScript WhiteSpace and LineTerminator. */
  predicate IsSpace(c: char) {
    c == '\t' || c == '\n' || c == '\U{000B}' || c == '\U{000C}' || c == '\r' || c == ' '
    || c == '\U{00A0}' || c == '\U{1680}' || ('\U{2000}' <= c <= '\U{200A}')
    || c == '\U{2028}' || c == '\U{2029}' || c == '\U{202F}' || c == '\U{205F}'
    || c == '\U{3000}' || c == '\U{FEFF}'
  }

  /** `s` without its leading whitespace. */
  function TrimStart(s: string): (r: string)
    ensures |r| <= |s|
    ensures |r| == 0 || !IsSpace(r[0])
  {
    if |s| > 0 && IsSpace(s[0]) then TrimStart(s[1..]) else s
  }

  /** `s.replace(/\s+/g, dash)`: every maximal run of whitespace becomes one `dash`. */
  function ReplaceSpaceRuns(s: string, dash: char): (r: string)
    decreases |s|
  {
    if |s| == 0 then ""
    else if IsSpace(s[0]) then [dash] + ReplaceSpaceRuns(TrimStart(s), dash)
    else [s[0]] + ReplaceSpaceRuns(s[1..], dash)
  }

  /** After the replacement no whitespace is left, provided the dash is not whitespace. */
  lemma {:induction false} ReplaceSpaceRunsNoSpace(s: string, dash: char)
    requires !IsSpace(dash)
    ensures forall i :: 0 <= i < |ReplaceSpaceRuns(s, dash)| ==> !IsSpace(ReplaceSpaceRuns(s, dash)[i])
    decreases |s|
  {
    if |s| > 0 {
      if IsSpace(s[0]) {
        ReplaceSpaceRunsNoSpace(TrimStart(s), dash);
      } else {
        ReplaceSpaceRunsNoSpace(s[1..], dash);
      }
    }
  }

  /** A string with no whitespace is left as it is. */
  lemma {:induction false} ReplaceSpaceRunsNone(s: string, dash: char)
    requires forall i :: 0 <= i < |s| ==> !IsSpace(s[i])
    ensures ReplaceSpaceRuns(s, dash) == s
  {
    if |s| > 0 {
      ReplaceSpaceRunsNone(s[1..], dash);
      assert s == [s[0]] + s[1..];
    }
  }

  /**
   * `toLowerCase()` on one character, for the Basic Latin and Latin-1
   * letters: A-Z and the Latin-1 capitals except the multiplication sign.
   */
  function LowerChar(c: char): (d: char)
    ensures !('A' <= d <= 'Z')
  {
    if 'A' <= c <= 'Z' || ('\U{00C0}' <= c <= '\U{00DE}' && c != '\U{00D7}') then (c as int + 32) as char
    else c
  }

  function ToLower(s: string): (r: string)
  {
    seq(|s|, i requires 0 <= i < |s| => LowerChar(s[i]))
  }

  /** Lower-casing changes no character that is not an upper-case letter. */
  lemma ToLowerKeepsOthers(s: string)
    requires forall i :: 0 <= i < |s| ==> !('A' <= s[i] <= 'Z') && !('\U{00C0}' <= s[i] <= '\U{00DE}')
    ensures ToLower(s) == s
  {
  }

  /** The longest prefix of decimal digits. */
  function LeadingDigits(s: string): (ds: string)
    ensures |ds| <= |s| && ds == s[..|ds|]
    ensures forall i :: 0 <= i < |ds| ==> IsDigit(ds[i])
    ensures |ds| == |s| || !IsDigit(s[|ds|])
  {
    if |s| > 0 && IsDigit(s[0]) then [s[0]] + LeadingDigits(s[1..]) else ""
  }

  /** The number a string of decimal digits denotes. */
  function DigitsValue(ds: string): nat
    requires forall i :: 0 <= i < |ds| ==> IsDigit(ds[i])
  {
    if |ds| == 0 then 0 else DigitsValue(ds[..|ds| - 1]) * 10 + DigitValue(ds[|ds| - 1])
  }

  /**
   * `parseInt(s)` without a radix, for decimal text: leading whitespace is
   * skipped, one sign is read, then the longest run of digits; no digit is
   * `NaN` (None).
   */
  function ParseInt(s: string): (r: Option<int>)
  {
    var t := TrimStart(s);
    var negative := |t| > 0 && t[0] == '-';
    var body := if |t| > 0 && (t[0] == '-' || t[0] == '+') then t[1..] else t;
    var ds := LeadingDigits(body);
    var magnitude: int := DigitsValue(ds);
    if |ds| == 0 then None
    else if negative then Some(-magnitude)
    else Some(magnitude)
  }

  /** Reading back the decimal text of a number gives the number. */
  lemma {:induction false} DigitsValueDecimal(n: nat)
    ensures (forall i :: 0 <= i < |Decimal(n)| ==> IsDigit(Decimal(n)[i])) && DigitsValue(Decimal(n)) == n
    decreases n
  {
    DecimalDigits(n);
    if n >= 10 {
      DigitsValueDecimal(n / 10);
      var s := Decimal(n);
      assert s[..|s| - 1] == Decimal(n / 10);
    }
  }

  /** A text made of digits only is its own longest run of leading digits. */
  lemma {:induction false} LeadingDigitsAll(ds: string)
    requires forall i :: 0 <= i < |ds| ==> IsDigit(ds[i])
    ensures LeadingDigits(ds) == ds
  {
    if |ds| > 0 {
      LeadingDigitsAll(ds[1..]);
    }
  }

  /** `parseInt` of the decimal text of a number gives the number back. */
  lemma ParseIntDecimal(n: nat)
    ensures ParseInt(Decimal(n)) == Some(n)
  {
    var s := Decimal(n);
    DigitsValueDecimal(n);
    assert IsDigit(s[0]);
    assert TrimStart(s) == s;
    LeadingDigitsAll(s);
  }
}
