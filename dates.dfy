/**
 * Calendar dates as the client handles them: strings "YYYY-MM-DD", the value of
 * an `<input type="date">` and of every stored `dueDate`.
 *
 * The client compares dates in two ways: as strings with JavaScript's `<`
 * (lexicographic), and through `new Date(...)`, which for a date-only string is
 * chronological and yields NaN (comparing false) for a string that is not a date.
 * This module defines both and proves that, on well-formed strings, the string
 * order is exactly the (year, month, day) order.
 */
module Dates {

  predicate IsDigit(c: char) { '0' <= c <= '9' }

  function DigitValue(c: char): nat
    requires IsDigit(c)
  {
    (c as int) - ('0' as int)
  }

  function Digit(n: nat): (c: char)
    requires n < 10
    ensures IsDigit(c) && DigitValue(c) == n
  {
    (('0' as int) + n) as char
  }

  /** The value of a string of two decimal digits. */
  function Num2(s: string): nat
    requires |s| == 2 && IsDigit(s[0]) && IsDigit(s[1])
  {
    10 * DigitValue(s[0]) + DigitValue(s[1])
  }

  /** A date-only ISO string that `new Date` accepts: four-digit year, month 01-12, day 01-31. */
  predicate IsIsoDate(s: string)
  {
    && |s| == 10
    && s[4] == '-' && s[7] == '-'
    && (forall i :: 0 <= i < 10 && i != 4 && i != 7 ==> IsDigit(s[i]))
    && 1 <= Num2(s[5..7]) <= 12
    && 1 <= Num2(s[8..10]) <= 31
  }

  function Year(s: string): nat
    requires IsIsoDate(s)
  {
    100 * Num2(s[0..2]) + Num2(s[2..4])
  }

  function Month(s: string): nat
    requires IsIsoDate(s)
  {
    Num2(s[5..7])
  }

  function Day(s: string): nat
    requires IsIsoDate(s)
  {
    Num2(s[8..10])
  }

  /** The day as one number, ordered as (year, month, day) is. */
  function DayKey(s: string): nat
    requires IsIsoDate(s)
  {
    Year(s) * 10000 + Month(s) * 100 + Day(s)
  }

  /** No character of `s` lies above U+FFFF, so each is one UTF-16 code unit. */
  predicate InBmp(s: string)
  {
    forall i :: 0 <= i < |s| ==> s[i] <= '\U{FFFF}'
  }

  /** A well-formed date is made of digits and dashes, so string `<` on it is JavaScript's. */
  lemma IsoDateInBmp(s: string)
    requires IsIsoDate(s)
    ensures InBmp(s)
  {
    forall i | 0 <= i < |s| ensures s[i] <= '\U{FFFF}' {
      if i != 4 && i != 7 { assert IsDigit(s[i]); }
    }
  }

  /** `new Date(s).getFullYear() === year`: an invalid date has year NaN. */
  predicate InYear(s: string, year: int)
  {
    IsIsoDate(s) && Year(s) == year
  }

  /**
   * String `a < b`: lexicographic, a proper prefix first. JavaScript compares
   * UTF-16 code units and this compares code points; the two agree on strings
   * without characters above U+FFFF (`InBmp`), such as every date string.
   */
  predicate LexLess(a: string, b: string)
  {
    |b| > 0 && (|a| == 0 || a[0] < b[0] || (a[0] == b[0] && LexLess(a[1..], b[1..])))
  }

  /** `new Date(a) <= new Date(b)`; false as soon as either side is not a date. */
  predicate DateLe(a: string, b: string)
  {
    IsIsoDate(a) && IsIsoDate(b) && !LexLess(b, a)
  }

  /**
   * The sign of `new Date(a) - new Date(b)` as a sort comparator reads it:
   * the difference is NaN when either side is not a date, and NaN counts as 0.
   */
  function DateCompare(a: string, b: string): int
  {
    if IsIsoDate(a) && IsIsoDate(b) then
      (if LexLess(a, b) then -1 else if LexLess(b, a) then 1 else 0)
    else 0
  }

  // ---------------------------------------------------------------------------
  // Lexicographic order is a strict total order

  lemma {:induction false} LexLessIrreflexive(a: string)
    ensures !LexLess(a, a)
  {
    if |a| > 0 { LexLessIrreflexive(a[1..]); }
  }

  lemma {:induction false} LexLessAsymmetric(a: string, b: string)
    ensures LexLess(a, b) ==> !LexLess(b, a)
  {
    if |a| > 0 && |b| > 0 && a[0] == b[0] { LexLessAsymmetric(a[1..], b[1..]); }
  }

  lemma {:induction false} LexLessTransitive(a: string, b: string, c: string)
    requires LexLess(a, b) && LexLess(b, c)
    ensures LexLess(a, c)
  {
    if |a| > 0 && a[0] == b[0] && b[0] == c[0] {
      LexLessTransitive(a[1..], b[1..], c[1..]);
    }
  }

  lemma {:induction false} LexLessTotal(a: string, b: string)
    ensures a == b || LexLess(a, b) || LexLess(b, a)
  {
    if |a| > 0 && |b| > 0 && a[0] == b[0] {
      LexLessTotal(a[1..], b[1..]);
      if a[1..] == b[1..] {
        assert a == [a[0]] + a[1..] && b == [b[0]] + b[1..];
      }
    }
  }

  /** Comparing two strings that share a split point: first parts first. */
  lemma {:induction false} LexLessSplit(a: string, b: string, k: nat)
    requires k <= |a| && k <= |b|
    ensures LexLess(a, b) <==> LexLess(a[..k], b[..k]) || (a[..k] == b[..k] && LexLess(a[k..], b[k..]))
  {
    if k > 0 {
      LexLessSplit(a[1..], b[1..], k - 1);
      assert a[1..][..k - 1] == a[..k][1..] && b[1..][..k - 1] == b[..k][1..];
      assert a[1..][k - 1..] == a[k..] && b[1..][k - 1..] == b[k..];
      if a[0] == b[0] && a[..k][1..] == b[..k][1..] {
        assert a[..k] == [a[0]] + a[..k][1..] && b[..k] == [b[0]] + b[..k][1..];
      }
    }
  }

  lemma LexLessDigits2(x: string, y: string)
    requires |x| == 2 && IsDigit(x[0]) && IsDigit(x[1])
    requires |y| == 2 && IsDigit(y[0]) && IsDigit(y[1])
    ensures LexLess(x, y) <==> Num2(x) < Num2(y)
    ensures x == y <==> Num2(x) == Num2(y)
  {
    assert LexLess(x[1..], y[1..]) <==> x[1] < y[1] by {
      assert x[1..][1..] == [] && y[1..][1..] == [];
    }
    if x[0] == y[0] && x[1] == y[1] {
      assert x == [x[0], x[1]] && y == [y[0], y[1]];
    }
  }

  /** Two well-formed dates compare field by field: year digits, month, day. */
  lemma {:induction false} IsoLexByFields(a: string, b: string)
    requires IsIsoDate(a) && IsIsoDate(b)
    ensures LexLess(a, b) <==>
      LexLess(a[0..4], b[0..4]) || (a[0..4] == b[0..4] &&
        (LexLess(a[5..7], b[5..7]) || (a[5..7] == b[5..7] && LexLess(a[8..10], b[8..10]))))
    ensures a == b <==> a[0..4] == b[0..4] && a[5..7] == b[5..7] && a[8..10] == b[8..10]
  {
    LexLessIrreflexive("-");
    LexLessSplit(a, b, 4);
    assert a[..4] == a[0..4] && b[..4] == b[0..4];
    SliceOfSlice(a, 4, 1);
    SliceOfSlice(b, 4, 1);
    LexLessSplit(a[4..], b[4..], 1);
    assert a[4..5] == b[4..5] == "-";
    SliceOfSlice(a, 5, 2);
    SliceOfSlice(b, 5, 2);
    LexLessSplit(a[5..], b[5..], 2);
    SliceOfSlice(a, 7, 1);
    SliceOfSlice(b, 7, 1);
    LexLessSplit(a[7..], b[7..], 1);
    assert a[7..8] == b[7..8] == "-";
    assert a[8..] == a[8..10] && b[8..] == b[8..10];
    assert a == a[0..4] + "-" + a[5..7] + "-" + a[8..10];
    assert b == b[0..4] + "-" + b[5..7] + "-" + b[8..10];
  }

  lemma SliceOfSlice(s: string, i: nat, j: nat)
    requires i + j <= |s|
    ensures s[i..][..j] == s[i..i + j]
    ensures s[i..][j..] == s[i + j..]
  {
  }

  lemma {:induction false} LexLessYear(a: string, b: string)
    requires IsIsoDate(a) && IsIsoDate(b)
    ensures LexLess(a[0..4], b[0..4]) <==> Year(a) < Year(b)
    ensures a[0..4] == b[0..4] <==> Year(a) == Year(b)
  {
    var x, y := a[0..4], b[0..4];
    LexLessSplit(x, y, 2);
    assert x[..2] == a[0..2] && y[..2] == b[0..2] && x[2..] == a[2..4] && y[2..] == b[2..4];
    LexLessDigits2(a[0..2], b[0..2]);
    LexLessDigits2(a[2..4], b[2..4]);
    assert x == a[0..2] + a[2..4] && y == b[0..2] + b[2..4];
  }

  /**
   * On well-formed dates, JavaScript's string order is the chronological
   * (year, month, day) order: comparing the strings is comparing the days.
   */
  lemma IsoOrderIsDayOrder(a: string, b: string)
    requires IsIsoDate(a) && IsIsoDate(b)
    ensures LexLess(a, b) <==> DayKey(a) < DayKey(b)
    ensures a == b <==> DayKey(a) == DayKey(b)
  {
    IsoLexByFields(a, b);
    LexLessYear(a, b);
    LexLessDigits2(a[5..7], b[5..7]);
    LexLessDigits2(a[8..10], b[8..10]);
  }

  /** `new Date(a) <= new Date(b)` holds exactly for two dates whose days are in order. */
  lemma DateLeIsDayOrder(a: string, b: string)
    ensures DateLe(a, b) <==> IsIsoDate(a) && IsIsoDate(b) && DayKey(a) <= DayKey(b)
  {
    if IsIsoDate(a) && IsIsoDate(b) { IsoOrderIsDayOrder(b, a); }
  }

  lemma DateLeTransitive(a: string, b: string, c: string)
    requires DateLe(a, b) && DateLe(b, c)
    ensures DateLe(a, c)
  {
    DateLeIsDayOrder(a, b);
    DateLeIsDayOrder(b, c);
    DateLeIsDayOrder(a, c);
  }

  // ---------------------------------------------------------------------------
  // Formatting today's date: `${year}-${month}-${day}` with month and day padded

  /** JavaScript's `String(n)` for a non-negative integer. */
  function DecimalString(n: nat): string
  {
    if n < 10 then [Digit(n)] else DecimalString(n / 10) + [Digit(n % 10)]
  }

  /** `s.padStart(2, '0')`. */
  function PadStart2(s: string): string
    decreases 2 - |s|
  {
    if |s| >= 2 then s else PadStart2(['0'] + s)
  }

  /**
   * `getCurrentDate()` for a clock reading: `getFullYear()`, the zero-based
   * `getMonth()` and `getDate()`.
   */
  function FormatDate(year: nat, monthIndex: nat, day: nat): string
  {
    DecimalString(year) + "-" + PadStart2(DecimalString(monthIndex + 1)) + "-" + PadStart2(DecimalString(day))
  }

  lemma Padded2(n: nat)
    requires n < 100
    ensures PadStart2(DecimalString(n)) == [Digit(n / 10), Digit(n % 10)]
  {
    if n < 10 {
      assert PadStart2(DecimalString(n)) == PadStart2(['0', Digit(n)]);
    } else {
      assert DecimalString(n / 10) == [Digit(n / 10)];
    }
  }

  lemma FourDigits(n: nat)
    requires 1000 <= n <= 9999
    ensures DecimalString(n) == [Digit(n / 1000), Digit(n / 100 % 10), Digit(n / 10 % 10), Digit(n % 10)]
  {
    var n1 := n / 10;
    var n2 := n1 / 10;
    var n3 := n2 / 10;
    assert n2 == n / 100 && n3 == n / 1000;
    assert DecimalString(n3) == [Digit(n3)];
    assert DecimalString(n2) == [Digit(n3), Digit(n2 % 10)];
    assert DecimalString(n1) == [Digit(n3), Digit(n2 % 10), Digit(n1 % 10)];
  }

  lemma Num2OfDigits(n: nat)
    requires n < 100
    ensures Num2([Digit(n / 10), Digit(n % 10)]) == n
  {
  }

  lemma YearDigits(year: nat)
    requires 1000 <= year <= 9999
    ensures year / 100 / 10 == year / 1000 && year / 100 % 10 == year / 100 % 10
    ensures year % 100 / 10 == year / 10 % 10 && year % 100 % 10 == year % 10
    ensures 100 * (year / 100) + year % 100 == year
  {
  }

  /**
   * For a clock in the years 1000-9999, `getCurrentDate()` yields a well-formed,
   * zero-padded date string whose fields read back as the clock's.
   */
  lemma FormatDateIsIsoDate(year: nat, monthIndex: nat, day: nat)
    requires 1000 <= year <= 9999 && monthIndex < 12 && 1 <= day <= 31
    ensures IsIsoDate(FormatDate(year, monthIndex, day))
    ensures Year(FormatDate(year, monthIndex, day)) == year
    ensures Month(FormatDate(year, monthIndex, day)) == monthIndex + 1
    ensures Day(FormatDate(year, monthIndex, day)) == day
  {
    FourDigits(year);
    YearDigits(year);
    var month := monthIndex + 1;
    Padded2(month);
    Padded2(day);
    var s := FormatDate(year, monthIndex, day);
    var high, low := year / 100, year % 100;
    assert s == [Digit(high / 10), Digit(high % 10), Digit(low / 10), Digit(low % 10), '-',
                 Digit(month / 10), Digit(month % 10), '-', Digit(day / 10), Digit(day % 10)];
    assert s[0..2] == [Digit(high / 10), Digit(high % 10)];
    assert s[2..4] == [Digit(low / 10), Digit(low % 10)];
    assert s[5..7] == [Digit(month / 10), Digit(month % 10)];
    assert s[8..10] == [Digit(day / 10), Digit(day % 10)];
    Num2OfDigits(high);
    Num2OfDigits(low);
    Num2OfDigits(month);
    Num2OfDigits(day);
  }
}
