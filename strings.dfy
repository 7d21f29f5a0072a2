/**
 * The few string operations the pipeline relies on: Python / polars
 * string ordering (code point by code point), the zero-padded `"%m-%d"`
 * format, and decimal formatting of integers (`str(int)`, the cast of an
 * integer column to `Utf8`).
 */
module Strings {
  import opened Dates

  /** Python's `a < b` on `str`: first differing code point decides, a proper prefix is smaller. */
  predicate LexLess(a: string, b: string)
    decreases |a|
  {
    if |b| == 0 then false
    else if |a| == 0 then true
    else if a[0] != b[0] then a[0] < b[0]
    else LexLess(a[1..], b[1..])
  }

  /** Python's `a <= b` on `str`. */
  predicate LexLe(a: string, b: string)
  {
    a == b || LexLess(a, b)
  }

  function Digit(n: int): (c: char)
    requires 0 <= n <= 9
    ensures '0' <= c <= '9'
  {
    (48 + n) as char
  }

  /** Zero-padded two-digit field, as `%m` and `%d` print it. */
  function TwoDigits(n: int): string
    requires 0 <= n <= 99
  {
    [Digit(n / 10), Digit(n % 10)]
  }

  /** `d.strftime("%m-%d")`. */
  function MonthDay(d: Date): string
  {
    TwoDigits(d.month) + "-" + TwoDigits(d.day)
  }

  lemma TwoDigitsOrder(x: int, y: int, u: string, v: string)
    requires 0 <= x <= 99 && 0 <= y <= 99
    ensures LexLess(TwoDigits(x) + u, TwoDigits(y) + v)
        <==> x < y || (x == y && LexLess(u, v))
  {
    var a, b := TwoDigits(x) + u, TwoDigits(y) + v;
    assert a[0] == Digit(x / 10) && b[0] == Digit(y / 10);
    assert a[1..][0] == Digit(x % 10) && b[1..][0] == Digit(y % 10);
    assert a[1..][1..] == u && b[1..][1..] == v;
  }

  /**
   * Comparing the zero-padded `"%m-%d"` strings is comparing
   * (month, day) lexicographically.
   */
  lemma MonthDayOrder(a: Date, b: Date)
    ensures LexLess(MonthDay(a), MonthDay(b))
        <==> a.month < b.month || (a.month == b.month && a.day < b.day)
  {
    var ua: string := "-" + TwoDigits(a.day);
    var ub: string := "-" + TwoDigits(b.day);
    assert MonthDay(a) == TwoDigits(a.month) + ua;
    assert MonthDay(b) == TwoDigits(b.month) + ub;
    TwoDigitsOrder(a.month, b.month, ua, ub);
    TwoDigitsOrder(a.day, b.day, "", "");
    assert TwoDigits(a.day) + "" == TwoDigits(a.day);
    assert TwoDigits(b.day) + "" == TwoDigits(b.day);
    assert ua[1..] == TwoDigits(a.day) && ub[1..] == TwoDigits(b.day);
  }

  /** `str(n)` for a natural number. */
  function NatToString(n: nat): (s: string)
    ensures |s| >= 1
    ensures forall i :: 0 <= i < |s| ==> '0' <= s[i] <= '9'
    decreases n
  {
    if n < 10 then [Digit(n)] else NatToString(n / 10) + [Digit(n % 10)]
  }

  /** `str(i)` for an integer, with a leading minus sign when negative. */
  function IntToString(i: int): string
  {
    if i < 0 then "-" + NatToString(-i) else NatToString(i)
  }

  /** Different numbers print differently. */
  lemma {:induction false} NatToStringInjective(m: nat, n: nat)
    requires NatToString(m) == NatToString(n)
    ensures m == n
    decreases m
  {
    var s := NatToString(m);
    if m < 10 && n < 10 {
      assert Digit(m) == s[0] == Digit(n);
    } else if m >= 10 && n >= 10 {
      var k := |s| - 1;
      assert Digit(m % 10) == s[k] == Digit(n % 10);
      assert NatToString(m / 10) == s[..k] == NatToString(n / 10);
      NatToStringInjective(m / 10, n / 10);
    } else {
      assert false;
    }
  }

  lemma IntToStringInjective(i: int, j: int)
    requires IntToString(i) == IntToString(j)
    ensures i == j
  {
    assert i >= 0 ==> '0' <= NatToString(i)[0] <= '9';
    assert j >= 0 ==> '0' <= NatToString(j)[0] <= '9';
    assert (IntToString(i)[0] == '-') == (i < 0) == (IntToString(j)[0] == '-') == (j < 0);
    if i < 0 && j < 0 {
      assert NatToString(-i) == IntToString(i)[1..] == NatToString(-j);
      NatToStringInjective(-i, -j);
    } else if i >= 0 && j >= 0 {
      NatToStringInjective(i, j);
    } else {
      assert false;
    }
  }
}
