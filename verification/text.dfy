/** Decimal digits and the few string primitives shared by the client and the server models. */
module Text {

  predicate IsDigit(c: char) {
    '0' <= c <= '9'
  }

  function DigitValue(c: char): (d: nat)
    requires IsDigit(c)
    ensures d < 10
  {
    (c as int) - ('0' as int)
  }

  function DigitChar(d: nat): (c: char)
    requires d < 10
    ensures IsDigit(c) && DigitValue(c) == d
  {
    ('0' as int + d) as char
  }

  predicate AllDigits(s: string) {
    forall i :: 0 <= i < |s| ==> IsDigit(s[i])
  }

  /** The value of a string of decimal digits, most significant digit first. */
  function DigitsValue(s: string): nat
    requires AllDigits(s)
  {
    if s == [] then 0 else 10 * DigitsValue(s[..|s| - 1]) + DigitValue(s[|s| - 1])
  }

  /** The decimal spelling of a non-negative integer, as JavaScript's `toString` and Java's
      `Long.toString` write it: digits only, and no leading zero unless the number is 0. */
  function NatToString(n: nat): (s: string)
    ensures 1 <= |s| && AllDigits(s)
    ensures DigitsValue(s) == n
    ensures s[0] == '0' ==> n == 0 && s == "0"
  {
    if n < 10 then [DigitChar(n)]
    else
      var prefix := NatToString(n / 10);
      var s := prefix + [DigitChar(n % 10)];
      assert s[..|s| - 1] == prefix;
      s
  }

  /** Decimal spelling of any integer: a minus sign before the magnitude when negative. */
  function IntToString(i: int): (s: string)
    ensures 1 <= |s|
    ensures i >= 0 ==> AllDigits(s)
    ensures i < 0 ==> s[0] == '-' && AllDigits(s[1..])
  {
    if i < 0 then "-" + NatToString(-i) else NatToString(i)
  }

  /** Distinct numbers have distinct spellings. */
  lemma NatToStringInjective(a: nat, b: nat)
    requires NatToString(a) == NatToString(b)
    ensures a == b
  {
  }

  predicate EndsWith(s: string, suffix: string) {
    |suffix| <= |s| && s[|s| - |suffix|..] == suffix
  }

  predicate StartsWith(s: string, prefix: string) {
    |prefix| <= |s| && s[..|prefix|] == prefix
  }

  /** Index of the first occurrence of `c` in `s`, or `|s|` when there is none. */
  function IndexOf(s: string, c: char): (i: nat)
    ensures i <= |s|
    ensures i < |s| ==> s[i] == c
    ensures forall k :: 0 <= k < i ==> s[k] != c
  {
    if s == [] then 0
    else if s[0] == c then 0
    else 1 + IndexOf(s[1..], c)
  }

  /** The first occurrence of `c` in `a + [c] + b` is right after `a` when `a` holds no `c`. */
  lemma {:induction false} IndexOfAfter(a: string, c: char, b: string)
    requires c !in a
    ensures IndexOf(a + [c] + b, c) == |a|
  {
    if a != [] {
      assert (a + [c] + b)[1..] == a[1..] + [c] + b;
      IndexOfAfter(a[1..], c, b);
    }
  }

  /** Cutting `a + [c] + b` at its first `c` gives back `a` and `b`. */
  lemma SplitAtFirst(a: string, c: char, b: string)
    requires c !in a
    ensures var s := a + [c] + b;
            IndexOf(s, c) == |a| && s[..|a|] == a && s[|a| + 1..] == b
  {
    IndexOfAfter(a, c, b);
    var s := a + [c] + b;
    assert s[..|a|] == a;
    assert s[|a| + 1..] == b;
  }

  lemma NoNonDigit(s: string, c: char)
    requires AllDigits(s) && !IsDigit(c)
    ensures c !in s
  {
  }

  /** An integer's spelling holds nothing but digits and a minus sign. */
  lemma IntToStringChars(i: int, c: char)
    requires c != '-' && !IsDigit(c)
    ensures c !in IntToString(i)
  {
    var s := IntToString(i);
    if i < 0 {
      NoNonDigit(s[1..], c);
      assert s == [s[0]] + s[1..];
    } else {
      NoNonDigit(s, c);
    }
  }
}
