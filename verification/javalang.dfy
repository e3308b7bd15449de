/** The parts of Java's `long`, `int` and `String` semantics that the range arithmetic relies on. */
module JavaLang {
  import opened Wrappers
  import Text

  const LONG_MIN: int := -0x8000_0000_0000_0000
  const LONG_MAX: int := 0x7FFF_FFFF_FFFF_FFFF
  const INT_MIN: int := -0x8000_0000
  const INT_MAX: int := 0x7FFF_FFFF

  predicate IsLong(x: int) {
    LONG_MIN <= x <= LONG_MAX
  }

  /** Two's-complement wrap-around of a mathematical integer into a Java `long`. */
  function WrapLong(x: int): (r: int)
    ensures IsLong(r)
    ensures (x - r) % 0x1_0000_0000_0000_0000 == 0
    ensures IsLong(x) ==> r == x
  {
    (x - LONG_MIN) % 0x1_0000_0000_0000_0000 + LONG_MIN
  }

  /** The narrowing cast `(int) x` of a `long`: keeps the low 32 bits, two's complement. */
  function NarrowToInt(x: int): (r: int)
    ensures INT_MIN <= r <= INT_MAX
    ensures (x - r) % 0x1_0000_0000 == 0
    ensures INT_MIN <= x <= INT_MAX ==> r == x
  {
    (x - INT_MIN) % 0x1_0000_0000 + INT_MIN
  }

  /** `s.replace(target, "")`: every occurrence of `target`, scanned left to right without
      overlaps, is deleted. */
  function RemoveAll(s: string, target: string): (r: string)
    requires |target| > 0
    ensures |r| <= |s|
    ensures forall c :: c in r ==> c in s
    decreases |s|
  {
    if |s| < |target| then s
    else if s[..|target|] == target then RemoveAll(s[|target|..], target)
    else [s[0]] + RemoveAll(s[1..], target)
  }

  /** An occurrence of `target` cannot span a character that `target` does not contain, so
      deletion acts on each side of such a character separately. */
  lemma {:induction false} RemoveAllSplits(p: string, c: char, t: string, target: string)
    requires |target| > 0
    requires c !in target && c !in p
    ensures RemoveAll(p + [c] + t, target) == RemoveAll(p, target) + [c] + RemoveAll(t, target)
    decreases |p|, 1
  {
    var s := p + [c] + t;
    var n := |target|;
    if |s| < n {
      RemoveAllShort(p, target);
      RemoveAllShort(t, target);
    } else if s[..n] == target {
      SplitsAfterMatch(p, c, t, target);
    } else if p == [] {
      assert s[1..] == t;
    } else {
      SplitsAfterSkip(p, c, t, target);
    }
  }

  /** `target` starts the text: it lies wholly inside `p` and is deleted from both sides. */
  lemma {:induction false} SplitsAfterMatch(p: string, c: char, t: string, target: string)
    requires |target| > 0 && c !in target && c !in p
    requires |p + [c] + t| >= |target| && (p + [c] + t)[..|target|] == target
    ensures RemoveAll(p + [c] + t, target) == RemoveAll(p, target) + [c] + RemoveAll(t, target)
    decreases |p|, 0
  {
    var s := p + [c] + t;
    var n := |target|;
    assert forall k :: 0 <= k < n ==> target[k] != c;
    assert s[|p|] == c;
    assert p[..n] == target;
    assert s[n..] == p[n..] + [c] + t;
    RemoveAllSplits(p[n..], c, t, target);
  }

  /** The text does not start with `target`: its first character, which is `p`'s, is kept. */
  lemma {:induction false} SplitsAfterSkip(p: string, c: char, t: string, target: string)
    requires |target| > 0 && c !in target && c !in p && p != []
    requires |p + [c] + t| >= |target| && (p + [c] + t)[..|target|] != target
    ensures RemoveAll(p + [c] + t, target) == RemoveAll(p, target) + [c] + RemoveAll(t, target)
    decreases |p|, 0
  {
    var rp, rt := RemoveAll(p[1..], target), RemoveAll(t, target);
    SkipBothFirst(p, c, t, target);
    assert c !in p[1..] by {
      assert forall k :: 0 <= k < |p[1..]| ==> p[1..][k] == p[k + 1];
    }
    RemoveAllSplits(p[1..], c, t, target);
    ConsAssoc(p[0], rp, c, rt);
  }

  lemma ConsAssoc(x: char, a: string, c: char, b: string)
    ensures [x] + (a + [c] + b) == ([x] + a) + [c] + b
  {
  }

  /** Neither the text nor `p` starts with `target`, so both keep `p`'s first character. */
  lemma SkipBothFirst(p: string, c: char, t: string, target: string)
    requires |target| > 0 && p != []
    requires |p + [c] + t| >= |target| && (p + [c] + t)[..|target|] != target
    ensures RemoveAll(p + [c] + t, target) == [p[0]] + RemoveAll(p[1..] + [c] + t, target)
    ensures RemoveAll(p, target) == [p[0]] + RemoveAll(p[1..], target)
  {
    var s := p + [c] + t;
    var n := |target|;
    if |p| >= n {
      assert p[..n] == s[..n];
    }
    RemoveAllKeepsFirst(p, target);
    RemoveAllKeepsFirst(s, target);
    assert s[1..] == p[1..] + [c] + t;
  }

  /** Text that does not start with `target` keeps its first character. */
  lemma RemoveAllKeepsFirst(x: string, target: string)
    requires |target| > 0 && x != []
    requires |x| < |target| || x[..|target|] != target
    ensures RemoveAll(x, target) == [x[0]] + RemoveAll(x[1..], target)
  {
    if |x| < |target| {
      RemoveAllShort(x, target);
      RemoveAllShort(x[1..], target);
      assert x == [x[0]] + x[1..];
    }
  }

  lemma RemoveAllShort(s: string, target: string)
    requires 0 < |target|
    requires |s| < |target|
    ensures RemoveAll(s, target) == s
  {
  }

  /** Text without the first character of `target` contains no occurrence to delete. */
  lemma {:induction false} RemoveAllAbsent(s: string, target: string)
    requires |target| > 0 && target[0] !in s
    ensures RemoveAll(s, target) == s
    decreases |s|
  {
    if |s| >= |target| {
      assert s[..|target|][0] == s[0] != target[0];
      RemoveAllAbsent(s[1..], target);
      assert s == [s[0]] + s[1..];
    }
  }

  /** `Long.parseLong(s)`: an optional sign, then one or more decimal digits, with the value
      inside the `long` range; anything else raises NumberFormatException (`None`). */
  function ParseLong(s: string): (r: Option<int>)
    ensures r.Some? ==> IsLong(r.value)
    ensures r.Some? ==> s != [] && Text.IsDigit(s[|s| - 1])
  {
    if s == [] then None
    else
      var signed := s[0] == '-' || s[0] == '+';
      var digits := if signed then s[1..] else s;
      if digits == [] || !Text.AllDigits(digits) then None
      else
        var magnitude := Text.DigitsValue(digits);
        var v: int := if s[0] == '-' then -(magnitude as int) else magnitude as int;
        if IsLong(v) then Some(v) else None
  }

  /** `Long.parseLong` reads back what `Long.toString` writes. */
  lemma ParseLongOfToString(n: int)
    requires IsLong(n)
    ensures ParseLong(Text.IntToString(n)) == Some(n)
  {
    var s := Text.IntToString(n);
    if n < 0 {
      assert s[1..] == Text.NatToString(-n);
    }
  }
}
