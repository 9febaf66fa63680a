/** Strings as Python sees them: code-point order, decimal rendering, blanks and prefixes. */
module Text {
  import opened Sorting

  /** Python's `<=` on `str`: lexicographic by code point. */
  predicate AtMost(a: string, b: string)
  {
    a == [] || (b != [] && (a[0] < b[0] || (a[0] == b[0] && AtMost(a[1..], b[1..]))))
  }

  lemma {:induction false} AtMostTotal(a: string, b: string)
    ensures AtMost(a, b) || AtMost(b, a)
  {
    if a != [] && b != [] && a[0] == b[0] { AtMostTotal(a[1..], b[1..]); }
  }

  lemma {:induction false} AtMostTransitive(a: string, b: string, c: string)
    requires AtMost(a, b) && AtMost(b, c)
    ensures AtMost(a, c)
  {
    if a != [] && a[0] == b[0] == c[0] { AtMostTransitive(a[1..], b[1..], c[1..]); }
  }

  lemma {:induction false} AtMostAntisymmetric(a: string, b: string)
    requires AtMost(a, b) && AtMost(b, a)
    ensures a == b
  {
    if a != [] && b != [] {
      AtMostAntisymmetric(a[1..], b[1..]);
      assert a == [a[0]] + a[1..] && b == [b[0]] + b[1..];
    }
  }

  lemma AtMostIsOrder()
    ensures TotalPreorder(AtMost) && Antisymmetric(AtMost)
  {
    forall a, b ensures AtMost(a, b) || AtMost(b, a) { AtMostTotal(a, b); }
    forall a, b, c | AtMost(a, b) && AtMost(b, c) ensures AtMost(a, c) { AtMostTransitive(a, b, c); }
    forall a, b | AtMost(a, b) && AtMost(b, a) ensures a == b { AtMostAntisymmetric(a, b); }
  }

  predicate IsDigit(c: char)
  {
    '0' <= c <= '9'
  }

  predicate AllDigits(s: string)
  {
    forall i :: 0 <= i < |s| ==> IsDigit(s[i])
  }

  function Digit(n: nat): (c: char)
    requires n < 10
    ensures IsDigit(c)
  {
    '0' + n as char
  }

  /** The decimal rendering an f-string gives a non-negative integer. */
  function Decimal(n: nat): (s: string)
    ensures s != [] && AllDigits(s)
  {
    if n < 10 then [Digit(n)] else Decimal(n / 10) + [Digit(n % 10)]
  }

  function Value(s: string): nat
    requires AllDigits(s)
  {
    if s == [] then 0 else Value(s[..|s| - 1]) * 10 + (s[|s| - 1] as int - '0' as int)
  }

  lemma {:induction false} DecimalValue(n: nat)
    ensures Value(Decimal(n)) == n
  {
    if n < 10 {
      assert Decimal(n)[..0] == [];
    } else {
      DecimalValue(n / 10);
      var s := Decimal(n);
      assert s[..|s| - 1] == Decimal(n / 10);
    }
  }

  lemma DecimalInjective(a: nat, b: nat)
    requires Decimal(a) == Decimal(b)
    ensures a == b
  {
    DecimalValue(a);
    DecimalValue(b);
  }

  /** A digit run after a non-digit is determined by the whole string. */
  lemma {:induction false} DigitRunUnique(a: string, x: char, m: string, b: string, y: char, n: string)
    requires a + [x] + m == b + [y] + n
    requires !IsDigit(x) && !IsDigit(y) && AllDigits(m) && AllDigits(n)
    ensures a + [x] == b + [y] && m == n
  {
    var s := a + [x] + m;
    assert s[|a|] == x && s[|b|] == y;
    assert forall k :: |a| < k < |s| ==> s[k] == m[k - |a| - 1];
    assert forall k :: |b| < k < |s| ==> s[k] == n[k - |b| - 1];
    assert |a| == |b|;
    assert m == s[|a| + 1..] && n == s[|b| + 1..];
    assert a + [x] == s[..|a| + 1] && b + [y] == s[..|b| + 1];
  }

  lemma SuffixUnique(a: string, m: string, b: string, n: string)
    requires a + m == b + n && |m| == |n|
    ensures a == b && m == n
  {
    assert |a| == |b|;
    assert a == (a + m)[..|a|] && b == (b + n)[..|b|];
    assert m == (a + m)[|a|..] && n == (b + n)[|b|..];
  }

  lemma Regroup(a: string, b: string, c: string)
    ensures (a + b) + c == a + (b + c)
  {
  }

  lemma SamePrefix(a: string, m: string, n: string)
    requires a + m == a + n
    ensures m == n
  {
    assert m == (a + m)[|a|..] && n == (a + n)[|a|..];
  }

  /** `str.isspace`, which is also what `\s` matches and `strip` and `split` discard. */
  predicate IsSpace(c: char)
  {
    '\t' <= c <= '\r' || '\U{1c}' <= c <= ' ' || c == '\U{85}' || c == '\U{a0}' ||
    c == '\U{1680}' || '\U{2000}' <= c <= '\U{200a}' || c == '\U{2028}' || c == '\U{2029}' ||
    c == '\U{202f}' || c == '\U{205f}' || c == '\U{3000}'
  }

  /** `not value.strip()`. */
  predicate Blank(s: string)
  {
    forall i :: 0 <= i < |s| ==> IsSpace(s[i])
  }
}
