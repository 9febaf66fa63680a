/** efficacy.py, `_wilson` and `_rate`: the confidence interval around an observed rate, over the reals. */
module Wilson {
  const MIN_CI_SAMPLE: nat := 10
  const Z: real := 1.96

  /** A square root of each non-negative real. */
  ghost predicate TakesRoots(sqrt: real -> real)
  {
    forall x :: x >= 0.0 ==> sqrt(x) >= 0.0 && sqrt(x) * sqrt(x) == x
  }

  function Rate(numerator: nat, denominator: nat): real
    requires denominator > 0
  {
    numerator as real / denominator as real
  }

  /** The radicand of the source's `math.sqrt`. */
  function Radicand(p: real, n: nat): real
    requires n > 0
  {
    var m := n as real;
    p * (1.0 - p) / m + Z * Z / (4.0 * m * m)
  }

  function Center(p: real, n: nat): real
    requires n > 0
  {
    var m := n as real;
    (p + Z * Z / (2.0 * m)) / (1.0 + Z * Z / m)
  }

  function Spread(p: real, n: nat, sqrt: real -> real): real
    requires n > 0
  {
    var m := n as real;
    (Z / (1.0 + Z * Z / m)) * sqrt(Radicand(p, n))
  }

  /** `round(x, 4)`: to the nearest ten-thousandth, ties to the even one. */
  function Round4(x: real): real
  {
    NearestEven(x * 10000.0) as real / 10000.0
  }

  function NearestEven(y: real): int
  {
    var f := y.Floor;
    var d := y - f as real;
    if d < 0.5 then f
    else if d > 0.5 then f + 1
    else if f % 2 == 0 then f else f + 1
  }

  function Max(a: real, b: real): real
  {
    if a < b then b else a
  }

  function Min(a: real, b: real): real
  {
    if b < a then b else a
  }

  datatype Interval = NoInterval | Interval(low: real, high: real)

  /** `_wilson`. */
  function WilsonInterval(numerator: nat, denominator: nat, sqrt: real -> real): Interval
  {
    if denominator < MIN_CI_SAMPLE then NoInterval
    else
      var p := Rate(numerator, denominator);
      var center, spread := Center(p, denominator), Spread(p, denominator, sqrt);
      Interval(Round4(Max(0.0, center - spread)), Round4(Min(1.0, center + spread)))
  }

  // ---- rounding ----

  lemma NearestEvenMonotone(x: real, y: real)
    requires x <= y
    ensures NearestEven(x) <= NearestEven(y)
  {
    assert x.Floor <= y.Floor;
  }

  lemma RoundMonotone(x: real, y: real)
    requires x <= y
    ensures Round4(x) <= Round4(y)
  {
    NearestEvenMonotone(x * 10000.0, y * 10000.0);
  }

  lemma RoundKeepsUnit(x: real)
    requires 0.0 <= x <= 1.0
    ensures 0.0 <= Round4(x) <= 1.0
  {
    RoundMonotone(0.0, x);
    RoundMonotone(x, 1.0);
    assert NearestEven(0.0) == 0 && NearestEven(10000.0) == 10000;
  }

  /** The nearest whole number, and the even one of two that are equally near. */
  lemma NearestEvenIsNearest(y: real)
    ensures var k := NearestEven(y);
      -0.5 <= k as real - y <= 0.5 && (k as real - y == 0.5 || k as real - y == -0.5 ==> k % 2 == 0)
  {
  }

  // ---- the interval in terms of q = Z * Z / n ----

  lemma NonNegative(x: real, y: real)
    requires x >= 0.0 && y >= 0.0
    ensures x * y >= 0.0
  {
  }

  lemma Positive(x: real, y: real)
    requires x > 0.0 && y > 0.0
    ensures x * y > 0.0
  {
  }

  lemma ProductGrows(x: real, y: real, k: real)
    requires x < y && k > 0.0
    ensures x * k < y * k
  {
    Positive(y - x, k);
    assert (y - x) * k == y * k - x * k;
  }

  lemma ProductAtLeast(x: real, y: real, k: real)
    requires x <= y && k >= 0.0
    ensures x * k <= y * k
  {
    NonNegative(y - x, k);
    assert (y - x) * k == y * k - x * k;
  }

  lemma SquareGrows(x: real, y: real)
    requires 0.0 <= x < y
    ensures x * x < y * y
  {
    assert y * y - x * x == (y - x) * (y + x);
    Positive(y - x, y + x);
  }

  lemma BoundedBySquares(a: real, b: real)
    requires b >= 0.0 && a * a <= b * b
    ensures -b <= a <= b
  {
    assert (-a) * (-a) == a * a;
    if a > b {
      SquareGrows(b, a);
    } else if -a > b {
      SquareGrows(b, -a);
    }
  }

  lemma Cancel(x: real, y: real, k: real)
    requires k > 0.0 && x * k <= y * k
    ensures x <= y
  {
    if x > y { ProductGrows(y, x, k); }
  }

  lemma CancelStrict(x: real, y: real, k: real)
    requires k > 0.0 && x * k < y * k
    ensures x < y
  {
    if x >= y { ProductAtLeast(y, x, k); }
  }

  function Q(n: nat): real
    requires n > 0
  {
    Z * Z / n as real
  }

  /** `w` is the spread before it is divided by `1 + q`. */
  function Width(p: real, n: nat, sqrt: real -> real): real
    requires n > 0
  {
    Z * sqrt(Radicand(p, n))
  }

  lemma ProductInUnit(p: real)
    requires 0.0 <= p <= 1.0
    ensures 0.0 <= p * (1.0 - p) <= 0.25
  {
    var d := p - 0.5;
    assert p * (1.0 - p) == 0.25 - d * d;
    assert d * d >= 0.0;
    NonNegative(p, 1.0 - p);
  }

  lemma RadicandInQ(p: real, n: nat)
    requires n > 0
    ensures Z * Z * Radicand(p, n) == Q(n) * (p * (1.0 - p)) + Q(n) * Q(n) / 4.0
  {
    var m, a, z2 := n as real, p * (1.0 - p), Z * Z;
    assert z2 * (a / m) == z2 / m * a;
    assert z2 * (z2 / (4.0 * m * m)) == (z2 / m) * (z2 / m) / 4.0 by {
      assert z2 / (4.0 * m * m) == z2 / m / m / 4.0;
    }
  }

  /** Center, spread and square in terms of `q`. */
  lemma InTermsOfQ(p: real, n: nat, sqrt: real -> real)
    requires n > 0 && 0.0 <= p <= 1.0 && TakesRoots(sqrt)
    ensures var q, w := Q(n), Width(p, n, sqrt);
      && q > 0.0 && w >= 0.0 && Spread(p, n, sqrt) >= 0.0
      && Center(p, n) * (1.0 + q) == p + q / 2.0
      && Spread(p, n, sqrt) * (1.0 + q) == w
      && w * w == q * (p * (1.0 - p)) + q * q / 4.0
  {
    var m, q, w := n as real, Q(n), Width(p, n, sqrt);
    ProductInUnit(p);
    assert Radicand(p, n) >= 0.0;
    var root := sqrt(Radicand(p, n));
    assert root >= 0.0 && root * root == Radicand(p, n);
    RadicandInQ(p, n);
    assert w * w == Z * Z * (root * root);
    assert Z * Z / (2.0 * m) == q / 2.0;
  }

  lemma OffsetBound(p: real, q: real, w: real)
    requires 0.0 <= p <= 1.0 && q > 0.0 && w >= 0.0
    requires w * w == q * (p * (1.0 - p)) + q * q / 4.0
    ensures -w <= q / 2.0 - q * p <= w
  {
    var a, d := p * (1.0 - p), q * (0.5 - p);
    ProductInUnit(p);
    NonNegative(q, a);
    NonNegative(q * q, a);
    assert d * d == q * q * (0.25 - a) by {
      assert (0.5 - p) * (0.5 - p) == 0.25 - a;
      assert d * d == (q * q) * ((0.5 - p) * (0.5 - p));
    }
    assert (q * q) * (0.25 - a) == q * q / 4.0 - q * q * a;
    BoundedBySquares(d, w);
    assert d == q / 2.0 - q * p;
  }

  /** The interval contains the observed rate. */
  lemma IntervalContainsRate(p: real, n: nat, sqrt: real -> real)
    requires n > 0 && 0.0 <= p <= 1.0 && TakesRoots(sqrt)
    ensures Center(p, n) - Spread(p, n, sqrt) <= p <= Center(p, n) + Spread(p, n, sqrt)
  {
    var q, w := Q(n), Width(p, n, sqrt);
    InTermsOfQ(p, n, sqrt);
    OffsetBound(p, q, w);
    Scaled(Center(p, n), Spread(p, n, sqrt), 1.0 + q);
    assert p * (1.0 + q) == p + q * p;
    Cancel(Center(p, n) - Spread(p, n, sqrt), p, 1.0 + q);
    Cancel(p, Center(p, n) + Spread(p, n, sqrt), 1.0 + q);
  }

  lemma Scaled(c: real, s: real, k: real)
    ensures (c - s) * k == c * k - s * k && (c + s) * k == c * k + s * k
  {
  }

  /** The interval lies in [0, 1] without the clamps. */
  lemma IntervalInUnit(p: real, n: nat, sqrt: real -> real)
    requires n > 0 && 0.0 <= p <= 1.0 && TakesRoots(sqrt)
    ensures 0.0 <= Center(p, n) - Spread(p, n, sqrt) && Center(p, n) + Spread(p, n, sqrt) <= 1.0
  {
    var q, w := Q(n), Width(p, n, sqrt);
    InTermsOfQ(p, n, sqrt);
    WidthBound(p, q, w);
    assert p * (1.0 - p) == (1.0 - p) * (1.0 - (1.0 - p));
    WidthBound(1.0 - p, q, w);
    UnitBounds(p, q, w, Center(p, n), Spread(p, n, sqrt));
  }

  lemma UnitBounds(p: real, q: real, w: real, c: real, s: real)
    requires q > 0.0 && c * (1.0 + q) == p + q / 2.0 && s * (1.0 + q) == w
    requires w <= p + q / 2.0 && w <= (1.0 - p) + q / 2.0
    ensures 0.0 <= c - s && c + s <= 1.0
  {
    var k := 1.0 + q;
    Scaled(c, s, k);
    assert 0.0 * k == 0.0 && 1.0 * k == k;
    Cancel(0.0, c - s, k);
    Cancel(c + s, 1.0, k);
  }

  lemma WidthBound(p: real, q: real, w: real)
    requires 0.0 <= p && q > 0.0 && w >= 0.0
    requires w * w == q * (p * (1.0 - p)) + q * q / 4.0
    ensures w <= p + q / 2.0
  {
    var t := p + q / 2.0;
    assert t * t == p * p + p * q + q * q / 4.0;
    assert q * (p * (1.0 - p)) == p * q - q * (p * p);
    assert p * p >= 0.0 && q * (p * p) >= 0.0;
    BoundedBySquares(w, t);
  }

  // ---- narrowing ----

  lemma RatioGrows(a: real, q: real, r: real)
    requires 0.0 <= a <= 0.25 && 0.0 < q < r
    ensures (q * a + q * q / 4.0) * ((1.0 + r) * (1.0 + r)) < (r * a + r * r / 4.0) * ((1.0 + q) * (1.0 + q))
  {
    RatioGain(a, q, r);
    Positive(r - q, a * (1.0 - q * r) + (r + q + 2.0 * (q * r)) / 4.0);
    RatioDifference(a, q, r);
  }

  lemma RatioGain(a: real, q: real, r: real)
    requires 0.0 <= a <= 0.25 && 0.0 < q < r
    ensures a * (1.0 - q * r) + (r + q + 2.0 * (q * r)) / 4.0 > 0.0
  {
    var qr := q * r;
    Positive(q, r);
    NonNegative(0.25 - a, qr);
    assert (0.25 - a) * qr == 0.25 * qr - a * qr;
    assert a * (1.0 - qr) == a - a * qr;
  }

  lemma RatioDifference(a: real, q: real, r: real)
    ensures (r * a + r * r / 4.0) * ((1.0 + q) * (1.0 + q)) - (q * a + q * q / 4.0) * ((1.0 + r) * (1.0 + r)) ==
            (r - q) * (a * (1.0 - q * r) + (r + q + 2.0 * (q * r)) / 4.0)
  {
    var u, v := (1.0 + q) * (1.0 + q), (1.0 + r) * (1.0 + r);
    assert (r * a + r * r / 4.0) * u == a * (r * u) + r * r * u / 4.0;
    assert (q * a + q * q / 4.0) * v == a * (q * v) + q * q * v / 4.0;
    assert r * u - q * v == (r - q) * (1.0 - q * r);
    assert r * r * u - q * q * v == (r - q) * (r + q + 2.0 * (q * r));
  }

  lemma QFalls(n: nat, m: nat)
    requires 0 < n < m
    ensures Q(m) < Q(n)
  {
    var x, y := n as real, m as real;
    assert Q(n) * x == Z * Z && Q(m) * y == Z * Z;
    assert Q(m) > 0.0;
    ProductGrows(x, y, Q(m));
    CancelStrict(Q(m), Q(n), x);
  }

  /** At one rate the interval narrows strictly as the sample grows. */
  lemma IntervalNarrows(p: real, n: nat, m: nat, sqrt: real -> real)
    requires 0 < n < m && 0.0 <= p <= 1.0 && TakesRoots(sqrt)
    ensures Spread(p, m, sqrt) < Spread(p, n, sqrt)
  {
    var q, r := Q(m), Q(n);
    InTermsOfQ(p, m, sqrt);
    InTermsOfQ(p, n, sqrt);
    QFalls(n, m);
    ProductInUnit(p);
    RatioGrows(p * (1.0 - p), q, r);
    var a := p * (1.0 - p);
    SpreadsCompare(Spread(p, m, sqrt), Spread(p, n, sqrt), 1.0 + q, 1.0 + r, q * a + q * q / 4.0, r * a + r * r / 4.0);
  }

  lemma SpreadsCompare(s: real, t: real, k: real, l: real, x: real, y: real)
    requires k > 0.0 && l > 0.0 && s >= 0.0 && t >= 0.0
    requires (s * k) * (s * k) == x && (t * l) * (t * l) == y && x * (l * l) < y * (k * k)
    ensures s < t
  {
    var scale := k * k * (l * l);
    assert scale > 0.0;
    assert (s * k) * (s * k) * (l * l) == s * s * scale;
    assert (t * l) * (t * l) * (k * k) == t * t * scale;
    if s >= t {
      SquareAtLeast(t, s);
      ScaledAtLeast(t * t, s * s, scale);
    }
  }

  lemma SquareAtLeast(x: real, y: real)
    requires 0.0 <= x <= y
    ensures x * x <= y * y
  {
    if x < y { SquareGrows(x, y); }
  }

  lemma ScaledAtLeast(x: real, y: real, k: real)
    requires x <= y && k > 0.0
    ensures x * k <= y * k
  {
  }

  // ---- where the interval ends ----

  lemma SquareOfSum(b: real, w: real)
    ensures (b + w) * (b + w) - (2.0 * b) * (b + w) == w * w - b * b
  {
    assert (b + w) * (b + w) == b * b + 2.0 * (b * w) + w * w;
    assert (2.0 * b) * (b + w) == 2.0 * (b * b) + 2.0 * (b * w);
  }

  lemma Expanded(p: real, q: real, x: real)
    ensures (x - p) * (x - p) - q * (x * (1.0 - x)) == (1.0 + q) * (x * x) - (2.0 * p + q) * x + p * p
  {
    assert (x - p) * (x - p) == x * x - 2.0 * (p * x) + p * p;
    assert x * (1.0 - x) == x - x * x;
    assert q * (x - x * x) == q * x - q * (x * x);
    assert (1.0 + q) * (x * x) == x * x + q * (x * x);
    assert (2.0 * p + q) * x == 2.0 * (p * x) + q * x;
  }

  lemma Lifted(p: real, q: real, x: real)
    ensures ((1.0 + q) * (x * x) - (2.0 * p + q) * x + p * p) * (1.0 + q) ==
      (x * (1.0 + q)) * (x * (1.0 + q)) - (2.0 * p + q) * (x * (1.0 + q)) + p * p * (1.0 + q)
  {
    var k, a, b, c := 1.0 + q, x * x, (2.0 * p + q), p * p;
    assert (k * a - b * x + c) * k == (k * a) * k - (b * x) * k + c * k;
    assert (k * a) * k == (x * k) * (x * k);
    assert (b * x) * k == b * (x * k);
  }

  /** `x` times `1 + q` being `p + q / 2`, less or more the width. */
  lemma ScoreRoot(p: real, q: real, w: real, x: real)
    requires q > 0.0 && x * (1.0 + q) == p + q / 2.0 + w && w * w == q * (p * (1.0 - p)) + q * q / 4.0
    ensures (x - p) * (x - p) == q * (x * (1.0 - x))
  {
    var b, e := p + q / 2.0, (x - p) * (x - p) - q * (x * (1.0 - x));
    Expanded(p, q, x);
    Lifted(p, q, x);
    SquareOfSum(b, w);
    assert 2.0 * p + q == 2.0 * b;
    assert b * b == p * p + p * q + q * q / 4.0;
    assert q * (p * (1.0 - p)) == p * q - p * p * q;
    assert p * p * (1.0 + q) == p * p + p * p * q;
    assert e * (1.0 + q) == 0.0;
    Cancel(e, 0.0, 1.0 + q);
    Cancel(0.0, e, 1.0 + q);
  }

  /** The interval ends at the two rates `x` whose distance from the observed one is 1.96 standard errors of `x`
      itself: Wilson's score interval at 95 percent. */
  lemma IntervalEndsAtScore(p: real, n: nat, sqrt: real -> real, x: real)
    requires n > 0 && 0.0 <= p <= 1.0 && TakesRoots(sqrt)
    requires x == Center(p, n) - Spread(p, n, sqrt) || x == Center(p, n) + Spread(p, n, sqrt)
    ensures (x - p) * (x - p) == 1.96 * 1.96 / n as real * (x * (1.0 - x))
  {
    var q, w := Q(n), Width(p, n, sqrt);
    InTermsOfQ(p, n, sqrt);
    Scaled(Center(p, n), Spread(p, n, sqrt), 1.0 + q);
    if x == Center(p, n) + Spread(p, n, sqrt) {
      ScoreRoot(p, q, w, x);
    } else {
      assert (-w) * (-w) == w * w;
      ScoreRoot(p, q, -w, x);
    }
  }

  /** The clamps are idle: the reported interval is the unclamped one to four places, from ten outcomes on. */
  lemma ClampsAreIdle(numerator: nat, denominator: nat, sqrt: real -> real)
    requires numerator <= denominator && denominator > 0 && TakesRoots(sqrt)
    ensures var p := numerator as real / denominator as real;
      WilsonInterval(numerator, denominator, sqrt) ==
        if denominator < 10 then NoInterval
        else Interval(Round4(Center(p, denominator) - Spread(p, denominator, sqrt)),
                      Round4(Center(p, denominator) + Spread(p, denominator, sqrt)))
  {
    var p, d := Rate(numerator, denominator), denominator as real;
    assert p * d == numerator as real;
    Cancel(0.0, p, d);
    Cancel(p, 1.0, d);
    IntervalInUnit(p, denominator, sqrt);
  }
}
