/**
 Estimating reach from a sample (internal/audience/reach): the Wilson score interval of the match rate,
 scaled to the population and rounded. Arithmetic is exact; the square root is given.
 */
module Reach {
  import opened Wrappers
  import E = Evaluator

  // ---- The interval ----

  datatype Interval = Interval(low: real, center: real, high: real)

  lemma {:induction false} SquareIsNotNegative(x: real)
    ensures x * x >= 0.0
  {
    if x < 0.0 { assert x * x == (-x) * (-x); }
  }

  lemma {:induction false} Ratio(x: real, y: real)
    requires x >= 0.0 && y > 0.0
    ensures x / y >= 0.0
  {
  }

  function Product(x: real, y: real): (r: real)
    requires x > 0.0 && y > 0.0
    ensures r > 0.0
  {
    PositiveProduct(x, y);
    x * y
  }

  /** What the square root is taken of, for a rate `p` over `n` trials. */
  function Radicand(p: real, n: real, z: real): real
    requires n > 0.0
  {
    p * (1.0 - p) / n + Correction(z * z, n)
  }

  function Correction(z2: real, n: real): real
    requires n > 0.0
  {
    z2 / Product(4.0 * n, n)
  }

  function Center(p: real, n: real, z2: real): real
    requires n > 0.0 && z2 >= 0.0
  {
    Ratio(z2, n);
    (p + z2 / (2.0 * n)) / (1.0 + z2 / n)
  }

  function HalfWidth(n: real, z: real, z2: real, root: real): real
    requires n > 0.0 && z2 >= 0.0
  {
    Ratio(z2, n);
    (z / (1.0 + z2 / n)) * root
  }

  /** The interval before clamping. */
  function Unclamped(p: real, n: real, z: real, root: real): Interval
    requires n > 0.0
  {
    var z2 := z * z;
    SquareIsNotNegative(z);
    Around(Center(p, n, z2), HalfWidth(n, z, z2, root))
  }

  function Around(center: real, half: real): Interval {
    Interval(center - half, center, center + half)
  }

  function Rate(matches: nat, n: nat): real
    requires n > 0
  {
    matches as real / n as real
  }

  /** No trials, no interval; otherwise clamped to [0, 1]. */
  function Wilson(matches: nat, n: nat, z: real, root: real): Interval {
    if n == 0 then Interval(0.0, 0.0, 0.0)
    else
      var i := Unclamped(Rate(matches, n), n as real, z, root);
      Interval(if i.low < 0.0 then 0.0 else i.low, i.center, if i.high > 1.0 then 1.0 else i.high)
  }

  /** `root` is the square root of the radicand. */
  ghost predicate IsRoot(root: real, matches: nat, n: nat, z: real) {
    root >= 0.0 && (n > 0 ==> root * root == Radicand(Rate(matches, n), n as real, z))
  }

  // ---- Real arithmetic ----

  lemma {:induction false} NonNegative(x: real, y: real)
    requires x >= 0.0 && y >= 0.0
    ensures x * y >= 0.0
  {
  }

  lemma {:induction false} PositiveProduct(x: real, y: real)
    requires x > 0.0 && y > 0.0
    ensures x * y > 0.0
  {
  }

  lemma {:induction false} Associate(x: real, y: real, z: real)
    ensures x * (y * z) == (x * y) * z
  {
  }

  /** Division undoes multiplication. */
  lemma {:induction false} Quotient(x: real, y: real, q: real)
    requires y != 0.0 && q * y == x
    ensures x / y == q
  {
  }

  lemma {:induction false} TimesQuotient(x: real, y: real)
    requires y != 0.0
    ensures (x / y) * y == x
  {
  }

  lemma {:induction false} SmallerSquare(x: real, y: real)
    requires y >= 0.0 && x * x <= y * y
    ensures x <= y
  {
    assert (x - y) * (x + y) == x * x - y * y;
    if x > y {
      PositiveProduct(x - y, x + y);
    }
  }

  lemma {:induction false} Divided(x: real, y: real, d: real)
    requires d > 0.0 && x <= y
    ensures x / d <= y / d
  {
  }

  // ---- The bounds ----

  /** Twice the square of `z` root, without the division: `a` is z^2/n. */
  function Cleared(p: real, a: real): real {
    a * (p * (1.0 - p)) + a * a / 4.0
  }

  lemma {:induction false} LowMargin(p: real, a: real)
    requires 0.0 <= p && a >= 0.0
    ensures Cleared(p, a) <= (p + a / 2.0) * (p + a / 2.0)
  {
    NonNegative(p, p);
    NonNegative(a, p * p);
    assert (p + a / 2.0) * (p + a / 2.0) == p * p + p * a + a * a / 4.0;
    assert p * (1.0 - p) == p - p * p;
    assert a * (p - p * p) == a * p - a * (p * p);
    assert a * p == p * a;
  }

  lemma {:induction false} SameCleared(p: real, a: real)
    ensures Cleared(1.0 - p, a) == Cleared(p, a)
  {
    assert p * (1.0 - p) == (1.0 - p) * (1.0 - (1.0 - p));
  }

  lemma {:induction false} RateMargin(p: real, a: real)
    requires 0.0 <= p <= 1.0 && a >= 0.0
    ensures (a / 2.0 - p * a) * (a / 2.0 - p * a) <= Cleared(p, a)
    ensures (p * a - a / 2.0) * (p * a - a / 2.0) <= Cleared(p, a)
  {
    var v, h := p * (1.0 - p), 0.5 - p;
    NonNegative(p, 1.0 - p);
    NonNegative(a, a);
    NonNegative(a * a, v);
    NonNegative(a, v);
    assert a / 2.0 - p * a == a * h;
    assert h * h == 0.25 - v;
    assert (a * h) * (a * h) == (a * a) * (h * h);
    assert (a * a) * (0.25 - v) == a * a / 4.0 - (a * a) * v;
    assert p * a - a / 2.0 == -(a * h);
    assert (-(a * h)) * (-(a * h)) == (a * h) * (a * h);
  }

  lemma {:induction false} ClearedBounds(p: real, a: real, w: real)
    requires 0.0 <= p <= 1.0 && a >= 0.0 && w >= 0.0 && w * w == Cleared(p, a)
    ensures 0.0 <= p + a / 2.0 - w
    ensures p + a / 2.0 + w <= 1.0 + a
    ensures p + a / 2.0 - w <= p + p * a <= p + a / 2.0 + w
  {
    LowEnd(p, a, w);
    SameCleared(p, a);
    LowEnd(1.0 - p, a, w);
    RateInside(p, a, w);
  }

  lemma {:induction false} LowEnd(p: real, a: real, w: real)
    requires 0.0 <= p && a >= 0.0 && w * w == Cleared(p, a)
    ensures w <= p + a / 2.0
  {
    LowMargin(p, a);
    SmallerSquare(w, p + a / 2.0);
  }

  lemma {:induction false} RateInside(p: real, a: real, w: real)
    requires 0.0 <= p <= 1.0 && a >= 0.0 && w >= 0.0 && w * w == Cleared(p, a)
    ensures a / 2.0 - p * a <= w && p * a - a / 2.0 <= w
  {
    RateMargin(p, a);
    SmallerSquare(a / 2.0 - p * a, w);
    SmallerSquare(p * a - a / 2.0, w);
  }

  lemma {:induction false} CenterIs(p: real, n: real, z2: real, a: real)
    requires n > 0.0 && z2 >= 0.0 && a == z2 / n && a >= 0.0
    ensures Center(p, n, z2) == (p + a / 2.0) / (1.0 + a)
  {
    HalfTerm(z2, n);
  }

  lemma {:induction false} HalfWidthIs(n: real, z: real, z2: real, root: real, a: real, w: real)
    requires n > 0.0 && z2 >= 0.0 && a == z2 / n && a >= 0.0 && w == z * root
    ensures HalfWidth(n, z, z2, root) == w / (1.0 + a)
  {
    ScaledRoot(z, root, 1.0 + a);
  }

  /** The interval in terms of the cleared quantities. */
  lemma {:induction false} UnclampedIs(p: real, n: real, z: real, root: real, a: real, w: real)
    requires n > 0.0 && a >= 0.0 && a == z * z / n && w == z * root
    ensures Unclamped(p, n, z, root) == Interval((p + a / 2.0 - w) / (1.0 + a), (p + a / 2.0) / (1.0 + a), (p + a / 2.0 + w) / (1.0 + a))
  {
    SquareIsNotNegative(z);
    CenterIs(p, n, z * z, a);
    HalfWidthIs(n, z, z * z, root, a, w);
    AroundIs(p + a / 2.0, w, 1.0 + a);
  }

  lemma {:induction false} AroundIs(x: real, w: real, d: real)
    requires d > 0.0
    ensures Around(x / d, w / d) == Interval((x - w) / d, x / d, (x + w) / d)
  {
    Spread(x, w, d);
  }

  lemma {:induction false} HalfTerm(z2: real, n: real)
    requires n > 0.0
    ensures z2 / (2.0 * n) == z2 / n / 2.0
  {
    var a := z2 / n;
    TimesQuotient(z2, n);
    assert (a / 2.0) * (2.0 * n) == a * n;
    Quotient(z2, 2.0 * n, a / 2.0);
  }

  lemma {:induction false} ScaledRoot(z: real, root: real, d: real)
    requires d > 0.0
    ensures (z / d) * root == (z * root) / d
  {
    var u := z / d;
    TimesQuotient(z, d);
    assert (u * root) * d == (u * d) * root;
    Quotient(z * root, d, u * root);
  }

  lemma {:induction false} Spread(x: real, w: real, d: real)
    requires d > 0.0
    ensures x / d - w / d == (x - w) / d && x / d + w / d == (x + w) / d
  {
  }

  lemma {:induction false} CorrectionIs(z2: real, n: real, a: real, c: real)
    requires n > 0.0 && a == z2 / n && c == Correction(z2, n)
    ensures c * n == a / 4.0 && z2 * c == a * a / 4.0
  {
    TimesQuotient(z2, n);
    TimesQuotient(z2, Product(4.0 * n, n));
    Fourfold(c, n);
    Cancel(4.0 * (c * n), a, n);
    assert z2 * c == (a * n) * c;
    Associate(a, n, c);
  }

  lemma {:induction false} Fourfold(c: real, n: real)
    requires n > 0.0
    ensures c * Product(4.0 * n, n) == (4.0 * (c * n)) * n
  {
  }

  lemma {:induction false} Cancel(x: real, y: real, n: real)
    requires n > 0.0 && x * n == y * n
    ensures x == y
  {
    if x > y { PositiveProduct(x - y, n); }
    if x < y { PositiveProduct(y - x, n); }
  }

  lemma {:induction false} SquareOfProduct(z: real, root: real)
    ensures (z * root) * (z * root) == (z * z) * (root * root)
  {
  }

  lemma {:induction false} SpreadOver(z2: real, n: real, v: real, c: real, a: real)
    requires n > 0.0 && a == z2 / n
    ensures z2 * (v / n + c) == a * v + z2 * c
  {
    var q := v / n;
    TimesQuotient(v, n);
    TimesQuotient(z2, n);
    assert z2 * q == (a * n) * q;
    Associate(a, n, q);
    assert n * q == v;
  }

  lemma {:induction false} RootIs(p: real, n: real, z: real, root: real, a: real)
    requires n > 0.0 && a == z * z / n && root * root == Radicand(p, n, z)
    ensures (z * root) * (z * root) == Cleared(p, a)
  {
    var z2, c := z * z, Correction(z * z, n);
    SquareOfProduct(z, root);
    CorrectionIs(z2, n, a, c);
    SpreadOver(z2, n, p * (1.0 - p), c, a);
  }

  lemma {:induction false} Proportion(matches: nat, n: nat)
    requires 0 < n && matches <= n
    ensures 0.0 <= Rate(matches, n) <= 1.0
  {
    Divided(0.0, matches as real, n as real);
    Divided(matches as real, n as real, n as real);
    Quotient(n as real, n as real, 1.0);
    Quotient(0.0, n as real, 0.0);
  }

  lemma {:induction false} BoundsInOrder(p: real, a: real, w: real)
    requires 0.0 <= p <= 1.0 && a >= 0.0 && w >= 0.0 && w * w == Cleared(p, a)
    ensures var d := 1.0 + a;
            && 0.0 <= (p + a / 2.0 - w) / d <= (p + a / 2.0) / d <= (p + a / 2.0 + w) / d <= 1.0
            && (p + a / 2.0 - w) / d <= p <= (p + a / 2.0 + w) / d
  {
    ClearedBounds(p, a, w);
    assert p * (1.0 + a) == p + p * a;
    DividedInOrder(p + a / 2.0 - w, p + a / 2.0, p + a / 2.0 + w, p + p * a, p, 1.0 + a);
  }

  lemma {:induction false} DividedInOrder(low: real, center: real, high: real, rate: real, p: real, d: real)
    requires d > 0.0 && 0.0 <= low <= center <= high <= d && low <= rate <= high && p * d == rate
    ensures 0.0 <= low / d <= center / d <= high / d <= 1.0
    ensures low / d <= p <= high / d
  {
    Divided(0.0, low, d);
    Divided(low, center, d);
    Divided(center, high, d);
    Divided(high, d, d);
    Divided(low, rate, d);
    Divided(rate, high, d);
    Quotient(rate, d, p);
    Quotient(d, d, 1.0);
    Quotient(0.0, d, 0.0);
  }

  /** The interval before clamping already lies in [0, 1], in order, and contains the observed rate. */
  lemma {:induction false} WilsonContainsTheRate(matches: nat, n: nat, z: real, root: real)
    requires 0 < n && matches <= n && z >= 0.0 && IsRoot(root, matches, n, z)
    ensures var i := Unclamped(Rate(matches, n), n as real, z, root);
            && 0.0 <= i.low <= i.center <= i.high <= 1.0
            && i.low <= Rate(matches, n) <= i.high
            && Wilson(matches, n, z, root) == i
  {
    var p, nf := Rate(matches, n), n as real;
    var a := z * z / nf;
    SquareIsNotNegative(z);
    Ratio(z * z, nf);
    Proportion(matches, n);
    NonNegative(z, root);
    RootIs(p, nf, z, root, a);
    UnclampedIs(p, nf, z, root, a, z * root);
    BoundsInOrder(p, a, z * root);
  }

  // ---- The estimate ----

  datatype Estimate = Estimate(population: nat, sample: nat, count: int, low: int, high: int)

  /** `math.Round` of a non-negative number. */
  function Rounded(x: real): int {
    (x + 0.5).Floor
  }

  /** A proportion of the population, rounded to channels. */
  function Share(x: real, population: nat): int {
    Rounded(x * population as real)
  }

  datatype ReachError = BadSampleSize | EvaluationFailed

  function Matches(verdicts: seq<E.Verdict>): (m: nat)
    ensures m <= |verdicts|
  {
    if verdicts == [] then 0
    else Matches(verdicts[..|verdicts| - 1]) + if verdicts[|verdicts| - 1] == E.Matched(true) then 1 else 0
  }

  function Scaled(population: nat, matches: nat, n: nat, z: real, root: real): Estimate {
    var i := Wilson(matches, n, z, root);
    Estimate(population, n, Share(i.center, population), Share(i.low, population), Share(i.high, population))
  }

  /**
   The estimate over a sample's verdicts: an empty population needs no sample, and one evaluation error
   fails the whole. The count, its bounds and the population are in order.
   */
  method EstimateReach(population: nat, sampleSize: int, verdicts: seq<E.Verdict>, z: real, root: real) returns (r: Result<Estimate, ReachError>)
    requires z >= 0.0 && IsRoot(root, Matches(verdicts), |verdicts|, z)
    ensures r == Err(BadSampleSize) <==> sampleSize <= 0
    ensures r == Err(EvaluationFailed) <==> sampleSize > 0 && population > 0 && E.Failed in verdicts
    ensures r.Ok? && population > 0 ==> r.value == Scaled(population, Matches(verdicts), |verdicts|, z, root)
    ensures r.Ok? && population == 0 ==> r.value == Estimate(0, 0, 0, 0, 0)
    ensures r.Ok? ==> 0 <= r.value.low <= r.value.count <= r.value.high <= r.value.population == population
  {
    if sampleSize <= 0 { return Err(BadSampleSize); }
    if population == 0 { return Ok(Estimate(0, 0, 0, 0, 0)); }
    var sampled, matches := 0, 0;
    for i := 0 to |verdicts|
      invariant sampled == i && matches == Matches(verdicts[..i]) && E.Failed !in verdicts[..i]
    {
      assert verdicts[..i + 1][..i] == verdicts[..i];
      if verdicts[i].Failed? { return Err(EvaluationFailed); }
      sampled := sampled + 1;
      if verdicts[i].b { matches := matches + 1; }
    }
    assert verdicts[..|verdicts|] == verdicts;
    RoundedInOrder(population, matches, sampled, z, root);
    r := Ok(Scaled(population, matches, sampled, z, root));
  }

  lemma {:induction false} WilsonInOrder(matches: nat, n: nat, z: real, root: real)
    requires matches <= n && z >= 0.0 && IsRoot(root, matches, n, z)
    ensures var i := Wilson(matches, n, z, root); 0.0 <= i.low <= i.center <= i.high <= 1.0
  {
    if n > 0 { WilsonContainsTheRate(matches, n, z, root); }
  }

  lemma {:induction false} RoundedInOrder(population: nat, matches: nat, n: nat, z: real, root: real)
    requires matches <= n && z >= 0.0 && IsRoot(root, matches, n, z)
    ensures var e := Scaled(population, matches, n, z, root);
            0 <= e.low <= e.count <= e.high <= population
  {
    WilsonInOrder(matches, n, z, root);
    var i := Wilson(matches, n, z, root);
    ShareMonotone(0.0, i.low, population);
    ShareMonotone(i.low, i.center, population);
    ShareMonotone(i.center, i.high, population);
    ShareMonotone(i.high, 1.0, population);
    WholeAndNone(population);
  }

  lemma {:induction false} ShareMonotone(x: real, y: real, population: nat)
    requires x <= y
    ensures Share(x, population) <= Share(y, population)
  {
    Multiplied(x, y, population as real);
    RoundedMonotone(x * population as real, y * population as real);
  }

  lemma {:induction false} WholeAndNone(population: nat)
    ensures Share(0.0, population) == 0 && Share(1.0, population) == population
  {
  }

  lemma {:induction false} Multiplied(x: real, y: real, k: real)
    requires x <= y && k >= 0.0
    ensures x * k <= y * k
  {
  }

  lemma {:induction false} RoundedMonotone(x: real, y: real)
    requires x <= y
    ensures Rounded(x) <= Rounded(y)
  {
  }
}
