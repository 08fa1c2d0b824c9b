/**
 What an estimate of reach is: the two rates a score test does not tell from the observed one, and their
 middle, each times the population to the nearest channel.
 */
module ReachMeaning {
  import opened Reach
  import E = Evaluator

  // ---- The interval ----

  /** A true rate `x` lies exactly `z` standard errors of its own from the observed rate `p` over `n` trials. */
  ghost predicate AtTheLimit(x: real, p: real, n: real, z: real) {
    n * ((x - p) * (x - p)) == (z * z) * (x * (1.0 - x))
  }

  lemma {:induction false} Divisible(x: real, p: real, n: real, z: real, a: real)
    requires n > 0.0 && a == z * z / n
    ensures AtTheLimit(x, p, n, z) <==> (x - p) * (x - p) == a * (x * (1.0 - x))
  {
    var square, spread := (x - p) * (x - p), x * (1.0 - x);
    TimesQuotient(z * z, n);
    assert (z * z) * spread == (a * n) * spread;
    Reordered(a, n, spread);
    if square * n == (a * spread) * n { Cancel(square, a * spread, n); }
  }

  lemma {:induction false} Reordered(a: real, n: real, s: real)
    ensures (a * n) * s == (a * s) * n
  {
  }

  /** Completing the square. */
  lemma {:induction false} Completed(x: real, p: real, a: real)
    ensures var d, y := 1.0 + a, (1.0 + a) * x - (p + a / 2.0);
            d * ((x - p) * (x - p) - a * (x * (1.0 - x))) == y * y - Cleared(p, a)
  {
    var c := p + a / 2.0;
    var d := 1.0 + a;
    assert (x - p) * (x - p) - a * (x * (1.0 - x)) == d * (x * x) - 2.0 * (x * c) + p * p;
    assert d * (d * (x * x)) == (d * x) * (d * x);
    assert d * (2.0 * (x * c)) == 2.0 * ((d * x) * c);
    assert (d * x - c) * (d * x - c) == (d * x) * (d * x) - 2.0 * ((d * x) * c) + c * c;
    Constant(p, a);
  }

  lemma {:induction false} Constant(p: real, a: real)
    ensures (1.0 + a) * (p * p) == (p + a / 2.0) * (p + a / 2.0) - Cleared(p, a)
  {
    var q := p * p;
    assert (p + a / 2.0) * (p + a / 2.0) == q + p * a + a * a / 4.0;
    assert p * (1.0 - p) == p - q;
    assert a * (p - q) == a * p - a * q;
  }

  lemma {:induction false} SameSquare(y: real, w: real)
    ensures y * y == w * w <==> y == w || y == -w
  {
    assert (y - w) * (y + w) == y * y - w * w;
  }

  lemma {:induction false} Vanishes(d: real, t: real)
    requires d > 0.0
    ensures d * t == 0.0 <==> t == 0.0
  {
  }

  lemma {:induction false} Solved(x: real, c: real, w: real, d: real)
    requires d > 0.0
    ensures d * x - c == w <==> x == (c + w) / d
  {
    TimesQuotient(c + w, d);
    if d * x - c == w { Quotient(c + w, d, x); }
  }

  /** The ends of the interval are exactly the rates at the limit: for every rate there is. */
  lemma {:induction false} EndsAreAtTheLimit(matches: nat, n: nat, z: real, root: real, x: real)
    requires 0 < n && matches <= n && z >= 0.0 && IsRoot(root, matches, n, z)
    ensures var i := Wilson(matches, n, z, root);
            && (AtTheLimit(x, matches as real / n as real, n as real, z) <==> x == i.low || x == i.high)
            && i.low <= matches as real / n as real <= i.high && i.center == (i.low + i.high) / 2.0
  {
    var p, nf := Rate(matches, n), n as real;
    var a, w := z * z / nf, z * root;
    SquareIsNotNegative(z);
    Ratio(z * z, nf);
    WilsonContainsTheRate(matches, n, z, root);
    UnclampedIs(p, nf, z, root, a, w);
    RootIs(p, nf, z, root, a);
    Divisible(x, p, nf, z, a);
    LimitsSolved(x, p, a, w);
    Midway(p + a / 2.0, w, 1.0 + a);
  }

  lemma {:induction false} Midway(c: real, w: real, d: real)
    requires d > 0.0
    ensures c / d == ((c - w) / d + (c + w) / d) / 2.0
  {
    Spread(c, w, d);
  }

  lemma {:induction false} LimitsSolved(x: real, p: real, a: real, w: real)
    requires a >= 0.0 && w * w == Cleared(p, a)
    ensures (x - p) * (x - p) == a * (x * (1.0 - x))
            <==> x == (p + a / 2.0 - w) / (1.0 + a) || x == (p + a / 2.0 + w) / (1.0 + a)
  {
    var c, d := p + a / 2.0, 1.0 + a;
    Completed(x, p, a);
    Vanishes(d, (x - p) * (x - p) - a * (x * (1.0 - x)));
    SameSquare(d * x - c, w);
    Solved(x, c, w, d);
    Solved(x, c, -w, d);
  }

  // ---- The counts ----

  /** `k` channels are the share `x` of the population to the nearest channel, a half counting up. */
  ghost predicate Nearest(k: int, x: real, population: nat) {
    k as real - 0.5 <= x * population as real < k as real + 0.5
  }

  lemma {:induction false} SharesAreNearest(x: real, population: nat)
    ensures Nearest(Share(x, population), x, population)
  {
  }

  ghost function Matched(verdicts: seq<E.Verdict>): set<nat> {
    set i: nat | i < |verdicts| && verdicts[i] == E.Matched(true)
  }

  lemma {:induction false} MatchesAreCounted(verdicts: seq<E.Verdict>)
    ensures Matches(verdicts) == |Matched(verdicts)|
  {
    if verdicts != [] {
      var front := verdicts[..|verdicts| - 1];
      MatchesAreCounted(front);
      assert Matched(verdicts) == Matched(front) + if verdicts[|front|] == E.Matched(true) then {|front|} else {};
    }
  }

  ghost predicate Limits(low: real, high: real, p: real, n: real, z: real) {
    && low <= p <= high
    && forall x :: AtTheLimit(x, p, n, z) <==> x == low || x == high
  }

  /**
   The estimate from a sample: its bounds are the limits of the rate of the channels that matched, and its
   count their middle, of the population to the nearest channel.
   */
  lemma {:induction false} EstimateMeans(population: nat, verdicts: seq<E.Verdict>, z: real, root: real) returns (low: real, high: real)
    requires verdicts != [] && z >= 0.0 && IsRoot(root, Matches(verdicts), |verdicts|, z)
    ensures Limits(low, high, |Matched(verdicts)| as real / |verdicts| as real, |verdicts| as real, z)
    ensures var e := Scaled(population, Matches(verdicts), |verdicts|, z, root);
            && Nearest(e.low, low, population) && Nearest(e.count, (low + high) / 2.0, population) && Nearest(e.high, high, population)
            && e.population == population && e.sample == |verdicts|
  {
    var m, n := Matches(verdicts), |verdicts|;
    MatchesAreCounted(verdicts);
    var i := Wilson(m, n, z, root);
    low, high := i.low, i.high;
    var p, trials := m as real / n as real, n as real;
    forall x ensures AtTheLimit(x, p, trials, z) <==> x == low || x == high {
      EndsAreAtTheLimit(m, n, z, root, x);
    }
    EndsAreAtTheLimit(m, n, z, root, 0.0);
    SharesAreNearest(i.low, population);
    SharesAreNearest(i.center, population);
    SharesAreNearest(i.high, population);
  }
}
