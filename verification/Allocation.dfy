/**
 Turning percentage weights into bucket counts by largest remainder
 (internal/delivery/payload/payload.go, allocateExperimentBuckets) and assigning a variant with them.
 A share is an exact fraction: its remainder is in hundredths, where the program uses a float.
 */
module Allocation {
  import opened Wrappers
  import opened Ordering
  import opened RangeTables

  datatype Share = Share(id: string, floor: int, remainder: int)

  /** Go's integer conversion: toward zero. */
  function Truncated(numerator: int, denominator: int): int
    requires denominator > 0
  {
    if numerator >= 0 then numerator / denominator else -((-numerator) / denominator)
  }

  function WeightOf(weights: map<string, int>, id: string): int {
    if id in weights then weights[id] else 0
  }

  function ShareOf(weights: map<string, int>, total: int, id: string): Share {
    var exact := WeightOf(weights, id) * total;
    var floor := Truncated(exact, 100);
    Share(id, floor, exact - 100 * floor)
  }

  function Shares(ids: seq<string>, weights: map<string, int>, total: int): (r: seq<Share>)
    ensures |r| == |ids|
    ensures forall i :: 0 <= i < |ids| ==> r[i] == ShareOf(weights, total, ids[i])
  {
    seq(|ids|, i requires 0 <= i < |ids| => ShareOf(weights, total, ids[i]))
  }

  /** Larger remainders first, ties by identifier. */
  predicate Before(s: Share, t: Share) {
    s.remainder > t.remainder || (s.remainder == t.remainder && StringLe(s.id, t.id))
  }

  function FloorSum(shares: seq<Share>): int {
    if shares == [] then 0 else shares[0].floor + FloorSum(shares[1..])
  }

  /** The counts once the first `n` shares of the sorted list have been handed out. */
  function HandOut(sorted: seq<Share>, leftover: int, n: nat): map<string, int>
    requires n <= |sorted|
  {
    if n == 0 then map[]
    else
      var s := sorted[n - 1];
      HandOut(sorted, leftover, n - 1)[s.id := s.floor + if n - 1 < leftover then 1 else 0]
  }

  function Handed(sorted: seq<Share>, leftover: int): map<string, int> {
    HandOut(sorted, leftover, |sorted|)
  }

  function Allocate(ids: seq<string>, weights: map<string, int>, total: int): map<string, int> {
    var shares := Shares(ids, weights, total);
    Handed(Sort(shares, Before), total - FloorSum(shares))
  }

  method AllocateExperimentBuckets(ids: seq<string>, weights: map<string, int>, total: int)
    returns (buckets: map<string, int>)
    ensures buckets == Allocate(ids, weights, total)
  {
    var shares: seq<Share> := [];
    var flooredSum := 0;
    for i := 0 to |ids|
      invariant |shares| == i
      invariant forall k :: 0 <= k < i ==> shares[k] == ShareOf(weights, total, ids[k])
      invariant flooredSum == FloorSum(shares)
    {
      var share := ShareOf(weights, total, ids[i]);
      SumsSplit(shares, [share]);
      shares := shares + [share];
      flooredSum := flooredSum + share.floor;
    }
    assert shares == Shares(ids, weights, total);
    var leftover := total - flooredSum;
    var sorted := Sort(shares, Before);
    buckets := map[];
    for i := 0 to |sorted|
      invariant buckets == HandOut(sorted, leftover, i)
    {
      buckets := buckets[sorted[i].id := sorted[i].floor];
      if i < leftover {
        buckets := buckets[sorted[i].id := buckets[sorted[i].id] + 1];
      }
    }
  }

  // ---- What an allocation guarantees ----

  function WeightSum(ids: seq<string>, weights: map<string, int>): int {
    if ids == [] then 0 else WeightOf(weights, ids[0]) + WeightSum(ids[1..], weights)
  }

  /** The weights a language group is validated to have. */
  predicate Percentages(ids: seq<string>, weights: map<string, int>) {
    && Distinct(ids)
    && (forall id :: id in ids ==> WeightOf(weights, id) >= 0)
    && WeightSum(ids, weights) == 100
  }

  function RemainderSum(shares: seq<Share>): int {
    if shares == [] then 0 else shares[0].remainder + RemainderSum(shares[1..])
  }

  lemma {:induction false} ShareBounds(weights: map<string, int>, total: int, id: string)
    requires WeightOf(weights, id) >= 0 && total >= 0
    ensures var s := ShareOf(weights, total, id);
            0 <= s.remainder < 100 && 0 <= s.floor && WeightOf(weights, id) * total == 100 * s.floor + s.remainder
  {
    assert WeightOf(weights, id) * total >= 0;
  }

  lemma {:induction false} ShareIsExact(weights: map<string, int>, total: int, id: string)
    ensures var s := ShareOf(weights, total, id);
            WeightOf(weights, id) * total == 100 * s.floor + s.remainder
  {
  }

  lemma {:induction false} Distribute(a: int, b: int, total: int)
    ensures (a + b) * total == a * total + b * total
  {
  }

  /** The remainders add up to a hundred for every bucket the floors leave over. */
  lemma {:induction false} RemaindersMakeLeftover(ids: seq<string>, weights: map<string, int>, total: int)
    ensures var shares := Shares(ids, weights, total);
            RemainderSum(shares) == WeightSum(ids, weights) * total - 100 * FloorSum(shares)
  {
    if ids != [] {
      var shares, rest := Shares(ids, weights, total), Shares(ids[1..], weights, total);
      RemaindersMakeLeftover(ids[1..], weights, total);
      assert shares[1..] == rest;
      ShareIsExact(weights, total, ids[0]);
      Distribute(WeightOf(weights, ids[0]), WeightSum(ids[1..], weights), total);
      assert RemainderSum(shares) == shares[0].remainder + RemainderSum(rest);
      assert FloorSum(shares) == shares[0].floor + FloorSum(rest);
    }
  }

  lemma {:induction false} SumsSplit(a: seq<Share>, b: seq<Share>)
    ensures RemainderSum(a + b) == RemainderSum(a) + RemainderSum(b)
    ensures FloorSum(a + b) == FloorSum(a) + FloorSum(b)
  {
    if a == [] {
      assert a + b == b;
    } else {
      assert (a + b)[1..] == a[1..] + b;
      SumsSplit(a[1..], b);
    }
  }

  lemma {:induction false} SumsOfInsert(x: Share, s: seq<Share>)
    ensures RemainderSum(Insert(x, s, Before)) == x.remainder + RemainderSum(s)
    ensures FloorSum(Insert(x, s, Before)) == x.floor + FloorSum(s)
  {
    if s == [] || Before(x, s[0]) {
      assert ([x] + s)[1..] == s;
    } else {
      SumsOfInsert(x, s[1..]);
      assert Insert(x, s, Before)[1..] == Insert(x, s[1..], Before);
    }
  }

  lemma {:induction false} SumsOfSort(s: seq<Share>)
    ensures RemainderSum(Sort(s, Before)) == RemainderSum(s) && FloorSum(Sort(s, Before)) == FloorSum(s)
  {
    if s != [] {
      SumsOfSort(s[1..]);
      SumsOfInsert(s[0], Sort(s[1..], Before));
    }
  }

  lemma {:induction false} SumBelow(s: seq<Share>, p: nat)
    requires p <= |s|
    requires forall i :: 0 <= i < p ==> s[i].remainder <= 99
    requires forall i :: p <= i < |s| ==> s[i].remainder <= 0
    ensures RemainderSum(s) <= 99 * p
  {
    if s != [] {
      SumBelow(s[1..], if p == 0 then 0 else p - 1);
    }
  }

  /** Sorted by falling remainder, the leftover buckets all go to shares that were rounded down. */
  lemma {:induction false} LeftoverGoesToPositive(sorted: seq<Share>, n: nat, i: nat)
    requires forall i :: 0 <= i < |sorted| ==> 0 <= sorted[i].remainder < 100
    requires forall i, j :: 0 <= i < j < |sorted| ==> sorted[i].remainder >= sorted[j].remainder
    requires RemainderSum(sorted) >= 100 * n && i < n
    ensures i < |sorted| && sorted[i].remainder > 0
  {
    if i >= |sorted| {
      SumBelow(sorted, |sorted|);
    } else if sorted[i].remainder == 0 {
      SumBelow(sorted, i);
    }
  }

  lemma {:induction false} BeforeOrders(u: set<Share>)
    ensures Orders(u, Before)
  {
    forall x, y | x in u && y in u ensures Before(x, y) || Before(y, x) {
      StringLeTotal(x.id, y.id);
    }
    forall x, y, z | x in u && y in u && z in u && Before(x, y) && Before(y, z) ensures Before(x, z) {
      if x.remainder == y.remainder == z.remainder {
        StringLeTransitive(x.id, y.id, z.id);
      }
    }
  }

  // ---- The map built from the sorted shares ----

  ghost predicate Fresh(id: string, shares: seq<Share>) {
    forall s :: s in shares ==> s.id != id
  }

  ghost predicate DistinctIds(shares: seq<Share>) {
    shares == [] || (Fresh(shares[0].id, shares[1..]) && DistinctIds(shares[1..]))
  }

  lemma {:induction false} SharesDistinct(ids: seq<string>, weights: map<string, int>, total: int)
    requires Distinct(ids)
    ensures DistinctIds(Shares(ids, weights, total))
  {
    if ids != [] {
      assert Shares(ids, weights, total)[1..] == Shares(ids[1..], weights, total);
      SharesDistinct(ids[1..], weights, total);
      forall s | s in Shares(ids[1..], weights, total) ensures s.id != ids[0] {
        var k :| 0 <= k < |ids| - 1 && s == ShareOf(weights, total, ids[1..][k]);
      }
    }
  }

  lemma {:induction false} InsertDistinct(x: Share, s: seq<Share>)
    requires DistinctIds(s) && Fresh(x.id, s)
    ensures DistinctIds(Insert(x, s, Before))
  {
    if s == [] || Before(x, s[0]) {
      assert ([x] + s)[1..] == s;
    } else {
      var rest := Insert(x, s[1..], Before);
      InsertDistinct(x, s[1..]);
      assert Insert(x, s, Before)[1..] == rest;
      InsertPermutes(x, s[1..], Before);
      forall y | y in rest ensures y.id != s[0].id {
        assert y in multiset(rest);
      }
    }
  }

  lemma {:induction false} SortDistinct(s: seq<Share>)
    requires DistinctIds(s)
    ensures DistinctIds(Sort(s, Before))
  {
    if s != [] {
      SortDistinct(s[1..]);
      SortPermutes(s[1..], Before);
      forall y | y in Sort(s[1..], Before) ensures y.id != s[0].id {
        assert y in multiset(Sort(s[1..], Before));
      }
      InsertDistinct(s[0], Sort(s[1..], Before));
    }
  }

  lemma {:induction false} DistinctPair(s: seq<Share>, i: nat, j: nat)
    requires DistinctIds(s) && i < j < |s|
    ensures s[i].id != s[j].id
  {
    if i == 0 {
      assert s[j] == s[1..][j - 1];
    } else {
      DistinctPair(s[1..], i - 1, j - 1);
    }
  }

  function Portion(sorted: seq<Share>, leftover: int, i: nat): int
    requires i < |sorted|
  {
    sorted[i].floor + if i < leftover then 1 else 0
  }

  lemma {:induction false} HandedOut(sorted: seq<Share>, leftover: int, n: nat)
    requires DistinctIds(sorted) && n <= |sorted|
    ensures var m := HandOut(sorted, leftover, n);
            && (forall i :: 0 <= i < n ==> sorted[i].id in m && m[sorted[i].id] == Portion(sorted, leftover, i))
            && (forall id :: id in m ==> exists i :: 0 <= i < n && sorted[i].id == id)
  {
    if n > 0 {
      HandedOut(sorted, leftover, n - 1);
      forall i | 0 <= i < n - 1 ensures sorted[i].id != sorted[n - 1].id {
        DistinctPair(sorted, i, n - 1);
      }
    }
  }

  /** What `m` gives the shares in total. */
  function Given(shares: seq<Share>, m: map<string, int>): int {
    if shares == [] then 0 else WeightOf(m, shares[0].id) + Given(shares[1..], m)
  }

  lemma {:induction false} GivenOfInsert(x: Share, s: seq<Share>, m: map<string, int>)
    ensures Given(Insert(x, s, Before), m) == WeightOf(m, x.id) + Given(s, m)
  {
    if s == [] || Before(x, s[0]) {
      assert ([x] + s)[1..] == s;
    } else {
      GivenOfInsert(x, s[1..], m);
      assert Insert(x, s, Before)[1..] == Insert(x, s[1..], Before);
    }
  }

  lemma {:induction false} GivenOfSort(s: seq<Share>, m: map<string, int>)
    ensures Given(Sort(s, Before), m) == Given(s, m)
  {
    if s != [] {
      GivenOfSort(s[1..], m);
      GivenOfInsert(s[0], Sort(s[1..], Before), m);
    }
  }

  lemma {:induction false} GivenPortions(sorted: seq<Share>, leftover: int, m: map<string, int>, i: nat)
    requires i <= |sorted| && 0 <= leftover <= |sorted|
    requires forall k :: 0 <= k < |sorted| ==> sorted[k].id in m && m[sorted[k].id] == Portion(sorted, leftover, k)
    ensures Given(sorted[i..], m) == FloorSum(sorted[i..]) + if i < leftover then leftover - i else 0
    decreases |sorted| - i
  {
    if i < |sorted| {
      GivenPortions(sorted, leftover, m, i + 1);
      assert sorted[i..][1..] == sorted[i + 1..];
    }
  }

  lemma {:induction false} GivenIsBoundary(ids: seq<string>, weights: map<string, int>, total: int, m: map<string, int>, i: nat)
    requires i <= |ids| && Weighted(ids, m)
    ensures Given(Shares(ids, weights, total), m) == Boundary(ids, m, i) + Given(Shares(ids, weights, total)[i..], m)
  {
    var shares := Shares(ids, weights, total);
    if i == 0 {
      assert shares[0..] == shares;
    } else {
      GivenIsBoundary(ids, weights, total, m, i - 1);
      assert shares[i - 1..][1..] == shares[i..];
      assert ids[i - 1] in ids;
    }
  }

  lemma {:induction false} SharesBounded(ids: seq<string>, weights: map<string, int>, total: int)
    requires Percentages(ids, weights) && total >= 0
    ensures forall s :: s in Shares(ids, weights, total) ==> 0 <= s.remainder < 100 && 0 <= s.floor
  {
    forall s | s in Shares(ids, weights, total) ensures 0 <= s.remainder < 100 && 0 <= s.floor {
      var k :| 0 <= k < |ids| && s == ShareOf(weights, total, ids[k]);
      ShareBounds(weights, total, ids[k]);
    }
  }

  /** Shares in the order they are served: distinct, true fractions, falling remainders. */
  ghost predicate Ranked(sorted: seq<Share>) {
    && DistinctIds(sorted)
    && (forall i :: 0 <= i < |sorted| ==> 0 <= sorted[i].remainder < 100 && 0 <= sorted[i].floor)
    && (forall i, j :: 0 <= i < j < |sorted| ==> sorted[i].remainder >= sorted[j].remainder)
  }

  lemma {:induction false} SortRanks(shares: seq<Share>)
    requires DistinctIds(shares)
    requires forall s :: s in shares ==> 0 <= s.remainder < 100 && 0 <= s.floor
    ensures Ranked(Sort(shares, Before))
  {
    var sorted := Sort(shares, Before);
    SortDistinct(shares);
    var u := set s | s in shares;
    BeforeOrders(u);
    SortSorted(shares, u, Before);
    SortWithin(shares, u, Before);
    forall i | 0 <= i < |sorted| ensures 0 <= sorted[i].remainder < 100 && 0 <= sorted[i].floor {
      assert sorted[i] in u;
    }
    forall i, j | 0 <= i < j < |sorted| ensures sorted[i].remainder >= sorted[j].remainder {
      SortedPairs(sorted, Before, i, j);
    }
  }

  /** The share at place `i` gets its floor, and one more only if it was rounded down. */
  lemma {:induction false} FairPortion(sorted: seq<Share>, leftover: int, i: nat)
    requires Ranked(sorted) && RemainderSum(sorted) == 100 * leftover && i < |sorted|
    ensures var m, s := Handed(sorted, leftover), sorted[i];
            s.id in m && m[s.id] >= 0 && (m[s.id] == s.floor || (m[s.id] == s.floor + 1 && s.remainder > 0))
  {
    HandedOut(sorted, leftover, |sorted|);
    assert Handed(sorted, leftover)[sorted[i].id] == Portion(sorted, leftover, i);
    if i < leftover {
      LeftoverGoesToPositive(sorted, leftover, i);
    }
  }

  /** The floors and the leftover are all handed out. */
  lemma {:induction false} EverythingHandedOut(sorted: seq<Share>, leftover: int)
    requires Ranked(sorted) && RemainderSum(sorted) == 100 * leftover
    ensures Given(sorted, Handed(sorted, leftover)) == FloorSum(sorted) + leftover
  {
    RemainderSumNonNegative(sorted);
    SumBelow(sorted, |sorted|);
    HandedOut(sorted, leftover, |sorted|);
    GivenPortions(sorted, leftover, Handed(sorted, leftover), 0);
    assert sorted[0..] == sorted;
  }

  lemma {:induction false} SortedSharesRank(ids: seq<string>, weights: map<string, int>, total: int)
    requires Percentages(ids, weights) && total >= 0
    ensures var shares := Shares(ids, weights, total);
            && Ranked(Sort(shares, Before))
            && RemainderSum(Sort(shares, Before)) == 100 * (total - FloorSum(shares))
  {
    SharesDistinct(ids, weights, total);
    SharesBounded(ids, weights, total);
    RemaindersMakeLeftover(ids, weights, total);
    SortRanks(Shares(ids, weights, total));
    SumsOfSort(Shares(ids, weights, total));
  }

  lemma {:induction false} PlaceOf(shares: seq<Share>, k: nat) returns (i: nat)
    requires k < |shares|
    ensures i < |Sort(shares, Before)| && Sort(shares, Before)[i] == shares[k]
  {
    SortPermutes(shares, Before);
    assert shares[k] in multiset(Sort(shares, Before));
    i :| 0 <= i < |Sort(shares, Before)| && Sort(shares, Before)[i] == shares[k];
  }

  lemma {:induction false} AllocationPerVariant(ids: seq<string>, weights: map<string, int>, total: int, k: nat)
    requires Percentages(ids, weights) && total >= 0 && k < |ids|
    ensures var m, s := Allocate(ids, weights, total), ShareOf(weights, total, ids[k]);
            s.id in m && m[s.id] >= 0 && (m[s.id] == s.floor || (m[s.id] == s.floor + 1 && s.remainder > 0))
  {
    AllocationPerShare(ids, weights, total, k);
  }

  lemma {:induction false} AllocationPerShare(ids: seq<string>, weights: map<string, int>, total: int, k: nat)
    requires Percentages(ids, weights) && total >= 0 && k < |ids|
    ensures var m, s := Allocate(ids, weights, total), Shares(ids, weights, total)[k];
            s.id in m && m[s.id] >= 0 && (m[s.id] == s.floor || (m[s.id] == s.floor + 1 && s.remainder > 0))
  {
    var shares := Shares(ids, weights, total);
    SortedSharesRank(ids, weights, total);
    FairShare(shares, total - FloorSum(shares), k);
  }

  lemma {:induction false} FairShare(shares: seq<Share>, leftover: int, k: nat)
    requires k < |shares| && Ranked(Sort(shares, Before)) && RemainderSum(Sort(shares, Before)) == 100 * leftover
    ensures var m, s := Handed(Sort(shares, Before), leftover), shares[k];
            s.id in m && m[s.id] >= 0 && (m[s.id] == s.floor || (m[s.id] == s.floor + 1 && s.remainder > 0))
  {
    var i := PlaceOf(shares, k);
    FairPortion(Sort(shares, Before), leftover, i);
  }

  lemma {:induction false} AllocationFills(ids: seq<string>, weights: map<string, int>, total: int)
    requires Percentages(ids, weights) && total >= 0 && Weighted(ids, Allocate(ids, weights, total))
    ensures Boundary(ids, Allocate(ids, weights, total), |ids|) == total
  {
    var shares := Shares(ids, weights, total);
    var m := Allocate(ids, weights, total);
    SortedSharesRank(ids, weights, total);
    EverythingHandedOut(Sort(shares, Before), total - FloorSum(shares));
    SumsOfSort(shares);
    GivenOfSort(shares, m);
    GivenIsBoundary(ids, weights, total, m, |ids|);
    assert shares[|ids|..] == [];
  }

  /**
   Largest remainder on validated weights: every variant gets the floor of its exact share, or one more
   if that share was not whole, and the counts add up to the total.
   */
  lemma {:induction false} AllocationIsFair(ids: seq<string>, weights: map<string, int>, total: int)
    requires Percentages(ids, weights) && total >= 0
    ensures var m := Allocate(ids, weights, total);
            && Weighted(ids, m)
            && Boundary(ids, m, |ids|) == total
            && forall id :: id in ids ==>
                 var s := ShareOf(weights, total, id);
                 m[id] >= 0 && (m[id] == s.floor || (m[id] == s.floor + 1 && s.remainder > 0))
  {
    forall id | id in ids
      ensures var m, s := Allocate(ids, weights, total), ShareOf(weights, total, id);
              id in m && m[id] >= 0 && (m[id] == s.floor || (m[id] == s.floor + 1 && s.remainder > 0))
    {
      var k :| 0 <= k < |ids| && ids[k] == id;
      AllocationPerVariant(ids, weights, total, k);
    }
    AllocationFills(ids, weights, total);
  }

  lemma {:induction false} RemainderSumNonNegative(s: seq<Share>)
    requires forall i :: 0 <= i < |s| ==> 0 <= s[i].remainder
    ensures RemainderSum(s) >= 0
  {
    if s != [] {
      RemainderSumNonNegative(s[1..]);
    }
  }

  function Sharing(weights: map<string, int>, total: int): string -> Share {
    id => ShareOf(weights, total, id)
  }

  lemma {:induction false} SharesAreMapped(ids: seq<string>, weights: map<string, int>, total: int)
    ensures Shares(ids, weights, total) == MapOf(ids, Sharing(weights, total))
  {
    if ids != [] {
      SharesAreMapped(ids[1..], weights, total);
      assert Shares(ids, weights, total) == [ShareOf(weights, total, ids[0])] + Shares(ids[1..], weights, total);
    }
  }

  lemma {:induction false} SharesById(ids: seq<string>, weights: map<string, int>, total: int)
    ensures forall s, t :: s in Shares(ids, weights, total) && t in Shares(ids, weights, total) && s.id == t.id ==> s == t
  {
  }

  lemma {:induction false} SameSortedShares(a: seq<Share>, b: seq<Share>)
    requires multiset(a) == multiset(b)
    requires forall s, t :: s in a && t in a && s.id == t.id ==> s == t
    ensures Sort(a, Before) == Sort(b, Before) && FloorSum(a) == FloorSum(b)
  {
    SameElements(a, b);
    var u := set s | s in a;
    BeforeOrders(u);
    SortSorted(a, u, Before);
    SortSorted(b, u, Before);
    forall x, y | x in u && y in u && Before(x, y) && Before(y, x) ensures x == y {
      StringLeAntisymmetric(x.id, y.id);
    }
    SortWithin(a, u, Before);
    SortPermutes(a, Before);
    SortPermutes(b, Before);
    SortedUnique(Sort(a, Before), Sort(b, Before), u, Before);
    SumsOfSort(a);
    SumsOfSort(b);
  }

  lemma {:induction false} SharesPermute(ids: seq<string>, ids': seq<string>, weights: map<string, int>, total: int)
    requires multiset(ids) == multiset(ids')
    ensures multiset(Shares(ids, weights, total)) == multiset(Shares(ids', weights, total))
  {
    SharesAreMapped(ids, weights, total);
    SharesAreMapped(ids', weights, total);
    MapPermutation(ids, ids', Sharing(weights, total));
  }

  /** The allocation does not depend on the order the variants are listed in. */
  lemma {:induction false} AllocationIgnoresOrder(ids: seq<string>, ids': seq<string>, weights: map<string, int>, total: int)
    requires multiset(ids) == multiset(ids')
    ensures Allocate(ids, weights, total) == Allocate(ids', weights, total)
  {
    SharesPermute(ids, ids', weights, total);
    SharesById(ids, weights, total);
    SameSortedShares(Shares(ids, weights, total), Shares(ids', weights, total));
  }

  /** Whatever the holdout, validated weights always make a table NewRangeTable accepts. */
  lemma {:induction false} AllocationIsAccepted(ids: seq<string>, weights: map<string, int>, holdout: int)
    requires Percentages(ids, weights) && 0 <= holdout <= BUCKETS
    ensures Accepts(ids, Allocate(ids, weights, BUCKETS - holdout), holdout)
  {
    AllocationIsFair(ids, weights, BUCKETS - holdout);
  }

  // ---- Assigning a variant ----

  /** `math.Round`: half away from zero. */
  function Rounded(x: real): int {
    if x >= 0.0 then (x + 0.5).Floor else -((-x + 0.5).Floor)
  }

  function HoldoutBuckets(fraction: real): int {
    Rounded(fraction * (BUCKETS as real))
  }

  datatype Assigned = Holdout | Arm(variant: string)

  /** assignVariant: sort the ids, allocate, build the table, look the bucket up. `None` is its error. */
  function Assign(ids: seq<string>, weights: map<string, int>, holdoutFraction: real, bucket: int): Option<Assigned> {
    AssignIn(Sort(ids, StringLe), weights, HoldoutBuckets(holdoutFraction), bucket)
  }

  /** From the order of the arms and the holdout's size on. */
  function AssignIn(order: seq<string>, weights: map<string, int>, holdout: int, bucket: int): Option<Assigned> {
    match CheckedTable(order, Allocate(order, weights, BUCKETS - holdout), holdout)
    case Err(_) => None
    case Ok(table) =>
      match FindRange(table, bucket)
      case None => None
      case Some(r) => Some(if r.isHoldout then Holdout else Arm(r.variant))
  }

  method AssignVariant(ids: seq<string>, weights: map<string, int>, holdoutFraction: real, bucket: int)
    returns (outcome: Option<Assigned>)
    ensures outcome == Assign(ids, weights, holdoutFraction, bucket)
  {
    outcome := AssignArm(Sort(ids, StringLe), weights, HoldoutBuckets(holdoutFraction), bucket);
  }

  method AssignArm(order: seq<string>, weights: map<string, int>, holdout: int, bucket: int) returns (outcome: Option<Assigned>)
    ensures outcome == AssignIn(order, weights, holdout, bucket)
  {
    var counts := AllocateExperimentBuckets(order, weights, BUCKETS - holdout);
    var table := NewRangeTable(order, counts, holdout);
    if table.Err? {
      return None;
    }
    var found := Lookup(table.value, bucket);
    if found.None? {
      return None;
    }
    return Some(if found.value.isHoldout then Holdout else Arm(found.value.variant));
  }

  lemma {:induction false} HoldoutInRange(fraction: real)
    requires 0.0 <= fraction <= 1.0
    ensures 0 <= HoldoutBuckets(fraction) <= BUCKETS
  {
  }

  lemma {:induction false} WeightSumOfPermutation(a: seq<string>, b: seq<string>, weights: map<string, int>)
    requires multiset(a) == multiset(b)
    ensures WeightSum(a, weights) == WeightSum(b, weights)
  {
    assert |multiset(a)| == |a| && |multiset(b)| == |b|;
    if a != [] {
      assert a[0] in multiset(b);
      var k :| 0 <= k < |b| && b[k] == a[0];
      RemoveAt(a, b, k);
      assert b == b[..k] + ([a[0]] + b[k + 1..]);
      WeightSumOfPermutation(a[1..], b[..k] + b[k + 1..], weights);
      WeightSumSplit(b[..k], b[k + 1..], weights);
      WeightSumSplit(b[..k], [a[0]] + b[k + 1..], weights);
    }
  }

  lemma {:induction false} WeightSumSplit(a: seq<string>, b: seq<string>, weights: map<string, int>)
    ensures WeightSum(a + b, weights) == WeightSum(a, weights) + WeightSum(b, weights)
  {
    if a == [] {
      assert a + b == b;
    } else {
      assert (a + b)[1..] == a[1..] + b;
      WeightSumSplit(a[1..], b, weights);
    }
  }

  /**
   Assignment never fails on a validated language group: every bucket gets the holdout or one of the
   group's own variants, and the holdout takes exactly the last of its buckets.
   */
  lemma {:induction false} AssignmentIsTotal(ids: seq<string>, weights: map<string, int>, fraction: real, bucket: int)
    requires Percentages(ids, weights) && 0.0 <= fraction <= 1.0 && 0 <= bucket < BUCKETS
    ensures var a := Assign(ids, weights, fraction, bucket);
            && a.Some?
            && (a.value.Holdout? <==> bucket >= BUCKETS - HoldoutBuckets(fraction))
            && (a.value.Arm? ==> a.value.variant in ids)
  {
    var sorted, holdout := Sort(ids, StringLe), HoldoutBuckets(fraction);
    SortedPercentages(ids, weights);
    HoldoutInRange(fraction);
    AllocatedTable(sorted, weights, holdout, bucket);
  }

  lemma {:induction false} SortedPercentages(ids: seq<string>, weights: map<string, int>)
    requires Percentages(ids, weights)
    ensures Percentages(Sort(ids, StringLe), weights) && forall id :: id in Sort(ids, StringLe) <==> id in ids
  {
    var sorted := Sort(ids, StringLe);
    SortPermutes(ids, StringLe);
    DistinctPermutation(ids, sorted);
    WeightSumOfPermutation(ids, sorted, weights);
    SameElements(ids, sorted);
  }

  /** What a bucket is given by the table built from the allocation to `order`. */
  lemma {:induction false} AllocatedTable(order: seq<string>, weights: map<string, int>, holdout: int, bucket: int)
    requires Percentages(order, weights) && 0 <= holdout <= BUCKETS && 0 <= bucket < BUCKETS
    ensures var a := AssignIn(order, weights, holdout, bucket);
            && a.Some?
            && (a.value.Holdout? <==> bucket >= BUCKETS - holdout)
            && (a.value.Arm? ==> a.value.variant in order)
  {
    var counts := Allocate(order, weights, BUCKETS - holdout);
    AllocationIsAccepted(order, weights, holdout);
    BuiltIffAccepted(order, counts, holdout);
    HoldoutIsLast(order, counts, holdout, bucket);
  }

  lemma {:induction false} HoldoutIsLast(order: seq<string>, counts: map<string, int>, holdout: int, bucket: int)
    requires Accepts(order, counts, holdout) && 0 <= bucket < BUCKETS
    ensures var found := FindRange(TableOf(order, counts, holdout), bucket);
            && found.Some?
            && (found.value.isHoldout <==> bucket >= BUCKETS - holdout)
            && (!found.value.isHoldout ==> found.value.variant in order)
  {
    LookupFindsTheOwner(order, counts, holdout, bucket);
    var table := TableOf(order, counts, holdout);
    var owner := RangeTables.Arm(Cuts(order, counts), bucket);
    assert Covers(table[owner], bucket);
    assert table[|order|] == Range("", BUCKETS - holdout, BUCKETS, true);
    if owner < |order| {
      assert table[owner].variant == order[owner] && !Covers(table[|order|], bucket);
    }
  }
}
