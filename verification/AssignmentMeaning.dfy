/**
 What allocation and assignment give whom, in plain numbers: whole buckets out of hundredths, who gets the
 buckets left over, how many are held out, and which arm a bucket falls to.
 */
module AssignmentMeaning {
  import opened Wrappers
  import opened Ordering
  import opened RangeTables
  import opened Allocation

  /** The variant's exact share of the buckets, in hundredths. */
  function Hundredths(weights: map<string, int>, total: int, id: string): int {
    (if id in weights then weights[id] else 0) * total
  }

  lemma {:induction false} ShareIs(weights: map<string, int>, total: int, id: string)
    requires Hundredths(weights, total, id) >= 0
    ensures ShareOf(weights, total, id) == Share(id, Hundredths(weights, total, id) / 100, Hundredths(weights, total, id) % 100)
  {
  }

  lemma {:induction false} NotNegative(ids: seq<string>, weights: map<string, int>, total: int, id: string)
    requires Percentages(ids, weights) && total >= 0 && id in ids
    ensures Hundredths(weights, total, id) >= 0
  {
    TimesNotNegative(WeightOf(weights, id), total);
  }

  lemma {:induction false} TimesNotNegative(a: int, b: int)
    requires a >= 0 && b >= 0
    ensures a * b >= 0
  {
  }

  /** Every variant gets the whole buckets of its share; some whose share is not whole get one more; and that is all of them. */
  lemma {:induction false} AllocationMeans(ids: seq<string>, weights: map<string, int>, total: int)
    requires Percentages(ids, weights) && total >= 0
    ensures var m := Allocate(ids, weights, total);
            && Weighted(ids, m) && Boundary(ids, m, |ids|) == total
            && forall id :: id in ids ==>
                 var x := Hundredths(weights, total, id);
                 m[id] == x / 100 || (m[id] == x / 100 + 1 && x % 100 != 0)
  {
    AllocationIsFair(ids, weights, total);
    forall id | id in ids ensures ShareOf(weights, total, id) == Share(id, Hundredths(weights, total, id) / 100, Hundredths(weights, total, id) % 100) {
      NotNegative(ids, weights, total, id);
      ShareIs(weights, total, id);
    }
  }

  /** Share `s` comes `i`-th, and is counted the portion of that place. */
  ghost predicate Dealt(sorted: seq<Share>, leftover: int, counts: map<string, int>, s: Share, i: nat) {
    i < |sorted| && sorted[i] == s && s.id in counts && counts[s.id] == Portion(sorted, leftover, i)
  }

  lemma {:induction false} PlacedPortion(shares: seq<Share>, leftover: int, k: nat) returns (i: nat)
    requires k < |shares| && Ranked(Sort(shares, Before))
    ensures Dealt(Sort(shares, Before), leftover, Handed(Sort(shares, Before), leftover), shares[k], i)
  {
    i := PlaceOf(shares, k);
    HandedOut(Sort(shares, Before), leftover, |Sort(shares, Before)|);
  }

  lemma {:induction false} AllocateIs(ids: seq<string>, weights: map<string, int>, total: int)
    ensures var shares := Shares(ids, weights, total);
            Allocate(ids, weights, total) == Handed(Sort(shares, Before), total - FloorSum(shares))
  {
  }

  lemma {:induction false} PortionAt(ids: seq<string>, weights: map<string, int>, total: int, k: nat) returns (i: nat)
    requires Percentages(ids, weights) && total >= 0 && k < |ids|
    ensures var shares := Shares(ids, weights, total);
            Dealt(Sort(shares, Before), total - FloorSum(shares), Allocate(ids, weights, total), ShareOf(weights, total, ids[k]), i)
  {
    var shares := Shares(ids, weights, total);
    SortedSharesRank(ids, weights, total);
    AllocateIs(ids, weights, total);
    i := PlacedPortion(shares, total - FloorSum(shares), k);
  }

  lemma {:induction false} SharesInOrder(ids: seq<string>, weights: map<string, int>, total: int, i: nat, j: nat)
    requires i < j < |ids|
    ensures |Sort(Shares(ids, weights, total), Before)| == |ids|
    ensures Before(Sort(Shares(ids, weights, total), Before)[i], Sort(Shares(ids, weights, total), Before)[j])
  {
    var shares := Shares(ids, weights, total);
    var u := set s | s in shares;
    BeforeOrders(u);
    SortPermutes(shares, Before);
    SortSorted(shares, u, Before);
    SortedPairs(Sort(shares, Before), Before, i, j);
  }

  /** One more bucket goes to the larger remainder first, and of equal ones to the smaller id. */
  lemma {:induction false} LargestRemaindersFirst(ids: seq<string>, weights: map<string, int>, total: int, a: nat, b: nat)
    requires Percentages(ids, weights) && total >= 0 && a < |ids| && b < |ids|
    requires Weighted(ids, Allocate(ids, weights, total))
    requires Allocate(ids, weights, total)[ids[a]] == Hundredths(weights, total, ids[a]) / 100 + 1
    requires Allocate(ids, weights, total)[ids[b]] == Hundredths(weights, total, ids[b]) / 100
    ensures var x, y := Hundredths(weights, total, ids[a]) % 100, Hundredths(weights, total, ids[b]) % 100;
            x > y || (x == y && StringLt(ids[a], ids[b]))
  {
    NotNegative(ids, weights, total, ids[a]);
    NotNegative(ids, weights, total, ids[b]);
    ShareIs(weights, total, ids[a]);
    ShareIs(weights, total, ids[b]);
    var i := PortionAt(ids, weights, total, a);
    var j := PortionAt(ids, weights, total, b);
    var shares := Shares(ids, weights, total);
    SortPermutes(shares, Before);
    MoreComesFirst(Sort(shares, Before), total - FloorSum(shares), Allocate(ids, weights, total), ShareOf(weights, total, ids[a]), ShareOf(weights, total, ids[b]), i, j);
    SharesInOrder(ids, weights, total, i, j);
  }

  /** Of two shares the one that got a bucket more was dealt to first. */
  lemma {:induction false} MoreComesFirst(sorted: seq<Share>, leftover: int, counts: map<string, int>, s: Share, t: Share, i: nat, j: nat)
    requires Dealt(sorted, leftover, counts, s, i) && Dealt(sorted, leftover, counts, t, j)
    requires counts[s.id] == s.floor + 1 && counts[t.id] == t.floor
    ensures i < j
  {
  }

  // ---- The holdout ----

  /** As many buckets are held out as are nearest to the fraction of ten thousand, half a bucket counting as one. */
  lemma {:induction false} HoldoutIsNearest(fraction: real)
    requires fraction >= 0.0
    ensures var h := HoldoutBuckets(fraction); h as real - 0.5 <= fraction * 10000.0 < h as real + 0.5
  {
    assert fraction * 10000.0 >= 0.0;
  }

  // ---- The arm of a bucket ----

  ghost predicate InIdOrder(order: seq<string>) {
    forall i, j :: 0 <= i < j < |order| ==> StringLt(order[i], order[j])
  }

  lemma {:induction false} OrderedAsSorted(ids: seq<string>, order: seq<string>)
    requires multiset(order) == multiset(ids) && InIdOrder(order)
    ensures Sort(ids, StringLe) == order
  {
    var u := set id | id in ids;
    SameElements(ids, order);
    StringsOrder(u);
    SortPermutes(ids, StringLe);
    SortSorted(ids, u, StringLe);
    SortWithin(ids, u, StringLe);
    OrderedIsSorted(order);
    forall x, y | x in u && y in u && StringLe(x, y) && StringLe(y, x) ensures x == y {
      StringLeAntisymmetric(x, y);
    }
    SortedUnique(Sort(ids, StringLe), order, u, StringLe);
  }

  lemma {:induction false} StringsOrder(u: set<string>)
    ensures Orders(u, StringLe)
  {
    forall x, y | x in u && y in u ensures StringLe(x, y) || StringLe(y, x) {
      StringLeTotal(x, y);
    }
    forall x, y, z | x in u && y in u && z in u && StringLe(x, y) && StringLe(y, z) ensures StringLe(x, z) {
      StringLeTransitive(x, y, z);
    }
  }

  lemma {:induction false} OrderedIsSorted(order: seq<string>)
    requires InIdOrder(order)
    ensures Sorted(order, StringLe)
  {
    if order != [] {
      forall y | y in order[1..] ensures StringLe(order[0], y) {
        var k :| 1 <= k < |order| && order[k] == y;
      }
      OrderedIsSorted(order[1..]);
    }
  }

  lemma {:induction false} AssignInOrder(ids: seq<string>, weights: map<string, int>, fraction: real, bucket: int, order: seq<string>)
    requires Percentages(ids, weights) && multiset(order) == multiset(ids) && InIdOrder(order)
    ensures Percentages(order, weights)
    ensures Assign(ids, weights, fraction, bucket) == AssignIn(order, weights, HoldoutBuckets(fraction), bucket)
  {
    OrderedAsSorted(ids, order);
    SortedPercentages(ids, weights);
  }

  /** Arm `k` is the outcome for the stretch of buckets it was allocated, in this order of the arms, and the holdout for the last ones. */
  ghost predicate LaidOut(order: seq<string>, counts: map<string, int>, heldOut: int, bucket: int, k: nat, outcome: Option<Assigned>) {
    && k < |order| && Weighted(order, counts)
    && (outcome == Some(Allocation.Arm(order[k])) <==> Boundary(order, counts, k) <= bucket < Boundary(order, counts, k + 1))
    && (outcome == Some(Holdout) <==> bucket >= 10000 - heldOut)
  }

  lemma {:induction false} InIsLaidOut(order: seq<string>, weights: map<string, int>, h: int, bucket: int, k: nat)
    requires Percentages(order, weights) && 0 <= h <= 10000 && 0 <= bucket < 10000 && k < |order|
    ensures LaidOut(order, Allocate(order, weights, 10000 - h), h, bucket, k, AssignIn(order, weights, h, bucket))
  {
    ArmInterval(order, weights, h, bucket, k);
    AllocatedTable(order, weights, h, bucket);
  }

  /**
   Laid out in the order of their ids, each arm over as many buckets as it was allocated, the held-out ones
   last: a bucket is assigned the arm whose stretch it lies in.
   */
  lemma {:induction false} AssignmentMeans(ids: seq<string>, weights: map<string, int>, fraction: real, bucket: int, order: seq<string>, k: nat)
    requires Percentages(ids, weights) && 0.0 <= fraction <= 1.0 && 0 <= bucket < 10000
    requires multiset(order) == multiset(ids) && InIdOrder(order) && k < |order|
    ensures var h := HoldoutBuckets(fraction);
            LaidOut(order, Allocate(ids, weights, 10000 - h), h, bucket, k, Assign(ids, weights, fraction, bucket))
  {
    AssignInOrder(ids, weights, fraction, bucket, order);
    HoldoutInRange(fraction);
    AllocationIgnoresOrder(ids, order, weights, 10000 - HoldoutBuckets(fraction));
    InIsLaidOut(order, weights, HoldoutBuckets(fraction), bucket, k);
  }

  lemma {:induction false} ArmInterval(order: seq<string>, weights: map<string, int>, h: int, bucket: int, k: nat)
    requires Percentages(order, weights) && 0 <= h <= 10000 && 0 <= bucket < 10000 && k < |order|
    ensures var counts := Allocate(order, weights, 10000 - h);
            && Weighted(order, counts)
            && (AssignIn(order, weights, h, bucket) == Some(Allocation.Arm(order[k])) <==> Boundary(order, counts, k) <= bucket < Boundary(order, counts, k + 1))
  {
    var counts := Allocate(order, weights, 10000 - h);
    AllocationIsAccepted(order, weights, h);
    BuiltIffAccepted(order, counts, h);
    LookupFindsTheOwner(order, counts, h, bucket);
    var table := TableOf(order, counts, h);
    assert table[k] == VariantRange(order, counts, k);
    var owner := RangeTables.Arm(Cuts(order, counts), bucket);
    assert owner < |order| ==> table[owner] == VariantRange(order, counts, owner);
    assert Covers(table[k], bucket) <==> k == owner;
  }
}
