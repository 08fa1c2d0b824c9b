/**
 What a reweight moves (internal/experiment/assign/rangetable.go, Reweight): exactly the buckets its
 shifted cut points pass over, and when that is as few as any reassignment could manage.
 */
module Reweighting {
  import opened Wrappers
  import opened RangeTables

  /** `bucket` lies between the old and the new position of a cut. */
  ghost predicate Passed(bucket: int, before: int, after: int) {
    before <= bucket < after || after <= bucket < before
  }

  /** Inner cut point `j` passes over `bucket`. */
  ghost predicate CutPasses(before: seq<int>, after: seq<int>, bucket: int, j: nat)
    requires j < |before| && j < |after|
  {
    Passed(bucket, before[j], after[j])
  }

  /** The start of arm `j` passes over `bucket`. */
  ghost predicate BoundaryPasses(order: seq<string>, w: map<string, int>, w': map<string, int>, bucket: int, j: nat)
    requires j <= |order| && Weighted(order, w) && Weighted(order, w')
  {
    Passed(bucket, Boundary(order, w, j), Boundary(order, w', j))
  }

  function Distance(a: int, b: int): nat {
    if a <= b then b - a else a - b
  }

  /** A bucket changes owner if and only if some inner cut point passes over it. */
  lemma {:induction false} ArmMovesIffCutPasses(before: seq<int>, after: seq<int>, bucket: int)
    requires ValidCuts(before) && ValidCuts(after) && |before| == |after| && 0 <= bucket < BUCKETS
    ensures Arm(before, bucket) != Arm(after, bucket)
            <==> exists j :: 1 <= j < |before| - 1 && CutPasses(before, after, bucket, j)
  {
    ArmOwns(before, bucket);
    ArmOwns(after, bucket);
    var a, b := Arm(before, bucket), Arm(after, bucket);
    if a != b {
      var j := if a < b then b else a;
      assert CutPasses(before, after, bucket, j);
    }
  }

  /** Reweighting a table builds the table of the new weights over the same arms. */
  lemma {:induction false} ReweightKeepsTheArms(order: seq<string>, w: map<string, int>, h: int, w': map<string, int>, h': int)
    requires Accepts(order, w, h)
    ensures CheckedTable(VariantOrder(TableOf(order, w, h)), w', h') == CheckedTable(order, w', h')
  {
    assert TableOf(order, w, h)[0..] == TableOf(order, w, h) && order[0..] == order;
    OrderOfTable(order, w, h, 0);
  }

  /** The arm a bucket is assigned: a variant, or the holdout. */
  function ArmName(found: Option<Range>): Option<(string, bool)> {
    match found
    case None => None
    case Some(r) => Some((r.variant, r.isHoldout))
  }

  lemma {:induction false} DistinctArmNames(order: seq<string>, w: map<string, int>, h: int, w': map<string, int>, h': int, a: nat, b: nat)
    requires Accepts(order, w, h) && Accepts(order, w', h') && a <= |order| && b <= |order|
    ensures ArmName(Some(TableOf(order, w, h)[a])) == ArmName(Some(TableOf(order, w', h')[b])) <==> a == b
  {
    if a < |order| && b < |order| && a != b {
      assert order[a] != order[b];
    }
  }

  lemma {:induction false} NameOfOwner(order: seq<string>, w: map<string, int>, h: int, bucket: int)
    requires Accepts(order, w, h) && 0 <= bucket < BUCKETS
    ensures ValidCuts(Cuts(order, w)) && Arm(Cuts(order, w), bucket) <= |order|
    ensures ArmName(FindRange(TableOf(order, w, h), bucket)) == ArmName(Some(TableOf(order, w, h)[Arm(Cuts(order, w), bucket)]))
  {
    CutsValid(order, w, h);
    LookupFindsTheOwner(order, w, h, bucket);
  }

  lemma {:induction false} InnerCuts(order: seq<string>, w: map<string, int>, w': map<string, int>, bucket: int)
    requires Weighted(order, w) && Weighted(order, w')
    ensures (exists j :: 1 <= j < |Cuts(order, w)| - 1 && CutPasses(Cuts(order, w), Cuts(order, w'), bucket, j))
            <==> exists j :: 1 <= j <= |order| && BoundaryPasses(order, w, w', bucket, j)
  {
    var c, c' := Cuts(order, w), Cuts(order, w');
    forall j | 1 <= j <= |order| ensures CutPasses(c, c', bucket, j) <==> BoundaryPasses(order, w, w', bucket, j) {
    }
  }

  /** For the tables: the arm a bucket is looked up in changes if and only if a boundary passes over it. */
  lemma {:induction false} ReweightMovesIff(order: seq<string>, w: map<string, int>, h: int, w': map<string, int>, h': int, bucket: int)
    requires Accepts(order, w, h) && Accepts(order, w', h') && 0 <= bucket < BUCKETS
    ensures ArmName(FindRange(TableOf(order, w, h), bucket)) != ArmName(FindRange(TableOf(order, w', h'), bucket))
            <==> exists j :: 1 <= j <= |order| && BoundaryPasses(order, w, w', bucket, j)
  {
    NameOfOwner(order, w, h, bucket);
    NameOfOwner(order, w', h', bucket);
    DistinctArmNames(order, w, h, w', h', Arm(Cuts(order, w), bucket), Arm(Cuts(order, w'), bucket));
    ArmMovesIffCutPasses(Cuts(order, w), Cuts(order, w'), bucket);
    InnerCuts(order, w, w', bucket);
  }

  // ---- Counting, over any two assignments of `n` buckets to arms ----

  function Bit(b: bool): nat {
    if b then 1 else 0
  }

  /** How many of the first `n` buckets change arm from `f` to `g`. */
  function Moves(f: seq<nat>, g: seq<nat>, n: nat): nat
    requires n <= |f| && n <= |g|
  {
    if n == 0 then 0 else Moves(f, g, n - 1) + Bit(f[n - 1] != g[n - 1])
  }

  /** How many of them arm `i` owns. */
  function Owned(f: seq<nat>, i: nat, n: nat): nat
    requires n <= |f|
  {
    if n == 0 then 0 else Owned(f, i, n - 1) + Bit(f[n - 1] == i)
  }

  /** How many of them arm `i` gains. */
  function Gained(f: seq<nat>, g: seq<nat>, i: nat, n: nat): nat
    requires n <= |f| && n <= |g|
  {
    if n == 0 then 0 else Gained(f, g, i, n - 1) + Bit(g[n - 1] == i && f[n - 1] != i)
  }

  /** Arm `i` does not both gain and lose buckets. */
  predicate OneWay(f: seq<nat>, g: seq<nat>, i: nat, n: nat)
    requires n <= |f| && n <= |g|
  {
    Gained(f, g, i, n) == 0 || Gained(g, f, i, n) == 0
  }

  function TotalGained(f: seq<nat>, g: seq<nat>, arms: nat, n: nat): nat
    requires n <= |f| && n <= |g|
  {
    if arms == 0 then 0 else TotalGained(f, g, arms - 1, n) + Gained(f, g, arms - 1, n)
  }

  /** The buckets the growing arms need: what any reassignment to the new widths has to move. */
  function Growth(f: seq<nat>, g: seq<nat>, arms: nat, n: nat): nat
    requires n <= |f| && n <= |g|
  {
    if arms == 0 then 0
    else
      var grown := Owned(g, arms - 1, n) - Owned(f, arms - 1, n);
      Growth(f, g, arms - 1, n) + if grown > 0 then grown else 0
  }

  lemma {:induction false} WidthChange(f: seq<nat>, g: seq<nat>, i: nat, n: nat)
    requires n <= |f| && n <= |g|
    ensures Owned(g, i, n) - Owned(f, i, n) == Gained(f, g, i, n) - Gained(g, f, i, n)
  {
    if n > 0 {
      WidthChange(f, g, i, n - 1);
    }
  }

  lemma {:induction false} TotalGainedStep(f: seq<nat>, g: seq<nat>, arms: nat, n: nat)
    requires 0 < n <= |f| && n <= |g|
    ensures TotalGained(f, g, arms, n) == TotalGained(f, g, arms, n - 1) + Bit(g[n - 1] < arms && f[n - 1] != g[n - 1])
  {
    if arms > 0 {
      TotalGainedStep(f, g, arms - 1, n);
    }
  }

  lemma {:induction false} TotalGainedZero(f: seq<nat>, g: seq<nat>, arms: nat)
    ensures TotalGained(f, g, arms, 0) == 0
  {
    if arms > 0 {
      TotalGainedZero(f, g, arms - 1);
    }
  }

  /** Every moved bucket is gained by exactly one arm. */
  lemma {:induction false} MovesAreGains(f: seq<nat>, g: seq<nat>, arms: nat, n: nat)
    requires n <= |f| && n <= |g| && forall b :: 0 <= b < n ==> g[b] < arms
    ensures Moves(f, g, n) == TotalGained(f, g, arms, n)
  {
    if n == 0 {
      TotalGainedZero(f, g, arms);
    } else {
      MovesAreGains(f, g, arms, n - 1);
      TotalGainedStep(f, g, arms, n);
    }
  }

  lemma {:induction false} GrowthBelowGains(f: seq<nat>, g: seq<nat>, arms: nat, n: nat)
    requires n <= |f| && n <= |g|
    ensures Growth(f, g, arms, n) <= TotalGained(f, g, arms, n)
    ensures Growth(f, g, arms, n) == TotalGained(f, g, arms, n)
            <==> forall i :: 0 <= i < arms ==> OneWay(f, g, i, n)
  {
    if arms > 0 {
      GrowthBelowGains(f, g, arms - 1, n);
      WidthChange(f, g, arms - 1, n);
      assert (forall i :: 0 <= i < arms ==> OneWay(f, g, i, n))
        <==> (forall i :: 0 <= i < arms - 1 ==> OneWay(f, g, i, n)) && OneWay(f, g, arms - 1, n);
    }
  }

  /** No reassignment moves fewer buckets than its arms grow by; it moves no more if and only if no arm both gains and loses. */
  lemma {:induction false} FewestMoves(f: seq<nat>, g: seq<nat>, arms: nat, n: nat)
    requires n <= |f| && n <= |g| && forall b :: 0 <= b < n ==> g[b] < arms
    ensures Moves(f, g, n) >= Growth(f, g, arms, n)
    ensures Moves(f, g, n) == Growth(f, g, arms, n)
            <==> forall i :: 0 <= i < arms ==> OneWay(f, g, i, n)
  {
    MovesAreGains(f, g, arms, n);
    GrowthBelowGains(f, g, arms, n);
  }

  // ---- The fewest moves are enough ----

  /** How many of the first `n` buckets the first `arms` arms own. */
  function OwnedTotal(g: seq<nat>, arms: nat, n: nat): nat
    requires n <= |g|
  {
    if arms == 0 then 0 else OwnedTotal(g, arms - 1, n) + Owned(g, arms - 1, n)
  }

  function WidthTotal(widths: seq<nat>, k: nat): nat
    requires k <= |widths|
  {
    if k == 0 then 0 else WidthTotal(widths, k - 1) + widths[k - 1]
  }

  /** The buckets the first `k` arms lack of their widths, counting no arm that has enough. */
  function Need(g: seq<nat>, widths: seq<nat>, k: nat, n: nat): nat
    requires n <= |g| && k <= |widths|
  {
    if k == 0 then 0
    else
      var lack := widths[k - 1] - Owned(g, k - 1, n);
      Need(g, widths, k - 1, n) + if lack > 0 then lack else 0
  }

  /** `g` deals the first `n` buckets out to the arms of `widths`, each its width. */
  predicate Deals(g: seq<nat>, widths: seq<nat>, n: nat)
    requires n <= |g|
  {
    && (forall b :: 0 <= b < n ==> g[b] < |widths|)
    && (forall i :: 0 <= i < |widths| ==> Owned(g, i, n) == widths[i])
  }

  lemma {:induction false} OwnedTotalStep(g: seq<nat>, arms: nat, n: nat)
    requires 0 < n <= |g|
    ensures OwnedTotal(g, arms, n) == OwnedTotal(g, arms, n - 1) + Bit(g[n - 1] < arms)
  {
    if arms > 0 {
      OwnedTotalStep(g, arms - 1, n);
    }
  }

  lemma {:induction false} NoBucketsOwned(g: seq<nat>, arms: nat)
    ensures OwnedTotal(g, arms, 0) == 0
  {
    if arms > 0 {
      NoBucketsOwned(g, arms - 1);
    }
  }

  lemma {:induction false} EveryBucketOwned(g: seq<nat>, arms: nat, n: nat)
    requires n <= |g| && forall b :: 0 <= b < n ==> g[b] < arms
    ensures OwnedTotal(g, arms, n) == n
  {
    if n == 0 {
      NoBucketsOwned(g, arms);
    } else {
      EveryBucketOwned(g, arms, n - 1);
      OwnedTotalStep(g, arms, n);
    }
  }

  lemma {:induction false} OwnedWithin(g: seq<nat>, widths: seq<nat>, k: nat, n: nat)
    requires n <= |g| && k <= |widths| && forall i :: 0 <= i < k ==> Owned(g, i, n) <= widths[i]
    ensures OwnedTotal(g, k, n) <= WidthTotal(widths, k)
    ensures OwnedTotal(g, k, n) == WidthTotal(widths, k) ==> forall i :: 0 <= i < k ==> Owned(g, i, n) == widths[i]
  {
    if k > 0 {
      OwnedWithin(g, widths, k - 1, n);
    }
  }

  lemma {:induction false} NeedIsLack(g: seq<nat>, widths: seq<nat>, k: nat, n: nat)
    requires n <= |g| && k <= |widths|
    ensures OwnedTotal(g, k, n) + Need(g, widths, k, n) >= WidthTotal(widths, k)
    ensures Need(g, widths, k, n) == 0 ==> forall i :: 0 <= i < k ==> Owned(g, i, n) >= widths[i]
    ensures Need(g, widths, k, n) == 0 && OwnedTotal(g, k, n) == WidthTotal(widths, k) ==> forall i :: 0 <= i < k ==> Owned(g, i, n) == widths[i]
    ensures Need(g, widths, k, n) > 0 ==> exists i :: 0 <= i < k && Owned(g, i, n) < widths[i]
  {
    if k > 0 {
      NeedIsLack(g, widths, k - 1, n);
    }
  }

  lemma {:induction false} OwnsOne(g: seq<nat>, i: nat, n: nat)
    requires n <= |g| && Owned(g, i, n) > 0
    ensures exists b :: 0 <= b < n && g[b] == i
  {
    if g[n - 1] != i {
      OwnsOne(g, i, n - 1);
    }
  }

  /** Giving bucket `b` to arm `i`: what each arm then owns. */
  lemma {:induction false} OwnedAfterGift(g: seq<nat>, b: nat, i: nat, k: nat, n: nat)
    requires n <= |g| && b < |g|
    ensures Owned(g[b := i], k, n) == Owned(g, k, n) + if b < n then Bit(k == i) - Bit(k == g[b]) else 0
  {
    if n > 0 {
      OwnedAfterGift(g, b, i, k, n - 1);
    }
  }

  lemma {:induction false} MovesAfterGift(f: seq<nat>, g: seq<nat>, b: nat, i: nat, n: nat)
    requires n <= |f| && n <= |g| && b < |g|
    ensures Moves(f, g[b := i], n) <= Moves(f, g, n) + Bit(b < n)
  {
    if n > 0 {
      MovesAfterGift(f, g, b, i, n - 1);
    }
  }

  /** A bucket from an arm with too many to one that is short lowers the need by one. */
  lemma {:induction false} NeedAfterGift(g: seq<nat>, widths: seq<nat>, b: nat, i: nat, k: nat, n: nat)
    requires b < n <= |g| && k <= |widths| && g[b] < |widths| && i < |widths|
    requires Owned(g, i, n) < widths[i] && Owned(g, g[b], n) > widths[g[b]]
    ensures Need(g[b := i], widths, k, n) == Need(g, widths, k, n) - Bit(i < k)
  {
    if k > 0 {
      NeedAfterGift(g, widths, b, i, k - 1, n);
      OwnedAfterGift(g, b, i, k - 1, n);
    }
  }

  /** While some arm is short another has too many. */
  lemma {:induction false} SomeArmHasTooMany(g: seq<nat>, widths: seq<nat>, n: nat)
    requires n <= |g| && OwnedTotal(g, |widths|, n) == WidthTotal(widths, |widths|) && Need(g, widths, |widths|, n) > 0
    ensures exists j :: 0 <= j < |widths| && Owned(g, j, n) > widths[j]
  {
    NeedIsLack(g, widths, |widths|, n);
    if forall j :: 0 <= j < |widths| ==> Owned(g, j, n) <= widths[j] {
      OwnedWithin(g, widths, |widths|, n);
      assert false;
    }
  }

  /** From `g`, as many more moves as it lacks reach the widths. */
  lemma {:induction false} Supply(f: seq<nat>, g: seq<nat>, widths: seq<nat>, n: nat) returns (dealt: seq<nat>)
    requires n == |f| == |g| && WidthTotal(widths, |widths|) == n && forall b :: 0 <= b < n ==> g[b] < |widths|
    ensures |dealt| == n && Deals(dealt, widths, n)
    ensures Moves(f, dealt, n) <= Moves(f, g, n) + Need(g, widths, |widths|, n)
    decreases Need(g, widths, |widths|, n)
  {
    EveryBucketOwned(g, |widths|, n);
    NeedIsLack(g, widths, |widths|, n);
    if Need(g, widths, |widths|, n) == 0 {
      dealt := g;
    } else {
      SomeArmHasTooMany(g, widths, n);
      var i :| 0 <= i < |widths| && Owned(g, i, n) < widths[i];
      var j :| 0 <= j < |widths| && Owned(g, j, n) > widths[j];
      OwnsOne(g, j, n);
      var b :| 0 <= b < n && g[b] == j;
      NeedAfterGift(g, widths, b, i, |widths|, n);
      MovesAfterGift(f, g, b, i, n);
      dealt := Supply(f, g[b := i], widths, n);
    }
  }

  lemma {:induction false} NoMoves(f: seq<nat>, n: nat)
    requires n <= |f|
    ensures Moves(f, f, n) == 0
  {
    if n > 0 {
      NoMoves(f, n - 1);
    }
  }

  // ---- The counts of a table ----

  /** The arm of every bucket under `cuts`. */
  ghost function Assignment(cuts: seq<int>): (f: seq<nat>)
    ensures |f| == BUCKETS
    ensures forall b :: 0 <= b < BUCKETS ==> f[b] == Arm(cuts, b)
  {
    seq(BUCKETS, b requires 0 <= b < BUCKETS => Arm(cuts, b))
  }

  /** How many of the first `n` buckets lie in `[lo, hi)`. */
  function InBand(lo: int, hi: int, n: nat): nat {
    if n == 0 then 0 else InBand(lo, hi, n - 1) + Bit(lo <= n - 1 < hi)
  }

  lemma {:induction false} BandWidth(lo: int, hi: int, n: nat)
    requires 0 <= lo <= hi
    ensures InBand(lo, hi, n) == if n <= lo then 0 else if n <= hi then n - lo else hi - lo
  {
    if n > 0 {
      BandWidth(lo, hi, n - 1);
    }
  }

  lemma {:induction false} OwnedInBand(cuts: seq<int>, i: nat, n: nat)
    requires ValidCuts(cuts) && i < |cuts| - 1 && n <= BUCKETS
    ensures Owned(Assignment(cuts), i, n) == InBand(cuts[i], cuts[i + 1], n)
  {
    if n > 0 {
      OwnedInBand(cuts, i, n - 1);
      ArmOwns(cuts, n - 1);
    }
  }

  /** Arm `i` owns as many buckets as its interval is wide. */
  lemma {:induction false} OwnedIsWidth(cuts: seq<int>, i: nat)
    requires ValidCuts(cuts) && i < |cuts| - 1
    ensures Owned(Assignment(cuts), i, BUCKETS) == cuts[i + 1] - cuts[i]
  {
    OwnedInBand(cuts, i, BUCKETS);
    BandWidth(cuts[i], cuts[i + 1], BUCKETS);
  }

  /** The total distance the inner cut points travel. */
  function Displacement(before: seq<int>, after: seq<int>, k: nat): nat
    requires 1 <= k <= |before| && k <= |after|
  {
    if k == 1 then 0 else Displacement(before, after, k - 1) + Distance(before[k - 1], after[k - 1])
  }

  function PassedBands(before: seq<int>, after: seq<int>, k: nat, n: nat): nat
    requires 1 <= k <= |before| && k <= |after|
  {
    if k == 1 then 0
    else PassedBands(before, after, k - 1, n)
         + InBand(before[k - 1], after[k - 1], n) + InBand(after[k - 1], before[k - 1], n)
  }

  lemma {:induction false} PassedBandsStep(before: seq<int>, after: seq<int>, k: nat, bucket: nat)
    requires 1 <= k <= |before| && k <= |after|
    ensures PassedBands(before, after, k, bucket + 1) >= PassedBands(before, after, k, bucket)
    ensures (exists j :: 1 <= j < k && CutPasses(before, after, bucket, j))
            ==> PassedBands(before, after, k, bucket + 1) >= PassedBands(before, after, k, bucket) + 1
  {
    if k > 1 {
      PassedBandsStep(before, after, k - 1, bucket);
    }
  }

  lemma {:induction false} MovesInPassedBands(before: seq<int>, after: seq<int>, n: nat)
    requires ValidCuts(before) && ValidCuts(after) && |before| == |after| && n <= BUCKETS
    ensures Moves(Assignment(before), Assignment(after), n) <= PassedBands(before, after, |before| - 1, n)
  {
    if n > 0 {
      MovesInPassedBands(before, after, n - 1);
      ArmMovesIffCutPasses(before, after, n - 1);
      PassedBandsStep(before, after, |before| - 1, n - 1);
    }
  }

  lemma {:induction false} EmptyBand(lo: int, hi: int, n: nat)
    requires hi <= lo
    ensures InBand(lo, hi, n) == 0
  {
    if n > 0 {
      EmptyBand(lo, hi, n - 1);
    }
  }

  lemma {:induction false} PassedBandsAreDisplacement(before: seq<int>, after: seq<int>, k: nat)
    requires ValidCuts(before) && ValidCuts(after) && |before| == |after| && 1 <= k < |before|
    ensures PassedBands(before, after, k, BUCKETS) == Displacement(before, after, k)
  {
    if k > 1 {
      PassedBandsAreDisplacement(before, after, k - 1);
      var a, b := before[k - 1], after[k - 1];
      var lo, hi := if a <= b then a else b, if a <= b then b else a;
      BandWidth(lo, hi, BUCKETS);
      EmptyBand(hi, lo, BUCKETS);
    }
  }

  lemma {:induction false} CutMovesBounded(before: seq<int>, after: seq<int>)
    requires ValidCuts(before) && ValidCuts(after) && |before| == |after|
    ensures Moves(Assignment(before), Assignment(after), BUCKETS) <= Displacement(before, after, |before| - 1)
  {
    MovesInPassedBands(before, after, BUCKETS);
    PassedBandsAreDisplacement(before, after, |before| - 1);
  }

  // ---- When a reweight moves as little as possible ----

  /** One of `[lo, hi)` and `[lo', hi')` contains the other. */
  predicate Nested(lo: int, hi: int, lo': int, hi': int) {
    || lo == hi || lo' == hi'
    || (lo <= lo' && hi' <= hi)
    || (lo' <= lo && hi <= hi')
  }

  ghost predicate CutsNested(before: seq<int>, after: seq<int>, i: nat)
    requires i + 1 < |before| && i + 1 < |after|
  {
    Nested(before[i], before[i + 1], after[i], after[i + 1])
  }

  lemma {:induction false} GainedNone(f: seq<nat>, g: seq<nat>, i: nat, n: nat)
    requires n <= |f| && n <= |g|
    ensures Gained(f, g, i, n) == 0 <==> forall b :: 0 <= b < n && g[b] == i ==> f[b] == i
  {
    if n > 0 {
      GainedNone(f, g, i, n - 1);
    }
  }

  lemma {:induction false} GainsIffNotInside(before: seq<int>, after: seq<int>, i: nat)
    requires ValidCuts(before) && ValidCuts(after) && |before| == |after| && i < |before| - 1
    ensures Gained(Assignment(before), Assignment(after), i, BUCKETS) == 0
            <==> after[i] == after[i + 1] || (before[i] <= after[i] && after[i + 1] <= before[i + 1])
  {
    var f, g := Assignment(before), Assignment(after);
    GainedNone(f, g, i, BUCKETS);
    forall b | 0 <= b < BUCKETS
      ensures (g[b] == i <==> after[i] <= b < after[i + 1]) && (f[b] == i <==> before[i] <= b < before[i + 1])
    {
      ArmOwns(before, b);
      ArmOwns(after, b);
    }
    assert 0 == after[0] <= after[i] <= after[i + 1] <= after[|after| - 1] == BUCKETS;
    if after[i] < after[i + 1] {
      assert g[after[i]] == i && g[after[i + 1] - 1] == i;
    }
  }

  lemma {:induction false} CutsAreMinimalIff(before: seq<int>, after: seq<int>)
    requires ValidCuts(before) && ValidCuts(after) && |before| == |after|
    ensures var f, g, arms := Assignment(before), Assignment(after), |before| - 1;
            && Moves(f, g, BUCKETS) >= Growth(f, g, arms, BUCKETS)
            && (Moves(f, g, BUCKETS) == Growth(f, g, arms, BUCKETS)
                <==> forall i :: 0 <= i < arms ==> CutsNested(before, after, i))
  {
    var f, g, arms := Assignment(before), Assignment(after), |before| - 1;
    forall b | 0 <= b < BUCKETS ensures g[b] < arms {
      ArmOwns(after, b);
    }
    FewestMoves(f, g, arms, BUCKETS);
    forall i | 0 <= i < arms
      ensures CutsNested(before, after, i) <==> OneWay(f, g, i, BUCKETS)
    {
      GainsIffNotInside(before, after, i);
      GainsIffNotInside(after, before, i);
    }
  }

  // ---- For two accepted weightings of one order ----

  /** How many of the first `n` buckets are looked up in differently named arms. */
  function MovedBuckets(before: seq<Range>, after: seq<Range>, n: nat): nat {
    if n == 0 then 0
    else MovedBuckets(before, after, n - 1) + Bit(ArmName(FindRange(before, n - 1)) != ArmName(FindRange(after, n - 1)))
  }

  /** How many of the first `n` buckets are looked up in the arm `name`. */
  function ServedBuckets(table: seq<Range>, name: Option<(string, bool)>, n: nat): nat {
    if n == 0 then 0 else ServedBuckets(table, name, n - 1) + Bit(ArmName(FindRange(table, n - 1)) == name)
  }

  /** The total distance the boundaries up to the start of arm `k` travel. */
  function BoundaryTravel(order: seq<string>, w: map<string, int>, w': map<string, int>, k: nat): nat
    requires k <= |order| && Weighted(order, w) && Weighted(order, w')
  {
    if k == 0 then 0 else BoundaryTravel(order, w, w', k - 1) + Distance(Boundary(order, w, k), Boundary(order, w', k))
  }

  /** The weight of arm `i`; the holdout is the last arm. */
  function WidthOf(order: seq<string>, w: map<string, int>, h: int, i: nat): int
    requires i <= |order| && Weighted(order, w)
  {
    if i < |order| then w[order[i]] else h
  }

  /** The total the first `k` arms grow by, counting no arm that shrinks. */
  function WidthGrowth(order: seq<string>, w: map<string, int>, h: int, w': map<string, int>, h': int, k: nat): nat
    requires k <= |order| + 1 && Weighted(order, w) && Weighted(order, w')
  {
    if k == 0 then 0
    else
      var grown := WidthOf(order, w', h', k - 1) - WidthOf(order, w, h, k - 1);
      WidthGrowth(order, w, h, w', h', k - 1) + if grown > 0 then grown else 0
  }

  ghost function AssignmentOf(order: seq<string>, w: map<string, int>): seq<nat>
    requires Weighted(order, w)
  {
    Assignment(Cuts(order, w))
  }

  lemma {:induction false} MovedAsCuts(order: seq<string>, w: map<string, int>, h: int, w': map<string, int>, h': int, n: nat)
    requires Accepts(order, w, h) && Accepts(order, w', h') && n <= BUCKETS
    ensures MovedBuckets(TableOf(order, w, h), TableOf(order, w', h'), n)
            == Moves(AssignmentOf(order, w), AssignmentOf(order, w'), n)
  {
    if n > 0 {
      MovedAsCuts(order, w, h, w', h', n - 1);
      NameOfOwner(order, w, h, n - 1);
      NameOfOwner(order, w', h', n - 1);
      DistinctArmNames(order, w, h, w', h', Arm(Cuts(order, w), n - 1), Arm(Cuts(order, w'), n - 1));
    }
  }

  lemma {:induction false} ServedAsCuts(order: seq<string>, w: map<string, int>, h: int, i: nat, n: nat)
    requires Accepts(order, w, h) && i <= |order| && n <= BUCKETS
    ensures ServedBuckets(TableOf(order, w, h), ArmName(Some(TableOf(order, w, h)[i])), n) == Owned(AssignmentOf(order, w), i, n)
  {
    if n > 0 {
      ServedAsCuts(order, w, h, i, n - 1);
      NameOfOwner(order, w, h, n - 1);
      DistinctArmNames(order, w, h, w, h, Arm(Cuts(order, w), n - 1), i);
    }
  }

  lemma {:induction false} OwnedIsWeight(order: seq<string>, w: map<string, int>, h: int, i: nat)
    requires Accepts(order, w, h) && i <= |order|
    ensures Owned(AssignmentOf(order, w), i, BUCKETS) == WidthOf(order, w, h, i)
  {
    CutsValid(order, w, h);
    OwnedIsWidth(Cuts(order, w), i);
  }

  /** Each arm of a table is looked up for as many of the buckets as its weight says, the holdout included. */
  lemma {:induction false} LookupsMatchWeights(order: seq<string>, w: map<string, int>, h: int, i: nat)
    requires Accepts(order, w, h) && i <= |order|
    ensures ServedBuckets(TableOf(order, w, h), ArmName(Some(TableOf(order, w, h)[i])), BUCKETS)
            == if i < |order| then w[order[i]] else h
  {
    ServedAsCuts(order, w, h, i, BUCKETS);
    OwnedIsWeight(order, w, h, i);
  }

  lemma {:induction false} TravelAsCuts(order: seq<string>, w: map<string, int>, w': map<string, int>, k: nat)
    requires k <= |order| && Weighted(order, w) && Weighted(order, w')
    ensures BoundaryTravel(order, w, w', k) == Displacement(Cuts(order, w), Cuts(order, w'), k + 1)
  {
    if k > 0 {
      TravelAsCuts(order, w, w', k - 1);
    }
  }

  /** The number of buckets a reweight moves is at most the total distance its boundaries travel. */
  lemma {:induction false} MovesBoundedByDisplacement(order: seq<string>, w: map<string, int>, h: int, w': map<string, int>, h': int)
    requires Accepts(order, w, h) && Accepts(order, w', h')
    ensures MovedBuckets(TableOf(order, w, h), TableOf(order, w', h'), BUCKETS) <= BoundaryTravel(order, w, w', |order|)
  {
    MovedAsCuts(order, w, h, w', h', BUCKETS);
    CutsValid(order, w, h);
    CutsValid(order, w', h');
    CutMovesBounded(Cuts(order, w), Cuts(order, w'));
    TravelAsCuts(order, w, w', |order|);
  }

  lemma {:induction false} GrowthAsWidths(order: seq<string>, w: map<string, int>, h: int, w': map<string, int>, h': int, g: seq<nat>, k: nat)
    requires Accepts(order, w, h) && Accepts(order, w', h') && k <= |order| + 1
    requires |g| == BUCKETS && forall i :: 0 <= i <= |order| ==> Owned(g, i, BUCKETS) == WidthOf(order, w', h', i)
    ensures Growth(AssignmentOf(order, w), g, k, BUCKETS) == WidthGrowth(order, w, h, w', h', k)
  {
    if k > 0 {
      GrowthAsWidths(order, w, h, w', h', g, k - 1);
      OwnedIsWeight(order, w, h, k - 1);
    }
  }

  /** `g` deals the buckets out to the arms and the holdout, each its weight. */
  ghost predicate DealtOut(order: seq<string>, w: map<string, int>, h: int, g: seq<nat>)
    requires Weighted(order, w)
  {
    && |g| == BUCKETS && (forall b :: 0 <= b < BUCKETS ==> g[b] <= |order|)
    && (forall i :: 0 <= i <= |order| ==> Owned(g, i, BUCKETS) == WidthOf(order, w, h, i))
  }

  /** However the buckets are dealt out to the new weights, as many move as the arms grow by. */
  lemma {:induction false} NoReassignmentMovesFewer(order: seq<string>, w: map<string, int>, h: int, w': map<string, int>, h': int, g: seq<nat>)
    requires Accepts(order, w, h) && Accepts(order, w', h') && DealtOut(order, w', h', g)
    ensures Moves(AssignmentOf(order, w), g, BUCKETS) >= WidthGrowth(order, w, h, w', h', |order| + 1)
  {
    FewestMoves(AssignmentOf(order, w), g, |order| + 1, BUCKETS);
    GrowthAsWidths(order, w, h, w', h', g, |order| + 1);
  }

  /** The weights of the arms in order, the holdout last. */
  function Widths(order: seq<string>, w: map<string, int>, h: int): (widths: seq<nat>)
    requires Accepts(order, w, h)
    ensures |widths| == |order| + 1 && forall i :: 0 <= i <= |order| ==> widths[i] == WidthOf(order, w, h, i)
  {
    seq(|order| + 1, i requires 0 <= i <= |order| => WidthAt(order, w, h, i))
  }

  function WidthAt(order: seq<string>, w: map<string, int>, h: int, i: nat): (width: nat)
    requires Accepts(order, w, h) && i <= |order|
    ensures width == WidthOf(order, w, h, i)
  {
    assert i < |order| ==> order[i] in order;
    WidthOf(order, w, h, i)
  }

  lemma {:induction false} WidthsFill(order: seq<string>, w: map<string, int>, h: int, k: nat)
    requires Accepts(order, w, h) && k <= |order|
    ensures WidthTotal(Widths(order, w, h), k) == Boundary(order, w, k)
  {
    if k > 0 {
      WidthsFill(order, w, h, k - 1);
    }
  }

  lemma {:induction false} NeedIsGrowth(order: seq<string>, w: map<string, int>, h: int, w': map<string, int>, h': int, k: nat)
    requires Accepts(order, w, h) && Accepts(order, w', h') && k <= |order| + 1
    ensures Need(AssignmentOf(order, w), Widths(order, w', h'), k, BUCKETS) == WidthGrowth(order, w, h, w', h', k)
  {
    if k > 0 {
      NeedIsGrowth(order, w, h, w', h', k - 1);
      OwnedIsWeight(order, w, h, k - 1);
    }
  }

  lemma {:induction false} ArmsInRange(order: seq<string>, w: map<string, int>, h: int)
    requires Accepts(order, w, h)
    ensures forall b :: 0 <= b < BUCKETS ==> AssignmentOf(order, w)[b] <= |order|
  {
    CutsValid(order, w, h);
    forall b | 0 <= b < BUCKETS ensures AssignmentOf(order, w)[b] <= |order| {
      ArmOwns(Cuts(order, w), b);
    }
  }

  /** Some way of dealing the buckets out to the new weights moves no more of them than the arms grow by. */
  lemma {:induction false} LeastIsAttained(order: seq<string>, w: map<string, int>, h: int, w': map<string, int>, h': int)
    requires Accepts(order, w, h) && Accepts(order, w', h')
    ensures exists g :: DealtOut(order, w', h', g) && Moves(AssignmentOf(order, w), g, BUCKETS) == WidthGrowth(order, w, h, w', h', |order| + 1)
  {
    var f, widths := AssignmentOf(order, w), Widths(order, w', h');
    WidthsFill(order, w', h', |order|);
    ArmsInRange(order, w, h);
    NeedIsGrowth(order, w, h, w', h', |order| + 1);
    NoMoves(f, BUCKETS);
    var g := Supply(f, f, widths, BUCKETS);
    assert DealtOut(order, w', h', g);
    NoReassignmentMovesFewer(order, w, h, w', h', g);
  }

  lemma {:induction false} NewTableGrowth(order: seq<string>, w: map<string, int>, h: int, w': map<string, int>, h': int)
    requires Accepts(order, w, h) && Accepts(order, w', h')
    ensures Growth(AssignmentOf(order, w), AssignmentOf(order, w'), |order| + 1, BUCKETS) == WidthGrowth(order, w, h, w', h', |order| + 1)
  {
    forall i | 0 <= i <= |order| ensures Owned(AssignmentOf(order, w'), i, BUCKETS) == WidthOf(order, w', h', i) {
      OwnedIsWeight(order, w', h', i);
    }
    GrowthAsWidths(order, w, h, w', h', AssignmentOf(order, w'), |order| + 1);
  }

  ghost predicate RangesNested(before: seq<Range>, after: seq<Range>, i: nat)
    requires i < |before| && i < |after|
  {
    Nested(before[i].start, before[i].end, after[i].start, after[i].end)
  }

  lemma {:induction false} NestedAsCuts(order: seq<string>, w: map<string, int>, h: int, w': map<string, int>, h': int)
    requires Accepts(order, w, h) && Accepts(order, w', h')
    ensures (forall i :: 0 <= i <= |order| ==> RangesNested(TableOf(order, w, h), TableOf(order, w', h'), i))
            <==> forall i :: 0 <= i < |order| + 1 ==> CutsNested(Cuts(order, w), Cuts(order, w'), i)
  {
    forall i | 0 <= i <= |order|
      ensures RangesNested(TableOf(order, w, h), TableOf(order, w', h'), i) <==> CutsNested(Cuts(order, w), Cuts(order, w'), i)
    {
      TableAgainstCuts(order, w, h, i);
      TableAgainstCuts(order, w', h', i);
    }
  }

  /** No way of dealing the buckets out to the new weights moves fewer than the reweighted table. */
  ghost predicate Minimal(order: seq<string>, w: map<string, int>, h: int, w': map<string, int>, h': int)
    requires Weighted(order, w) && Weighted(order, w')
  {
    forall g :: DealtOut(order, w', h', g) ==>
      MovedBuckets(TableOf(order, w, h), TableOf(order, w', h'), BUCKETS) <= Moves(AssignmentOf(order, w), g, BUCKETS)
  }

  /** A reweight moves as many buckets as the arms grow by if and only if every arm's old and new ranges are nested. */
  lemma {:induction false} ReweightMovesGrowthIff(order: seq<string>, w: map<string, int>, h: int, w': map<string, int>, h': int)
    requires Accepts(order, w, h) && Accepts(order, w', h')
    ensures var before, after, least := TableOf(order, w, h), TableOf(order, w', h'), WidthGrowth(order, w, h, w', h', |order| + 1);
            && MovedBuckets(before, after, BUCKETS) >= least
            && (MovedBuckets(before, after, BUCKETS) == least <==> forall i :: 0 <= i <= |order| ==> RangesNested(before, after, i))
  {
    MovedAsCuts(order, w, h, w', h', BUCKETS);
    CutsValid(order, w, h);
    CutsValid(order, w', h');
    CutsAreMinimalIff(Cuts(order, w), Cuts(order, w'));
    NewTableGrowth(order, w, h, w', h');
    NestedAsCuts(order, w, h, w', h');
  }

  lemma {:induction false} MinimalIsGrowth(order: seq<string>, w: map<string, int>, h: int, w': map<string, int>, h': int)
    requires Accepts(order, w, h) && Accepts(order, w', h')
    ensures Minimal(order, w, h, w', h')
            <==> MovedBuckets(TableOf(order, w, h), TableOf(order, w', h'), BUCKETS) <= WidthGrowth(order, w, h, w', h', |order| + 1)
  {
    LeastIsAttained(order, w, h, w', h');
    forall g | DealtOut(order, w', h', g)
      ensures Moves(AssignmentOf(order, w), g, BUCKETS) >= WidthGrowth(order, w, h, w', h', |order| + 1)
    {
      NoReassignmentMovesFewer(order, w, h, w', h', g);
    }
  }

  /** A reweight moves the fewest buckets any reassignment to its weights can if and only if every arm's old and new ranges are nested. */
  lemma {:induction false} ReweightIsMinimalIff(order: seq<string>, w: map<string, int>, h: int, w': map<string, int>, h': int)
    requires Accepts(order, w, h) && Accepts(order, w', h')
    ensures Minimal(order, w, h, w', h') <==> forall i :: 0 <= i <= |order| ==> RangesNested(TableOf(order, w, h), TableOf(order, w', h'), i)
  {
    ReweightMovesGrowthIff(order, w, h, w', h');
    MinimalIsGrowth(order, w, h, w', h');
  }

  lemma {:induction false} ThreeArms(order: seq<string>, w: map<string, int>)
    requires |order| == 3 && Weighted(order, w)
    ensures Boundary(order, w, 0) == 0 && Boundary(order, w, 1) == w[order[0]]
    ensures Boundary(order, w, 2) == w[order[0]] + w[order[1]]
    ensures Boundary(order, w, 3) == w[order[0]] + w[order[1]] + w[order[2]]
  {
  }

  lemma {:induction false} ThreeGrowths(order: seq<string>, w: map<string, int>, w': map<string, int>)
    requires |order| == 3 && Weighted(order, w) && Weighted(order, w')
    requires w'[order[0]] >= w[order[0]] && w'[order[1]] == w[order[1]] && w'[order[2]] <= w[order[2]]
    ensures WidthGrowth(order, w, 0, w', 0, 4) == w'[order[0]] - w[order[0]]
  {
    assert WidthGrowth(order, w, 0, w', 0, 1) == w'[order[0]] - w[order[0]];
    assert WidthGrowth(order, w, 0, w', 0, 2) == WidthGrowth(order, w, 0, w', 0, 1);
    assert WidthGrowth(order, w, 0, w', 0, 3) == WidthGrowth(order, w, 0, w', 0, 2);
  }

  /**
   Three arms 30/30/40 reweighted to 40/30/30: the middle arm is pushed along, so the reweight moves
   more than the thousand buckets the first arm grows by; another assignment to the same weights moves just those.
   */
  lemma {:induction false} ReweightIsNotAlwaysMinimal()
    ensures var order := ["a", "b", "c"];
            var w, w' := map["a" := 3000, "b" := 3000, "c" := 4000], map["a" := 4000, "b" := 3000, "c" := 3000];
            && Accepts(order, w, 0) && Accepts(order, w', 0)
            && WidthGrowth(order, w, 0, w', 0, |order| + 1) == 1000
            && MovedBuckets(TableOf(order, w, 0), TableOf(order, w', 0), BUCKETS) > 1000
            && exists g :: DealtOut(order, w', 0, g) && Moves(AssignmentOf(order, w), g, BUCKETS) == 1000
  {
    var order := ["a", "b", "c"];
    var w, w' := map["a" := 3000, "b" := 3000, "c" := 4000], map["a" := 4000, "b" := 3000, "c" := 3000];
    ThreeArms(order, w);
    ThreeArms(order, w');
    ThreeGrowths(order, w, w');
    ReweightMovesGrowthIff(order, w, 0, w', 0);
    LeastIsAttained(order, w, 0, w', 0);
    assert !RangesNested(TableOf(order, w, 0), TableOf(order, w', 0), 1);
  }
}
