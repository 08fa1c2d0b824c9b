/**
 Weights are validated to sum to 100 per language (internal/definition/validate), but a payload narrows
 a message's variants to the declared schema major before it groups them by language. While a message
 carries two majors, as a major transition has it do, the group that is left need not sum to 100.
 */
module MajorTransition {
  import opened Wrappers
  import opened Ordering
  import opened RangeTables
  import opened Allocation
  import Definitions
  import Payload

  /** Distinct variants with non-negative weights, whatever they sum to. */
  predicate Group(ids: seq<string>, weights: map<string, int>) {
    ids != [] && Distinct(ids) && forall id :: id in ids ==> WeightOf(weights, id) >= 0
  }

  /** The buckets the floors leave over; negative when they take too many. */
  function Leftover(ids: seq<string>, weights: map<string, int>, total: int): int {
    total - FloorSum(Shares(ids, weights, total))
  }

  function Clamped(x: int, n: nat): nat {
    if x < 0 then 0 else if x > n then n else x
  }

  /** Whatever the leftover, each of the first shares takes one more, and there are only so many shares. */
  lemma {:induction false} GivenClamped(sorted: seq<Share>, leftover: int, m: map<string, int>, i: nat)
    requires i <= |sorted|
    requires forall k :: 0 <= k < |sorted| ==> sorted[k].id in m && m[sorted[k].id] == Portion(sorted, leftover, k)
    ensures Given(sorted[i..], m) == FloorSum(sorted[i..]) + Clamped(leftover - i, |sorted| - i)
    decreases |sorted| - i
  {
    if i < |sorted| {
      GivenClamped(sorted, leftover, m, i + 1);
      assert sorted[i..][1..] == sorted[i + 1..];
    }
  }

  lemma {:induction false} GroupShares(ids: seq<string>, weights: map<string, int>, total: int)
    requires Group(ids, weights) && total >= 0
    ensures DistinctIds(Shares(ids, weights, total))
    ensures forall s :: s in Shares(ids, weights, total) ==> 0 <= s.floor
  {
    SharesDistinct(ids, weights, total);
    forall s | s in Shares(ids, weights, total) ensures 0 <= s.floor {
      var k :| 0 <= k < |ids| && s == ShareOf(weights, total, ids[k]);
      ShareBounds(weights, total, ids[k]);
    }
  }

  lemma {:induction false} CountedAt(shares: seq<Share>, leftover: int, k: nat)
    requires DistinctIds(shares) && k < |shares| && 0 <= shares[k].floor
    ensures var m := Handed(Sort(shares, Before), leftover); shares[k].id in m && m[shares[k].id] >= 0
  {
    var sorted := Sort(shares, Before);
    SortDistinct(shares);
    HandedOut(sorted, leftover, |sorted|);
    var i := PlaceOf(shares, k);
    assert sorted[i].id in Handed(sorted, leftover) && Handed(sorted, leftover)[sorted[i].id] == Portion(sorted, leftover, i);
  }

  /** Any group gets counts, all of them non-negative. */
  lemma {:induction false} GroupIsCounted(ids: seq<string>, weights: map<string, int>, total: int)
    requires Group(ids, weights) && total >= 0
    ensures forall id :: id in ids ==> id in Allocate(ids, weights, total) && Allocate(ids, weights, total)[id] >= 0
  {
    var shares := Shares(ids, weights, total);
    GroupShares(ids, weights, total);
    forall id | id in ids ensures id in Allocate(ids, weights, total) && Allocate(ids, weights, total)[id] >= 0 {
      var k :| 0 <= k < |ids| && ids[k] == id;
      assert shares[k] in shares;
      CountedAt(shares, total - FloorSum(shares), k);
    }
  }

  lemma {:induction false} GroupTotal(ids: seq<string>, weights: map<string, int>, total: int)
    requires Group(ids, weights) && total >= 0 && Weighted(ids, Allocate(ids, weights, total))
    ensures Boundary(ids, Allocate(ids, weights, total), |ids|) == total - Leftover(ids, weights, total) + Clamped(Leftover(ids, weights, total), |ids|)
  {
    var shares := Shares(ids, weights, total);
    GroupShares(ids, weights, total);
    HandedTotal(shares, Leftover(ids, weights, total));
    GivenIsBoundary(ids, weights, total, Allocate(ids, weights, total), |ids|);
    assert shares[|ids|..] == [];
  }

  lemma {:induction false} HandedTotal(shares: seq<Share>, leftover: int)
    requires DistinctIds(shares)
    ensures Given(shares, Handed(Sort(shares, Before), leftover)) == FloorSum(shares) + Clamped(leftover, |shares|)
  {
    var sorted := Sort(shares, Before);
    var m := Handed(sorted, leftover);
    SortDistinct(shares);
    SortPermutes(shares, Before);
    HandedOut(sorted, leftover, |sorted|);
    GivenClamped(sorted, leftover, m, 0);
    assert sorted[0..] == sorted;
    SumsOfSort(shares);
    GivenOfSort(shares, m);
  }

  /** An allocation makes an acceptable table if and only if what the floors leave over is one bucket per variant at most. */
  lemma {:induction false} AllocationIsAcceptedIff(ids: seq<string>, weights: map<string, int>, holdout: int)
    requires Group(ids, weights) && 0 <= holdout <= BUCKETS
    ensures Accepts(ids, Allocate(ids, weights, BUCKETS - holdout), holdout)
            <==> 0 <= Leftover(ids, weights, BUCKETS - holdout) <= |ids|
  {
    GroupIsCounted(ids, weights, BUCKETS - holdout);
    GroupTotal(ids, weights, BUCKETS - holdout);
  }

  lemma {:induction false} SortedGroup(ids: seq<string>, weights: map<string, int>)
    requires Group(ids, weights)
    ensures Group(Sort(ids, StringLe), weights) && |Sort(ids, StringLe)| == |ids|
    ensures WeightSum(Sort(ids, StringLe), weights) == WeightSum(ids, weights)
  {
    SortPermutes(ids, StringLe);
    DistinctPermutation(ids, Sort(ids, StringLe));
    WeightSumOfPermutation(ids, Sort(ids, StringLe), weights);
    SameElements(ids, Sort(ids, StringLe));
  }

  /** The floors of the group leave over one bucket a variant at most. */
  predicate LeftoverFits(ids: seq<string>, weights: map<string, int>, fraction: real) {
    0 <= Leftover(Sort(ids, StringLe), weights, BUCKETS - HoldoutBuckets(fraction)) <= |ids|
  }

  /** Assignment succeeds, for every bucket alike, if and only if the leftover is in that range. */
  lemma {:induction false} AssignmentSucceedsIff(ids: seq<string>, weights: map<string, int>, fraction: real, bucket: int)
    requires Group(ids, weights) && 0.0 <= fraction <= 1.0 && 0 <= bucket < BUCKETS
    ensures Assign(ids, weights, fraction, bucket).Some? <==> LeftoverFits(ids, weights, fraction)
  {
    var sorted, holdout := Sort(ids, StringLe), HoldoutBuckets(fraction);
    SortedGroup(ids, weights);
    HoldoutInRange(fraction);
    var counts := Allocate(sorted, weights, BUCKETS - holdout);
    AllocationIsAcceptedIff(sorted, weights, holdout);
    BuiltIffAccepted(sorted, counts, holdout);
    if Accepts(sorted, counts, holdout) { LookupFindsTheOwner(sorted, counts, holdout, bucket); }
  }

  lemma {:induction false} WholeFloors(ids: seq<string>, weights: map<string, int>)
    ensures FloorSum(Shares(ids, weights, BUCKETS)) == 100 * WeightSum(ids, weights)
  {
    if ids != [] {
      WholeFloors(ids[1..], weights);
      assert Shares(ids, weights, BUCKETS)[1..] == Shares(ids[1..], weights, BUCKETS);
      assert ShareOf(weights, BUCKETS, ids[0]).floor == 100 * WeightOf(weights, ids[0]);
    }
  }

  /** Without a holdout, a group of fewer than a hundred variants is assigned if and only if its weights sum to 100. */
  lemma {:induction false} AssignmentNeedsAHundred(ids: seq<string>, weights: map<string, int>, bucket: int)
    requires Group(ids, weights) && |ids| < 100 && 0 <= bucket < BUCKETS
    ensures Assign(ids, weights, 0.0, bucket).Some? <==> WeightSum(ids, weights) == 100
  {
    assert HoldoutBuckets(0.0) == 0;
    SortedGroup(ids, weights);
    WholeFloors(Sort(ids, StringLe), weights);
    AssignmentSucceedsIff(ids, weights, 0.0, bucket);
  }

  // ---- The whole payload ----

  /** What validation leaves of a message's language group, whatever its weights sum to. */
  predicate Presentable(bm: Payload.BundleMessage) {
    && (bm.languageVariants != [] ==> Group(Payload.Ids(bm.languageVariants), Payload.Weights(bm.languageVariants)))
    && 0.0 <= bm.holdoutFraction <= 1.0
  }

  /** A language group whose floors leave over too few buckets, or more than one a variant. */
  predicate Unassignable(bm: Payload.BundleMessage) {
    var ids, weights := Payload.Ids(bm.languageVariants), Payload.Weights(bm.languageVariants);
    ids != [] && !LeftoverFits(ids, weights, bm.holdoutFraction)
  }

  lemma {:induction false} FoundIsARange(ranges: seq<Range>, bucket: int)
    requires FindRange(ranges, bucket).Some?
    ensures FindRange(ranges, bucket).value in ranges
  {
    if !Covers(ranges[0], bucket) {
      FoundIsARange(ranges[1..], bucket);
    }
  }

  lemma {:induction false} FoundIsAnArm(order: seq<string>, counts: map<string, int>, holdout: int, bucket: int)
    requires CheckedTable(order, counts, holdout).Ok?
    ensures var found := FindRange(CheckedTable(order, counts, holdout).value, bucket);
            found.Some? && !found.value.isHoldout ==> found.value.variant in order
  {
    BuiltIffAccepted(order, counts, holdout);
    var table := TableOf(order, counts, holdout);
    if FindRange(table, bucket).Some? {
      FoundIsARange(table, bucket);
      var k :| 0 <= k < |table| && table[k] == FindRange(table, bucket).value;
      assert k < |order| ==> table[k].variant == order[k];
    }
  }

  lemma {:induction false} AssignedFromTheTable(ids: seq<string>, weights: map<string, int>, fraction: real, bucket: int)
    ensures var a := Assign(ids, weights, fraction, bucket);
            a.Some? && a.value.Arm? ==> a.value.variant in Sort(ids, StringLe)
  {
    var sorted, holdout := Sort(ids, StringLe), HoldoutBuckets(fraction);
    var counts := Allocate(sorted, weights, BUCKETS - holdout);
    if CheckedTable(sorted, counts, holdout).Ok? {
      FoundIsAnArm(sorted, counts, holdout, bucket);
    }
  }

  lemma {:induction false} AssignedIsAMember(ids: seq<string>, weights: map<string, int>, fraction: real, bucket: int)
    ensures var a := Assign(ids, weights, fraction, bucket);
            a.Some? && a.value.Arm? ==> a.value.variant in ids
  {
    AssignedFromTheTable(ids, weights, fraction, bucket);
    SortPermutes(ids, StringLe);
    SameElements(ids, Sort(ids, StringLe));
  }

  lemma {:induction false} MemberIsFound(vs: seq<Definitions.Variant>, k: nat)
    requires k < |vs|
    ensures Payload.FindVariant(vs, vs[k].id).Some?
  {
    if k > 0 {
      MemberIsFound(vs[1..], k - 1);
    }
  }

  lemma {:induction false} OverlayFailsWithAssignment(bm: Payload.BundleMessage, viewer: Payload.Viewer)
    ensures var vs := bm.languageVariants;
            Payload.ApplyOverlay(bm, viewer).Err?
            <==> vs != [] && Assign(Payload.Ids(vs), Payload.Weights(vs), bm.holdoutFraction, viewer.bucket(bm.salt)).None?
  {
    var vs := bm.languageVariants;
    var ids := Payload.Ids(vs);
    var a := Assign(ids, Payload.Weights(vs), bm.holdoutFraction, viewer.bucket(bm.salt));
    AssignedIsAMember(ids, Payload.Weights(vs), bm.holdoutFraction, viewer.bucket(bm.salt));
    if a.Some? && a.value.Arm? {
      var k :| 0 <= k < |ids| && ids[k] == a.value.variant;
      MemberIsFound(vs, k);
    }
  }

  /** The overlay of one message fails if and only if its group cannot be assigned. */
  lemma {:induction false} OverlayFailsIff(bm: Payload.BundleMessage, viewer: Payload.Viewer)
    requires Presentable(bm) && 0 <= viewer.bucket(bm.salt) < BUCKETS
    ensures Payload.ApplyOverlay(bm, viewer).Err? <==> Unassignable(bm)
  {
    var vs := bm.languageVariants;
    OverlayFailsWithAssignment(bm, viewer);
    if vs != [] {
      AssignmentSucceedsIff(Payload.Ids(vs), Payload.Weights(vs), bm.holdoutFraction, viewer.bucket(bm.salt));
    }
  }

  /** A payload fails, for every channel that gets its bundle, if and only if one of its messages cannot be assigned. */
  lemma {:induction false} PayloadFailsIff(b: seq<Payload.BundleMessage>, viewer: Payload.Viewer)
    requires forall bm :: bm in b ==> Presentable(bm) && 0 <= viewer.bucket(bm.salt) < BUCKETS
    ensures Payload.EntriesOf(b, viewer).Err? <==> exists bm :: bm in b && Unassignable(bm)
  {
    if b != [] {
      var front, last := b[..|b| - 1], b[|b| - 1];
      assert b == front + [last];
      PayloadFailsIff(front, viewer);
      OverlayFailsIff(last, viewer);
    }
  }

  /** One message that cannot be assigned fails the whole payload, whatever the others are. */
  lemma {:induction false} OneGroupFailsThePayload(b: seq<Payload.BundleMessage>, viewer: Payload.Viewer, k: nat)
    requires k < |b| && Presentable(b[k]) && Unassignable(b[k]) && 0 <= viewer.bucket(b[k].salt) < BUCKETS
    ensures Payload.EntriesOf(b, viewer).Err?
  {
    OverlayFailsIff(b[k], viewer);
    Payload.OneOverlayFails(b, k, viewer);
  }

  /** A message with a language group that does not sum to 100, and no holdout. */
  predicate Drifted(bm: Payload.BundleMessage) {
    var ids, weights := Payload.Ids(bm.languageVariants), Payload.Weights(bm.languageVariants);
    bm.holdoutFraction == 0.0 && Group(ids, weights) && |ids| < 100 && WeightSum(ids, weights) != 100
  }

  /** Without a holdout, a group of fewer than a hundred variants cannot be assigned if and only if it has drifted. */
  lemma {:induction false} DriftedIsUnassignable(bm: Payload.BundleMessage)
    requires Presentable(bm) && bm.holdoutFraction == 0.0 && 0 < |bm.languageVariants| < 100
    ensures Unassignable(bm) <==> Drifted(bm)
  {
    var ids, weights := Payload.Ids(bm.languageVariants), Payload.Weights(bm.languageVariants);
    AssignmentNeedsAHundred(ids, weights, 0);
    AssignmentSucceedsIff(ids, weights, 0.0, 0);
  }

  /**
   A message passing validation: two variants of one language whose weights make 100, the second of
   another major. To a device of the first major its bundle entry is such a message.
   */
  lemma {:induction false} ATwoMajorMessageDrifts(m: Definitions.Message, v: Definitions.Variant, other: Definitions.Variant)
    requires m.variants == [v, other] && v.language == other.language && v.schema.major != other.schema.major
    requires v.weight + other.weight == 100 && 0 <= v.weight && 0 < other.weight && m.holdoutFraction == 0.0
    ensures var r := Payload.ToBundleMessage(m, v.language, v.schema.major);
            r.Ok? && r.value.Some? && Drifted(r.value.value) && Unassignable(r.value.value)
  {
    assert m.variants[1..] == [other] && [other][1..] == [];
    assert Payload.Supporting([other], v.schema.major) == [];
    assert Payload.Supporting(m.variants, v.schema.major) == [v];
    assert [v][1..] == [] && [v][..0] == [];
    assert Payload.InLanguage([v], v.language) == [v];
    assert Payload.Ids([v]) == [v.id] && Payload.Weights([v]) == map[v.id := v.weight];
    assert [v.id][1..] == [];
    DriftedIsUnassignable(Payload.ToBundleMessage(m, v.language, v.schema.major).value.value);
  }
}
