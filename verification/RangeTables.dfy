/**
 The experiment range table (internal/experiment/assign/rangetable.go): [0, BUCKETS) cut into one
 half-open interval per arm, in a fixed order, the holdout last.
 */
module RangeTables {
  import opened Wrappers

  const BUCKETS: int := 10000

  datatype Range = Range(variant: string, start: int, end: int, isHoldout: bool)

  datatype TableError =
    | NoVariants
    | DuplicateVariant(variant: string)
    | MissingWeight(variant: string)
    | NegativeWeight(variant: string)
    | NegativeHoldout
    | WrongSum(sum: int)

  // ---- Specification ----

  predicate Weighted(order: seq<string>, weights: map<string, int>) {
    forall v :: v in order ==> v in weights
  }

  /** The sum of the first `i` weights: where arm `i` starts. */
  function Boundary(order: seq<string>, weights: map<string, int>, i: nat): int
    requires i <= |order| && Weighted(order, weights)
  {
    if i == 0 then 0 else Boundary(order, weights, i - 1) + weights[order[i - 1]]
  }

  function VariantRange(order: seq<string>, weights: map<string, int>, i: nat): Range
    requires i < |order| && Weighted(order, weights)
  {
    Range(order[i], Boundary(order, weights, i), Boundary(order, weights, i + 1), false)
  }

  function TableOf(order: seq<string>, weights: map<string, int>, holdout: int): seq<Range>
    requires Weighted(order, weights)
  {
    var last := Boundary(order, weights, |order|);
    seq(|order|, i requires 0 <= i < |order| => VariantRange(order, weights, i)) + [Range("", last, last + holdout, true)]
  }

  /** The first reason, scanning from arm `i`, to reject the arms. */
  function FirstFault(order: seq<string>, weights: map<string, int>, i: nat): Option<TableError>
    requires i <= |order|
    decreases |order| - i
  {
    if i == |order| then None
    else if order[i] in order[..i] then Some(DuplicateVariant(order[i]))
    else if order[i] !in weights then Some(MissingWeight(order[i]))
    else if weights[order[i]] < 0 then Some(NegativeWeight(order[i]))
    else FirstFault(order, weights, i + 1)
  }

  lemma {:induction false} NoFaultWeighted(order: seq<string>, weights: map<string, int>, i: nat)
    requires i <= |order| && FirstFault(order, weights, i).None?
    ensures forall k :: i <= k < |order| ==> order[k] in weights && weights[order[k]] >= 0 && order[k] !in order[..k]
    decreases |order| - i
  {
    if i < |order| {
      NoFaultWeighted(order, weights, i + 1);
    }
  }

  function CheckedTable(order: seq<string>, weights: map<string, int>, holdout: int): Result<seq<Range>, TableError> {
    if order == [] then Err(NoVariants)
    else
      match FirstFault(order, weights, 0)
      case Some(e) => Err(e)
      case None =>
        NoFaultWeighted(order, weights, 0);
        var sum := Boundary(order, weights, |order|) + holdout;
        if holdout < 0 then Err(NegativeHoldout)
        else if sum != BUCKETS then Err(WrongSum(sum))
        else Ok(TableOf(order, weights, holdout))
  }

  predicate Covers(r: Range, bucket: int) {
    r.start <= bucket < r.end
  }

  /** The first range a bucket falls in. */
  function FindRange(ranges: seq<Range>, bucket: int): Option<Range> {
    if ranges == [] then None
    else if Covers(ranges[0], bucket) then Some(ranges[0])
    else FindRange(ranges[1..], bucket)
  }

  function VariantOrder(ranges: seq<Range>): seq<string> {
    if ranges == [] then []
    else (if ranges[0].isHoldout then [] else [ranges[0].variant]) + VariantOrder(ranges[1..])
  }

  // ---- The algorithms ----

  method NewRangeTable(order: seq<string>, weights: map<string, int>, holdout: int)
    returns (r: Result<seq<Range>, TableError>)
    ensures r == CheckedTable(order, weights, holdout)
  {
    if order == [] {
      return Err(NoVariants);
    }
    var ranges: seq<Range> := [];
    var cumulative := 0;
    var seen: set<string> := {};
    for i := 0 to |order|
      invariant FirstFault(order, weights, 0) == FirstFault(order, weights, i)
      invariant seen == set v | v in order[..i]
      invariant Weighted(order[..i], weights)
      invariant |ranges| == i
      invariant forall k :: 0 <= k < i ==> order[k] in weights
      invariant cumulative == Boundary(order[..i], weights, i)
      invariant forall k :: 0 <= k < i ==> ranges[k] == VariantRange(order[..i], weights, k)
    {
      var variant := order[i];
      if variant in seen {
        return Err(DuplicateVariant(variant));
      }
      seen := seen + {variant};
      if variant !in weights {
        return Err(MissingWeight(variant));
      }
      var width := weights[variant];
      if width < 0 {
        return Err(NegativeWeight(variant));
      }
      ranges := ranges + [Range(variant, cumulative, cumulative + width, false)];
      cumulative := cumulative + width;
      assert order[..i + 1] == order[..i] + [variant];
      forall k | 0 <= k <= i
        ensures Boundary(order[..i + 1], weights, k) == Boundary(order[..i], weights, k)
      {
        BoundaryPrefix(order[..i], [variant], weights, k);
      }
    }
    assert order[..|order|] == order;
    if holdout < 0 {
      return Err(NegativeHoldout);
    }
    ranges := ranges + [Range("", cumulative, cumulative + holdout, true)];
    cumulative := cumulative + holdout;
    if cumulative != BUCKETS {
      return Err(WrongSum(cumulative));
    }
    assert ranges == TableOf(order, weights, holdout);
    return Ok(ranges);
  }

  method Reweight(current: seq<Range>, weights: map<string, int>, holdout: int)
    returns (r: Result<seq<Range>, TableError>)
    ensures r == CheckedTable(VariantOrder(current), weights, holdout)
  {
    var order: seq<string> := [];
    for i := 0 to |current|
      invariant order + VariantOrder(current[i..]) == VariantOrder(current)
    {
      if !current[i].isHoldout {
        order := order + [current[i].variant];
      }
      assert current[i..][1..] == current[i + 1..];
    }
    assert current[|current|..] == [] && order == VariantOrder(current);
    r := NewRangeTable(order, weights, holdout);
  }

  method Lookup(ranges: seq<Range>, bucket: int) returns (found: Option<Range>)
    ensures found == FindRange(ranges, bucket)
  {
    for i := 0 to |ranges|
      invariant FindRange(ranges, bucket) == FindRange(ranges[i..], bucket)
    {
      if Covers(ranges[i], bucket) {
        return Some(ranges[i]);
      }
      assert ranges[i..][1..] == ranges[i + 1..];
    }
    return None;
  }

  lemma {:induction false} BoundaryPrefix(a: seq<string>, b: seq<string>, weights: map<string, int>, i: nat)
    requires i <= |a| && Weighted(a + b, weights) && Weighted(a, weights)
    ensures Boundary(a + b, weights, i) == Boundary(a, weights, i)
  {
    if i > 0 {
      BoundaryPrefix(a, b, weights, i - 1);
    }
  }

  // ---- What a table means ----

  predicate Accepts(order: seq<string>, weights: map<string, int>, holdout: int) {
    && order != []
    && (forall i, j :: 0 <= i < j < |order| ==> order[i] != order[j])
    && Weighted(order, weights)
    && (forall v :: v in order ==> weights[v] >= 0)
    && holdout >= 0
    && Boundary(order, weights, |order|) + holdout == BUCKETS
  }

  lemma {:induction false} NoFault(order: seq<string>, weights: map<string, int>, i: nat)
    requires i <= |order| && Weighted(order, weights)
    requires forall k, m :: 0 <= k < m < |order| ==> order[k] != order[m]
    requires forall v :: v in order ==> weights[v] >= 0
    ensures FirstFault(order, weights, i).None?
    decreases |order| - i
  {
    if i < |order| {
      assert order[i] in order;
      NoFault(order, weights, i + 1);
    }
  }

  /** A table is built exactly when the arms are distinct, weighted, non-negative and fill the space. */
  lemma {:induction false} BuiltIffAccepted(order: seq<string>, weights: map<string, int>, holdout: int)
    ensures CheckedTable(order, weights, holdout).Ok? <==> Accepts(order, weights, holdout)
  {
    if order != [] && FirstFault(order, weights, 0).None? {
      NoFaultWeighted(order, weights, 0);
      forall v | v in order ensures v in weights && weights[v] >= 0 {
        var k :| 0 <= k < |order| && order[k] == v;
      }
      forall i, j | 0 <= i < j < |order| ensures order[i] != order[j] {
        assert order[i] in order[..j];
      }
    }
    if Accepts(order, weights, holdout) {
      NoFault(order, weights, 0);
    }
  }

  /** The cut points of [0, BUCKETS): arm `i` owns `[cuts[i], cuts[i + 1])`. */
  ghost predicate ValidCuts(cuts: seq<int>) {
    && |cuts| >= 2 && cuts[0] == 0 && cuts[|cuts| - 1] == BUCKETS
    && forall i, j :: 0 <= i <= j < |cuts| ==> cuts[i] <= cuts[j]
  }

  ghost function Cuts(order: seq<string>, weights: map<string, int>): (cuts: seq<int>)
    requires Weighted(order, weights)
    ensures |cuts| == |order| + 2
  {
    seq(|order| + 1, i requires 0 <= i <= |order| => Boundary(order, weights, i)) + [BUCKETS]
  }

  lemma {:induction false} BoundaryMonotone(order: seq<string>, weights: map<string, int>, i: nat, j: nat)
    requires i <= j <= |order| && Weighted(order, weights) && forall v :: v in order ==> weights[v] >= 0
    ensures Boundary(order, weights, i) <= Boundary(order, weights, j)
  {
    if i < j {
      BoundaryMonotone(order, weights, i, j - 1);
      assert order[j - 1] in order;
    }
  }

  lemma {:induction false} CutsValid(order: seq<string>, weights: map<string, int>, holdout: int)
    requires Accepts(order, weights, holdout)
    ensures ValidCuts(Cuts(order, weights))
  {
    var cuts := Cuts(order, weights);
    forall i, j | 0 <= i <= j < |cuts| ensures cuts[i] <= cuts[j] {
      if i <= |order| {
        BoundaryMonotone(order, weights, i, if j <= |order| then j else |order|);
        BoundaryMonotone(order, weights, i, |order|);
      }
    }
  }

  /** The arm that owns `bucket`: the last one whose cut is not past it. */
  ghost function Arm(cuts: seq<int>, bucket: int): nat {
    if |cuts| <= 2 || cuts[1] > bucket then 0 else 1 + Arm(cuts[1..], bucket)
  }

  lemma {:induction false} ArmOwns(cuts: seq<int>, bucket: int)
    requires |cuts| >= 2 && cuts[0] <= bucket < cuts[|cuts| - 1]
    requires forall i, j :: 0 <= i <= j < |cuts| ==> cuts[i] <= cuts[j]
    ensures Arm(cuts, bucket) < |cuts| - 1
    ensures forall i :: 0 <= i < |cuts| - 1 ==> (cuts[i] <= bucket < cuts[i + 1] <==> i == Arm(cuts, bucket))
    ensures forall i :: 0 <= i < |cuts| ==> (cuts[i] <= bucket <==> i <= Arm(cuts, bucket))
  {
    if |cuts| > 2 && cuts[1] <= bucket {
      var rest := cuts[1..];
      ArmOwns(rest, bucket);
      forall i | 0 <= i < |cuts| ensures cuts[i] <= bucket <==> i <= Arm(cuts, bucket) {
        if i > 0 { assert cuts[i] == rest[i - 1]; }
      }
    } else {
      forall i | 0 <= i < |cuts| ensures cuts[i] <= bucket <==> i <= Arm(cuts, bucket) {
        if i > 0 { assert cuts[1] <= cuts[i]; }
      }
    }
  }

  lemma {:induction false} FindFrom(ranges: seq<Range>, i: nat, bucket: int)
    requires i < |ranges| && Covers(ranges[i], bucket)
    requires forall k :: 0 <= k < i ==> !Covers(ranges[k], bucket)
    ensures FindRange(ranges, bucket) == Some(ranges[i])
  {
    if i > 0 {
      FindFrom(ranges[1..], i - 1, bucket);
    }
  }

  lemma {:induction false} TableAgainstCuts(order: seq<string>, weights: map<string, int>, holdout: int, i: nat)
    requires Accepts(order, weights, holdout) && i <= |order|
    ensures var cuts, range := Cuts(order, weights), TableOf(order, weights, holdout)[i];
            range.start == cuts[i] && range.end == cuts[i + 1]
  {
  }

  /** Every bucket is looked up in exactly one arm, and arm `i` owns the interval of its weight. */
  lemma {:induction false} LookupFindsTheOwner(order: seq<string>, weights: map<string, int>, holdout: int, bucket: int)
    requires Accepts(order, weights, holdout) && 0 <= bucket < BUCKETS
    ensures var cuts, table := Cuts(order, weights), TableOf(order, weights, holdout);
            && Arm(cuts, bucket) < |table|
            && FindRange(table, bucket) == Some(table[Arm(cuts, bucket)])
            && forall i :: 0 <= i < |table| ==> (Covers(table[i], bucket) <==> i == Arm(cuts, bucket))
  {
    var cuts, table := Cuts(order, weights), TableOf(order, weights, holdout);
    assert ValidCuts(cuts) by {
      CutsValid(order, weights, holdout);
    }
    var arm := Arm(cuts, bucket);
    ArmOwns(cuts, bucket);
    forall i | 0 <= i < |table| ensures Covers(table[i], bucket) <==> i == arm {
      TableAgainstCuts(order, weights, holdout, i);
    }
    FindFrom(table, arm, bucket);
  }

  /** The arms a table names, read back, are the order it was built from. */
  lemma {:induction false} OrderOfTable(order: seq<string>, weights: map<string, int>, holdout: int, i: nat)
    requires Weighted(order, weights) && i <= |order|
    ensures VariantOrder(TableOf(order, weights, holdout)[i..]) == order[i..]
    decreases |order| - i
  {
    var table := TableOf(order, weights, holdout);
    assert table[i..][1..] == table[i + 1..];
    if i < |order| {
      OrderOfTable(order, weights, holdout, i + 1);
      assert order[i..] == [order[i]] + order[i + 1..];
    } else {
      assert table[i..] == [table[i]] && table[i + 1..] == [];
    }
  }
}
