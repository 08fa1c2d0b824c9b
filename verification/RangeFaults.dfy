/** Why a range table is refused: the first arm at fault, or what is wrong with them all together. */
module RangeFaults {
  import opened Wrappers
  import opened RangeTables

  /** Nothing is wrong with arm `k`. */
  ghost predicate Sound(order: seq<string>, weights: map<string, int>, k: nat)
    requires k < |order|
  {
    order[k] !in order[..k] && order[k] in weights && weights[order[k]] >= 0
  }

  /** What is wrong with an arm: repeated, else without a weight, else of negative weight. */
  ghost predicate Faulty(order: seq<string>, weights: map<string, int>, k: nat, e: TableError)
    requires k < |order|
  {
    var v := order[k];
    match e
    case DuplicateVariant(x) => x == v && v in order[..k]
    case MissingWeight(x) => x == v && v !in order[..k] && v !in weights
    case NegativeWeight(x) => x == v && v !in order[..k] && v in weights && weights[v] < 0
    case _ => false
  }

  ghost predicate SoundBefore(order: seq<string>, weights: map<string, int>, k: nat)
    requires k <= |order|
  {
    forall j :: 0 <= j < k ==> Sound(order, weights, j)
  }

  ghost predicate FaultyAt(order: seq<string>, weights: map<string, int>, k: nat, e: TableError) {
    k < |order| && SoundBefore(order, weights, k) && Faulty(order, weights, k, e)
  }

  ghost predicate FirstFaulty(order: seq<string>, weights: map<string, int>, e: TableError) {
    exists k: nat :: FaultyAt(order, weights, k, e)
  }

  lemma {:induction false} FirstFaultIs(order: seq<string>, weights: map<string, int>, i: nat)
    requires i <= |order| && SoundBefore(order, weights, i)
    ensures match FirstFault(order, weights, i)
            case None => SoundBefore(order, weights, |order|)
            case Some(e) => FirstFaulty(order, weights, e)
    decreases |order| - i
  {
    if i < |order| {
      if Sound(order, weights, i) {
        FirstFaultIs(order, weights, i + 1);
      } else {
        var e := FirstFault(order, weights, i).value;
        assert Faulty(order, weights, i, e) && FaultyAt(order, weights, i, e);
      }
    }
  }

  /**
   A refusal names the first arm that is at fault, and how; with none at fault, a negative holdout; else the
   sum that is not that of all buckets.
   */
  lemma {:induction false} RefusalsNameTheFirstFault(order: seq<string>, weights: map<string, int>, holdout: int)
    ensures match CheckedTable(order, weights, holdout)
            case Ok(_) => true
            case Err(NoVariants) => order == []
            case Err(NegativeHoldout) => SoundBefore(order, weights, |order|) && holdout < 0
            case Err(WrongSum(sum)) =>
              && SoundBefore(order, weights, |order|) && holdout >= 0 && Weighted(order, weights)
              && sum == Boundary(order, weights, |order|) + holdout && sum != 10000
            case Err(e) => FirstFaulty(order, weights, e)
  {
    FirstFaultIs(order, weights, 0);
    if SoundBefore(order, weights, |order|) {
      forall v | v in order ensures v in weights {
        var k :| 0 <= k < |order| && order[k] == v;
        assert Sound(order, weights, k);
      }
    }
  }
}
