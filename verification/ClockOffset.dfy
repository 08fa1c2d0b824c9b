/** Estimating a device's clock skew by the median, and correcting for it (internal/event/clockoffset). */
module ClockOffset {
  import opened Ordering

  predicate IntLe(a: int, b: int) {
    a <= b
  }

  function InOrder(deltas: seq<int>): seq<int> {
    Sort(deltas, IntLe)
  }

  /** Integer division by two as Go does it, toward zero. */
  function Half(x: int): int {
    if x >= 0 then x / 2 else -((-x) / 2)
  }

  function Median(deltas: seq<int>): int {
    SortPermutes(deltas, IntLe);
    var sorted, mid := InOrder(deltas), |deltas| / 2;
    if deltas == [] then 0
    else if |deltas| % 2 == 1 then sorted[mid]
    else Half(sorted[mid - 1] + sorted[mid])
  }

  /** The caller's array stays as it was: a copy is sorted. */
  method MedianOffset(deltas: array<int>) returns (m: int)
    ensures m == Median(deltas[..])
  {
    if deltas.Length == 0 { return 0; }
    var sorted := Sort(deltas[..], IntLe);
    SortPermutes(deltas[..], IntLe);
    var mid := |sorted| / 2;
    if |sorted| % 2 == 1 { return sorted[mid]; }
    var sum := sorted[mid - 1] + sorted[mid];
    m := Half(sum);
  }

  /** Corrected first, clamped to the receipt after. */
  function Correct(deviceTime: int, serverTime: int, offset: int): (t: int)
    ensures t <= serverTime
    ensures t <= deviceTime - offset
    ensures t == serverTime || t == deviceTime - offset
  {
    var corrected := deviceTime - offset;
    if corrected > serverTime then serverTime else corrected
  }

  // ---- Order ----

  ghost function All(s: seq<int>): set<int> {
    set x | x in s
  }

  lemma {:induction false} SortedInOrder(s: seq<int>)
    ensures Sorted(InOrder(s), IntLe) && |InOrder(s)| == |s|
  {
    SortSorted(s, All(s), IntLe);
    SortPermutes(s, IntLe);
  }

  /** The median does not depend on the order of the samples. */
  lemma {:induction false} MedianIgnoresOrder(a: seq<int>, b: seq<int>)
    requires multiset(a) == multiset(b)
    ensures Median(a) == Median(b)
  {
    SameOrder(a, b);
    assert |a| == |multiset(a)| && |b| == |multiset(b)|;
  }

  lemma {:induction false} SameOrder(a: seq<int>, b: seq<int>)
    requires multiset(a) == multiset(b)
    ensures InOrder(a) == InOrder(b)
  {
    SortPermutes(a, IntLe);
    SortPermutes(b, IntLe);
    SortedInOrder(a);
    SortedInOrder(b);
    SortWithin(a, All(a), IntLe);
    SortedUnique(InOrder(a), InOrder(b), All(a), IntLe);
  }

  // ---- Counting ----

  /** How many samples are smaller than `x`. */
  function Below(s: seq<int>, x: int): (n: nat)
    ensures n <= |s|
  {
    if s == [] then 0 else (if s[0] < x then 1 else 0) + Below(s[1..], x)
  }

  lemma {:induction false} BelowInsert(y: int, s: seq<int>, x: int)
    ensures Below(Insert(y, s, IntLe), x) == Below(s, x) + if y < x then 1 else 0
  {
    if s != [] && !IntLe(y, s[0]) {
      BelowInsert(y, s[1..], x);
    }
  }

  lemma {:induction false} BelowSort(s: seq<int>, x: int)
    ensures Below(InOrder(s), x) == Below(s, x)
  {
    if s != [] {
      BelowSort(s[1..], x);
      BelowInsert(s[0], InOrder(s[1..]), x);
    }
  }

  lemma {:induction false} BelowAppend(a: seq<int>, b: seq<int>, x: int)
    ensures Below(a + b, x) == Below(a, x) + Below(b, x)
  {
    if a == [] {
      assert a + b == b;
    } else {
      assert (a + b)[1..] == a[1..] + b;
      BelowAppend(a[1..], b, x);
    }
  }

  lemma {:induction false} AllBelow(s: seq<int>, x: int)
    ensures (forall i :: 0 <= i < |s| ==> s[i] < x) ==> Below(s, x) == |s|
    ensures (forall i :: 0 <= i < |s| ==> s[i] >= x) ==> Below(s, x) == 0
  {
    if s != [] { AllBelow(s[1..], x); }
  }

  /** In sorted samples, position and rank agree. */
  lemma {:induction false} RankInSorted(s: seq<int>, x: int, i: nat)
    requires Sorted(s, IntLe) && i < |s|
    ensures s[i] < x <==> Below(s, x) > i
  {
    assert s == s[..i] + s[i..];
    BelowAppend(s[..i], s[i..], x);
    if s[i] < x {
      forall j | 0 <= j < i ensures s[..i][j] < x { SortedPairs(s, IntLe, j, i); }
      AllBelow(s[..i], x);
      assert s[i..][0] == s[i];
    } else {
      forall j | 0 <= j < |s[i..]| ensures s[i..][j] >= x {
        if j > 0 { SortedPairs(s, IntLe, i, i + j); }
      }
      AllBelow(s[i..], x);
    }
  }

  // ---- Robustness ----

  /** How many samples two equally long lists differ in. */
  function Differences(a: seq<int>, b: seq<int>): nat
    requires |a| == |b|
  {
    if a == [] then 0 else (if a[0] != b[0] then 1 else 0) + Differences(a[1..], b[1..])
  }

  lemma {:induction false} BelowMovesLittle(a: seq<int>, b: seq<int>, x: int)
    requires |a| == |b|
    ensures Below(b, x) <= Below(a, x) + Differences(a, b)
    ensures Below(a, x) <= Below(b, x) + Differences(a, b)
  {
    if a != [] { BelowMovesLittle(a[1..], b[1..], x); }
  }

  /** Changing `k` samples moves an order statistic by at most `k` places among the old ones. */
  lemma {:induction false} OrderStatisticMovesLittle(a: seq<int>, b: seq<int>, i: nat, k: nat)
    requires |a| == |b| && Differences(a, b) <= k && k <= i && i + k < |a|
    ensures |InOrder(a)| == |a| == |InOrder(b)|
    ensures InOrder(a)[i - k] <= InOrder(b)[i] <= InOrder(a)[i + k]
  {
    var s, t := InOrder(a), InOrder(b);
    SortedInOrder(a);
    SortedInOrder(b);
    var lo, hi := s[i - k], s[i + k] + 1;
    BelowSort(a, lo);
    BelowSort(b, lo);
    BelowMovesLittle(a, b, lo);
    RankInSorted(s, lo, i - k);
    RankInSorted(t, lo, i);
    BelowSort(a, hi);
    BelowSort(b, hi);
    BelowMovesLittle(a, b, hi);
    RankInSorted(s, hi, i + k);
    RankInSorted(t, hi, i);
  }

  /**
   However `k` samples are changed, the median stays between the old samples `k` places below and above
   the middle one; of an even number, the middle two. One bad sample out of three moves it by one place.
   */
  lemma {:induction false} MedianIsRobust(a: seq<int>, b: seq<int>, k: nat)
    requires |a| == |b| && Differences(a, b) <= k
    requires |a| % 2 == 1 ==> k <= |a| / 2
    requires |a| % 2 == 0 ==> k + 1 <= |a| / 2
    ensures |InOrder(a)| == |a|
    ensures var below := (|a| - 1) / 2 - k; var above := |a| / 2 + k;
            InOrder(a)[below] <= Median(b) <= InOrder(a)[above]
  {
    var mid := |a| / 2;
    OrderStatisticMovesLittle(a, b, mid, k);
    if |a| % 2 == 0 {
      OrderStatisticMovesLittle(a, b, mid - 1, k);
      SortedInOrder(b);
      SortedPairs(InOrder(b), IntLe, mid - 1, mid);
      HalfBetween(InOrder(b)[mid - 1], InOrder(b)[mid]);
    }
  }

  lemma {:induction false} HalfBetween(x: int, y: int)
    requires x <= y
    ensures x <= Half(x + y) <= y
  {
  }

  lemma {:induction false} OneReplaced(a: seq<int>, i: nat, v: int)
    requires i < |a|
    ensures Differences(a, a[i := v]) <= 1
  {
    if i == 0 {
      assert a[1..] == a[0 := v][1..];
      NoDifference(a[1..]);
    } else {
      assert a[i := v][1..] == a[1..][i - 1 := v];
      OneReplaced(a[1..], i - 1, v);
    }
  }

  lemma {:induction false} NoDifference(a: seq<int>)
    ensures Differences(a, a) == 0
  {
    if a != [] { NoDifference(a[1..]); }
  }

  /** Replacing one sample of an odd number, three or more, by any value leaves the median between its old neighbours. */
  lemma {:induction false} OneBadSample(a: seq<int>, i: nat, v: int)
    requires |a| % 2 == 1 && |a| >= 3 && i < |a|
    ensures |InOrder(a)| == |a|
    ensures InOrder(a)[|a| / 2 - 1] <= Median(a[i := v]) <= InOrder(a)[|a| / 2 + 1]
  {
    OneReplaced(a, i, v);
    MedianIsRobust(a, a[i := v], 1);
  }

  /** A skew shared by more than half of the samples is the median, whatever the others are. */
  lemma {:induction false} MajoritySkewIsMeasured(a: seq<int>, skew: int)
    requires 2 * (Below(a, skew + 1) - Below(a, skew)) > |a|
    ensures Median(a) == skew
  {
    var s, mid := InOrder(a), |a| / 2;
    SortedInOrder(a);
    BelowSort(a, skew);
    BelowSort(a, skew + 1);
    RankInSorted(s, skew, mid);
    RankInSorted(s, skew + 1, mid);
    if |a| % 2 == 0 {
      RankInSorted(s, skew, mid - 1);
      RankInSorted(s, skew + 1, mid - 1);
    }
  }

  // ---- What the median is ----

  /** `x` is the sample with `i` samples before it in order: at most `i` are smaller, and more than `i` are no larger. */
  ghost predicate Ranked(s: seq<int>, x: int, i: int) {
    Below(s, x) <= i < Below(s, x + 1)
  }

  /** `m` is half of `sum`, the fraction dropped. */
  ghost predicate HalfOf(m: int, sum: int) {
    if sum >= 0 then 2 * m <= sum <= 2 * m + 1 else 2 * m - 1 <= sum <= 2 * m
  }

  lemma {:induction false} InOrderIsRanked(s: seq<int>, i: nat)
    requires i < |s|
    ensures |InOrder(s)| == |s| && Ranked(s, InOrder(s)[i], i)
  {
    SortedInOrder(s);
    var x := InOrder(s)[i];
    BelowSort(s, x);
    BelowSort(s, x + 1);
    RankInSorted(InOrder(s), x, i);
    RankInSorted(InOrder(s), x + 1, i);
  }

  lemma {:induction false} BelowMonotone(s: seq<int>, x: int, y: int)
    requires x <= y
    ensures Below(s, x) <= Below(s, y)
  {
    if s != [] { BelowMonotone(s[1..], x, y); }
  }

  lemma {:induction false} RankIsUnique(s: seq<int>, x: int, y: int, i: int)
    requires Ranked(s, x, i) && Ranked(s, y, i)
    ensures x == y
  {
    if x < y { BelowMonotone(s, x + 1, y); }
    if y < x { BelowMonotone(s, y + 1, x); }
  }

  /** The median of any samples is half the sum of the two in the middle, which are one sample when their number is odd; of no samples, zero. */
  lemma {:induction false} MedianMeans(s: seq<int>, x: int, y: int)
    requires s != [] ==> Ranked(s, x, (|s| - 1) / 2) && Ranked(s, y, |s| / 2)
    ensures if s == [] then Median(s) == 0 else HalfOf(Median(s), x + y)
    ensures |s| % 2 == 1 ==> Median(s) == x == y
  {
    if s != [] {
      var mid := |s| / 2;
      InOrderIsRanked(s, mid);
      RankIsUnique(s, y, InOrder(s)[mid], mid);
      InOrderIsRanked(s, (|s| - 1) / 2);
      RankIsUnique(s, x, InOrder(s)[(|s| - 1) / 2], (|s| - 1) / 2);
    }
  }

  lemma {:induction false} InOrderIsOf(s: seq<int>, i: nat)
    requires i < |InOrder(s)|
    ensures InOrder(s)[i] in s
  {
    SortPermutes(s, IntLe);
    assert InOrder(s)[i] in multiset(InOrder(s));
  }

  /** There are always such samples. */
  lemma {:induction false} MiddlesExist(s: seq<int>) returns (x: int, y: int)
    requires s != []
    ensures x in s && y in s && x <= y && Ranked(s, x, (|s| - 1) / 2) && Ranked(s, y, |s| / 2)
  {
    var i, j := (|s| - 1) / 2, |s| / 2;
    InOrderIsRanked(s, i);
    InOrderIsRanked(s, j);
    SortedInOrder(s);
    InOrderIsOf(s, i);
    InOrderIsOf(s, j);
    x, y := InOrder(s)[i], InOrder(s)[j];
    if i < j {
      SortedPairs(InOrder(s), IntLe, i, j);
      assert IntLe(x, y);
    }
  }
}
