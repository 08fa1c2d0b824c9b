/** The byte-wise string order, and what the program relies on from the sort library. */
module Ordering {
  /** `a <= b` in the byte-wise lexicographic order Go and the shared SQL collation use. */
  predicate StringLe(a: string, b: string) {
    a == [] || (b != [] && (a[0] < b[0] || (a[0] == b[0] && StringLe(a[1..], b[1..]))))
  }

  predicate StringLt(a: string, b: string) {
    a != b && StringLe(a, b)
  }

  lemma {:induction false} StringLeTotal(a: string, b: string)
    ensures StringLe(a, b) || StringLe(b, a)
  {
    if a != [] && b != [] {
      StringLeTotal(a[1..], b[1..]);
    }
  }

  lemma {:induction false} StringLeAntisymmetric(a: string, b: string)
    requires StringLe(a, b) && StringLe(b, a)
    ensures a == b
  {
    if a != [] {
      StringLeAntisymmetric(a[1..], b[1..]);
      assert a == [a[0]] + a[1..] && b == [b[0]] + b[1..];
    }
  }

  lemma {:induction false} StringLeTransitive(a: string, b: string, c: string)
    requires StringLe(a, b) && StringLe(b, c)
    ensures StringLe(a, c)
  {
    if a != [] && a[0] == b[0] == c[0] {
      StringLeTransitive(a[1..], b[1..], c[1..]);
    }
  }

  /** A shared prefix decides nothing. */
  lemma {:induction false} StringLePrefix(p: string, a: string, b: string)
    ensures StringLe(p + a, p + b) == StringLe(a, b)
  {
    if p == [] {
      assert p + a == a && p + b == b;
    } else {
      assert (p + a)[1..] == p[1..] + a && (p + b)[1..] == p[1..] + b;
      StringLePrefix(p[1..], a, b);
    }
  }

  // ---- Splitting ----

  lemma {:induction false} FirstSeparator(x: string, u: string, y: string, v: string, sep: char)
    requires sep !in x && sep !in y && x + ([sep] + u) == y + ([sep] + v)
    ensures x == y && u == v
  {
    var s := x + ([sep] + u);
    assert s[|x|] == sep && forall i :: 0 <= i < |x| ==> s[i] == x[i];
    assert s[|y|] == sep && forall i :: 0 <= i < |y| ==> s[i] == y[i];
    assert |x| == |y|;
    SplitEqual(x, [sep] + u, y, [sep] + v);
    SplitEqual([sep], u, [sep], v);
  }

  lemma {:induction false} SplitEqual<T>(x: seq<T>, u: seq<T>, y: seq<T>, v: seq<T>)
    requires x + u == y + v && |x| == |y|
    ensures x == y && u == v
  {
    var s := x + u;
    assert s[..|x|] == x && s[..|x|] == y;
    assert s[|x|..] == u && s[|x|..] == v;
  }

  // ---- Repetition ----

  predicate Distinct<T(==)>(s: seq<T>) {
    forall i, j :: 0 <= i < j < |s| ==> s[i] != s[j]
  }

  lemma {:induction false} DistinctPermutation<T>(a: seq<T>, b: seq<T>)
    requires multiset(a) == multiset(b) && Distinct(a)
    ensures Distinct(b)
  {
    forall i, j | 0 <= i < j < |b| ensures b[i] != b[j] {
      if b[i] == b[j] {
        var x := b[i];
        assert b == b[..i] + [x] + b[i + 1..j] + [x] + b[j + 1..];
        assert multiset(a)[x] >= 2;
        AtMostOnce(a, x);
      }
    }
  }

  lemma {:induction false} AtMostOnce<T>(a: seq<T>, x: T)
    requires Distinct(a)
    ensures multiset(a)[x] <= 1
  {
    if a != [] {
      assert a == [a[0]] + a[1..];
      AtMostOnce(a[1..], x);
    }
  }

  // ---- Sorting ----

  function Insert<T>(x: T, s: seq<T>, le: (T, T) -> bool): seq<T> {
    if s == [] || le(x, s[0]) then [x] + s else [s[0]] + Insert(x, s[1..], le)
  }

  /** A sorted permutation of `s`. */
  function Sort<T>(s: seq<T>, le: (T, T) -> bool): seq<T> {
    if s == [] then [] else Insert(s[0], Sort(s[1..], le), le)
  }

  lemma {:induction false} InsertPermutes<T>(x: T, s: seq<T>, le: (T, T) -> bool)
    ensures multiset(Insert(x, s, le)) == multiset(s) + multiset{x}
    ensures |Insert(x, s, le)| == |s| + 1
  {
    if s != [] && !le(x, s[0]) {
      InsertPermutes(x, s[1..], le);
      assert s == [s[0]] + s[1..];
    }
  }

  lemma {:induction false} SortPermutes<T>(s: seq<T>, le: (T, T) -> bool)
    ensures multiset(Sort(s, le)) == multiset(s)
    ensures |Sort(s, le)| == |s|
  {
    if s != [] {
      SortPermutes(s[1..], le);
      InsertPermutes(s[0], Sort(s[1..], le), le);
      assert s == [s[0]] + s[1..];
    }
  }

  ghost predicate Sorted<T>(s: seq<T>, le: (T, T) -> bool) {
    s == [] || ((forall y :: y in s[1..] ==> le(s[0], y)) && Sorted(s[1..], le))
  }

  /** `le` is a total preorder on `u`. */
  ghost predicate Orders<T>(u: set<T>, le: (T, T) -> bool) {
    && (forall x, y :: x in u && y in u ==> le(x, y) || le(y, x))
    && (forall x, y, z :: x in u && y in u && z in u && le(x, y) && le(y, z) ==> le(x, z))
  }

  ghost predicate Antisymmetric<T>(u: set<T>, le: (T, T) -> bool) {
    forall x, y :: x in u && y in u && le(x, y) && le(y, x) ==> x == y
  }

  ghost predicate Within<T>(s: seq<T>, u: set<T>) {
    forall x :: x in s ==> x in u
  }

  lemma {:induction false} SameElements<T>(a: seq<T>, b: seq<T>)
    requires multiset(a) == multiset(b)
    ensures forall x :: x in a <==> x in b
  {
    forall x ensures x in a <==> x in b {
      assert x in a <==> x in multiset(a);
      assert x in b <==> x in multiset(b);
    }
  }

  lemma {:induction false} InsertSorted<T>(x: T, s: seq<T>, u: set<T>, le: (T, T) -> bool)
    requires Sorted(s, le) && Orders(u, le) && x in u && Within(s, u)
    ensures Sorted(Insert(x, s, le), le)
  {
    if s != [] {
      assert s[0] in s;
      if le(x, s[0]) {
        forall y | y in s ensures le(x, y) {
          if y != s[0] { assert y in s[1..]; }
        }
        assert ([x] + s)[1..] == s;
      } else {
        var rest := Insert(x, s[1..], le);
        InsertSorted(x, s[1..], u, le);
        InsertPermutes(x, s[1..], le);
        forall y | y in rest ensures le(s[0], y) {
          assert y in multiset(rest);
        }
        assert Insert(x, s, le)[1..] == rest;
      }
    }
  }

  lemma {:induction false} SortWithin<T>(s: seq<T>, u: set<T>, le: (T, T) -> bool)
    requires Within(s, u)
    ensures Within(Sort(s, le), u)
  {
    SortPermutes(s, le);
    forall x | x in Sort(s, le) ensures x in u {
      assert x in multiset(Sort(s, le));
    }
  }

  lemma {:induction false} SortSorted<T>(s: seq<T>, u: set<T>, le: (T, T) -> bool)
    requires Orders(u, le) && Within(s, u)
    ensures Sorted(Sort(s, le), le)
  {
    if s != [] {
      SortSorted(s[1..], u, le);
      SortWithin(s[1..], u, le);
      assert s[0] in s;
      InsertSorted(s[0], Sort(s[1..], le), u, le);
    }
  }

  lemma {:induction false} SortedPairs<T>(s: seq<T>, le: (T, T) -> bool, i: nat, j: nat)
    requires Sorted(s, le) && i < j < |s|
    ensures le(s[i], s[j])
  {
    if i == 0 {
      assert s[j] == s[1..][j - 1];
    } else {
      SortedPairs(s[1..], le, i - 1, j - 1);
    }
  }

  lemma {:induction false} SortedHeads<T>(a: seq<T>, b: seq<T>, u: set<T>, le: (T, T) -> bool)
    requires a != [] && b != [] && multiset(a) == multiset(b)
    requires Sorted(a, le) && Sorted(b, le) && Antisymmetric(u, le) && Within(a, u)
    ensures a[0] == b[0]
  {
    SameElements(a, b);
    assert a[0] in b && b[0] in a;
  }

  lemma {:induction false} TailMultiset<T>(a: seq<T>)
    requires a != []
    ensures multiset(a[1..]) == multiset(a) - multiset{a[0]}
  {
    assert a == [a[0]] + a[1..];
  }

  /** A total order sorts a multiset in one way only. */
  lemma {:induction false} SortedUnique<T>(a: seq<T>, b: seq<T>, u: set<T>, le: (T, T) -> bool)
    requires multiset(a) == multiset(b)
    requires Sorted(a, le) && Sorted(b, le) && Antisymmetric(u, le) && Within(a, u)
    ensures a == b
  {
    assert |multiset(a)| == |multiset(b)|;
    if a != [] {
      SortedHeads(a, b, u, le);
      TailMultiset(a);
      TailMultiset(b);
      SortedUnique(a[1..], b[1..], u, le);
    }
  }

  lemma {:induction false} RemoveAt<T>(a: seq<T>, b: seq<T>, k: nat)
    requires a != [] && k < |b| && b[k] == a[0] && multiset(a) == multiset(b)
    ensures multiset(a[1..]) == multiset(b[..k] + b[k + 1..])
  {
    TailMultiset(a);
    MiddleMultiset(b, k);
  }

  lemma {:induction false} MiddleMultiset<T>(b: seq<T>, k: nat)
    requires k < |b|
    ensures multiset(b[..k] + b[k + 1..]) == multiset(b) - multiset{b[k]}
  {
    assert b == b[..k] + ([b[k]] + b[k + 1..]);
  }

  function MapOf<T, U>(s: seq<T>, f: T -> U): seq<U> {
    if s == [] then [] else [f(s[0])] + MapOf(s[1..], f)
  }

  lemma {:induction false} MapSplit<T, U>(a: seq<T>, b: seq<T>, f: T -> U)
    ensures MapOf(a + b, f) == MapOf(a, f) + MapOf(b, f)
  {
    if a == [] {
      assert a + b == b;
    } else {
      assert (a + b)[1..] == a[1..] + b;
      MapSplit(a[1..], b, f);
    }
  }

  lemma {:induction false} MapRemoved<T, U>(b: seq<T>, k: nat, f: T -> U)
    requires k < |b|
    ensures multiset(MapOf(b, f)) == multiset{f(b[k])} + multiset(MapOf(b[..k] + b[k + 1..], f))
  {
    MapSplit(b[..k], b[k + 1..], f);
    assert b == b[..k] + b[k..] && b[k..][1..] == b[k + 1..];
    MapSplit(b[..k], b[k..], f);
  }

  /** Mapping a permutation gives a permutation. */
  lemma {:induction false} MapPermutation<T, U>(a: seq<T>, b: seq<T>, f: T -> U)
    requires multiset(a) == multiset(b)
    ensures multiset(MapOf(a, f)) == multiset(MapOf(b, f))
  {
    assert |multiset(a)| == |a| && |multiset(b)| == |b|;
    if a != [] {
      assert a[0] in multiset(b);
      var k :| 0 <= k < |b| && b[k] == a[0];
      RemoveAt(a, b, k);
      MapPermutation(a[1..], b[..k] + b[k + 1..], f);
      MapRemoved(b, k, f);
    }
  }
}
