/**
 The content-derived entity tag (internal/delivery/etag): the entries are sorted by message id and
 serialised field by field, each field closed by a NUL; the byte stream is then hashed. The stream is
 modelled, the 64-bit hash over it is not.
 */
module Etag {
  import opened Wrappers
  import opened Ordering
  import opened Definitions
  import opened Decimals
  import opened Payload

  const NUL: char := 0 as char

  function BoolText(b: bool): string {
    if b then "true" else "false"
  }

  /** What the tag sees of an entry. */
  datatype Projection = Projection(messageId: string, version: int, variantId: string, schema: SchemaVersion, policy: ControlPolicy)

  function Project(e: Entry): Projection {
    Projection(e.messageId, e.version, e.variantId, e.schema, e.policy)
  }

  function Dotted(major: int, minor: int): string {
    Decimal(major) + (['.'] + Decimal(minor))
  }

  function Fields(p: Projection): seq<string> {
    [p.messageId, Decimal(p.version), p.variantId, Dotted(p.schema.major, p.schema.minor),
     Decimal(p.policy.perMessageCap), Decimal(p.policy.minInterval),
     BoolText(p.policy.exemptFromProjectCap), BoolText(p.policy.requiresConfirmation)]
  }

  /** Every field followed by a NUL. */
  function Terminated(fields: seq<string>): string {
    if fields == [] then [] else fields[0] + ([NUL] + Terminated(fields[1..]))
  }

  predicate ById(a: Entry, b: Entry) {
    StringLe(a.messageId, b.messageId)
  }

  function StreamOf(sorted: seq<Entry>): string {
    if sorted == [] then [] else StreamOf(sorted[..|sorted| - 1]) + Terminated(Fields(Project(sorted[|sorted| - 1])))
  }

  /** The bytes the tag of `entries` hashes. */
  function Stream(entries: seq<Entry>): string {
    StreamOf(Sort(entries, ById))
  }

  method Compute(entries: seq<Entry>) returns (stream: string)
    ensures stream == Stream(entries)
  {
    var sorted := Sort(entries, ById);
    stream := [];
    for i := 0 to |sorted|
      invariant stream == StreamOf(sorted[..i])
    {
      StreamSnoc(sorted, i);
      stream := stream + Terminated(Fields(Project(sorted[i])));
    }
    assert sorted[..|sorted|] == sorted;
  }

  lemma {:induction false} StreamSnoc(sorted: seq<Entry>, i: nat)
    requires i < |sorted|
    ensures StreamOf(sorted[..i + 1]) == StreamOf(sorted[..i]) + Terminated(Fields(Project(sorted[i])))
  {
    assert sorted[..i + 1][..i] == sorted[..i];
  }

  // ---- The stream determines the projections ----

  predicate NulFree(s: string) {
    NUL !in s
  }

  /** Message ids are distinct, and ids carry no NUL. */
  ghost predicate Taggable(entries: seq<Entry>) {
    && (forall i, j :: 0 <= i < j < |entries| ==> entries[i].messageId != entries[j].messageId)
    && (forall e :: e in entries ==> NulFree(e.messageId) && NulFree(e.variantId))
  }

  lemma {:induction false} TerminatedConcat(a: seq<string>, b: seq<string>)
    ensures Terminated(a + b) == Terminated(a) + Terminated(b)
  {
    if a == [] {
      assert a + b == b;
    } else {
      assert (a + b)[1..] == a[1..] + b;
      TerminatedConcat(a[1..], b);
    }
  }

  lemma {:induction false} TerminatedInjective(a: seq<string>, b: seq<string>)
    requires forall f :: f in a || f in b ==> NulFree(f)
    requires Terminated(a) == Terminated(b)
    ensures a == b
  {
    if a != [] && b != [] {
      assert a[0] in a && b[0] in b;
      FirstSeparator(a[0], Terminated(a[1..]), b[0], Terminated(b[1..]), NUL);
      TerminatedInjective(a[1..], b[1..]);
      assert a == [a[0]] + a[1..] && b == [b[0]] + b[1..];
    }
  }

  lemma {:induction false} DottedInjective(a: int, b: int, c: int, d: int)
    requires Dotted(a, b) == Dotted(c, d)
    ensures a == c && b == d
  {
    DecimalCharacters(a);
    DecimalCharacters(c);
    FirstSeparator(Decimal(a), Decimal(b), Decimal(c), Decimal(d), '.');
    DecimalInjective(a, c);
    DecimalInjective(b, d);
  }

  lemma {:induction false} FieldsInjective(p: Projection, q: Projection)
    requires Fields(p) == Fields(q)
    ensures p == q
  {
    var f, g := Fields(p), Fields(q);
    assert f[0] == g[0] && f[1] == g[1] && f[2] == g[2] && f[3] == g[3];
    assert f[4] == g[4] && f[5] == g[5] && f[6] == g[6] && f[7] == g[7];
    DecimalInjective(p.version, q.version);
    DottedInjective(p.schema.major, p.schema.minor, q.schema.major, q.schema.minor);
    DecimalInjective(p.policy.perMessageCap, q.policy.perMessageCap);
    DecimalInjective(p.policy.minInterval, q.policy.minInterval);
    assert "true"[0] == 't' && "false"[0] == 'f';
  }

  lemma {:induction false} FieldsNulFree(p: Projection)
    requires NulFree(p.messageId) && NulFree(p.variantId)
    ensures forall f :: f in Fields(p) ==> NulFree(f)
  {
    DecimalCharacters(p.version);
    DecimalCharacters(p.schema.major);
    DecimalCharacters(p.schema.minor);
    DecimalCharacters(p.policy.perMessageCap);
    DecimalCharacters(p.policy.minInterval);
  }

  function Projections(es: seq<Entry>): (ps: seq<Projection>)
    ensures |ps| == |es| && forall i :: 0 <= i < |es| ==> ps[i] == Project(es[i])
  {
    seq(|es|, i requires 0 <= i < |es| => Project(es[i]))
  }

  /** The stream of sorted entries, as one list of fields. */
  function AllFields(es: seq<Entry>): seq<string> {
    if es == [] then [] else AllFields(es[..|es| - 1]) + Fields(Project(es[|es| - 1]))
  }

  lemma {:induction false} StreamIsAllFields(es: seq<Entry>)
    requires forall e :: e in es ==> NulFree(e.messageId) && NulFree(e.variantId)
    ensures StreamOf(es) == Terminated(AllFields(es))
    ensures forall f :: f in AllFields(es) ==> NulFree(f)
  {
    if es != [] {
      StreamIsAllFields(es[..|es| - 1]);
      FieldsNulFree(Project(es[|es| - 1]));
      TerminatedConcat(AllFields(es[..|es| - 1]), Fields(Project(es[|es| - 1])));
    }
  }

  lemma {:induction false} FieldCount(es: seq<Entry>)
    ensures |AllFields(es)| == 8 * |es|
  {
    if es != [] {
      FieldCount(es[..|es| - 1]);
    }
  }

  lemma {:induction false} LastProjection(a: seq<Entry>, b: seq<Entry>)
    requires AllFields(a) == AllFields(b) && a != [] && b != []
    ensures AllFields(a[..|a| - 1]) == AllFields(b[..|b| - 1])
    ensures Project(a[|a| - 1]) == Project(b[|b| - 1])
  {
    FieldCount(a);
    FieldCount(b);
    FieldCount(a[..|a| - 1]);
    FieldCount(b[..|b| - 1]);
    SplitEqual(AllFields(a[..|a| - 1]), Fields(Project(a[|a| - 1])), AllFields(b[..|b| - 1]), Fields(Project(b[|b| - 1])));
    FieldsInjective(Project(a[|a| - 1]), Project(b[|b| - 1]));
  }

  lemma {:induction false} AllFieldsInjective(a: seq<Entry>, b: seq<Entry>)
    requires AllFields(a) == AllFields(b)
    ensures Projections(a) == Projections(b)
  {
    assert |a| == |b| by {
      FieldCount(a);
      FieldCount(b);
    }
    if a != [] {
      LastProjection(a, b);
      AllFieldsInjective(a[..|a| - 1], b[..|b| - 1]);
      ProjectionsSnoc(a);
      ProjectionsSnoc(b);
    }
  }

  lemma {:induction false} ProjectionsSnoc(es: seq<Entry>)
    requires es != []
    ensures Projections(es) == Projections(es[..|es| - 1]) + [Project(es[|es| - 1])]
  {
  }

  lemma {:induction false} ByIdOrders(u: set<Entry>)
    ensures Orders(u, ById)
  {
    forall x, y | x in u && y in u ensures ById(x, y) || ById(y, x) {
      StringLeTotal(x.messageId, y.messageId);
    }
    forall x, y, z | x in u && y in u && z in u && ById(x, y) && ById(y, z) ensures ById(x, z) {
      StringLeTransitive(x.messageId, y.messageId, z.messageId);
    }
  }

  lemma {:induction false} ProjectionsOfPermutation(a: seq<Entry>, b: seq<Entry>)
    requires multiset(a) == multiset(b)
    ensures forall p :: p in Projections(a) ==> p in Projections(b)
  {
    SameElements(a, b);
    forall p | p in Projections(a) ensures p in Projections(b) {
      var i :| 0 <= i < |a| && p == Project(a[i]);
      assert a[i] in b;
      var j :| 0 <= j < |b| && b[j] == a[i];
      assert Projections(b)[j] == p;
    }
  }

  ghost predicate InIdOrder(ps: seq<Projection>) {
    forall i, j :: 0 <= i < j < |ps| ==> ps[i].messageId != ps[j].messageId && StringLe(ps[i].messageId, ps[j].messageId)
  }

  /** In id order the projections alone fix the list: two lists with the same set of them are equal. */
  lemma {:induction false} SortedProjectionsUnique(a: seq<Projection>, b: seq<Projection>)
    requires InIdOrder(a) && InIdOrder(b)
    requires forall p :: p in a <==> p in b
    ensures a == b
  {
    assert b != [] ==> b[0] in b;
    if a != [] {
      assert a[0] in b && b != [] && b[0] in a;
      var i :| 0 <= i < |b| && b[i] == a[0];
      var j :| 0 <= j < |a| && a[j] == b[0];
      assert StringLe(a[0].messageId, b[0].messageId) && StringLe(b[0].messageId, a[0].messageId) by {
        if i == 0 { StringLeTotal(a[0].messageId, a[0].messageId); }
        if j == 0 { StringLeTotal(a[0].messageId, a[0].messageId); }
      }
      StringLeAntisymmetric(a[0].messageId, b[0].messageId);
      assert i == 0;
      forall p ensures p in a[1..] <==> p in b[1..] {
        if p in a[1..] {
          var k :| 1 <= k < |a| && a[k] == p;
          assert p in b && p != b[0];
        }
        if p in b[1..] {
          var k :| 1 <= k < |b| && b[k] == p;
          assert p in a && p != a[0];
        }
      }
      SortedProjectionsUnique(a[1..], b[1..]);
      assert a == [a[0]] + a[1..] && b == [b[0]] + b[1..];
    }
  }

  lemma {:induction false} SortedById(es: seq<Entry>)
    requires Taggable(es)
    ensures var ps := Projections(Sort(es, ById));
            && InIdOrder(ps)
            && (forall p :: p in ps <==> p in Projections(es))
            && (forall e :: e in Sort(es, ById) ==> NulFree(e.messageId) && NulFree(e.variantId))
  {
    var sorted := Sort(es, ById);
    SortPermutes(es, ById);
    SameElements(es, sorted);
    ProjectionsOfPermutation(es, sorted);
    ProjectionsOfPermutation(sorted, es);
    var u := set e | e in es;
    ByIdOrders(u);
    SortSorted(es, u, ById);
    forall i, j | 0 <= i < j < |sorted|
      ensures sorted[i].messageId != sorted[j].messageId && StringLe(sorted[i].messageId, sorted[j].messageId)
    {
      SortedPairs(sorted, ById, i, j);
      DistinctAfterSort(es, sorted, i, j);
    }
  }

  lemma {:induction false} DistinctAfterSort(es: seq<Entry>, sorted: seq<Entry>, i: nat, j: nat)
    requires multiset(es) == multiset(sorted) && i < j < |sorted|
    requires forall i, j :: 0 <= i < j < |es| ==> es[i].messageId != es[j].messageId
    ensures sorted[i].messageId != sorted[j].messageId
  {
    SameElements(es, sorted);
    assert sorted[i] in es && sorted[j] in es;
    DistinctPermutation(es, sorted);
  }

  /**
   Two payloads serialise to the same bytes exactly when they carry the same set of hashed projections,
   in whatever order their entries arrive.
   */
  lemma {:induction false} StreamIdentifiesProjections(a: seq<Entry>, b: seq<Entry>)
    requires Taggable(a) && Taggable(b)
    ensures Stream(a) == Stream(b) <==> forall p :: p in Projections(a) <==> p in Projections(b)
  {
    if Stream(a) == Stream(b) {
      SameStreamSameProjections(a, b);
    }
    if forall p :: p in Projections(a) <==> p in Projections(b) {
      SameProjectionsSameStream(a, b);
    }
  }

  lemma {:induction false} SameProjectionsSameStream(a: seq<Entry>, b: seq<Entry>)
    requires Taggable(a) && Taggable(b) && forall p :: p in Projections(a) <==> p in Projections(b)
    ensures Stream(a) == Stream(b)
  {
    SortedById(a);
    SortedById(b);
    SortedProjectionsUnique(Projections(Sort(a, ById)), Projections(Sort(b, ById)));
    StreamOfProjections(Sort(a, ById), Sort(b, ById));
  }

  lemma {:induction false} SameStreamSameProjections(a: seq<Entry>, b: seq<Entry>)
    requires Taggable(a) && Taggable(b) && Stream(a) == Stream(b)
    ensures forall p :: p in Projections(a) <==> p in Projections(b)
  {
    var s, t := Sort(a, ById), Sort(b, ById);
    SortedById(a);
    SortedById(b);
    assert Projections(s) == Projections(t) by {
      StreamIsAllFields(s);
      StreamIsAllFields(t);
      TerminatedInjective(AllFields(s), AllFields(t));
      AllFieldsInjective(s, t);
    }
  }

  lemma {:induction false} StreamOfProjections(s: seq<Entry>, t: seq<Entry>)
    requires Projections(s) == Projections(t)
    ensures StreamOf(s) == StreamOf(t)
  {
    if s != [] {
      assert |s| == |Projections(s)| == |t|;
      var s', t' := s[..|s| - 1], t[..|t| - 1];
      assert Projections(s') == Projections(s)[..|s| - 1] && Projections(t') == Projections(t)[..|s| - 1];
      assert Projections(s)[|s| - 1] == Projections(t)[|s| - 1];
      StreamOfProjections(s', t');
    }
  }

  /** All the tag sees of two entries is the same. */
  predicate AlikeToTheTag(e: Entry, f: Entry) {
    && e.messageId == f.messageId && e.version == f.version && e.variantId == f.variantId
    && e.schema.major == f.schema.major && e.schema.minor == f.schema.minor
    && e.policy.perMessageCap == f.policy.perMessageCap && e.policy.minInterval == f.policy.minInterval
    && e.policy.exemptFromProjectCap == f.policy.exemptFromProjectCap && e.policy.requiresConfirmation == f.policy.requiresConfirmation
  }

  ghost predicate EachHasAlike(a: seq<Entry>, b: seq<Entry>) {
    forall e :: e in a ==> exists f :: f in b && AlikeToTheTag(e, f)
  }

  lemma {:induction false} AlikeIff(e: Entry, f: Entry)
    ensures AlikeToTheTag(e, f) <==> Project(e) == Project(f)
  {
  }

  lemma {:induction false} EachHasAlikeIff(a: seq<Entry>, b: seq<Entry>)
    ensures EachHasAlike(a, b) <==> forall p :: p in Projections(a) ==> p in Projections(b)
  {
    if EachHasAlike(a, b) {
      forall p | p in Projections(a) ensures p in Projections(b) {
        var i :| 0 <= i < |a| && Projections(a)[i] == p;
        assert a[i] in a;
        var f :| f in b && AlikeToTheTag(a[i], f);
        AlikeIff(a[i], f);
        var j :| 0 <= j < |b| && b[j] == f;
        assert Projections(b)[j] == p;
      }
    }
    if forall p :: p in Projections(a) ==> p in Projections(b) {
      forall e | e in a ensures exists f :: f in b && AlikeToTheTag(e, f) {
        var i :| 0 <= i < |a| && a[i] == e;
        assert Projections(a)[i] in Projections(b);
        var j :| 0 <= j < |b| && Projections(b)[j] == Projections(a)[i];
        AlikeIff(e, b[j]);
        assert b[j] in b;
      }
    }
  }

  /** Two payloads have one tag if and only if each entry of either has one in the other that is alike in all the tag sees. */
  lemma {:induction false} SameTagIff(a: seq<Entry>, b: seq<Entry>)
    requires Taggable(a) && Taggable(b)
    ensures Stream(a) == Stream(b) <==> EachHasAlike(a, b) && EachHasAlike(b, a)
  {
    StreamIdentifiesProjections(a, b);
    EachHasAlikeIff(a, b);
    EachHasAlikeIff(b, a);
  }
}
