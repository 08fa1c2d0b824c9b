/**
 What a payload carries, in the messages' own fields: which messages, in which order, and of each the one
 variant a viewer is presented, with everything the entry says of it (internal/delivery/payload).
 */
module PayloadMeaning {
  import opened Wrappers
  import opened Ordering
  import opened Definitions
  import opened Payload
  import Allocation

  // ---- The variant a viewer is presented ----

  predicate Fits(v: Variant, viewer: Viewer) {
    v.schema.major == viewer.major && v.language == viewer.language
  }

  /** The variants of the viewer's major in the viewer's language. */
  function Group(vs: seq<Variant>, viewer: Viewer): (g: seq<Variant>)
    ensures forall v :: v in g <==> v in vs && Fits(v, viewer)
  {
    if vs == [] then []
    else
      assert vs == vs[..|vs| - 1] + [vs[|vs| - 1]];
      Group(vs[..|vs| - 1], viewer) + if Fits(vs[|vs| - 1], viewer) then [vs[|vs| - 1]] else []
  }

  ghost predicate DistinctVariants(vs: seq<Variant>) {
    forall i, j :: 0 <= i < j < |vs| ==> vs[i].id != vs[j].id
  }

  ghost function WeightsById(vs: seq<Variant>): map<string, int>
    requires DistinctVariants(vs)
  {
    map v | v in vs :: v.id := v.weight
  }

  /** What assignment makes of the group: its ids and their weights, the message's holdout, the viewer's bucket under the message's salt. */
  ghost function Outcome(m: Message, viewer: Viewer): Option<Allocation.Assigned>
    requires DistinctVariants(Group(m.variants, viewer))
  {
    Allocation.Assign(Ids(Group(m.variants, viewer)), WeightsById(Group(m.variants, viewer)), m.holdoutFraction, viewer.bucket(m.salt))
  }

  /** `v` is the first variant of the viewer's major. */
  ghost predicate FirstOfMajor(vs: seq<Variant>, viewer: Viewer, v: Variant) {
    exists i :: 0 <= i < |vs| && vs[i] == v && v.schema.major == viewer.major && forall j :: 0 <= j < i ==> vs[j].schema.major != viewer.major
  }

  /** The assigned arm of the viewer's language if there is a group for it, else the first of the major. */
  ghost predicate Presented(m: Message, viewer: Viewer, v: Variant)
    requires DistinctVariants(m.variants)
  {
    DistinctGroup(m.variants, viewer);
    if exists u :: u in m.variants && Fits(u, viewer) then
      v in m.variants && Fits(v, viewer) && Outcome(m, viewer) == Some(Allocation.Arm(v.id))
    else FirstOfMajor(m.variants, viewer, v)
  }

  /** The entry says of the message and the variant what they are. */
  predicate Carries(e: Entry, m: Message, v: Variant) {
    && e.messageId == m.id && e.version == m.version && e.priority == m.priority && e.expiresAt == m.windowEnd
    && e.policy == m.policy && e.triggers == m.triggers && e.conditions == m.conditions
    && e.variantId == v.id && e.schema == v.schema && e.content == v.content
  }

  // ---- The filters ----

  lemma {:induction false} DistinctGroup(vs: seq<Variant>, viewer: Viewer)
    requires DistinctVariants(vs)
    ensures DistinctVariants(Group(vs, viewer))
  {
    if vs != [] {
      var front, last := vs[..|vs| - 1], vs[|vs| - 1];
      DistinctGroup(front, viewer);
      var g := Group(front, viewer);
      forall i | 0 <= i < |g| ensures g[i].id != last.id {
        assert g[i] in g;
        var k :| 0 <= k < |front| && front[k] == g[i];
      }
    }
  }

  lemma {:induction false} FilterSnoc(vs: seq<Variant>, v: Variant, viewer: Viewer)
    ensures Supporting(vs + [v], viewer.major) == Supporting(vs, viewer.major) + if v.schema.major == viewer.major then [v] else []
    ensures InLanguage(vs + [v], viewer.language) == InLanguage(vs, viewer.language) + if v.language == viewer.language then [v] else []
  {
    if vs == [] {
      assert vs + [v] == [v] && [v][1..] == [];
    } else {
      assert (vs + [v])[1..] == vs[1..] + [v];
      FilterSnoc(vs[1..], v, viewer);
    }
  }

  lemma {:induction false} FiltersGroup(vs: seq<Variant>, viewer: Viewer)
    ensures InLanguage(Supporting(vs, viewer.major), viewer.language) == Group(vs, viewer)
  {
    if vs != [] {
      var front, last := vs[..|vs| - 1], vs[|vs| - 1];
      assert vs == front + [last];
      var supported := Supporting(front, viewer.major);
      FiltersGroup(front, viewer);
      FilterSnoc(front, last, viewer);
      FilterSnoc(supported, last, viewer);
      assert supported + [] == supported;
    }
  }

  lemma {:induction false} FirstSupported(vs: seq<Variant>, viewer: Viewer, v: Variant)
    ensures Supporting(vs, viewer.major) != [] && Supporting(vs, viewer.major)[0] == v <==> FirstOfMajor(vs, viewer, v)
  {
    if vs != [] && vs[0].schema.major != viewer.major {
      FirstSupported(vs[1..], viewer, v);
      if FirstOfMajor(vs[1..], viewer, v) {
        var i :| 0 <= i < |vs[1..]| && vs[1..][i] == v && forall j :: 0 <= j < i ==> vs[1..][j].schema.major != viewer.major;
        assert vs[i + 1] == v;
        forall j | 0 <= j < i + 1 ensures vs[j].schema.major != viewer.major {
          if j > 0 { assert vs[j] == vs[1..][j - 1]; }
        }
      }
      if FirstOfMajor(vs, viewer, v) {
        var i :| 0 <= i < |vs| && vs[i] == v && forall j :: 0 <= j < i ==> vs[j].schema.major != viewer.major;
        assert vs[1..][i - 1] == v;
      }
    }
  }

  lemma {:induction false} WeightOfEach(vs: seq<Variant>, k: nat)
    requires DistinctVariants(vs) && k < |vs|
    ensures vs[k].id in Weights(vs) && Weights(vs)[vs[k].id] == vs[k].weight
  {
    if k < |vs| - 1 {
      WeightOfEach(vs[..|vs| - 1], k);
    }
  }

  lemma {:induction false} WeighedIds(vs: seq<Variant>, id: string)
    ensures id in Weights(vs) ==> exists k :: 0 <= k < |vs| && vs[k].id == id
  {
    if vs != [] && vs[|vs| - 1].id != id {
      WeighedIds(vs[..|vs| - 1], id);
      if id in Weights(vs) {
        var k :| 0 <= k < |vs| - 1 && vs[..|vs| - 1][k].id == id;
        assert vs[k].id == id;
      }
    }
  }

  lemma {:induction false} WeightsAre(vs: seq<Variant>)
    requires DistinctVariants(vs)
    ensures Weights(vs) == WeightsById(vs)
  {
    var a, b := Weights(vs), WeightsById(vs);
    forall id | id in b ensures id in a && a[id] == b[id] {
      var v :| v in vs && v.id == id && b[id] == v.weight;
      var k :| 0 <= k < |vs| && vs[k] == v;
      WeightOfEach(vs, k);
    }
    forall id | id in a ensures id in b {
      WeighedIds(vs, id);
      var k :| 0 <= k < |vs| && vs[k].id == id;
      assert vs[k] in vs;
    }
  }

  lemma {:induction false} FoundById(vs: seq<Variant>, v: Variant)
    requires DistinctVariants(vs) && v in vs
    ensures FindVariant(vs, v.id) == Some(v)
  {
    if vs[0] != v {
      assert v in vs[1..];
      var k :| 1 <= k < |vs| && vs[k] == v;
      FoundById(vs[1..], v);
    }
  }

  lemma {:induction false} SupportedByGroup(vs: seq<Variant>, viewer: Viewer)
    requires Group(vs, viewer) != []
    ensures Supporting(vs, viewer.major) != []
  {
    FiltersGroup(vs, viewer);
  }

  // ---- One message ----

  function EntryOf(m: Message, v: Variant): Entry {
    Entry(m.id, m.version, v.id, v.schema, m.priority, v.content, m.triggers, m.conditions, m.policy, m.windowEnd)
  }

  lemma {:induction false} CarriesAll(e: Entry, m: Message, v: Variant)
    ensures Carries(e, m, v) <==> e == EntryOf(m, v)
  {
  }

  lemma {:induction false} GroupedIs(m: Message, viewer: Viewer)
    requires DistinctVariants(m.variants) && Group(m.variants, viewer) != [] && DistinctVariants(Group(m.variants, viewer))
    ensures var g, outcome := Group(m.variants, viewer), Outcome(m, viewer);
            EntryFor(m, viewer)
            == if outcome.Some? && outcome.value.Arm? && FindVariant(g, outcome.value.variant).Some?
               then Some(EntryOf(m, FindVariant(g, outcome.value.variant).value)) else None
  {
    var g := Group(m.variants, viewer);
    FiltersGroup(m.variants, viewer);
    SupportedByGroup(m.variants, viewer);
    WeightsAre(g);
    OverlayIs(BundledAs(m, viewer), viewer);
  }

  function BundledAs(m: Message, viewer: Viewer): BundleMessage
    requires Supporting(m.variants, viewer.major) != []
  {
    BundleMessage(m.id, m.version, m.priority, m.windowEnd, m.policy, m.triggers, m.conditions, m.holdoutFraction, m.salt,
                  Supporting(m.variants, viewer.major)[0], InLanguage(Supporting(m.variants, viewer.major), viewer.language))
  }

  lemma {:induction false} OverlayIs(bm: BundleMessage, viewer: Viewer)
    requires bm.languageVariants != []
    ensures var outcome := Allocation.Assign(Ids(bm.languageVariants), Weights(bm.languageVariants), bm.holdoutFraction, viewer.bucket(bm.salt));
            var shown := ApplyOverlay(bm, viewer);
            (if shown.Ok? then shown.value else None)
            == if outcome.Some? && outcome.value.Arm? && FindVariant(bm.languageVariants, outcome.value.variant).Some?
               then Some(EntryWith(bm, FindVariant(bm.languageVariants, outcome.value.variant).value)) else None
  {
  }

  lemma {:induction false} GroupPresents(m: Message, viewer: Viewer, v: Variant)
    requires DistinctVariants(m.variants) && Group(m.variants, viewer) != [] && DistinctVariants(Group(m.variants, viewer))
    ensures Presented(m, viewer, v) <==> v in Group(m.variants, viewer) && Outcome(m, viewer) == Some(Allocation.Arm(v.id))
  {
    assert Group(m.variants, viewer)[0] in Group(m.variants, viewer);
  }

  lemma {:induction false} GroupedEntry(m: Message, viewer: Viewer, e: Entry)
    requires DistinctVariants(m.variants) && Group(m.variants, viewer) != []
    ensures EntryFor(m, viewer) == Some(e) <==> exists v :: Presented(m, viewer, v) && Carries(e, m, v)
  {
    var g := Group(m.variants, viewer);
    DistinctGroup(m.variants, viewer);
    GroupedIs(m, viewer);
    if EntryFor(m, viewer) == Some(e) {
      var id := Outcome(m, viewer).value.variant;
      var v := FindVariant(g, id).value;
      FoundVariant(g, id);
      FoundIs(g, id);
      GroupPresents(m, viewer, v);
      CarriesAll(e, m, v);
    }
    if exists v :: Presented(m, viewer, v) && Carries(e, m, v) {
      var v :| Presented(m, viewer, v) && Carries(e, m, v);
      GroupPresents(m, viewer, v);
      FoundById(g, v);
      CarriesAll(e, m, v);
    }
  }

  lemma {:induction false} FoundIs(vs: seq<Variant>, id: string)
    requires FindVariant(vs, id).Some?
    ensures FindVariant(vs, id).value.id == id
  {
    if vs[0].id != id { FoundIs(vs[1..], id); }
  }

  lemma {:induction false} FallbackIs(m: Message, viewer: Viewer)
    requires Group(m.variants, viewer) == []
    ensures var supported := Supporting(m.variants, viewer.major);
            EntryFor(m, viewer) == if supported == [] then None else Some(EntryOf(m, supported[0]))
  {
    FiltersGroup(m.variants, viewer);
  }

  lemma {:induction false} NoGroupPresents(m: Message, viewer: Viewer, v: Variant)
    requires DistinctVariants(m.variants) && Group(m.variants, viewer) == []
    ensures Presented(m, viewer, v) <==> FirstOfMajor(m.variants, viewer, v)
  {
    forall u | u in m.variants ensures !Fits(u, viewer) {
      assert u !in Group(m.variants, viewer);
    }
  }

  lemma {:induction false} FallbackEntry(m: Message, viewer: Viewer, e: Entry)
    requires DistinctVariants(m.variants) && Group(m.variants, viewer) == []
    ensures EntryFor(m, viewer) == Some(e) <==> exists v :: Presented(m, viewer, v) && Carries(e, m, v)
  {
    var supported := Supporting(m.variants, viewer.major);
    FallbackIs(m, viewer);
    if EntryFor(m, viewer) == Some(e) {
      FirstSupported(m.variants, viewer, supported[0]);
      NoGroupPresents(m, viewer, supported[0]);
      CarriesAll(e, m, supported[0]);
    }
    if exists v :: Presented(m, viewer, v) && Carries(e, m, v) {
      var v :| Presented(m, viewer, v) && Carries(e, m, v);
      FirstSupported(m.variants, viewer, v);
      NoGroupPresents(m, viewer, v);
      CarriesAll(e, m, v);
    }
  }

  /** A viewer's entry for a message is just what carries its presented variant; without one there is none. */
  lemma {:induction false} EntryMeans(m: Message, viewer: Viewer, e: Entry)
    requires DistinctVariants(m.variants)
    ensures EntryFor(m, viewer) == Some(e) <==> exists v :: Presented(m, viewer, v) && Carries(e, m, v)
  {
    if Group(m.variants, viewer) != [] { GroupedEntry(m, viewer, e); } else { FallbackEntry(m, viewer, e); }
  }

  // ---- The payload ----

  /** Active at `at`, inside its window, and for one of the segments. */
  predicate Open(m: Message, segments: set<string>, at: int) {
    m.state == Active && m.windowStart <= at < m.windowEnd && m.audience.Some? && m.audience.value in segments
  }

  ghost predicate ProperVariants(ms: seq<Message>) {
    forall m :: m in ms ==> DistinctVariants(m.variants)
  }

  /** The payload built from a bundle assembled at `at` carries of each open message its presented variant, and nothing else. */
  lemma {:induction false} PayloadMeans(ms: seq<Message>, segments: set<string>, at: int, b: seq<BundleMessage>, viewer: Viewer, es: seq<Entry>, e: Entry)
    requires ProperVariants(ms)
    requires AssembleShared(ms, segments, viewer.language, viewer.major, at) == Ok(b) && EntriesOf(b, viewer) == Ok(es)
    ensures e in es <==> exists m, v :: m in ms && Open(m, segments, at) && DistinctVariants(m.variants) && Presented(m, viewer, v) && Carries(e, m, v)
  {
    BuiltEntries(ms, segments, at, b, viewer, es);
    if e in es {
      var m :| m in ms && EntryAt(m, segments, at, viewer) == Some(e);
      EntryMeans(m, viewer, e);
      var v :| Presented(m, viewer, v) && Carries(e, m, v);
    }
    if exists m, v :: m in ms && Open(m, segments, at) && DistinctVariants(m.variants) && Presented(m, viewer, v) && Carries(e, m, v) {
      var m, v :| m in ms && Open(m, segments, at) && DistinctVariants(m.variants) && Presented(m, viewer, v) && Carries(e, m, v);
      EntryMeans(m, viewer, e);
    }
  }

  // ---- In which order ----

  /** Higher priorities first, and of equal ones the smaller id. */
  predicate Precedes(a: Entry, b: Entry) {
    a.priority > b.priority || (a.priority == b.priority && a.messageId != b.messageId && StringLe(a.messageId, b.messageId))
  }

  ghost predicate InServingOrder(es: seq<Entry>) {
    forall i, j :: 0 <= i < j < |es| ==> Precedes(es[i], es[j])
  }

  lemma {:induction false} ServedBeforeOrders(u: set<Message>)
    ensures Orders(u, ServedBefore)
  {
    forall a, b | a in u && b in u ensures ServedBefore(a, b) || ServedBefore(b, a) {
      StringLeTotal(a.id, b.id);
    }
    forall a, b, c | a in u && b in u && c in u && ServedBefore(a, b) && ServedBefore(b, c) ensures ServedBefore(a, c) {
      if a.priority == b.priority == c.priority { StringLeTransitive(a.id, b.id, c.id); }
    }
  }

  lemma {:induction false} EntriesInOrder(ms: seq<Message>, b: seq<BundleMessage>, viewer: Viewer, es: seq<Entry>)
    requires DistinctIds(ms) && forall i, j :: 0 <= i < j < |ms| ==> ServedBefore(ms[i], ms[j])
    requires BundleOf(ms, viewer.language, viewer.major) == Ok(b) && EntriesOf(b, viewer) == Ok(es)
    ensures InServingOrder(es)
    decreases |ms|
  {
    if ms != [] {
      var b', es' := LastMessage(ms, b, viewer, es);
      var front, last := ms[..|ms| - 1], ms[|ms| - 1];
      EntriesInOrder(front, b', viewer, es');
      forall i | 0 <= i < |es'| && EntryFor(last, viewer).Some? ensures Precedes(es'[i], EntryFor(last, viewer).value) {
        var m := EntryFrom(front, b', viewer, es', es'[i]);
        var k :| 0 <= k < |front| && front[k] == m;
        EntryPriority(m, viewer);
        EntryPriority(last, viewer);
        assert ServedBefore(ms[k], ms[|ms| - 1]);
      }
    }
  }

  lemma {:induction false} EntryPriority(m: Message, viewer: Viewer)
    requires EntryFor(m, viewer).Some?
    ensures EntryFor(m, viewer).value.priority == m.priority && EntryFor(m, viewer).value.messageId == m.id
  {
  }

  /** And in that order. */
  lemma {:induction false} PayloadIsInOrder(ms: seq<Message>, segments: set<string>, at: int, b: seq<BundleMessage>, viewer: Viewer, es: seq<Entry>)
    requires DistinctIds(ms)
    requires AssembleShared(ms, segments, viewer.language, viewer.major, at) == Ok(b) && EntriesOf(b, viewer) == Ok(es)
    ensures InServingOrder(es)
  {
    if segments != {} {
      var eligible := EligibleIn(ms, segments, at);
      var sorted, u := Sort(eligible, ServedBefore), set m | m in eligible;
      EligibleDistinct(ms, segments, at);
      ServedBeforeOrders(u);
      SortSorted(eligible, u, ServedBefore);
      forall i, j | 0 <= i < j < |sorted| ensures ServedBefore(sorted[i], sorted[j]) {
        SortedPairs(sorted, ServedBefore, i, j);
      }
      EntriesInOrder(sorted, b, viewer, es);
    }
  }

  // ---- When there is none ----

  /** The message fails: it has a group for the viewer that cannot be assigned. */
  ghost predicate Unassigned(bm: BundleMessage, viewer: Viewer) {
    ApplyOverlay(bm, viewer).Err?
  }

  /** `k` is the first that fails. */
  ghost predicate FailsFirst(b: seq<BundleMessage>, viewer: Viewer, k: nat) {
    k < |b| && Unassigned(b[k], viewer) && forall j :: 0 <= j < k ==> !Unassigned(b[j], viewer)
  }

  lemma {:induction false} FailsFirstInFront(b: seq<BundleMessage>, n: nat, viewer: Viewer, k: nat)
    requires n <= |b| && FailsFirst(b[..n], viewer, k)
    ensures FailsFirst(b, viewer, k) && b[..n][k] == b[k]
  {
    assert forall j :: 0 <= j <= k ==> b[..n][j] == b[j];
  }

  lemma {:induction false} NoneFails(b: seq<BundleMessage>, viewer: Viewer)
    requires EntriesOf(b, viewer).Ok?
    ensures forall j :: 0 <= j < |b| ==> !Unassigned(b[j], viewer)
  {
    forall j | 0 <= j < |b| ensures !Unassigned(b[j], viewer) {
      if Unassigned(b[j], viewer) { OneOverlayFails(b, j, viewer); }
    }
  }

  /** A failed payload names the first message that fails, and a failed assembly the first without any variant. */
  lemma {:induction false} FailureNamesTheFirst(b: seq<BundleMessage>, viewer: Viewer) returns (k: nat)
    requires EntriesOf(b, viewer).Err?
    ensures FailsFirst(b, viewer, k) && EntriesOf(b, viewer) == Err(AssignmentFailed(b[k].messageId))
  {
    var n := |b| - 1;
    if EntriesOf(b[..n], viewer).Err? {
      k := FailureNamesTheFirst(b[..n], viewer);
      FailsFirstInFront(b, n, viewer, k);
    } else {
      NoneFails(b[..n], viewer);
      k := n;
      assert forall j :: 0 <= j < n ==> b[..n][j] == b[j];
    }
  }

  lemma {:induction false} AssemblyNamesTheFirst(ms: seq<Message>, language: string, major: int)
    requires BundleOf(ms, language, major).Err?
    ensures exists k :: 0 <= k < |ms| && ms[k].variants == [] && BundleOf(ms, language, major) == Err(NoVariants(ms[k].id))
                        && forall j :: 0 <= j < k ==> ms[j].variants != []
  {
    var n := |ms| - 1;
    if BundleOf(ms[..n], language, major).Err? {
      AssemblyNamesTheFirst(ms[..n], language, major);
      var k :| 0 <= k < n && ms[..n][k].variants == [] && BundleOf(ms[..n], language, major) == Err(NoVariants(ms[..n][k].id))
               && forall j :: 0 <= j < k ==> ms[..n][j].variants != [];
      assert ms[..n][k] == ms[k] && forall j :: 0 <= j < k ==> ms[..n][j] == ms[j];
    } else {
      AssembledHaveVariants(ms[..n], language, major);
      assert forall j :: 0 <= j < n ==> ms[..n][j] == ms[j];
    }
  }

  lemma {:induction false} AssembledHaveVariants(ms: seq<Message>, language: string, major: int)
    requires BundleOf(ms, language, major).Ok?
    ensures forall j :: 0 <= j < |ms| ==> ms[j].variants != []
  {
    if ms != [] {
      AssembledHaveVariants(ms[..|ms| - 1], language, major);
      assert forall j :: 0 <= j < |ms| - 1 ==> ms[..|ms| - 1][j] == ms[j];
    }
  }
}
