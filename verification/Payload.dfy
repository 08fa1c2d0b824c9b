/**
 Payload assembly (internal/delivery/payload): the shared half, which depends on segments, language
 and schema major only, and the per-channel overlay of variant assignment and holdout.
 */
module Payload {
  import opened Wrappers
  import opened Ordering
  import opened Definitions
  import Allocation

  datatype BundleMessage = BundleMessage(
    messageId: string, version: int, priority: int, expiresAt: int, policy: ControlPolicy,
    triggers: string, conditions: string, holdoutFraction: real, salt: string,
    fallback: Variant, languageVariants: seq<Variant>)

  datatype Entry = Entry(
    messageId: string, version: int, variantId: string, schema: SchemaVersion, priority: int, content: string,
    triggers: string, conditions: string, policy: ControlPolicy, expiresAt: int)

  datatype BuildError = NoVariants(messageId: string) | AssignmentFailed(messageId: string)

  /** A requesting channel. `bucket` is assign.Bucket for its identity: a salt to a bucket. */
  datatype Viewer = Viewer(channel: string, language: string, major: int, bucket: string -> int)

  // ---- The shared half ----

  predicate Eligible(m: Message, segments: set<string>, now: int) {
    && m.state.Active? && m.windowStart <= now && m.windowEnd > now
    && m.audience.Some? && m.audience.value in segments
  }

  function EligibleIn(ms: seq<Message>, segments: set<string>, now: int): seq<Message> {
    if ms == [] then []
    else (if Eligible(ms[0], segments, now) then [ms[0]] else []) + EligibleIn(ms[1..], segments, now)
  }

  /** `ORDER BY priority DESC, id`. */
  predicate ServedBefore(a: Message, b: Message) {
    a.priority > b.priority || (a.priority == b.priority && StringLe(a.id, b.id))
  }

  function Supporting(vs: seq<Variant>, major: int): seq<Variant> {
    if vs == [] then []
    else (if vs[0].schema.major == major then [vs[0]] else []) + Supporting(vs[1..], major)
  }

  function InLanguage(vs: seq<Variant>, language: string): seq<Variant> {
    if vs == [] then []
    else (if vs[0].language == language then [vs[0]] else []) + InLanguage(vs[1..], language)
  }

  /** `None` when no variant supports the declared major. */
  function ToBundleMessage(m: Message, language: string, major: int): Result<Option<BundleMessage>, BuildError> {
    if m.variants == [] then Err(NoVariants(m.id))
    else
      var compatible := Supporting(m.variants, major);
      if compatible == [] then Ok(None)
      else Ok(Some(BundleMessage(m.id, m.version, m.priority, m.windowEnd, m.policy, m.triggers, m.conditions,
                                 m.holdoutFraction, m.salt, compatible[0], InLanguage(compatible, language))))
  }

  function BundleOf(ms: seq<Message>, language: string, major: int): Result<seq<BundleMessage>, BuildError> {
    if ms == [] then Ok([])
    else
      match BundleOf(ms[..|ms| - 1], language, major)
      case Err(e) => Err(e)
      case Ok(b) =>
        match ToBundleMessage(ms[|ms| - 1], language, major)
        case Err(e) => Err(e)
        case Ok(None) => Ok(b)
        case Ok(Some(bm)) => Ok(b + [bm])
  }

  function AssembleShared(ms: seq<Message>, segments: set<string>, language: string, major: int, now: int)
    : Result<seq<BundleMessage>, BuildError>
  {
    if segments == {} then Ok([])
    else BundleOf(Sort(EligibleIn(ms, segments, now), ServedBefore), language, major)
  }

  // ---- The overlay ----

  function Weights(vs: seq<Variant>): map<string, int> {
    if vs == [] then map[] else Weights(vs[..|vs| - 1])[vs[|vs| - 1].id := vs[|vs| - 1].weight]
  }

  function Ids(vs: seq<Variant>): (ids: seq<string>)
    ensures |ids| == |vs| && forall i :: 0 <= i < |vs| ==> ids[i] == vs[i].id
  {
    seq(|vs|, i requires 0 <= i < |vs| => vs[i].id)
  }

  function FindVariant(vs: seq<Variant>, id: string): Option<Variant> {
    if vs == [] then None else if vs[0].id == id then Some(vs[0]) else FindVariant(vs[1..], id)
  }

  function EntryWith(bm: BundleMessage, v: Variant): Entry {
    Entry(bm.messageId, bm.version, v.id, v.schema, bm.priority, v.content, bm.triggers, bm.conditions, bm.policy, bm.expiresAt)
  }

  /** `None` when the viewer is in the message's holdout. */
  function ApplyOverlay(bm: BundleMessage, viewer: Viewer): Result<Option<Entry>, BuildError> {
    var vs := bm.languageVariants;
    if vs == [] then Ok(Some(EntryWith(bm, bm.fallback)))
    else
      match Allocation.Assign(Ids(vs), Weights(vs), bm.holdoutFraction, viewer.bucket(bm.salt))
      case None => Err(AssignmentFailed(bm.messageId))
      case Some(Holdout) => Ok(None)
      case Some(Arm(id)) =>
        match FindVariant(vs, id)
        case None => Err(AssignmentFailed(bm.messageId))
        case Some(v) => Ok(Some(EntryWith(bm, v)))
  }

  function EntriesOf(b: seq<BundleMessage>, viewer: Viewer): Result<seq<Entry>, BuildError> {
    if b == [] then Ok([])
    else
      match EntriesOf(b[..|b| - 1], viewer)
      case Err(e) => Err(e)
      case Ok(es) =>
        match ApplyOverlay(b[|b| - 1], viewer)
        case Err(e) => Err(e)
        case Ok(None) => Ok(es)
        case Ok(Some(e)) => Ok(es + [e])
  }

  // ---- The algorithms ----

  /** The rows are read back by id, which is the table's primary key. */
  method Assemble(ms: seq<Message>, segments: set<string>, language: string, major: int, now: int)
    returns (r: Result<seq<BundleMessage>, BuildError>)
    requires DistinctIds(ms)
    ensures r == AssembleShared(ms, segments, language, major, now)
  {
    if segments == {} {
      return Ok([]);
    }
    var eligible := Sort(EligibleIn(ms, segments, now), ServedBefore);
    var messageIds := seq(|eligible|, i requires 0 <= i < |eligible| => eligible[i].id);
    var messages: seq<BundleMessage> := [];
    for i := 0 to |messageIds|
      invariant BundleOf(eligible[..i], language, major) == Ok(messages)
    {
      EligibleSorted(ms, segments, now);
      assert eligible[i] in eligible;
      FindDistinct(ms, eligible[i]);
      var msg := Find(ms, messageIds[i]).value;
      BundleFails(eligible, i + 1, language, major);
      assert eligible[..i + 1][..i] == eligible[..i];
      var built := ToBundleMessage(msg, language, major);
      match built
      case Err(e) => return Err(e);
      case Ok(None) =>
      case Ok(Some(bm)) => messages := messages + [bm];
    }
    assert eligible[..|eligible|] == eligible;
    return Ok(messages);
  }

  method Build(b: seq<BundleMessage>, viewer: Viewer) returns (r: Result<seq<Entry>, BuildError>)
    ensures r == EntriesOf(b, viewer)
  {
    var entries: seq<Entry> := [];
    for i := 0 to |b|
      invariant EntriesOf(b[..i], viewer) == Ok(entries)
    {
      EntriesFail(b, i + 1, viewer);
      assert b[..i + 1][..i] == b[..i];
      var overlaid := ApplyOverlay(b[i], viewer);
      match overlaid
      case Err(e) => return Err(e);
      case Ok(None) =>
      case Ok(Some(e)) => entries := entries + [e];
    }
    assert b[..|b|] == b;
    return Ok(entries);
  }

  lemma {:induction false} BundleFails(ms: seq<Message>, n: nat, language: string, major: int)
    requires n <= |ms|
    ensures BundleOf(ms[..n], language, major).Err? ==> BundleOf(ms, language, major) == BundleOf(ms[..n], language, major)
    decreases |ms|
  {
    if n < |ms| {
      var front := ms[..|ms| - 1];
      assert front[..n] == ms[..n];
      BundleFails(front, n, language, major);
    } else {
      assert ms[..n] == ms;
    }
  }

  lemma {:induction false} EntriesFail(b: seq<BundleMessage>, n: nat, viewer: Viewer)
    requires n <= |b|
    ensures EntriesOf(b[..n], viewer).Err? ==> EntriesOf(b, viewer) == EntriesOf(b[..n], viewer)
    decreases |b|
  {
    if n < |b| {
      var front := b[..|b| - 1];
      assert front[..n] == b[..n];
      EntriesFail(front, n, viewer);
    } else {
      assert b[..n] == b;
    }
  }

  lemma {:induction false} OneOverlayFails(b: seq<BundleMessage>, k: nat, viewer: Viewer)
    requires k < |b| && ApplyOverlay(b[k], viewer).Err?
    ensures EntriesOf(b, viewer).Err?
  {
    LastOverlayFails(b[..k + 1], viewer);
    EntriesFail(b, k + 1, viewer);
  }

  lemma {:induction false} LastOverlayFails(b: seq<BundleMessage>, viewer: Viewer)
    requires b != [] && ApplyOverlay(b[|b| - 1], viewer).Err?
    ensures EntriesOf(b, viewer).Err?
  {
  }

  // ---- What a built payload contains ----

  lemma {:induction false} EligibleInMembers(ms: seq<Message>, segments: set<string>, now: int)
    ensures forall m :: m in EligibleIn(ms, segments, now) <==> m in ms && Eligible(m, segments, now)
  {
    if ms != [] {
      EligibleInMembers(ms[1..], segments, now);
      assert ms == [ms[0]] + ms[1..];
    }
  }

  lemma {:induction false} EligibleSorted(ms: seq<Message>, segments: set<string>, now: int)
    ensures forall m :: m in Sort(EligibleIn(ms, segments, now), ServedBefore) <==> m in ms && Eligible(m, segments, now)
  {
    EligibleInMembers(ms, segments, now);
    SortPermutes(EligibleIn(ms, segments, now), ServedBefore);
    SameElements(Sort(EligibleIn(ms, segments, now), ServedBefore), EligibleIn(ms, segments, now));
  }

  /** The entry a viewer gets for a message once it is eligible: none if incompatible or held out. */
  function EntryFor(m: Message, viewer: Viewer): (e: Option<Entry>)
    ensures e.Some? ==> e.value.messageId == m.id && e.value.expiresAt == m.windowEnd
  {
    match ToBundleMessage(m, viewer.language, viewer.major)
    case Ok(Some(bm)) =>
      (match ApplyOverlay(bm, viewer)
       case Ok(e) => e
       case Err(_) => None)
    case _ => None
  }

  /** The entry of `m` if it is eligible at `now`. */
  function EntryAt(m: Message, segments: set<string>, now: int, viewer: Viewer): Option<Entry> {
    if Eligible(m, segments, now) then EntryFor(m, viewer) else None
  }

  /** One more message at the end: what it adds to the bundle and to the entries. */
  lemma {:induction false} LastMessage(ms: seq<Message>, b: seq<BundleMessage>, viewer: Viewer, es: seq<Entry>)
    returns (b': seq<BundleMessage>, es': seq<Entry>)
    requires ms != [] && BundleOf(ms, viewer.language, viewer.major) == Ok(b) && EntriesOf(b, viewer) == Ok(es)
    ensures BundleOf(ms[..|ms| - 1], viewer.language, viewer.major) == Ok(b') && EntriesOf(b', viewer) == Ok(es')
    ensures var last := EntryFor(ms[|ms| - 1], viewer);
            es == if last.Some? then es' + [last.value] else es'
  {
    b' := BundleOf(ms[..|ms| - 1], viewer.language, viewer.major).value;
    var built := ToBundleMessage(ms[|ms| - 1], viewer.language, viewer.major);
    if built.value.Some? {
      assert b == b' + [built.value.value] && b[..|b| - 1] == b';
    }
    es' := EntriesOf(b', viewer).value;
  }

  lemma {:induction false} EntryIncluded(ms: seq<Message>, b: seq<BundleMessage>, viewer: Viewer, es: seq<Entry>, m: Message)
    requires BundleOf(ms, viewer.language, viewer.major) == Ok(b) && EntriesOf(b, viewer) == Ok(es)
    requires m in ms && EntryFor(m, viewer).Some?
    ensures EntryFor(m, viewer).value in es
    decreases |ms|
  {
    var b', es' := LastMessage(ms, b, viewer, es);
    if m != ms[|ms| - 1] {
      EntryIncluded(ms[..|ms| - 1], b', viewer, es', m);
    }
  }

  lemma {:induction false} EntryFrom(ms: seq<Message>, b: seq<BundleMessage>, viewer: Viewer, es: seq<Entry>, e: Entry)
    returns (m: Message)
    requires BundleOf(ms, viewer.language, viewer.major) == Ok(b) && EntriesOf(b, viewer) == Ok(es)
    requires e in es
    ensures m in ms && EntryFor(m, viewer) == Some(e)
    decreases |ms|
  {
    if ms == [] {
      assert false;
    } else {
      var b', es' := LastMessage(ms, b, viewer, es);
      if e in es' {
        m := EntryFrom(ms[..|ms| - 1], b', viewer, es', e);
      } else {
        m := ms[|ms| - 1];
      }
    }
  }

  /** A payload built from a bundle assembled at `at` holds exactly the entries of the messages eligible then. */
  lemma {:induction false} BuiltEntries(ms: seq<Message>, segments: set<string>, at: int, b: seq<BundleMessage>, viewer: Viewer, es: seq<Entry>)
    requires AssembleShared(ms, segments, viewer.language, viewer.major, at) == Ok(b) && EntriesOf(b, viewer) == Ok(es)
    ensures forall m :: m in ms && EntryAt(m, segments, at, viewer).Some? ==> EntryAt(m, segments, at, viewer).value in es
    ensures forall e :: e in es ==> exists m :: m in ms && EntryAt(m, segments, at, viewer) == Some(e)
  {
    if segments != {} {
      EligibleSorted(ms, segments, at);
      var eligible := Sort(EligibleIn(ms, segments, at), ServedBefore);
      forall m | m in ms && EntryAt(m, segments, at, viewer).Some? ensures EntryAt(m, segments, at, viewer).value in es {
        EntryIncluded(eligible, b, viewer, es, m);
      }
      forall e | e in es ensures exists m :: m in ms && EntryAt(m, segments, at, viewer) == Some(e) {
        var m := EntryFrom(eligible, b, viewer, es, e);
        assert EntryAt(m, segments, at, viewer) == Some(e);
      }
    }
  }

  lemma {:induction false} EligibleInDistinct(ms: seq<Message>, segments: set<string>, now: int)
    requires DistinctIds(ms)
    ensures DistinctIds(EligibleIn(ms, segments, now))
  {
    if ms != [] {
      var rest := EligibleIn(ms[1..], segments, now);
      EligibleInDistinct(ms[1..], segments, now);
      EligibleInMembers(ms[1..], segments, now);
      forall k | 0 <= k < |rest| ensures rest[k].id != ms[0].id {
        assert rest[k] in rest;
      }
    }
  }

  lemma {:induction false} EligibleDistinct(ms: seq<Message>, segments: set<string>, now: int)
    requires DistinctIds(ms)
    ensures DistinctIds(Sort(EligibleIn(ms, segments, now), ServedBefore))
  {
    var eligible := EligibleIn(ms, segments, now);
    var sorted := Sort(eligible, ServedBefore);
    EligibleInDistinct(ms, segments, now);
    SortPermutes(eligible, ServedBefore);
    DistinctPermutation(eligible, sorted);
    EligibleSorted(ms, segments, now);
    forall i, j | 0 <= i < j < |sorted| ensures sorted[i].id != sorted[j].id {
      assert sorted[i] in sorted && sorted[j] in sorted;
      FindDistinct(ms, sorted[i]);
      FindDistinct(ms, sorted[j]);
    }
  }

  ghost predicate DistinctEntries(es: seq<Entry>) {
    forall i, j :: 0 <= i < j < |es| ==> es[i].messageId != es[j].messageId
  }

  lemma {:induction false} EntriesDistinct(ms: seq<Message>, b: seq<BundleMessage>, viewer: Viewer, es: seq<Entry>)
    requires DistinctIds(ms) && BundleOf(ms, viewer.language, viewer.major) == Ok(b) && EntriesOf(b, viewer) == Ok(es)
    ensures DistinctEntries(es)
    decreases |ms|
  {
    if ms != [] {
      var b', es' := LastMessage(ms, b, viewer, es);
      var front, last := ms[..|ms| - 1], ms[|ms| - 1];
      EntriesDistinct(front, b', viewer, es');
      forall i | 0 <= i < |es'| ensures es'[i].messageId != last.id {
        var m := EntryFrom(front, b', viewer, es', es'[i]);
      }
    }
  }

  /** A payload carries each message once. */
  lemma {:induction false} BuiltEntriesDistinct(ms: seq<Message>, segments: set<string>, at: int, b: seq<BundleMessage>, viewer: Viewer, es: seq<Entry>)
    requires DistinctIds(ms)
    requires AssembleShared(ms, segments, viewer.language, viewer.major, at) == Ok(b) && EntriesOf(b, viewer) == Ok(es)
    ensures DistinctEntries(es)
  {
    if segments != {} {
      EligibleDistinct(ms, segments, at);
      EntriesDistinct(Sort(EligibleIn(ms, segments, at), ServedBefore), b, viewer, es);
    }
  }

  lemma {:induction false} SupportingMembers(vs: seq<Variant>, major: int)
    ensures forall v :: v in Supporting(vs, major) ==> v in vs
  {
    if vs != [] {
      SupportingMembers(vs[1..], major);
    }
  }

  lemma {:induction false} InLanguageMembers(vs: seq<Variant>, language: string)
    ensures forall v :: v in InLanguage(vs, language) ==> v in vs
  {
    if vs != [] {
      InLanguageMembers(vs[1..], language);
    }
  }

  lemma {:induction false} FoundVariant(vs: seq<Variant>, id: string)
    requires FindVariant(vs, id).Some?
    ensures FindVariant(vs, id).value in vs
  {
    if vs[0].id != id {
      FoundVariant(vs[1..], id);
    }
  }

  lemma {:induction false} OverlayNamesAVariant(bm: BundleMessage, viewer: Viewer)
    requires ApplyOverlay(bm, viewer).Ok? && ApplyOverlay(bm, viewer).value.Some?
    ensures var e := ApplyOverlay(bm, viewer).value.value;
            exists v :: (v == bm.fallback || v in bm.languageVariants) && v.id == e.variantId
  {
    var vs := bm.languageVariants;
    if vs != [] {
      var id := Allocation.Assign(Ids(vs), Weights(vs), bm.holdoutFraction, viewer.bucket(bm.salt)).value.variant;
      FoundVariant(vs, id);
    }
  }

  /** What a viewer is given of a message is one of its variants. */
  lemma {:induction false} EntryNamesAVariant(m: Message, viewer: Viewer)
    requires EntryFor(m, viewer).Some?
    ensures exists v :: v in m.variants && v.id == EntryFor(m, viewer).value.variantId
  {
    var bm := ToBundleMessage(m, viewer.language, viewer.major).value.value;
    SupportingMembers(m.variants, viewer.major);
    InLanguageMembers(Supporting(m.variants, viewer.major), viewer.language);
    OverlayNamesAVariant(bm, viewer);
  }

  // ---- What leaves an assembly unchanged ----

  lemma {:induction false} DraftChangesNothing(ms: seq<Message>, m: Message, segments: set<string>, now: int)
    requires !m.state.Active?
    ensures EligibleIn(ms + [m], segments, now) == EligibleIn(ms, segments, now)
  {
    if ms == [] {
      assert ms + [m] == [m] && [m][1..] == [];
    } else {
      assert (ms + [m])[1..] == ms[1..] + [m];
      DraftChangesNothing(ms[1..], m, segments, now);
    }
  }

  /** Replacing a message by one of the same audience, outside `segments`, changes nothing for them. */
  lemma {:induction false} OutsiderChangesNothing(ms: seq<Message>, i: nat, m: Message, segments: set<string>, now: int)
    requires i < |ms| && m.audience == ms[i].audience
    requires m.audience.None? || m.audience.value !in segments
    ensures EligibleIn(ms[i := m], segments, now) == EligibleIn(ms, segments, now)
  {
    if i > 0 {
      assert ms[i := m][1..] == ms[1..][i - 1 := m];
      OutsiderChangesNothing(ms[1..], i - 1, m, segments, now);
    } else {
      assert ms[i := m][1..] == ms[1..];
    }
  }
}
