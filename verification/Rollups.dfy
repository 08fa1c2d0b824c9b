/**
 Rolling events up into counts and reach sketches (internal/event/consumer), guarded by the record of
 events already applied; and the time an event is bucketed by (internal/event/model).
 The targeting, campaign and suppression tables are one map here, told apart by their keys.
 */
module Rollups {
  import opened Wrappers
  import Hll

  // ---- Events ----

  datatype Kind = Impression | ButtonPress | Dismissal | AutoClose | Suppression | HoldoutQualified | Custom

  /** Times are nanoseconds; `messageId` and `variantId` are empty when absent. */
  datatype Event = Event(
    id: string, seqNo: nat, channel: string, kind: Kind, name: string, deviceTime: int, serverTime: int,
    messageId: string, variantId: string, reason: string)

  const SECOND: int := 1_000_000_000
  const HOUR: int := 3600 * SECOND
  const DAY: int := 24 * HOUR
  const MAX_FUTURE_SKEW: int := 300 * SECOND
  const MAX_PAST_SKEW: int := 30 * DAY

  function KindName(k: Kind): string {
    match k
    case Impression => "impression"
    case ButtonPress => "button_press"
    case Dismissal => "dismissal"
    case AutoClose => "auto_close"
    case Suppression => "suppression"
    case HoldoutQualified => "holdout_qualified"
    case Custom => "custom"
  }

  function EventName(e: Event): string {
    if e.kind.Custom? then e.name else KindName(e.kind)
  }

  predicate SkewImplausible(deviceTime: int, serverTime: int) {
    serverTime - deviceTime < -MAX_FUTURE_SKEW || serverTime - deviceTime > MAX_PAST_SKEW
  }

  function EffectiveTime(deviceTime: int, serverTime: int): int {
    if SkewImplausible(deviceTime, serverTime) then serverTime else deviceTime
  }

  /** No clock puts an event more than five minutes ahead of its receipt, or more than thirty days before it. */
  lemma {:induction false} BucketsStayNearReceipt(deviceTime: int, serverTime: int)
    ensures serverTime - MAX_PAST_SKEW <= EffectiveTime(deviceTime, serverTime) <= serverTime + MAX_FUTURE_SKEW
    ensures EffectiveTime(deviceTime, serverTime) != deviceTime
            <==> !(serverTime - MAX_PAST_SKEW <= deviceTime <= serverTime + MAX_FUTURE_SKEW)
  {
  }

  function BucketTime(e: Event): int {
    EffectiveTime(e.deviceTime, e.serverTime)
  }

  /** `date_trunc` in UTC. */
  function Truncated(t: int, unit: int): int
    requires unit > 0
  {
    t - t % unit
  }

  // ---- What an event counts toward ----

  datatype Key =
    | Targeting(channel: string, name: string, day: int)
    | Campaign(messageId: string, variantId: string, hour: int, kind: Kind)
    | Suppressed(messageId: string, reason: string, day: int)

  datatype ReachKey = ReachKey(messageId: string, variantId: string, day: int)

  predicate CampaignKind(k: Kind) {
    k.Impression? || k.ButtonPress? || k.Dismissal? || k.AutoClose?
  }

  function TargetingKey(e: Event): Key {
    Targeting(e.channel, EventName(e), Truncated(BucketTime(e), DAY))
  }

  /** The second count an event drives, if any: campaign or suppression, never without a message. */
  function OutcomeKey(e: Event): Option<Key> {
    if e.messageId == "" then None
    else if CampaignKind(e.kind) then Some(Campaign(e.messageId, e.variantId, Truncated(BucketTime(e), HOUR), e.kind))
    else if e.kind.Suppression? then Some(Suppressed(e.messageId, e.reason, Truncated(BucketTime(e), DAY)))
    else None
  }

  function ReachOf(e: Event): Option<ReachKey> {
    if e.messageId != "" && e.kind.Impression? then Some(ReachKey(e.messageId, e.variantId, Truncated(BucketTime(e), DAY))) else None
  }

  predicate CountsToward(e: Event, k: Key) {
    k == TargetingKey(e) || OutcomeKey(e) == Some(k)
  }

  // ---- The tables ----

  datatype Tables = Tables(applied: set<string>, counts: map<Key, nat>, sketches: map<ReachKey, Hll.Registers>)

  const EMPTY := Tables({}, map[], map[])

  type Digest = string -> nat

  function CountOf(counts: map<Key, nat>, k: Key): nat {
    if k in counts then counts[k] else 0
  }

  /** `ON CONFLICT ... DO UPDATE SET count = count + 1`. */
  function Incremented(counts: map<Key, nat>, k: Key): map<Key, nat> {
    counts[k := CountOf(counts, k) + 1]
  }

  ghost predicate SizedSketches(t: Tables) {
    forall k :: k in t.sketches ==> Hll.Sized(t.sketches[k])
  }

  function SketchFor(t: Tables, k: ReachKey): Hll.Registers {
    if k in t.sketches then t.sketches[k] else Hll.Empty()
  }

  function Reached(t: Tables, digest: Digest, e: Event): map<ReachKey, Hll.Registers>
    requires SizedSketches(t)
  {
    var k := ReachOf(e);
    if k.None? then t.sketches
    else t.sketches[k.value := Hll.Added(SketchFor(t, k.value), Hll.SplitHash(digest(e.channel)))]
  }

  /** One event: nothing if its id is recorded, otherwise the record and every write it drives. */
  function AppliedOne(t: Tables, digest: Digest, e: Event): (t': Tables)
    requires SizedSketches(t)
    ensures SizedSketches(t')
  {
    if e.id in t.applied then t
    else
      var counts := Incremented(t.counts, TargetingKey(e));
      Tables(t.applied + {e.id},
             if OutcomeKey(e).Some? then Incremented(counts, OutcomeKey(e).value) else counts,
             Reached(t, digest, e))
  }

  function AppliedAll(t: Tables, digest: Digest, es: seq<Event>): (t': Tables)
    requires SizedSketches(t)
    ensures SizedSketches(t')
  {
    if es == [] then t else AppliedOne(AppliedAll(t, digest, es[..|es| - 1]), digest, es[|es| - 1])
  }

  lemma {:induction false} AppliedAppend(t: Tables, digest: Digest, a: seq<Event>, b: seq<Event>)
    requires SizedSketches(t)
    ensures AppliedAll(t, digest, a + b) == AppliedAll(AppliedAll(t, digest, a), digest, b)
  {
    if b == [] {
      assert a + b == a;
    } else {
      assert (a + b)[..|a + b| - 1] == a + b[..|b| - 1];
      AppliedAppend(t, digest, a, b[..|b| - 1]);
    }
  }

  // ---- Exactly once ----

  function Ids(es: seq<Event>): set<string> {
    set e | e in es :: e.id
  }

  /** The first copy delivered under an id. */
  function FirstCopy(es: seq<Event>, id: string): Option<Event> {
    if es == [] then None
    else
      var earlier := FirstCopy(es[..|es| - 1], id);
      if earlier.Some? then earlier
      else if es[|es| - 1].id == id then Some(es[|es| - 1]) else None
  }

  /** The delivered ids whose first copy counts toward `k`. */
  ghost function IdsToward(es: seq<Event>, k: Key): set<string> {
    set id | id in Ids(es) && FirstCopy(es, id).Some? && CountsToward(FirstCopy(es, id).value, k)
  }

  /** The identities reached under `k`, by the first copies. */
  ghost function HashesReached(es: seq<Event>, digest: Digest, k: ReachKey): set<Hll.Hash> {
    set id | id in Ids(es) && FirstCopy(es, id).Some? && ReachOf(FirstCopy(es, id).value) == Some(k) ::
      Hll.SplitHash(digest(FirstCopy(es, id).value.channel))
  }

  lemma {:induction false} FirstCopyKnown(es: seq<Event>, id: string)
    ensures FirstCopy(es, id).Some? <==> id in Ids(es)
    ensures FirstCopy(es, id).Some? ==> FirstCopy(es, id).value in es && FirstCopy(es, id).value.id == id
  {
    if es != [] {
      FirstCopyKnown(es[..|es| - 1], id);
      assert es == es[..|es| - 1] + [es[|es| - 1]];
    }
  }

  lemma {:induction false} IdsSnoc(es: seq<Event>)
    requires es != []
    ensures Ids(es) == Ids(es[..|es| - 1]) + {es[|es| - 1].id}
  {
    assert es == es[..|es| - 1] + [es[|es| - 1]];
  }

  lemma {:induction false} AppliedAreDelivered(digest: Digest, es: seq<Event>)
    ensures AppliedAll(EMPTY, digest, es).applied == Ids(es)
  {
    if es != [] {
      AppliedAreDelivered(digest, es[..|es| - 1]);
      IdsSnoc(es);
    }
  }

  /** How the last delivery changes the ids toward a key. */
  lemma {:induction false} TowardSnoc(es: seq<Event>, k: Key)
    requires es != []
    ensures var front, e := es[..|es| - 1], es[|es| - 1];
            IdsToward(es, k) == IdsToward(front, k) + (if e.id !in Ids(front) && CountsToward(e, k) then {e.id} else {})
    ensures es[|es| - 1].id !in Ids(es[..|es| - 1]) ==> es[|es| - 1].id !in IdsToward(es[..|es| - 1], k)
  {
    var front, e := es[..|es| - 1], es[|es| - 1];
    IdsSnoc(es);
    FirstCopyKnown(front, e.id);
    forall id | id in Ids(es) && id != e.id ensures FirstCopy(es, id) == FirstCopy(front, id) {
    }
  }

  lemma {:induction false} OneCounts(t: Tables, digest: Digest, e: Event, k: Key)
    requires SizedSketches(t)
    ensures CountOf(AppliedOne(t, digest, e).counts, k) == CountOf(t.counts, k) + if e.id !in t.applied && CountsToward(e, k) then 1 else 0
  {
    assert OutcomeKey(e) != Some(TargetingKey(e));
  }

  /**
   Every count is the number of distinct delivered ids whose first copy has that key, however often and
   in whatever copies the events were delivered.
   */
  lemma {:induction false} CountsAreExact(digest: Digest, es: seq<Event>, k: Key)
    ensures CountOf(AppliedAll(EMPTY, digest, es).counts, k) == |IdsToward(es, k)|
  {
    if es == [] {
      assert IdsToward(es, k) == {};
    } else {
      var front, e := es[..|es| - 1], es[|es| - 1];
      CountsAreExact(digest, front, k);
      AppliedAreDelivered(digest, front);
      TowardSnoc(es, k);
      OneCounts(AppliedAll(EMPTY, digest, front), digest, e, k);
    }
  }

  lemma {:induction false} ReachedSnoc(digest: Digest, es: seq<Event>, k: ReachKey)
    requires es != []
    ensures var front, e := es[..|es| - 1], es[|es| - 1];
            HashesReached(es, digest, k)
            == HashesReached(front, digest, k) + (if e.id !in Ids(front) && ReachOf(e) == Some(k) then {Hll.SplitHash(digest(e.channel))} else {})
  {
    var front, e := es[..|es| - 1], es[|es| - 1];
    var all, before := HashesReached(es, digest, k), HashesReached(front, digest, k);
    IdsSnoc(es);
    FirstCopyKnown(front, e.id);
    forall h | h in before ensures h in all {
      var id :| id in Ids(front) && FirstCopy(front, id).Some? && ReachOf(FirstCopy(front, id).value) == Some(k)
                && Hll.SplitHash(digest(FirstCopy(front, id).value.channel)) == h;
      assert FirstCopy(es, id) == FirstCopy(front, id);
    }
    if e.id !in Ids(front) && ReachOf(e) == Some(k) {
      assert FirstCopy(es, e.id) == Some(e);
      assert Hll.SplitHash(digest(e.channel)) in all;
    }
    forall h | h in all && h !in before ensures e.id !in Ids(front) && ReachOf(e) == Some(k) && h == Hll.SplitHash(digest(e.channel)) {
      var id :| id in Ids(es) && FirstCopy(es, id).Some? && ReachOf(FirstCopy(es, id).value) == Some(k)
                && Hll.SplitHash(digest(FirstCopy(es, id).value.channel)) == h;
      if id in Ids(front) { FirstCopyKnown(front, id); }
    }
  }

  /** Every reach sketch is the sketch of the channels whose applied impressions have its key; no sketch, no impression. */
  lemma {:induction false} SketchesAreExact(digest: Digest, es: seq<Event>, k: ReachKey)
    ensures Hll.SketchOf(SketchFor(AppliedAll(EMPTY, digest, es), k), HashesReached(es, digest, k))
    ensures k in AppliedAll(EMPTY, digest, es).sketches <==> HashesReached(es, digest, k) != {}
  {
    if es == [] {
      assert HashesReached(es, digest, k) == {};
      Hll.EmptySketch();
    } else {
      var front, e := es[..|es| - 1], es[|es| - 1];
      var t := AppliedAll(EMPTY, digest, front);
      SketchesAreExact(digest, front, k);
      AppliedAreDelivered(digest, front);
      ReachedSnoc(digest, es, k);
      if e.id !in Ids(front) && ReachOf(e) == Some(k) {
        var h := Hll.SplitHash(digest(e.channel));
        Hll.AddExtends(SketchFor(t, k), HashesReached(front, digest, k), h);
        assert h in HashesReached(es, digest, k);
      }
    }
  }

  /** Delivering again what was delivered changes nothing. */
  lemma {:induction false} RedeliveryIsANoOp(digest: Digest, es: seq<Event>, again: seq<Event>)
    requires Ids(again) <= Ids(es)
    ensures AppliedAll(AppliedAll(EMPTY, digest, es), digest, again) == AppliedAll(EMPTY, digest, es)
  {
    if again != [] {
      IdsSnoc(again);
      RedeliveryIsANoOp(digest, es, again[..|again| - 1]);
      AppliedAreDelivered(digest, es);
    }
  }
}
