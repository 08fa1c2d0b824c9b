/**
 What one event changes, in the event's own fields: which day, hour and name it is counted under, which
 tables it touches, and that it touches nothing else (internal/event/consumer, applyBatch).
 */
module RollupMeaning {
  import opened Wrappers
  import opened Rollups
  import Hll

  /** The stretch of `length` nanoseconds from `start` is a whole one of its kind in UTC and has `t` in it. */
  predicate Spans(start: int, length: int, t: int)
    requires length > 0
  {
    start % length == 0 && start <= t < start + length
  }

  /** A day is 86400 seconds, an hour 3600, a second 10^9 nanoseconds. */
  predicate DayOf(day: int, t: int) {
    Spans(day, 86400 * 1_000_000_000, t)
  }

  predicate HourOf(hour: int, t: int) {
    Spans(hour, 3600 * 1_000_000_000, t)
  }

  /** The device's time if it is within thirty days before the receipt and five minutes after it, else the receipt's. */
  predicate CountedAt(e: Event, t: int) {
    if e.serverTime - 30 * 86400 * 1_000_000_000 <= e.deviceTime <= e.serverTime + 5 * 60 * 1_000_000_000 then t == e.deviceTime
    else t == e.serverTime
  }

  /** What the targeting count calls the event. */
  predicate CalledAs(e: Event, name: string) {
    match e.kind
    case Impression => name == "impression"
    case ButtonPress => name == "button_press"
    case Dismissal => name == "dismissal"
    case AutoClose => name == "auto_close"
    case Suppression => name == "suppression"
    case HoldoutQualified => name == "holdout_qualified"
    case Custom => name == e.name
  }

  /** Of the counts satisfying `ofKind`, that of `k` is one more and the others are as they were. */
  ghost predicate OneMore(before: map<Key, nat>, after: map<Key, nat>, ofKind: Key -> bool, k: Key) {
    && CountOf(after, k) == CountOf(before, k) + 1
    && forall other :: ofKind(other) && other != k ==> CountOf(after, other) == CountOf(before, other)
  }

  ghost predicate Same(before: map<Key, nat>, after: map<Key, nat>, ofKind: Key -> bool) {
    forall k :: ofKind(k) ==> CountOf(after, k) == CountOf(before, k)
  }

  /** Presented, pressed, dismissed or closed by itself: what a campaign's hour counts. */
  predicate CampaignFamily(e: Event) {
    e.kind in {Impression, ButtonPress, Dismissal, AutoClose}
  }

  /** The counts after one event that had not been applied, counted at `t` on `day` and in `hour`. */
  ghost predicate CountsChange(before: map<Key, nat>, after: map<Key, nat>, e: Event, name: string, day: int, hour: int) {
    && OneMore(before, after, (k: Key) => k.Targeting?, Targeting(e.channel, name, day))
    && (if e.messageId != "" && CampaignFamily(e)
        then OneMore(before, after, (k: Key) => k.Campaign?, Campaign(e.messageId, e.variantId, hour, e.kind))
        else Same(before, after, (k: Key) => k.Campaign?))
    && (if e.messageId != "" && e.kind.Suppression?
        then OneMore(before, after, (k: Key) => k.Suppressed?, Suppressed(e.messageId, e.reason, day))
        else Same(before, after, (k: Key) => k.Suppressed?))
  }

  /** Only an impression of a message touches a sketch: that of its message, variant and day, which then has seen the channel's sum. */
  ghost predicate SketchesChange(before: Tables, after: Tables, digest: Digest, e: Event, day: int) {
    if e.messageId != "" && e.kind.Impression? then
      var k := ReachKey(e.messageId, e.variantId, day);
      && after.sketches.Keys == before.sketches.Keys + {k}
      && (forall other :: other in before.sketches && other != k ==> after.sketches[other] == before.sketches[other])
      && Hll.SawSum(SketchFor(before, k), SketchFor(after, k), digest(e.channel))
    else after.sketches == before.sketches
  }

  lemma {:induction false} StretchIs(start: int, length: int, t: int)
    requires length > 0 && Spans(start, length, t)
    ensures Truncated(t, length) == start
  {
    var q, r := t / length, t % length;
    var s := start / length;
    assert start == s * length && t == q * length + r;
    WholeStretches(s, q, length, t);
  }

  lemma {:induction false} WholeStretches(s: int, q: int, length: int, t: int)
    requires length > 0 && s * length <= t < s * length + length && q * length <= t < q * length + length
    ensures s == q
  {
    if s < q { AtLeastOne(q - s, length); }
    if q < s { AtLeastOne(s - q, length); }
  }

  lemma {:induction false} AtLeastOne(k: int, length: int)
    requires k > 0 && length > 0
    ensures k * length >= length
  {
  }

  lemma {:induction false} KeysOf(e: Event, name: string, t: int, day: int, hour: int)
    requires CalledAs(e, name) && CountedAt(e, t) && DayOf(day, t) && HourOf(hour, t)
    ensures TargetingKey(e) == Targeting(e.channel, name, day)
    ensures e.messageId != "" && CampaignFamily(e) ==> OutcomeKey(e) == Some(Campaign(e.messageId, e.variantId, hour, e.kind))
    ensures e.messageId != "" && e.kind.Suppression? ==> OutcomeKey(e) == Some(Suppressed(e.messageId, e.reason, day))
    ensures e.messageId == "" || (!CampaignFamily(e) && !e.kind.Suppression?) ==> OutcomeKey(e) == None
    ensures ReachOf(e) == if e.messageId != "" && e.kind.Impression? then Some(ReachKey(e.messageId, e.variantId, day)) else None
  {
    StretchIs(day, DAY, t);
    StretchIs(hour, HOUR, t);
  }

  /** Applying an event whose id is recorded changes nothing; applying another changes just these counts and that sketch. */
  lemma {:induction false} OneEventChanges(before: Tables, digest: Digest, e: Event, name: string, t: int, day: int, hour: int)
    requires SizedSketches(before) && CalledAs(e, name) && CountedAt(e, t) && DayOf(day, t) && HourOf(hour, t)
    ensures var after := AppliedOne(before, digest, e);
            if e.id in before.applied then after == before
            else
              && after.applied == before.applied + {e.id}
              && CountsChange(before.counts, after.counts, e, name, day, hour)
              && SketchesChange(before, after, digest, e, day)
  {
    KeysOf(e, name, t, day, hour);
    Hll.AddingIsSeeing(SketchFor(before, ReachKey(e.messageId, e.variantId, day)), digest(e.channel));
  }

  /** There is one such name, time, day and hour for every event. */
  lemma {:induction false} EveryEventIsCounted(e: Event) returns (name: string, t: int, day: int, hour: int)
    ensures CalledAs(e, name) && CountedAt(e, t) && DayOf(day, t) && HourOf(hour, t)
    ensures forall n :: CalledAs(e, n) ==> n == name
    ensures forall s :: CountedAt(e, s) ==> s == t
    ensures forall d :: DayOf(d, t) ==> d == day
    ensures forall h :: HourOf(h, t) ==> h == hour
  {
    name := EventName(e);
    t := BucketTime(e);
    day, hour := Truncated(t, DAY), Truncated(t, HOUR);
    forall d | DayOf(d, t) ensures d == day {
      StretchIs(d, DAY, t);
    }
    forall h | HourOf(h, t) ensures h == hour {
      StretchIs(h, HOUR, t);
    }
  }

  /** No count is placed more than five minutes and its day ahead of the receipt, or more than thirty days and its day behind it. */
  lemma {:induction false} CountsStayNearReceipt(before: Tables, digest: Digest, e: Event, k: Key)
    requires SizedSketches(before) && k.Targeting? && CountOf(AppliedOne(before, digest, e).counts, k) != CountOf(before.counts, k)
    ensures e.serverTime - 31 * 86400 * 1_000_000_000 < k.day <= e.serverTime + 5 * 60 * 1_000_000_000
  {
    var name, t, day, hour := EveryEventIsCounted(e);
    OneEventChanges(before, digest, e, name, t, day, hour);
  }
}
