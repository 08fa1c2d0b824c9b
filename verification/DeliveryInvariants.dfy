/** What every step of the delivery service keeps: the change log, the bundle cache and its index. */
module DeliveryInvariants {
  import opened Wrappers
  import opened Definitions
  import opened Payload
  import opened Delivery
  import ChangeLog

  // ---- The bundle cache ----

  ghost predicate BundleFaithful(s: Server, k: Key) {
    && k in s.bundles
    && k.membership != {} && k.membership <= s.segments.Keys
    && AssembleShared(s.messages, SegmentIds(s.segments, k.membership), k.language, k.major, s.bundles[k].assembledAt)
       == Ok(s.bundles[k].messages)
  }

  ghost predicate KeyListed(s: Server, k: Key) {
    forall g :: g in SegmentIds(s.segments, k.membership) ==> g in s.index && k in s.index[g]
  }

  /**
   Every cached bundle is what assembling it on the current store, at its own assembly time, would give;
   and its key is listed under every segment it was assembled from.
   */
  ghost predicate CacheInv(s: Server, clock: int) {
    forall k :: k in s.bundles ==> BundleFaithful(s, k) && KeyListed(s, k) && s.bundles[k].assembledAt <= clock
  }

  ghost predicate MembershipsKnown(s: Server) {
    forall c :: c in s.memberships ==> s.memberships[c] <= s.segments.Keys
  }

  lemma {:induction false} SameEligibleSameBundle(ms: seq<Message>, ms': seq<Message>, segments: set<string>, language: string, major: int, at: int)
    requires EligibleIn(ms, segments, at) == EligibleIn(ms', segments, at)
    ensures AssembleShared(ms, segments, language, major, at) == AssembleShared(ms', segments, language, major, at)
  {
  }

  lemma {:induction false} CreateKeepsCache(s: Server, m: Message, clock: int)
    requires CacheInv(s, clock)
    ensures CacheInv(Created(s, m), clock)
  {
    var s' := Created(s, m);
    forall k | k in s'.bundles ensures BundleFaithful(s', k) && KeyListed(s', k) {
      assert BundleFaithful(s, k) && KeyListed(s, k);
      var ids, at := SegmentIds(s.segments, k.membership), s.bundles[k].assembledAt;
      DraftChangesNothing(s.messages, m.(state := Draft), ids, at);
      SameEligibleSameBundle(s.messages, s'.messages, ids, k.language, k.major, at);
    }
  }

  /** The state change keeps the cache faithful because every bundle its audience could be in is dropped. */
  lemma {:induction false} UpdateKeepsCache(s: Server, id: string, to: MessageState, actor: string, now: int, clock: int)
    requires CacheInv(s, clock) && DistinctIds(s.messages)
    ensures CacheInv(StateUpdated(s, id, to, actor, now), clock)
  {
    if Updatable(s.messages, id, to) {
      var s' := StateUpdated(s, id, to, actor, now);
      var i := IndexOf(s.messages, id);
      var m := s.messages[i];
      WithStateFind(s.messages, id, to);
      forall k | k in s'.bundles ensures BundleFaithful(s', k) && KeyListed(s', k) && s'.bundles[k].assembledAt <= clock {
        assert BundleFaithful(s, k) && KeyListed(s, k);
        var ids, at := SegmentIds(s.segments, k.membership), s.bundles[k].assembledAt;
        assert m.audience.None? || m.audience.value !in ids;
        OutsiderChangesNothing(s.messages, i, m.(state := to), ids, at);
        SameEligibleSameBundle(s.messages, s'.messages, ids, k.language, k.major, at);
      }
    }
  }

  lemma {:induction false} WithStateFind(ms: seq<Message>, id: string, to: MessageState)
    requires DistinctIds(ms) && Updatable(ms, id, to)
    ensures DistinctIds(WithState(ms, id, to))
    ensures Find(WithState(ms, id, to), id) == Some(Find(ms, id).value.(state := to))
  {
    var ms' := WithState(ms, id, to);
    var i := IndexOf(ms, id);
    FindDistinct(ms', ms'[i]);
  }

  lemma {:induction false} SharedBundleKeepsCache(s: Server, key: Key, now: int, clock: int)
    requires CacheInv(s, clock) && clock <= now && {} < key.membership <= s.segments.Keys
    ensures CacheInv(SharedBundle(s, key, now).1, now)
    ensures var r := SharedBundle(s, key, now).0;
            r.Ok? ==> key in SharedBundle(s, key, now).1.bundles && SharedBundle(s, key, now).1.bundles[key] == r.value
  {
    var s' := SharedBundle(s, key, now).1;
    forall k | k in s'.bundles ensures BundleFaithful(s', k) && KeyListed(s', k) && s'.bundles[k].assembledAt <= now {
      if k in s.bundles { assert BundleFaithful(s, k) && KeyListed(s, k); }
    }
  }

  lemma {:induction false} SegmentKeepsCache(s: Server, ordinal: nat, id: string, clock: int)
    requires CacheInv(s, clock) && ordinal !in s.segments
    ensures CacheInv(s.(segments := s.segments[ordinal := id]), clock)
  {
    var s' := s.(segments := s.segments[ordinal := id]);
    forall k | k in s'.bundles ensures BundleFaithful(s', k) && KeyListed(s', k) {
      assert BundleFaithful(s, k) && KeyListed(s, k);
      SegmentsGrow(s.segments, ordinal, id, k.membership);
    }
  }

  lemma {:induction false} SegmentsGrow(segments: map<nat, string>, ordinal: nat, id: string, membership: set<nat>)
    requires ordinal !in segments && membership <= segments.Keys
    ensures SegmentIds(segments[ordinal := id], membership) == SegmentIds(segments, membership)
  {
  }

  /** No cached bundle contains a message that is not active. */
  lemma {:induction false} CachedMessagesAreActive(s: Server, clock: int, k: Key, bm: BundleMessage)
    requires CacheInv(s, clock) && k in s.bundles && bm in s.bundles[k].messages
    ensures exists m :: m in s.messages && m.id == bm.messageId && m.state.Active?
  {
    assert BundleFaithful(s, k);
    var ids, at := SegmentIds(s.segments, k.membership), s.bundles[k].assembledAt;
    EligibleSorted(s.messages, ids, at);
    var eligible := Ordering.Sort(EligibleIn(s.messages, ids, at), ServedBefore);
    var m := BundledFrom(eligible, k.language, k.major, s.bundles[k].messages, bm);
    assert Eligible(m, ids, at);
  }

  lemma {:induction false} BundledFrom(ms: seq<Message>, language: string, major: int, b: seq<BundleMessage>, bm: BundleMessage) returns (m: Message)
    requires BundleOf(ms, language, major) == Ok(b) && bm in b
    ensures m in ms && m.id == bm.messageId
    decreases |ms|
  {
    var front, last := ms[..|ms| - 1], ms[|ms| - 1];
    var b' := BundleOf(front, language, major).value;
    if bm in b' {
      m := BundledFrom(front, language, major, b', bm);
    } else {
      m := last;
    }
  }

  // ---- The change log ----

  /** The kind of the last write for `id`. */
  function LastKind(ws: seq<ChangeLog.Write>, id: string): Option<ChangeLog.Kind> {
    if ws == [] then None
    else if ws[|ws| - 1].messageId == id then Some(ws[|ws| - 1].kind)
    else LastKind(ws[..|ws| - 1], id)
  }

  /** The last write of a message says whether it is active now. */
  ghost predicate KindsAgree(ms: seq<Message>, writes: seq<ChangeLog.Write>) {
    forall m :: m in ms ==> (m.state.Active? <==> LastKind(writes, m.id) == Some(ChangeLog.Upsert))
  }

  ghost predicate Known(ms: seq<Message>, id: string) {
    exists m :: m in ms && m.id == id
  }

  ghost predicate WritesKnown(ms: seq<Message>, writes: seq<ChangeLog.Write>) {
    forall w :: w in writes ==> Known(ms, w.messageId)
  }

  /** The log is the run of the writes made so far, in time order. */
  ghost predicate LogInv(s: Server, writes: seq<ChangeLog.Write>, clock: int) {
    && s.log == ChangeLog.Run(writes)
    && ChangeLog.NonDecreasing(writes)
    && (writes != [] ==> writes[|writes| - 1].at <= clock)
    && KindsAgree(s.messages, writes)
    && WritesKnown(s.messages, writes)
  }

  /** The writes a state change makes. */
  function WritesOf(s: Server, id: string, to: MessageState, now: int): seq<ChangeLog.Write> {
    if Updatable(s.messages, id, to) then [ChangeLog.Write(id, KindFor(to), now)] else []
  }

  lemma {:induction false} WithStateMembers(ms: seq<Message>, id: string, to: MessageState)
    requires DistinctIds(ms) && Updatable(ms, id, to)
    ensures forall m :: m in WithState(ms, id, to) ==> if m.id == id then m.state == to else m in ms
    ensures forall x :: Known(ms, x) ==> Known(WithState(ms, id, to), x)
  {
    var ms', i := WithState(ms, id, to), IndexOf(ms, id);
    forall m | m in ms' ensures if m.id == id then m.state == to else m in ms {
      var k :| 0 <= k < |ms'| && ms'[k] == m;
      if k != i { assert ms[k].id != ms[i].id; }
    }
    forall x | Known(ms, x) ensures Known(ms', x) {
      var m :| m in ms && m.id == x;
      var k :| 0 <= k < |ms| && ms[k] == m;
      assert ms'[k].id == x && ms'[k] in ms';
    }
  }

  lemma {:induction false} UpdateKeepsKinds(ms: seq<Message>, writes: seq<ChangeLog.Write>, id: string, to: MessageState, now: int)
    requires DistinctIds(ms) && Updatable(ms, id, to) && KindsAgree(ms, writes)
    ensures KindsAgree(WithState(ms, id, to), writes + [ChangeLog.Write(id, KindFor(to), now)])
  {
    var writes' := writes + [ChangeLog.Write(id, KindFor(to), now)];
    assert writes'[..|writes'| - 1] == writes;
    WithStateMembers(ms, id, to);
  }

  lemma {:induction false} WritesKnownSnoc(ms: seq<Message>, ms': seq<Message>, writes: seq<ChangeLog.Write>, w: ChangeLog.Write)
    requires WritesKnown(ms, writes) && Known(ms, w.messageId)
    requires forall x :: Known(ms, x) ==> Known(ms', x)
    ensures WritesKnown(ms', writes + [w])
  {
  }

  lemma {:induction false} RunWritten(writes: seq<ChangeLog.Write>, w: ChangeLog.Write)
    ensures ChangeLog.Run(writes + [w]) == ChangeLog.Recorded(ChangeLog.Run(writes), w.messageId, w.kind, w.at)
  {
    assert (writes + [w])[..|writes + [w]| - 1] == writes;
  }

  lemma {:induction false} StateUpdatedParts(s: Server, id: string, to: MessageState, actor: string, now: int)
    requires Updatable(s.messages, id, to)
    ensures var s' := StateUpdated(s, id, to, actor, now);
            && s'.messages == WithState(s.messages, id, to)
            && s'.log == ChangeLog.Recorded(s.log, id, KindFor(to), now)
  {
  }

  lemma {:induction false} UpdateKeepsLog(s: Server, writes: seq<ChangeLog.Write>, id: string, to: MessageState, actor: string, now: int, clock: int)
    requires LogInv(s, writes, clock) && clock <= now && DistinctIds(s.messages)
    ensures LogInv(StateUpdated(s, id, to, actor, now), writes + WritesOf(s, id, to, now), now)
    ensures DistinctIds(StateUpdated(s, id, to, actor, now).messages)
  {
    if Updatable(s.messages, id, to) {
      var w := ChangeLog.Write(id, KindFor(to), now);
      StateUpdatedParts(s, id, to, actor, now);
      RunWritten(writes, w);
      UpdateKeepsKinds(s.messages, writes, id, to, now);
      WithStateFind(s.messages, id, to);
      WithStateMembers(s.messages, id, to);
      assert s.messages[IndexOf(s.messages, id)] in s.messages;
      WritesKnownSnoc(s.messages, WithState(s.messages, id, to), writes, w);
    } else {
      assert writes + [] == writes;
    }
  }

  lemma {:induction false} UnknownNeverWritten(ms: seq<Message>, writes: seq<ChangeLog.Write>, id: string)
    requires WritesKnown(ms, writes) && !Known(ms, id)
    ensures LastKind(writes, id) == None
  {
    if writes != [] {
      assert writes[|writes| - 1] in writes;
      UnknownNeverWritten(ms, writes[..|writes| - 1], id);
    }
  }

  lemma {:induction false} CreateKeepsLog(s: Server, writes: seq<ChangeLog.Write>, m: Message, clock: int)
    requires LogInv(s, writes, clock) && DistinctIds(s.messages) && !Known(s.messages, m.id)
    ensures LogInv(Created(s, m), writes, clock) && DistinctIds(Created(s, m).messages)
  {
    UnknownNeverWritten(s.messages, writes, m.id);
    forall i | 0 <= i < |s.messages| ensures s.messages[i].id != m.id {
      assert s.messages[i] in s.messages;
    }
    forall x | Known(s.messages, x) ensures Known(Created(s, m).messages, x) {
      var k :| k in s.messages && k.id == x;
      assert k in Created(s, m).messages;
    }
  }
}
