/**
 The delivery handlers as the program runs them, updating the store and the caches in place; each is
 proved to take the step the state machine of module Delivery takes.
 */
module DeliveryService {
  import opened Wrappers
  import opened Definitions
  import opened Payload
  import opened Delivery
  import ChangeLog
  import Etag

  // ---- The three loops of the delta decision ----

  method CollectLatestKinds(changes: seq<ChangeLog.Change>) returns (latestKind: map<string, ChangeLog.Kind>)
    ensures latestKind == LatestKinds(changes)
  {
    latestKind := map[];
    for i := 0 to |changes|
      invariant latestKind == LatestKinds(changes[..i])
    {
      assert changes[..i + 1][..i] == changes[..i];
      latestKind := latestKind[changes[i].messageId := changes[i].kind];
    }
    assert changes[..|changes|] == changes;
  }

  method SelectEntries(messages: seq<Message>, entries: seq<Entry>, latestKind: map<string, ChangeLog.Kind>, issuedAt: int)
    returns (delta: seq<Entry>)
    ensures delta == DeltaEntries(messages, entries, latestKind, issuedAt)
  {
    delta := [];
    for i := 0 to |entries|
      invariant delta == DeltaEntries(messages, entries[..i], latestKind, issuedAt)
    {
      var e := entries[i];
      assert entries[..i + 1][..i] == entries[..i];
      var changed := e.messageId in latestKind;
      var newlyInWindow := !(WindowStart(messages, e.messageId) < issuedAt);
      if changed || newlyInWindow {
        delta := delta + [e];
      }
    }
    assert entries[..|entries|] == entries;
  }

  /** Map iteration has no order: any order of the same tombstones, each once. */
  method SelectTombstones(entries: seq<Entry>, latestKind: map<string, ChangeLog.Kind>) returns (tombstones: seq<string>)
    ensures (set t | t in tombstones) == Tombstones(entries, latestKind)
    ensures forall i, j :: 0 <= i < j < |tombstones| ==> tombstones[i] != tombstones[j]
  {
    var inNow: set<string> := {};
    for i := 0 to |entries|
      invariant inNow == EntryIds(entries[..i])
    {
      assert entries[..i + 1] == entries[..i] + [entries[i]];
      inNow := inNow + {entries[i].messageId};
    }
    assert entries[..|entries|] == entries;
    tombstones := [];
    var left := latestKind.Keys;
    while left != {}
      invariant left <= latestKind.Keys
      invariant forall id :: id in tombstones <==> id in latestKind && id !in left && latestKind[id].Tombstone? && id !in inNow
      invariant forall i, j :: 0 <= i < j < |tombstones| ==> tombstones[i] != tombstones[j]
      decreases left
    {
      var id :| id in left;
      assert id !in tombstones;
      left := left - {id};
      if latestKind[id].Tombstone? && id !in inNow {
        tombstones := tombstones + [id];
      }
    }
  }

  /** Add `key` to the list of every segment, one at a time. */
  method ListKey(index: map<string, set<Key>>, segmentIds: set<string>, key: Key) returns (listed: map<string, set<Key>>)
    ensures listed == Listed(index, segmentIds, key)
  {
    listed := index;
    var left := segmentIds;
    while left != {}
      invariant left <= segmentIds
      invariant listed.Keys == index.Keys + (segmentIds - left)
      invariant forall g :: g in listed ==>
                  listed[g] == (if g in index then index[g] else {}) + if g in segmentIds && g !in left then {key} else {}
      decreases left
    {
      var g :| g in left;
      left := left - {g};
      listed := listed[g := (if g in listed then listed[g] else {}) + {key}];
    }
  }

  class Service {
    var messages: seq<Message>
    var audit: seq<AuditEntry>
    const changeLog: ChangeLog.Table
    var segments: map<nat, string>
    var memberships: map<string, set<nat>>
    var bundles: map<Key, Cached>
    var index: map<string, set<Key>>
    var tags: map<string, CachedTag>

    ghost function State(): Server
      reads this, changeLog
    {
      Server(messages, audit, changeLog.Contents(), segments, memberships, bundles, index, tags)
    }

    constructor ()
      ensures State() == EMPTY && fresh(changeLog)
    {
      messages, audit, segments, memberships := [], [], map[], map[];
      bundles, index, tags := map[], map[], map[];
      changeLog := new ChangeLog.Table();
    }

    /** A created message starts as a draft whatever state the request named. */
    method CreateMessage(m: Message)
      modifies this
      ensures State() == Created(old(State()), m)
    {
      messages := messages + [m.(state := Draft)];
    }

    /** The guarded transition and its audit row, in one transaction. */
    method UpdateState(id: string, to: MessageState, actor: string, now: int) returns (moved: bool)
      modifies this
      ensures moved == Updatable(old(messages), id, to)
      ensures State() == if !moved then old(State())
                         else old(State()).(messages := WithState(old(messages), id, to),
                                            audit := old(audit) + [AuditOf(old(messages), id, to, actor, now)])
    {
      var i := IndexOf(messages, id);
      if i == |messages| {
        return false;
      }
      var from := messages[i].state;
      if !CanTransition(from, to) {
        return false;
      }
      messages := messages[i := messages[i].(state := to)];
      audit := audit + [AuditEntry(id, from, to, actor, now)];
      return true;
    }

    /** The state change, then the change-log row, then the invalidation; a refused move does none of them. */
    method UpdateMessageState(id: string, to: MessageState, actor: string, now: int) returns (moved: bool)
      modifies this, changeLog
      ensures moved == Updatable(old(messages), id, to)
      ensures State() == StateUpdated(old(State()), id, to, actor, now)
    {
      moved := UpdateState(id, to, actor, now);
      if !moved {
        return;
      }
      var kind := ChangeLog.Tombstone;
      if to == Active {
        kind := ChangeLog.Upsert;
      }
      changeLog.Record(id, kind, now);
      InvalidateCampaign(id);
    }

    method InvalidateCampaign(messageId: string)
      modifies this
      ensures State() == Invalidated(old(State()), messageId)
    {
      var m := Find(messages, messageId);
      if m.None? || m.value.audience.None? {
        return;
      }
      var segment := m.value.audience.value;
      if segment !in index || index[segment] == {} {
        return;
      }
      bundles := bundles - index[segment];
    }

    method SetCachedBundle(key: Key, segmentIds: set<string>, b: Cached)
      modifies this
      ensures State() == old(State()).(bundles := old(bundles)[key := b], index := Listed(old(index), segmentIds, key))
    {
      bundles := bundles[key := b];
      index := ListKey(index, segmentIds, key);
    }

    method SharedBundleFor(key: Key, now: int) returns (r: Result<Cached, BuildError>)
      requires DistinctIds(messages)
      modifies this
      ensures (r, State()) == SharedBundle(old(State()), key, now)
    {
      if key in bundles {
        return Ok(bundles[key]);
      }
      var segmentIds := SegmentIds(segments, key.membership);
      var assembled := Assemble(messages, segmentIds, key.language, key.major, now);
      if assembled.Err? {
        return Err(assembled.error);
      }
      var cached := Cached(assembled.value, now);
      SetCachedBundle(key, segmentIds, cached);
      return Ok(cached);
    }

    method BuildFor(viewer: Viewer, now: int) returns (r: Result<Built, BuildError>)
      requires DistinctIds(messages)
      modifies this
      ensures (r, State()) == BuildPayload(old(State()), viewer, now)
    {
      var membership := if viewer.channel in memberships then memberships[viewer.channel] else {};
      if membership == {} {
        return Ok(Built([], now));
      }
      var bundle := SharedBundleFor(Key(viewer.language, viewer.major, membership), now);
      if bundle.Err? {
        return Err(bundle.error);
      }
      var entries := Build(bundle.value.messages, viewer);
      if entries.Err? {
        return Err(entries.error);
      }
      return Ok(Built(entries.value, bundle.value.assembledAt));
    }

    /** The delta decision, and the cursor issued whatever it is. */
    method Decide(channel: string, entries: seq<Entry>, client: Option<Cursor>, now: int) returns (issued: Cursor, d: Delta)
      ensures issued == FreshCursor(State(), channel, now)
      ensures d == ComputeDelta(State(), channel, entries, client, now)
    {
      var membership := if channel in memberships then memberships[channel] else {};
      var currentSeq := changeLog.ReadCurrentSeq();
      issued := Cursor(currentSeq, membership, now);
      var honourable := client.Some? && client.value.membership == membership
                        && client.value.seqNo <= currentSeq && client.value.issuedAt >= now - ChangeLog.RETENTION;
      if !honourable {
        return issued, NotHonoured;
      }
      var changes := changeLog.ReadSince(client.value.seqNo);
      var latestKind := CollectLatestKinds(changes);
      var delta := SelectEntries(messages, entries, latestKind, client.value.issuedAt);
      var tombstones := SelectTombstones(entries, latestKind);
      return issued, Honoured(delta, (set t | t in tombstones));
    }

    method Synchronise(viewer: Viewer, clientTag: Option<string>, client: Option<Cursor>, now: int, cfg: Config)
      returns (r: Response)
      requires DistinctIds(messages)
      modifies this
      ensures (r, State()) == Sync(old(State()), viewer, clientTag, client, now, cfg)
    {
      if clientTag.Some? && viewer.channel in tags && now < tags[viewer.channel].expiresAt && tags[viewer.channel].tag == clientTag.value {
        return Unchanged(clientTag.value);
      }
      var built := BuildFor(viewer, now);
      if built.Err? {
        return Failed(built.error);
      }
      r := AnswerWith(built.value, viewer, clientTag, client, now, cfg);
    }

    method AnswerWith(p: Built, viewer: Viewer, clientTag: Option<string>, client: Option<Cursor>, now: int, cfg: Config)
      returns (r: Response)
      modifies this
      ensures (r, State()) == Answer(old(State()), viewer, p, clientTag, client, now, cfg)
    {
      var tag := Etag.Compute(p.entries);
      tags := tags[viewer.channel := CachedTag(tag, now + cfg.tagTtl)];
      if clientTag == Some(tag) {
        return Unchanged(tag);
      }
      if !cfg.deltaMode {
        return Full(tag, p.entries, None);
      }
      var issued, d := Decide(viewer.channel, p.entries, client, now);
      match d
      case NotHonoured => return Full(tag, p.entries, Some(issued));
      case Honoured(delta, tombstones) => return Partial(tag, delta, tombstones, Some(issued));
    }
  }
}
