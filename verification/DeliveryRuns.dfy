/**
 Runs of the delivery service as one device sees them: administration, segment and membership changes,
 other channels' synchronisations, the device's own, and the device dropping expired entries, at
 times that never go back. What the device holds is tracked exactly.
 */
module DeliveryRuns {
  import opened Wrappers
  import opened Definitions
  import opened Payload
  import opened Delivery
  import opened DeliveryInvariants
  import ChangeLog
  import Etag

  /**
   The service and one device. `writes` are the change-log writes so far; `builtAt` is the assembly time
   of the payload the device's cursor came with; `lost` are messages that payload showed the server
   as delivered but the device never received. The last three are records for the statements.
   */
  datatype World = World(server: Server, device: Device, clock: int, writes: seq<ChangeLog.Write>, builtAt: int, lost: set<string>)

  datatype Op =
    | Create(message: Message)
    | SetState(id: string, to: MessageState, actor: string)
    | SaveSegment(ordinal: nat, segment: string)
    | Reindex(channel: string, membership: set<nat>)
    | OtherSync(viewer: Viewer, tag: Option<string>, cursor: Option<Cursor>)
    | DeviceSync
    | DeviceExpiry

  const START := World(EMPTY, NEW_DEVICE, 0, [], 0, {})

  /** The segments a set of ordinals names. */
  function Segments(s: Server, membership: set<nat>): set<string> {
    SegmentIds(s.segments, membership)
  }

  /** What the database guarantees of new identifiers, and the clock of time. */
  ghost predicate Allowed(w: World, device: Viewer, op: Op, at: int) {
    && w.clock <= at
    && match op
       case Create(m) => !Known(w.server.messages, m.id)
       case SaveSegment(o, _) => o !in w.server.segments
       case Reindex(_, membership) => membership <= w.server.segments.Keys
       case OtherSync(v, _, _) => v.channel != device.channel
       case _ => true
  }

  /** The ids written past a cursor's sequence number. */
  ghost function Changed(writes: seq<ChangeLog.Write>, seqNo: int): set<string> {
    set i | 0 <= i < |writes| && seqNo <= i :: writes[i].messageId
  }

  /**
   Messages a delta answering cursor `c` leaves out although the payload has them and the device does
   not: unchanged, their window opened before the cursor was issued, and yet they were not in the
   payload that came with it.
   */
  ghost function LostBy(w: World, device: Viewer, c: Cursor, assembledAt: int): set<string> {
    set m | m in w.server.messages
            && EntryAt(m, Segments(w.server, c.membership), assembledAt, device).Some?
            && m.id !in Changed(w.writes, c.seqNo)
            && m.windowStart < c.issuedAt
            && (m.id in w.lost || m.windowStart > w.builtAt) :: m.id
  }

  ghost function Synced(w: World, device: Viewer, cfg: Config, at: int): World {
    var (r, s') := Sync(w.server, device, w.device.tag, w.device.cursor, at, cfg);
    var built := BuildPayload(w.server, device, at).0;
    var w' := w.(server := s', device := Received(w.device, r), clock := at);
    if built.Err? then w'
    else
      match r
      case Full(_, _, _) => w'.(builtAt := built.value.assembledAt, lost := {})
      case Partial(_, _, _, _) =>
        if w.device.cursor.Some?
        then w'.(builtAt := built.value.assembledAt, lost := LostBy(w, device, w.device.cursor.value, built.value.assembledAt))
        else w'
      case _ => w'
  }

  ghost function Step(w: World, device: Viewer, cfg: Config, op: Op, at: int): World {
    if !Allowed(w, device, op, at) then w
    else
      match op
      case Create(m) => w.(server := Created(w.server, m), clock := at)
      case SetState(id, to, actor) =>
        w.(server := StateUpdated(w.server, id, to, actor, at), writes := w.writes + WritesOf(w.server, id, to, at), clock := at)
      case SaveSegment(o, g) => w.(server := w.server.(segments := w.server.segments[o := g]), clock := at)
      case Reindex(c, membership) => w.(server := w.server.(memberships := w.server.memberships[c := membership]), clock := at)
      case OtherSync(v, tag, cursor) => w.(server := Sync(w.server, v, tag, cursor, at, cfg).1, clock := at)
      case DeviceSync => Synced(w, device, cfg, at)
      case DeviceExpiry => w.(device := w.device.(held := Unexpired(w.device.held, at)), clock := at)
  }

  datatype Timed = Timed(op: Op, at: int)

  ghost function Run(device: Viewer, cfg: Config, ops: seq<Timed>): World {
    if ops == [] then START
    else Step(Run(device, cfg, ops[..|ops| - 1]), device, cfg, ops[|ops| - 1].op, ops[|ops| - 1].at)
  }

  // ---- The invariant ----

  ghost predicate ServerInv(w: World) {
    && DistinctIds(w.server.messages)
    && LogInv(w.server, w.writes, w.clock)
    && CacheInv(w.server, w.clock)
    && MembershipsKnown(w.server)
  }

  /** What the device should hold of `m`: its entry in the payload of its cursor, unless it was lost. */
  ghost function Expected(w: World, device: Viewer, c: Cursor, m: Message): Option<Entry> {
    if m.id in w.lost then None else EntryAt(m, Segments(w.server, c.membership), w.builtAt, device)
  }

  /** An entry on the device belongs to a message of the cursor's segments, already open when it was sent. */
  ghost predicate HeldKnown(w: World, device: Viewer, c: Cursor, m: Message) {
    m.id in w.device.held ==>
      && EntryFor(m, device) == Some(w.device.held[m.id])
      && m.audience.Some? && m.audience.value in Segments(w.server, c.membership)
      && m.windowStart <= w.builtAt
  }

  ghost predicate CursorInv(w: World, device: Viewer, c: Cursor) {
    && 0 <= c.seqNo <= |w.writes|
    && w.builtAt <= c.issuedAt <= w.clock
    && (forall i :: c.seqNo <= i < |w.writes| ==> c.issuedAt <= w.writes[i].at)
    && c.membership <= w.server.segments.Keys
    && var key := Key(device.language, device.major, c.membership);
       (key in w.server.bundles ==> w.server.bundles[key].assembledAt >= w.builtAt)
  }

  /** The cursor is truthful: the device holds exactly what is expected of every unchanged, unexpired message. */
  ghost predicate Truthful(w: World, device: Viewer, c: Cursor) {
    && (forall id :: id in w.device.held ==> Known(w.server.messages, id))
    && (forall m :: m in w.server.messages ==> HeldKnown(w, device, c, m))
    && (forall m :: m in w.server.messages && m.id !in Changed(w.writes, c.seqNo) && m.windowEnd > w.clock ==>
          Get(w.device.held, m.id) == Expected(w, device, c, m))
  }

  ghost predicate DeviceInv(w: World, device: Viewer) {
    match w.device.cursor
    case None => w.device.held == map[]
    case Some(c) => CursorInv(w, device, c) && Truthful(w, device, c)
  }

  ghost predicate WorldInv(w: World, device: Viewer) {
    ServerInv(w) && DeviceInv(w, device)
  }

  // ---- What a synchronisation does to the server ----

  /** Only the caches may differ. */
  ghost predicate SameStore(s: Server, s': Server) {
    && s'.messages == s.messages && s'.log == s.log && s'.segments == s.segments && s'.memberships == s.memberships
  }

  /** No bundle cached under `key` is older than `floor`. */
  ghost predicate NoOlder(s: Server, key: Key, floor: int) {
    key in s.bundles ==> s.bundles[key].assembledAt >= floor
  }

  lemma {:induction false} SharedBundleServer(s: Server, key: Key, now: int, clock: int, other: Key, floor: int)
    requires CacheInv(s, clock) && clock <= now && {} < key.membership <= s.segments.Keys
    requires NoOlder(s, other, floor) && floor <= now
    ensures var (r, s') := SharedBundle(s, key, now);
            && SameStore(s, s') && s'.tags == s.tags && CacheInv(s', now) && NoOlder(s', other, floor)
            && (r.Ok? ==> key in s'.bundles && s'.bundles[key] == r.value && r.value.assembledAt <= now)
  {
    SharedBundleKeepsCache(s, key, now, clock);
  }

  /** A payload holds exactly the entries of the messages eligible when its bundle was assembled. */
  ghost predicate HoldsEntriesOf(es: seq<Entry>, ms: seq<Message>, segments: set<string>, at: int, viewer: Viewer) {
    && (forall m :: m in ms && EntryAt(m, segments, at, viewer).Some? ==> EntryAt(m, segments, at, viewer).value in es)
    && (forall e :: e in es ==> exists m :: m in ms && EntryAt(m, segments, at, viewer) == Some(e))
  }

  lemma {:induction false} BuildServer(s: Server, viewer: Viewer, now: int, clock: int, other: Key, floor: int)
    requires CacheInv(s, clock) && clock <= now && MembershipsKnown(s)
    requires NoOlder(s, other, floor) && floor <= now
    ensures var (r, s') := BuildPayload(s, viewer, now);
            SameStore(s, s') && s'.tags == s.tags && CacheInv(s', now) && NoOlder(s', other, floor)
  {
    var membership := MembershipOf(s, viewer.channel);
    if membership == {} {
      CacheAges(s, clock, now);
    } else {
      SharedBundleServer(s, Key(viewer.language, viewer.major, membership), now, clock, other, floor);
    }
  }

  lemma {:induction false} CacheAges(s: Server, clock: int, now: int)
    requires CacheInv(s, clock) && clock <= now
    ensures CacheInv(s, now)
  {
  }

  lemma {:induction false} BuildContents(s: Server, viewer: Viewer, now: int, clock: int, floor: int)
    requires CacheInv(s, clock) && clock <= now && MembershipsKnown(s) && BuildPayload(s, viewer, now).0.Ok?
    requires NoOlder(s, Key(viewer.language, viewer.major, MembershipOf(s, viewer.channel)), floor) && floor <= now
    ensures var p := BuildPayload(s, viewer, now).0.value;
            && floor <= p.assembledAt <= now
            && HoldsEntriesOf(p.entries, s.messages, Segments(s, MembershipOf(s, viewer.channel)), p.assembledAt, viewer)
    ensures var p, s' := BuildPayload(s, viewer, now).0.value, BuildPayload(s, viewer, now).1;
            NoOlder(s', Key(viewer.language, viewer.major, MembershipOf(s, viewer.channel)), p.assembledAt)
  {
    var membership := MembershipOf(s, viewer.channel);
    var p := BuildPayload(s, viewer, now).0.value;
    if membership == {} {
      assert Segments(s, {}) == {};
      assert forall k :: k in s.bundles ==> BundleFaithful(s, k);
    } else {
      var key := Key(viewer.language, viewer.major, membership);
      SharedBundleServer(s, key, now, clock, key, floor);
      var s' := SharedBundle(s, key, now).1;
      assert BundleFaithful(s', key);
      BuiltEntries(s.messages, Segments(s, membership), p.assembledAt, s'.bundles[key].messages, viewer, p.entries);
    }
  }

  lemma {:induction false} SyncServer(s: Server, viewer: Viewer, tag: Option<string>, cursor: Option<Cursor>, now: int, cfg: Config, clock: int, other: Key, floor: int)
    requires CacheInv(s, clock) && clock <= now && MembershipsKnown(s)
    requires NoOlder(s, other, floor) && floor <= now
    ensures var s' := Sync(s, viewer, tag, cursor, now, cfg).1;
            SameStore(s, s') && CacheInv(s', now) && NoOlder(s', other, floor)
  {
    CacheAges(s, clock, now);
    BuildServer(s, viewer, now, clock, other, floor);
    SyncShape(s, viewer, tag, cursor, now, cfg);
    var s1, s' := BuildPayload(s, viewer, now).1, Sync(s, viewer, tag, cursor, now, cfg).1;
    if s' != s {
      TagsDoNotMatter(s1, s', now);
    }
  }

  lemma {:induction false} AnswerShape(s: Server, viewer: Viewer, p: Built, tag: Option<string>, cursor: Option<Cursor>, now: int, cfg: Config)
    ensures var s' := Answer(s, viewer, p, tag, cursor, now, cfg).1; s' == s.(tags := s'.tags)
  {
  }

  lemma {:induction false} SyncShape(s: Server, viewer: Viewer, tag: Option<string>, cursor: Option<Cursor>, now: int, cfg: Config)
    ensures var s' := Sync(s, viewer, tag, cursor, now, cfg).1;
            s' == s || s' == BuildPayload(s, viewer, now).1.(tags := s'.tags)
  {
    var (built, s') := BuildPayload(s, viewer, now);
    if built.Ok? { AnswerShape(s', viewer, built.value, tag, cursor, now, cfg); }
  }

  lemma {:induction false} TagsDoNotMatter(s: Server, s': Server, now: int)
    requires CacheInv(s, now) && s' == s.(tags := s'.tags)
    ensures CacheInv(s', now)
  {
    forall k | k in s'.bundles ensures BundleFaithful(s', k) && KeyListed(s', k) && s'.bundles[k].assembledAt <= now {
      assert BundleFaithful(s, k) && KeyListed(s, k);
    }
  }

  // ---- The pieces of a delta ----

  lemma {:induction false} UpsertedGet(held: map<string, Entry>, es: seq<Entry>, id: string)
    ensures var r := Upserted(held, es);
            if id in EntryIds(es) then id in r && r[id] in es && r[id].messageId == id else Get(r, id) == Get(held, id)
  {
    if es != [] {
      UpsertedGet(held, es[..|es| - 1], id);
    }
  }

  lemma {:induction false} DeltaMembers(ms: seq<Message>, es: seq<Entry>, latest: map<string, ChangeLog.Kind>, issuedAt: int)
    ensures forall e :: e in DeltaEntries(ms, es, latest, issuedAt)
                        <==> e in es && (e.messageId in latest || WindowStart(ms, e.messageId) >= issuedAt)
  {
    if es != [] {
      DeltaMembers(ms, es[..|es| - 1], latest, issuedAt);
      assert es == es[..|es| - 1] + [es[|es| - 1]];
    }
  }

  lemma {:induction false} LatestOfWrites(ws: seq<ChangeLog.Write>, k: nat, cs: seq<ChangeLog.Change>, id: string)
    requires k <= |ws| && |cs| == |ws| - k
    requires forall i :: 0 <= i < |cs| ==> cs[i].messageId == ws[k + i].messageId && cs[i].kind == ws[k + i].kind
    ensures id in LatestKinds(cs) <==> id in Changed(ws, k)
    ensures id in LatestKinds(cs) ==> LastKind(ws, id) == Some(LatestKinds(cs)[id])
  {
    if cs == [] {
    } else {
      var ws', cs' := ws[..|ws| - 1], cs[..|cs| - 1];
      LatestOfWrites(ws', k, cs', id);
      assert id in Changed(ws, k) <==> id in Changed(ws', k) || id == ws[|ws| - 1].messageId by {
        assert ws[|ws| - 1].messageId in Changed(ws, k);
        if id in Changed(ws', k) {
          var i :| 0 <= i < |ws'| && k <= i && ws'[i].messageId == id;
          assert ws[i].messageId in Changed(ws, k);
        }
        if id in Changed(ws, k) && id != ws[|ws| - 1].messageId {
          var i :| 0 <= i < |ws| && k <= i && ws[i].messageId == id;
          assert ws'[i].messageId in Changed(ws', k);
        }
      }
    }
  }

  lemma {:induction false} LatestOfHistory(ws: seq<ChangeLog.Write>, k: nat, id: string)
    requires k <= |ws|
    ensures var latest := LatestKinds(ChangeLog.Changes(ChangeLog.History(ws)[k..]));
            && (id in latest <==> id in Changed(ws, k))
            && (id in latest ==> LastKind(ws, id) == Some(latest[id]))
  {
    LatestOfWrites(ws, k, ChangeLog.Changes(ChangeLog.History(ws)[k..]), id);
  }

  /** An honoured cursor sees exactly the messages written since, each with the kind of its last write. */
  lemma {:induction false} HonouredChanges(w: World, device: Viewer, c: Cursor, now: int, id: string)
    requires ServerInv(w) && CursorInv(w, device, c) && w.clock <= now && c.issuedAt >= now - ChangeLog.RETENTION
    ensures var latest := LatestKinds(ChangeLog.Since(w.server.log, c.seqNo));
            && (id in latest <==> id in Changed(w.writes, c.seqNo))
            && (id in latest ==> LastKind(w.writes, id) == Some(latest[id]))
  {
    ChangeLog.HonourableCursorMissesNothing(w.writes, c.seqNo, c.issuedAt, now);
    LatestOfHistory(w.writes, c.seqNo, id);
  }

  // ---- Steps that are not the device's own ----

  ghost function DeviceKey(device: Viewer, c: Cursor): Key {
    Key(device.language, device.major, c.membership)
  }

  /** A step that leaves messages, writes and the cursor's segments alone keeps the cursor truthful. */
  lemma {:induction false} QuietStep(w: World, w': World, device: Viewer)
    requires DeviceInv(w, device) && w'.device == w.device && w'.builtAt == w.builtAt && w'.lost == w.lost
    requires w'.server.messages == w.server.messages && w'.writes == w.writes && w.clock <= w'.clock
    requires w.device.cursor.Some? ==>
               var c := w.device.cursor.value;
               && Segments(w'.server, c.membership) == Segments(w.server, c.membership)
               && c.membership <= w'.server.segments.Keys
               && NoOlder(w'.server, DeviceKey(device, c), w.builtAt)
    ensures DeviceInv(w', device)
  {
    if w.device.cursor.Some? {
      var c := w.device.cursor.value;
      forall m | m in w'.server.messages ensures HeldKnown(w', device, c, m) {
        assert HeldKnown(w, device, c, m);
      }
      forall m | m in w'.server.messages && m.id !in Changed(w'.writes, c.seqNo) && m.windowEnd > w'.clock
        ensures Get(w'.device.held, m.id) == Expected(w', device, c, m)
      {
        assert Get(w.device.held, m.id) == Expected(w, device, c, m);
      }
    }
  }

  lemma {:induction false} UnknownNotChanged(ms: seq<Message>, writes: seq<ChangeLog.Write>, id: string, seqNo: int)
    requires WritesKnown(ms, writes) && !Known(ms, id)
    ensures id !in Changed(writes, seqNo)
  {
    forall i | 0 <= i < |writes| ensures writes[i].messageId != id {
      assert writes[i] in writes;
    }
  }

  lemma {:induction false} CreateStep(w: World, device: Viewer, m: Message, at: int)
    requires WorldInv(w, device) && w.clock <= at && !Known(w.server.messages, m.id)
    ensures DeviceInv(w.(server := Created(w.server, m), clock := at), device)
  {
    var w' := w.(server := Created(w.server, m), clock := at);
    if w.device.cursor.Some? {
      var c := w.device.cursor.value;
      var draft := m.(state := Draft);
      assert draft.id !in w.device.held;
      UnknownNotChanged(w.server.messages, w.writes, draft.id, c.seqNo);
      forall k | k in w'.server.messages ensures HeldKnown(w', device, c, k) {
        if k != draft { assert HeldKnown(w, device, c, k); }
      }
      forall k | k in w'.server.messages && k.id !in Changed(w'.writes, c.seqNo) && k.windowEnd > at
        ensures Get(w'.device.held, k.id) == Expected(w', device, c, k)
      {
        if k != draft { assert Get(w.device.held, k.id) == Expected(w, device, c, k); }
      }
      forall id | id in w'.device.held ensures Known(w'.server.messages, id) {
        var k :| k in w.server.messages && k.id == id;
        assert k in w'.server.messages;
      }
    }
  }

  lemma {:induction false} EntryIgnoresState(m: Message, to: MessageState, viewer: Viewer)
    ensures EntryFor(m.(state := to), viewer) == EntryFor(m, viewer)
  {
  }

  lemma {:induction false} ChangedGrows(writes: seq<ChangeLog.Write>, x: ChangeLog.Write, seqNo: int)
    requires seqNo <= |writes|
    ensures Changed(writes + [x], seqNo) == Changed(writes, seqNo) + {x.messageId}
  {
    var a, b := Changed(writes + [x], seqNo), Changed(writes, seqNo);
    assert (writes + [x])[|writes|].messageId in a;
    forall id | id in b ensures id in a {
      var i :| 0 <= i < |writes| && seqNo <= i && writes[i].messageId == id;
      assert (writes + [x])[i].messageId in a;
    }
  }

  lemma {:induction false} SetStateStep(w: World, device: Viewer, id: string, to: MessageState, actor: string, at: int)
    requires WorldInv(w, device) && w.clock <= at
    ensures DeviceInv(w.(server := StateUpdated(w.server, id, to, actor, at), writes := w.writes + WritesOf(w.server, id, to, at), clock := at), device)
  {
    var w' := w.(server := StateUpdated(w.server, id, to, actor, at), writes := w.writes + WritesOf(w.server, id, to, at), clock := at);
    if !Updatable(w.server.messages, id, to) {
      assert w'.writes == w.writes;
      QuietStep(w, w', device);
    } else if w.device.cursor.Some? {
      StateUpdatedParts(w.server, id, to, actor, at);
      StateUpdatedCaches(w.server, id, to, actor, at);
      MovedTruthful(w, w', device, w.device.cursor.value, id, to, at);
    }
  }

  lemma {:induction false} StateUpdatedCaches(s: Server, id: string, to: MessageState, actor: string, now: int)
    ensures var s' := StateUpdated(s, id, to, actor, now);
            s'.segments == s.segments && forall k :: k in s'.bundles ==> k in s.bundles && s'.bundles[k] == s.bundles[k]
  {
  }

  lemma {:induction false} MovedTruthful(w: World, w': World, device: Viewer, c: Cursor, id: string, to: MessageState, at: int)
    requires ServerInv(w) && CursorInv(w, device, c) && Truthful(w, device, c) && Updatable(w.server.messages, id, to)
    requires w'.server.messages == WithState(w.server.messages, id, to) && w'.server.segments == w.server.segments
    requires w'.writes == w.writes + [ChangeLog.Write(id, KindFor(to), at)] && w.clock <= w'.clock
    requires w'.device == w.device && w'.builtAt == w.builtAt && w'.lost == w.lost
    ensures Truthful(w', device, c)
  {
    ChangedGrows(w.writes, ChangeLog.Write(id, KindFor(to), at), c.seqNo);
    WithStateMembers(w.server.messages, id, to);
    forall m | m in w'.server.messages ensures HeldKnown(w', device, c, m) {
      MovedHeldKnown(w, w', device, c, id, to, m);
    }
    forall m | m in w'.server.messages && m.id !in Changed(w'.writes, c.seqNo) && m.windowEnd > w'.clock
      ensures Get(w'.device.held, m.id) == Expected(w', device, c, m)
    {
      assert Get(w.device.held, m.id) == Expected(w, device, c, m);
    }
  }

  lemma {:induction false} MovedHeldKnown(w: World, w': World, device: Viewer, c: Cursor, id: string, to: MessageState, m: Message)
    requires Truthful(w, device, c) && Updatable(w.server.messages, id, to)
    requires w'.server.messages == WithState(w.server.messages, id, to) && m in w'.server.messages
    requires w'.device == w.device && w'.builtAt == w.builtAt && w'.server.segments == w.server.segments
    ensures HeldKnown(w', device, c, m)
  {
    var k :| 0 <= k < |w'.server.messages| && w'.server.messages[k] == m;
    var before := w.server.messages[k];
    assert before in w.server.messages;
    assert HeldKnown(w, device, c, before);
    EntryIgnoresState(before, to, device);
  }

  lemma {:induction false} ExpiryStep(w: World, device: Viewer, at: int)
    requires WorldInv(w, device) && w.clock <= at
    ensures DeviceInv(w.(device := w.device.(held := Unexpired(w.device.held, at)), clock := at), device)
  {
    var w' := w.(device := w.device.(held := Unexpired(w.device.held, at)), clock := at);
    if w.device.cursor.Some? {
      var c := w.device.cursor.value;
      forall m | m in w'.server.messages ensures HeldKnown(w', device, c, m) {
        assert HeldKnown(w, device, c, m);
      }
      forall m | m in w'.server.messages && m.id !in Changed(w'.writes, c.seqNo) && m.windowEnd > at
        ensures Get(w'.device.held, m.id) == Expected(w', device, c, m)
      {
        assert HeldKnown(w, device, c, m);
        assert Get(w.device.held, m.id) == Expected(w, device, c, m);
      }
    }
  }

  // ---- The device's own synchronisation ----

  /** What a response leaves the device holding of a message that has not expired. */
  ghost predicate HoldsAfter(w: World, device: Viewer, membership: set<nat>, held: map<string, Entry>, at: int, lost: set<string>, m: Message) {
    Get(held, m.id) == if m.id in lost then None else EntryAt(m, Segments(w.server, membership), at, device)
  }

  lemma {:induction false} EntryIdsOf(w: World, device: Viewer, segments: set<string>, at: int, es: seq<Entry>, m: Message)
    requires DistinctIds(w.server.messages) && m in w.server.messages
    requires HoldsEntriesOf(es, w.server.messages, segments, at, device)
    ensures m.id in EntryIds(es) <==> EntryAt(m, segments, at, device).Some?
    ensures forall e :: e in es && e.messageId == m.id ==> EntryAt(m, segments, at, device) == Some(e)
  {
    if EntryAt(m, segments, at, device).Some? {
      assert EntryAt(m, segments, at, device).value in es;
    }
    forall e | e in es && e.messageId == m.id ensures EntryAt(m, segments, at, device) == Some(e) {
      var k :| k in w.server.messages && EntryAt(k, segments, at, device) == Some(e);
      SameIdSameMessage(w.server.messages, k, m);
    }
  }

  lemma {:induction false} SameIdSameMessage(ms: seq<Message>, a: Message, b: Message)
    requires DistinctIds(ms) && a in ms && b in ms && a.id == b.id
    ensures a == b
  {
    FindDistinct(ms, a);
    FindDistinct(ms, b);
  }

  /** A full payload replaces everything: the device holds exactly the payload's entries. */
  lemma {:induction false} FullHolds(w: World, device: Viewer, membership: set<nat>, at: int, es: seq<Entry>, m: Message)
    requires DistinctIds(w.server.messages) && m in w.server.messages
    requires HoldsEntriesOf(es, w.server.messages, Segments(w.server, membership), at, device)
    ensures HoldsAfter(w, device, membership, Upserted(map[], es), at, {}, m)
  {
    EntryIdsOf(w, device, Segments(w.server, membership), at, es, m);
    UpsertedGet(map[], es, m.id);
  }

  /**
   A delta, message by message: after it the device holds exactly what the full payload would have
   given it, except for the lost messages, which it holds no entry for.
   */
  lemma {:induction false} DeltaHolds(w: World, device: Viewer, c: Cursor, now: int, at: int, es: seq<Entry>, m: Message)
    requires WorldInv(w, device) && w.device.cursor == Some(c) && w.clock <= now && c.issuedAt >= now - ChangeLog.RETENTION
    requires w.builtAt <= at <= now && m in w.server.messages && m.windowEnd > now
    requires HoldsEntriesOf(es, w.server.messages, Segments(w.server, c.membership), at, device)
    ensures var latest := LatestKinds(ChangeLog.Since(w.server.log, c.seqNo));
            var held := Upserted(w.device.held, DeltaEntries(w.server.messages, es, latest, c.issuedAt)) - Tombstones(es, latest);
            HoldsAfter(w, device, c.membership, held, at, LostBy(w, device, c, at), m)
  {
    var latest := LatestKinds(ChangeLog.Since(w.server.log, c.seqNo));
    var delta := DeltaEntries(w.server.messages, es, latest, c.issuedAt);
    HonouredChanges(w, device, c, now, m.id);
    DeltaSends(w, device, c, at, es, latest, m);
    EntryIdsOf(w, device, Segments(w.server, c.membership), at, es, m);
    assert HeldKnown(w, device, c, m);
    LostIff(w, device, c, at, m);
    assert m.id !in latest ==> Get(w.device.held, m.id) == Expected(w, device, c, m);
    DeltaGives(w, device, c, at, latest, delta, Tombstones(es, latest), LostBy(w, device, c, at), m);
  }

  /** What applying a delta does to one message, given what the delta says of it. */
  lemma {:induction false} DeltaGives(w: World, device: Viewer, c: Cursor, at: int, latest: map<string, ChangeLog.Kind>, delta: seq<Entry>, tombstones: set<string>, lost: set<string>, m: Message)
    requires KindsAgree(w.server.messages, w.writes) && m in w.server.messages && w.builtAt <= at && m.windowEnd > at
    requires m.id in latest <==> m.id in Changed(w.writes, c.seqNo)
    requires m.id in latest ==> LastKind(w.writes, m.id) == Some(latest[m.id])
    requires HeldKnown(w, device, c, m)
    requires m.id !in latest ==> Get(w.device.held, m.id) == Expected(w, device, c, m)
    requires var entry := EntryAt(m, Segments(w.server, c.membership), at, device);
             && (m.id in EntryIds(delta) <==> entry.Some? && (m.id in latest || m.windowStart >= c.issuedAt))
             && (forall e :: e in delta && e.messageId == m.id ==> entry == Some(e))
             && (m.id in tombstones <==> m.id in latest && latest[m.id].Tombstone? && entry.None?)
             && (m.id in lost <==> entry.Some? && m.id !in latest && m.windowStart < c.issuedAt && (m.id in w.lost || m.windowStart > w.builtAt))
    ensures HoldsAfter(w, device, c.membership, Upserted(w.device.held, delta) - tombstones, at, lost, m)
  {
    UpsertedGet(w.device.held, delta, m.id);
  }

  /** A delta sends the message exactly when the payload has it and it changed or its window opened since. */
  lemma {:induction false} DeltaSends(w: World, device: Viewer, c: Cursor, at: int, es: seq<Entry>, latest: map<string, ChangeLog.Kind>, m: Message)
    requires DistinctIds(w.server.messages) && m in w.server.messages
    requires HoldsEntriesOf(es, w.server.messages, Segments(w.server, c.membership), at, device)
    ensures var delta, entry := DeltaEntries(w.server.messages, es, latest, c.issuedAt), EntryAt(m, Segments(w.server, c.membership), at, device);
            && (m.id in EntryIds(delta) <==> entry.Some? && (m.id in latest || m.windowStart >= c.issuedAt))
            && (forall e :: e in delta && e.messageId == m.id ==> entry == Some(e))
  {
    var segments, delta := Segments(w.server, c.membership), DeltaEntries(w.server.messages, es, latest, c.issuedAt);
    DeltaMembers(w.server.messages, es, latest, c.issuedAt);
    EntryIdsOf(w, device, segments, at, es, m);
    FindDistinct(w.server.messages, m);
    var entry := EntryAt(m, segments, at, device);
    if entry.Some? && (m.id in latest || m.windowStart >= c.issuedAt) {
      assert entry.value in es;
      assert entry.value in delta;
    }
  }

  lemma {:induction false} LostIff(w: World, device: Viewer, c: Cursor, at: int, m: Message)
    requires DistinctIds(w.server.messages) && m in w.server.messages
    ensures m.id in LostBy(w, device, c, at)
            <==> && EntryAt(m, Segments(w.server, c.membership), at, device).Some?
                 && m.id !in Changed(w.writes, c.seqNo)
                 && m.windowStart < c.issuedAt
                 && (m.id in w.lost || m.windowStart > w.builtAt)
  {
    if m.id in LostBy(w, device, c, at) {
      var k :| k in w.server.messages && k.id == m.id
               && EntryAt(k, Segments(w.server, c.membership), at, device).Some?
               && k.id !in Changed(w.writes, c.seqNo) && k.windowStart < c.issuedAt
               && (k.id in w.lost || k.windowStart > w.builtAt);
      SameIdSameMessage(w.server.messages, k, m);
    }
  }

  lemma {:induction false} AnswerParts(s: Server, viewer: Viewer, p: Built, tag: Option<string>, client: Option<Cursor>, at: int, cfg: Config)
    requires cfg.deltaMode
    ensures var r := Answer(s, viewer, p, tag, client, at, cfg).0;
            var issued := Some(FreshCursor(s, viewer.channel, at));
            && (r.Full? ==> r.entries == p.entries && r.cursor == issued)
            && (r.Partial? ==>
                  && r.cursor == issued && Honourable(client, MembershipOf(s, viewer.channel), ChangeLog.CurrentSeq(s.log), at)
                  && var latest := LatestKinds(ChangeLog.Since(s.log, client.value.seqNo));
                     && r.entries == DeltaEntries(s.messages, p.entries, latest, client.value.issuedAt)
                     && r.tombstones == Tombstones(p.entries, latest))
  {
  }

  /** What a response in delta mode is made of. */
  lemma {:induction false} ResponseParts(w: World, device: Viewer, cfg: Config, at: int)
    requires ServerInv(w) && w.clock <= at && cfg.deltaMode
    ensures var s, membership := w.server, MembershipOf(w.server, device.channel);
            var r, built := Sync(s, device, w.device.tag, w.device.cursor, at, cfg).0, BuildPayload(s, device, at).0;
            var issued := Some(Cursor(|w.writes|, membership, at));
            && (r.Full? ==> built.Ok? && r.entries == built.value.entries && r.cursor == issued)
            && (r.Partial? ==>
                  && built.Ok? && r.cursor == issued && w.device.cursor.Some?
                  && var c := w.device.cursor.value;
                     var latest := LatestKinds(ChangeLog.Since(s.log, c.seqNo));
                     && c.membership == membership && c.issuedAt >= at - ChangeLog.RETENTION
                     && r.entries == DeltaEntries(s.messages, built.value.entries, latest, c.issuedAt)
                     && r.tombstones == Tombstones(built.value.entries, latest))
  {
    ChangeLog.CurrentSeqCountsWrites(w.writes);
    var key := Key(device.language, device.major, {});
    assert NoOlder(w.server, key, at) by {
      assert key in w.server.bundles ==> BundleFaithful(w.server, key);
    }
    BuildServer(w.server, device, at, w.clock, key, at);
    var (built, s') := BuildPayload(w.server, device, at);
    if built.Ok? { AnswerParts(s', device, built.value, w.device.tag, w.device.cursor, at, cfg); }
  }

  lemma {:induction false} NothingChangedSince(writes: seq<ChangeLog.Write>, id: string)
    ensures id !in Changed(writes, |writes|)
  {
  }

  lemma {:induction false} EntryTells(m: Message, segments: set<string>, at: int, device: Viewer)
    requires EntryAt(m, segments, at, device).Some?
    ensures EntryFor(m, device) == EntryAt(m, segments, at, device)
    ensures m.audience.Some? && m.audience.value in segments && m.windowStart <= at && m.state.Active? && m.windowEnd > at
  {
  }

  lemma {:induction false} FullStep(w: World, device: Viewer, cfg: Config, at: int)
    requires WorldInv(w, device) && w.clock <= at && cfg.deltaMode
    requires Sync(w.server, device, w.device.tag, w.device.cursor, at, cfg).0.Full?
    ensures DeviceInv(Synced(w, device, cfg, at), device)
  {
    var s, membership := w.server, MembershipOf(w.server, device.channel);
    var (r, s') := Sync(s, device, w.device.tag, w.device.cursor, at, cfg);
    var w' := Synced(w, device, cfg, at);
    var c := Cursor(|w.writes|, membership, at);
    var es, asm := r.entries, BuildPayload(s, device, at).0.value.assembledAt;
    ResponseParts(w, device, cfg, at);
    FreshCursorInv(w, device, cfg, at);
    FullTruthful(w, w', device, c, es);
  }

  lemma {:induction false} FullTruthful(w: World, w': World, device: Viewer, c: Cursor, es: seq<Entry>)
    requires DistinctIds(w.server.messages) && SameStore(w.server, w'.server)
    requires HoldsEntriesOf(es, w.server.messages, Segments(w.server, c.membership), w'.builtAt, device)
    requires w'.device.held == Upserted(map[], es) && w'.lost == {}
    ensures Truthful(w', device, c)
  {
    var s, segments := w.server, Segments(w.server, c.membership);
    forall m | m in s.messages ensures HeldKnown(w', device, c, m) && Get(w'.device.held, m.id) == Expected(w', device, c, m) {
      EntryIdsOf(w, device, segments, w'.builtAt, es, m);
      UpsertedGet(map[], es, m.id);
      if m.id in w'.device.held { EntryTells(m, segments, w'.builtAt, device); }
      FullHolds(w, device, c.membership, w'.builtAt, es, m);
    }
    forall id | id in w'.device.held ensures Known(s.messages, id) {
      UpsertedGet(map[], es, id);
      var k :| k in s.messages && EntryAt(k, segments, w'.builtAt, device) == Some(w'.device.held[id]);
      assert k.id == id;
    }
  }

  /** The server half of the device's step, and the cursor it hands out. */
  lemma {:induction false} FreshCursorInv(w: World, device: Viewer, cfg: Config, at: int)
    requires WorldInv(w, device) && w.clock <= at && cfg.deltaMode
    requires var r := Sync(w.server, device, w.device.tag, w.device.cursor, at, cfg).0; r.Full? || r.Partial?
    ensures var w', membership := Synced(w, device, cfg, at), MembershipOf(w.server, device.channel);
            var built := BuildPayload(w.server, device, at).0;
            && built.Ok? && w'.builtAt == built.value.assembledAt && SameStore(w.server, w'.server)
            && CursorInv(w', device, Cursor(|w.writes|, membership, at))
            && HoldsEntriesOf(built.value.entries, w.server.messages, Segments(w.server, membership), w'.builtAt, device)
            && w'.builtAt <= at
            && (w.device.cursor.Some? && w.device.cursor.value.membership == membership ==> w.builtAt <= w'.builtAt)
  {
    var s, membership := w.server, MembershipOf(w.server, device.channel);
    var key := Key(device.language, device.major, membership);
    ResponseParts(w, device, cfg, at);
    var floor := FloorOf(w, device, membership);
    BuildContents(s, device, at, w.clock, floor);
    SyncShape(s, device, w.device.tag, w.device.cursor, at, cfg);
    BuildServer(s, device, at, w.clock, key, floor);
    SyncBuilt(s, device, w.device.tag, w.device.cursor, at, cfg);
  }

  lemma {:induction false} SyncBuilt(s: Server, viewer: Viewer, tag: Option<string>, cursor: Option<Cursor>, now: int, cfg: Config)
    requires var r := Sync(s, viewer, tag, cursor, now, cfg).0; r.Full? || r.Partial?
    ensures var s' := Sync(s, viewer, tag, cursor, now, cfg).1; s' == BuildPayload(s, viewer, now).1.(tags := s'.tags)
  {
    var (built, s') := BuildPayload(s, viewer, now);
    if built.Ok? { AnswerShape(s', viewer, built.value, tag, cursor, now, cfg); }
  }

  /** The age below which no bundle for `membership` lies: the device's own, if it is the cursor's membership. */
  lemma {:induction false} FloorOf(w: World, device: Viewer, membership: set<nat>) returns (floor: int)
    requires WorldInv(w, device)
    ensures NoOlder(w.server, Key(device.language, device.major, membership), floor) && floor <= w.clock
    ensures w.device.cursor.Some? && w.device.cursor.value.membership == membership ==> floor == w.builtAt
  {
    var key := Key(device.language, device.major, membership);
    if w.device.cursor.Some? && w.device.cursor.value.membership == membership {
      floor := w.builtAt;
    } else if key in w.server.bundles {
      floor := w.server.bundles[key].assembledAt;
    } else {
      floor := w.clock;
    }
  }

  /** A delta answer, taken apart. */
  ghost predicate PartialAnswer(w: World, device: Viewer, prior: Cursor, at: int, asm: int, es: seq<Entry>, held: map<string, Entry>) {
    && WorldInv(w, device) && w.device.cursor == Some(prior)
    && w.clock <= at && prior.issuedAt >= at - ChangeLog.RETENTION && w.builtAt <= asm <= at
    && HoldsEntriesOf(es, w.server.messages, Segments(w.server, prior.membership), asm, device)
    && var latest := LatestKinds(ChangeLog.Since(w.server.log, prior.seqNo));
       held == Upserted(w.device.held, DeltaEntries(w.server.messages, es, latest, prior.issuedAt)) - Tombstones(es, latest)
  }

  lemma {:induction false} PartialHeldKnown(w: World, device: Viewer, prior: Cursor, at: int, asm: int, es: seq<Entry>, held: map<string, Entry>, m: Message)
    requires PartialAnswer(w, device, prior, at, asm, es, held) && m in w.server.messages && m.id in held
    ensures EntryFor(m, device) == Some(held[m.id]) && m.windowStart <= asm
    ensures m.audience.Some? && m.audience.value in Segments(w.server, prior.membership)
  {
    var latest := LatestKinds(ChangeLog.Since(w.server.log, prior.seqNo));
    var delta := DeltaEntries(w.server.messages, es, latest, prior.issuedAt);
    DeltaMembers(w.server.messages, es, latest, prior.issuedAt);
    UpsertedGet(w.device.held, delta, m.id);
    assert HeldKnown(w, device, prior, m);
    if m.id in EntryIds(delta) {
      EntryIdsOf(w, device, Segments(w.server, prior.membership), asm, es, m);
      EntryTells(m, Segments(w.server, prior.membership), asm, device);
    }
  }

  lemma {:induction false} PartialKnown(w: World, device: Viewer, prior: Cursor, at: int, asm: int, es: seq<Entry>, held: map<string, Entry>, id: string)
    requires PartialAnswer(w, device, prior, at, asm, es, held) && id in held
    ensures Known(w.server.messages, id)
  {
    var latest := LatestKinds(ChangeLog.Since(w.server.log, prior.seqNo));
    var delta := DeltaEntries(w.server.messages, es, latest, prior.issuedAt);
    DeltaMembers(w.server.messages, es, latest, prior.issuedAt);
    UpsertedGet(w.device.held, delta, id);
    if id in EntryIds(delta) {
      var k :| k in w.server.messages && EntryAt(k, Segments(w.server, prior.membership), asm, device) == Some(held[id]);
      assert k.id == id;
    }
  }

  lemma {:induction false} PartialParts(w: World, device: Viewer, cfg: Config, at: int) returns (es: seq<Entry>)
    requires WorldInv(w, device) && w.clock <= at && cfg.deltaMode
    requires Sync(w.server, device, w.device.tag, w.device.cursor, at, cfg).0.Partial?
    ensures w.device.cursor.Some?
    ensures var w', prior := Synced(w, device, cfg, at), w.device.cursor.value;
            var c := Cursor(|w.writes|, prior.membership, at);
            && PartialAnswer(w, device, prior, at, w'.builtAt, es, w'.device.held)
            && w'.device.cursor == Some(c) && CursorInv(w', device, c)
            && SameStore(w.server, w'.server) && w'.writes == w.writes && w'.clock == at
            && w'.lost == LostBy(w, device, prior, w'.builtAt)
  {
    ResponseParts(w, device, cfg, at);
    FreshCursorInv(w, device, cfg, at);
    es := BuildPayload(w.server, device, at).0.value.entries;
  }

  lemma {:induction false} PartialStep(w: World, device: Viewer, cfg: Config, at: int)
    requires WorldInv(w, device) && w.clock <= at && cfg.deltaMode
    requires Sync(w.server, device, w.device.tag, w.device.cursor, at, cfg).0.Partial?
    ensures DeviceInv(Synced(w, device, cfg, at), device)
  {
    var es := PartialParts(w, device, cfg, at);
    PartialTruthful(w, Synced(w, device, cfg, at), device, w.device.cursor.value, at, es);
  }

  lemma {:induction false} PartialTruthful(w: World, w': World, device: Viewer, prior: Cursor, at: int, es: seq<Entry>)
    requires PartialAnswer(w, device, prior, at, w'.builtAt, es, w'.device.held)
    requires SameStore(w.server, w'.server) && w'.writes == w.writes && w'.clock == at
    requires w'.lost == LostBy(w, device, prior, w'.builtAt)
    ensures Truthful(w', device, Cursor(|w.writes|, prior.membership, at))
  {
    var c := Cursor(|w.writes|, prior.membership, at);
    forall m | m in w'.server.messages ensures HeldKnown(w', device, c, m) {
      if m.id in w'.device.held { PartialHeldKnown(w, device, prior, at, w'.builtAt, es, w'.device.held, m); }
    }
    forall m | m in w'.server.messages && m.windowEnd > at ensures Get(w'.device.held, m.id) == Expected(w', device, c, m) {
      DeltaHolds(w, device, prior, at, w'.builtAt, es, m);
    }
    forall id | id in w'.device.held ensures Known(w'.server.messages, id) {
      PartialKnown(w, device, prior, at, w'.builtAt, es, w'.device.held, id);
    }
  }

  lemma {:induction false} DeviceSyncStep(w: World, device: Viewer, cfg: Config, at: int)
    requires WorldInv(w, device) && w.clock <= at && cfg.deltaMode
    ensures DeviceInv(Synced(w, device, cfg, at), device)
  {
    var r := Sync(w.server, device, w.device.tag, w.device.cursor, at, cfg).0;
    match r
    case Full(_, _, _) => FullStep(w, device, cfg, at);
    case Partial(_, _, _, _) => PartialStep(w, device, cfg, at);
    case _ =>
      var key := if w.device.cursor.Some? then DeviceKey(device, w.device.cursor.value) else Key("", 0, {});
      assert key.membership == {} ==> key !in w.server.bundles by {
        assert key in w.server.bundles ==> BundleFaithful(w.server, key);
      }
      var floor := if w.device.cursor.Some? then w.builtAt else w.clock;
      SyncServer(w.server, device, w.device.tag, w.device.cursor, at, cfg, w.clock, key, floor);
      QuietStep(w, Synced(w, device, cfg, at), device);
  }

  // ---- Every run ----

  lemma {:induction false} SetStateKeepsServer(w: World, id: string, to: MessageState, actor: string, at: int)
    requires ServerInv(w) && w.clock <= at
    ensures ServerInv(w.(server := StateUpdated(w.server, id, to, actor, at), writes := w.writes + WritesOf(w.server, id, to, at), clock := at))
  {
    CacheAges(w.server, w.clock, at);
    UpdateKeepsCache(w.server, id, to, actor, at, at);
    UpdateKeepsLog(w.server, w.writes, id, to, actor, at, w.clock);
  }

  lemma {:induction false} CreateKeepsServer(w: World, m: Message, at: int)
    requires ServerInv(w) && w.clock <= at && !Known(w.server.messages, m.id)
    ensures ServerInv(w.(server := Created(w.server, m), clock := at))
  {
    CacheAges(w.server, w.clock, at);
    CreateKeepsCache(w.server, m, at);
    CreateKeepsLog(w.server, w.writes, m, w.clock);
  }

  lemma {:induction false} SyncKeepsServer(w: World, viewer: Viewer, tag: Option<string>, cursor: Option<Cursor>, cfg: Config, at: int)
    requires ServerInv(w) && w.clock <= at
    ensures ServerInv(w.(server := Sync(w.server, viewer, tag, cursor, at, cfg).1, clock := at))
  {
    var anyKey := Key("", 0, {});
    assert NoOlder(w.server, anyKey, w.clock) by {
      assert anyKey in w.server.bundles ==> BundleFaithful(w.server, anyKey);
    }
    SyncServer(w.server, viewer, tag, cursor, at, cfg, w.clock, anyKey, w.clock);
  }

  lemma {:induction false} StepKeepsServer(w: World, device: Viewer, cfg: Config, op: Op, at: int)
    requires ServerInv(w)
    ensures ServerInv(Step(w, device, cfg, op, at))
  {
    if Allowed(w, device, op, at) {
      match op
      case Create(m) => CreateKeepsServer(w, m, at);
      case SetState(id, to, actor) => SetStateKeepsServer(w, id, to, actor, at);
      case SaveSegment(o, g) => SegmentKeepsServer(w, o, g, at);
      case Reindex(c, membership) => ReindexKeepsServer(w, c, membership, at);
      case OtherSync(v, tag, cursor) => SyncKeepsServer(w, v, tag, cursor, cfg, at);
      case DeviceSync => DeviceSyncKeepsServer(w, device, cfg, at);
      case DeviceExpiry => ExpiryKeepsServer(w, at);
    }
  }

  lemma {:induction false} SegmentKeepsServer(w: World, o: nat, g: string, at: int)
    requires ServerInv(w) && w.clock <= at && o !in w.server.segments
    ensures ServerInv(w.(server := w.server.(segments := w.server.segments[o := g]), clock := at))
  {
    CacheAges(w.server, w.clock, at);
    SegmentKeepsCache(w.server, o, g, at);
  }

  lemma {:induction false} ReindexKeepsServer(w: World, channel: string, membership: set<nat>, at: int)
    requires ServerInv(w) && w.clock <= at && membership <= w.server.segments.Keys
    ensures ServerInv(w.(server := w.server.(memberships := w.server.memberships[channel := membership]), clock := at))
  {
    CacheAges(w.server, w.clock, at);
    ReindexKeepsCache(w.server, channel, membership, at);
  }

  lemma {:induction false} SyncedParts(w: World, device: Viewer, cfg: Config, at: int)
    ensures var w' := Synced(w, device, cfg, at);
            && w'.server == Sync(w.server, device, w.device.tag, w.device.cursor, at, cfg).1
            && w'.writes == w.writes && w'.clock == at
  {
  }

  lemma {:induction false} DeviceSyncKeepsServer(w: World, device: Viewer, cfg: Config, at: int)
    requires ServerInv(w) && w.clock <= at
    ensures ServerInv(Synced(w, device, cfg, at))
  {
    SyncedParts(w, device, cfg, at);
    SyncKeepsServer(w, device, w.device.tag, w.device.cursor, cfg, at);
  }

  lemma {:induction false} ExpiryKeepsServer(w: World, at: int)
    requires ServerInv(w) && w.clock <= at
    ensures ServerInv(w.(device := w.device.(held := Unexpired(w.device.held, at)), clock := at))
  {
    CacheAges(w.server, w.clock, at);
  }

  lemma {:induction false} ReindexKeepsCache(s: Server, channel: string, membership: set<nat>, at: int)
    requires CacheInv(s, at)
    ensures CacheInv(s.(memberships := s.memberships[channel := membership]), at)
  {
    var s' := s.(memberships := s.memberships[channel := membership]);
    forall k | k in s'.bundles ensures BundleFaithful(s', k) && KeyListed(s', k) && s'.bundles[k].assembledAt <= at {
      assert BundleFaithful(s, k) && KeyListed(s, k);
    }
  }

  lemma {:induction false} SegmentStep(w: World, device: Viewer, o: nat, g: string, at: int)
    requires WorldInv(w, device) && w.clock <= at && o !in w.server.segments
    ensures DeviceInv(w.(server := w.server.(segments := w.server.segments[o := g]), clock := at), device)
  {
    if w.device.cursor.Some? {
      SegmentsGrow(w.server.segments, o, g, w.device.cursor.value.membership);
    }
    QuietStep(w, w.(server := w.server.(segments := w.server.segments[o := g]), clock := at), device);
  }

  lemma {:induction false} OtherSyncStep(w: World, device: Viewer, v: Viewer, tag: Option<string>, cursor: Option<Cursor>, cfg: Config, at: int)
    requires WorldInv(w, device) && w.clock <= at
    ensures DeviceInv(w.(server := Sync(w.server, v, tag, cursor, at, cfg).1, clock := at), device)
  {
    if w.device.cursor.Some? {
      SyncServer(w.server, v, tag, cursor, at, cfg, w.clock, DeviceKey(device, w.device.cursor.value), w.builtAt);
      QuietStep(w, w.(server := Sync(w.server, v, tag, cursor, at, cfg).1, clock := at), device);
    }
  }

  lemma {:induction false} ReindexStep(w: World, device: Viewer, channel: string, membership: set<nat>, at: int)
    requires WorldInv(w, device) && w.clock <= at
    ensures DeviceInv(w.(server := w.server.(memberships := w.server.memberships[channel := membership]), clock := at), device)
  {
    QuietStep(w, w.(server := w.server.(memberships := w.server.memberships[channel := membership]), clock := at), device);
  }

  lemma {:induction false} StepKeepsDevice(w: World, device: Viewer, cfg: Config, op: Op, at: int)
    requires WorldInv(w, device) && cfg.deltaMode
    ensures DeviceInv(Step(w, device, cfg, op, at), device)
  {
    if Allowed(w, device, op, at) {
      match op
      case Create(m) => CreateStep(w, device, m, at);
      case SetState(id, to, actor) => SetStateStep(w, device, id, to, actor, at);
      case SaveSegment(o, g) => SegmentStep(w, device, o, g, at);
      case Reindex(c, membership) => ReindexStep(w, device, c, membership, at);
      case OtherSync(v, tag, cursor) => OtherSyncStep(w, device, v, tag, cursor, cfg, at);
      case DeviceSync => DeviceSyncStep(w, device, cfg, at);
      case DeviceExpiry => ExpiryStep(w, device, at);
    }
  }

  /**
   Over every run, the caches stay faithful, the log complete, and the device's cursor truthful: an
   answer of Unchanged, in particular, leaves the old cursor describing what the device still holds.
   */
  lemma {:induction false} RunsKeepTheInvariant(device: Viewer, cfg: Config, ops: seq<Timed>)
    requires cfg.deltaMode
    ensures WorldInv(Run(device, cfg, ops), device)
  {
    if ops != [] {
      var last, before := ops[|ops| - 1], ops[..|ops| - 1];
      RunsKeepTheInvariant(device, cfg, before);
      StepKeepsServer(Run(device, cfg, before), device, cfg, last.op, last.at);
      StepKeepsDevice(Run(device, cfg, before), device, cfg, last.op, last.at);
    }
  }

  /** What the device shows at `now` of `m` is what a full assembly at `now` would give it. */
  ghost predicate ShowsCurrent(w: World, device: Viewer, m: Message) {
    var now, membership := w.clock, MembershipOf(w.server, device.channel);
    Get(Unexpired(w.device.held, now), m.id) == EntryAt(m, Segments(w.server, membership), now, device)
  }

  /** `m` is eligible at `now`, but its window opened after the payload's bundle was assembled, or it was lost. */
  ghost predicate Missed(w: World, device: Viewer, m: Message) {
    && EntryAt(m, Segments(w.server, MembershipOf(w.server, device.channel)), w.clock, device).Some?
    && (m.windowStart > w.builtAt || m.id in w.lost)
  }

  ghost predicate Answered(w: World, device: Viewer, cfg: Config, at: int) {
    var r := Sync(w.server, device, w.device.tag, w.device.cursor, at, cfg).0;
    r.Full? || r.Partial?
  }

  /** The world right after an answer: the cursor is the newest there can be. */
  ghost predicate JustAnswered(w: World, device: Viewer) {
    && w.device.cursor == Some(Cursor(|w.writes|, MembershipOf(w.server, device.channel), w.clock))
    && w.builtAt <= w.clock && DeviceInv(w, device)
  }

  lemma {:induction false} JustAnsweredShows(w: World, device: Viewer, m: Message)
    requires JustAnswered(w, device) && m in w.server.messages
    ensures ShowsCurrent(w, device, m) <==> !Missed(w, device, m)
  {
    var c := w.device.cursor.value;
    assert HeldKnown(w, device, c, m);
    NothingChangedSince(w.writes, m.id);
    if m.windowEnd > w.clock {
      assert Get(w.device.held, m.id) == Expected(w, device, c, m);
    }
  }

  lemma {:induction false} AllAnsweredShow(w0: World, device: Viewer, cfg: Config, at: int)
    requires WorldInv(w0, device) && cfg.deltaMode && w0.clock <= at && Answered(w0, device, cfg, at)
    ensures ShownExactly(Synced(w0, device, cfg, at), device)
  {
    var w := Synced(w0, device, cfg, at);
    AnswerIsNewest(w0, device, cfg, at);
    forall m | m in w.server.messages ensures ShowsCurrent(w, device, m) <==> !Missed(w, device, m) {
      JustAnsweredShows(w, device, m);
    }
  }

  lemma {:induction false} AnswerIsNewest(w0: World, device: Viewer, cfg: Config, at: int)
    requires WorldInv(w0, device) && cfg.deltaMode && w0.clock <= at && Answered(w0, device, cfg, at)
    ensures JustAnswered(Synced(w0, device, cfg, at), device)
  {
    DeviceSyncStep(w0, device, cfg, at);
    FreshCursorInv(w0, device, cfg, at);
    ResponseParts(w0, device, cfg, at);
  }

  /**
   The device shows of each message exactly what a full assembly now would give it, if and only if the
   message is not missed; and it holds nothing else.
   */
  ghost predicate ShownExactly(w: World, device: Viewer) {
    && (forall m :: m in w.server.messages ==> (ShowsCurrent(w, device, m) <==> !Missed(w, device, m)))
    && (forall id :: id in w.device.held ==> Known(w.server.messages, id))
  }

  /** The main result: so it is after any synchronisation answered with content, in any run. */
  lemma {:induction false} DeviceShowsCurrentIffNotMissed(device: Viewer, cfg: Config, ops: seq<Timed>, at: int)
    requires cfg.deltaMode
    requires Run(device, cfg, ops).clock <= at && Answered(Run(device, cfg, ops), device, cfg, at)
    ensures ShownExactly(Run(device, cfg, ops + [Timed(DeviceSync, at)]), device)
  {
    RunsKeepTheInvariant(device, cfg, ops);
    AllAnsweredShow(Run(device, cfg, ops), device, cfg, at);
    RunOfSync(device, cfg, ops, at);
  }

  lemma {:induction false} RunOfSync(device: Viewer, cfg: Config, ops: seq<Timed>, at: int)
    requires Run(device, cfg, ops).clock <= at
    ensures Run(device, cfg, ops + [Timed(DeviceSync, at)]) == Synced(Run(device, cfg, ops), device, cfg, at)
  {
    RunSnoc(device, cfg, ops, Timed(DeviceSync, at));
  }

  lemma {:induction false} RunSnoc(device: Viewer, cfg: Config, ops: seq<Timed>, t: Timed)
    ensures Run(device, cfg, ops + [t]) == Step(Run(device, cfg, ops), device, cfg, t.op, t.at)
  {
    assert (ops + [t])[..|ops + [t]| - 1] == ops;
  }
}
