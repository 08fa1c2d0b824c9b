/**
 The delivery service as a state machine on values: the message store, the change log, the two-tier
 bundle cache with its per-segment index, the entity tags, and the synchronisation that reads them
 (internal/delivery/deliver, internal/delivery/payload/bundle.go, internal/platform/connectserver/admin.go).
 Each handler call is one step.
 */
module Delivery {
  import opened Wrappers
  import opened Definitions
  import opened Payload
  import ChangeLog
  import Etag

  /** The version cursor; the membership hash is carried as the membership itself. */
  datatype Cursor = Cursor(seqNo: int, membership: set<nat>, issuedAt: int)

  /** A bundle cache key; as in the cursor, the membership stands for its hash. */
  datatype Key = Key(language: string, major: int, membership: set<nat>)

  /** A cached bundle. `assembledAt` records when, for the statements below: no operation reads it. */
  datatype Cached = Cached(messages: seq<BundleMessage>, assembledAt: int)

  datatype CachedTag = CachedTag(tag: string, expiresAt: int)

  datatype Config = Config(tagTtl: int, deltaMode: bool)

  datatype Server = Server(
    messages: seq<Message>, audit: seq<AuditEntry>, log: ChangeLog.Log,
    segments: map<nat, string>, memberships: map<string, set<nat>>,
    bundles: map<Key, Cached>, index: map<string, set<Key>>, tags: map<string, CachedTag>)

  const EMPTY := Server([], [], ChangeLog.EMPTY, map[], map[], map[], map[], map[])

  // ---- Administration ----

  function Created(s: Server, m: Message): Server {
    s.(messages := s.messages + [m.(state := Draft)])
  }

  function IndexedKeys(s: Server, segment: string): set<Key> {
    if segment in s.index then s.index[segment] else {}
  }

  /** Drop every bundle listed under the message's audience; the lists stay. */
  function Invalidated(s: Server, messageId: string): Server {
    match Find(s.messages, messageId)
    case Some(m) =>
      (match m.audience
       case None => s
       case Some(a) => s.(bundles := s.bundles - IndexedKeys(s, a)))
    case None => s
  }

  function KindFor(to: MessageState): ChangeLog.Kind {
    if to.Active? then ChangeLog.Upsert else ChangeLog.Tombstone
  }

  /** The state change, the change-log row and the invalidation; nothing at all when the move is refused. */
  function StateUpdated(s: Server, id: string, to: MessageState, actor: string, now: int): Server {
    if !Updatable(s.messages, id, to) then s
    else
      var moved := s.(messages := WithState(s.messages, id, to), audit := s.audit + [AuditOf(s.messages, id, to, actor, now)]);
      Invalidated(moved.(log := ChangeLog.Recorded(moved.log, id, KindFor(to), now)), id)
  }

  // ---- The bundle cache ----

  function SegmentIds(segments: map<nat, string>, membership: set<nat>): set<string> {
    set o | o in membership && o in segments :: segments[o]
  }

  /** List `key` under every segment the bundle was assembled from. */
  function Listed(index: map<string, set<Key>>, segmentIds: set<string>, key: Key): map<string, set<Key>> {
    map g | g in index.Keys + segmentIds ::
      (if g in index then index[g] else {}) + (if g in segmentIds then {key} else {})
  }

  /** A hit is reused whatever its age; a miss assembles, caches and lists. */
  function SharedBundle(s: Server, key: Key, now: int): (Result<Cached, BuildError>, Server) {
    if key in s.bundles then (Ok(s.bundles[key]), s)
    else
      var ids := SegmentIds(s.segments, key.membership);
      match AssembleShared(s.messages, ids, key.language, key.major, now)
      case Err(e) => (Err(e), s)
      case Ok(b) =>
        var cached := Cached(b, now);
        (Ok(cached), s.(bundles := s.bundles[key := cached], index := Listed(s.index, ids, key)))
  }

  // ---- Synchronisation ----

  function MembershipOf(s: Server, channel: string): set<nat> {
    if channel in s.memberships then s.memberships[channel] else {}
  }

  /** A built payload and the time its bundle was assembled. */
  datatype Built = Built(entries: seq<Entry>, assembledAt: int)

  function BuildPayload(s: Server, viewer: Viewer, now: int): (Result<Built, BuildError>, Server) {
    var membership := MembershipOf(s, viewer.channel);
    if membership == {} then (Ok(Built([], now)), s)
    else
      var (cached, s') := SharedBundle(s, Key(viewer.language, viewer.major, membership), now);
      match cached
      case Err(e) => (Err(e), s')
      case Ok(b) =>
        match EntriesOf(b.messages, viewer)
        case Err(e) => (Err(e), s')
        case Ok(es) => (Ok(Built(es, b.assembledAt)), s')
  }

  /** The latest kind of each changed message. */
  function LatestKinds(changes: seq<ChangeLog.Change>): map<string, ChangeLog.Kind> {
    if changes == [] then map[]
    else
      var last := changes[|changes| - 1];
      LatestKinds(changes[..|changes| - 1])[last.messageId := last.kind]
  }

  /** Go's zero time, which the window lookup yields for an id it does not find. */
  const ZERO_TIME: int := -62135596800 * 1_000_000_000

  function WindowStart(ms: seq<Message>, id: string): int {
    var m := Find(ms, id);
    if m.Some? then m.value.windowStart else ZERO_TIME
  }

  /** The entries a delta sends: those changed, and those whose window opened since the cursor. */
  function DeltaEntries(ms: seq<Message>, entries: seq<Entry>, latest: map<string, ChangeLog.Kind>, issuedAt: int): seq<Entry> {
    if entries == [] then []
    else
      var e := entries[|entries| - 1];
      DeltaEntries(ms, entries[..|entries| - 1], latest, issuedAt)
      + if e.messageId in latest || WindowStart(ms, e.messageId) >= issuedAt then [e] else []
  }

  function EntryIds(entries: seq<Entry>): set<string> {
    set e | e in entries :: e.messageId
  }

  function Tombstones(entries: seq<Entry>, latest: map<string, ChangeLog.Kind>): set<string> {
    set id | id in latest && latest[id].Tombstone? && id !in EntryIds(entries)
  }

  predicate Honourable(c: Option<Cursor>, membership: set<nat>, currentSeq: nat, now: int) {
    && c.Some?
    && c.value.membership == membership
    && c.value.seqNo <= currentSeq
    && c.value.issuedAt >= now - ChangeLog.RETENTION
  }

  datatype Delta = NotHonoured | Honoured(entries: seq<Entry>, tombstones: set<string>)

  function FreshCursor(s: Server, channel: string, now: int): Cursor {
    Cursor(ChangeLog.CurrentSeq(s.log), MembershipOf(s, channel), now)
  }

  function ComputeDelta(s: Server, channel: string, entries: seq<Entry>, client: Option<Cursor>, now: int): Delta {
    if !Honourable(client, MembershipOf(s, channel), ChangeLog.CurrentSeq(s.log), now) then NotHonoured
    else
      var latest := LatestKinds(ChangeLog.Since(s.log, client.value.seqNo));
      Honoured(DeltaEntries(s.messages, entries, latest, client.value.issuedAt), Tombstones(entries, latest))
  }

  /** What the device gets back. `cursor` is absent when delta mode is off. */
  datatype Response =
    | Unchanged(tag: string)
    | Full(tag: string, entries: seq<Entry>, cursor: Option<Cursor>)
    | Partial(tag: string, entries: seq<Entry>, tombstones: set<string>, cursor: Option<Cursor>)
    | Failed(error: BuildError)

  /** The fast path: the tag the device sent is the one cached for its channel. */
  predicate TagIsCached(s: Server, channel: string, tag: Option<string>, now: int) {
    tag.Some? && channel in s.tags && now < s.tags[channel].expiresAt && s.tags[channel].tag == tag.value
  }

  /** Cache the tag of a built payload and answer with it. */
  function Answer(s: Server, viewer: Viewer, p: Built, clientTag: Option<string>, client: Option<Cursor>, now: int, cfg: Config): (Response, Server) {
    var tag := Etag.Stream(p.entries);
    var s' := s.(tags := s.tags[viewer.channel := CachedTag(tag, now + cfg.tagTtl)]);
    if clientTag == Some(tag) then (Unchanged(tag), s')
    else if !cfg.deltaMode then (Full(tag, p.entries, None), s')
    else
      var cursor := Some(FreshCursor(s', viewer.channel, now));
      match ComputeDelta(s', viewer.channel, p.entries, client, now)
      case NotHonoured => (Full(tag, p.entries, cursor), s')
      case Honoured(entries, tombstones) => (Partial(tag, entries, tombstones, cursor), s')
  }

  function Sync(s: Server, viewer: Viewer, clientTag: Option<string>, client: Option<Cursor>, now: int, cfg: Config): (Response, Server) {
    if TagIsCached(s, viewer.channel, clientTag, now) then (Unchanged(clientTag.value), s)
    else
      var (built, s') := BuildPayload(s, viewer, now);
      match built
      case Err(e) => (Failed(e), s')
      case Ok(p) => Answer(s', viewer, p, clientTag, client, now, cfg)
  }

  // ---- The device ----

  datatype Device = Device(held: map<string, Entry>, tag: Option<string>, cursor: Option<Cursor>)

  const NEW_DEVICE := Device(map[], None, None)

  function Upserted(held: map<string, Entry>, entries: seq<Entry>): map<string, Entry> {
    if entries == [] then held
    else
      var e := entries[|entries| - 1];
      Upserted(held, entries[..|entries| - 1])[e.messageId := e]
  }

  function Received(d: Device, r: Response): Device {
    match r
    case Unchanged(_) => d
    case Failed(_) => d
    case Full(tag, entries, cursor) => Device(Upserted(map[], entries), Some(tag), cursor)
    case Partial(tag, entries, tombstones, cursor) => Device(Upserted(d.held, entries) - tombstones, Some(tag), cursor)
  }

  /** Entries past their expiry are dropped without asking. */
  function Unexpired(held: map<string, Entry>, now: int): map<string, Entry> {
    map id | id in held && held[id].expiresAt > now :: held[id]
  }
}
