/**
 What an answer of "unchanged" promises. When a rebuilt payload has the tag the device sent, nothing is
 sent back; the device then shows of each message exactly what the rebuilt payload says, lost ones apart.
 */
module DeliveryTags {
  import opened Wrappers
  import opened Ordering
  import opened Definitions
  import opened Payload
  import opened Delivery
  import opened DeliveryInvariants
  import opened DeliveryRuns
  import opened DeliveryTimeliness
  import Etag

  /** Message and variant ids carry no NUL. */
  ghost predicate PlainMessage(m: Message) {
    Etag.NulFree(m.id) && forall v :: v in m.variants ==> Etag.NulFree(v.id)
  }

  ghost predicate PlainStore(ms: seq<Message>) {
    forall m :: m in ms ==> PlainMessage(m)
  }

  ghost predicate PlainCreations(ops: seq<Timed>) {
    forall t :: t in ops && t.op.Create? ==> PlainMessage(t.op.message)
  }

  /** What was sent last, after one more step. */
  ghost function SentAfter(w: World, device: Viewer, cfg: Config, t: Timed, sent: seq<Entry>): seq<Entry> {
    var built := BuildPayload(w.server, device, t.at).0;
    if AnsweredStep(w, device, cfg, t) && built.Ok? then built.value.entries else sent
  }

  /** The entries of the payload behind the run's last answer to the device. */
  ghost function Sent(device: Viewer, cfg: Config, ops: seq<Timed>): seq<Entry> {
    if ops == [] then []
    else SentAfter(Run(device, cfg, ops[..|ops| - 1]), device, cfg, ops[|ops| - 1], Sent(device, cfg, ops[..|ops| - 1]))
  }

  /** The device holds the message if and only if the payload did and it was not lost. */
  ghost predicate HoldsSent(w: World, sent: seq<Entry>, m: Message) {
    m.id in w.device.held <==> m.id in EntryIds(sent) && m.id !in w.lost
  }

  /** The device's tag is that of `sent`, which it holds, but for lost and expired messages. */
  ghost predicate TagInv(w: World, sent: seq<Entry>) {
    w.device.tag.Some? ==>
      && w.device.cursor.Some? && w.device.tag == Some(Etag.Stream(sent)) && Etag.Taggable(sent)
      && (forall id :: id in EntryIds(sent) ==> Known(w.server.messages, id))
      && (forall m :: m in w.server.messages && m.windowEnd > w.clock ==> HoldsSent(w, sent, m))
  }

  // ---- Taggable payloads ----

  lemma {:induction false} EntriesPlain(ms: seq<Message>, segments: set<string>, at: int, viewer: Viewer, es: seq<Entry>)
    requires PlainStore(ms) && HoldsEntriesOf(es, ms, segments, at, viewer)
    ensures forall e :: e in es ==> Etag.NulFree(e.messageId) && Etag.NulFree(e.variantId)
  {
    forall e | e in es ensures Etag.NulFree(e.messageId) && Etag.NulFree(e.variantId) {
      var m :| m in ms && EntryAt(m, segments, at, viewer) == Some(e);
      EntryTells(m, segments, at, viewer);
      EntryNamesAVariant(m, viewer);
    }
  }

  lemma {:induction false} BuiltDistinct(s: Server, viewer: Viewer, now: int, clock: int)
    requires CacheInv(s, clock) && clock <= now && MembershipsKnown(s) && DistinctIds(s.messages)
    requires BuildPayload(s, viewer, now).0.Ok?
    ensures DistinctEntries(BuildPayload(s, viewer, now).0.value.entries)
  {
    var membership := MembershipOf(s, viewer.channel);
    if membership != {} {
      var key := Key(viewer.language, viewer.major, membership);
      SharedBundleServer(s, key, now, clock, key, if key in s.bundles then s.bundles[key].assembledAt else now);
      var s' := SharedBundle(s, key, now).1;
      assert BundleFaithful(s', key);
      BuiltEntriesDistinct(s.messages, Segments(s, membership), s'.bundles[key].assembledAt, s'.bundles[key].messages,
                           viewer, BuildPayload(s, viewer, now).0.value.entries);
    }
  }

  /** A payload built now carries the entries eligible when its bundle was assembled, and can be tagged. */
  ghost predicate WellBuilt(w: World, device: Viewer, p: Built, at: int) {
    && p.assembledAt <= at && Etag.Taggable(p.entries)
    && HoldsEntriesOf(p.entries, w.server.messages, Segments(w.server, MembershipOf(w.server, device.channel)), p.assembledAt, device)
  }

  lemma {:induction false} BuiltWell(w: World, device: Viewer, at: int)
    requires WorldInv(w, device) && PlainStore(w.server.messages) && w.clock <= at
    requires BuildPayload(w.server, device, at).0.Ok?
    ensures WellBuilt(w, device, BuildPayload(w.server, device, at).0.value, at)
  {
    var membership := MembershipOf(w.server, device.channel);
    var floor := FloorOf(w, device, membership);
    BuildContents(w.server, device, at, w.clock, floor);
    BuiltDistinct(w.server, device, at, w.clock);
    var p := BuildPayload(w.server, device, at).0.value;
    EntriesPlain(w.server.messages, Segments(w.server, membership), p.assembledAt, device, p.entries);
  }

  // ---- What every step keeps ----

  /** A message of the new store is new, or had the same window before. */
  ghost predicate SameWindow(w: World, m: Message) {
    Known(w.server.messages, m.id) ==> exists k :: k in w.server.messages && k.id == m.id && k.windowEnd == m.windowEnd
  }

  lemma {:induction false} UnansweredKeepsTag(w: World, w': World, device: Viewer, sent: seq<Entry>)
    requires WorldInv(w, device) && TagInv(w, sent) && w.clock <= w'.clock
    requires w'.device == w.device && w'.lost == w.lost
    requires forall m :: m in w'.server.messages ==> SameWindow(w, m)
    requires forall id :: Known(w.server.messages, id) ==> Known(w'.server.messages, id)
    ensures TagInv(w', sent)
  {
    if w.device.tag.Some? {
      forall m | m in w'.server.messages && m.windowEnd > w'.clock ensures HoldsSent(w', sent, m) {
        assert SameWindow(w, m);
        if Known(w.server.messages, m.id) {
          var k :| k in w.server.messages && k.id == m.id && k.windowEnd == m.windowEnd;
          assert HoldsSent(w, sent, k);
        }
      }
    }
  }

  lemma {:induction false} SameMessagesKeepTag(w: World, w': World, device: Viewer, sent: seq<Entry>)
    requires WorldInv(w, device) && TagInv(w, sent) && w.clock <= w'.clock
    requires w'.device == w.device && w'.lost == w.lost && w'.server.messages == w.server.messages
    ensures TagInv(w', sent)
  {
    UnansweredKeepsTag(w, w', device, sent);
  }

  lemma {:induction false} CreateKeepsTag(w: World, device: Viewer, sent: seq<Entry>, m: Message, at: int)
    requires WorldInv(w, device) && TagInv(w, sent) && w.clock <= at && !Known(w.server.messages, m.id)
    ensures TagInv(w.(server := Created(w.server, m), clock := at), sent)
  {
    var w' := w.(server := Created(w.server, m), clock := at);
    forall id | Known(w.server.messages, id) ensures Known(w'.server.messages, id) {
      var k :| k in w.server.messages && k.id == id;
      assert k in w'.server.messages;
    }
    UnansweredKeepsTag(w, w', device, sent);
  }

  lemma {:induction false} SetStateKeepsTag(w: World, device: Viewer, sent: seq<Entry>, id: string, to: MessageState, actor: string, at: int)
    requires WorldInv(w, device) && TagInv(w, sent) && w.clock <= at
    ensures TagInv(w.(server := StateUpdated(w.server, id, to, actor, at), writes := w.writes + WritesOf(w.server, id, to, at), clock := at), sent)
  {
    var w' := w.(server := StateUpdated(w.server, id, to, actor, at), writes := w.writes + WritesOf(w.server, id, to, at), clock := at);
    if Updatable(w.server.messages, id, to) {
      StateUpdatedParts(w.server, id, to, actor, at);
      WithStateMembers(w.server.messages, id, to);
      forall m | m in w'.server.messages ensures SameWindow(w, m) {
        MovedWindow(w.server.messages, id, to, m);
      }
    }
    UnansweredKeepsTag(w, w', device, sent);
  }

  lemma {:induction false} ExpiryKeepsTag(w: World, device: Viewer, sent: seq<Entry>, at: int)
    requires WorldInv(w, device) && TagInv(w, sent) && w.clock <= at
    ensures TagInv(w.(device := w.device.(held := Unexpired(w.device.held, at)), clock := at), sent)
  {
    var w' := w.(device := w.device.(held := Unexpired(w.device.held, at)), clock := at);
    if w.device.tag.Some? {
      forall m | m in w'.server.messages && m.windowEnd > at ensures HoldsSent(w', sent, m) {
        assert HoldsSent(w, sent, m);
        assert HeldKnown(w, device, w.device.cursor.value, m);
      }
    }
  }

  lemma {:induction false} UnansweredDevice(w: World, device: Viewer, cfg: Config, at: int)
    requires !Answered(w, device, cfg, at)
    ensures Synced(w, device, cfg, at).device == w.device
  {
  }

  lemma {:induction false} UnansweredSyncKeepsTag(w: World, device: Viewer, sent: seq<Entry>, cfg: Config, at: int)
    requires WorldInv(w, device) && TagInv(w, sent) && w.clock <= at && !Answered(w, device, cfg, at)
    ensures TagInv(Synced(w, device, cfg, at), sent)
  {
    SyncedParts(w, device, cfg, at);
    SyncKeepsStore(w, device, w.device.tag, w.device.cursor, cfg, at);
    UnansweredSync(w, device, cfg, at);
    UnansweredDevice(w, device, cfg, at);
    SameMessagesKeepTag(w, Synced(w, device, cfg, at), device, sent);
  }

  lemma {:induction false} AnswerTags(w: World, device: Viewer, cfg: Config, at: int)
    requires Answered(w, device, cfg, at)
    ensures var built := BuildPayload(w.server, device, at).0;
            built.Ok? && Synced(w, device, cfg, at).device.tag == Some(Etag.Stream(built.value.entries))
  {
  }

  /** An answer with content leaves the device with the tag of the payload and holding it, lost messages apart. */
  lemma {:induction false} AnswerKeepsTag(w: World, device: Viewer, cfg: Config, at: int)
    requires WorldInv(w, device) && PlainStore(w.server.messages) && cfg.deltaMode && w.clock <= at && Answered(w, device, cfg, at)
    ensures BuildPayload(w.server, device, at).0.Ok?
    ensures TagInv(Synced(w, device, cfg, at), BuildPayload(w.server, device, at).0.value.entries)
  {
    AnswerTags(w, device, cfg, at);
    BuiltWell(w, device, at);
    AnswerIsNewest(w, device, cfg, at);
    FreshCursorInv(w, device, cfg, at);
    SyncedParts(w, device, cfg, at);
    AnswerHolds(w, Synced(w, device, cfg, at), device, BuildPayload(w.server, device, at).0.value);
  }

  lemma {:induction false} AnswerHolds(w: World, w': World, device: Viewer, p: Built)
    requires DistinctIds(w.server.messages) && SameStore(w.server, w'.server) && JustAnswered(w', device)
    requires w'.builtAt == p.assembledAt && WellBuilt(w, device, p, w'.clock)
    requires w'.device.tag == Some(Etag.Stream(p.entries))
    ensures TagInv(w', p.entries)
  {
    var c := w'.device.cursor.value;
    forall m | m in w'.server.messages && m.windowEnd > w'.clock ensures HoldsSent(w', p.entries, m) {
      NothingChangedSince(w'.writes, m.id);
      assert Get(w'.device.held, m.id) == Expected(w', device, c, m);
      EntryIdsOf(w, device, Segments(w.server, c.membership), p.assembledAt, p.entries, m);
    }
    forall id | id in EntryIds(p.entries) ensures Known(w'.server.messages, id) {
      var e :| e in p.entries && e.messageId == id;
      var m :| m in w.server.messages && EntryAt(m, Segments(w.server, c.membership), p.assembledAt, device) == Some(e);
      assert m.id == id;
    }
  }

  lemma {:induction false} DeviceSyncKeepsTag(w: World, device: Viewer, cfg: Config, at: int, sent: seq<Entry>)
    requires WorldInv(w, device) && TagInv(w, sent) && PlainStore(w.server.messages) && cfg.deltaMode && w.clock <= at
    ensures TagInv(Synced(w, device, cfg, at), SentAfter(w, device, cfg, Timed(DeviceSync, at), sent))
  {
    if Answered(w, device, cfg, at) {
      AnswerKeepsTag(w, device, cfg, at);
    } else {
      UnansweredSyncKeepsTag(w, device, sent, cfg, at);
    }
  }

  lemma {:induction false} OtherSyncKeepsTag(w: World, device: Viewer, sent: seq<Entry>, v: Viewer, tag: Option<string>, cursor: Option<Cursor>, cfg: Config, at: int)
    requires WorldInv(w, device) && TagInv(w, sent) && w.clock <= at
    ensures TagInv(w.(server := Sync(w.server, v, tag, cursor, at, cfg).1, clock := at), sent)
  {
    SyncKeepsStore(w, v, tag, cursor, cfg, at);
    SameMessagesKeepTag(w, w.(server := Sync(w.server, v, tag, cursor, at, cfg).1, clock := at), device, sent);
  }

  lemma {:induction false} SegmentKeepsTag(w: World, device: Viewer, sent: seq<Entry>, o: nat, g: string, at: int)
    requires WorldInv(w, device) && TagInv(w, sent) && w.clock <= at
    ensures TagInv(w.(server := w.server.(segments := w.server.segments[o := g]), clock := at), sent)
  {
    SameMessagesKeepTag(w, w.(server := w.server.(segments := w.server.segments[o := g]), clock := at), device, sent);
  }

  lemma {:induction false} ReindexKeepsTag(w: World, device: Viewer, sent: seq<Entry>, channel: string, membership: set<nat>, at: int)
    requires WorldInv(w, device) && TagInv(w, sent) && w.clock <= at
    ensures TagInv(w.(server := w.server.(memberships := w.server.memberships[channel := membership]), clock := at), sent)
  {
    SameMessagesKeepTag(w, w.(server := w.server.(memberships := w.server.memberships[channel := membership]), clock := at), device, sent);
  }

  lemma {:induction false} StepKeepsTag(w: World, device: Viewer, cfg: Config, t: Timed, sent: seq<Entry>)
    requires WorldInv(w, device) && TagInv(w, sent) && PlainStore(w.server.messages) && cfg.deltaMode
    ensures TagInv(Step(w, device, cfg, t.op, t.at), SentAfter(w, device, cfg, t, sent))
  {
    if !t.op.DeviceSync? {
      OtherStepKeepsTag(w, device, cfg, t, sent);
    } else if w.clock <= t.at {
      DeviceSyncKeepsTag(w, device, cfg, t.at, sent);
    }
  }

  lemma {:induction false} OtherStepKeepsTag(w: World, device: Viewer, cfg: Config, t: Timed, sent: seq<Entry>)
    requires WorldInv(w, device) && TagInv(w, sent) && !t.op.DeviceSync?
    ensures TagInv(Step(w, device, cfg, t.op, t.at), sent)
  {
    if Allowed(w, device, t.op, t.at) {
      match t.op
      case Create(m) => CreateKeepsTag(w, device, sent, m, t.at);
      case SetState(id, to, actor) => SetStateKeepsTag(w, device, sent, id, to, actor, t.at);
      case SaveSegment(o, g) => SegmentKeepsTag(w, device, sent, o, g, t.at);
      case Reindex(c, membership) => ReindexKeepsTag(w, device, sent, c, membership, t.at);
      case OtherSync(v, tag, cursor) => OtherSyncKeepsTag(w, device, sent, v, tag, cursor, cfg, t.at);
      case DeviceExpiry => ExpiryKeepsTag(w, device, sent, t.at);
    }
  }

  // ---- The store stays plain ----

  lemma {:induction false} MovedPlain(ms: seq<Message>, id: string, to: MessageState)
    requires PlainStore(ms) && Updatable(ms, id, to)
    ensures PlainStore(WithState(ms, id, to))
  {
    var ms' := WithState(ms, id, to);
    forall m | m in ms' ensures PlainMessage(m) {
      var k :| 0 <= k < |ms'| && ms'[k] == m;
      assert ms[k] in ms && ms[k].variants == m.variants;
    }
  }

  lemma {:induction false} StateUpdatedPlain(s: Server, id: string, to: MessageState, actor: string, at: int)
    requires PlainStore(s.messages)
    ensures PlainStore(StateUpdated(s, id, to, actor, at).messages)
  {
    if Updatable(s.messages, id, to) {
      StateUpdatedParts(s, id, to, actor, at);
      MovedPlain(s.messages, id, to);
    }
  }

  lemma {:induction false} StepStaysPlain(w: World, device: Viewer, cfg: Config, t: Timed)
    requires ServerInv(w) && PlainStore(w.server.messages) && (t.op.Create? ==> PlainMessage(t.op.message))
    ensures PlainStore(Step(w, device, cfg, t.op, t.at).server.messages)
  {
    if Allowed(w, device, t.op, t.at) {
      match t.op
      case SetState(id, to, actor) => StateUpdatedPlain(w.server, id, to, actor, t.at);
      case OtherSync(v, tag, cursor) => SyncKeepsStore(w, v, tag, cursor, cfg, t.at);
      case DeviceSync =>
        SyncedParts(w, device, cfg, t.at);
        SyncKeepsStore(w, device, w.device.tag, w.device.cursor, cfg, t.at);
      case _ =>
    }
  }

  /** Over every run: the device's tag is that of what was sent last, and it holds that, lost and expired messages apart. */
  lemma {:induction false} TagsDescribeTheDevice(device: Viewer, cfg: Config, ops: seq<Timed>)
    requires cfg.deltaMode && PlainCreations(ops)
    ensures PlainStore(Run(device, cfg, ops).server.messages)
    ensures TagInv(Run(device, cfg, ops), Sent(device, cfg, ops))
  {
    if ops != [] {
      var front, last := ops[..|ops| - 1], ops[|ops| - 1];
      assert last in ops;
      TagsDescribeTheDevice(device, cfg, front);
      RunsKeepTheInvariant(device, cfg, front);
      StepStaysPlain(Run(device, cfg, front), device, cfg, last);
      StepKeepsTag(Run(device, cfg, front), device, cfg, last, Sent(device, cfg, front));
    }
  }

  // ---- Confirmation ----

  /** The synchronisation rebuilds the payload and answers that nothing changed. */
  ghost predicate Confirmed(w: World, device: Viewer, cfg: Config, at: int) {
    && !TagIsCached(w.server, device.channel, w.device.tag, at)
    && Sync(w.server, device, w.device.tag, w.device.cursor, at, cfg).0.Unchanged?
  }

  lemma {:induction false} ConfirmedTag(w: World, device: Viewer, cfg: Config, at: int)
    requires Confirmed(w, device, cfg, at)
    ensures var built := BuildPayload(w.server, device, at).0;
            built.Ok? && w.device.tag == Some(Etag.Stream(built.value.entries))
    ensures !Answered(w, device, cfg, at)
  {
  }

  lemma {:induction false} IdsFromProjections(a: seq<Entry>, b: seq<Entry>)
    requires forall p :: p in Etag.Projections(a) ==> p in Etag.Projections(b)
    ensures EntryIds(a) <= EntryIds(b)
  {
    forall id | id in EntryIds(a) ensures id in EntryIds(b) {
      var i :| 0 <= i < |a| && a[i].messageId == id;
      assert Etag.Projections(a)[i] in Etag.Projections(b);
      var j :| 0 <= j < |b| && Etag.Projections(b)[j] == Etag.Projections(a)[i];
      assert b[j] in b && b[j].messageId == id;
    }
  }

  /** Equal tags are equal sets of messages. */
  lemma {:induction false} SameTagSameIds(a: seq<Entry>, b: seq<Entry>)
    requires Etag.Taggable(a) && Etag.Taggable(b) && Etag.Stream(a) == Etag.Stream(b)
    ensures EntryIds(a) == EntryIds(b)
  {
    Etag.StreamIdentifiesProjections(a, b);
    IdsFromProjections(a, b);
    IdsFromProjections(b, a);
  }

  /** `m` is eligible, but its window opened after the rebuilt payload's bundle was assembled, or it was lost. */
  ghost predicate MissedIn(w: World, device: Viewer, assembledAt: int, m: Message) {
    && EntryAt(m, Segments(w.server, MembershipOf(w.server, device.channel)), w.clock, device).Some?
    && (m.windowStart > assembledAt || m.id in w.lost)
  }

  lemma {:induction false} HeldShows(w: World, device: Viewer, p: Built, sent: seq<Entry>, m: Message)
    requires DeviceInv(w, device) && DistinctIds(w.server.messages) && m in w.server.messages
    requires TagInv(w, sent) && w.device.tag.Some? && EntryIds(sent) == EntryIds(p.entries)
    requires WellBuilt(w, device, p, w.clock)
    ensures ShowsCurrent(w, device, m) <==> !MissedIn(w, device, p.assembledAt, m)
  {
    EntryIdsOf(w, device, Segments(w.server, MembershipOf(w.server, device.channel)), p.assembledAt, p.entries, m);
    assert HeldKnown(w, device, w.device.cursor.value, m);
    if m.windowEnd > w.clock {
      assert HoldsSent(w, sent, m);
    }
  }

  /** After a confirmation the device shows each message as a full assembly now would, if and only if it is not missed. */
  lemma {:induction false} ConfirmedShows(w: World, device: Viewer, cfg: Config, at: int, sent: seq<Entry>)
    requires WorldInv(w, device) && TagInv(w, sent) && PlainStore(w.server.messages) && cfg.deltaMode && w.clock <= at
    requires Confirmed(w, device, cfg, at)
    ensures BuildPayload(w.server, device, at).0.Ok?
    ensures ShownBut(Synced(w, device, cfg, at), device, BuildPayload(w.server, device, at).0.value.assembledAt)
    ensures SameStore(w.server, Synced(w, device, cfg, at).server) && Synced(w, device, cfg, at).lost == w.lost
  {
    var w' := Synced(w, device, cfg, at);
    ConfirmedTag(w, device, cfg, at);
    BuiltWell(w, device, at);
    var p := BuildPayload(w.server, device, at).0.value;
    SameTagSameIds(sent, p.entries);
    SyncedParts(w, device, cfg, at);
    SyncKeepsStore(w, device, w.device.tag, w.device.cursor, cfg, at);
    UnansweredSync(w, device, cfg, at);
    UnansweredDevice(w, device, cfg, at);
    UnansweredSyncKeepsTag(w, device, sent, cfg, at);
    DeviceSyncStep(w, device, cfg, at);
    StillWellBuilt(w, w', device, p);
    forall m | m in w'.server.messages ensures ShowsCurrent(w', device, m) <==> !MissedIn(w', device, p.assembledAt, m) {
      HeldShows(w', device, p, sent, m);
    }
  }

  lemma {:induction false} StillWellBuilt(w: World, w': World, device: Viewer, p: Built)
    requires WellBuilt(w, device, p, w'.clock) && SameStore(w.server, w'.server)
    ensures WellBuilt(w', device, p, w'.clock)
  {
  }

  /** Each message is shown as a full assembly now would have it unless missed, and nothing else is held. */
  ghost predicate ShownBut(w: World, device: Viewer, assembledAt: int) {
    && (forall m :: m in w.server.messages ==> (ShowsCurrent(w, device, m) <==> !MissedIn(w, device, assembledAt, m)))
    && (forall id :: id in w.device.held ==> Known(w.server.messages, id))
  }

  /**
   The main result: so it is after any synchronisation, in any run, that rebuilds the payload and finds
   its tag to be the one the device sent.
   */
  lemma {:induction false} EqualTagsShowCurrentIffNotMissed(device: Viewer, cfg: Config, ops: seq<Timed>, at: int)
    requires cfg.deltaMode && PlainCreations(ops)
    requires Run(device, cfg, ops).clock <= at && Confirmed(Run(device, cfg, ops), device, cfg, at)
    ensures BuildPayload(Run(device, cfg, ops).server, device, at).0.Ok?
    ensures ShownBut(Run(device, cfg, ops + [Timed(DeviceSync, at)]), device,
                     BuildPayload(Run(device, cfg, ops).server, device, at).0.value.assembledAt)
  {
    RunsKeepTheInvariant(device, cfg, ops);
    TagsDescribeTheDevice(device, cfg, ops);
    ConfirmedShows(Run(device, cfg, ops), device, cfg, at, Sent(device, cfg, ops));
    RunOfSync(device, cfg, ops, at);
  }

  lemma {:induction false} ShownButShown(w: World, w': World, device: Viewer, at: int)
    requires BuildPayload(w.server, device, at).0.Ok? && SameStore(w.server, w'.server) && w'.clock == at && w.clock <= at
    requires ShownBut(w', device, BuildPayload(w.server, device, at).0.value.assembledAt)
    requires LostExpired(w) && w'.lost == w.lost
    ensures EligibleSetShown(w', device) <==> Timely(w, device, at)
  {
    var segments := Segments(w.server, MembershipOf(w.server, device.channel));
    var assembledAt := BuildPayload(w.server, device, at).0.value.assembledAt;
    forall m | m in w.server.messages && EntryAt(m, segments, at, device).Some?
      ensures ShowsCurrent(w', device, m) <==> m.windowStart <= assembledAt
    {
      EntryTells(m, segments, at, device);
      assert m.id !in w.lost;
    }
    forall m | m in w'.server.messages && EntryAt(m, segments, at, device).None? ensures ShowsCurrent(w', device, m) {
      assert !MissedIn(w', device, assembledAt, m);
    }
  }

  /** In a run whose answers were timely, a confirmation vouches for the eligible set if and only if it is timely too. */
  lemma {:induction false} ConfirmationsShowTheEligibleSetIff(device: Viewer, cfg: Config, ops: seq<Timed>, at: int)
    requires cfg.deltaMode && PlainCreations(ops) && EveryAnswerTimely(device, cfg, ops)
    requires Run(device, cfg, ops).clock <= at && Confirmed(Run(device, cfg, ops), device, cfg, at)
    ensures EligibleSetShown(Run(device, cfg, ops + [Timed(DeviceSync, at)]), device) <==> Timely(Run(device, cfg, ops), device, at)
  {
    var w := Run(device, cfg, ops);
    RunsKeepTheInvariant(device, cfg, ops);
    TagsDescribeTheDevice(device, cfg, ops);
    TimelyRunsKeepTimely(device, cfg, ops);
    ConfirmedShows(w, device, cfg, at, Sent(device, cfg, ops));
    RunOfSync(device, cfg, ops, at);
    SyncedParts(w, device, cfg, at);
    ShownButShown(w, Synced(w, device, cfg, at), device, at);
  }
}
