/**
 Which answer a synchronisation that rebuilds its payload gets, what one without delta mode leaves the
 device with, and which bundles a state change drops: exactly, in any run.
 */
module DeliveryKinds {
  import opened Wrappers
  import opened Definitions
  import opened Payload
  import opened Delivery
  import opened DeliveryInvariants
  import opened DeliveryRuns
  import opened DeliveryTimeliness
  import opened DeliveryTags
  import opened DeliveryFastPath
  import ChangeLog
  import Etag

  // ---- The kind of answer ----

  const SEVEN_DAYS: int := 7 * 86400 * 1_000_000_000

  /** The device's cursor is of its present membership and at most seven days old. */
  ghost predicate Fresh(w: World, device: Viewer, at: int) {
    w.device.cursor.Some? && w.device.cursor.value.membership == MembershipOf(w.server, device.channel) && at - w.device.cursor.value.issuedAt <= SEVEN_DAYS
  }

  lemma {:induction false} AnswerKind(s: Server, viewer: Viewer, p: Built, tag: Option<string>, client: Option<Cursor>, at: int, cfg: Config)
    ensures var r := Answer(s, viewer, p, tag, client, at, cfg).0;
            && (r.Unchanged? <==> tag == Some(Etag.Stream(p.entries)))
            && (r.Partial? <==> !r.Unchanged? && cfg.deltaMode && Honourable(client, MembershipOf(s, viewer.channel), ChangeLog.CurrentSeq(s.log), at))
            && !r.Failed?
  {
  }

  lemma {:induction false} HonourableIff(w: World, device: Viewer, at: int)
    requires WorldInv(w, device)
    ensures Honourable(w.device.cursor, MembershipOf(w.server, device.channel), ChangeLog.CurrentSeq(w.server.log), at) <==> Fresh(w, device, at)
  {
    ChangeLog.CurrentSeqCountsWrites(w.writes);
  }

  /** What decides the answer of a rebuild: the payload sent last, and the cursor's membership and age. */
  ghost predicate AnsweredAs(w: World, device: Viewer, sent: seq<Entry>, p: Built, at: int, r: Response) {
    var same := w.device.tag.Some? && Etag.EachHasAlike(sent, p.entries) && Etag.EachHasAlike(p.entries, sent);
    && (r.Unchanged? <==> same)
    && (r.Partial? <==> !same && Fresh(w, device, at))
    && (r.Full? <==> !same && !Fresh(w, device, at))
  }

  lemma {:induction false} RebuildAnswers(w: World, device: Viewer, cfg: Config, at: int, sent: seq<Entry>)
    requires WorldInv(w, device) && TagInv(w, sent) && PlainStore(w.server.messages) && cfg.deltaMode && w.clock <= at
    requires !FastPath(w, device, at) && BuildPayload(w.server, device, at).0.Ok?
    ensures AnsweredAs(w, device, sent, BuildPayload(w.server, device, at).0.value, at, Sync(w.server, device, w.device.tag, w.device.cursor, at, cfg).0)
  {
    var (built, s') := BuildPayload(w.server, device, at);
    var key := Key(device.language, device.major, {});
    assert NoOlder(w.server, key, at) by {
      assert key in w.server.bundles ==> BundleFaithful(w.server, key);
    }
    BuildServer(w.server, device, at, w.clock, key, at);
    AnswerKind(s', device, built.value, w.device.tag, w.device.cursor, at, cfg);
    HonourableIff(w, device, at);
    BuiltWell(w, device, at);
    if w.device.tag.Some? { Etag.SameTagIff(sent, built.value.entries); }
  }

  /**
   In any run, a synchronisation that rebuilds is answered "unchanged" if and only if the payload is alike,
   in all a tag sees, to the one sent last; otherwise with a delta if and only if the device's cursor is of
   its present membership and at most seven days old.
   */
  lemma {:induction false} AnswersAreDecided(device: Viewer, cfg: Config, ops: seq<Timed>, at: int)
    requires cfg.deltaMode && PlainCreations(ops) && Run(device, cfg, ops).clock <= at
    requires !FastPath(Run(device, cfg, ops), device, at) && BuildPayload(Run(device, cfg, ops).server, device, at).0.Ok?
    ensures var w := Run(device, cfg, ops);
            AnsweredAs(w, device, Sent(device, cfg, ops), BuildPayload(w.server, device, at).0.value, at,
                       Sync(w.server, device, w.device.tag, w.device.cursor, at, cfg).0)
  {
    RunsKeepTheInvariant(device, cfg, ops);
    TagsDescribeTheDevice(device, cfg, ops);
    RebuildAnswers(Run(device, cfg, ops), device, cfg, at, Sent(device, cfg, ops));
  }

  // ---- Without delta mode ----

  lemma {:induction false} RunsKeepServer(device: Viewer, cfg: Config, ops: seq<Timed>)
    ensures ServerInv(Run(device, cfg, ops))
  {
    if ops != [] {
      RunsKeepServer(device, cfg, ops[..|ops| - 1]);
      StepKeepsServer(Run(device, cfg, ops[..|ops| - 1]), device, cfg, ops[|ops| - 1].op, ops[|ops| - 1].at);
    }
  }

  lemma {:induction false} PlainAnswer(s: Server, viewer: Viewer, p: Built, tag: Option<string>, client: Option<Cursor>, at: int, cfg: Config)
    requires !cfg.deltaMode
    ensures var r := Answer(s, viewer, p, tag, client, at, cfg).0;
            r == if tag == Some(Etag.Stream(p.entries)) then Unchanged(Etag.Stream(p.entries)) else Full(Etag.Stream(p.entries), p.entries, None)
  {
  }

  lemma {:induction false} PlainHeld(w: World, device: Viewer, cfg: Config, at: int)
    requires !cfg.deltaMode && Answered(w, device, cfg, at)
    ensures var built := BuildPayload(w.server, device, at).0;
            built.Ok? && Synced(w, device, cfg, at).device == Device(Upserted(map[], built.value.entries), Some(Etag.Stream(built.value.entries)), None)
  {
    var (built, s') := BuildPayload(w.server, device, at);
    if built.Ok? { PlainAnswer(s', device, built.value, w.device.tag, w.device.cursor, at, cfg); }
  }

  /** Each message is shown as a full assembly now would have it, unless its window opened after the bundle was assembled; nothing else is held. */
  ghost predicate ShownOf(w: World, device: Viewer, assembledAt: int) {
    var segments := Segments(w.server, MembershipOf(w.server, device.channel));
    && (forall m :: m in w.server.messages ==>
          (ShowsCurrent(w, device, m) <==> !(EntryAt(m, segments, w.clock, device).Some? && m.windowStart > assembledAt)))
    && (forall id :: id in w.device.held ==> Known(w.server.messages, id))
  }

  /** Without delta mode an answer with content replaces everything, in any run. */
  lemma {:induction false} PlainAnswersReplace(device: Viewer, cfg: Config, ops: seq<Timed>, at: int)
    requires !cfg.deltaMode && Run(device, cfg, ops).clock <= at && Answered(Run(device, cfg, ops), device, cfg, at)
    ensures BuildPayload(Run(device, cfg, ops).server, device, at).0.Ok?
    ensures ShownOf(Run(device, cfg, ops + [Timed(DeviceSync, at)]), device, BuildPayload(Run(device, cfg, ops).server, device, at).0.value.assembledAt)
  {
    var w := Run(device, cfg, ops);
    var w' := Synced(w, device, cfg, at);
    RunsKeepServer(device, cfg, ops);
    RunOfSync(device, cfg, ops, at);
    PlainHeld(w, device, cfg, at);
    SyncedParts(w, device, cfg, at);
    SyncKeepsStore(w, device, w.device.tag, w.device.cursor, cfg, at);
    PlainContents(w, device, at);
    var p := BuildPayload(w.server, device, at).0.value;
    forall m | m in w'.server.messages
      ensures ShowsCurrent(w', device, m)
              <==> !(EntryAt(m, Segments(w.server, MembershipOf(w.server, device.channel)), at, device).Some? && m.windowStart > p.assembledAt)
    {
      ReplacedShows(w, device, p, at, m);
    }
    forall id | id in w'.device.held ensures Known(w'.server.messages, id) {
      ReplacedKnown(w, device, p, id);
    }
  }

  lemma {:induction false} ReplacedKnown(w: World, device: Viewer, p: Built, id: string)
    requires HoldsEntriesOf(p.entries, w.server.messages, Segments(w.server, MembershipOf(w.server, device.channel)), p.assembledAt, device)
    requires id in Upserted(map[], p.entries)
    ensures Known(w.server.messages, id)
  {
    UpsertedGet(map[], p.entries, id);
    var e := Upserted(map[], p.entries)[id];
    var m :| m in w.server.messages && EntryAt(m, Segments(w.server, MembershipOf(w.server, device.channel)), p.assembledAt, device) == Some(e);
    assert m.id == id;
  }

  lemma {:induction false} PlainContents(w: World, device: Viewer, at: int)
    requires ServerInv(w) && w.clock <= at && BuildPayload(w.server, device, at).0.Ok?
    ensures var p := BuildPayload(w.server, device, at).0.value;
            p.assembledAt <= at && HoldsEntriesOf(p.entries, w.server.messages, Segments(w.server, MembershipOf(w.server, device.channel)), p.assembledAt, device)
  {
    var key := Key(device.language, device.major, MembershipOf(w.server, device.channel));
    var floor := if key in w.server.bundles then w.server.bundles[key].assembledAt else w.clock;
    BuildContents(w.server, device, at, w.clock, floor);
  }

  lemma {:induction false} ReplacedShows(w: World, device: Viewer, p: Built, at: int, m: Message)
    requires DistinctIds(w.server.messages) && m in w.server.messages && p.assembledAt <= at
    requires HoldsEntriesOf(p.entries, w.server.messages, Segments(w.server, MembershipOf(w.server, device.channel)), p.assembledAt, device)
    ensures var segments := Segments(w.server, MembershipOf(w.server, device.channel));
            Get(Unexpired(Upserted(map[], p.entries), at), m.id) == EntryAt(m, segments, at, device)
            <==> !(EntryAt(m, segments, at, device).Some? && m.windowStart > p.assembledAt)
  {
    var segments := Segments(w.server, MembershipOf(w.server, device.channel));
    EntryIdsOf(w, device, segments, p.assembledAt, p.entries, m);
    UpsertedGet(map[], p.entries, m.id);
  }

  // ---- What a state change drops ----

  /** A key is listed only under segments of its own membership, all of them saved. */
  ghost predicate ListedRightly(s: Server) {
    forall g, k :: g in s.index && k in s.index[g] ==> k.membership <= s.segments.Keys && g in SegmentIds(s.segments, k.membership)
  }

  lemma {:induction false} BuildListsRightly(s: Server, viewer: Viewer, at: int)
    requires ListedRightly(s) && MembershipsKnown(s)
    ensures ListedRightly(BuildPayload(s, viewer, at).1)
  {
  }

  lemma {:induction false} SyncListsRightly(s: Server, viewer: Viewer, tag: Option<string>, client: Option<Cursor>, at: int, cfg: Config)
    requires ListedRightly(s) && MembershipsKnown(s)
    ensures ListedRightly(Sync(s, viewer, tag, client, at, cfg).1)
  {
    BuildListsRightly(s, viewer, at);
    SyncShape(s, viewer, tag, client, at, cfg);
  }

  lemma {:induction false} UpdateLists(s: Server, id: string, to: MessageState, actor: string, now: int)
    ensures var s' := StateUpdated(s, id, to, actor, now); s'.index == s.index && s'.segments == s.segments
  {
  }

  lemma {:induction false} StepListsRightly(w: World, device: Viewer, cfg: Config, t: Timed)
    requires ServerInv(w) && ListedRightly(w.server)
    ensures ListedRightly(Step(w, device, cfg, t.op, t.at).server)
  {
    if Allowed(w, device, t.op, t.at) {
      match t.op
      case SetState(id, to, actor) => UpdateLists(w.server, id, to, actor, t.at);
      case SaveSegment(o, g) =>
        forall x, k | x in w.server.index && k in w.server.index[x]
          ensures x in SegmentIds(w.server.segments[o := g], k.membership)
        {
          SegmentsGrow(w.server.segments, o, g, k.membership);
        }
      case OtherSync(v, tag, cursor) => SyncListsRightly(w.server, v, tag, cursor, t.at, cfg);
      case DeviceSync =>
        SyncedParts(w, device, cfg, t.at);
        SyncListsRightly(w.server, device, w.device.tag, w.device.cursor, t.at, cfg);
      case _ =>
    }
  }

  lemma {:induction false} RunsListRightly(device: Viewer, cfg: Config, ops: seq<Timed>)
    ensures ListedRightly(Run(device, cfg, ops).server)
  {
    if ops != [] {
      RunsListRightly(device, cfg, ops[..|ops| - 1]);
      RunsKeepServer(device, cfg, ops[..|ops| - 1]);
      StepListsRightly(Run(device, cfg, ops[..|ops| - 1]), device, cfg, ops[|ops| - 1]);
    }
  }

  /** In any run, a state change drops just the bundles assembled for the message's audience, among other segments or not, and keeps the others as they are. */
  lemma {:induction false} UpdatesDropTheAudiencesBundles(device: Viewer, cfg: Config, ops: seq<Timed>, m: Message, to: MessageState, actor: string, at: int, key: Key)
    requires var s := Run(device, cfg, ops).server; m in s.messages && Updatable(s.messages, m.id, to) && m.audience.Some?
    ensures var s := Run(device, cfg, ops).server;
            var s' := StateUpdated(s, m.id, to, actor, at);
            && (key in s'.bundles <==> key in s.bundles && m.audience.value !in SegmentIds(s.segments, key.membership))
            && (key in s'.bundles ==> s'.bundles[key] == s.bundles[key])
  {
    var s := Run(device, cfg, ops).server;
    RunsKeepServer(device, cfg, ops);
    RunsListRightly(device, cfg, ops);
    WithStateFind(s.messages, m.id, to);
    FindDistinct(s.messages, m);
    if key in s.bundles { assert KeyListed(s, key) && BundleFaithful(s, key); }
    DroppedIff(s, m, to, actor, at, key);
  }

  lemma {:induction false} DroppedIff(s: Server, m: Message, to: MessageState, actor: string, at: int, key: Key)
    requires Updatable(s.messages, m.id, to) && m.audience.Some?
    requires Find(WithState(s.messages, m.id, to), m.id) == Some(m.(state := to))
    ensures var s' := StateUpdated(s, m.id, to, actor, at);
            && (key in s'.bundles <==> key in s.bundles && key !in IndexedKeys(s, m.audience.value))
            && (key in s'.bundles ==> s'.bundles[key] == s.bundles[key])
  {
  }
}
