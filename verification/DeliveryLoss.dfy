/**
 The run on which the bundle cache and the delta mode together lose a message: its window opens after
 a bundle was assembled and before a device is issued a cursor with that bundle. When the bundle is
 next dropped, the delta takes the message for one the device already has.
 */
module DeliveryLoss {
  import opened Wrappers
  import opened Definitions
  import opened Payload
  import opened Delivery
  import opened DeliveryInvariants
  import opened DeliveryRuns
  import ChangeLog
  import Etag
  import Ordering

  const CONTENT := [Variant("v", 100, "en", SchemaVersion(1, 0), "hello")]
  const POLICY := ControlPolicy(1, 0, false, false)

  function Campaign(id: string, state: MessageState, start: int): Message {
    Message(id, state, 0, start, 1000, Some("g"), 1, POLICY, "", "", 0.0, "", CONTENT)
  }

  function EntryOf(id: string): Entry {
    Entry(id, 1, "v", SchemaVersion(1, 0), 0, "hello", "", "", POLICY, 1000)
  }

  function Phone(channel: string): Viewer {
    Viewer(channel, "fr", 1, _ => 0)
  }

  const DEVICE := Phone("device")
  const SETTINGS := Config(1, true)
  const KEY := Key("fr", 1, {0})

  const PREPARE := [
    Timed(SaveSegment(0, "g"), 0), Timed(Reindex("device", {0}), 0), Timed(Reindex("other", {0}), 0),
    Timed(Create(Campaign("a", Draft, 0)), 0), Timed(Create(Campaign("b", Draft, 10)), 0),
    Timed(SetState("a", Active, ""), 1), Timed(SetState("b", Active, ""), 1)]

  /** What the run needs to know of the server once both campaigns are active. */
  ghost predicate Prepared(w: World) {
    && w.server.messages == [Campaign("a", Active, 0), Campaign("b", Active, 10)]
    && w.server.segments == map[0 := "g"]
    && MembershipOf(w.server, "device") == {0} && MembershipOf(w.server, "other") == {0}
    && w.server.bundles == map[] && w.server.tags == map[]
    && w.device == NEW_DEVICE && w.clock == 1 && w.lost == {}
    && w.writes == [ChangeLog.Write("a", ChangeLog.Upsert, 1), ChangeLog.Write("b", ChangeLog.Upsert, 1)]
  }

  lemma {:induction false} PrefixRuns(k: nat)
    requires k < |PREPARE|
    ensures Run(DEVICE, SETTINGS, PREPARE[..k + 1])
            == Step(Run(DEVICE, SETTINGS, PREPARE[..k]), DEVICE, SETTINGS, PREPARE[k].op, PREPARE[k].at)
  {
    assert PREPARE[..k + 1] == PREPARE[..k] + [PREPARE[k]];
    RunSnoc(DEVICE, SETTINGS, PREPARE[..k], PREPARE[k]);
  }

  const SEGMENTS: map<nat, string> := map[0 := "g"]
  const MEMBERSHIPS: map<string, set<nat>> := map["device" := {0}, "other" := {0}]

  ghost function Stage(messages: seq<Message>, w: World): World {
    w.(server := w.server.(segments := SEGMENTS, memberships := MEMBERSHIPS, messages := messages))
  }

  lemma {:induction false} Indexed()
    ensures Run(DEVICE, SETTINGS, PREPARE[..3]) == Stage([], START)
  {
    assert Run(DEVICE, SETTINGS, PREPARE[..0]) == START;
    PrefixRuns(0);
    assert Run(DEVICE, SETTINGS, PREPARE[..1]) == START.(server := EMPTY.(segments := SEGMENTS));
    PrefixRuns(1);
    PrefixRuns(2);
    assert Run(DEVICE, SETTINGS, PREPARE[..3]).server.memberships == MEMBERSHIPS;
  }

  lemma {:induction false} CreateOne(w: World, m: Message, at: int)
    requires w.clock <= at && !Known(w.server.messages, m.id)
    ensures Step(w, DEVICE, SETTINGS, Create(m), at)
            == w.(server := w.server.(messages := w.server.messages + [m.(state := Draft)]), clock := at)
  {
  }

  lemma {:induction false} FirstDraft()
    ensures Run(DEVICE, SETTINGS, PREPARE[..4]) == Stage([Campaign("a", Draft, 0)], START)
  {
    Indexed();
    PrefixRuns(3);
    CreateOne(Stage([], START), Campaign("a", Draft, 0), 0);
  }

  lemma {:induction false} Drafted()
    ensures Run(DEVICE, SETTINGS, PREPARE[..5]) == Stage([Campaign("a", Draft, 0), Campaign("b", Draft, 10)], START)
  {
    FirstDraft();
    PrefixRuns(4);
    assert "a"[0] != "b"[0];
    CreateOne(Stage([Campaign("a", Draft, 0)], START), Campaign("b", Draft, 10), 0);
  }

  /** Activating one campaign of a store with no cached bundle. */
  lemma {:induction false} ActivateOne(w: World, i: nat, at: int)
    requires w.clock <= at && i < |w.server.messages| && w.server.bundles == map[]
    requires IndexOf(w.server.messages, w.server.messages[i].id) == i && w.server.messages[i].state.Draft?
    ensures var m, w' := w.server.messages[i], Step(w, DEVICE, SETTINGS, SetState(w.server.messages[i].id, Active, ""), at);
            && w'.server.messages == w.server.messages[i := m.(state := Active)]
            && w'.server.segments == w.server.segments && w'.server.memberships == w.server.memberships
            && w'.server.bundles == map[] && w'.server.tags == w.server.tags
            && w'.device == w.device && w'.clock == at && w'.lost == w.lost
            && w'.writes == w.writes + [ChangeLog.Write(m.id, ChangeLog.Upsert, at)]
  {
  }

  /** The same facts as `Prepared`, at any point of the two activations. */
  ghost predicate Activating(w: World, messages: seq<Message>, writes: seq<ChangeLog.Write>, clock: int) {
    && w.server.messages == messages && w.writes == writes && w.clock == clock
    && w.server.segments == SEGMENTS && w.server.memberships == MEMBERSHIPS
    && w.server.bundles == map[] && w.server.tags == map[]
    && w.device == NEW_DEVICE && w.lost == {}
  }

  lemma {:induction false} FirstActive()
    ensures Activating(Run(DEVICE, SETTINGS, PREPARE[..6]), [Campaign("a", Active, 0), Campaign("b", Draft, 10)],
                       [ChangeLog.Write("a", ChangeLog.Upsert, 1)], 1)
  {
    Drafted();
    PrefixRuns(5);
    ActivateOne(Run(DEVICE, SETTINGS, PREPARE[..5]), 0, 1);
  }

  lemma {:induction false} SecondIndex(ms: seq<Message>)
    requires |ms| == 2 && ms[0].id == "a" && ms[1].id == "b"
    ensures IndexOf(ms, "b") == 1
  {
    assert "a"[0] != "b"[0];
  }

  lemma {:induction false} SecondActive(w: World)
    requires Activating(w, [Campaign("a", Active, 0), Campaign("b", Draft, 10)], [ChangeLog.Write("a", ChangeLog.Upsert, 1)], 1)
    ensures Prepared(Step(w, DEVICE, SETTINGS, SetState("b", Active, ""), 1))
  {
    SecondIndex(w.server.messages);
    ActivateOne(w, 1, 1);
  }

  lemma {:induction false} ReachPrepared()
    ensures Prepared(Run(DEVICE, SETTINGS, PREPARE))
  {
    FirstActive();
    PrefixRuns(6);
    SecondActive(Run(DEVICE, SETTINGS, PREPARE[..6]));
    assert PREPARE[..7] == PREPARE;
  }

  // ---- The synchronisations ----

  function BundledOf(id: string): BundleMessage {
    BundleMessage(id, 1, 0, 1000, POLICY, "", "", 0.0, "", CONTENT[0], [])
  }

  lemma {:induction false} OnlyEligible(m: Message)
    requires m == Campaign(m.id, Active, m.windowStart)
    ensures BundleOf(Ordering.Sort([m], ServedBefore), "fr", 1) == Ok([BundledOf(m.id)])
    ensures EntriesOf([BundledOf(m.id)], DEVICE) == Ok([EntryOf(m.id)])
  {
    assert Ordering.Sort([m], ServedBefore) == [m] by {
      assert [m][1..] == [];
    }
    assert [m][..0] == [] && CONTENT[1..] == [];
    assert Supporting(CONTENT, 1) == CONTENT by {
      assert Supporting(CONTENT[1..], 1) == [];
    }
    assert InLanguage(CONTENT, "fr") == [] by {
      assert "en"[0] != "fr"[0];
      assert InLanguage(CONTENT[1..], "fr") == [];
    }
    assert ToBundleMessage(m, "fr", 1) == Ok(Some(BundledOf(m.id)));
    assert BundleOf([], "fr", 1) == Ok([]) && [] + [BundledOf(m.id)] == [BundledOf(m.id)];
    assert [BundledOf(m.id)][..0] == [];
    assert EntriesOf([], DEVICE) == Ok([]) && [] + [EntryOf(m.id)] == [EntryOf(m.id)];
    assert ApplyOverlay(BundledOf(m.id), DEVICE) == Ok(Some(EntryOf(m.id)));
  }

  lemma {:induction false} EligibleOfTwo(a: Message, b: Message, at: int)
    ensures EligibleIn([a, b], {"g"}, at)
            == (if Eligible(a, {"g"}, at) then [a] else []) + (if Eligible(b, {"g"}, at) then [b] else [])
  {
    assert [a, b][1..] == [b] && [b][1..] == [];
    assert EligibleIn([b], {"g"}, at) == (if Eligible(b, {"g"}, at) then [b] else []) + EligibleIn([], {"g"}, at);
  }

  /** With one campaign eligible and nothing cached, a synchronisation caches and lists a bundle of that campaign. */
  lemma {:induction false} MissAssembles(s: Server, viewer: Viewer, now: int, m: Message)
    requires s.segments == SEGMENTS && MembershipOf(s, viewer.channel) == {0} && s.bundles == map[]
    requires viewer.language == "fr" && viewer.major == 1
    requires EligibleIn(s.messages, {"g"}, now) == [m] && m == Campaign(m.id, Active, m.windowStart)
    ensures var cached := Cached([BundledOf(m.id)], now);
            SharedBundle(s, KEY, now) == (Ok(cached), s.(bundles := map[KEY := cached], index := Listed(s.index, {"g"}, KEY)))
  {
    OnlyEligible(m);
    assert SegmentIds(s.segments, {0}) == {"g"};
  }

  const OP_OTHER := Timed(OtherSync(Phone("other"), None, None), 5)
  const OP_FIRST := Timed(DeviceSync, 20)
  const OP_PAUSE := Timed(SetState("a", Paused, ""), 30)
  const OP_SECOND := Timed(DeviceSync, 40)

  /** Another phone's synchronisation warms the bundle before the second campaign opens. */
  ghost predicate Warmed(w: World) {
    && w.server.messages == [Campaign("a", Active, 0), Campaign("b", Active, 10)]
    && w.server.segments == SEGMENTS && MembershipOf(w.server, "device") == {0}
    && w.server.bundles == map[KEY := Cached([BundledOf("a")], 5)]
    && "g" in w.server.index && KEY in w.server.index["g"]
    && "device" !in w.server.tags
    && w.device == NEW_DEVICE && w.clock == 5 && w.lost == {}
    && w.writes == [ChangeLog.Write("a", ChangeLog.Upsert, 1), ChangeLog.Write("b", ChangeLog.Upsert, 1)]
  }

  lemma {:induction false} WarmStep(w: World)
    requires Prepared(w)
    ensures Warmed(Step(w, DEVICE, SETTINGS, OP_OTHER.op, OP_OTHER.at))
  {
    var a, b := w.server.messages[0], w.server.messages[1];
    EligibleOfTwo(a, b, 5);
    MissAssembles(w.server, Phone("other"), 5, a);
    assert "other"[0] != "device"[0];
    SyncShape(w.server, Phone("other"), None, None, 5, SETTINGS);
    OtherTags(w.server, Phone("other"), 5);
  }

  lemma {:induction false} OtherTags(s: Server, viewer: Viewer, now: int)
    requires s.tags == map[] && viewer.channel != "device"
    requires MembershipOf(s, viewer.channel) == {0} && SharedBundle(s, Key(viewer.language, viewer.major, {0}), now).1.tags == map[]
    ensures "device" !in Sync(s, viewer, None, None, now, SETTINGS).1.tags
    ensures BuildPayload(s, viewer, now).0.Ok? ==> Sync(s, viewer, None, None, now, SETTINGS).1 != s
  {
  }

  /** The device's first synchronisation: the old bundle, and a cursor issued after the second campaign opened. */
  ghost predicate FirstSynced(w: World) {
    && w.server.messages == [Campaign("a", Active, 0), Campaign("b", Active, 10)]
    && w.server.segments == SEGMENTS && MembershipOf(w.server, "device") == {0}
    && w.server.bundles == map[KEY := Cached([BundledOf("a")], 5)]
    && "g" in w.server.index && KEY in w.server.index["g"]
    && "device" in w.server.tags && w.server.tags["device"] == CachedTag(Etag.Stream([EntryOf("a")]), 21)
    && w.device.tag == Some(Etag.Stream([EntryOf("a")])) && w.device.cursor == Some(Cursor(2, {0}, 20))
    && w.builtAt == 5 && w.clock == 20 && w.lost == {}
    && w.writes == [ChangeLog.Write("a", ChangeLog.Upsert, 1), ChangeLog.Write("b", ChangeLog.Upsert, 1)]
  }

  lemma {:induction false} FirstBuild(w: World)
    requires Warmed(w)
    ensures BuildPayload(w.server, DEVICE, 20) == (Ok(Built([EntryOf("a")], 5)), w.server)
  {
    OnlyEligible(w.server.messages[0]);
    assert SharedBundle(w.server, KEY, 20) == (Ok(w.server.bundles[KEY]), w.server);
  }

  lemma {:induction false} FirstCursor(w: World)
    requires Warmed(w) && WorldInv(w, DEVICE)
    ensures FreshCursor(w.server, "device", 20) == Cursor(2, {0}, 20)
  {
    ChangeLog.CurrentSeqCountsWrites(w.writes);
  }

  lemma {:induction false} FirstSync(w: World)
    requires Warmed(w) && WorldInv(w, DEVICE)
    ensures FirstSynced(Step(w, DEVICE, SETTINGS, OP_FIRST.op, OP_FIRST.at))
  {
    FirstBuild(w);
    FirstCursor(w);
    NewDeviceGetsAll(w.server, 20, [EntryOf("a")], 5);
    FullSynced(w, 20, [EntryOf("a")], 5);
  }

  lemma {:induction false} FullSynced(w: World, at: int, es: seq<Entry>, asm: int)
    requires w.clock <= at && w.device == NEW_DEVICE && BuildPayload(w.server, DEVICE, at).0 == Ok(Built(es, asm))
    requires Sync(w.server, DEVICE, None, None, at, SETTINGS).0.Full?
    ensures var (r, s') := Sync(w.server, DEVICE, None, None, at, SETTINGS);
            Step(w, DEVICE, SETTINGS, DeviceSync, at)
            == w.(server := s', device := Received(w.device, r), clock := at, builtAt := asm, lost := {})
  {
  }

  /** A device with neither tag nor cursor gets the whole payload. */
  lemma {:induction false} NewDeviceGetsAll(s: Server, now: int, es: seq<Entry>, at: int)
    requires BuildPayload(s, DEVICE, now) == (Ok(Built(es, at)), s)
    ensures var tag := Etag.Stream(es);
            Sync(s, DEVICE, None, None, now, SETTINGS)
            == (Full(tag, es, Some(FreshCursor(s, "device", now))), s.(tags := s.tags["device" := CachedTag(tag, now + 1)]))
  {
  }

  /** The first campaign is paused at `at`: the bundle is dropped, the device's tag stays cached. */
  ghost predicate PausedAt(w: World, at: int) {
    && w.server.messages == [Campaign("a", Paused, 0), Campaign("b", Active, 10)]
    && w.server.segments == SEGMENTS && MembershipOf(w.server, "device") == {0}
    && w.server.bundles == map[]
    && "device" in w.server.tags && w.server.tags["device"] == CachedTag(Etag.Stream([EntryOf("a")]), 21)
    && w.device.tag == Some(Etag.Stream([EntryOf("a")])) && w.device.cursor == Some(Cursor(2, {0}, 20))
    && w.builtAt == 5 && w.clock == at && w.lost == {}
    && w.writes == [ChangeLog.Write("a", ChangeLog.Upsert, 1), ChangeLog.Write("b", ChangeLog.Upsert, 1), ChangeLog.Write("a", ChangeLog.Tombstone, at)]
  }

  ghost predicate PausedFirst(w: World) {
    PausedAt(w, 30)
  }

  lemma {:induction false} PauseStep(w: World, at: int)
    requires FirstSynced(w) && 20 <= at
    ensures PausedAt(Step(w, DEVICE, SETTINGS, SetState("a", Paused, ""), at), at)
  {
    PausedMessages(w.server.messages);
    SetStateIs(w, "a", Paused, at);
    PausedServer(w.server, "a", Paused, "", at);
    PausedWrites(w.server, at);
    PausedFrom(w, StateUpdated(w.server, "a", Paused, "", at), WritesOf(w.server, "a", Paused, at), at);
  }

  lemma {:induction false} PausedFrom(w: World, s: Server, writes: seq<ChangeLog.Write>, at: int)
    requires FirstSynced(w) && writes == [ChangeLog.Write("a", ChangeLog.Tombstone, at)]
    requires s.messages == [Campaign("a", Paused, 0), Campaign("b", Active, 10)] && s.bundles == map[]
    requires s.segments == w.server.segments && s.memberships == w.server.memberships && s.tags == w.server.tags
    ensures PausedAt(w.(server := s, writes := w.writes + writes, clock := at), at)
  {
  }

  lemma {:induction false} SetStateIs(w: World, id: string, to: MessageState, at: int)
    requires w.clock <= at
    ensures Step(w, DEVICE, SETTINGS, SetState(id, to, ""), at)
            == w.(server := StateUpdated(w.server, id, to, "", at), writes := w.writes + WritesOf(w.server, id, to, at), clock := at)
  {
  }

  lemma {:induction false} PausedWrites(s: Server, at: int)
    requires Updatable(s.messages, "a", Paused)
    ensures WritesOf(s, "a", Paused, at) == [ChangeLog.Write("a", ChangeLog.Tombstone, at)]
  {
  }

  lemma {:induction false} PausedServer(s: Server, id: string, to: MessageState, actor: string, at: int)
    requires Updatable(s.messages, id, to) && Find(WithState(s.messages, id, to), id).Some?
    requires Find(WithState(s.messages, id, to), id).value.audience == Some("g") && s.bundles.Keys <= IndexedKeys(s, "g")
    ensures var s' := StateUpdated(s, id, to, actor, at);
            && s'.messages == WithState(s.messages, id, to) && s'.bundles == map[]
            && s'.segments == s.segments && s'.memberships == s.memberships && s'.tags == s.tags
  {
    assert s.bundles - IndexedKeys(s, "g") == map[];
  }

  lemma {:induction false} PausedMessages(ms: seq<Message>)
    requires ms == [Campaign("a", Active, 0), Campaign("b", Active, 10)]
    ensures Updatable(ms, "a", Paused)
    ensures var moved := WithState(ms, "a", Paused);
            moved == [Campaign("a", Paused, 0), Campaign("b", Active, 10)] && Find(moved, "a") == Some(moved[0])
  {
    assert IndexOf(ms, "a") == 0;
    var moved := WithState(ms, "a", Paused);
    assert moved == [Campaign("a", Paused, 0), Campaign("b", Active, 10)];
    assert Find(moved, "a") == Some(moved[0]);
  }

  lemma {:induction false} DifferentTags()
    ensures Etag.Stream([EntryOf("a")]) != Etag.Stream([EntryOf("b")])
  {
    assert "a"[0] != "b"[0];
    SingletonTags(EntryOf("a"), EntryOf("b"));
  }

  lemma {:induction false} SingletonTags(d: Entry, e: Entry)
    requires Etag.Taggable([d]) && Etag.Taggable([e]) && Etag.Project(d) != Etag.Project(e)
    ensures Etag.Stream([d]) != Etag.Stream([e])
  {
    Etag.StreamIdentifiesProjections([d], [e]);
    var ds, es := Etag.Projections([d]), Etag.Projections([e]);
    assert ds == [Etag.Project(d)] && es == [Etag.Project(e)];
    assert Etag.Project(d) in ds && Etag.Project(d) !in es;
  }

  lemma {:induction false} SecondBuild(w: World)
    requires PausedFirst(w)
    ensures BuildPayload(w.server, DEVICE, 40).0 == Ok(Built([EntryOf("b")], 40))
    ensures SameStore(w.server, BuildPayload(w.server, DEVICE, 40).1)
  {
    var b := w.server.messages[1];
    EligibleOfTwo(w.server.messages[0], b, 40);
    assert EligibleIn(w.server.messages, {"g"}, 40) == [b];
    MissAssembles(w.server, DEVICE, 40, b);
    OnlyEligible(b);
  }

  lemma {:induction false} HonouredIsPartial(s: Server, tag: Option<string>, c: Cursor, now: int, p: Built)
    requires BuildPayload(s, DEVICE, now).0 == Ok(p) && SameStore(s, BuildPayload(s, DEVICE, now).1)
    requires !TagIsCached(s, "device", tag, now) && tag != Some(Etag.Stream(p.entries))
    requires Honourable(Some(c), MembershipOf(s, "device"), ChangeLog.CurrentSeq(s.log), now)
    ensures Sync(s, DEVICE, tag, Some(c), now, SETTINGS).0.Partial?
  {
  }

  lemma {:induction false} SecondAnswered(w: World)
    requires PausedFirst(w) && WorldInv(w, DEVICE)
    ensures Sync(w.server, DEVICE, w.device.tag, w.device.cursor, 40, SETTINGS).0.Partial?
  {
    SecondBuild(w);
    DifferentTags();
    ChangeLog.CurrentSeqCountsWrites(w.writes);
    HonouredIsPartial(w.server, w.device.tag, w.device.cursor.value, 40, Built([EntryOf("b")], 40));
  }

  lemma {:induction false} SecondInLost(w: World)
    requires PausedFirst(w) && WorldInv(w, DEVICE)
    ensures "b" in LostBy(w, DEVICE, w.device.cursor.value, 40)
    ensures EntryAt(w.server.messages[1], Segments(w.server, {0}), 40, DEVICE).Some?
  {
    SecondHasAnEntry(w);
    SecondUnchanged(w);
    LostIff(w, DEVICE, w.device.cursor.value, 40, w.server.messages[1]);
  }

  lemma {:induction false} SecondHasAnEntry(w: World)
    requires PausedFirst(w)
    ensures EntryAt(w.server.messages[1], Segments(w.server, {0}), 40, DEVICE).Some?
  {
    assert SegmentIds(w.server.segments, {0}) == {"g"};
    EntryOfCampaign(w.server.messages[1]);
  }

  lemma {:induction false} SecondUnchanged(w: World)
    requires PausedFirst(w)
    ensures "b" !in Changed(w.writes, 2)
  {
    assert forall i :: 0 <= i < 3 && 2 <= i ==> w.writes[i].messageId == "a";
    assert "a"[0] != "b"[0];
  }

  lemma {:induction false} PartialSynced(w: World, at: int)
    requires w.device.cursor.Some? && BuildPayload(w.server, DEVICE, at).0.Ok?
    requires Sync(w.server, DEVICE, w.device.tag, w.device.cursor, at, SETTINGS).0.Partial?
    ensures var w' := Synced(w, DEVICE, SETTINGS, at);
            && w'.lost == LostBy(w, DEVICE, w.device.cursor.value, BuildPayload(w.server, DEVICE, at).0.value.assembledAt)
            && w'.clock == at && w'.server == Sync(w.server, DEVICE, w.device.tag, w.device.cursor, at, SETTINGS).1
  {
  }

  lemma {:induction false} SecondIsLost(w: World)
    requires PausedFirst(w) && WorldInv(w, DEVICE)
    ensures var w' := Synced(w, DEVICE, SETTINGS, 40);
            w'.server.messages == w.server.messages && !ShowsCurrent(w', DEVICE, w.server.messages[1])
  {
    SecondAnswered(w);
    SecondBuild(w);
    SecondInLost(w);
    PartialSynced(w, 40);
    SyncShape(w.server, DEVICE, w.device.tag, w.device.cursor, 40, SETTINGS);
    AllAnsweredShow(w, DEVICE, SETTINGS, 40);
    assert Missed(Synced(w, DEVICE, SETTINGS, 40), DEVICE, w.server.messages[1]);
  }

  lemma {:induction false} EntryOfCampaign(m: Message)
    requires m == Campaign(m.id, Active, m.windowStart)
    ensures EntryFor(m, DEVICE) == Some(EntryOf(m.id))
  {
    assert CONTENT[1..] == [];
    assert Supporting(CONTENT, 1) == CONTENT by {
      assert Supporting(CONTENT[1..], 1) == [];
    }
    assert InLanguage(CONTENT, "fr") == [] by {
      assert "en"[0] != "fr"[0];
      assert InLanguage(CONTENT[1..], "fr") == [];
    }
  }

  /** The device's first synchronisation is done. */
  ghost function SyncedRun(): seq<Timed> {
    PREPARE + [OP_OTHER] + [OP_FIRST]
  }

  ghost function LosingRun(): seq<Timed> {
    SyncedRun() + [OP_PAUSE]
  }

  lemma {:induction false} ReachFirstSynced()
    ensures FirstSynced(Run(DEVICE, SETTINGS, SyncedRun()))
  {
    ReachPrepared();
    RunSnoc(DEVICE, SETTINGS, PREPARE, OP_OTHER);
    WarmStep(Run(DEVICE, SETTINGS, PREPARE));
    RunsKeepTheInvariant(DEVICE, SETTINGS, PREPARE + [OP_OTHER]);
    RunSnoc(DEVICE, SETTINGS, PREPARE + [OP_OTHER], OP_FIRST);
    FirstSync(Run(DEVICE, SETTINGS, PREPARE + [OP_OTHER]));
  }

  lemma {:induction false} ReachPaused()
    ensures PausedFirst(Run(DEVICE, SETTINGS, LosingRun()))
  {
    ReachFirstSynced();
    RunSnoc(DEVICE, SETTINGS, SyncedRun(), OP_PAUSE);
    PauseStep(Run(DEVICE, SETTINGS, SyncedRun()), 30);
  }

  /**
   So the promise fails as it stands: after this run the device, just answered, does not show a message
   that is active, open and in its audience.
   */
  lemma {:induction false} TheCacheLosesAMessage()
    ensures var w := Run(DEVICE, SETTINGS, LosingRun() + [OP_SECOND]);
            exists m :: m in w.server.messages && !ShowsCurrent(w, DEVICE, m)
  {
    ReachPaused();
    var w0 := Run(DEVICE, SETTINGS, LosingRun());
    RunsKeepTheInvariant(DEVICE, SETTINGS, LosingRun());
    RunOfSync(DEVICE, SETTINGS, LosingRun(), 40);
    SecondIsLost(w0);
    assert w0.server.messages[1] in w0.server.messages;
  }
}
