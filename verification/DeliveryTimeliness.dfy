/**
 When delta mode keeps its promise. A run in which bundles are reused leaves every answered device with
 exactly the eligible set if and only if no answer used a bundle assembled before the window of a message
 that was eligible by then.
 */
module DeliveryTimeliness {
  import opened Wrappers
  import opened Definitions
  import opened Payload
  import opened Delivery
  import opened DeliveryInvariants
  import opened DeliveryRuns
  import ChangeLog

  /** The step is a synchronisation of the device that is answered with content. */
  ghost predicate AnsweredStep(w: World, device: Viewer, cfg: Config, t: Timed) {
    t.op.DeviceSync? && w.clock <= t.at && Answered(w, device, cfg, t.at)
  }

  /**
   The bundle a build at `at` uses, cached or new, was not assembled before the window of a message
   eligible at `at` opened. The store and the cache before the call decide it.
   */
  ghost predicate Timely(w: World, device: Viewer, at: int) {
    var built := BuildPayload(w.server, device, at).0;
    built.Ok? ==>
      forall m :: m in w.server.messages && EntryAt(m, Segments(w.server, MembershipOf(w.server, device.channel)), at, device).Some? ==>
        m.windowStart <= built.value.assembledAt
  }

  /** The device shows exactly what a full assembly now would give it. */
  ghost predicate EligibleSetShown(w: World, device: Viewer) {
    && (forall m :: m in w.server.messages ==> ShowsCurrent(w, device, m))
    && (forall id :: id in w.device.held ==> Known(w.server.messages, id))
  }

  ghost predicate EveryAnswerTimely(device: Viewer, cfg: Config, ops: seq<Timed>) {
    ops == []
    || var before, last := Run(device, cfg, ops[..|ops| - 1]), ops[|ops| - 1];
       && EveryAnswerTimely(device, cfg, ops[..|ops| - 1])
       && (AnsweredStep(before, device, cfg, last) ==> Timely(before, device, last.at))
  }

  ghost predicate EveryAnswerShown(device: Viewer, cfg: Config, ops: seq<Timed>) {
    ops == []
    || (&& EveryAnswerShown(device, cfg, ops[..|ops| - 1])
        && (AnsweredStep(Run(device, cfg, ops[..|ops| - 1]), device, cfg, ops[|ops| - 1]) ==> EligibleSetShown(Run(device, cfg, ops), device)))
  }

  // ---- What timely answers keep ----

  /** The change log up to the cursor has the message active. */
  ghost predicate ActiveAt(w: World, c: Cursor, m: Message) {
    0 <= c.seqNo <= |w.writes| && LastKind(w.writes[..c.seqNo], m.id) == Some(ChangeLog.Upsert)
  }

  ghost predicate InAudience(w: World, membership: set<nat>, m: Message) {
    m.audience.Some? && m.audience.value in Segments(w.server, membership)
  }

  /** Active at the cursor, for this device, and opened after the payload's bundle but before the cursor's issue. */
  ghost predicate OpenedUnseen(w: World, device: Viewer, c: Cursor, m: Message) {
    && ActiveAt(w, c, m) && EntryFor(m, device).Some? && InAudience(w, c.membership, m)
    && w.builtAt < m.windowStart <= c.issuedAt
  }

  /** Such a message had expired when the cursor was issued. */
  ghost predicate Settled(w: World, device: Viewer, c: Cursor) {
    forall m :: m in w.server.messages && OpenedUnseen(w, device, c, m) ==> m.windowEnd <= c.issuedAt
  }

  /** Every lost message has expired. */
  ghost predicate LostExpired(w: World) {
    && (forall id :: id in w.lost ==> Known(w.server.messages, id))
    && (forall m :: m in w.server.messages && m.id in w.lost ==> m.windowEnd <= w.clock)
  }

  ghost predicate TimelyInv(w: World, device: Viewer) {
    LostExpired(w) && (w.device.cursor.Some? ==> Settled(w, device, w.device.cursor.value))
  }

  /** A message of the new store is new, or one of the old store but for its state. */
  ghost predicate SameButState(w: World, device: Viewer, m: Message) {
    Known(w.server.messages, m.id) ==>
      exists k :: k in w.server.messages && k.id == m.id && k.windowStart == m.windowStart && k.windowEnd == m.windowEnd
                  && k.audience == m.audience && EntryFor(k, device) == EntryFor(m, device)
  }

  /** What a step other than an answer leaves as it was: the device's cursor, and the store but for states and new messages. */
  ghost predicate SameBehindCursor(w: World, w': World, device: Viewer) {
    && w.clock <= w'.clock && w'.device.cursor == w.device.cursor && w'.builtAt == w.builtAt && w'.lost == w.lost
    && w.writes <= w'.writes
    && (forall m :: m in w'.server.messages ==> SameButState(w, device, m))
    && (forall id :: Known(w.server.messages, id) ==> Known(w'.server.messages, id))
    && (w.device.cursor.Some? ==>
          Segments(w'.server, w.device.cursor.value.membership) == Segments(w.server, w.device.cursor.value.membership))
  }

  lemma {:induction false} UnknownNotActive(w: World, c: Cursor, m: Message)
    requires WritesKnown(w.server.messages, w.writes) && !Known(w.server.messages, m.id)
    ensures !ActiveAt(w, c, m)
  {
    if 0 <= c.seqNo <= |w.writes| {
      assert forall x :: x in w.writes[..c.seqNo] ==> x in w.writes;
      UnknownNeverWritten(w.server.messages, w.writes[..c.seqNo], m.id);
    }
  }

  lemma {:induction false} ActiveAsBefore(w: World, w': World, c: Cursor, m: Message)
    requires w.writes <= w'.writes && c.seqNo <= |w.writes|
    ensures ActiveAt(w', c, m) <==> ActiveAt(w, c, m)
  {
    assert 0 <= c.seqNo ==> w'.writes[..c.seqNo] == w.writes[..c.seqNo];
  }

  /** A step that is no answer keeps both facts. */
  lemma {:induction false} UnansweredKeeps(w: World, w': World, device: Viewer)
    requires WorldInv(w, device) && TimelyInv(w, device) && SameBehindCursor(w, w', device)
    ensures TimelyInv(w', device)
  {
    forall m | m in w'.server.messages && m.id in w'.lost ensures m.windowEnd <= w'.clock {
      assert SameButState(w, device, m);
    }
    if w.device.cursor.Some? {
      var c := w.device.cursor.value;
      forall m | m in w'.server.messages && OpenedUnseen(w', device, c, m) ensures m.windowEnd <= c.issuedAt {
        ActiveAsBefore(w, w', c, m);
        UnseenBefore(w, w', device, c, m);
      }
    }
  }

  lemma {:induction false} UnseenBefore(w: World, w': World, device: Viewer, c: Cursor, m: Message)
    requires WritesKnown(w.server.messages, w.writes) && SameBehindCursor(w, w', device) && w.device.cursor == Some(c)
    requires m in w'.server.messages && OpenedUnseen(w', device, c, m) && ActiveAt(w, c, m) && Settled(w, device, c)
    ensures m.windowEnd <= c.issuedAt
  {
    assert SameButState(w, device, m);
    if !Known(w.server.messages, m.id) {
      UnknownNotActive(w, c, m);
      assert false;
    }
    var k :| k in w.server.messages && k.id == m.id && k.windowStart == m.windowStart && k.windowEnd == m.windowEnd
             && k.audience == m.audience && EntryFor(k, device) == EntryFor(m, device);
    assert OpenedUnseen(w, device, c, k);
  }

  // ---- Step by step ----

  lemma {:induction false} SameMessagesAreSame(w: World, w': World, device: Viewer)
    requires w.clock <= w'.clock && w'.server.messages == w.server.messages && w'.writes == w.writes
    requires w'.device.cursor == w.device.cursor && w'.builtAt == w.builtAt && w'.lost == w.lost
    requires w.device.cursor.Some? ==>
               Segments(w'.server, w.device.cursor.value.membership) == Segments(w.server, w.device.cursor.value.membership)
    ensures SameBehindCursor(w, w', device)
  {
  }

  lemma {:induction false} SameMessagesKeep(w: World, w': World, device: Viewer)
    requires WorldInv(w, device) && TimelyInv(w, device) && w.clock <= w'.clock
    requires w'.device.cursor == w.device.cursor && w'.builtAt == w.builtAt && w'.lost == w.lost
    requires w'.writes == w.writes && w'.server.messages == w.server.messages
    requires w.device.cursor.Some? ==>
               Segments(w'.server, w.device.cursor.value.membership) == Segments(w.server, w.device.cursor.value.membership)
    ensures TimelyInv(w', device)
  {
    SameMessagesAreSame(w, w', device);
    UnansweredKeeps(w, w', device);
  }

  lemma {:induction false} CreatedIsSame(w: World, device: Viewer, m: Message, at: int)
    requires w.clock <= at && !Known(w.server.messages, m.id)
    ensures SameBehindCursor(w, w.(server := Created(w.server, m), clock := at), device)
  {
    var w' := w.(server := Created(w.server, m), clock := at);
    forall id | Known(w.server.messages, id) ensures Known(w'.server.messages, id) {
      var k :| k in w.server.messages && k.id == id;
      assert k in w'.server.messages;
    }
  }

  lemma {:induction false} CreateKeeps(w: World, device: Viewer, m: Message, at: int)
    requires WorldInv(w, device) && TimelyInv(w, device) && w.clock <= at && !Known(w.server.messages, m.id)
    ensures TimelyInv(w.(server := Created(w.server, m), clock := at), device)
  {
    CreatedIsSame(w, device, m, at);
    UnansweredKeeps(w, w.(server := Created(w.server, m), clock := at), device);
  }

  lemma {:induction false} MovedIsSame(w: World, device: Viewer, id: string, to: MessageState, m: Message)
    requires Updatable(w.server.messages, id, to) && m in WithState(w.server.messages, id, to)
    ensures SameButState(w, device, m)
  {
    var ms, ms' := w.server.messages, WithState(w.server.messages, id, to);
    var i :| 0 <= i < |ms'| && ms'[i] == m;
    EntryIgnoresState(ms[i], to, device);
    assert ms[i] in ms && ms[i].id == m.id && EntryFor(ms[i], device) == EntryFor(m, device);
  }

  lemma {:induction false} MovedWindow(ms: seq<Message>, id: string, to: MessageState, m: Message)
    requires DistinctIds(ms) && Updatable(ms, id, to) && m in WithState(ms, id, to)
    ensures exists k :: k in ms && k.id == m.id && k.windowEnd == m.windowEnd
  {
    var ms' := WithState(ms, id, to);
    var i :| 0 <= i < |ms'| && ms'[i] == m;
    assert ms[i] in ms && ms[i].id == m.id && ms[i].windowEnd == m.windowEnd;
  }

  lemma {:induction false} SetStateIsSame(w: World, device: Viewer, id: string, to: MessageState, actor: string, at: int)
    requires ServerInv(w) && w.clock <= at
    ensures SameBehindCursor(w, w.(server := StateUpdated(w.server, id, to, actor, at), writes := w.writes + WritesOf(w.server, id, to, at), clock := at), device)
  {
    var w' := w.(server := StateUpdated(w.server, id, to, actor, at), writes := w.writes + WritesOf(w.server, id, to, at), clock := at);
    StateUpdatedCaches(w.server, id, to, actor, at);
    if Updatable(w.server.messages, id, to) {
      StateUpdatedParts(w.server, id, to, actor, at);
      WithStateMembers(w.server.messages, id, to);
      forall m | m in w'.server.messages ensures SameButState(w, device, m) {
        MovedIsSame(w, device, id, to, m);
      }
    }
  }

  lemma {:induction false} SetStateKeeps(w: World, device: Viewer, id: string, to: MessageState, actor: string, at: int)
    requires WorldInv(w, device) && TimelyInv(w, device) && w.clock <= at
    ensures TimelyInv(w.(server := StateUpdated(w.server, id, to, actor, at), writes := w.writes + WritesOf(w.server, id, to, at), clock := at), device)
  {
    SetStateIsSame(w, device, id, to, actor, at);
    UnansweredKeeps(w, w.(server := StateUpdated(w.server, id, to, actor, at), writes := w.writes + WritesOf(w.server, id, to, at), clock := at), device);
  }

  lemma {:induction false} SegmentKeeps(w: World, device: Viewer, o: nat, g: string, at: int)
    requires WorldInv(w, device) && TimelyInv(w, device) && w.clock <= at && o !in w.server.segments
    ensures TimelyInv(w.(server := w.server.(segments := w.server.segments[o := g]), clock := at), device)
  {
    if w.device.cursor.Some? {
      SegmentsGrow(w.server.segments, o, g, w.device.cursor.value.membership);
    }
    SameMessagesKeep(w, w.(server := w.server.(segments := w.server.segments[o := g]), clock := at), device);
  }

  lemma {:induction false} SyncKeepsStore(w: World, viewer: Viewer, tag: Option<string>, cursor: Option<Cursor>, cfg: Config, at: int)
    requires ServerInv(w) && w.clock <= at
    ensures SameStore(w.server, Sync(w.server, viewer, tag, cursor, at, cfg).1)
  {
    var key := Key("", 0, {});
    assert NoOlder(w.server, key, w.clock) by {
      assert key in w.server.bundles ==> BundleFaithful(w.server, key);
    }
    SyncServer(w.server, viewer, tag, cursor, at, cfg, w.clock, key, w.clock);
  }

  lemma {:induction false} OtherSyncKeeps(w: World, device: Viewer, v: Viewer, tag: Option<string>, cursor: Option<Cursor>, cfg: Config, at: int)
    requires WorldInv(w, device) && TimelyInv(w, device) && w.clock <= at
    ensures TimelyInv(w.(server := Sync(w.server, v, tag, cursor, at, cfg).1, clock := at), device)
  {
    SyncKeepsStore(w, v, tag, cursor, cfg, at);
    SameMessagesKeep(w, w.(server := Sync(w.server, v, tag, cursor, at, cfg).1, clock := at), device);
  }

  lemma {:induction false} UnansweredSync(w: World, device: Viewer, cfg: Config, at: int)
    requires !Answered(w, device, cfg, at)
    ensures var w' := Synced(w, device, cfg, at);
            w'.device.cursor == w.device.cursor && w'.builtAt == w.builtAt && w'.lost == w.lost
  {
  }

  lemma {:induction false} UnansweredSyncKeeps(w: World, device: Viewer, cfg: Config, at: int)
    requires WorldInv(w, device) && TimelyInv(w, device) && w.clock <= at && !Answered(w, device, cfg, at)
    ensures TimelyInv(Synced(w, device, cfg, at), device)
  {
    SyncedParts(w, device, cfg, at);
    SyncKeepsStore(w, device, w.device.tag, w.device.cursor, cfg, at);
    UnansweredSync(w, device, cfg, at);
    SameMessagesKeep(w, Synced(w, device, cfg, at), device);
  }

  // ---- The answered synchronisation ----

  /** A timely answer leaves nothing opened unseen that has not expired. */
  lemma {:induction false} TimelyAnswerSettles(w: World, w': World, device: Viewer, at: int)
    requires Timely(w, device, at) && BuildPayload(w.server, device, at).0.Ok? && KindsAgree(w.server.messages, w'.writes)
    requires SameStore(w.server, w'.server) && w'.builtAt == BuildPayload(w.server, device, at).0.value.assembledAt
    requires w'.device.cursor == Some(Cursor(|w'.writes|, MembershipOf(w.server, device.channel), at))
    ensures Settled(w', device, w'.device.cursor.value)
  {
    var c := w'.device.cursor.value;
    forall m | m in w'.server.messages && OpenedUnseen(w', device, c, m) ensures m.windowEnd <= c.issuedAt {
      assert w'.writes[..c.seqNo] == w'.writes;
      assert m.windowEnd > at ==> EntryAt(m, Segments(w.server, c.membership), at, device).Some?;
    }
  }

  /** What a delta after settled answers loses has expired. */
  lemma {:induction false} LostAreExpired(w: World, device: Viewer, c: Cursor, assembledAt: int, m: Message)
    requires WorldInv(w, device) && TimelyInv(w, device) && w.device.cursor == Some(c)
    requires m in w.server.messages && m.id in LostBy(w, device, c, assembledAt)
    ensures m.windowEnd <= w.clock
  {
    LostIff(w, device, c, assembledAt, m);
    EntryTells(m, Segments(w.server, c.membership), assembledAt, device);
    UnchangedActive(w, c, m);
    if m.id !in w.lost {
      assert OpenedUnseen(w, device, c, m);
    }
  }

  lemma {:induction false} KindUnchanged(writes: seq<ChangeLog.Write>, seqNo: nat, id: string)
    requires seqNo <= |writes| && id !in Changed(writes, seqNo)
    ensures LastKind(writes[..seqNo], id) == LastKind(writes, id)
  {
    if seqNo == |writes| {
      assert writes[..seqNo] == writes;
    } else {
      var front := writes[..|writes| - 1];
      assert writes[|writes| - 1].messageId in Changed(writes, seqNo);
      ChangedGrows(front, writes[|writes| - 1], seqNo);
      assert front + [writes[|writes| - 1]] == writes && front[..seqNo] == writes[..seqNo];
      KindUnchanged(front, seqNo, id);
    }
  }

  /** A message unchanged since the cursor was active then if and only if it is active now. */
  lemma {:induction false} UnchangedActive(w: World, c: Cursor, m: Message)
    requires KindsAgree(w.server.messages, w.writes) && m in w.server.messages
    requires 0 <= c.seqNo <= |w.writes| && m.id !in Changed(w.writes, c.seqNo)
    ensures ActiveAt(w, c, m) <==> m.state.Active?
  {
    KindUnchanged(w.writes, c.seqNo, m.id);
  }

  lemma {:induction false} LostAreKnown(w: World, device: Viewer, c: Cursor, assembledAt: int)
    ensures forall id :: id in LostBy(w, device, c, assembledAt) ==> Known(w.server.messages, id)
  {
  }

  lemma {:induction false} FullLosesNothing(w: World, device: Viewer, cfg: Config, at: int)
    requires Sync(w.server, device, w.device.tag, w.device.cursor, at, cfg).0.Full? && BuildPayload(w.server, device, at).0.Ok?
    ensures Synced(w, device, cfg, at).lost == {}
  {
  }

  lemma {:induction false} TimelyAnswerKeeps(w: World, device: Viewer, cfg: Config, at: int)
    requires WorldInv(w, device) && TimelyInv(w, device) && cfg.deltaMode && w.clock <= at
    requires Answered(w, device, cfg, at) && Timely(w, device, at)
    ensures TimelyInv(Synced(w, device, cfg, at), device)
  {
    var w' := Synced(w, device, cfg, at);
    AnswerIsNewest(w, device, cfg, at);
    FreshCursorInv(w, device, cfg, at);
    SyncedParts(w, device, cfg, at);
    TimelyAnswerSettles(w, w', device, at);
    if Sync(w.server, device, w.device.tag, w.device.cursor, at, cfg).0.Full? {
      FullLosesNothing(w, device, cfg, at);
    } else {
      var es := PartialParts(w, device, cfg, at);
      var c := w.device.cursor.value;
      LostAreKnown(w, device, c, w'.builtAt);
      forall m | m in w'.server.messages && m.id in w'.lost ensures m.windowEnd <= w'.clock {
        LostAreExpired(w, device, c, w'.builtAt, m);
      }
    }
  }

  /** After an answer, with everything lost expired, the eligible set is shown if and only if the answer was timely. */
  lemma {:induction false} ShownIffTimely(w: World, device: Viewer, cfg: Config, at: int)
    requires WorldInv(w, device) && cfg.deltaMode && w.clock <= at && Answered(w, device, cfg, at)
    ensures EligibleSetShown(Synced(w, device, cfg, at), device) ==> Timely(w, device, at)
    ensures Timely(w, device, at) && LostExpired(Synced(w, device, cfg, at)) ==> EligibleSetShown(Synced(w, device, cfg, at), device)
  {
    var w' := Synced(w, device, cfg, at);
    AllAnsweredShow(w, device, cfg, at);
    FreshCursorInv(w, device, cfg, at);
    SyncedParts(w, device, cfg, at);
    var segments := Segments(w.server, MembershipOf(w.server, device.channel));
    if EligibleSetShown(w', device) {
      forall m | m in w.server.messages && EntryAt(m, segments, at, device).Some? ensures m.windowStart <= w'.builtAt {
        assert ShowsCurrent(w', device, m);
      }
    }
    if Timely(w, device, at) && LostExpired(w') {
      forall m | m in w'.server.messages ensures ShowsCurrent(w', device, m) {
        if EntryAt(m, segments, at, device).Some? { EntryTells(m, segments, at, device); }
      }
    }
  }

  // ---- Runs ----

  lemma {:induction false} StepKeepsTimely(w: World, device: Viewer, cfg: Config, t: Timed)
    requires WorldInv(w, device) && TimelyInv(w, device) && cfg.deltaMode
    requires AnsweredStep(w, device, cfg, t) ==> Timely(w, device, t.at)
    ensures TimelyInv(Step(w, device, cfg, t.op, t.at), device)
  {
    if Allowed(w, device, t.op, t.at) {
      match t.op
      case Create(m) => CreateKeeps(w, device, m, t.at);
      case SetState(id, to, actor) => SetStateKeeps(w, device, id, to, actor, t.at);
      case SaveSegment(o, g) => SegmentKeeps(w, device, o, g, t.at);
      case Reindex(c, membership) => ReindexKeeps(w, device, c, membership, t.at);
      case OtherSync(v, tag, cursor) => OtherSyncKeeps(w, device, v, tag, cursor, cfg, t.at);
      case DeviceSync => DeviceSyncKeeps(w, device, cfg, t.at);
      case DeviceExpiry => ExpiryKeeps(w, device, t.at);
    }
  }

  lemma {:induction false} ReindexKeeps(w: World, device: Viewer, channel: string, membership: set<nat>, at: int)
    requires WorldInv(w, device) && TimelyInv(w, device) && w.clock <= at
    ensures TimelyInv(w.(server := w.server.(memberships := w.server.memberships[channel := membership]), clock := at), device)
  {
    SameMessagesKeep(w, w.(server := w.server.(memberships := w.server.memberships[channel := membership]), clock := at), device);
  }

  lemma {:induction false} ExpiryKeeps(w: World, device: Viewer, at: int)
    requires WorldInv(w, device) && TimelyInv(w, device) && w.clock <= at
    ensures TimelyInv(w.(device := w.device.(held := Unexpired(w.device.held, at)), clock := at), device)
  {
    SameMessagesKeep(w, w.(device := w.device.(held := Unexpired(w.device.held, at)), clock := at), device);
  }

  lemma {:induction false} DeviceSyncKeeps(w: World, device: Viewer, cfg: Config, at: int)
    requires WorldInv(w, device) && TimelyInv(w, device) && cfg.deltaMode && w.clock <= at
    requires Answered(w, device, cfg, at) ==> Timely(w, device, at)
    ensures TimelyInv(Synced(w, device, cfg, at), device)
  {
    if Answered(w, device, cfg, at) {
      TimelyAnswerKeeps(w, device, cfg, at);
    } else {
      UnansweredSyncKeeps(w, device, cfg, at);
    }
  }

  lemma {:induction false} TimelyRunsKeepTimely(device: Viewer, cfg: Config, ops: seq<Timed>)
    requires cfg.deltaMode && EveryAnswerTimely(device, cfg, ops)
    ensures TimelyInv(Run(device, cfg, ops), device)
  {
    if ops != [] {
      TimelyRunsKeepTimely(device, cfg, ops[..|ops| - 1]);
      RunsKeepTheInvariant(device, cfg, ops[..|ops| - 1]);
      StepKeepsTimely(Run(device, cfg, ops[..|ops| - 1]), device, cfg, ops[|ops| - 1]);
    }
  }

  /** The main result: every answer of a run leaves exactly the eligible set if and only if every answer was timely. */
  lemma {:induction false} RunsShowTheEligibleSetIff(device: Viewer, cfg: Config, ops: seq<Timed>)
    requires cfg.deltaMode
    ensures EveryAnswerShown(device, cfg, ops) <==> EveryAnswerTimely(device, cfg, ops)
  {
    if ops != [] {
      var front := ops[..|ops| - 1];
      RunsShowTheEligibleSetIff(device, cfg, front);
      RunsKeepTheInvariant(device, cfg, front);
      if EveryAnswerTimely(device, cfg, front) {
        TimelyRunsKeepTimely(device, cfg, front);
        if AnsweredStep(Run(device, cfg, front), device, cfg, ops[|ops| - 1]) {
          StepShownIff(Run(device, cfg, front), device, cfg, ops[|ops| - 1]);
        }
      }
    }
  }

  lemma {:induction false} StepShownIff(w: World, device: Viewer, cfg: Config, t: Timed)
    requires WorldInv(w, device) && TimelyInv(w, device) && cfg.deltaMode && AnsweredStep(w, device, cfg, t)
    ensures EligibleSetShown(Step(w, device, cfg, t.op, t.at), device) <==> Timely(w, device, t.at)
  {
    StepIsSynced(w, device, cfg, t);
    SyncedShownIff(w, device, cfg, t.at);
  }

  lemma {:induction false} StepIsSynced(w: World, device: Viewer, cfg: Config, t: Timed)
    requires AnsweredStep(w, device, cfg, t)
    ensures Step(w, device, cfg, t.op, t.at) == Synced(w, device, cfg, t.at)
  {
  }

  lemma {:induction false} SyncedShownIff(w: World, device: Viewer, cfg: Config, at: int)
    requires WorldInv(w, device) && TimelyInv(w, device) && cfg.deltaMode && w.clock <= at && Answered(w, device, cfg, at)
    ensures EligibleSetShown(Synced(w, device, cfg, at), device) <==> Timely(w, device, at)
  {
    ShownIffTimely(w, device, cfg, at);
    if Timely(w, device, at) { TimelyAnswerKeeps(w, device, cfg, at); }
  }

  // ---- Bundles assembled on the spot ----

  /** Every answer of the run assembled its own bundle. */
  ghost predicate FreshlyAssembled(device: Viewer, cfg: Config, ops: seq<Timed>) {
    ops == []
    || var before, last := Run(device, cfg, ops[..|ops| - 1]), ops[|ops| - 1];
       && FreshlyAssembled(device, cfg, ops[..|ops| - 1])
       && (AnsweredStep(before, device, cfg, last) && BuildPayload(before.server, device, last.at).0.Ok? ==>
             BuildPayload(before.server, device, last.at).0.value.assembledAt == last.at)
  }

  lemma {:induction false} FreshIsTimely(device: Viewer, cfg: Config, ops: seq<Timed>)
    requires FreshlyAssembled(device, cfg, ops)
    ensures EveryAnswerTimely(device, cfg, ops)
  {
    if ops != [] {
      FreshIsTimely(device, cfg, ops[..|ops| - 1]);
      var w, at := Run(device, cfg, ops[..|ops| - 1]), ops[|ops| - 1].at;
      var segments := Segments(w.server, MembershipOf(w.server, device.channel));
      forall m | m in w.server.messages && EntryAt(m, segments, at, device).Some? ensures m.windowStart <= at {
        EntryTells(m, segments, at, device);
      }
    }
  }

  /** In particular a run that assembles every bundle on the spot keeps the promise throughout. */
  lemma {:induction false} FreshRunsShowTheEligibleSet(device: Viewer, cfg: Config, ops: seq<Timed>)
    requires cfg.deltaMode && FreshlyAssembled(device, cfg, ops)
    ensures EveryAnswerShown(device, cfg, ops)
  {
    FreshIsTimely(device, cfg, ops);
    RunsShowTheEligibleSetIff(device, cfg, ops);
  }
}
