/**
 What the cached tag alone vouches for. An answer of "unchanged" from it builds nothing, so the device
 shows what it was last sent. What that is the change log, the windows and the memberships tell; hence
 exactly when it is still the eligible set, whatever changed since the device's cursor was issued.
 */
module DeliveryFastPath {
  import opened Wrappers
  import opened Definitions
  import opened Payload
  import opened Delivery
  import opened DeliveryInvariants
  import opened DeliveryRuns
  import opened DeliveryTimeliness
  import ChangeLog

  /** A synchronisation at `at` is answered from the cached tag. */
  ghost predicate FastPath(w: World, device: Viewer, at: int) {
    w.clock <= at && TagIsCached(w.server, device.channel, w.device.tag, at)
  }

  lemma {:induction false} FastPathLeavesAll(w: World, device: Viewer, cfg: Config, at: int)
    requires FastPath(w, device, at)
    ensures Synced(w, device, cfg, at) == w.(clock := at)
  {
    assert Sync(w.server, device, w.device.tag, w.device.cursor, at, cfg) == (Unchanged(w.device.tag.value), w.server);
  }

  // ---- A tag comes with a cursor ----

  lemma {:induction false} AnswerHasCursor(s: Server, viewer: Viewer, p: Built, tag: Option<string>, client: Option<Cursor>, at: int, cfg: Config)
    requires cfg.deltaMode
    ensures var r := Answer(s, viewer, p, tag, client, at, cfg).0; r.Full? || r.Partial? ==> r.cursor.Some?
  {
  }

  lemma {:induction false} SyncHasCursor(s: Server, viewer: Viewer, tag: Option<string>, client: Option<Cursor>, at: int, cfg: Config)
    requires cfg.deltaMode
    ensures var r := Sync(s, viewer, tag, client, at, cfg).0; r.Full? || r.Partial? ==> r.cursor.Some?
  {
    var (built, s') := BuildPayload(s, viewer, at);
    if built.Ok? { AnswerHasCursor(s', viewer, built.value, tag, client, at, cfg); }
  }

  lemma {:induction false} TagComesWithCursor(device: Viewer, cfg: Config, ops: seq<Timed>)
    requires cfg.deltaMode
    ensures Run(device, cfg, ops).device.tag.Some? ==> Run(device, cfg, ops).device.cursor.Some?
  {
    if ops != [] {
      var w, last := Run(device, cfg, ops[..|ops| - 1]), ops[|ops| - 1];
      TagComesWithCursor(device, cfg, ops[..|ops| - 1]);
      if last.op.DeviceSync? {
        SyncKeepsTagged(w, device, cfg, last.at);
      } else {
        OtherStepsKeepTag(w, device, cfg, last);
      }
    }
  }

  lemma {:induction false} SyncKeepsTagged(w: World, device: Viewer, cfg: Config, at: int)
    requires cfg.deltaMode && (w.device.tag.Some? ==> w.device.cursor.Some?)
    ensures var d := Synced(w, device, cfg, at).device; d.tag.Some? ==> d.cursor.Some?
  {
    SyncHasCursor(w.server, device, w.device.tag, w.device.cursor, at, cfg);
  }

  lemma {:induction false} OtherStepsKeepTag(w: World, device: Viewer, cfg: Config, t: Timed)
    requires !t.op.DeviceSync?
    ensures var d := Step(w, device, cfg, t.op, t.at).device; d.tag == w.device.tag && d.cursor == w.device.cursor
  {
  }

  // ---- What the device was sent ----

  /**
   The device was sent the message: the change log up to its cursor has it active, it was in the cursor's
   segments, open when the payload's bundle was assembled, and not lost. What the device holds is not asked.
   */
  ghost predicate WasSent(w: World, device: Viewer, c: Cursor, m: Message) {
    && ActiveAt(w, c, m) && EntryFor(m, device).Some? && InAudience(w, c.membership, m)
    && m.windowStart <= w.builtAt && m.id !in w.lost
  }

  /** Of every message that has not expired, changed since or not, the device holds just what it was sent. */
  ghost predicate HistoryInv(w: World, device: Viewer) {
    w.device.cursor.Some? ==>
      forall m :: m in w.server.messages && m.windowEnd > w.clock ==> (m.id in w.device.held <==> WasSent(w, device, w.device.cursor.value, m))
  }

  lemma {:induction false} SentAsBefore(w: World, w': World, device: Viewer, c: Cursor, k: Message, m: Message)
    requires SameBehindCursor(w, w', device) && w.device.cursor == Some(c) && c.seqNo <= |w.writes|
    requires k.id == m.id && k.windowStart == m.windowStart && k.audience == m.audience && EntryFor(k, device) == EntryFor(m, device)
    ensures WasSent(w', device, c, m) <==> WasSent(w, device, c, k)
  {
    ActiveAsBefore(w, w', c, m);
  }

  lemma {:induction false} UnansweredKeepsHistory(w: World, w': World, device: Viewer)
    requires WorldInv(w, device) && HistoryInv(w, device) && SameBehindCursor(w, w', device) && w'.device.held == w.device.held
    ensures HistoryInv(w', device)
  {
    if w.device.cursor.Some? {
      var c := w.device.cursor.value;
      forall m | m in w'.server.messages && m.windowEnd > w'.clock ensures m.id in w'.device.held <==> WasSent(w', device, c, m) {
        assert SameButState(w, device, m);
        ActiveAsBefore(w, w', c, m);
        if Known(w.server.messages, m.id) {
          var k :| k in w.server.messages && k.id == m.id && k.windowStart == m.windowStart && k.windowEnd == m.windowEnd
                   && k.audience == m.audience && EntryFor(k, device) == EntryFor(m, device);
          SentAsBefore(w, w', device, c, k, m);
        } else {
          UnknownNotActive(w, c, m);
        }
      }
    }
  }

  lemma {:induction false} ExpiryKeepsHistory(w: World, device: Viewer, at: int)
    requires WorldInv(w, device) && HistoryInv(w, device) && w.clock <= at
    ensures HistoryInv(w.(device := w.device.(held := Unexpired(w.device.held, at)), clock := at), device)
  {
    var w' := w.(device := w.device.(held := Unexpired(w.device.held, at)), clock := at);
    if w.device.cursor.Some? {
      var c := w.device.cursor.value;
      forall m | m in w'.server.messages && m.windowEnd > at ensures m.id in w'.device.held <==> WasSent(w', device, c, m) {
        assert HeldKnown(w, device, c, m);
        assert WasSent(w', device, c, m) <==> WasSent(w, device, c, m);
      }
    }
  }

  lemma {:induction false} AnswerKeepsHistory(w: World, device: Viewer)
    requires ServerInv(w) && JustAnswered(w, device)
    ensures HistoryInv(w, device)
  {
    var c := w.device.cursor.value;
    forall m | m in w.server.messages && m.windowEnd > w.clock ensures m.id in w.device.held <==> WasSent(w, device, c, m) {
      NothingChangedSince(w.writes, m.id);
      assert Get(w.device.held, m.id) == Expected(w, device, c, m);
      UnchangedActive(w, c, m);
    }
  }

  lemma {:induction false} DeviceSyncKeepsHistory(w: World, device: Viewer, cfg: Config, at: int)
    requires WorldInv(w, device) && HistoryInv(w, device) && cfg.deltaMode && w.clock <= at
    ensures HistoryInv(Synced(w, device, cfg, at), device)
  {
    if Answered(w, device, cfg, at) {
      AnswerIsNewest(w, device, cfg, at);
      DeviceSyncKeepsServer(w, device, cfg, at);
      AnswerKeepsHistory(Synced(w, device, cfg, at), device);
    } else {
      SyncedParts(w, device, cfg, at);
      SyncKeepsStore(w, device, w.device.tag, w.device.cursor, cfg, at);
      UnansweredSync(w, device, cfg, at);
      UnansweredHolds(w, device, cfg, at);
      SameMessagesAreSame(w, Synced(w, device, cfg, at), device);
      UnansweredKeepsHistory(w, Synced(w, device, cfg, at), device);
    }
  }

  lemma {:induction false} UnansweredHolds(w: World, device: Viewer, cfg: Config, at: int)
    requires !Answered(w, device, cfg, at)
    ensures Synced(w, device, cfg, at).device.held == w.device.held
  {
  }

  lemma {:induction false} OtherStepIsSame(w: World, device: Viewer, cfg: Config, t: Timed)
    requires WorldInv(w, device) && Allowed(w, device, t.op, t.at) && !t.op.DeviceSync? && !t.op.DeviceExpiry?
    ensures var w' := Step(w, device, cfg, t.op, t.at); SameBehindCursor(w, w', device) && w'.device == w.device
  {
    var w' := Step(w, device, cfg, t.op, t.at);
    match t.op
    case Create(m) => CreatedIsSame(w, device, m, t.at);
    case SetState(id, to, actor) => SetStateIsSame(w, device, id, to, actor, t.at);
    case SaveSegment(o, g) =>
      if w.device.cursor.Some? { SegmentsGrow(w.server.segments, o, g, w.device.cursor.value.membership); }
      SameMessagesAreSame(w, w', device);
    case Reindex(c, membership) => SameMessagesAreSame(w, w', device);
    case OtherSync(v, tag, cursor) =>
      SyncKeepsStore(w, v, tag, cursor, cfg, t.at);
      SameMessagesAreSame(w, w', device);
  }

  lemma {:induction false} StepKeepsHistory(w: World, device: Viewer, cfg: Config, t: Timed)
    requires WorldInv(w, device) && HistoryInv(w, device) && cfg.deltaMode
    ensures HistoryInv(Step(w, device, cfg, t.op, t.at), device)
  {
    if Allowed(w, device, t.op, t.at) {
      match t.op
      case DeviceSync => DeviceSyncKeepsHistory(w, device, cfg, t.at);
      case DeviceExpiry => ExpiryKeepsHistory(w, device, t.at);
      case _ =>
        OtherStepIsSame(w, device, cfg, t);
        UnansweredKeepsHistory(w, Step(w, device, cfg, t.op, t.at), device);
    }
  }

  /** Over every run the device holds, of what has not expired, just what the log up to its cursor says it was sent. */
  lemma {:induction false} HoldingsAreHistory(device: Viewer, cfg: Config, ops: seq<Timed>)
    requires cfg.deltaMode
    ensures HistoryInv(Run(device, cfg, ops), device)
  {
    if ops != [] {
      HoldingsAreHistory(device, cfg, ops[..|ops| - 1]);
      RunsKeepTheInvariant(device, cfg, ops[..|ops| - 1]);
      StepKeepsHistory(Run(device, cfg, ops[..|ops| - 1]), device, cfg, ops[|ops| - 1]);
    }
  }

  // ---- What the cached tag shows ----

  /** A full assembly at `at` would give the device the message. */
  ghost predicate EligibleNow(w: World, device: Viewer, at: int, m: Message) {
    EntryAt(m, Segments(w.server, MembershipOf(w.server, device.channel)), at, device).Some?
  }

  lemma {:induction false} StillShowsIff(w: World, device: Viewer, c: Cursor, at: int, m: Message)
    requires WorldInv(w, device) && HistoryInv(w, device) && w.device.cursor == Some(c) && w.clock <= at && m in w.server.messages
    ensures ShowsCurrent(w.(clock := at), device, m) <==> (m.windowEnd > at ==> (WasSent(w, device, c, m) <==> EligibleNow(w, device, at, m)))
  {
    assert HeldKnown(w, device, c, m);
    assert m.windowEnd > at ==> (m.id in w.device.held <==> WasSent(w, device, c, m));
  }

  lemma {:induction false} StillShownIff(w: World, device: Viewer, at: int)
    requires WorldInv(w, device) && HistoryInv(w, device) && w.device.cursor.Some? && w.clock <= at
    ensures var c := w.device.cursor.value;
            EligibleSetShown(w.(clock := at), device)
            <==> forall m :: m in w.server.messages && m.windowEnd > at ==> (WasSent(w, device, c, m) <==> EligibleNow(w, device, at, m))
  {
    var c := w.device.cursor.value;
    forall m | m in w.server.messages
      ensures ShowsCurrent(w.(clock := at), device, m) <==> (m.windowEnd > at ==> (WasSent(w, device, c, m) <==> EligibleNow(w, device, at, m)))
    {
      StillShowsIff(w, device, c, at, m);
    }
  }

  /**
   In any run: an answer from the cached tag leaves exactly the eligible set if and only if the messages
   sent by the device's cursor are, expired ones apart, the ones eligible now.
   */
  lemma {:induction false} CachedTagShowsTheEligibleSetIff(device: Viewer, cfg: Config, ops: seq<Timed>, at: int)
    requires cfg.deltaMode && FastPath(Run(device, cfg, ops), device, at)
    ensures Run(device, cfg, ops).device.cursor.Some?
    ensures var w := Run(device, cfg, ops);
            EligibleSetShown(Run(device, cfg, ops + [Timed(DeviceSync, at)]), device)
            <==> forall m :: m in w.server.messages && m.windowEnd > at ==>
                   (WasSent(w, device, w.device.cursor.value, m) <==> EligibleNow(w, device, at, m))
  {
    var w := Run(device, cfg, ops);
    RunsKeepTheInvariant(device, cfg, ops);
    HoldingsAreHistory(device, cfg, ops);
    TagComesWithCursor(device, cfg, ops);
    RunOfSync(device, cfg, ops, at);
    FastPathLeavesAll(w, device, cfg, at);
    StillShownIff(w, device, at);
  }

  // ---- After timely answers ----

  /** Eligible when the cursor was issued, as far as it has not expired. */
  ghost predicate EligibleThen(w: World, device: Viewer, c: Cursor, m: Message) {
    && ActiveAt(w, c, m) && EntryFor(m, device).Some? && InAudience(w, c.membership, m) && m.windowStart <= c.issuedAt
  }

  lemma {:induction false} SentIsEligibleThen(w: World, device: Viewer, c: Cursor, at: int, m: Message)
    requires WorldInv(w, device) && TimelyInv(w, device) && w.device.cursor == Some(c) && w.clock <= at
    requires m in w.server.messages && m.windowEnd > at
    ensures WasSent(w, device, c, m) <==> EligibleThen(w, device, c, m)
  {
    assert OpenedUnseen(w, device, c, m) ==> m.windowEnd <= c.issuedAt;
  }

  /** In a run of timely answers: if and only if the messages eligible when the cursor was issued are the ones eligible now. */
  lemma {:induction false} TimelyCachedTagShowsIff(device: Viewer, cfg: Config, ops: seq<Timed>, at: int)
    requires cfg.deltaMode && EveryAnswerTimely(device, cfg, ops) && FastPath(Run(device, cfg, ops), device, at)
    ensures Run(device, cfg, ops).device.cursor.Some?
    ensures var w := Run(device, cfg, ops);
            EligibleSetShown(Run(device, cfg, ops + [Timed(DeviceSync, at)]), device)
            <==> forall m :: m in w.server.messages && m.windowEnd > at ==>
                   (EligibleThen(w, device, w.device.cursor.value, m) <==> EligibleNow(w, device, at, m))
  {
    var w := Run(device, cfg, ops);
    CachedTagShowsTheEligibleSetIff(device, cfg, ops, at);
    RunsKeepTheInvariant(device, cfg, ops);
    TimelyRunsKeepTimely(device, cfg, ops);
    forall m | m in w.server.messages && m.windowEnd > at
      ensures WasSent(w, device, w.device.cursor.value, m) <==> EligibleThen(w, device, w.device.cursor.value, m)
    {
      SentIsEligibleThen(w, device, w.device.cursor.value, at, m);
    }
  }

  /** No state change and no membership change since the cursor. */
  ghost predicate QuietSince(w: World, device: Viewer, c: Cursor) {
    |w.writes| <= c.seqNo && MembershipOf(w.server, device.channel) == c.membership
  }

  lemma {:induction false} QuietIff(w: World, device: Viewer, c: Cursor, at: int, m: Message)
    requires KindsAgree(w.server.messages, w.writes) && QuietSince(w, device, c) && c.seqNo <= |w.writes| && c.issuedAt <= at
    requires m in w.server.messages && m.windowEnd > at
    ensures (EligibleThen(w, device, c, m) <==> EligibleNow(w, device, at, m))
            <==> (EligibleNow(w, device, at, m) ==> m.windowStart <= c.issuedAt)
  {
    NothingChangedSince(w.writes, m.id);
    UnchangedActive(w, c, m);
  }

  /** And in a quiet stretch of it the cached tag vouches for the eligible set until a window opens. */
  lemma {:induction false} QuietCachedTagShowsIff(device: Viewer, cfg: Config, ops: seq<Timed>, at: int)
    requires cfg.deltaMode && EveryAnswerTimely(device, cfg, ops) && FastPath(Run(device, cfg, ops), device, at)
    requires var w := Run(device, cfg, ops); w.device.cursor.Some? ==> QuietSince(w, device, w.device.cursor.value)
    ensures Run(device, cfg, ops).device.cursor.Some?
    ensures var w := Run(device, cfg, ops);
            EligibleSetShown(Run(device, cfg, ops + [Timed(DeviceSync, at)]), device)
            <==> forall m :: m in w.server.messages && EligibleNow(w, device, at, m) ==> m.windowStart <= w.device.cursor.value.issuedAt
  {
    var w := Run(device, cfg, ops);
    TimelyCachedTagShowsIff(device, cfg, ops, at);
    RunsKeepTheInvariant(device, cfg, ops);
    QuietRunIff(w, device, at);
  }

  lemma {:induction false} QuietRunIff(w: World, device: Viewer, at: int)
    requires KindsAgree(w.server.messages, w.writes)
    requires w.device.cursor.Some? && QuietSince(w, device, w.device.cursor.value)
    requires w.device.cursor.value.seqNo <= |w.writes| && w.device.cursor.value.issuedAt <= at
    ensures var c := w.device.cursor.value;
            (forall m :: m in w.server.messages && m.windowEnd > at ==> (EligibleThen(w, device, c, m) <==> EligibleNow(w, device, at, m)))
            <==> forall m :: m in w.server.messages && EligibleNow(w, device, at, m) ==> m.windowStart <= c.issuedAt
  {
    var c := w.device.cursor.value;
    forall m | m in w.server.messages
      ensures (m.windowEnd > at ==> (EligibleThen(w, device, c, m) <==> EligibleNow(w, device, at, m)))
              <==> (EligibleNow(w, device, at, m) ==> m.windowStart <= c.issuedAt)
    {
      if m.windowEnd > at { QuietIff(w, device, c, at, m); }
    }
  }
}
