/**
 A withdrawal the cached tag hides: a campaign is paused right after a device was sent it, and the
 device's next synchronisation is told that nothing changed.
 */
module DeliveryWithdrawal {
  import opened Wrappers
  import opened Definitions
  import opened Payload
  import opened Delivery
  import opened DeliveryInvariants
  import opened DeliveryRuns
  import opened DeliveryTimeliness
  import opened DeliveryFastPath
  import opened DeliveryLoss
  import ChangeLog

  const OP_WITHDRAW := Timed(SetState("a", Paused, ""), 20)

  /** The losing run as far as the first synchronisation, and the campaign paused at once. */
  ghost function WithdrawnRun(): seq<Timed> {
    SyncedRun() + [OP_WITHDRAW]
  }

  lemma {:induction false} ReachWithdrawn()
    ensures PausedAt(Run(DEVICE, SETTINGS, WithdrawnRun()), 20)
  {
    ReachFirstSynced();
    RunSnoc(DEVICE, SETTINGS, SyncedRun(), OP_WITHDRAW);
    PauseStep(Run(DEVICE, SETTINGS, SyncedRun()), 20);
  }

  lemma {:induction false} TagStillCached(w: World)
    requires PausedAt(w, 20)
    ensures FastPath(w, DEVICE, 20)
  {
  }

  lemma {:induction false} ActiveAtTheCursor(w: World)
    requires PausedAt(w, 20)
    ensures ActiveAt(w, Cursor(2, {0}, 20), w.server.messages[0])
  {
    var ws := w.writes[..2];
    assert ws == [ChangeLog.Write("a", ChangeLog.Upsert, 1), ChangeLog.Write("b", ChangeLog.Upsert, 1)];
    assert ws[..1] == [ChangeLog.Write("a", ChangeLog.Upsert, 1)];
    assert "a"[0] != "b"[0];
    assert LastKind(ws, "a") == LastKind(ws[..1], "a");
  }

  lemma {:induction false} WithdrawnWasSent(w: World)
    requires PausedAt(w, 20)
    ensures WasSent(w, DEVICE, Cursor(2, {0}, 20), w.server.messages[0]) && !EligibleNow(w, DEVICE, 20, w.server.messages[0])
  {
    ActiveAtTheCursor(w);
    PausedCampaign(w);
    PausedHasAnEntry(w.server.messages[0]);
    SentButInactive(w, Cursor(2, {0}, 20), w.server.messages[0]);
  }

  lemma {:induction false} PausedCampaign(w: World)
    requires PausedAt(w, 20)
    ensures SentThen(w, Cursor(2, {0}, 20), w.server.messages[0])
  {
    assert SegmentIds(w.server.segments, {0}) == {"g"};
  }

  /** Open in the device's segments when the cursor's payload was assembled, and not active now. */
  ghost predicate SentThen(w: World, c: Cursor, m: Message) {
    && m.windowStart <= w.builtAt && m.id !in w.lost
    && InAudience(w, c.membership, m) && !m.state.Active?
  }

  lemma {:induction false} SentButInactive(w: World, c: Cursor, m: Message)
    requires ActiveAt(w, c, m) && SentThen(w, c, m) && EntryFor(m, DEVICE).Some?
    ensures WasSent(w, DEVICE, c, m) && !EligibleNow(w, DEVICE, 20, m)
  {
  }

  lemma {:induction false} PausedHasAnEntry(m: Message)
    requires m == Campaign(m.id, Paused, m.windowStart)
    ensures EntryFor(m, DEVICE).Some?
  {
    EntryIgnoresState(Campaign(m.id, Active, m.windowStart), Paused, DEVICE);
    EntryOfCampaign(Campaign(m.id, Active, m.windowStart));
  }

  /** The synchronisation is answered from the cached tag, and the device goes on showing a paused campaign. */
  lemma {:induction false} TheCachedTagHidesAWithdrawal()
    ensures var before, after := Run(DEVICE, SETTINGS, WithdrawnRun()), Run(DEVICE, SETTINGS, WithdrawnRun() + [Timed(DeviceSync, 20)]);
            && FastPath(before, DEVICE, 20) && !EligibleSetShown(after, DEVICE)
            && exists m :: m in after.server.messages && m.state.Paused? && m.id in Unexpired(after.device.held, after.clock)
  {
    var w := Run(DEVICE, SETTINGS, WithdrawnRun());
    ReachWithdrawn();
    TagStillCached(w);
    WithdrawnWasSent(w);
    CachedTagShowsTheEligibleSetIff(DEVICE, SETTINGS, WithdrawnRun(), 20);
    RunsKeepTheInvariant(DEVICE, SETTINGS, WithdrawnRun());
    HoldingsAreHistory(DEVICE, SETTINGS, WithdrawnRun());
    RunOfSync(DEVICE, SETTINGS, WithdrawnRun(), 20);
    FastPathLeavesAll(w, DEVICE, SETTINGS, 20);
    StillHeld(w);
  }

  lemma {:induction false} StillHeld(w: World)
    requires PausedAt(w, 20) && WorldInv(w, DEVICE) && HistoryInv(w, DEVICE)
    requires WasSent(w, DEVICE, Cursor(2, {0}, 20), w.server.messages[0])
    ensures w.server.messages[0] in w.server.messages && w.server.messages[0].id in Unexpired(w.device.held, 20)
  {
    var m := w.server.messages[0];
    assert HeldKnown(w, DEVICE, w.device.cursor.value, m);
    assert m.id in w.device.held <==> WasSent(w, DEVICE, w.device.cursor.value, m);
  }
}
