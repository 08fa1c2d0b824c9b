/** What a delta carries, in any run: by what was written since the cursor was issued and which windows opened. */
module DeliveryDeltas {
  import opened Wrappers
  import opened Definitions
  import opened Payload
  import opened Delivery
  import opened DeliveryInvariants
  import opened DeliveryRuns
  import opened DeliveryKinds
  import ChangeLog

  /** The message's state was changed after the cursor was issued. */
  ghost predicate WrittenSince(w: World, c: Cursor, id: string) {
    exists i: nat :: c.seqNo <= i < |w.writes| && w.writes[i].messageId == id
  }

  /** Its window opened when the cursor was issued or later. */
  ghost predicate OpenedSince(w: World, c: Cursor, id: string) {
    exists m :: m in w.server.messages && m.id == id && m.windowStart >= c.issuedAt
  }

  ghost predicate InactiveNow(w: World, id: string) {
    exists m :: m in w.server.messages && m.id == id && !m.state.Active?
  }

  /**
   Of the payload the delta has, in its order, just the entries whose message was changed or opened since;
   and it withdraws just the messages changed since, inactive now and not in the payload.
   */
  ghost predicate CarriesJust(w: World, c: Cursor, payload: seq<Entry>, r: Response)
    requires r.Partial?
  {
    && (forall e :: e in r.entries <==> e in payload && (WrittenSince(w, c, e.messageId) || OpenedSince(w, c, e.messageId)))
    && (forall id :: id in r.tombstones <==> WrittenSince(w, c, id) && InactiveNow(w, id) && forall e :: e in payload ==> e.messageId != id)
  }

  lemma {:induction false} ChangedIffWritten(w: World, c: Cursor, id: string)
    requires c.seqNo >= 0
    ensures id in Changed(w.writes, c.seqNo) <==> WrittenSince(w, c, id)
  {
    if id in Changed(w.writes, c.seqNo) {
      var i :| 0 <= i < |w.writes| && c.seqNo <= i && w.writes[i].messageId == id;
      var k: nat := i;
      assert c.seqNo <= k < |w.writes| && w.writes[k].messageId == id;
    }
  }

  lemma {:induction false} OpenedIff(w: World, c: Cursor, id: string)
    requires DistinctIds(w.server.messages) && Known(w.server.messages, id)
    ensures WindowStart(w.server.messages, id) >= c.issuedAt <==> OpenedSince(w, c, id)
  {
    forall m | m in w.server.messages && m.id == id ensures WindowStart(w.server.messages, id) == m.windowStart {
      FindDistinct(w.server.messages, m);
    }
    var m :| m in w.server.messages && m.id == id;
  }

  /** A message that was written is inactive exactly if its last write says so. */
  lemma {:induction false} InactiveIff(w: World, c: Cursor, id: string)
    requires ServerInv(w) && c.seqNo >= 0 && WrittenSince(w, c, id) && LastKind(w.writes, id).Some?
    ensures LastKind(w.writes, id) == Some(ChangeLog.Tombstone) <==> InactiveNow(w, id)
  {
    var i: nat :| c.seqNo <= i < |w.writes| && w.writes[i].messageId == id;
    assert w.writes[i] in w.writes && Known(w.server.messages, id);
    var m :| m in w.server.messages && m.id == id;
    forall o | o in w.server.messages && o.id == id ensures o == m {
      SameIdSameMessage(w.server.messages, o, m);
    }
    assert InactiveNow(w, id) <==> !m.state.Active?;
    assert m.state.Active? <==> LastKind(w.writes, id) == Some(ChangeLog.Upsert);
    match LastKind(w.writes, id).value
    case Upsert =>
    case Tombstone =>
  }

  lemma {:induction false} EntriesAreKnown(w: World, device: Viewer, at: int, e: Entry)
    requires ServerInv(w) && w.clock <= at && BuildPayload(w.server, device, at).0.Ok? && e in BuildPayload(w.server, device, at).0.value.entries
    ensures Known(w.server.messages, e.messageId)
  {
    PlainContents(w, device, at);
    var p := BuildPayload(w.server, device, at).0.value;
    var m :| m in w.server.messages && EntryAt(m, Segments(w.server, MembershipOf(w.server, device.channel)), p.assembledAt, device) == Some(e);
    assert m.id == e.messageId;
  }

  lemma {:induction false} PartialCarries(w: World, device: Viewer, cfg: Config, at: int)
    requires WorldInv(w, device) && cfg.deltaMode && w.clock <= at
    requires Sync(w.server, device, w.device.tag, w.device.cursor, at, cfg).0.Partial?
    ensures BuildPayload(w.server, device, at).0.Ok? && w.device.cursor.Some?
    ensures CarriesJust(w, w.device.cursor.value, BuildPayload(w.server, device, at).0.value.entries,
                        Sync(w.server, device, w.device.tag, w.device.cursor, at, cfg).0)
  {
    ResponseParts(w, device, cfg, at);
    var r, es, c := Sync(w.server, device, w.device.tag, w.device.cursor, at, cfg).0, BuildPayload(w.server, device, at).0.value.entries, w.device.cursor.value;
    var latest := LatestKinds(ChangeLog.Since(w.server.log, c.seqNo));
    DeltaMembers(w.server.messages, es, latest, c.issuedAt);
    forall e ensures e in r.entries <==> e in es && (WrittenSince(w, c, e.messageId) || OpenedSince(w, c, e.messageId)) {
      if e in es {
        EntriesAreKnown(w, device, at, e);
        Latest(w, device, c, at, e.messageId);
        OpenedIff(w, c, e.messageId);
      }
    }
    forall id ensures id in r.tombstones <==> WrittenSince(w, c, id) && InactiveNow(w, id) && forall e :: e in es ==> e.messageId != id {
      Latest(w, device, c, at, id);
      NotAmong(es, id);
    }
  }

  lemma {:induction false} NotAmong(es: seq<Entry>, id: string)
    ensures id !in EntryIds(es) <==> forall e :: e in es ==> e.messageId != id
  {
  }

  lemma {:induction false} Latest(w: World, device: Viewer, c: Cursor, at: int, id: string)
    requires ServerInv(w) && CursorInv(w, device, c) && w.clock <= at && c.issuedAt >= at - ChangeLog.RETENTION
    ensures var latest := LatestKinds(ChangeLog.Since(w.server.log, c.seqNo));
            && (id in latest <==> WrittenSince(w, c, id))
            && (id in latest ==> (latest[id].Tombstone? <==> InactiveNow(w, id)))
  {
    HonouredChanges(w, device, c, at, id);
    ChangedIffWritten(w, c, id);
    if WrittenSince(w, c, id) { InactiveIff(w, c, id); }
  }

  /** In any run, a delta carries just that, and the cursor with it is of all that was written. */
  lemma {:induction false} DeltasCarryJust(device: Viewer, cfg: Config, ops: seq<Timed>, at: int)
    requires var w := Run(device, cfg, ops);
             cfg.deltaMode && w.clock <= at && Sync(w.server, device, w.device.tag, w.device.cursor, at, cfg).0.Partial?
    ensures var w := Run(device, cfg, ops);
            var r, built := Sync(w.server, device, w.device.tag, w.device.cursor, at, cfg).0, BuildPayload(w.server, device, at).0;
            && built.Ok? && w.device.cursor.Some? && CarriesJust(w, w.device.cursor.value, built.value.entries, r)
            && r.cursor == Some(Cursor(|w.writes|, MembershipOf(w.server, device.channel), at))
  {
    RunsKeepTheInvariant(device, cfg, ops);
    PartialCarries(Run(device, cfg, ops), device, cfg, at);
    ResponseParts(Run(device, cfg, ops), device, cfg, at);
  }
}
