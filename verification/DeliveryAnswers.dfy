/**
 Which answer a synchronisation gets, and for how long a tag answers for a payload: in any run, by what was
 built when and by what the device was sent.
 */
module DeliveryAnswers {
  import opened Wrappers
  import opened Definitions
  import opened Payload
  import opened Delivery
  import opened DeliveryInvariants
  import opened DeliveryRuns
  import opened DeliveryTimeliness
  import opened DeliveryTags
  import opened DeliveryFastPath
  import ChangeLog
  import Etag

  // ---- How long a tag lives ----

  /** The `k`-th operation is a synchronisation of the device, and the payload for it then has the tag. */
  ghost predicate BuiltAt(device: Viewer, cfg: Config, ops: seq<Timed>, k: nat, tag: string) {
    && k < |ops| && ops[k].op.DeviceSync? && Run(device, cfg, ops[..k]).clock <= ops[k].at
    && var built := BuildPayload(Run(device, cfg, ops[..k]).server, device, ops[k].at).0;
       built.Ok? && Etag.Stream(built.value.entries) == tag
  }

  /** The cached tag is that of the payload of operation `k`, and lives as long as configured from then on. */
  ghost predicate MadeAt(device: Viewer, cfg: Config, ops: seq<Timed>, cached: CachedTag, k: nat) {
    && BuiltAt(device, cfg, ops, k, cached.tag) && cached.expiresAt == ops[k].at + cfg.tagTtl
    && ops[k].at <= Run(device, cfg, ops).clock
  }

  ghost predicate CachedFrom(device: Viewer, cfg: Config, ops: seq<Timed>, cached: CachedTag) {
    exists k: nat :: MadeAt(device, cfg, ops, cached, k)
  }

  lemma {:induction false} BuiltBefore(device: Viewer, cfg: Config, ops: seq<Timed>, t: Timed, k: nat, tag: string)
    requires BuiltAt(device, cfg, ops, k, tag)
    ensures BuiltAt(device, cfg, ops + [t], k, tag) && (ops + [t])[k] == ops[k]
  {
    assert (ops + [t])[..k] == ops[..k];
  }

  lemma {:induction false} BuildLeavesTags(s: Server, viewer: Viewer, at: int)
    ensures BuildPayload(s, viewer, at).1.tags == s.tags
  {
  }

  lemma {:induction false} AnswerTagsOne(s: Server, viewer: Viewer, p: Built, tag: Option<string>, client: Option<Cursor>, at: int, cfg: Config)
    ensures Answer(s, viewer, p, tag, client, at, cfg).1.tags == s.tags[viewer.channel := CachedTag(Etag.Stream(p.entries), at + cfg.tagTtl)]
  {
  }

  lemma {:induction false} SyncTags(s: Server, viewer: Viewer, tag: Option<string>, client: Option<Cursor>, at: int, cfg: Config)
    ensures var tags' := Sync(s, viewer, tag, client, at, cfg).1.tags;
            || tags' == s.tags
            || (BuildPayload(s, viewer, at).0.Ok?
                && tags' == s.tags[viewer.channel := CachedTag(Etag.Stream(BuildPayload(s, viewer, at).0.value.entries), at + cfg.tagTtl)])
  {
    var (built, s') := BuildPayload(s, viewer, at);
    BuildLeavesTags(s, viewer, at);
    if built.Ok? { AnswerTagsOne(s', viewer, built.value, tag, client, at, cfg); }
  }

  lemma {:induction false} UpdateLeavesTags(s: Server, id: string, to: MessageState, actor: string, now: int)
    ensures StateUpdated(s, id, to, actor, now).tags == s.tags
  {
  }

  lemma {:induction false} OtherStepsLeaveTag(w: World, device: Viewer, cfg: Config, t: Timed)
    requires !t.op.DeviceSync?
    ensures var w' := Step(w, device, cfg, t.op, t.at);
            && (device.channel in w'.server.tags <==> device.channel in w.server.tags)
            && (device.channel in w.server.tags ==> w'.server.tags[device.channel] == w.server.tags[device.channel])
            && w.clock <= w'.clock
  {
    if Allowed(w, device, t.op, t.at) {
      match t.op
      case SetState(id, to, actor) => UpdateLeavesTags(w.server, id, to, actor, t.at);
      case OtherSync(v, tag, cursor) => SyncTags(w.server, v, tag, cursor, t.at, cfg);
      case _ =>
    }
  }

  lemma {:induction false} MadeStill(device: Viewer, cfg: Config, ops: seq<Timed>, t: Timed, cached: CachedTag, k: nat)
    requires MadeAt(device, cfg, ops, cached, k) && Run(device, cfg, ops).clock <= Run(device, cfg, ops + [t]).clock
    ensures MadeAt(device, cfg, ops + [t], cached, k)
  {
    BuiltBefore(device, cfg, ops, t, k, cached.tag);
  }

  lemma {:induction false} CachedStill(device: Viewer, cfg: Config, ops: seq<Timed>, t: Timed, cached: CachedTag)
    requires CachedFrom(device, cfg, ops, cached) && Run(device, cfg, ops).clock <= Run(device, cfg, ops + [t]).clock
    ensures CachedFrom(device, cfg, ops + [t], cached)
  {
    var k: nat :| MadeAt(device, cfg, ops, cached, k);
    MadeStill(device, cfg, ops, t, cached, k);
  }

  lemma {:induction false} StepForward(w: World, device: Viewer, cfg: Config, t: Timed)
    ensures w.clock <= Step(w, device, cfg, t.op, t.at).clock
  {
    if t.op.DeviceSync? { SyncedParts(w, device, cfg, t.at); } else { OtherStepsLeaveTag(w, device, cfg, t); }
  }

  lemma {:induction false} SyncCaches(device: Viewer, cfg: Config, front: seq<Timed>, at: int)
    requires var w := Run(device, cfg, front); w.clock <= at && device.channel in w.server.tags ==> CachedFrom(device, cfg, front, w.server.tags[device.channel])
    requires Run(device, cfg, front).clock <= at
    ensures var w' := Run(device, cfg, front + [Timed(DeviceSync, at)]);
            device.channel in w'.server.tags ==> CachedFrom(device, cfg, front + [Timed(DeviceSync, at)], w'.server.tags[device.channel])
  {
    var w, t := Run(device, cfg, front), Timed(DeviceSync, at);
    RunOfSync(device, cfg, front, at);
    SyncedParts(w, device, cfg, at);
    SyncTags(w.server, device, w.device.tag, w.device.cursor, at, cfg);
    var tags' := Synced(w, device, cfg, at).server.tags;
    if tags' == w.server.tags {
      if device.channel in tags' { CachedStill(device, cfg, front, t, tags'[device.channel]); }
    } else {
      assert (front + [t])[..|front|] == front;
      assert MadeAt(device, cfg, front + [t], tags'[device.channel], |front|);
    }
  }

  lemma {:induction false} TagsAreFromBuilds(device: Viewer, cfg: Config, ops: seq<Timed>)
    ensures var w := Run(device, cfg, ops); device.channel in w.server.tags ==> CachedFrom(device, cfg, ops, w.server.tags[device.channel])
  {
    if ops != [] {
      var front, last := ops[..|ops| - 1], ops[|ops| - 1];
      assert ops == front + [last];
      var w := Run(device, cfg, front);
      TagsAreFromBuilds(device, cfg, front);
      RunSnoc(device, cfg, front, last);
      StepForward(w, device, cfg, last);
      if last.op.DeviceSync? && w.clock <= last.at {
        SyncCaches(device, cfg, front, last.at);
      } else {
        if !last.op.DeviceSync? { OtherStepsLeaveTag(w, device, cfg, last); }
        if device.channel in w.server.tags { CachedStill(device, cfg, front, last, w.server.tags[device.channel]); }
      }
    }
  }

  /**
   In any run, a tag answers without a rebuild only for a payload with that tag made for the channel less
   than the configured lifetime ago.
   */
  lemma {:induction false} TagsAnswerForTheirLifetime(device: Viewer, cfg: Config, ops: seq<Timed>, at: int)
    requires FastPath(Run(device, cfg, ops), device, at)
    ensures exists k: nat :: BuiltWithin(device, cfg, ops, k, Run(device, cfg, ops).device.tag.value, at)
  {
    var w := Run(device, cfg, ops);
    TagsAreFromBuilds(device, cfg, ops);
    var cached := w.server.tags[device.channel];
    var k: nat :| MadeAt(device, cfg, ops, cached, k);
    WithinLifetime(device, cfg, ops, cached, k, at);
  }

  /** Such a payload, less than the configured lifetime before `at`. */
  ghost predicate BuiltWithin(device: Viewer, cfg: Config, ops: seq<Timed>, k: nat, tag: string, at: int) {
    BuiltAt(device, cfg, ops, k, tag) && ops[k].at <= at < ops[k].at + cfg.tagTtl
  }

  lemma {:induction false} WithinLifetime(device: Viewer, cfg: Config, ops: seq<Timed>, cached: CachedTag, k: nat, at: int)
    requires MadeAt(device, cfg, ops, cached, k) && Run(device, cfg, ops).clock <= at < cached.expiresAt
    ensures BuiltWithin(device, cfg, ops, k, cached.tag, at)
  {
  }

  /** And for all of it: after an answer, whatever happens that is not the device's own synchronisation, its next one within the lifetime rebuilds nothing. */
  lemma {:induction false} TagsLiveTheirLifetime(device: Viewer, cfg: Config, ops: seq<Timed>, t: int, more: seq<Timed>, at: int)
    requires cfg.deltaMode && Run(device, cfg, ops).clock <= t && Answered(Run(device, cfg, ops), device, cfg, t)
    requires forall i :: 0 <= i < |more| ==> !more[i].op.DeviceSync?
    requires Run(device, cfg, ops + [Timed(DeviceSync, t)] + more).clock <= at < t + cfg.tagTtl
    ensures var w := Run(device, cfg, ops + [Timed(DeviceSync, t)] + more);
            && w.device.tag.Some?
            && Sync(w.server, device, w.device.tag, w.device.cursor, at, cfg) == (Unchanged(w.device.tag.value), w.server)
  {
    TagAfterAnswer(device, cfg, ops, t);
    KeptTag(device, cfg, ops + [Timed(DeviceSync, t)], more, t);
  }

  /** The device has a tag, and it is cached for the channel until a lifetime after `t`. */
  ghost predicate HasTagFrom(w: World, device: Viewer, cfg: Config, t: int) {
    w.device.tag.Some? && device.channel in w.server.tags && w.server.tags[device.channel] == CachedTag(w.device.tag.value, t + cfg.tagTtl)
  }

  lemma {:induction false} AnswerGivesTag(w: World, device: Viewer, cfg: Config, t: int)
    requires Answered(w, device, cfg, t)
    ensures HasTagFrom(Synced(w, device, cfg, t), device, cfg, t)
  {
  }

  lemma {:induction false} TagAfterAnswer(device: Viewer, cfg: Config, ops: seq<Timed>, t: int)
    requires Run(device, cfg, ops).clock <= t && Answered(Run(device, cfg, ops), device, cfg, t)
    ensures HasTagFrom(Run(device, cfg, ops + [Timed(DeviceSync, t)]), device, cfg, t)
  {
    AnswerGivesTag(Run(device, cfg, ops), device, cfg, t);
    RunOfSync(device, cfg, ops, t);
  }

  lemma {:induction false} TagAfterOther(w: World, device: Viewer, cfg: Config, t: int, last: Timed)
    requires HasTagFrom(w, device, cfg, t) && !last.op.DeviceSync?
    ensures HasTagFrom(Step(w, device, cfg, last.op, last.at), device, cfg, t)
  {
    OtherStepsLeaveTag(w, device, cfg, last);
    OtherStepsKeepTag(w, device, cfg, last);
  }

  lemma {:induction false} KeptTag(device: Viewer, cfg: Config, start: seq<Timed>, more: seq<Timed>, t: int)
    requires HasTagFrom(Run(device, cfg, start), device, cfg, t)
    requires forall i :: 0 <= i < |more| ==> !more[i].op.DeviceSync?
    ensures HasTagFrom(Run(device, cfg, start + more), device, cfg, t)
  {
    if more == [] {
      assert start + more == start;
    } else {
      var front, last := more[..|more| - 1], more[|more| - 1];
      assert start + more == (start + front) + [last];
      KeptTag(device, cfg, start, front, t);
      RunSnoc(device, cfg, start + front, last);
      TagAfterOther(Run(device, cfg, start + front), device, cfg, t, last);
    }
  }

  // ---- A withdrawal is seen in time ----

  lemma {:induction false} StepWrites(w: World, device: Viewer, cfg: Config, t: Timed)
    ensures var w' := Step(w, device, cfg, t.op, t.at);
            w.writes <= w'.writes && w.clock <= w'.clock
            && forall i :: |w.writes| <= i < |w'.writes| ==> w.clock <= w'.writes[i].at
  {
    StepForward(w, device, cfg, t);
    if t.op.DeviceSync? { SyncedParts(w, device, cfg, t.at); }
  }

  /** What is written after the first `j` operations is not earlier than they are. */
  lemma {:induction false} LaterWrites(device: Viewer, cfg: Config, ops: seq<Timed>, j: nat)
    requires j <= |ops|
    ensures var w0, w := Run(device, cfg, ops[..j]), Run(device, cfg, ops);
            w0.writes <= w.writes && w0.clock <= w.clock
            && forall i :: |w0.writes| <= i < |w.writes| ==> w0.clock <= w.writes[i].at
    decreases |ops|
  {
    if j == |ops| {
      assert ops[..j] == ops;
    } else {
      var front, last := ops[..|ops| - 1], ops[|ops| - 1];
      assert ops == front + [last] && front[..j] == ops[..j];
      LaterWrites(device, cfg, front, j);
      RunSnoc(device, cfg, front, last);
      StepWrites(Run(device, cfg, front), device, cfg, last);
    }
  }

  /** The message is not active, and its state was not changed in the lifetime of a tag before `at`. */
  ghost predicate WithdrawnBefore(w: World, cfg: Config, m: Message, at: int) {
    !m.state.Active? && forall i :: 0 <= i < |w.writes| && w.writes[i].messageId == m.id ==> w.writes[i].at + cfg.tagTtl <= at
  }

  /** So it was inactive when a payload within that lifetime was made. */
  lemma {:induction false} InactiveThen(device: Viewer, cfg: Config, ops: seq<Timed>, k: nat, tag: string, at: int, m: Message)
    requires cfg.deltaMode && BuiltWithin(device, cfg, ops, k, tag, at)
    requires m in Run(device, cfg, ops).server.messages && WithdrawnBefore(Run(device, cfg, ops), cfg, m, at)
    ensures forall o :: o in Run(device, cfg, ops[..k]).server.messages && o.id == m.id ==> !o.state.Active?
  {
    var w0, w1, w := Run(device, cfg, ops[..k]), Run(device, cfg, ops[..k + 1]), Run(device, cfg, ops);
    assert ops[..k + 1] == ops[..k] + [ops[k]];
    RunSnoc(device, cfg, ops[..k], ops[k]);
    SyncedParts(w0, device, cfg, ops[k].at);
    LaterWrites(device, cfg, ops, k + 1);
    RunsKeepTheInvariant(device, cfg, ops[..k]);
    RunsKeepTheInvariant(device, cfg, ops);
    assert w1.writes == w0.writes && w1.clock == ops[k].at;
    assert m.id !in Changed(w.writes, |w0.writes|);
    KindUnchanged(w.writes, |w0.writes|, m.id);
    assert w.writes[..|w0.writes|] == w0.writes;
  }

  lemma {:induction false} NotInPayload(device: Viewer, cfg: Config, ops: seq<Timed>, k: nat, tag: string, at: int, m: Message)
    requires cfg.deltaMode && PlainCreations(ops) && BuiltWithin(device, cfg, ops, k, tag, at)
    requires m in Run(device, cfg, ops).server.messages && WithdrawnBefore(Run(device, cfg, ops), cfg, m, at)
    ensures var p := BuildPayload(Run(device, cfg, ops[..k]).server, device, ops[k].at).0.value;
            m.id !in EntryIds(p.entries) && Etag.Taggable(p.entries)
  {
    var w0 := Run(device, cfg, ops[..k]);
    InactiveThen(device, cfg, ops, k, tag, at, m);
    RunsKeepTheInvariant(device, cfg, ops[..k]);
    assert forall t :: t in ops[..k] ==> t in ops;
    TagsDescribeTheDevice(device, cfg, ops[..k]);
    BuiltWell(w0, device, ops[k].at);
    NoEntryForInactive(w0, device, BuildPayload(w0.server, device, ops[k].at).0.value, ops[k].at, m.id);
  }

  lemma {:induction false} NoEntryForInactive(w: World, device: Viewer, p: Built, at: int, id: string)
    requires WellBuilt(w, device, p, at) && forall o :: o in w.server.messages && o.id == id ==> !o.state.Active?
    ensures id !in EntryIds(p.entries)
  {
    var segments := Segments(w.server, MembershipOf(w.server, device.channel));
    forall e | e in p.entries ensures e.messageId != id {
      var m :| m in w.server.messages && EntryAt(m, segments, p.assembledAt, device) == Some(e);
      EntryTells(m, segments, p.assembledAt, device);
    }
  }

  /**
   A message withdrawn the lifetime of a tag ago, or longer, is not shown after an answer from the cached
   tag, in any run.
   */
  lemma {:induction false} WithdrawalsAreSeenInTime(device: Viewer, cfg: Config, ops: seq<Timed>, at: int, m: Message)
    requires cfg.deltaMode && PlainCreations(ops) && FastPath(Run(device, cfg, ops), device, at)
    requires m in Run(device, cfg, ops).server.messages && WithdrawnBefore(Run(device, cfg, ops), cfg, m, at)
    ensures m.id !in Unexpired(Run(device, cfg, ops + [Timed(DeviceSync, at)]).device.held, at)
  {
    var w := Run(device, cfg, ops);
    TagsAnswerForTheirLifetime(device, cfg, ops, at);
    var k: nat :| BuiltWithin(device, cfg, ops, k, w.device.tag.value, at);
    NotInPayload(device, cfg, ops, k, w.device.tag.value, at, m);
    TagsDescribeTheDevice(device, cfg, ops);
    RunsKeepTheInvariant(device, cfg, ops);
    RunOfSync(device, cfg, ops, at);
    FastPathLeavesAll(w, device, cfg, at);
    SameTagSameIds(Sent(device, cfg, ops), BuildPayload(Run(device, cfg, ops[..k]).server, device, ops[k].at).0.value.entries);
    NotHeld(w, device, Sent(device, cfg, ops), at, m);
  }

  lemma {:induction false} NotHeld(w: World, device: Viewer, sent: seq<Entry>, at: int, m: Message)
    requires WorldInv(w, device) && TagInv(w, sent) && w.device.tag.Some? && w.clock <= at
    requires m in w.server.messages && m.id !in EntryIds(sent)
    ensures m.id !in Unexpired(w.device.held, at)
  {
    assert HeldKnown(w, device, w.device.cursor.value, m);
    assert m.windowEnd > w.clock ==> HoldsSent(w, sent, m);
  }
}
