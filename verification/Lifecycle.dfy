/**
 The life of a message, over every run: which moves are open to it, that it never goes back, and that the
 audit trail tells how it came to be where it is.
 */
module Lifecycle {
  import opened Wrappers
  import opened Definitions
  import opened Payload
  import opened Delivery
  import opened DeliveryInvariants
  import opened DeliveryRuns
  import opened DeliveryTimeliness
  import opened DeliveryKinds
  import ChangeLog
  import Etag

  // ---- The moves ----

  /** How far along a state is. */
  function Stage(state: MessageState): nat {
    match state
    case Draft => 0
    case Scheduled => 1
    case Active => 2
    case Paused => 2
    case Completed => 3
    case Archived => 4
  }

  /** A chain of moves from one state to another. */
  ghost predicate Leads(path: seq<MessageState>, from: MessageState, to: MessageState) {
    && path != [] && path[0] == from && path[|path| - 1] == to
    && forall i :: 0 < i < |path| ==> CanTransition(path[i - 1], path[i])
  }

  /** A single move is forward and skips no display: only what was scheduled or active is paused, only what was active or paused completes. */
  lemma {:induction false} MovesIff(from: MessageState, to: MessageState)
    ensures CanTransition(from, to)
            <==> (&& Stage(from) <= Stage(to)
                  && (to.Paused? ==> from.Scheduled? || from.Active? || from.Paused?)
                  && (to.Completed? ==> from.Active? || from.Paused? || from.Completed?))
  {
  }

  lemma {:induction false} LaterIsNoEarlier(path: seq<MessageState>, from: MessageState, to: MessageState)
    requires Leads(path, from, to)
    ensures Stage(from) <= Stage(to)
    decreases |path|
  {
    if |path| > 1 {
      assert Leads(path[..|path| - 1], from, path[|path| - 2]);
      LaterIsNoEarlier(path[..|path| - 1], from, path[|path| - 2]);
    }
  }

  /** Some chain of moves leads from one state to another exactly when the other is no earlier. */
  lemma {:induction false} ReachableIff(from: MessageState, to: MessageState)
    ensures (exists path :: Leads(path, from, to)) <==> Stage(from) <= Stage(to)
  {
    if Stage(from) <= Stage(to) {
      if CanTransition(from, to) {
        assert Leads([from, to], from, to);
      } else {
        assert Leads([from, Active, to], from, to);
      }
    }
    forall path | Leads(path, from, to) ensures Stage(from) <= Stage(to) {
      LaterIsNoEarlier(path, from, to);
    }
  }

  // ---- The audit trail ----

  /** What the trail says a message is: what its latest entry moved it to, and a draft if it has none. */
  function Told(audit: seq<AuditEntry>, id: string): MessageState {
    if audit == [] then Draft
    else if audit[|audit| - 1].messageId == id then audit[|audit| - 1].to
    else Told(audit[..|audit| - 1], id)
  }

  /** Entry `k` moves its message on from where the trail before it says it was. */
  ghost predicate Continues(audit: seq<AuditEntry>, k: nat)
    requires k < |audit|
  {
    audit[k].from == Told(audit[..k], audit[k].messageId) && CanTransition(audit[k].from, audit[k].to)
  }

  /** Entry `k` and the `k`-th change recorded are of one move. */
  ghost predicate Recorded(audit: seq<AuditEntry>, writes: seq<ChangeLog.Write>, k: nat)
    requires k < |audit| && k < |writes|
  {
    writes[k] == ChangeLog.Write(audit[k].messageId, if audit[k].to.Active? then ChangeLog.Upsert else ChangeLog.Tombstone, audit[k].at)
  }

  ghost predicate AuditInv(w: World) {
    var audit := w.server.audit;
    && (forall m :: m in w.server.messages ==> Told(audit, m.id) == m.state)
    && (forall k :: 0 <= k < |audit| ==> Continues(audit, k))
    && |audit| == |w.writes|
    && (forall k :: 0 <= k < |audit| ==> Recorded(audit, w.writes, k))
  }

  lemma {:induction false} BuildLeavesAudit(s: Server, viewer: Viewer, at: int)
    ensures BuildPayload(s, viewer, at).1.audit == s.audit
  {
  }

  lemma {:induction false} AnswerLeavesAudit(s: Server, viewer: Viewer, p: Built, tag: Option<string>, client: Option<Cursor>, at: int, cfg: Config)
    ensures Answer(s, viewer, p, tag, client, at, cfg).1.audit == s.audit
  {
  }

  lemma {:induction false} SyncLeavesAudit(s: Server, viewer: Viewer, tag: Option<string>, client: Option<Cursor>, at: int, cfg: Config)
    ensures Sync(s, viewer, tag, client, at, cfg).1.audit == s.audit
  {
    var (built, s') := BuildPayload(s, viewer, at);
    BuildLeavesAudit(s, viewer, at);
    if built.Ok? { AnswerLeavesAudit(s', viewer, built.value, tag, client, at, cfg); }
  }

  lemma {:induction false} InvalidationKeepsTheRest(s: Server, id: string)
    ensures var s' := Invalidated(s, id); s'.messages == s.messages && s'.audit == s.audit
  {
  }

  /** What a state change writes; nothing when it is refused. */
  lemma {:induction false} UpdateWrites(s: Server, id: string, to: MessageState, actor: string, at: int)
    ensures var s' := StateUpdated(s, id, to, actor, at);
            if Updatable(s.messages, id, to)
            then && s'.messages == WithState(s.messages, id, to)
                 && s'.audit == s.audit + [AuditEntry(id, Find(s.messages, id).value.state, to, actor, at)]
            else s' == s
  {
    if Updatable(s.messages, id, to) {
      var moved := s.(messages := WithState(s.messages, id, to), audit := s.audit + [AuditOf(s.messages, id, to, actor, at)]);
      InvalidationKeepsTheRest(moved.(log := ChangeLog.Recorded(moved.log, id, KindFor(to), at)), id);
    }
  }

  /** Only creations and state changes touch messages, and only state changes the trail. */
  lemma {:induction false} OtherStepsLeaveMessages(w: World, device: Viewer, cfg: Config, t: Timed)
    requires ServerInv(w) && !t.op.Create? && !t.op.SetState?
    ensures var w' := Step(w, device, cfg, t.op, t.at);
            w'.server.messages == w.server.messages && w'.server.audit == w.server.audit && w'.writes == w.writes
  {
    if Allowed(w, device, t.op, t.at) {
      match t.op
      case OtherSync(v, tag, cursor) =>
        SyncLeavesAudit(w.server, v, tag, cursor, t.at, cfg);
        SyncKeepsStore(w, v, tag, cursor, cfg, t.at);
      case DeviceSync =>
        SyncLeavesAudit(w.server, device, w.device.tag, w.device.cursor, t.at, cfg);
        SyncKeepsStore(w, device, w.device.tag, w.device.cursor, cfg, t.at);
      case _ =>
    }
  }

  lemma {:induction false} ToldSnoc(audit: seq<AuditEntry>, e: AuditEntry, id: string)
    ensures Told(audit + [e], id) == if e.messageId == id then e.to else Told(audit, id)
  {
    assert (audit + [e])[..|audit|] == audit;
  }

  lemma {:induction false} ToldOfUnknown(audit: seq<AuditEntry>, id: string)
    requires forall e :: e in audit ==> e.messageId != id
    ensures Told(audit, id) == Draft
  {
    if audit != [] {
      assert audit[|audit| - 1] in audit;
      ToldOfUnknown(audit[..|audit| - 1], id);
    }
  }

  lemma {:induction false} CreateKeepsAudit(w: World, m: Message)
    requires ServerInv(w) && AuditInv(w) && !Known(w.server.messages, m.id)
    ensures AuditInv(w.(server := Created(w.server, m)))
  {
    var audit := w.server.audit;
    forall e | e in audit ensures e.messageId != m.id {
      var k :| 0 <= k < |audit| && audit[k] == e;
      assert Recorded(audit, w.writes, k) && w.writes[k] in w.writes;
    }
    ToldOfUnknown(audit, m.id);
  }

  lemma {:induction false} ContinuesSnoc(audit: seq<AuditEntry>, e: AuditEntry)
    requires forall k :: 0 <= k < |audit| ==> Continues(audit, k)
    requires e.from == Told(audit, e.messageId) && CanTransition(e.from, e.to)
    ensures forall k :: 0 <= k < |audit + [e]| ==> Continues(audit + [e], k)
  {
    forall k | 0 <= k < |audit + [e]| ensures Continues(audit + [e], k) {
      if k < |audit| {
        assert Continues(audit, k) && (audit + [e])[..k] == audit[..k];
      } else {
        assert (audit + [e])[..k] == audit;
      }
    }
  }

  lemma {:induction false} MovedAreTold(ms: seq<Message>, audit: seq<AuditEntry>, id: string, to: MessageState, e: AuditEntry)
    requires DistinctIds(ms) && Updatable(ms, id, to) && e.messageId == id && e.to == to
    requires forall m :: m in ms ==> Told(audit, m.id) == m.state
    ensures forall m :: m in WithState(ms, id, to) ==> Told(audit + [e], m.id) == m.state
  {
    WithStateMembers(ms, id, to);
    forall m | m in WithState(ms, id, to) ensures Told(audit + [e], m.id) == m.state {
      ToldSnoc(audit, e, m.id);
    }
  }

  lemma {:induction false} UpdateKeepsAudit(w: World, id: string, to: MessageState, actor: string, at: int)
    requires ServerInv(w) && AuditInv(w)
    ensures AuditInv(w.(server := StateUpdated(w.server, id, to, actor, at), writes := w.writes + WritesOf(w.server, id, to, at)))
  {
    var ms, audit := w.server.messages, w.server.audit;
    UpdateWrites(w.server, id, to, actor, at);
    if Updatable(ms, id, to) {
      var m := ms[IndexOf(ms, id)];
      var e := AuditEntry(id, m.state, to, actor, at);
      assert m in ms && Told(audit, id) == m.state;
      ContinuesSnoc(audit, e);
      MovedAreTold(ms, audit, id, to, e);
      var c := ChangeLog.Write(id, KindFor(to), at);
      RecordedSnoc(audit, w.writes, e, c);
      var w' := w.(server := StateUpdated(w.server, id, to, actor, at), writes := w.writes + WritesOf(w.server, id, to, at));
      assert w'.server.audit == audit + [e] && w'.writes == w.writes + [c];
    } else {
      assert w.writes + WritesOf(w.server, id, to, at) == w.writes;
    }
  }

  lemma {:induction false} RecordedSnoc(audit: seq<AuditEntry>, writes: seq<ChangeLog.Write>, e: AuditEntry, c: ChangeLog.Write)
    requires |audit| == |writes| && (forall k :: 0 <= k < |audit| ==> Recorded(audit, writes, k))
    requires c == ChangeLog.Write(e.messageId, if e.to.Active? then ChangeLog.Upsert else ChangeLog.Tombstone, e.at)
    ensures forall k :: 0 <= k < |audit + [e]| ==> Recorded(audit + [e], writes + [c], k)
  {
    forall k | 0 <= k < |audit + [e]| ensures Recorded(audit + [e], writes + [c], k) {
      assert k < |audit| ==> Recorded(audit, writes, k);
    }
  }

  lemma {:induction false} StepKeepsAudit(w: World, device: Viewer, cfg: Config, t: Timed)
    requires ServerInv(w) && AuditInv(w)
    ensures AuditInv(Step(w, device, cfg, t.op, t.at))
  {
    match t.op
    case Create(m) => if Allowed(w, device, t.op, t.at) { CreateKeepsAudit(w, m); }
    case SetState(id, to, actor) => if Allowed(w, device, t.op, t.at) { UpdateKeepsAudit(w, id, to, actor, t.at); }
    case _ => OtherStepsLeaveMessages(w, device, cfg, t);
  }

  /**
   In every run the audit trail is complete and true: every message is where its latest entry moved it, a
   draft before the first; every entry continues from the one before it by a permitted move; and entry for
   entry the trail is the change log's writes, an upsert exactly when the move is to Active.
   */
  lemma {:induction false} TheTrailIsTrue(device: Viewer, cfg: Config, ops: seq<Timed>)
    ensures AuditInv(Run(device, cfg, ops))
  {
    if ops != [] {
      TheTrailIsTrue(device, cfg, ops[..|ops| - 1]);
      RunsKeepServer(device, cfg, ops[..|ops| - 1]);
      StepKeepsAudit(Run(device, cfg, ops[..|ops| - 1]), device, cfg, ops[|ops| - 1]);
    }
  }

  // ---- Who did it ----

  /** Some operation of the run asked for this move, at that time and by that actor. */
  ghost predicate Asked(ops: seq<Timed>, e: AuditEntry) {
    Timed(SetState(e.messageId, e.to, e.actor), e.at) in ops
  }

  /** Every entry names the request that made it. */
  lemma {:induction false} EntriesNameTheirActors(device: Viewer, cfg: Config, ops: seq<Timed>)
    ensures forall e :: e in Run(device, cfg, ops).server.audit ==> Asked(ops, e)
  {
    if ops != [] {
      var front, last := ops[..|ops| - 1], ops[|ops| - 1];
      var w := Run(device, cfg, front);
      assert ops == front + [last];
      EntriesNameTheirActors(device, cfg, front);
      RunsKeepServer(device, cfg, front);
      assert forall e :: Asked(front, e) ==> Asked(ops, e);
      match last.op
      case Create(m) =>
      case SetState(id, to, actor) => UpdateWrites(w.server, id, to, actor, last.at);
      case _ => OtherStepsLeaveMessages(w, device, cfg, last);
    }
  }

  /** A request that was made in time and is permitted is entered, whatever comes later. */
  lemma {:induction false} PermittedMovesAreEntered(device: Viewer, cfg: Config, ops: seq<Timed>, id: string, to: MessageState, actor: string, at: int)
    requires var w := Run(device, cfg, ops); w.clock <= at && Updatable(w.server.messages, id, to)
    ensures var before, after := Run(device, cfg, ops).server, Run(device, cfg, ops + [Timed(SetState(id, to, actor), at)]).server;
            && after.audit == before.audit + [AuditEntry(id, Told(before.audit, id), to, actor, at)]
            && Told(after.audit, id) == to
  {
    var w, t := Run(device, cfg, ops), Timed(SetState(id, to, actor), at);
    TheTrailIsTrue(device, cfg, ops);
    RunSnoc(device, cfg, ops, t);
    UpdateWrites(w.server, id, to, actor, at);
    var m := w.server.messages[IndexOf(w.server.messages, id)];
    assert m in w.server.messages && m.id == id;
    ToldSnoc(w.server.audit, AuditEntry(id, m.state, to, actor, at), id);
  }

  // ---- Never back ----

  /** The same message, no earlier in its life. */
  ghost predicate Advanced(m: Message, m': Message) {
    m' == m.(state := m'.state) && Stage(m.state) <= Stage(m'.state)
  }

  ghost predicate HasAdvanced(ms: seq<Message>, m: Message) {
    exists m' :: m' in ms && Advanced(m, m')
  }

  lemma {:induction false} UpdateAdvances(ms: seq<Message>, id: string, to: MessageState, m: Message)
    requires Updatable(ms, id, to) && HasAdvanced(ms, m)
    ensures HasAdvanced(WithState(ms, id, to), m)
  {
    var m' :| m' in ms && Advanced(m, m');
    var j :| 0 <= j < |ms| && ms[j] == m';
    var i := IndexOf(ms, id);
    assert WithState(ms, id, to)[j] in WithState(ms, id, to);
    if i == j { MovesIff(m'.state, to); }
    assert Advanced(m, WithState(ms, id, to)[j]);
  }

  lemma {:induction false} StepAdvances(w: World, device: Viewer, cfg: Config, t: Timed, m: Message)
    requires ServerInv(w) && HasAdvanced(w.server.messages, m)
    ensures HasAdvanced(Step(w, device, cfg, t.op, t.at).server.messages, m)
  {
    var ms := w.server.messages;
    match t.op
    case Create(c) =>
      var m' :| m' in ms && Advanced(m, m');
      assert m' in ms + [c.(state := Draft)];
    case SetState(id, to, actor) =>
      UpdateWrites(w.server, id, to, actor, t.at);
      if Updatable(ms, id, to) { UpdateAdvances(ms, id, to, m); }
    case _ => OtherStepsLeaveMessages(w, device, cfg, t);
  }

  /** A message, once created, is there for good, changed in nothing but its state, and its state never goes back. */
  lemma {:induction false} MessagesOnlyAdvance(device: Viewer, cfg: Config, ops: seq<Timed>, k: nat, m: Message)
    requires k <= |ops| && m in Run(device, cfg, ops[..k]).server.messages
    ensures HasAdvanced(Run(device, cfg, ops).server.messages, m)
    decreases |ops|
  {
    if k == |ops| {
      assert ops[..k] == ops && Advanced(m, m);
    } else {
      var front := ops[..|ops| - 1];
      assert front[..k] == ops[..k];
      MessagesOnlyAdvance(device, cfg, front, k, m);
      RunsKeepServer(device, cfg, front);
      StepAdvances(Run(device, cfg, front), device, cfg, ops[|ops| - 1], m);
    }
  }
}
