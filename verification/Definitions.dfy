/**
 Message definitions and the one administrative transition (internal/definition/model,
 internal/definition/store UpdateState). Times are nanoseconds.
 */
module Definitions {
  import opened Wrappers

  datatype MessageState = Draft | Scheduled | Active | Paused | Completed | Archived

  /** The moves a message may make; staying put is always one of them. */
  predicate CanTransition(from: MessageState, to: MessageState) {
    || from == to
    || match from
       case Draft => to.Scheduled? || to.Active? || to.Archived?
       case Scheduled => to.Active? || to.Paused? || to.Archived?
       case Active => to.Paused? || to.Completed? || to.Archived?
       case Paused => to.Active? || to.Completed? || to.Archived?
       case Completed => to.Archived?
       case Archived => false
  }

  datatype SchemaVersion = SchemaVersion(major: int, minor: int)

  datatype ControlPolicy = ControlPolicy(perMessageCap: int, minInterval: int, exemptFromProjectCap: bool, requiresConfirmation: bool)

  datatype Variant = Variant(id: string, weight: int, language: string, schema: SchemaVersion, content: string)

  datatype Message = Message(
    id: string, state: MessageState, priority: int, windowStart: int, windowEnd: int, audience: Option<string>,
    version: int, policy: ControlPolicy, triggers: string, conditions: string,
    holdoutFraction: real, salt: string, variants: seq<Variant>)

  datatype AuditEntry = AuditEntry(messageId: string, from: MessageState, to: MessageState, actor: string, at: int)

  ghost predicate DistinctIds(ms: seq<Message>) {
    forall i, j :: 0 <= i < j < |ms| ==> ms[i].id != ms[j].id
  }

  /** The row with this id, as an index; `|ms|` when there is none. */
  function IndexOf(ms: seq<Message>, id: string): (i: nat)
    ensures i <= |ms|
    ensures i < |ms| ==> ms[i].id == id
    ensures forall k :: 0 <= k < i ==> ms[k].id != id
  {
    if ms == [] || ms[0].id == id then 0
    else
      var r := IndexOf(ms[1..], id);
      assert forall k :: 1 <= k < r + 1 ==> ms[k] == ms[1..][k - 1];
      r + 1
  }

  function Find(ms: seq<Message>, id: string): Option<Message> {
    var i := IndexOf(ms, id);
    if i < |ms| then Some(ms[i]) else None
  }

  lemma {:induction false} FindDistinct(ms: seq<Message>, m: Message)
    requires DistinctIds(ms) && m in ms
    ensures Find(ms, m.id) == Some(m)
  {
    var k :| 0 <= k < |ms| && ms[k] == m;
    assert IndexOf(ms, m.id) == k;
  }

  /** Whether UpdateState commits: the message exists and may make the move. */
  predicate Updatable(ms: seq<Message>, id: string, to: MessageState) {
    var m := Find(ms, id);
    m.Some? && CanTransition(m.value.state, to)
  }

  function WithState(ms: seq<Message>, id: string, to: MessageState): seq<Message>
    requires Updatable(ms, id, to)
  {
    var i := IndexOf(ms, id);
    ms[i := ms[i].(state := to)]
  }

  function AuditOf(ms: seq<Message>, id: string, to: MessageState, actor: string, at: int): AuditEntry
    requires Updatable(ms, id, to)
  {
    AuditEntry(id, Find(ms, id).value.state, to, actor, at)
  }
}
