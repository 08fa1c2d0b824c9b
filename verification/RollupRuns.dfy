/**
 Runs of both rollup consumers over one set of tables: the one that reads the event table and commits
 its offset with the rollups, and the one that reads the log and commits its position in a second
 system (internal/event/consumer/logconsumer.go), with crashes and errors at each point, restarts,
 and positions moved by hand.
 */
module RollupRuns {
  import opened Wrappers
  import opened Rollups
  import Hll

  /**
   `rows` is the event table in receipt order, `records` one partition of the log. `position` is where the
   log client reads next, `committed` where it starts after a restart. `delivered` records, for the
   statements, every event of every committed batch.
   */
  datatype World = World(
    tables: Tables, rows: seq<Event>, nextSeq: nat, offsets: map<string, int>,
    records: seq<Event>, position: nat, committed: nat, delivered: seq<Event>)

  const START := World(EMPTY, [], 1, map[], [], 0, 0, [])

  datatype Outcome = CrashBefore | ErrorBefore | CrashBetween | ErrorBetween | Completes

  datatype Op =
    | Accept(e: Event)
    | Publish(e: Event)
    | RunOnce(name: string, limit: nat, commits: bool)
    | RunFromLog(available: nat, outcome: Outcome)
    | Restart
    | SetOffset(name: string, to: int)
    | SeekLog(target: nat)

  function OffsetOf(offsets: map<string, int>, name: string): int {
    if name in offsets then offsets[name] else 0
  }

  /** `WHERE seq > last ORDER BY seq`, the rows being in that order. */
  function Pending(rows: seq<Event>, last: int): seq<Event> {
    if rows == [] then []
    else Pending(rows[..|rows| - 1], last) + if rows[|rows| - 1].seqNo > last then [rows[|rows| - 1]] else []
  }

  function Batch(rows: seq<Event>, last: int, limit: nat): seq<Event> {
    var pending := Pending(rows, last);
    if limit < |pending| then pending[..limit] else pending
  }

  /** A second row under a known id is not inserted. */
  function Accepted(w: World, e: Event): World {
    if e.id in Ids(w.rows) then w
    else w.(rows := w.rows + [e.(seqNo := w.nextSeq)], nextSeq := w.nextSeq + 1)
  }

  function Rolled(w: World, digest: Digest, es: seq<Event>): World
    requires SizedSketches(w.tables)
  {
    w.(tables := AppliedAll(w.tables, digest, es), delivered := w.delivered + es)
  }

  /** Rollups and offset in one transaction: all of it or none. */
  function RanOnce(w: World, digest: Digest, name: string, limit: nat): World
    requires SizedSketches(w.tables)
  {
    var es := Batch(w.rows, OffsetOf(w.offsets, name), limit);
    if es == [] then w.(offsets := w.offsets[name := OffsetOf(w.offsets, name)])
    else Rolled(w, digest, es).(offsets := w.offsets[name := es[|es| - 1].seqNo])
  }

  /** The records the next poll fetches. */
  function Polled(w: World, available: nat): seq<Event>
    requires w.position <= |w.records|
  {
    if w.position + available <= |w.records| then w.records[w.position..w.position + available] else w.records[w.position..]
  }

  /** Polling moves the client on, whatever becomes of the batch; a crash forgets where it was. */
  function RanFromLog(w: World, digest: Digest, available: nat, outcome: Outcome): World
    requires SizedSketches(w.tables) && w.position <= |w.records|
  {
    var es := Polled(w, available);
    var next := w.position + |es|;
    if es == [] then w
    else
      match outcome
      case CrashBefore => w.(position := w.committed)
      case ErrorBefore => w.(position := next)
      case CrashBetween => Rolled(w, digest, es).(position := w.committed)
      case ErrorBetween => Rolled(w, digest, es).(position := next)
      case Completes => Rolled(w, digest, es).(position := next, committed := next)
  }

  ghost predicate Allowed(w: World, op: Op) {
    op.SeekLog? ==> op.target <= |w.records|
  }

  ghost predicate Sound(w: World) {
    SizedSketches(w.tables) && w.position <= |w.records| && w.committed <= |w.records|
  }

  ghost function Step(w: World, digest: Digest, op: Op): World
    requires Sound(w)
  {
    if !Allowed(w, op) then w
    else
      match op
      case Accept(e) => Accepted(w, e)
      case Publish(e) => w.(records := w.records + [e])
      case RunOnce(name, limit, commits) => if commits then RanOnce(w, digest, name, limit) else w
      case RunFromLog(available, outcome) => RanFromLog(w, digest, available, outcome)
      case Restart => w.(position := w.committed)
      case SetOffset(name, to) => w.(offsets := w.offsets[name := to])
      case SeekLog(to) => w.(position := to, committed := to)
  }

  lemma {:induction false} StepIsSound(w: World, digest: Digest, op: Op)
    requires Sound(w)
    ensures Sound(Step(w, digest, op))
  {
  }

  ghost function Run(digest: Digest, ops: seq<Op>): (w: World)
    ensures Sound(w)
  {
    if ops == [] then START
    else
      StepIsSound(Run(digest, ops[..|ops| - 1]), digest, ops[|ops| - 1]);
      Step(Run(digest, ops[..|ops| - 1]), digest, ops[|ops| - 1])
  }

  // ---- Exactly once, whatever happens ----

  ghost predicate TablesAreDeliveries(w: World, digest: Digest) {
    w.tables == AppliedAll(EMPTY, digest, w.delivered)
  }

  lemma {:induction false} RolledKeeps(w: World, digest: Digest, es: seq<Event>)
    requires SizedSketches(w.tables) && TablesAreDeliveries(w, digest)
    ensures TablesAreDeliveries(Rolled(w, digest, es), digest)
  {
    AppliedAppend(EMPTY, digest, w.delivered, es);
  }

  lemma {:induction false} StepKeepsDeliveries(w: World, digest: Digest, op: Op)
    requires Sound(w) && TablesAreDeliveries(w, digest)
    ensures TablesAreDeliveries(Step(w, digest, op), digest)
  {
    match op
    case RunOnce(name, limit, commits) => RolledKeeps(w, digest, Batch(w.rows, OffsetOf(w.offsets, name), limit));
    case RunFromLog(available, outcome) => RolledKeeps(w, digest, Polled(w, available));
    case _ =>
  }

  lemma {:induction false} RunsKeepDeliveries(digest: Digest, ops: seq<Op>)
    ensures TablesAreDeliveries(Run(digest, ops), digest)
  {
    if ops != [] {
      RunsKeepDeliveries(digest, ops[..|ops| - 1]);
      StepKeepsDeliveries(Run(digest, ops[..|ops| - 1]), digest, ops[|ops| - 1]);
    }
  }

  /**
   Over any interleaving of both consumers, with any crashes, errors, replays and resets, each count is
   the number of distinct applied event ids with its key, and each sketch that of the channels reached.
   */
  lemma {:induction false} CountsAreExactInEveryRun(digest: Digest, ops: seq<Op>, k: Key, reach: ReachKey)
    ensures var w := Run(digest, ops);
            && w.tables.applied == Ids(w.delivered)
            && CountOf(w.tables.counts, k) == |IdsToward(w.delivered, k)|
            && Hll.SketchOf(SketchFor(w.tables, reach), HashesReached(w.delivered, digest, reach))
  {
    RunsKeepDeliveries(digest, ops);
    AppliedAreDelivered(digest, Run(digest, ops).delivered);
    CountsAreExact(digest, Run(digest, ops).delivered, k);
    SketchesAreExact(digest, Run(digest, ops).delivered, reach);
  }

  // ---- Nothing skipped ----

  ghost predicate Increasing(rows: seq<Event>) {
    forall i, j :: 0 <= i < j < |rows| ==> rows[i].seqNo < rows[j].seqNo
  }

  /** Rows carry the sequence numbers handed out so far, and the client reads no earlier than its group's position. */
  ghost predicate Shaped(w: World) {
    && Increasing(w.rows) && w.nextSeq > 0
    && (forall i :: 0 <= i < |w.rows| ==> 0 < w.rows[i].seqNo < w.nextSeq)
    && w.committed <= w.position
  }

  ghost predicate AppliedUpTo(rows: seq<Event>, last: int, applied: set<string>) {
    forall i :: 0 <= i < |rows| && rows[i].seqNo <= last ==> rows[i].id in applied
  }

  ghost predicate RecordsApplied(records: seq<Event>, from: nat, to: nat, applied: set<string>)
    requires to <= |records|
  {
    forall i :: from <= i < to ==> records[i].id in applied
  }

  /** Nothing is skipped: every row up to an offset, and every record before the group's position, has been applied. */
  ghost predicate NothingSkipped(w: World)
    requires Sound(w)
  {
    && (forall name :: name in w.offsets ==> AppliedUpTo(w.rows, w.offsets[name], w.tables.applied))
    && RecordsApplied(w.records, 0, w.committed, w.tables.applied)
  }

  /**
   What a step must meet to skip nothing, before it is taken: the records the client read past since the
   group's position are applied or in the batch it completes; a position moved by hand passes only what
   is applied; and a row is not put behind an offset that was moved ahead of the table.
   */
  ghost predicate Guard(w: World, op: Op)
    requires Sound(w) && Allowed(w, op)
  {
    match op
    case RunFromLog(available, Completes) =>
      Polled(w, available) != [] ==> RecordsApplied(w.records, w.committed, w.position, w.tables.applied + Ids(Polled(w, available)))
    case SeekLog(target) => RecordsApplied(w.records, 0, target, w.tables.applied)
    case SetOffset(name, to) => AppliedUpTo(w.rows, to, w.tables.applied)
    case Accept(e) => e.id in Ids(w.rows) || e.id in w.tables.applied || forall name :: name in w.offsets ==> w.offsets[name] < w.nextSeq
    case _ => true
  }

  lemma {:induction false} AppliedGrow(t: Tables, digest: Digest, es: seq<Event>)
    requires SizedSketches(t)
    ensures AppliedAll(t, digest, es).applied == t.applied + Ids(es)
  {
    if es != [] {
      AppliedGrow(t, digest, es[..|es| - 1]);
      IdsSnoc(es);
    }
  }

  /** The pending rows are those from `k` on. */
  ghost predicate CutAt(rows: seq<Event>, last: int, k: nat) {
    && k <= |rows| && Pending(rows, last) == rows[k..]
    && (forall i :: 0 <= i < k ==> rows[i].seqNo <= last)
    && (forall i :: k <= i < |rows| ==> rows[i].seqNo > last)
  }

  lemma {:induction false} PendingSuffix(rows: seq<Event>, last: int) returns (k: nat)
    requires Increasing(rows)
    ensures CutAt(rows, last, k)
  {
    if rows == [] {
      k := 0;
    } else {
      var front, row := rows[..|rows| - 1], rows[|rows| - 1];
      var k' := PendingSuffix(front, last);
      assert k' < |front| ==> rows[|front| - 1].seqNo < rows[|front|].seqNo && front[|front| - 1].seqNo > last;
      assert rows == front + [row];
      if row.seqNo > last {
        k := k';
        CutGrows(front, row, last, k');
      } else {
        k := |rows|;
        CutMoves(front, row, last);
      }
    }
  }

  lemma {:induction false} PendingSnoc(front: seq<Event>, row: Event, last: int)
    ensures Pending(front + [row], last) == Pending(front, last) + if row.seqNo > last then [row] else []
  {
    assert (front + [row])[..|front + [row]| - 1] == front;
  }

  lemma {:induction false} CutGrows(front: seq<Event>, row: Event, last: int, k: nat)
    requires CutAt(front, last, k) && row.seqNo > last
    ensures CutAt(front + [row], last, k)
  {
    PendingSnoc(front, row, last);
    SuffixSnoc(front, row, k);
  }

  lemma {:induction false} SuffixSnoc(front: seq<Event>, row: Event, k: nat)
    requires k <= |front|
    ensures (front + [row])[k..] == front[k..] + [row]
  {
  }

  lemma {:induction false} CutMoves(front: seq<Event>, row: Event, last: int)
    requires CutAt(front, last, |front|) && row.seqNo <= last
    ensures CutAt(front + [row], last, |front| + 1)
  {
    PendingSnoc(front, row, last);
    assert front[|front|..] == [] && (front + [row])[|front| + 1..] == [];
  }

  /** A batch is a stretch of rows, from the first pending one on. */
  lemma {:induction false} BatchIsAStretch(rows: seq<Event>, last: int, limit: nat) returns (k: nat)
    requires Increasing(rows)
    ensures var b := Batch(rows, last, limit);
            k + |b| <= |rows| && b == rows[k..k + |b|]
    ensures forall i :: 0 <= i < k ==> rows[i].seqNo <= last
    ensures forall i :: k <= i < |rows| ==> rows[i].seqNo > last
  {
    k := PendingSuffix(rows, last);
    var b := Batch(rows, last, limit);
    assert rows[k..][..|b|] == rows[k..k + |b|];
  }

  /** Up to a batch's last row there is nothing but what came before the batch and the batch. */
  lemma {:induction false} BatchCovers(rows: seq<Event>, last: int, limit: nat, applied: set<string>)
    requires Increasing(rows) && Batch(rows, last, limit) != []
    requires AppliedUpTo(rows, last, applied)
    ensures var b := Batch(rows, last, limit);
            && AppliedUpTo(rows, b[|b| - 1].seqNo, applied + Ids(b))
            && b[|b| - 1] in rows && b[|b| - 1].seqNo > last
  {
    var b := Batch(rows, last, limit);
    var k := BatchIsAStretch(rows, last, limit);
    assert b[|b| - 1] == rows[k + |b| - 1];
    forall i | 0 <= i < |rows| && rows[i].seqNo <= b[|b| - 1].seqNo ensures rows[i].id in applied + Ids(b) {
      if i >= k {
        assert i < k + |b|;
        assert b[i - k] == rows[i];
      }
    }
  }

  lemma {:induction false} StepIsShaped(w: World, digest: Digest, op: Op)
    requires Sound(w) && Shaped(w)
    ensures Shaped(Step(w, digest, op))
  {
  }

  lemma {:induction false} RunIsShaped(digest: Digest, ops: seq<Op>)
    ensures Shaped(Run(digest, ops))
  {
    if ops != [] {
      RunIsShaped(digest, ops[..|ops| - 1]);
      StepIsShaped(Run(digest, ops[..|ops| - 1]), digest, ops[|ops| - 1]);
    }
  }

  lemma {:induction false} RunOnceSkipsNothing(w: World, digest: Digest, name: string, limit: nat)
    requires Sound(w) && Shaped(w) && NothingSkipped(w)
    ensures NothingSkipped(RanOnce(w, digest, name, limit))
  {
    var last := OffsetOf(w.offsets, name);
    var es, w' := Batch(w.rows, last, limit), RanOnce(w, digest, name, limit);
    assert AppliedUpTo(w.rows, last, w.tables.applied);
    if es != [] {
      AppliedGrow(w.tables, digest, es);
      BatchCovers(w.rows, last, limit, w.tables.applied);
    }
    forall n | n in w'.offsets ensures AppliedUpTo(w'.rows, w'.offsets[n], w'.tables.applied) {
      if n in w.offsets && n != name { assert AppliedUpTo(w.rows, w.offsets[n], w.tables.applied); }
    }
  }

  /**
   Completing a batch skips nothing if and only if every record between the group's position and the
   client's is applied already or in the batch: exactly then all records before the new position are applied.
   */
  lemma {:induction false} CompletingSkipsNothingIff(w: World, digest: Digest, available: nat)
    requires Sound(w) && Shaped(w) && RecordsApplied(w.records, 0, w.committed, w.tables.applied) && Polled(w, available) != []
    ensures var w', es := RanFromLog(w, digest, available, Completes), Polled(w, available);
            && Sound(w')
            && (RecordsApplied(w'.records, 0, w'.committed, w'.tables.applied)
                <==> RecordsApplied(w.records, w.committed, w.position, w.tables.applied + Ids(es)))
  {
    var es, w' := Polled(w, available), RanFromLog(w, digest, available, Completes);
    AppliedGrow(w.tables, digest, es);
    forall i | w.position <= i < w'.committed ensures w.records[i].id in Ids(es) {
      assert es[i - w.position] == w.records[i];
    }
  }

  lemma {:induction false} LogRunSkipsNothingIff(w: World, digest: Digest, available: nat, outcome: Outcome)
    requires Sound(w) && Shaped(w) && NothingSkipped(w)
    ensures Sound(RanFromLog(w, digest, available, outcome))
    ensures NothingSkipped(RanFromLog(w, digest, available, outcome)) <==> Guard(w, RunFromLog(available, outcome))
  {
    var es, w' := Polled(w, available), RanFromLog(w, digest, available, outcome);
    if es != [] {
      AppliedGrow(w.tables, digest, es);
      CompletingSkipsNothingIff(w, digest, available);
      forall n | n in w'.offsets ensures AppliedUpTo(w'.rows, w'.offsets[n], w'.tables.applied) {
        assert AppliedUpTo(w.rows, w.offsets[n], w.tables.applied);
      }
    }
  }

  lemma {:induction false} AcceptSkipsNothingIff(w: World, e: Event)
    requires Sound(w) && Shaped(w) && NothingSkipped(w)
    ensures NothingSkipped(Accepted(w, e)) <==> Guard(w, Accept(e))
  {
    var w' := Accepted(w, e);
    if e.id !in Ids(w.rows) {
      forall n | n in w'.offsets
        ensures AppliedUpTo(w'.rows, w'.offsets[n], w'.tables.applied) <==> e.id in w.tables.applied || w.offsets[n] < w.nextSeq
      {
        assert AppliedUpTo(w.rows, w.offsets[n], w.tables.applied);
        assert w'.rows[|w.rows|].id == e.id;
      }
    }
  }

  lemma {:induction false} SetOffsetSkipsNothingIff(w: World, digest: Digest, name: string, to: int)
    requires Sound(w) && NothingSkipped(w)
    ensures NothingSkipped(Step(w, digest, SetOffset(name, to))) <==> Guard(w, SetOffset(name, to))
  {
    var w' := Step(w, digest, SetOffset(name, to));
    assert name in w'.offsets && w'.offsets[name] == to;
    forall n | n in w'.offsets && n != name ensures AppliedUpTo(w'.rows, w'.offsets[n], w'.tables.applied) {
      assert AppliedUpTo(w.rows, w.offsets[n], w.tables.applied);
    }
  }

  /** Whatever the step, it skips something exactly when it does not meet its guard. */
  lemma {:induction false} StepSkipsNothingIff(w: World, digest: Digest, op: Op)
    requires Sound(w) && Shaped(w) && NothingSkipped(w) && Allowed(w, op)
    ensures Sound(Step(w, digest, op))
    ensures NothingSkipped(Step(w, digest, op)) <==> Guard(w, op)
  {
    StepIsSound(w, digest, op);
    match op
    case RunOnce(name, limit, commits) => RunOnceSkipsNothing(w, digest, name, limit);
    case RunFromLog(available, outcome) => LogRunSkipsNothingIff(w, digest, available, outcome);
    case SetOffset(name, to) => SetOffsetSkipsNothingIff(w, digest, name, to);
    case Accept(e) => AcceptSkipsNothingIff(w, e);
    case _ =>
  }

  /** At no point of the run has anything been skipped. */
  ghost predicate NeverSkips(digest: Digest, ops: seq<Op>) {
    NothingSkipped(Run(digest, ops)) && (ops == [] || NeverSkips(digest, ops[..|ops| - 1]))
  }

  /** Every step of the run met its guard. */
  ghost predicate Guarded(digest: Digest, ops: seq<Op>) {
    ops == []
    || var w, op := Run(digest, ops[..|ops| - 1]), ops[|ops| - 1];
       Guarded(digest, ops[..|ops| - 1]) && (Allowed(w, op) ==> Guard(w, op))
  }

  /** A run never skips an event if and only if every step met its guard. */
  lemma {:induction false} NeverSkipsIff(digest: Digest, ops: seq<Op>)
    ensures NeverSkips(digest, ops) <==> Guarded(digest, ops)
  {
    if ops != [] {
      var front, op := ops[..|ops| - 1], ops[|ops| - 1];
      var w := Run(digest, front);
      NeverSkipsIff(digest, front);
      RunIsShaped(digest, front);
      if NothingSkipped(w) && Allowed(w, op) { StepSkipsNothingIff(w, digest, op); }
    }
  }

  // ---- Errors and restarts ----

  /** Some batch failed since the client last started where its group stands. */
  predicate Behind(ops: seq<Op>) {
    ops != []
    && match ops[|ops| - 1]
       case RunFromLog(_, ErrorBefore) => true
       case Restart => false
       case SeekLog(_) => false
       case _ => Behind(ops[..|ops| - 1])
  }

  /** A process whose transaction failed is restarted before it polls again, and positions only go back by hand. */
  ghost predicate Careful(digest: Digest, ops: seq<Op>) {
    ops == []
    || (&& Careful(digest, ops[..|ops| - 1])
        && match ops[|ops| - 1]
           case RunFromLog(_, _) => !Behind(ops[..|ops| - 1])
           case SetOffset(name, to) => to <= OffsetOf(Run(digest, ops[..|ops| - 1]).offsets, name)
           case SeekLog(target) => target <= Run(digest, ops[..|ops| - 1]).committed
           case _ => true)
  }

  /** What careful runs keep besides: offsets inside the table, and a client that is not behind a failed batch has read nothing unapplied. */
  ghost predicate Abreast(w: World, behind: bool)
    requires Sound(w)
  {
    && (forall name :: name in w.offsets ==> w.offsets[name] < w.nextSeq)
    && (!behind ==> RecordsApplied(w.records, 0, w.position, w.tables.applied))
  }

  lemma {:induction false} LogRunKeepsAbreast(w: World, digest: Digest, available: nat, outcome: Outcome)
    requires Sound(w) && Shaped(w) && NothingSkipped(w) && Abreast(w, false)
    ensures Guard(w, RunFromLog(available, outcome))
    ensures Sound(RanFromLog(w, digest, available, outcome)) && Abreast(RanFromLog(w, digest, available, outcome), outcome.ErrorBefore?)
  {
    var es, w' := Polled(w, available), RanFromLog(w, digest, available, outcome);
    AppliedGrow(w.tables, digest, es);
    if !outcome.ErrorBefore? {
      forall i | 0 <= i < w'.position ensures w'.records[i].id in w'.tables.applied {
        if i >= w.position {
          assert es[i - w.position] == w.records[i];
          assert w.records[i].id in Ids(es);
        }
      }
    }
  }

  lemma {:induction false} RunOnceKeepsAbreast(w: World, digest: Digest, name: string, limit: nat, behind: bool)
    requires Sound(w) && Shaped(w) && NothingSkipped(w) && Abreast(w, behind)
    ensures Abreast(RanOnce(w, digest, name, limit), behind)
  {
    var es := Batch(w.rows, OffsetOf(w.offsets, name), limit);
    if es != [] {
      AppliedGrow(w.tables, digest, es);
      assert AppliedUpTo(w.rows, OffsetOf(w.offsets, name), w.tables.applied);
      BatchCovers(w.rows, OffsetOf(w.offsets, name), limit, w.tables.applied);
    }
  }

  lemma {:induction false} CarefulStep(digest: Digest, ops: seq<Op>)
    requires ops != [] && Careful(digest, ops)
    requires NothingSkipped(Run(digest, ops[..|ops| - 1])) && Abreast(Run(digest, ops[..|ops| - 1]), Behind(ops[..|ops| - 1]))
    ensures Allowed(Run(digest, ops[..|ops| - 1]), ops[|ops| - 1]) ==> Guard(Run(digest, ops[..|ops| - 1]), ops[|ops| - 1])
    ensures Abreast(Run(digest, ops), Behind(ops))
  {
    var w, op := Run(digest, ops[..|ops| - 1]), ops[|ops| - 1];
    RunIsShaped(digest, ops[..|ops| - 1]);
    match op
    case RunOnce(name, limit, commits) => RunOnceKeepsAbreast(w, digest, name, limit, Behind(ops[..|ops| - 1]));
    case RunFromLog(available, outcome) => LogRunKeepsAbreast(w, digest, available, outcome);
    case SetOffset(name, to) => assert AppliedUpTo(w.rows, OffsetOf(w.offsets, name), w.tables.applied);
    case _ =>
  }

  lemma {:induction false} CarefulKeeps(digest: Digest, ops: seq<Op>)
    requires Careful(digest, ops)
    ensures NeverSkips(digest, ops) && Abreast(Run(digest, ops), Behind(ops))
  {
    if ops != [] {
      var front := ops[..|ops| - 1];
      CarefulKeeps(digest, front);
      CarefulStep(digest, ops);
      NeverSkipsIff(digest, front);
      NeverSkipsIff(digest, ops);
    }
  }

  /** Crashes anywhere and errors followed by a restart skip nothing, at any point of the run. */
  lemma {:induction false} CarefulRunsSkipNothing(digest: Digest, ops: seq<Op>)
    requires Careful(digest, ops)
    ensures NeverSkips(digest, ops)
  {
    CarefulKeeps(digest, ops);
  }

  /** One error and one further batch without a restart: which events of the failed batch that loses. */
  lemma {:induction false} AnErrorSkipsItsBatch(w: World, digest: Digest, failed: nat, next: nat, i: nat)
    requires Sound(w) && 0 < failed && 0 < next && w.position + failed + next <= |w.records|
    requires w.position <= i < w.position + failed
    ensures var w1 := RanFromLog(w, digest, failed, ErrorBefore);
            && Sound(w1)
            && var w2 := RanFromLog(w1, digest, next, Completes);
               && i < w2.committed && i < w2.position
               && (w.records[i].id in w2.tables.applied
                   <==> w.records[i].id in w.tables.applied || w.records[i].id in Ids(w.records[w.position + failed..w.position + failed + next]))
  {
    var w1 := RanFromLog(w, digest, failed, ErrorBefore);
    assert Polled(w, failed) == w.records[w.position..w.position + failed];
    assert Polled(w1, next) == w.records[w.position + failed..w.position + failed + next];
    AppliedGrow(w.tables, digest, Polled(w1, next));
  }
}
