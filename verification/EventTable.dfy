/** What the event table holds, over every run of the consumers: the first copy of each event, in order of receipt. */
module EventTable {
  import opened Wrappers
  import opened Rollups
  import opened RollupRuns

  /** The `i`-th operation is the first to hand in an event with this id. */
  ghost predicate FirstWith(ops: seq<Op>, i: nat, id: string) {
    && i < |ops| && ops[i].Accept? && ops[i].e.id == id
    && forall j :: 0 <= j < i && ops[j].Accept? ==> ops[j].e.id != id
  }

  /** Row `k` is that event, but for its number. */
  ghost predicate IsFirstCopy(ops: seq<Op>, rows: seq<Event>, k: nat) {
    k < |rows| && exists i: nat :: FirstWith(ops, i, rows[k].id) && rows[k] == ops[i].e.(seqNo := rows[k].seqNo)
  }

  /** Every row is a first copy, no id comes twice, every id handed in is there, and numbers increase. */
  ghost predicate HoldsFirstCopies(ops: seq<Op>, rows: seq<Event>) {
    && (forall k :: 0 <= k < |rows| ==> IsFirstCopy(ops, rows, k))
    && (forall j, k :: 0 <= j < k < |rows| ==> rows[j].id != rows[k].id && rows[j].seqNo < rows[k].seqNo)
    && (forall op :: op in ops && op.Accept? ==> op.e.id in Ids(rows))
  }

  lemma {:induction false} StillFirst(ops: seq<Op>, rows: seq<Event>, op: Op, more: seq<Event>, k: nat)
    requires IsFirstCopy(ops, rows, k)
    ensures IsFirstCopy(ops + [op], rows + more, k)
  {
    var i: nat :| FirstWith(ops, i, rows[k].id) && rows[k] == ops[i].e.(seqNo := rows[k].seqNo);
    assert FirstWith(ops + [op], i, (rows + more)[k].id);
  }

  /** The next number is past all of them. */
  ghost predicate NumbersLeft(w: World) {
    forall k :: 0 <= k < |w.rows| ==> w.rows[k].seqNo < w.nextSeq
  }

  lemma {:induction false} NewIsFirst(ops: seq<Op>, rows: seq<Event>, e: Event, n: nat)
    requires HoldsFirstCopies(ops, rows) && e.id !in Ids(rows)
    ensures IsFirstCopy(ops + [Accept(e)], rows + [e.(seqNo := n)], |rows|)
  {
    var all := ops + [Accept(e)];
    forall j | 0 <= j < |ops| && all[j].Accept? ensures all[j].e.id != e.id {
      assert all[j] == ops[j] && ops[j] in ops;
    }
    assert FirstWith(all, |ops|, e.id);
  }

  lemma {:induction false} AcceptedKeeps(ops: seq<Op>, w: World, e: Event)
    requires HoldsFirstCopies(ops, w.rows) && NumbersLeft(w)
    ensures HoldsFirstCopies(ops + [Accept(e)], Accepted(w, e).rows) && NumbersLeft(Accepted(w, e))
  {
    var rows', more := Accepted(w, e).rows, if e.id in Ids(w.rows) then [] else [e.(seqNo := w.nextSeq)];
    assert rows' == w.rows + more;
    if e.id !in Ids(w.rows) { NewIsFirst(ops, w.rows, e, w.nextSeq); }
    forall k | 0 <= k < |rows'| ensures IsFirstCopy(ops + [Accept(e)], rows', k) {
      if k < |w.rows| { StillFirst(ops, w.rows, Accept(e), more, k); }
    }
    forall j, k | 0 <= j < k < |rows'| ensures rows'[j].id != rows'[k].id && rows'[j].seqNo < rows'[k].seqNo {
      assert w.rows[j] in w.rows;
    }
    IdsGrow(w.rows, more);
    assert e.id in Ids(rows');
  }

  lemma {:induction false} IdsGrow(a: seq<Event>, b: seq<Event>)
    ensures Ids(a + b) == Ids(a) + Ids(b)
  {
    assert forall e :: e in a || e in b <==> e in a + b;
  }

  lemma {:induction false} OtherStepsLeaveRows(w: World, digest: Digest, op: Op)
    requires Sound(w) && !op.Accept?
    ensures Step(w, digest, op).rows == w.rows && Step(w, digest, op).nextSeq == w.nextSeq
  {
  }

  /** In every run the table holds just the first copies, numbered in the order of their receipt. */
  lemma {:induction false} RunsHoldFirstCopies(digest: Digest, ops: seq<Op>)
    ensures HoldsFirstCopies(ops, Run(digest, ops).rows) && NumbersLeft(Run(digest, ops))
  {
    if ops != [] {
      var front, last := ops[..|ops| - 1], ops[|ops| - 1];
      var w := Run(digest, front);
      assert ops == front + [last];
      RunsHoldFirstCopies(digest, front);
      if last.Accept? {
        AcceptedKeeps(front, w, last.e);
      } else {
        OtherStepsLeaveRows(w, digest, last);
        forall k | 0 <= k < |w.rows| ensures IsFirstCopy(ops, w.rows, k) {
          StillFirst(front, w.rows, last, [], k);
          assert w.rows + [] == w.rows;
        }
      }
    }
  }
}
