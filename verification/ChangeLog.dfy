/**
 The bounded change log (internal/delivery/changelog): rows appended with an increasing
 sequence number, rows older than the retention pruned on every write.
 Times are nanoseconds.
 */
module ChangeLog {
  datatype Kind = Upsert | Tombstone

  datatype Row = Row(seqNo: nat, messageId: string, kind: Kind, occurredAt: int)

  datatype Change = Change(seqNo: nat, messageId: string, kind: Kind)

  const RETENTION: int := 7 * 24 * 3600 * 1_000_000_000

  /** The table and the next value of its bigserial column. */
  datatype Log = Log(rows: seq<Row>, nextSeq: nat)

  const EMPTY := Log([], 1)

  /** The rows a `DELETE ... WHERE occurred_at < cutoff` leaves. */
  function Keep(rows: seq<Row>, cutoff: int): seq<Row> {
    if rows == [] then []
    else (if rows[0].occurredAt >= cutoff then [rows[0]] else []) + Keep(rows[1..], cutoff)
  }

  function Recorded(l: Log, messageId: string, kind: Kind, at: int): Log {
    Log(Keep(l.rows + [Row(l.nextSeq, messageId, kind, at)], at - RETENTION), l.nextSeq + 1)
  }

  function MaxSeq(rows: seq<Row>): nat {
    if rows == [] then 0
    else
      var rest := MaxSeq(rows[1..]);
      if rows[0].seqNo > rest then rows[0].seqNo else rest
  }

  /** `SELECT max(seq)`, 0 on an empty table. */
  function CurrentSeq(l: Log): nat {
    MaxSeq(l.rows)
  }

  function Past(rows: seq<Row>, after: int): seq<Row> {
    if rows == [] then []
    else (if rows[0].seqNo > after then [rows[0]] else []) + Past(rows[1..], after)
  }

  function ToChange(r: Row): Change {
    Change(r.seqNo, r.messageId, r.kind)
  }

  function Changes(rows: seq<Row>): (cs: seq<Change>)
    ensures |cs| == |rows|
    ensures forall i :: 0 <= i < |rows| ==> cs[i] == ToChange(rows[i])
  {
    seq(|rows|, i requires 0 <= i < |rows| => ToChange(rows[i]))
  }

  function Since(l: Log, after: int): seq<Change> {
    Changes(Past(l.rows, after))
  }

  /** The table as the program drives it: insert, prune, read back. */
  class Table {
    var rows: seq<Row>
    var nextSeq: nat

    ghost function Contents(): Log
      reads this
    {
      Log(rows, nextSeq)
    }

    constructor ()
      ensures Contents() == EMPTY
    {
      rows, nextSeq := [], 1;
    }

    method Record(messageId: string, kind: Kind, occurredAt: int)
      modifies this
      ensures Contents() == Recorded(old(Contents()), messageId, kind, occurredAt)
    {
      rows, nextSeq := rows + [Row(nextSeq, messageId, kind, occurredAt)], nextSeq + 1;
      rows := Keep(rows, occurredAt - RETENTION);
    }

    method ReadCurrentSeq() returns (current: nat)
      ensures current == CurrentSeq(Contents())
    {
      current := MaxSeq(rows);
    }

    method ReadSince(after: int) returns (changes: seq<Change>)
      ensures changes == Since(Contents(), after)
    {
      var selected := Past(rows, after);
      changes := [];
      for i := 0 to |selected|
        invariant changes == Changes(selected[..i])
      {
        assert selected[..i + 1] == selected[..i] + [selected[i]];
        changes := changes + [ToChange(selected[i])];
      }
      assert selected[..|selected|] == selected;
    }
  }

  // ---- Runs of Record calls ----

  datatype Write = Write(messageId: string, kind: Kind, at: int)

  /** The table after every write of `ws`. */
  function Run(ws: seq<Write>): Log {
    if ws == [] then EMPTY
    else
      var w := ws[|ws| - 1];
      Recorded(Run(ws[..|ws| - 1]), w.messageId, w.kind, w.at)
  }

  /** Every row the writes ever produced, pruned or not. */
  function History(ws: seq<Write>): (h: seq<Row>)
    ensures |h| == |ws|
    ensures forall i :: 0 <= i < |ws| ==> h[i] == Row(i + 1, ws[i].messageId, ws[i].kind, ws[i].at)
  {
    seq(|ws|, i requires 0 <= i < |ws| => Row(i + 1, ws[i].messageId, ws[i].kind, ws[i].at))
  }

  ghost predicate NonDecreasing(ws: seq<Write>) {
    forall i, j :: 0 <= i <= j < |ws| ==> ws[i].at <= ws[j].at
  }

  lemma {:induction false} KeepAppend(a: seq<Row>, b: seq<Row>, cutoff: int)
    ensures Keep(a + b, cutoff) == Keep(a, cutoff) + Keep(b, cutoff)
  {
    if a == [] {
      assert a + b == b;
    } else {
      assert (a + b)[1..] == a[1..] + b;
      KeepAppend(a[1..], b, cutoff);
    }
  }

  lemma {:induction false} KeepTwice(rows: seq<Row>, c: int, d: int)
    requires c <= d
    ensures Keep(Keep(rows, c), d) == Keep(rows, d)
  {
    if rows != [] {
      KeepAppend(if rows[0].occurredAt >= c then [rows[0]] else [], Keep(rows[1..], c), d);
      KeepTwice(rows[1..], c, d);
    }
  }

  lemma {:induction false} PastAppend(a: seq<Row>, b: seq<Row>, after: int)
    ensures Past(a + b, after) == Past(a, after) + Past(b, after)
  {
    if a == [] {
      assert a + b == b;
    } else {
      assert (a + b)[1..] == a[1..] + b;
      PastAppend(a[1..], b, after);
    }
  }

  lemma {:induction false} MaxSeqAppend(a: seq<Row>, b: seq<Row>)
    ensures MaxSeq(a + b) == if MaxSeq(a) > MaxSeq(b) then MaxSeq(a) else MaxSeq(b)
  {
    if a == [] {
      assert a + b == b;
    } else {
      assert (a + b)[1..] == a[1..] + b;
      MaxSeqAppend(a[1..], b);
    }
  }

  lemma {:induction false} MaxSeqOfKeep(rows: seq<Row>, cutoff: int)
    ensures MaxSeq(Keep(rows, cutoff)) <= MaxSeq(rows)
  {
    if rows != [] {
      MaxSeqOfKeep(rows[1..], cutoff);
      MaxSeqAppend(if rows[0].occurredAt >= cutoff then [rows[0]] else [], Keep(rows[1..], cutoff));
    }
  }

  /**
   Whatever the clock does, the row just written survives its own prune: the current sequence number
   is the number of writes, so it never decreases.
   */
  lemma {:induction false} CurrentSeqCountsWrites(ws: seq<Write>)
    ensures CurrentSeq(Run(ws)) == |ws|
    ensures Run(ws).nextSeq == |ws| + 1
  {
    if ws != [] {
      var rest, w := ws[..|ws| - 1], ws[|ws| - 1];
      CurrentSeqCountsWrites(rest);
      var row := Row(|ws|, w.messageId, w.kind, w.at);
      var before := Run(rest).rows;
      KeepAppend(before, [row], w.at - RETENTION);
      assert Keep([row], w.at - RETENTION) == [row] + Keep([row][1..], w.at - RETENTION);
      assert Keep([row][1..], w.at - RETENTION) == [];
      assert [row] + [] == [row];
      MaxSeqOfKeep(before, w.at - RETENTION);
      MaxSeqAppend(Keep(before, w.at - RETENTION), [row]);
      assert MaxSeq([row]) == row.seqNo;
    }
  }

  /** With a clock that never goes back, exactly the rows inside the retention of the last write remain. */
  lemma {:induction false} PruningKeepsTheRetention(ws: seq<Write>)
    requires NonDecreasing(ws) && ws != []
    ensures Run(ws).rows == Keep(History(ws), ws[|ws| - 1].at - RETENTION)
  {
    var rest, w := ws[..|ws| - 1], ws[|ws| - 1];
    CurrentSeqCountsWrites(rest);
    var row := Row(|ws|, w.messageId, w.kind, w.at);
    var cutoff := w.at - RETENTION;
    assert History(ws) == History(rest) + [row];
    KeepAppend(Run(rest).rows, [row], cutoff);
    KeepAppend(History(rest), [row], cutoff);
    if rest != [] {
      PruningKeepsTheRetention(rest);
      KeepTwice(History(rest), rest[|rest| - 1].at - RETENTION, cutoff);
    }
  }

  lemma {:induction false} KeepAll(rows: seq<Row>, cutoff: int)
    requires forall r :: r in rows ==> r.occurredAt >= cutoff
    ensures Keep(rows, cutoff) == rows
  {
    if rows != [] {
      KeepAll(rows[1..], cutoff);
    }
  }

  lemma {:induction false} KeepShortens(rows: seq<Row>, cutoff: int)
    ensures |Keep(rows, cutoff)| <= |rows|
    ensures rows != [] && rows[0].occurredAt < cutoff ==> |Keep(rows, cutoff)| < |rows|
  {
    if rows != [] {
      KeepShortens(rows[1..], cutoff);
    }
  }

  lemma {:induction false} PastKeepAll(rows: seq<Row>, after: int, cutoff: int)
    requires forall r :: r in rows ==> r.seqNo > after
    ensures Past(Keep(rows, cutoff), after) == Keep(rows, cutoff)
  {
    if rows != [] {
      PastKeepAll(rows[1..], after, cutoff);
      PastAppend(if rows[0].occurredAt >= cutoff then [rows[0]] else [], Keep(rows[1..], cutoff), after);
    }
  }

  lemma {:induction false} PastKeepNone(rows: seq<Row>, after: int, cutoff: int)
    requires forall r :: r in rows ==> r.seqNo <= after
    ensures Past(Keep(rows, cutoff), after) == []
  {
    if rows != [] {
      PastKeepNone(rows[1..], after, cutoff);
      PastAppend(if rows[0].occurredAt >= cutoff then [rows[0]] else [], Keep(rows[1..], cutoff), after);
    }
  }

  /** A reader positioned after the first `issued` writes sees the later rows that survived. */
  lemma {:induction false} SurvivorsPastACursor(ws: seq<Write>, issued: nat)
    requires NonDecreasing(ws) && issued <= |ws| && ws != []
    ensures Past(Run(ws).rows, issued) == Keep(History(ws)[issued..], ws[|ws| - 1].at - RETENTION)
  {
    var cutoff := ws[|ws| - 1].at - RETENTION;
    var h := History(ws);
    var early, late := h[..issued], h[issued..];
    PruningKeepsTheRetention(ws);
    assert h == early + late;
    KeepAppend(early, late, cutoff);
    PastAppend(Keep(early, cutoff), Keep(late, cutoff), issued);
    PastKeepNone(early, issued, cutoff);
    PastKeepAll(late, issued, cutoff);
  }

  /**
   What a reader positioned after the first `issued` writes gets is every later write exactly when the
   first of them is inside the retention of the last write.
   */
  lemma {:induction false} SinceIsCompleteIff(ws: seq<Write>, issued: nat)
    requires NonDecreasing(ws) && issued < |ws|
    ensures Since(Run(ws), issued) == Changes(History(ws)[issued..])
            <==> ws[issued].at >= ws[|ws| - 1].at - RETENTION
  {
    var cutoff := ws[|ws| - 1].at - RETENTION;
    var late := History(ws)[issued..];
    SurvivorsPastACursor(ws, issued);
    if ws[issued].at >= cutoff {
      KeepAll(late, cutoff);
    } else {
      KeepShortens(late, cutoff);
    }
  }

  /**
   A cursor issued after the first `issued` writes, at a time no later than the next one, and read at
   `now` while still inside the retention, sees every write made since it was issued: none was pruned.
   */
  lemma {:induction false} HonourableCursorMissesNothing(ws: seq<Write>, issued: nat, issuedAt: int, now: int)
    requires NonDecreasing(ws) && issued <= |ws|
    requires issued < |ws| ==> issuedAt <= ws[issued].at
    requires ws != [] ==> ws[|ws| - 1].at <= now
    requires issuedAt >= now - RETENTION
    ensures Since(Run(ws), issued) == Changes(History(ws)[issued..])
  {
    if issued < |ws| {
      SinceIsCompleteIff(ws, issued);
    } else if ws != [] {
      SurvivorsPastACursor(ws, issued);
      assert History(ws)[issued..] == [];
    }
  }
}
