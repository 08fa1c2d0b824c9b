/** What a trailing window counts: the occurrences of an event on the days it spans, day by day. */
module WindowMeaning {
  import opened Wrappers
  import opened Predicates

  /** Row `i` is of the event and falls on one of the last `windowDays` days, or later. */
  ghost predicate InWindow(rollup: seq<Daily>, event: string, windowDays: int, today: int, i: nat) {
    i < |rollup| && rollup[i].event == event && today - rollup[i].day < windowDays
  }

  /** The occurrences in the window: the `j`-th one counted by row `i`. */
  ghost function Occurrences(rollup: seq<Daily>, event: string, windowDays: int, today: int): set<(nat, nat)> {
    set i: nat, j: nat | i < |rollup| && j < rollup[i].count && InWindow(rollup, event, windowDays, today, i) :: (i, j)
  }

  ghost function Block(i: nat, count: nat): set<(nat, nat)> {
    set j: nat | j < count :: (i, j)
  }

  lemma {:induction false} BlockSize(i: nat, count: nat)
    ensures |Block(i, count)| == count
  {
    if count > 0 {
      BlockSize(i, count - 1);
      assert Block(i, count) == Block(i, count - 1) + {(i, count - 1)};
    }
  }

  ghost function Later(s: set<(nat, nat)>): set<(nat, nat)> {
    set p | p in s :: (p.0 + 1, p.1)
  }

  lemma {:induction false} LaterSize(s: set<(nat, nat)>)
    ensures |Later(s)| == |s|
    decreases |s|
  {
    if s != {} {
      var p :| p in s;
      LaterSize(s - {p});
      assert Later(s) == Later(s - {p}) + {(p.0 + 1, p.1)};
      assert (p.0 + 1, p.1) !in Later(s - {p});
    }
  }

  lemma {:induction false} OccurrencesSplit(rollup: seq<Daily>, event: string, windowDays: int, today: int)
    requires rollup != []
    ensures Occurrences(rollup, event, windowDays, today)
            == (if InWindow(rollup, event, windowDays, today, 0) then Block(0, rollup[0].count) else {})
               + Later(Occurrences(rollup[1..], event, windowDays, today))
  {
    var first := if InWindow(rollup, event, windowDays, today, 0) then Block(0, rollup[0].count) else {};
    var all, rest := Occurrences(rollup, event, windowDays, today), Occurrences(rollup[1..], event, windowDays, today);
    forall p | p in all ensures p in first + Later(rest) {
      if p.0 > 0 {
        assert rollup[1..][p.0 - 1] == rollup[p.0];
        assert InWindow(rollup[1..], event, windowDays, today, p.0 - 1);
        assert (p.0 - 1, p.1) in rest;
      }
    }
    forall p | p in Later(rest) ensures p in all {
      assert p.0 > 0 && (p.0 - 1, p.1) in rest;
      assert rollup[1..][p.0 - 1] == rollup[p.0];
      assert InWindow(rollup, event, windowDays, today, p.0);
    }
  }

  /** The sum is absent exactly when no row is in the window, and otherwise the number of occurrences in it. */
  lemma {:induction false} TheWindowCounts(rollup: seq<Daily>, event: string, windowDays: int, today: int)
    ensures var sum := WindowSum(rollup, event, windowDays, today);
            && (sum.None? <==> forall i: nat :: !InWindow(rollup, event, windowDays, today, i))
            && (if sum.Some? then sum.value else 0) == |Occurrences(rollup, event, windowDays, today)|
  {
    if rollup != [] {
      TheWindowCounts(rollup[1..], event, windowDays, today);
      OccurrencesSplit(rollup, event, windowDays, today);
      WindowSplit(rollup, event, windowDays, today);
      BlockSize(0, rollup[0].count);
      LaterSize(Occurrences(rollup[1..], event, windowDays, today));
    }
  }

  lemma {:induction false} WindowSplit(rollup: seq<Daily>, event: string, windowDays: int, today: int)
    requires rollup != []
    ensures (forall i: nat :: !InWindow(rollup, event, windowDays, today, i))
            <==> !InWindow(rollup, event, windowDays, today, 0) && forall i: nat :: !InWindow(rollup[1..], event, windowDays, today, i)
  {
    forall i: nat ensures InWindow(rollup[1..], event, windowDays, today, i) <==> InWindow(rollup, event, windowDays, today, i + 1) {
    }
    if exists i: nat :: InWindow(rollup, event, windowDays, today, i) {
      var i: nat :| InWindow(rollup, event, windowDays, today, i);
      if i > 0 { assert InWindow(rollup[1..], event, windowDays, today, i - 1); }
    }
  }
}
