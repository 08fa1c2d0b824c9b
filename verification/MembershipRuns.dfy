/** What every run of registrations, attribute writes, incremental updates and recomputations keeps of the two indexes. */
module MembershipRuns {
  import opened Wrappers
  import opened Predicates
  import opened SqlCompile
  import opened Membership
  import E = Evaluator

  datatype Op =
    | Register(channel: string)
    | Retire(channel: string)
    | PutRow(channel: string, row: Row)
    | Write(channel: string, name: string, value: Option<Value>)
    | Save(id: string, ordinal: nat, rule: E.Predicate)
    | Update(channel: string, segs: seq<Segment>, env: map<string, Value>)
    | Recompute

  /** What the database guarantees: identifiers and ordinals of saved segments are new; updates are given saved segments. */
  ghost predicate Allowed(ix: Index, op: Op) {
    match op
    case Save(id, ordinal, _) => !KnownId(ix.segments, id) && !KnownOrdinal(ix.segments, ordinal)
    case Update(_, segs, _) => forall s :: s in segs ==> s in ix.segments
    case _ => true
  }

  ghost function Step(reg: Registry, clock: Clock, ix: Index, op: Op): Index {
    if !Allowed(ix, op) then ix
    else
      match op
      case Register(c) => Registered(ix, c)
      case Retire(c) => Retired(ix, c)
      case PutRow(c, row) => ix.(channels := ix.channels[c := row])
      case Write(c, name, value) => Written(ix, c, name, value)
      case Save(id, ordinal, p) => Saved(reg, ix, id, ordinal, p)
      case Update(c, segs, env) => Updated(clock, ix, c, segs, env).1
      case Recompute => Recomputed(reg, clock, ix).1
  }

  ghost function Run(reg: Registry, clock: Clock, ops: seq<Op>): Index {
    if ops == [] then EMPTY else Step(reg, clock, Run(reg, clock, ops[..|ops| - 1]), ops[|ops| - 1])
  }

  // ---- Incremental updates keep the indexes together ----

  lemma {:induction false} UpdateKeepsOthers(clock: Clock, ix: Index, channel: string, segs: seq<Segment>, env: map<string, Value>, c: string, i: nat)
    requires IndexInv(ix) && (forall s :: s in segs ==> s in ix.segments) && Updated(clock, ix, channel, segs, env).0
    requires Live(ix, c) && i < |ix.segments|
    ensures BitsAgree(Updated(clock, ix, channel, segs, env).1, c, ix.segments[i])
  {
    var seg, ordinal := ix.segments[i], ix.slots[channel].ordinal;
    var p := StartPass(ix, channel);
    var q := PassAll(clock, p, segs, ordinal, ix.generation, env);
    PassChangesOnlyItsBits(clock, p, segs, ordinal, ix.generation, env);
    PassFlipsBoth(clock, p, segs, ix.segments, ordinal, ix.generation, env);
    assert BitsAgree(ix, c, seg);
    if c == channel && !Takes(segs, seg) {
      forall s | Takes(segs, s) ensures s.id != seg.id && s.ordinal != seg.ordinal {
        Differ(ix.segments, s, seg);
      }
    }
  }

  lemma {:induction false} UpdateKeepsBounds(clock: Clock, ix: Index, channel: string, segs: seq<Segment>, env: map<string, Value>)
    requires IndexInv(ix) && (forall s :: s in segs ==> s in ix.segments) && Updated(clock, ix, channel, segs, env).0
    ensures Bounded(Updated(clock, ix, channel, segs, env).1)
  {
    var ordinal, p := ix.slots[channel].ordinal, StartPass(ix, channel);
    var q := PassAll(clock, p, segs, ordinal, ix.generation, env);
    var ix' := Updated(clock, ix, channel, segs, env).1;
    PassChangesOnlyItsBits(clock, p, segs, ordinal, ix.generation, env);
    forall k | k in q.forward ensures KnownId(ix.segments, k.0) && k.1 <= ix.generation {
      if k !in p.forward {
        var s :| Takes(segs, s) && s.id == k.0;
        var i :| 0 <= i < |ix.segments| && ix.segments[i] == s;
      }
    }
    forall k, o | k in q.forward && o in q.forward[k] ensures o < ix.nextOrdinal {
      if o != ordinal {
        assert o in Bitmap(q.forward, k.0, k.1);
        assert o in Bitmap(p.forward, k.0, k.1);
      }
    }
    forall o | o in q.members ensures KnownOrdinal(ix.segments, o) {
      if s :| Takes(segs, s) && s.ordinal == o {
        var i :| 0 <= i < |ix.segments| && ix.segments[i] == s;
      } else {
        assert o in p.members;
      }
    }
  }

  /** Success or failure, an update leaves forward and reverse bits equal for every live channel and segment. */
  lemma {:induction false} UpdateKeepsTheIndexes(clock: Clock, ix: Index, channel: string, segs: seq<Segment>, env: map<string, Value>)
    requires IndexInv(ix) && (forall s :: s in segs ==> s in ix.segments)
    ensures IndexInv(Updated(clock, ix, channel, segs, env).1)
  {
    var (ok, ix') := Updated(clock, ix, channel, segs, env);
    if ok {
      UpdateKeepsBounds(clock, ix, channel, segs, env);
      forall c, i | Live(ix', c) && 0 <= i < |ix'.segments| ensures BitsAgree(ix', c, ix'.segments[i]) {
        UpdateKeepsOthers(clock, ix, channel, segs, env, c, i);
      }
    } else {
      forall c, i | Live(ix', c) && 0 <= i < |ix'.segments| ensures BitsAgree(ix', c, ix'.segments[i]) {
        assert Live(ix, c);
      }
    }
  }

  // ---- Recomputation ----

  lemma {:induction false} WithBitmapsAt(reg: Registry, clock: Clock, ix: Index, segs: seq<Segment>, generation: int)
    ensures var f := WithBitmaps(reg, clock, ix, segs, generation);
            && (forall k :: k in f <==> k in ix.forward || (k.1 == generation && KnownId(segs, k.0)))
            && (forall k :: k in ix.forward && k.1 != generation ==> f[k] == ix.forward[k])
  {
    if segs != [] {
      var front, seg := segs[..|segs| - 1], segs[|segs| - 1];
      WithBitmapsAt(reg, clock, ix, front, generation);
      forall id ensures KnownId(segs, id) <==> KnownId(front, id) || id == seg.id {
        KnownSnoc(segs, id);
      }
    }
  }

  lemma {:induction false} KnownSnoc(segs: seq<Segment>, id: string)
    requires segs != []
    ensures KnownId(segs, id) <==> KnownId(segs[..|segs| - 1], id) || id == segs[|segs| - 1].id
  {
    var front := segs[..|segs| - 1];
    assert segs[|segs| - 1].id == id ==> KnownId(segs, id);
    if KnownId(front, id) {
      var i :| 0 <= i < |front| && front[i].id == id;
      assert segs[i].id == id;
    }
    if KnownId(segs, id) {
      var i :| 0 <= i < |segs| && segs[i].id == id;
      assert i < |front| ==> front[i].id == id;
    }
  }

  lemma {:induction false} WithBitmapsIs(reg: Registry, clock: Clock, ix: Index, segs: seq<Segment>, generation: int, i: nat)
    requires DistinctSegments(segs) && i < |segs|
    ensures var f := WithBitmaps(reg, clock, ix, segs, generation);
            (segs[i].id, generation) in f && f[(segs[i].id, generation)] == Matching(reg, clock, ix, segs[i])
  {
    var front := segs[..|segs| - 1];
    if i < |front| {
      assert front[i] == segs[i] && segs[i].id != segs[|segs| - 1].id;
      WithBitmapsIs(reg, clock, ix, front, generation, i);
    }
  }

  /** The new generation holds, for every segment, exactly the ordinals its query selects. */
  lemma {:induction false} RecomputeBuildsMatches(reg: Registry, clock: Clock, ix: Index, i: nat)
    requires DistinctSegments(ix.segments) && Recomputed(reg, clock, ix).0 && i < |ix.segments|
    ensures var ix' := Recomputed(reg, clock, ix).1;
            ix'.generation == ix.generation + 1
            && Bitmap(ix'.forward, ix.segments[i].id, ix'.generation) == Matching(reg, clock, ix, ix.segments[i])
  {
    WithBitmapsIs(reg, clock, ix, ix.segments, ix.generation + 1, i);
  }

  /** Reclaiming keeps the generation just written and the one before it, row for row, and nothing older. */
  lemma {:induction false} RecomputeKeepsTwoGenerations(reg: Registry, clock: Clock, ix: Index)
    requires Bounded(ix) && Recomputed(reg, clock, ix).0
    ensures var ix' := Recomputed(reg, clock, ix).1;
            && (forall id :: Bitmap(ix'.forward, id, ix.generation) == Bitmap(ix.forward, id, ix.generation))
            && (forall k :: k in ix'.forward && ix.generation > 0 ==> k.1 == ix.generation || k.1 == ix'.generation)
  {
    WithBitmapsAt(reg, clock, ix, ix.segments, ix.generation + 1);
  }

  lemma {:induction false} MatchingOf(reg: Registry, clock: Clock, ix: Index, seg: Segment, c: string)
    requires DistinctSlots(ix) && c in ix.slots
    ensures ix.slots[c].ordinal in Matching(reg, clock, ix, seg)
            <==> !ix.slots[c].retired && c in ix.channels && Selects(reg, clock, seg, ix.channels[c])
  {
  }

  lemma {:induction false} MembersOfSegment(reg: Registry, clock: Clock, ix: Index, i: nat, ordinal: nat)
    requires DistinctSegments(ix.segments) && i < |ix.segments|
    ensures ix.segments[i].ordinal in MembersOf(reg, clock, ix, ix.segments, ordinal) <==> ordinal in Matching(reg, clock, ix, ix.segments[i])
  {
  }

  lemma {:induction false} RecomputeKeepsBounds(reg: Registry, clock: Clock, ix: Index)
    requires IndexInv(ix) && Recomputed(reg, clock, ix).0
    ensures Bounded(Recomputed(reg, clock, ix).1)
  {
    WithBitmapsAt(reg, clock, ix, ix.segments, Recomputed(reg, clock, ix).1.generation);
    RecomputeKeepsBitmaps(reg, clock, ix);
    RecomputeKeepsOrdinals(reg, clock, ix);
  }

  lemma {:induction false} RecomputeKeepsBitmaps(reg: Registry, clock: Clock, ix: Index)
    requires IndexInv(ix) && Recomputed(reg, clock, ix).0
    ensures var forward := Recomputed(reg, clock, ix).1.forward;
            forall k, o :: k in forward && o in forward[k] ==> o < ix.nextOrdinal
  {
    var ix' := Recomputed(reg, clock, ix).1;
    WithBitmapsAt(reg, clock, ix, ix.segments, ix'.generation);
    forall k, o | k in ix'.forward && o in ix'.forward[k] ensures o < ix.nextOrdinal {
      if k.1 == ix'.generation {
        assert k !in ix.forward;
        var i :| 0 <= i < |ix.segments| && ix.segments[i].id == k.0;
        WithBitmapsIs(reg, clock, ix, ix.segments, ix'.generation, i);
      }
    }
  }

  lemma {:induction false} RecomputeKeepsOrdinals(reg: Registry, clock: Clock, ix: Index)
    requires IndexInv(ix) && Recomputed(reg, clock, ix).0
    ensures var reverse := Recomputed(reg, clock, ix).1.reverse;
            forall c, o :: c in reverse && o in reverse[c] ==> KnownOrdinal(ix.segments, o)
  {
    var reverse := Recomputed(reg, clock, ix).1.reverse;
    forall c, o | c in reverse && o in reverse[c] ensures KnownOrdinal(ix.segments, o) {
      if Live(ix, c) {
        var i :| 0 <= i < |ix.segments| && ix.segments[i].ordinal == o;
      }
    }
  }

  lemma {:induction false} RecomputeKeepsTheIndexes(reg: Registry, clock: Clock, ix: Index)
    requires IndexInv(ix)
    ensures IndexInv(Recomputed(reg, clock, ix).1)
  {
    var (ok, ix') := Recomputed(reg, clock, ix);
    if ok {
      RecomputeKeepsBounds(reg, clock, ix);
      forall c, i | Live(ix', c) && 0 <= i < |ix'.segments| ensures BitsAgree(ix', c, ix'.segments[i]) {
        assert Live(ix, c);
        RecomputeBuildsMatches(reg, clock, ix, i);
        MembersOfSegment(reg, clock, ix, i, ix.slots[c].ordinal);
      }
    }
  }

  // ---- The other steps ----

  lemma {:induction false} RegisterKeepsTheIndexes(ix: Index, channel: string)
    requires IndexInv(ix)
    ensures IndexInv(Registered(ix, channel))
  {
    var ix' := Registered(ix, channel);
    forall c, i | Live(ix', c) && 0 <= i < |ix'.segments| ensures BitsAgree(ix', c, ix'.segments[i]) {
      if c in ix.slots { assert Live(ix, c); }
    }
  }

  lemma {:induction false} RetireKeepsTheIndexes(ix: Index, channel: string)
    requires IndexInv(ix)
    ensures IndexInv(Retired(ix, channel))
  {
    var ix' := Retired(ix, channel);
    forall c, i | Live(ix', c) && 0 <= i < |ix'.segments| ensures BitsAgree(ix', c, ix'.segments[i]) {
      assert Live(ix, c);
    }
  }

  lemma {:induction false} RowsDoNotMatter(ix: Index, channels: map<string, Row>)
    requires IndexInv(ix)
    ensures IndexInv(ix.(channels := channels))
  {
    var ix' := ix.(channels := channels);
    forall c, i | Live(ix', c) && 0 <= i < |ix'.segments| ensures BitsAgree(ix', c, ix'.segments[i]) {
      assert Live(ix, c);
    }
  }

  lemma {:induction false} KnownGrows(segs: seq<Segment>, s: Segment)
    ensures forall id :: KnownId(segs, id) ==> KnownId(segs + [s], id)
    ensures forall o :: KnownOrdinal(segs, o) ==> KnownOrdinal(segs + [s], o)
  {
    forall id | KnownId(segs, id) ensures KnownId(segs + [s], id) {
      var i :| 0 <= i < |segs| && segs[i].id == id;
      assert (segs + [s])[i].id == id;
    }
    forall o | KnownOrdinal(segs, o) ensures KnownOrdinal(segs + [s], o) {
      var i :| 0 <= i < |segs| && segs[i].ordinal == o;
      assert (segs + [s])[i].ordinal == o;
    }
  }

  lemma {:induction false} SaveKeepsTheIndexes(reg: Registry, ix: Index, id: string, ordinal: nat, p: E.Predicate)
    requires IndexInv(ix) && !KnownId(ix.segments, id) && !KnownOrdinal(ix.segments, ordinal)
    ensures IndexInv(Saved(reg, ix, id, ordinal, p))
  {
    var ix' := Saved(reg, ix, id, ordinal, p);
    KnownGrows(ix.segments, ix'.segments[|ix.segments|]);
    forall c, i | Live(ix', c) && 0 <= i < |ix'.segments| ensures BitsAgree(ix', c, ix'.segments[i]) {
      assert Live(ix, c);
      assert i < |ix.segments| ==> ix'.segments[i] == ix.segments[i];
      assert i == |ix.segments| ==> Bitmap(ix.forward, id, ix.generation) == {};
    }
  }

  lemma {:induction false} StepKeepsTheIndexes(reg: Registry, clock: Clock, ix: Index, op: Op)
    requires IndexInv(ix)
    ensures IndexInv(Step(reg, clock, ix, op))
  {
    if Allowed(ix, op) {
      match op
      case Register(c) => RegisterKeepsTheIndexes(ix, c);
      case Retire(c) => RetireKeepsTheIndexes(ix, c);
      case PutRow(c, row) => RowsDoNotMatter(ix, ix.channels[c := row]);
      case Write(c, name, value) => RowsDoNotMatter(ix, Written(ix, c, name, value).channels);
      case Save(id, ordinal, p) => SaveKeepsTheIndexes(reg, ix, id, ordinal, p);
      case Update(c, segs, env) => UpdateKeepsTheIndexes(clock, ix, c, segs, env);
      case Recompute => RecomputeKeepsTheIndexes(reg, clock, ix);
    }
  }

  /** In every reachable state, forward and reverse say the same of every live channel and segment. */
  lemma {:induction false} RunsKeepTheIndexes(reg: Registry, clock: Clock, ops: seq<Op>)
    ensures IndexInv(Run(reg, clock, ops))
  {
    if ops != [] {
      RunsKeepTheIndexes(reg, clock, ops[..|ops| - 1]);
      StepKeepsTheIndexes(reg, clock, Run(reg, clock, ops[..|ops| - 1]), ops[|ops| - 1]);
    }
  }
}
