/**
 Incremental maintenance against recomputation: when an attribute of a live channel is written and the
 segments depending on it are updated, are the indexes what a fresh recomputation would build?
 */
module Freshness {
  import opened Wrappers
  import opened Predicates
  import opened SqlCompile
  import opened Membership
  import opened MembershipRuns
  import A = Agreement
  import E = Evaluator

  // ---- The compiled condition reads only what the tree references ----

  lemma {:induction false} ConditionFrame(reg: Registry, clock: Clock, e: Expr, args: seq<Arg>, full: seq<Arg>, row: Row, row': Row)
    requires TypeOf(reg, e).Some? && Compiled(reg, clock, e, args).0.Ok? && Compiled(reg, clock, e, args).1 <= full
    requires WellTyped(reg, row) && AgreeOn(Environment(reg, row), Environment(reg, row'), Referenced(e))
    ensures SqlEval(Compiled(reg, clock, e, args).0.value, full, row) == SqlEval(Compiled(reg, clock, e, args).0.value, full, row')
    decreases e
  {
    match e
    case Ident(name) => IdentFrame(reg, clock, name, args, full, row, row');
    case Literal(v) =>
    case Call(fn, es) =>
      if BinaryOf(fn).Some? {
        BinaryFrame(reg, clock, e, args, full, row, row');
      } else if fn.In? {
        InFrame(reg, clock, e, args, full, row, row');
      } else if fn.Not? || (fn.SemVerFn? && !es[0].Literal?) {
        UnaryFrame(reg, clock, e, args, full, row, row');
      }
    case _ =>
  }

  lemma {:induction false} ChildAgrees(reg: Registry, e: Expr, row: Row, row': Row, i: nat)
    requires e.Call? && i < |e.args| && AgreeOn(Environment(reg, row), Environment(reg, row'), Referenced(e))
    ensures AgreeOn(Environment(reg, row), Environment(reg, row'), Referenced(e.args[i]))
  {
    assert Referenced(e.args[i]) <= ReferencedIn(e.args);
  }

  lemma {:induction false} IdentFrame(reg: Registry, clock: Clock, name: string, args: seq<Arg>, full: seq<Arg>, row: Row, row': Row)
    requires IdentCompiled(reg, name, args).0.Ok? && IdentCompiled(reg, name, args).1 <= full
    requires AgreeOn(Environment(reg, row), Environment(reg, row'), {name})
    ensures SqlEval(IdentCompiled(reg, name, args).0.value, full, row) == SqlEval(IdentCompiled(reg, name, args).0.value, full, row')
  {
    var env, env' := Environment(reg, row), Environment(reg, row');
    assert Get(env, name) == Get(env', name);
    A.PrefixArg(IdentCompiled(reg, name, args).1, full, |args| + 1);
    if reg[name].source.EventAggregate? {
      A.PrefixArg(IdentCompiled(reg, name, args).1, full, |args| + 2);
    } else {
      assert Get(row.attributes, name) == Get(env, name) && Get(row'.attributes, name) == Get(env', name);
    }
  }

  lemma {:induction false} UnaryFrame(reg: Registry, clock: Clock, e: Expr, args: seq<Arg>, full: seq<Arg>, row: Row, row': Row)
    requires e.Call? && |e.args| == 1 && (e.fn.Not? || (e.fn.SemVerFn? && !e.args[0].Literal?))
    requires TypeOf(reg, e).Some? && Compiled(reg, clock, e, args).0.Ok? && Compiled(reg, clock, e, args).1 <= full
    requires WellTyped(reg, row) && AgreeOn(Environment(reg, row), Environment(reg, row'), Referenced(e))
    ensures SqlEval(Compiled(reg, clock, e, args).0.value, full, row) == SqlEval(Compiled(reg, clock, e, args).0.value, full, row')
    decreases e, 0
  {
    UnaryParts(reg, clock, e, args, row, row');
    ConditionFrame(reg, clock, e.args[0], args, full, row, row');
    A.UnaryCompiled(reg, clock, e, args);
  }

  lemma {:induction false} UnaryParts(reg: Registry, clock: Clock, e: Expr, args: seq<Arg>, row: Row, row': Row)
    requires e.Call? && |e.args| == 1 && (e.fn.Not? || (e.fn.SemVerFn? && !e.args[0].Literal?))
    requires TypeOf(reg, e).Some? && Compiled(reg, clock, e, args).0.Ok?
    requires WellTyped(reg, row) && AgreeOn(Environment(reg, row), Environment(reg, row'), Referenced(e))
    ensures TypeOf(reg, e.args[0]).Some? && Compiled(reg, clock, e.args[0], args).0.Ok?
    ensures Compiled(reg, clock, e.args[0], args).1 == Compiled(reg, clock, e, args).1
    ensures AgreeOn(Environment(reg, row), Environment(reg, row'), Referenced(e.args[0]))
  {
    A.UnaryCompiled(reg, clock, e, args);
    ChildAgrees(reg, e, row, row', 0);
    A.UnaryEval(reg, clock, Environment(reg, row), e);
  }

  lemma {:induction false} BinaryFrame(reg: Registry, clock: Clock, e: Expr, args: seq<Arg>, full: seq<Arg>, row: Row, row': Row)
    requires e.Call? && BinaryOf(e.fn).Some?
    requires TypeOf(reg, e).Some? && Compiled(reg, clock, e, args).0.Ok? && Compiled(reg, clock, e, args).1 <= full
    requires WellTyped(reg, row) && AgreeOn(Environment(reg, row), Environment(reg, row'), Referenced(e))
    ensures SqlEval(Compiled(reg, clock, e, args).0.value, full, row) == SqlEval(Compiled(reg, clock, e, args).0.value, full, row')
    decreases e, 0
  {
    var es := e.args;
    var (left, args1) := Compiled(reg, clock, es[0], args);
    CompilingAppends(reg, clock, es[1], args1);
    assert TypesOf(reg, es)[0] == TypeOf(reg, es[0]) && TypesOf(reg, es)[1] == TypeOf(reg, es[1]);
    ChildAgrees(reg, e, row, row', 0);
    ChildAgrees(reg, e, row, row', 1);
    ConditionFrame(reg, clock, es[0], args, full, row, row');
    ConditionFrame(reg, clock, es[1], args1, full, row, row');
  }

  lemma {:induction false} InFrame(reg: Registry, clock: Clock, e: Expr, args: seq<Arg>, full: seq<Arg>, row: Row, row': Row)
    requires e.Call? && e.fn.In?
    requires TypeOf(reg, e).Some? && Compiled(reg, clock, e, args).0.Ok? && Compiled(reg, clock, e, args).1 <= full
    requires WellTyped(reg, row) && AgreeOn(Environment(reg, row), Environment(reg, row'), Referenced(e))
    ensures SqlEval(Compiled(reg, clock, e, args).0.value, full, row) == SqlEval(Compiled(reg, clock, e, args).0.value, full, row')
    decreases e, 0
  {
    var (needle, args1) := Compiled(reg, clock, e.args[0], args);
    var (sql, args2) := HaystackCompiled(reg, needle.value, e.args[1], args1);
    assert args1 <= args2;
    ChildAgrees(reg, e, row, row', 0);
    ChildAgrees(reg, e, row, row', 1);
    ConditionFrame(reg, clock, e.args[0], args, full, row, row');
    HaystackFrame(reg, e.args[1], needle.value, args1, full, row, row');
  }

  lemma {:induction false} HaystackFrame(reg: Registry, e: Expr, needle: Sql, args: seq<Arg>, full: seq<Arg>, row: Row, row': Row)
    requires HaystackCompiled(reg, needle, e, args).0.Ok? && HaystackCompiled(reg, needle, e, args).1 <= full
    requires WellTyped(reg, row) && AgreeOn(Environment(reg, row), Environment(reg, row'), Referenced(e))
    requires SqlEval(needle, full, row) == SqlEval(needle, full, row')
    ensures SqlEval(HaystackCompiled(reg, needle, e, args).0.value, full, row) == SqlEval(HaystackCompiled(reg, needle, e, args).0.value, full, row')
  {
    if e.Ident? {
      A.PrefixArg(HaystackCompiled(reg, needle, e, args).1, full, |args| + 1);
      assert Get(Environment(reg, row), e.name) == Get(Environment(reg, row'), e.name);
      assert reg[e.name].kind.StringSetAttr? && !reg[e.name].source.EventAggregate?;
      assert Get(row.attributes, e.name) == Get(row'.attributes, e.name);
    }
  }

  /** Two rows a predicate cannot tell apart are selected alike. */
  lemma {:induction false} SelectionReadsOnlyReferenced(reg: Registry, clock: Clock, seg: Segment, row: Row, row': Row)
    requires A.Accepted(reg, clock, seg.rule.tree) && WellTyped(reg, row)
    requires AgreeOn(Environment(reg, row), Environment(reg, row'), Referenced(seg.rule.tree))
    ensures Condition(reg, clock, seg, row) == Condition(reg, clock, seg, row')
  {
    var args := Compiled(reg, clock, seg.rule.tree, []).1;
    ConditionFrame(reg, clock, seg.rule.tree, [], args, row, row');
  }

  // ---- Changes ----

  /** Write one attribute of a channel, then update the segments the dependency map names for it. */
  function Touched(reg: Registry, clock: Clock, ix: Index, channel: string, name: string, value: Option<Value>): (bool, Index) {
    var ix1 := Written(ix, channel, name, value);
    if channel !in ix1.channels then (false, ix1)
    else Updated(clock, ix1, channel, Dependents(reg, ix1.segments, name), Environment(reg, ix1.channels[channel]))
  }

  /** Time passing for a channel: its daily counts and the date move, its attributes do not. */
  function Aged(ix: Index, channel: string, rollup: seq<Daily>, today: int): Index {
    if channel !in ix.channels then ix
    else ix.(channels := ix.channels[channel := ix.channels[channel].(rollup := rollup, today := today)])
  }

  /** The row is well typed and meets every incremental segment's agreement condition. */
  ghost predicate RowSane(reg: Registry, clock: Clock, segs: seq<Segment>, row: Row) {
    && WellTyped(reg, row)
    && forall i :: 0 <= i < |segs| && segs[i].incremental ==> A.Regular(reg, clock, Environment(reg, row), segs[i].rule.tree)
  }

  /** Segments are accepted predicates, classified as saving classifies them; the evaluator's cache fits them. */
  ghost predicate SegmentsSane(reg: Registry, clock: Clock, ix: Index) {
    && E.Fits(ix.programs, PredicatesOf(ix.segments))
    && forall i :: 0 <= i < |ix.segments| && ix.segments[i].incremental ==>
         A.Accepted(reg, clock, ix.segments[i].rule.tree) && !ReadsAggregate(reg, ix.segments[i].rule.tree)
  }

  ghost predicate Sane(reg: Registry, clock: Clock, ix: Index) {
    && IndexInv(ix) && SegmentsSane(reg, clock, ix)
    && forall c :: c in ix.channels ==> RowSane(reg, clock, ix.segments, ix.channels[c])
  }

  ghost predicate FreshAt(reg: Registry, clock: Clock, ix: Index, seg: Segment) {
    Bitmap(ix.forward, seg.id, ix.generation) == Matching(reg, clock, ix, seg)
  }

  /** Every incremental segment's current bitmap is what its query selects now. */
  ghost predicate Fresh(reg: Registry, clock: Clock, ix: Index) {
    forall i :: 0 <= i < |ix.segments| && ix.segments[i].incremental ==> FreshAt(reg, clock, ix, ix.segments[i])
  }

  lemma {:induction false} RecomputeIsFresh(reg: Registry, clock: Clock, ix: Index)
    requires DistinctSegments(ix.segments) && Recomputed(reg, clock, ix).0
    ensures Fresh(reg, clock, Recomputed(reg, clock, ix).1)
  {
    var ix' := Recomputed(reg, clock, ix).1;
    forall i | 0 <= i < |ix'.segments| ensures FreshAt(reg, clock, ix', ix'.segments[i]) {
      RecomputeBuildsMatches(reg, clock, ix, i);
      assert Matching(reg, clock, ix', ix.segments[i]) == Matching(reg, clock, ix, ix.segments[i]);
    }
  }

  // ---- One channel's row changes ----

  /** The selected ordinals change at the channel's own ordinal only. */
  lemma {:induction false} MatchingMoves(reg: Registry, clock: Clock, ix: Index, ix': Index, seg: Segment, channel: string)
    requires DistinctSlots(ix) && Live(ix, channel) && channel in ix.channels && channel in ix'.channels
    requires ix'.slots == ix.slots && ix'.nextOrdinal == ix.nextOrdinal && ix'.channels == ix.channels[channel := ix'.channels[channel]]
    ensures forall o :: o != ix.slots[channel].ordinal ==> (o in Matching(reg, clock, ix', seg) <==> o in Matching(reg, clock, ix, seg))
    ensures ix.slots[channel].ordinal in Matching(reg, clock, ix', seg) <==> Selects(reg, clock, seg, ix'.channels[channel])
    ensures ix.slots[channel].ordinal in Matching(reg, clock, ix, seg) <==> Selects(reg, clock, seg, ix.channels[channel])
  {
    forall o | o != ix.slots[channel].ordinal ensures o in Matching(reg, clock, ix', seg) <==> o in Matching(reg, clock, ix, seg) {
      if o in Matching(reg, clock, ix, seg) {
        var c :| c in ix.slots && !ix.slots[c].retired && c in ix.channels && Selects(reg, clock, seg, ix.channels[c]) && ix.slots[c].ordinal == o;
        assert ix'.channels[c] == ix.channels[c];
      }
      if o in Matching(reg, clock, ix', seg) {
        var c :| c in ix'.slots && !ix'.slots[c].retired && c in ix'.channels && Selects(reg, clock, seg, ix'.channels[c]) && ix'.slots[c].ordinal == o;
        assert ix'.channels[c] == ix.channels[c];
      }
    }
    MatchingOf(reg, clock, ix, seg, channel);
    MatchingOf(reg, clock, ix', seg, channel);
  }

  /** Same bitmap but for the channel's bit: fresh again exactly when that bit is right. */
  lemma {:induction false} FreshAgainIff(reg: Registry, clock: Clock, ix: Index, ix': Index, seg: Segment, channel: string)
    requires DistinctSlots(ix) && Live(ix, channel) && channel in ix.channels && channel in ix'.channels
    requires ix'.slots == ix.slots && ix'.nextOrdinal == ix.nextOrdinal && ix'.channels == ix.channels[channel := ix'.channels[channel]]
    requires FreshAt(reg, clock, ix, seg)
    requires forall o :: o != ix.slots[channel].ordinal ==>
               (o in Bitmap(ix'.forward, seg.id, ix'.generation) <==> o in Bitmap(ix.forward, seg.id, ix.generation))
    ensures FreshAt(reg, clock, ix', seg)
            <==> (ix.slots[channel].ordinal in Bitmap(ix'.forward, seg.id, ix'.generation) <==> Selects(reg, clock, seg, ix'.channels[channel]))
  {
    MatchingMoves(reg, clock, ix, ix', seg, channel);
    var m, b := Matching(reg, clock, ix', seg), Bitmap(ix'.forward, seg.id, ix'.generation);
    if ix.slots[channel].ordinal in b <==> ix.slots[channel].ordinal in m {
      assert forall o :: o in b <==> o in m;
    }
  }

  /** A row change a segment cannot see does not move its bit. */
  lemma {:induction false} UnseenChange(reg: Registry, clock: Clock, seg: Segment, row: Row, row': Row)
    requires A.Accepted(reg, clock, seg.rule.tree) && WellTyped(reg, row)
    requires AgreeOn(Environment(reg, row), Environment(reg, row'), Referenced(seg.rule.tree))
    ensures Selects(reg, clock, seg, row) <==> Selects(reg, clock, seg, row')
  {
    SelectionReadsOnlyReferenced(reg, clock, seg, row, row');
  }

  lemma {:induction false} WriteIsSeenByDependents(reg: Registry, row: Row, name: string, value: Option<Value>, seg: Segment)
    requires seg.incremental && !Depends(reg, seg, name)
    ensures var row' := row.(attributes := if value.Some? then row.attributes[name := value.value] else row.attributes - {name});
            AgreeOn(Environment(reg, row), Environment(reg, row'), Referenced(seg.rule.tree))
  {
    var row' := row.(attributes := if value.Some? then row.attributes[name := value.value] else row.attributes - {name});
    forall n | n in Referenced(seg.rule.tree) ensures Get(Environment(reg, row), n) == Get(Environment(reg, row'), n) {
      if n in reg { assert n != name; }
    }
  }

  lemma {:induction false} AgeIsUnseen(reg: Registry, row: Row, rollup: seq<Daily>, today: int, e: Expr)
    requires !ReadsAggregate(reg, e)
    ensures AgreeOn(Environment(reg, row), Environment(reg, row.(rollup := rollup, today := today)), Referenced(e))
  {
    var row' := row.(rollup := rollup, today := today);
    forall n | n in Referenced(e) ensures Get(Environment(reg, row), n) == Get(Environment(reg, row'), n) {
      if n in reg { assert !reg[n].source.EventAggregate?; }
    }
  }

  // ---- The touch ----

  lemma {:induction false} DependentsAre(reg: Registry, segs: seq<Segment>, name: string)
    ensures forall s :: s in Dependents(reg, segs, name) <==> s in segs && Depends(reg, s, name)
  {
    if segs != [] {
      DependentsAre(reg, segs[..|segs| - 1], name);
      assert segs == segs[..|segs| - 1] + [segs[|segs| - 1]];
    }
  }

  /** A touch of a live channel, everything being sane before and after. */
  ghost predicate SaneTouch(reg: Registry, clock: Clock, ix: Index, channel: string, name: string, value: Option<Value>) {
    && Sane(reg, clock, ix) && Live(ix, channel) && channel in ix.channels
    && RowSane(reg, clock, ix.segments, Written(ix, channel, name, value).channels[channel])
  }

  lemma {:induction false} WriteKeepsSane(reg: Registry, clock: Clock, ix: Index, channel: string, name: string, value: Option<Value>)
    requires SaneTouch(reg, clock, ix, channel, name, value)
    ensures Sane(reg, clock, Written(ix, channel, name, value))
  {
    RowsDoNotMatter(ix, Written(ix, channel, name, value).channels);
  }

  lemma {:induction false} TouchKeepsSane(reg: Registry, clock: Clock, ix: Index, channel: string, name: string, value: Option<Value>)
    requires SaneTouch(reg, clock, ix, channel, name, value)
    ensures Sane(reg, clock, Touched(reg, clock, ix, channel, name, value).1)
  {
    var ix1 := Written(ix, channel, name, value);
    var segs, env := Dependents(reg, ix1.segments, name), Environment(reg, ix1.channels[channel]);
    WriteKeepsSane(reg, clock, ix, channel, name, value);
    DependentsAre(reg, ix1.segments, name);
    UpdateKeepsTheIndexes(clock, ix1, channel, segs, env);
    assert PredicatesOf(segs) <= PredicatesOf(ix1.segments);
    PassKeepsTheCache(clock, StartPass(ix1, channel), segs, ix1.slots[channel].ordinal, ix1.generation, env, PredicatesOf(ix1.segments));
  }

  /** The update succeeds exactly when every dependent segment has a row-wise answer on the new row. */
  lemma {:induction false} TouchSucceedsIff(reg: Registry, clock: Clock, ix: Index, channel: string, name: string, value: Option<Value>)
    requires SaneTouch(reg, clock, ix, channel, name, value)
    ensures Touched(reg, clock, ix, channel, name, value).0
            <==> forall s :: s in ix.segments && Depends(reg, s, name) ==>
                   RowEval(clock, Environment(reg, Written(ix, channel, name, value).channels[channel]), s.rule.tree).Value?
  {
    var ix1 := Written(ix, channel, name, value);
    var segs, row := Dependents(reg, ix1.segments, name), ix1.channels[channel];
    var env := Environment(reg, row);
    DependentsAre(reg, ix1.segments, name);
    PassFailsIff(clock, StartPass(ix1, channel), segs, ix1.segments, ix1.slots[channel].ordinal, ix1.generation, env);
    if s :| Takes(segs, s) && E.VerdictOf(RowEval(clock, env, s.rule.tree)).Failed? {
      FailureIsError(reg, clock, ix, s, row);
      assert s in ix.segments && Depends(reg, s, name);
    } else {
      forall s | s in ix.segments && Depends(reg, s, name) ensures RowEval(clock, env, s.rule.tree).Value? {
        assert Takes(segs, s);
        FailureIsError(reg, clock, ix, s, row);
      }
    }
  }

  lemma {:induction false} FailureIsError(reg: Registry, clock: Clock, ix: Index, s: Segment, row: Row)
    requires SegmentsSane(reg, clock, ix) && RowSane(reg, clock, ix.segments, row) && s in ix.segments && s.incremental
    ensures E.VerdictOf(RowEval(clock, Environment(reg, row), s.rule.tree)).Failed? <==> RowEval(clock, Environment(reg, row), s.rule.tree).Error?
  {
    EvaluationIsTyped(clock, reg, row, s.rule.tree);
  }

  /** A dependent segment's bit after a successful touch is the database's own answer on the new row. */
  lemma {:induction false} DependentBitIsRight(reg: Registry, clock: Clock, ix: Index, channel: string, name: string, value: Option<Value>, seg: Segment)
    requires SaneTouch(reg, clock, ix, channel, name, value) && Touched(reg, clock, ix, channel, name, value).0
    requires seg in ix.segments && Depends(reg, seg, name)
    ensures var (_, ix') := Touched(reg, clock, ix, channel, name, value);
            ix.slots[channel].ordinal in Bitmap(ix'.forward, seg.id, ix'.generation) <==> Selects(reg, clock, seg, ix'.channels[channel])
  {
    var ix1 := Written(ix, channel, name, value);
    var segs, row := Dependents(reg, ix1.segments, name), ix1.channels[channel];
    var env, ordinal := Environment(reg, row), ix1.slots[channel].ordinal;
    DependentsAre(reg, ix1.segments, name);
    assert Takes(segs, seg);
    PassFlipsBoth(clock, StartPass(ix1, channel), segs, ix1.segments, ordinal, ix1.generation, env);
    PassGivesVerdicts(clock, StartPass(ix1, channel), segs, ix1.segments, ordinal, ix1.generation, env);
    VerdictIsSelection(reg, clock, ix.segments, seg, row);
  }

  lemma {:induction false} VerdictIsSelection(reg: Registry, clock: Clock, segs: seq<Segment>, seg: Segment, row: Row)
    requires RowSane(reg, clock, segs, row) && seg in segs && seg.incremental && A.Accepted(reg, clock, seg.rule.tree)
    requires E.VerdictOf(RowEval(clock, Environment(reg, row), seg.rule.tree)).Matched?
    ensures E.VerdictOf(RowEval(clock, Environment(reg, row), seg.rule.tree)) == E.Matched(Selects(reg, clock, seg, row))
  {
    var i :| 0 <= i < |segs| && segs[i] == seg;
    var args := Compiled(reg, clock, seg.rule.tree, []).1;
    assert args + [] == args;
    A.DatabaseFollowsRowWise(reg, clock, row, seg.rule.tree, []);
  }

  /** The bits of other channels, and of segments that do not depend, stay. */
  lemma {:induction false} TouchFrame(reg: Registry, clock: Clock, ix: Index, channel: string, name: string, value: Option<Value>, seg: Segment, o: nat)
    requires SaneTouch(reg, clock, ix, channel, name, value) && seg in ix.segments
    requires o != ix.slots[channel].ordinal || !Depends(reg, seg, name) || !Touched(reg, clock, ix, channel, name, value).0
    ensures var (_, ix') := Touched(reg, clock, ix, channel, name, value);
            o in Bitmap(ix'.forward, seg.id, ix'.generation) <==> o in Bitmap(ix.forward, seg.id, ix.generation)
  {
    var (ok, ix') := Touched(reg, clock, ix, channel, name, value);
    if ok {
      var ix1 := Written(ix, channel, name, value);
      var segs, env := Dependents(reg, ix1.segments, name), Environment(reg, ix1.channels[channel]);
      DependentsAre(reg, ix1.segments, name);
      PassChangesOnlyItsBits(clock, StartPass(ix1, channel), segs, ix1.slots[channel].ordinal, ix1.generation, env);
      forall s | Takes(segs, s) && s != seg ensures s.id != seg.id { Differ(ix.segments, s, seg); }
    }
  }

  lemma {:induction false} TouchedParts(reg: Registry, clock: Clock, ix: Index, channel: string, name: string, value: Option<Value>)
    requires channel in ix.channels
    ensures var ix', ix1 := Touched(reg, clock, ix, channel, name, value).1, Written(ix, channel, name, value);
            ix'.slots == ix.slots && ix'.nextOrdinal == ix.nextOrdinal && ix'.channels == ix1.channels && ix'.segments == ix.segments && ix'.generation == ix.generation
            && channel in ix'.channels && ix'.channels == ix.channels[channel := ix'.channels[channel]]
  {
  }

  /** A segment is fresh after the touch if and only if it does not depend, the update succeeded, or its truth did not change. */
  lemma {:induction false} SegmentFreshIff(reg: Registry, clock: Clock, ix: Index, channel: string, name: string, value: Option<Value>, seg: Segment)
    requires SaneTouch(reg, clock, ix, channel, name, value)
    requires seg in ix.segments && seg.incremental && FreshAt(reg, clock, ix, seg)
    ensures var (ok, ix') := Touched(reg, clock, ix, channel, name, value);
            channel in ix'.channels && (FreshAt(reg, clock, ix', seg) <==> Kept(reg, clock, ix, ix', channel, name, ok, seg))
  {
    var (ok, ix') := Touched(reg, clock, ix, channel, name, value);
    TouchedParts(reg, clock, ix, channel, name, value);
    forall o | o != ix.slots[channel].ordinal
      ensures o in Bitmap(ix'.forward, seg.id, ix'.generation) <==> o in Bitmap(ix.forward, seg.id, ix.generation)
    {
      TouchFrame(reg, clock, ix, channel, name, value, seg, o);
    }
    FreshAgainIff(reg, clock, ix, ix', seg, channel);
    if Depends(reg, seg, name) && ok {
      DependentBitIsRight(reg, clock, ix, channel, name, value, seg);
    } else {
      TouchFrame(reg, clock, ix, channel, name, value, seg, ix.slots[channel].ordinal);
      MatchingOf(reg, clock, ix, seg, channel);
      if !Depends(reg, seg, name) {
        assert RowSane(reg, clock, ix.segments, ix.channels[channel]);
        WriteIsSeenByDependents(reg, ix.channels[channel], name, value, seg);
        UnseenChange(reg, clock, seg, ix.channels[channel], ix'.channels[channel]);
      }
    }
  }

  /** No dependent segment's selection of the channel differs between the two rows. */
  ghost predicate TruthUnmoved(reg: Registry, clock: Clock, segs: seq<Segment>, name: string, row: Row, row': Row) {
    forall s :: s in segs && Depends(reg, s, name) ==> (Selects(reg, clock, s, row') <==> Selects(reg, clock, s, row))
  }

  /**
   Writing an attribute and updating its dependents keeps every incremental segment as a recomputation
   would build it if and only if the update succeeded, or no dependent's selection of the channel changed.
   */
  lemma {:induction false} TouchKeepsFreshIff(reg: Registry, clock: Clock, ix: Index, channel: string, name: string, value: Option<Value>)
    requires SaneTouch(reg, clock, ix, channel, name, value) && Fresh(reg, clock, ix)
    ensures var (ok, ix') := Touched(reg, clock, ix, channel, name, value);
            channel in ix'.channels
            && (Fresh(reg, clock, ix') <==> ok || TruthUnmoved(reg, clock, ix.segments, name, ix.channels[channel], ix'.channels[channel]))
  {
    var (ok, ix') := Touched(reg, clock, ix, channel, name, value);
    TouchedParts(reg, clock, ix, channel, name, value);
    forall s | s in ix.segments && s.incremental ensures FreshAt(reg, clock, ix', s) <==> Kept(reg, clock, ix, ix', channel, name, ok, s) {
      SegmentFreshIff(reg, clock, ix, channel, name, value, s);
    }
    EachKept(reg, clock, ix, ix', channel, name, ok);
  }

  /** The segment does not depend on the name, the update succeeded, or its truth did not change. */
  ghost predicate Kept(reg: Registry, clock: Clock, ix: Index, ix': Index, channel: string, name: string, ok: bool, s: Segment)
    requires channel in ix.channels && channel in ix'.channels
  {
    !Depends(reg, s, name) || ok || (Selects(reg, clock, s, ix'.channels[channel]) <==> Selects(reg, clock, s, ix.channels[channel]))
  }

  lemma {:induction false} EachKept(reg: Registry, clock: Clock, ix: Index, ix': Index, channel: string, name: string, ok: bool)
    requires channel in ix.channels && channel in ix'.channels && ix'.segments == ix.segments
    requires forall s :: s in ix.segments && s.incremental ==> (FreshAt(reg, clock, ix', s) <==> Kept(reg, clock, ix, ix', channel, name, ok, s))
    ensures Fresh(reg, clock, ix') <==> ok || TruthUnmoved(reg, clock, ix.segments, name, ix.channels[channel], ix'.channels[channel])
  {
    if Fresh(reg, clock, ix') && !ok {
      FreshEach(reg, clock, ix');
      forall s | s in ix.segments && Depends(reg, s, name)
        ensures Selects(reg, clock, s, ix'.channels[channel]) <==> Selects(reg, clock, s, ix.channels[channel])
      {
        assert Kept(reg, clock, ix, ix', channel, name, ok, s);
      }
    }
  }

  lemma {:induction false} FreshEach(reg: Registry, clock: Clock, ix: Index)
    requires Fresh(reg, clock, ix)
    ensures forall s :: s in ix.segments && s.incremental ==> FreshAt(reg, clock, ix, s)
  {
  }

  // ---- Time ----

  lemma {:induction false} AgeKeepsFresh(reg: Registry, clock: Clock, ix: Index, channel: string, rollup: seq<Daily>, today: int)
    requires Sane(reg, clock, ix) && Fresh(reg, clock, ix) && Live(ix, channel) && channel in ix.channels
    ensures Fresh(reg, clock, Aged(ix, channel, rollup, today))
  {
    var ix' := Aged(ix, channel, rollup, today);
    assert RowSane(reg, clock, ix.segments, ix.channels[channel]);
    forall i | 0 <= i < |ix'.segments| && ix'.segments[i].incremental ensures FreshAt(reg, clock, ix', ix'.segments[i]) {
      var seg := ix.segments[i];
      AgeIsUnseen(reg, ix.channels[channel], rollup, today, seg.rule.tree);
      UnseenChange(reg, clock, seg, ix.channels[channel], ix'.channels[channel]);
      FreshAgainIff(reg, clock, ix, ix', seg, channel);
      MatchingOf(reg, clock, ix, seg, channel);
    }
  }

  lemma {:induction false} AgeKeepsSane(reg: Registry, clock: Clock, ix: Index, channel: string, rollup: seq<Daily>, today: int)
    requires Sane(reg, clock, ix) && channel in ix.channels
    requires RowSane(reg, clock, ix.segments, Aged(ix, channel, rollup, today).channels[channel])
    ensures Sane(reg, clock, Aged(ix, channel, rollup, today))
  {
    RowsDoNotMatter(ix, Aged(ix, channel, rollup, today).channels);
  }

  // ---- Runs between recomputations ----

  datatype Change =
    | Touch(channel: string, name: string, value: Option<Value>)
    | Age(channel: string, rollup: seq<Daily>, today: int)

  function Changed(reg: Registry, clock: Clock, ix: Index, ch: Change): Index {
    match ch
    case Touch(c, name, value) => Touched(reg, clock, ix, c, name, value).1
    case Age(c, rollup, today) => Aged(ix, c, rollup, today)
  }

  function ChangedAll(reg: Registry, clock: Clock, ix: Index, chs: seq<Change>): Index {
    if chs == [] then ix else Changed(reg, clock, ChangedAll(reg, clock, ix, chs[..|chs| - 1]), chs[|chs| - 1])
  }

  /** The change is to a live channel and leaves a sane row. */
  ghost predicate SaneChange(reg: Registry, clock: Clock, ix: Index, ch: Change) {
    && Live(ix, ch.channel) && ch.channel in ix.channels
    && match ch
       case Touch(c, name, value) => RowSane(reg, clock, ix.segments, Written(ix, c, name, value).channels[c])
       case Age(c, rollup, today) => RowSane(reg, clock, ix.segments, Aged(ix, c, rollup, today).channels[c])
  }

  ghost predicate AllSane(reg: Registry, clock: Clock, ix: Index, chs: seq<Change>) {
    chs == []
    || (AllSane(reg, clock, ix, chs[..|chs| - 1]) && SaneChange(reg, clock, ChangedAll(reg, clock, ix, chs[..|chs| - 1]), chs[|chs| - 1]))
  }

  /** Every dependent has a row-wise answer on the written row, or none changes its selection of the channel. Seen before the touch. */
  ghost predicate Harmless(reg: Registry, clock: Clock, ix: Index, ch: Change) {
    ch.Touch? && ch.channel in ix.channels ==>
      var row, row' := ix.channels[ch.channel], Written(ix, ch.channel, ch.name, ch.value).channels[ch.channel];
      || (forall s :: s in ix.segments && Depends(reg, s, ch.name) ==> RowEval(clock, Environment(reg, row'), s.rule.tree).Value?)
      || TruthUnmoved(reg, clock, ix.segments, ch.name, row, row')
  }

  ghost predicate AllHarmless(reg: Registry, clock: Clock, ix: Index, chs: seq<Change>) {
    chs == []
    || (AllHarmless(reg, clock, ix, chs[..|chs| - 1]) && Harmless(reg, clock, ChangedAll(reg, clock, ix, chs[..|chs| - 1]), chs[|chs| - 1]))
  }

  /** Fresh at every point of the run. */
  ghost predicate AlwaysFresh(reg: Registry, clock: Clock, ix: Index, chs: seq<Change>) {
    Fresh(reg, clock, ChangedAll(reg, clock, ix, chs)) && (chs == [] || AlwaysFresh(reg, clock, ix, chs[..|chs| - 1]))
  }

  /** One change keeps every incremental segment fresh if and only if it is harmless. */
  lemma {:induction false} ChangeKeepsFreshIff(reg: Registry, clock: Clock, ix: Index, ch: Change)
    requires Sane(reg, clock, ix) && Fresh(reg, clock, ix) && SaneChange(reg, clock, ix, ch)
    ensures Fresh(reg, clock, Changed(reg, clock, ix, ch)) <==> Harmless(reg, clock, ix, ch)
  {
    match ch
    case Touch(c, name, value) =>
      TouchKeepsFreshIff(reg, clock, ix, c, name, value);
      TouchSucceedsIff(reg, clock, ix, c, name, value);
      TouchedParts(reg, clock, ix, c, name, value);
    case Age(c, rollup, today) => AgeKeepsFresh(reg, clock, ix, c, rollup, today);
  }

  lemma {:induction false} ChangeKeepsSane(reg: Registry, clock: Clock, ix: Index, ch: Change)
    requires Sane(reg, clock, ix) && SaneChange(reg, clock, ix, ch)
    ensures Sane(reg, clock, Changed(reg, clock, ix, ch))
  {
    match ch
    case Touch(c, name, value) => TouchKeepsSane(reg, clock, ix, c, name, value);
    case Age(c, rollup, today) => AgeKeepsSane(reg, clock, ix, c, rollup, today);
  }

  lemma {:induction false} ChangesKeepSane(reg: Registry, clock: Clock, ix: Index, chs: seq<Change>)
    requires Sane(reg, clock, ix) && AllSane(reg, clock, ix, chs)
    ensures Sane(reg, clock, ChangedAll(reg, clock, ix, chs))
  {
    if chs != [] {
      ChangesKeepSane(reg, clock, ix, chs[..|chs| - 1]);
      ChangeKeepsSane(reg, clock, ChangedAll(reg, clock, ix, chs[..|chs| - 1]), chs[|chs| - 1]);
    }
  }

  /** A run is fresh at every point if and only if each of its changes was harmless. */
  lemma {:induction false} RunStaysFreshIff(reg: Registry, clock: Clock, ix: Index, chs: seq<Change>)
    requires Sane(reg, clock, ix) && Fresh(reg, clock, ix) && AllSane(reg, clock, ix, chs)
    ensures AlwaysFresh(reg, clock, ix, chs) <==> AllHarmless(reg, clock, ix, chs)
  {
    if chs != [] {
      var front, before := chs[..|chs| - 1], ChangedAll(reg, clock, ix, chs[..|chs| - 1]);
      RunStaysFreshIff(reg, clock, ix, front);
      ChangesKeepSane(reg, clock, ix, front);
      if AlwaysFresh(reg, clock, ix, front) { ChangeKeepsFreshIff(reg, clock, before, chs[|chs| - 1]); }
    }
  }

  /** Recomputing `ix` would change nothing of segment `i`: no disagreement, the same bitmap, the same reverse bits. */
  ghost predicate RecomputeChangesNothingOf(reg: Registry, clock: Clock, ix: Index, i: nat)
    requires i < |ix.segments|
  {
    var seg, ix' := ix.segments[i], Recomputed(reg, clock, ix).1;
    && Disagreement(reg, clock, ix, seg) == 0
    && Bitmap(ix'.forward, seg.id, ix'.generation) == Bitmap(ix.forward, seg.id, ix.generation)
    && forall c :: Live(ix, c) ==> (seg.ordinal in ReverseOf(ix'.reverse, c) <==> seg.ordinal in ReverseOf(ix.reverse, c))
  }

  lemma {:induction false} FreshMeansNothingToDo(reg: Registry, clock: Clock, ix: Index, i: nat)
    requires IndexInv(ix) && Fresh(reg, clock, ix) && i < |ix.segments| && ix.segments[i].incremental && Recomputed(reg, clock, ix).0
    ensures RecomputeChangesNothingOf(reg, clock, ix, i)
  {
    var seg, ix' := ix.segments[i], Recomputed(reg, clock, ix).1;
    assert FreshAt(reg, clock, ix, seg);
    var was, now := Bitmap(ix.forward, seg.id, ix.generation), Matching(reg, clock, ix, seg);
    assert (was - now) + (now - was) == {};
    RecomputeBuildsMatches(reg, clock, ix, i);
    forall c | Live(ix, c) ensures seg.ordinal in ReverseOf(ix'.reverse, c) <==> seg.ordinal in ReverseOf(ix.reverse, c) {
      assert BitsAgree(ix, c, ix.segments[i]);
      MembersOfSegment(reg, clock, ix, i, ix.slots[c].ordinal);
    }
  }

  /** Of every incremental segment. */
  ghost predicate NothingToDo(reg: Registry, clock: Clock, ix: Index) {
    forall i :: 0 <= i < |ix.segments| && ix.segments[i].incremental ==> RecomputeChangesNothingOf(reg, clock, ix, i)
  }

  /** An index is fresh if and only if recomputing it would change nothing. */
  lemma {:induction false} FreshIffNothingToDo(reg: Registry, clock: Clock, ix: Index)
    requires IndexInv(ix) && Recomputed(reg, clock, ix).0
    ensures Fresh(reg, clock, ix) <==> NothingToDo(reg, clock, ix)
  {
    forall i | 0 <= i < |ix.segments| && ix.segments[i].incremental
      ensures Fresh(reg, clock, ix) ==> RecomputeChangesNothingOf(reg, clock, ix, i)
      ensures RecomputeChangesNothingOf(reg, clock, ix, i) ==> FreshAt(reg, clock, ix, ix.segments[i])
    {
      if Fresh(reg, clock, ix) { FreshMeansNothingToDo(reg, clock, ix, i); }
      RecomputeBuildsMatches(reg, clock, ix, i);
    }
  }

  /**
   After a recomputation: through a run of attribute writes and of time passing both indexes stay, for
   every incremental segment, exactly as the next recomputation builds them, if and only if each write
   either gave all its dependents an answer or changed no dependent's selection.
   */
  lemma {:induction false} IncrementalEqualsRecomputeIff(reg: Registry, clock: Clock, ix: Index, chs: seq<Change>)
    requires Recomputed(reg, clock, ix).0 && Sane(reg, clock, Recomputed(reg, clock, ix).1)
    requires AllSane(reg, clock, Recomputed(reg, clock, ix).1, chs)
    ensures AlwaysFresh(reg, clock, Recomputed(reg, clock, ix).1, chs) <==> AllHarmless(reg, clock, Recomputed(reg, clock, ix).1, chs)
  {
    RecomputeIsFresh(reg, clock, ix);
    RunStaysFreshIff(reg, clock, Recomputed(reg, clock, ix).1, chs);
  }

  /** So after a harmless run the next recomputation changes nothing, and reports no disagreement. */
  lemma {:induction false} IncrementalEqualsRecompute(reg: Registry, clock: Clock, ix: Index, chs: seq<Change>)
    requires Recomputed(reg, clock, ix).0 && Sane(reg, clock, Recomputed(reg, clock, ix).1)
    requires AllSane(reg, clock, Recomputed(reg, clock, ix).1, chs) && AllHarmless(reg, clock, Recomputed(reg, clock, ix).1, chs)
    requires Recomputed(reg, clock, ChangedAll(reg, clock, Recomputed(reg, clock, ix).1, chs)).0
    ensures NothingToDo(reg, clock, ChangedAll(reg, clock, Recomputed(reg, clock, ix).1, chs))
  {
    IncrementalEqualsRecomputeIff(reg, clock, ix, chs);
    ChangesKeepSane(reg, clock, Recomputed(reg, clock, ix).1, chs);
    FreshIffNothingToDo(reg, clock, ChangedAll(reg, clock, Recomputed(reg, clock, ix).1, chs));
  }

  // ---- How a bit goes stale ----

  lemma {:induction false} BothEval(clock: Clock, env: map<string, Value>, x: string, y: string)
    requires Get(env, x) == Some(BoolVal(true)) && y !in env
    ensures RowEval(clock, env, Call(And, [Ident(x), Ident(y)])) == Error
  {
    var es := [Ident(x), Ident(y)];
    var vs := Outcomes(clock, env, es);
    assert vs[0] == RowEval(clock, env, es[0]) && vs[1] == RowEval(clock, env, es[1]);
  }

  /**
   One segment asks for `x`, another for `x && y`, and the channel has no `y`. Setting `x` fails the
   update, for the second segment has no answer; so the first segment, which now selects the channel,
   keeps its bit unset until the next recomputation.
   */
  lemma {:induction false} AMissingAttributeStalesAnother(reg: Registry, clock: Clock, ix: Index, channel: string, a: Segment, b: Segment, x: string, y: string)
    requires SaneTouch(reg, clock, ix, channel, x, Some(BoolVal(true))) && Fresh(reg, clock, ix)
    requires a in ix.segments && a.incremental && a.rule.tree == Ident(x)
    requires b in ix.segments && b.incremental && b.rule.tree == Call(And, [Ident(x), Ident(y)])
    requires x != y && x !in ix.channels[channel].attributes && y !in ix.channels[channel].attributes
    ensures var (ok, ix') := Touched(reg, clock, ix, channel, x, Some(BoolVal(true)));
            && !ok && channel in ix'.channels && Selects(reg, clock, a, ix'.channels[channel])
            && ix.slots[channel].ordinal !in Bitmap(ix'.forward, a.id, ix'.generation)
            && !Fresh(reg, clock, ix')
  {
    var (ok, ix') := Touched(reg, clock, ix, channel, x, Some(BoolVal(true)));
    var row, row' := ix.channels[channel], ix'.channels[channel];
    TouchedParts(reg, clock, ix, channel, x, Some(BoolVal(true)));
    assert RowSane(reg, clock, ix.segments, row);
    NamesOfBoth(reg, clock, ix, a, b, x, y);
    BothEval(clock, Environment(reg, row'), x, y);
    TouchSucceedsIff(reg, clock, ix, channel, x, Some(BoolVal(true)));
    SelectsIdent(reg, clock, a, x, row);
    SelectsIdent(reg, clock, a, x, row');
    TouchFrame(reg, clock, ix, channel, x, Some(BoolVal(true)), a, ix.slots[channel].ordinal);
    MatchingOf(reg, clock, ix, a, channel);
    assert FreshAt(reg, clock, ix, a);
    TouchKeepsFreshIff(reg, clock, ix, channel, x, Some(BoolVal(true)));
  }

  lemma {:induction false} NamesOfBoth(reg: Registry, clock: Clock, ix: Index, a: Segment, b: Segment, x: string, y: string)
    requires SegmentsSane(reg, clock, ix)
    requires a in ix.segments && a.incremental && a.rule.tree == Ident(x)
    requires b in ix.segments && b.incremental && b.rule.tree == Call(And, [Ident(x), Ident(y)])
    ensures x in reg && y in reg && !reg[x].source.EventAggregate? && !reg[y].source.EventAggregate?
    ensures Depends(reg, a, x) && Depends(reg, b, x)
    ensures A.Accepted(reg, clock, a.rule.tree)
  {
    var es := [Ident(x), Ident(y)];
    assert es[0] == Ident(x) && es[1] == Ident(y);
    assert x in Referenced(es[0]) && x in ReferencedIn(es) && y in Referenced(es[1]) && y in ReferencedIn(es);
    assert TypesOf(reg, es)[0] == TypeOf(reg, es[0]) && TypesOf(reg, es)[1] == TypeOf(reg, es[1]);
  }

  lemma {:induction false} SelectsIdent(reg: Registry, clock: Clock, seg: Segment, x: string, row: Row)
    requires seg.rule.tree == Ident(x) && A.Accepted(reg, clock, Ident(x)) && WellTyped(reg, row) && !reg[x].source.EventAggregate?
    ensures Selects(reg, clock, seg, row) <==> Get(row.attributes, x) == Some(BoolVal(true))
  {
    var args := Compiled(reg, clock, Ident(x), []).1;
    A.PrefixArg(args, args, 1);
  }

  // ---- Such a channel ----

  const FLAGS: Registry := map["x" := Definition(BoolAttr, ChannelField), "y" := Definition(BoolAttr, ChannelField)]
  const BARE := Row(map[], [], 0)
  const WANTS_X := Segment("a", 1, E.Predicate(Ident("x"), "hash of x"), true)
  const WANTS_BOTH := Segment("b", 2, E.Predicate(Call(And, [Ident("x"), Ident("y")]), "hash of both"), true)
  const STALING := Index([WANTS_X, WANTS_BOTH], map["c" := BARE], map["c" := Slot(1, false)], 2, map[], 0, map[], map[])

  lemma {:induction false} FlagsAccepted(clock: Clock)
    ensures A.Accepted(FLAGS, clock, WANTS_X.rule.tree) && A.Accepted(FLAGS, clock, WANTS_BOTH.rule.tree)
  {
    var both := WANTS_BOTH.rule.tree;
    assert TypesOf(FLAGS, both.args) == [Some(BoolTy), Some(BoolTy)];
    A.BinaryCompiled(FLAGS, clock, both, []);
  }

  lemma {:induction false} FlagsRead()
    ensures Referenced(WANTS_X.rule.tree) <= FLAGS.Keys && Referenced(WANTS_BOTH.rule.tree) <= FLAGS.Keys
    ensures !ReadsAggregate(FLAGS, WANTS_X.rule.tree) && !ReadsAggregate(FLAGS, WANTS_BOTH.rule.tree)
  {
    var es := WANTS_BOTH.rule.tree.args;
    forall n | n in ReferencedIn(es) ensures n in FLAGS {
      var i :| 0 <= i < |es| && n in Referenced(es[i]);
    }
  }

  lemma {:induction false} FlagsPlain(clock: Clock, row: Row)
    requires WellTyped(FLAGS, row)
    ensures RowSane(FLAGS, clock, STALING.segments, row)
  {
    forall i | 0 <= i < 2 ensures A.Regular(FLAGS, clock, Environment(FLAGS, row), STALING.segments[i].rule.tree) {
      assert A.Plain(STALING.segments[i].rule.tree);
      A.PlainIsUnconditional(FLAGS, clock, Environment(FLAGS, row), STALING.segments[i].rule.tree);
    }
  }

  lemma {:induction false} BareIsSelectedByNone(clock: Clock)
    ensures !Selects(FLAGS, clock, WANTS_X, BARE) && !Selects(FLAGS, clock, WANTS_BOTH, BARE)
  {
    FlagsAccepted(clock);
    SelectsIdent(FLAGS, clock, WANTS_X, "x", BARE);
    var env := Environment(FLAGS, BARE);
    var both := WANTS_BOTH.rule.tree;
    assert env == map[];
    assert Outcomes(clock, env, both.args)[0] == Error;
    assert Outcomes(clock, env, both.args)[1] == Error;
    assert RowEval(clock, env, both) == Error;
    var args := Compiled(FLAGS, clock, both, []).1;
    assert args + [] == args;
    A.PlainPredicatesAgree(FLAGS, clock, BARE, both, []);
  }

  lemma {:induction false} StalingIsSane(clock: Clock)
    ensures IndexInv(STALING) && SegmentsSane(FLAGS, clock, STALING)
  {
    FlagsAccepted(clock);
    FlagsRead();
    assert WANTS_X.rule.hash[8] != WANTS_BOTH.rule.hash[8];
    assert WANTS_X.id[0] != WANTS_BOTH.id[0];
    assert E.Fits(STALING.programs, PredicatesOf(STALING.segments)) by {
      assert forall p :: p in PredicatesOf(STALING.segments) ==> p == WANTS_X.rule || p == WANTS_BOTH.rule;
    }
  }

  lemma {:induction false} StalingIsFresh(clock: Clock)
    ensures Fresh(FLAGS, clock, STALING)
  {
    BareIsSelectedByNone(clock);
    forall i | 0 <= i < 2 ensures FreshAt(FLAGS, clock, STALING, STALING.segments[i]) {
      assert Matching(FLAGS, clock, STALING, STALING.segments[i]) == {};
    }
  }

  lemma {:induction false} StalingTouch(clock: Clock)
    requires IndexInv(STALING) && SegmentsSane(FLAGS, clock, STALING)
    ensures SaneTouch(FLAGS, clock, STALING, "c", "x", Some(BoolVal(true)))
  {
    FlagsPlain(clock, BARE);
    FlagsPlain(clock, Written(STALING, "c", "x", Some(BoolVal(true))).channels["c"]);
  }

  /** The hypotheses of `AMissingAttributeStalesAnother` do occur: two segments and a channel without attributes meet them. */
  lemma {:induction false} TheStaleCaseArises(clock: Clock)
    ensures SaneTouch(FLAGS, clock, STALING, "c", "x", Some(BoolVal(true))) && Fresh(FLAGS, clock, STALING)
    ensures WANTS_X in STALING.segments && WANTS_BOTH in STALING.segments && "x" != "y"
    ensures "x" !in STALING.channels["c"].attributes && "y" !in STALING.channels["c"].attributes
    ensures !Fresh(FLAGS, clock, Touched(FLAGS, clock, STALING, "c", "x", Some(BoolVal(true))).1)
  {
    StalingIsSane(clock);
    StalingIsFresh(clock);
    StalingTouch(clock);
    assert STALING.segments[0] == WANTS_X && STALING.segments[1] == WANTS_BOTH;
    assert "x"[0] != "y"[0];
    AMissingAttributeStalesAnother(FLAGS, clock, STALING, "c", WANTS_X, WANTS_BOTH, "x", "y");
  }
}
