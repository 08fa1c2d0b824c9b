/**
 What the membership indexes say of the channels, in terms of what was asked for: who is registered under
 which ordinal, who a recomputation selects, what a disagreement counts, and which write an attribute shows.
 */
module MembershipMeaning {
  import opened Wrappers
  import opened Predicates
  import opened SqlCompile
  import opened Membership
  import opened MembershipRuns
  import opened Acceptance
  import E = Evaluator

  // ---- Registration and retirement ----

  ghost function Registrants(ops: seq<Op>): set<string> {
    set op | op in ops && op.Register? :: op.channel
  }

  /** Registered, and retired later. */
  ghost predicate RetiredIn(ops: seq<Op>, c: string) {
    exists i: nat, j: nat :: i < j < |ops| && ops[i] == Register(c) && ops[j] == Retire(c)
  }

  lemma {:induction false} OtherStepsLeaveSlots(reg: Registry, clock: Clock, ix: Index, op: Op)
    requires !op.Register? && !op.Retire?
    ensures Step(reg, clock, ix, op).slots == ix.slots && Step(reg, clock, ix, op).nextOrdinal == ix.nextOrdinal
  {
  }

  lemma {:induction false} RegistrantsSnoc(ops: seq<Op>, op: Op)
    ensures Registrants(ops + [op]) == Registrants(ops) + if op.Register? then {op.channel} else {}
  {
  }

  lemma {:induction false} RetiredSnoc(ops: seq<Op>, op: Op, c: string)
    ensures RetiredIn(ops + [op], c) <==> RetiredIn(ops, c) || (op == Retire(c) && Register(c) in ops)
  {
    var all := ops + [op];
    if RetiredIn(ops, c) {
      var i: nat, j: nat :| i < j < |ops| && ops[i] == Register(c) && ops[j] == Retire(c);
      assert all[i] == Register(c) && all[j] == Retire(c);
    }
    if op == Retire(c) && Register(c) in ops {
      var i: nat :| i < |ops| && ops[i] == Register(c);
      assert all[i] == Register(c) && all[|ops|] == Retire(c);
    }
    if RetiredIn(all, c) {
      var i: nat, j: nat :| i < j < |all| && all[i] == Register(c) && all[j] == Retire(c);
      assert ops[i] == Register(c);
      if j < |ops| { assert ops[j] == Retire(c); }
    }
  }

  lemma {:induction false} RegisteredSlots(ix: Index, c: string)
    requires ix.nextOrdinal == |ix.slots| + 1
    ensures var ix' := Registered(ix, c); ix'.slots.Keys == ix.slots.Keys + {c} && ix'.nextOrdinal == |ix'.slots| + 1
  {
    var ix' := Registered(ix, c);
    assert ix'.slots.Keys == ix.slots.Keys + {c};
    assert |ix'.slots| == |ix'.slots.Keys| && |ix.slots| == |ix.slots.Keys|;
  }

  lemma {:induction false} RetiredSlots(ix: Index, c: string)
    ensures var ix' := Retired(ix, c); ix'.slots.Keys == ix.slots.Keys && |ix'.slots| == |ix.slots| && ix'.nextOrdinal == ix.nextOrdinal
  {
    var ix' := Retired(ix, c);
    assert ix'.slots.Keys == ix.slots.Keys;
    assert |ix'.slots| == |ix'.slots.Keys| && |ix.slots| == |ix.slots.Keys|;
  }

  lemma {:induction false} SlotsAfter(reg: Registry, clock: Clock, ix: Index, op: Op)
    requires ix.nextOrdinal == |ix.slots| + 1
    ensures var ix' := Step(reg, clock, ix, op);
            && ix'.slots.Keys == ix.slots.Keys + (if op.Register? then {op.channel} else {})
            && ix'.nextOrdinal == |ix'.slots| + 1
  {
    match op
    case Register(c) => RegisteredSlots(ix, c);
    case Retire(c) => RetiredSlots(ix, c);
    case _ => OtherStepsLeaveSlots(reg, clock, ix, op);
  }

  lemma {:induction false} SlotsAreRegistrants(reg: Registry, clock: Clock, ops: seq<Op>)
    ensures Run(reg, clock, ops).slots.Keys == Registrants(ops) && Run(reg, clock, ops).nextOrdinal == |Registrants(ops)| + 1
    ensures |Run(reg, clock, ops).slots| == |Registrants(ops)|
  {
    var ix := Run(reg, clock, ops);
    assert |ix.slots| == |ix.slots.Keys|;
    if ops != [] {
      var front, last := ops[..|ops| - 1], ops[|ops| - 1];
      assert ops == front + [last];
      SlotsAreRegistrants(reg, clock, front);
      RegistrantsSnoc(front, last);
      SlotsAfter(reg, clock, Run(reg, clock, front), last);
    }
  }

  /** Whether a channel is retired, unknown ones not being so. */
  ghost predicate IsRetired(ix: Index, c: string) {
    c in ix.slots && ix.slots[c].retired
  }

  lemma {:induction false} RetiredAfter(reg: Registry, clock: Clock, ix: Index, op: Op, c: string)
    ensures IsRetired(Step(reg, clock, ix, op), c) <==> IsRetired(ix, c) || (op == Retire(c) && c in ix.slots)
  {
    if !op.Register? && !op.Retire? { OtherStepsLeaveSlots(reg, clock, ix, op); }
  }

  lemma {:induction false} RetiredAsAsked(reg: Registry, clock: Clock, ops: seq<Op>, c: string)
    ensures IsRetired(Run(reg, clock, ops), c) <==> RetiredIn(ops, c)
  {
    if ops != [] {
      var front, last := ops[..|ops| - 1], ops[|ops| - 1];
      assert ops == front + [last];
      RetiredAsAsked(reg, clock, front, c);
      SlotsAreRegistrants(reg, clock, front);
      RetiredSnoc(front, last, c);
      RetiredAfter(reg, clock, Run(reg, clock, front), last, c);
      assert c in Registrants(front) <==> Register(c) in front;
    }
  }

  /** A channel is known once registered, and retired for good once retired while registered. */
  lemma {:induction false} ChannelsAsAsked(reg: Registry, clock: Clock, ops: seq<Op>)
    ensures var ix := Run(reg, clock, ops);
            && (forall c :: c in ix.slots <==> Register(c) in ops)
            && (forall c :: c in ix.slots ==> (ix.slots[c].retired <==> RetiredIn(ops, c)))
  {
    var ix := Run(reg, clock, ops);
    SlotsAreRegistrants(reg, clock, ops);
    forall c ensures c in ix.slots <==> Register(c) in ops {
      assert c in Registrants(ops) <==> Register(c) in ops;
    }
    forall c | c in ix.slots ensures ix.slots[c].retired <==> RetiredIn(ops, c) {
      RetiredAsAsked(reg, clock, ops, c);
    }
  }

  /** Ordinals count from one in the order of first registration, and stay. */
  lemma {:induction false} OrdinalsAreInOrder(reg: Registry, clock: Clock, ops: seq<Op>, i: nat, c: string)
    requires i < |ops| && ops[i] == Register(c) && c !in Registrants(ops[..i])
    ensures c in Run(reg, clock, ops).slots && Run(reg, clock, ops).slots[c].ordinal == |Registrants(ops[..i])| + 1
    decreases |ops|
  {
    var front, last := ops[..|ops| - 1], ops[|ops| - 1];
    var ix := Run(reg, clock, front);
    assert front[..i] == ops[..i];
    if i == |front| {
      assert ops[..i] == front;
      SlotsAreRegistrants(reg, clock, front);
    } else {
      OrdinalsAreInOrder(reg, clock, front, i, c);
      if !last.Register? && !last.Retire? { OtherStepsLeaveSlots(reg, clock, ix, last); }
    }
  }

  // ---- Whom a recomputation selects ----

  /** The segment's predicate compiles, and the database finds its condition true of the channel's row. */
  ghost predicate Picked(reg: Registry, clock: Clock, ix: Index, seg: Segment, c: string) {
    && c in ix.channels
    && var (sql, args) := Compiled(reg, clock, seg.rule.tree, []);
       sql.Ok? && SqlEval(sql.value, args, ix.channels[c]) == Truth(true)
  }

  /** The channel's bit in the current bitmap of the segment. */
  ghost predicate Marked(ix: Index, seg: Segment, c: string)
    requires c in ix.slots
  {
    ix.slots[c].ordinal in Bitmap(ix.forward, seg.id, ix.generation)
  }

  lemma {:induction false} RecomputedMarks(reg: Registry, clock: Clock, ix: Index, i: nat, c: string)
    requires IndexInv(ix) && Recomputed(reg, clock, ix).0 && i < |ix.segments| && c in ix.slots
    ensures var ix' := Recomputed(reg, clock, ix).1;
            && ix'.slots == ix.slots && ix'.segments == ix.segments
            && (Marked(ix', ix.segments[i], c) <==> !ix.slots[c].retired && Picked(reg, clock, ix, ix.segments[i], c))
  {
    RecomputeBuildsMatches(reg, clock, ix, i);
    MatchingOf(reg, clock, ix, ix.segments[i], c);
  }

  lemma {:induction false} MarksAreMembers(ix: Index, i: nat, c: string)
    requires IndexInv(ix) && i < |ix.segments| && c in ix.slots && !ix.slots[c].retired
    ensures Marked(ix, ix.segments[i], c) <==> ix.segments[i].ordinal in ReverseOf(ix.reverse, c)
  {
    assert Live(ix, c) && BitsAgree(ix, c, ix.segments[i]);
  }

  lemma {:induction false} RunOfRecompute(reg: Registry, clock: Clock, ops: seq<Op>)
    ensures Run(reg, clock, ops + [Recompute]) == Recomputed(reg, clock, Run(reg, clock, ops)).1
  {
    assert (ops + [Recompute])[..|ops|] == ops;
  }

  /**
   In any run, a recomputation that succeeds marks, in every segment, exactly the registered channels not
   retired that the query picks; and puts the segment in exactly their reverse sets.
   */
  lemma {:induction false} RecomputationsSelect(reg: Registry, clock: Clock, ops: seq<Op>, i: nat, c: string)
    requires var ix := Run(reg, clock, ops); Recomputed(reg, clock, ix).0 && i < |ix.segments| && Register(c) in ops
    ensures var ix, ix' := Run(reg, clock, ops), Run(reg, clock, ops + [Recompute]);
            && c in ix'.slots && ix'.segments == ix.segments
            && (Marked(ix', ix.segments[i], c) <==> !RetiredIn(ops, c) && Picked(reg, clock, ix, ix.segments[i], c))
            && (!RetiredIn(ops, c) ==> (ix.segments[i].ordinal in ReverseOf(ix'.reverse, c) <==> Picked(reg, clock, ix, ix.segments[i], c)))
  {
    var ix := Run(reg, clock, ops);
    RunsKeepTheIndexes(reg, clock, ops);
    ChannelsAsAsked(reg, clock, ops);
    RunOfRecompute(reg, clock, ops);
    RecomputedMarks(reg, clock, ix, i, c);
    if !RetiredIn(ops, c) {
      RunsKeepTheIndexes(reg, clock, ops + [Recompute]);
      MarksAreMembers(Run(reg, clock, ops + [Recompute]), i, c);
    }
  }

  // ---- What a disagreement counts ----

  /** Every bit anywhere is some registered channel's. */
  ghost predicate BitsHaveOwners(ix: Index) {
    forall k, o :: k in ix.forward && o in ix.forward[k] ==> Owned(ix.slots, o)
  }

  ghost predicate Owned(slots: map<string, Slot>, o: nat) {
    exists c :: c in slots && slots[c].ordinal == o
  }

  lemma {:induction false} UpdateKeepsOwners(clock: Clock, ix: Index, channel: string, segs: seq<Segment>, env: map<string, Value>)
    requires BitsHaveOwners(ix)
    ensures BitsHaveOwners(Updated(clock, ix, channel, segs, env).1)
  {
    var (ok, ix') := Updated(clock, ix, channel, segs, env);
    if ok {
      var ordinal, p := ix.slots[channel].ordinal, StartPass(ix, channel);
      PassChangesOnlyItsBits(clock, p, segs, ordinal, ix.generation, env);
      forall k, o | k in ix'.forward && o in ix'.forward[k] ensures Owned(ix'.slots, o) {
        if o == ordinal {
          assert channel in ix'.slots;
        } else {
          assert o in Bitmap(ix'.forward, k.0, k.1) && o in Bitmap(ix.forward, k.0, k.1);
          assert Owned(ix.slots, o);
        }
      }
    }
  }

  lemma {:induction false} MatchesAreOwned(reg: Registry, clock: Clock, ix: Index, segs: seq<Segment>, generation: int, id: string, o: nat)
    requires DistinctSegments(segs) && KnownId(segs, id)
    requires var f := WithBitmaps(reg, clock, ix, segs, generation); (id, generation) in f && o in f[(id, generation)]
    ensures Owned(ix.slots, o)
  {
    var i: nat :| i < |segs| && segs[i].id == id;
    WithBitmapsIs(reg, clock, ix, segs, generation, i);
  }

  lemma {:induction false} RecomputeKeepsOwners(reg: Registry, clock: Clock, ix: Index)
    requires BitsHaveOwners(ix) && IndexInv(ix)
    ensures BitsHaveOwners(Recomputed(reg, clock, ix).1)
  {
    var (ok, ix') := Recomputed(reg, clock, ix);
    if ok {
      WithBitmapsAt(reg, clock, ix, ix.segments, ix'.generation);
      forall k, o | k in ix'.forward && o in ix'.forward[k] ensures Owned(ix'.slots, o) {
        if k in ix.forward {
          assert Owned(ix.slots, o);
        } else {
          MatchesAreOwned(reg, clock, ix, ix.segments, ix'.generation, k.0, o);
        }
      }
    }
  }

  lemma {:induction false} SlotsKeepOwners(ix: Index, ix': Index)
    requires BitsHaveOwners(ix) && ix'.forward == ix.forward
    requires forall c :: c in ix.slots ==> c in ix'.slots && ix'.slots[c].ordinal == ix.slots[c].ordinal
    ensures BitsHaveOwners(ix')
  {
    forall k, o | k in ix'.forward && o in ix'.forward[k] ensures Owned(ix'.slots, o) {
      assert Owned(ix.slots, o);
    }
  }

  lemma {:induction false} StepKeepsOwners(reg: Registry, clock: Clock, ix: Index, op: Op)
    requires BitsHaveOwners(ix) && IndexInv(ix)
    ensures BitsHaveOwners(Step(reg, clock, ix, op))
  {
    match op
    case Update(c, segs, env) => UpdateKeepsOwners(clock, ix, c, segs, env);
    case Recompute => RecomputeKeepsOwners(reg, clock, ix);
    case _ =>
      OtherStepsKeepBits(reg, clock, ix, op);
      SlotsKeepOwners(ix, Step(reg, clock, ix, op));
  }

  lemma {:induction false} OtherStepsKeepBits(reg: Registry, clock: Clock, ix: Index, op: Op)
    requires !op.Update? && !op.Recompute?
    ensures var ix' := Step(reg, clock, ix, op);
            ix'.forward == ix.forward && forall c :: c in ix.slots ==> c in ix'.slots && ix'.slots[c].ordinal == ix.slots[c].ordinal
  {
  }

  lemma {:induction false} BitsAreChannels(reg: Registry, clock: Clock, ops: seq<Op>)
    ensures BitsHaveOwners(Run(reg, clock, ops))
  {
    if ops != [] {
      BitsAreChannels(reg, clock, ops[..|ops| - 1]);
      RunsKeepTheIndexes(reg, clock, ops[..|ops| - 1]);
      StepKeepsOwners(reg, clock, Run(reg, clock, ops[..|ops| - 1]), ops[|ops| - 1]);
    }
  }

  /** The registered channels a segment's current bitmap is wrong about. */
  ghost function Wrong(reg: Registry, clock: Clock, ix: Index, seg: Segment): set<string> {
    set c | c in ix.slots && (Marked(ix, seg, c) <==> !(!ix.slots[c].retired && Picked(reg, clock, ix, seg, c)))
  }

  ghost function OrdinalsOf(ix: Index, cs: set<string>): set<nat>
    requires cs <= ix.slots.Keys
  {
    set c | c in cs :: ix.slots[c].ordinal
  }

  lemma {:induction false} AsManyOrdinals(ix: Index, cs: set<string>)
    requires DistinctSlots(ix) && cs <= ix.slots.Keys
    ensures |OrdinalsOf(ix, cs)| == |cs|
    decreases |cs|
  {
    if cs != {} {
      var c :| c in cs;
      AsManyOrdinals(ix, cs - {c});
      assert OrdinalsOf(ix, cs) == OrdinalsOf(ix, cs - {c}) + {ix.slots[c].ordinal};
      assert ix.slots[c].ordinal !in OrdinalsOf(ix, cs - {c});
    }
  }

  lemma {:induction false} DisagreementIs(reg: Registry, clock: Clock, ix: Index, seg: Segment)
    requires DistinctSlots(ix) && BitsHaveOwners(ix)
    ensures Disagreement(reg, clock, ix, seg) == |Wrong(reg, clock, ix, seg)|
  {
    var was, now := Bitmap(ix.forward, seg.id, ix.generation), Matching(reg, clock, ix, seg);
    var wrong := Wrong(reg, clock, ix, seg);
    forall o ensures o in OrdinalsOf(ix, wrong) <==> o in (was - now) + (now - was) {
      if Owned(ix.slots, o) {
        var c :| c in ix.slots && ix.slots[c].ordinal == o;
        MatchingOf(reg, clock, ix, seg, c);
      }
    }
    assert OrdinalsOf(ix, wrong) == (was - now) + (now - was);
    AsManyOrdinals(ix, wrong);
  }

  /**
   In any run, the disagreement reported of a segment is the number of registered channels it was wrong
   about: marked though retired or not picked, or picked and not marked.
   */
  lemma {:induction false} DisagreementCountsChannels(reg: Registry, clock: Clock, ops: seq<Op>, seg: Segment)
    ensures Disagreement(reg, clock, Run(reg, clock, ops), seg) == |Wrong(reg, clock, Run(reg, clock, ops), seg)|
  {
    RunsKeepTheIndexes(reg, clock, ops);
    BitsAreChannels(reg, clock, ops);
    DisagreementIs(reg, clock, Run(reg, clock, ops), seg);
  }

  // ---- What a row shows ----

  /** Operation `op` writes this attribute of this channel, or its whole row. */
  predicate Overwrites(op: Op, c: string, name: string) {
    (op.Write? && op.channel == c && op.name == name) || (op.PutRow? && op.channel == c)
  }

  ghost predicate Shows(ix: Index, c: string, name: string, value: Option<Value>) {
    && c in ix.channels
    && (if value.Some? then name in ix.channels[c].attributes && ix.channels[c].attributes[name] == value.value
        else name !in ix.channels[c].attributes)
  }

  lemma {:induction false} OtherStepsShowTheSame(reg: Registry, clock: Clock, ix: Index, op: Op, c: string, name: string, value: Option<Value>)
    requires !Overwrites(op, c, name) && Shows(ix, c, name, value)
    ensures Shows(Step(reg, clock, ix, op), c, name, value)
  {
  }

  /** The last write of an attribute stands; a removal leaves none. */
  lemma {:induction false} TheLastWriteStands(reg: Registry, clock: Clock, ops: seq<Op>, k: nat, c: string, name: string, value: Option<Value>)
    requires k < |ops| && ops[k] == Write(c, name, value) && c in Run(reg, clock, ops[..k]).channels
    requires forall j :: k < j < |ops| ==> !Overwrites(ops[j], c, name)
    ensures Shows(Run(reg, clock, ops), c, name, value)
    decreases |ops|
  {
    var front := ops[..|ops| - 1];
    if k == |front| {
      assert ops[..k] == front;
    } else {
      assert front[..k] == ops[..k];
      TheLastWriteStands(reg, clock, front, k, c, name, value);
      OtherStepsShowTheSame(reg, clock, Run(reg, clock, front), ops[|ops| - 1], c, name, value);
    }
  }

  // ---- Which segments are kept up to date ----

  /** A segment as some operation saved it; it is maintained between recomputations exactly when no attribute it reads is an aggregate of events. */
  ghost predicate SavedRightly(reg: Registry, ops: seq<Op>, seg: Segment) {
    && Save(seg.id, seg.ordinal, seg.rule) in ops
    && (seg.incremental <==> forall name :: name in Referenced(seg.rule.tree) && name in reg ==> !reg[name].source.EventAggregate?)
  }

  lemma {:induction false} SegmentsAsSaved(reg: Registry, clock: Clock, ops: seq<Op>)
    ensures forall seg :: seg in Run(reg, clock, ops).segments ==> SavedRightly(reg, ops, seg)
  {
    if ops != [] {
      var front, last := ops[..|ops| - 1], ops[|ops| - 1];
      assert ops == front + [last];
      SegmentsAsSaved(reg, clock, front);
      assert forall seg :: SavedRightly(reg, front, seg) ==> SavedRightly(reg, ops, seg);
      SegmentsAfter(reg, clock, Run(reg, clock, front), last);
    }
  }

  lemma {:induction false} SegmentsAfter(reg: Registry, clock: Clock, ix: Index, op: Op)
    ensures forall seg :: seg in Step(reg, clock, ix, op).segments && seg !in ix.segments ==> SavedRightly(reg, [op], seg)
  {
  }

  // ---- Which segments depend on an attribute ----

  /** A segment is updated after a write of an attribute just when it is kept up to date, names the attribute and the attribute is registered. */
  lemma {:induction false} DependentsAre(reg: Registry, segs: seq<Segment>, name: string)
    ensures forall seg :: seg in Dependents(reg, segs, name)
                          <==> seg in segs && seg.incremental && name in reg && Mentions(seg.rule.tree, name)
  {
    if segs != [] {
      var front, last := segs[..|segs| - 1], segs[|segs| - 1];
      assert segs == front + [last];
      DependentsAre(reg, front, name);
      ReadsIff(last.rule.tree, name);
    }
  }
}
