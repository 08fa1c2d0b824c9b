/** The maintenance jobs as the program runs them, loop by loop, each proved to have the effect Membership gives it. */
module MembershipJobs {
  import opened Wrappers
  import opened Predicates
  import opened SqlCompile
  import opened Membership
  import E = Evaluator

  class Jobs {
    const reg: Registry
    const clock: Clock
    const evaluator: E.Evaluator
    var segments: seq<Segment>
    var channels: map<string, Row>
    var slots: map<string, Slot>
    var nextOrdinal: nat
    var forward: Forward
    var generation: int
    var reverse: map<string, set<nat>>

    ghost predicate Valid()
      reads this
    {
      evaluator.clock == clock
    }

    ghost function View(): Index
      reads this, evaluator
    {
      Index(segments, channels, slots, nextOrdinal, forward, generation, reverse, evaluator.programs)
    }

    constructor (reg: Registry, clock: Clock)
      ensures Valid() && fresh(evaluator) && this.reg == reg && this.clock == clock
      ensures View() == EMPTY
    {
      this.reg, this.clock := reg, clock;
      evaluator := new E.Evaluator(clock);
      segments, channels, slots, nextOrdinal := [], map[], map[], 1;
      forward, generation, reverse := map[], 0, map[];
    }

    /** Flip one bit, skipping the write when it is right already. */
    method UpdateForwardBit(tx: Forward, id: string, gen: int, ordinal: nat, matched: bool) returns (tx': Forward)
      ensures tx' == FlipForward(tx, id, gen, ordinal, matched)
    {
      var bitmap: set<nat> := {};
      if (id, gen) in tx { bitmap := tx[(id, gen)]; }
      var before := ordinal in bitmap;
      if before == matched { return tx; }
      if matched { bitmap := bitmap + {ordinal}; } else { bitmap := bitmap - {ordinal}; }
      tx' := tx[(id, gen) := bitmap];
    }

    method UpdateChannel(channel: string, segs: seq<Segment>, env: map<string, Value>) returns (ok: bool)
      requires Valid()
      modifies this, evaluator
      ensures Valid() && (ok, View()) == Updated(clock, old(View()), channel, segs, env)
    {
      if channel !in slots || slots[channel].retired { return false; }
      var ordinal := slots[channel].ordinal;
      var members := ReverseOf(reverse, channel);
      var reverseChanged := false;
      var tx := forward;
      ghost var start := StartPass(View(), channel);
      for i := 0 to |segs|
        invariant Valid() && View() == old(View()).(programs := evaluator.programs)
        invariant PassAll(clock, start, segs[..i], ordinal, generation, env) == Pass(tx, members, reverseChanged, evaluator.programs, false)
      {
        var seg := segs[i];
        assert segs[..i + 1][..i] == segs[..i];
        if !seg.incremental { continue; }
        var verdict := evaluator.Evaluate(seg.rule, env);
        if verdict.Failed? {
          FailureStands(clock, start, segs, i + 1, ordinal, generation, env);
          return false;
        }
        var matched := verdict.b;
        tx := UpdateForwardBit(tx, seg.id, generation, ordinal, matched);
        var wasMember := seg.ordinal in members;
        if matched && !wasMember {
          members := members + {seg.ordinal};
          reverseChanged := true;
        } else if !matched && wasMember {
          members := members - {seg.ordinal};
          reverseChanged := true;
        }
        assert members == FlipMember(PassAll(clock, start, segs[..i], ordinal, generation, env).members, seg.ordinal, matched);
      }
      assert segs[..|segs|] == segs;
      forward := tx;
      if reverseChanged { reverse := reverse[channel := members]; }
      ok := true;
    }

    method DependencyMap(segs: seq<Segment>) returns (deps: map<string, seq<Segment>>)
      ensures forall name :: Listed(deps, name) == Dependents(reg, segs, name)
    {
      deps := map[];
      for i := 0 to |segs|
        invariant forall name :: Listed(deps, name) == Dependents(reg, segs[..i], name)
      {
        var seg := segs[i];
        assert segs[..i + 1][..i] == segs[..i];
        if !seg.incremental { continue; }
        deps := ListUnder(deps, Referenced(seg.rule.tree), seg);
      }
      assert segs[..|segs|] == segs;
    }

    /** Append a segment under each registered name it reads. */
    method ListUnder(deps: map<string, seq<Segment>>, names: set<string>, seg: Segment) returns (out: map<string, seq<Segment>>)
      ensures forall name :: Listed(out, name) == Listed(deps, name) + if name in names && name in reg then [seg] else []
    {
      out := deps;
      var pending := names;
      while pending != {}
        invariant pending <= names
        invariant forall name :: name in names - pending && name in reg ==> Listed(out, name) == Listed(deps, name) + [seg]
        invariant forall name :: name !in names - pending || name !in reg ==> Listed(out, name) == Listed(deps, name)
        decreases |pending|
      {
        var name :| name in pending;
        if name in reg { out := out[name := Listed(out, name) + [seg]]; }
        pending := pending - {name};
      }
    }

    /** The ordinals the compiled query selects, unless it fails. */
    method RecomputeSegment(seg: Segment) returns (r: Option<set<nat>>)
      ensures r == if QueryFails(reg, clock, View(), seg) then None else Some(Matching(reg, clock, View(), seg))
    {
      var compiled := CompileToSQL(reg, clock, seg.rule.tree);
      if compiled.Err? { return None; }
      var (sql, args) := compiled.value;
      var live := set c | c in slots && !slots[c].retired && c in channels;
      if exists c :: c in live && SqlEval(sql, args, channels[c]).Fault? {
        var c :| c in live && SqlEval(sql, args, channels[c]).Fault?;
        assert Condition(reg, clock, seg, channels[c]).Fault?;
        return None;
      }
      assert forall c :: c in live ==> Condition(reg, clock, seg, channels[c]) == SqlEval(sql, args, channels[c]);
      var selected := set c | c in live && SqlEval(sql, args, channels[c]) == Truth(true);
      var bitmap := set c | c in selected :: slots[c].ordinal;
      assert bitmap == Matching(reg, clock, View(), seg);
      r := Some(bitmap);
    }

    /** Add a segment to the reverse set of every live ordinal its bitmap has. */
    method Distribute(byOrdinal: map<nat, set<nat>>, bitmap: set<nat>, segment: nat) returns (out: map<nat, set<nat>>)
      ensures out.Keys == byOrdinal.Keys
      ensures forall o :: o in out ==> out[o] == byOrdinal[o] + if o in bitmap then {segment} else {}
    {
      out := byOrdinal;
      var pending := bitmap;
      while pending != {}
        invariant pending <= bitmap && out.Keys == byOrdinal.Keys
        invariant forall o :: o in out && o in bitmap - pending ==> out[o] == byOrdinal[o] + {segment}
        invariant forall o :: o in out && o !in bitmap - pending ==> out[o] == byOrdinal[o]
        decreases |pending|
      {
        var ord :| ord in pending;
        if ord in out { out := out[ord := out[ord] + {segment}]; }
        pending := pending - {ord};
      }
    }

    /** One segment's turn: its query, its disagreements, its bits in the reverse sets. */
    method RebuildSegment(i: nat, newGen: int, newForward: Forward, byOrdinal: map<nat, set<nat>>, disagreements: map<string, nat>, ghost ordinals: set<nat>)
      returns (ok: bool, newForward': Forward, byOrdinal': map<nat, set<nat>>, disagreements': map<string, nat>)
      requires i < |segments| && DistinctSegments(segments)
      requires Rebuilt(reg, clock, View(), segments[..i], newGen, ordinals, newForward, byOrdinal, disagreements)
      ensures ok <==> !QueryFails(reg, clock, View(), segments[i])
      ensures ok ==> Rebuilt(reg, clock, View(), segments[..i + 1], newGen, ordinals, newForward', byOrdinal', disagreements')
    {
      var seg := segments[i];
      var bitmap := RecomputeSegment(seg);
      if bitmap.None? { return false, map[], map[], map[]; }
      var was := Bitmap(forward, seg.id, generation);
      disagreements' := disagreements[seg.id := |(was - bitmap.value) + (bitmap.value - was)|];
      newForward' := newForward[(seg.id, newGen) := bitmap.value];
      byOrdinal' := Distribute(byOrdinal, bitmap.value, seg.ordinal);
      RebuiltSnoc(reg, clock, View(), segments, i, newGen, ordinals, newForward, byOrdinal, byOrdinal', disagreements);
      ok := true;
    }

    /** Everything a recomputation works out before it writes anything. */
    method Rebuild(live: set<string>, newGen: int)
      returns (ok: bool, newForward: Forward, byOrdinal: map<nat, set<nat>>, disagreements: map<string, nat>)
      requires live <= slots.Keys && DistinctSegments(segments)
      ensures ok <==> !AnyFails(reg, clock, View(), segments)
      ensures ok ==> Rebuilt(reg, clock, View(), segments, newGen, OrdinalsOf(slots, live), newForward, byOrdinal, disagreements)
    {
      var ordinals := OrdinalsOf(slots, live);
      byOrdinal := map o | o in ordinals :: {};
      newForward := forward;
      disagreements := map[];
      for i := 0 to |segments|
        invariant !AnyFails(reg, clock, View(), segments[..i])
        invariant Rebuilt(reg, clock, View(), segments[..i], newGen, ordinals, newForward, byOrdinal, disagreements)
      {
        ok, newForward, byOrdinal, disagreements := RebuildSegment(i, newGen, newForward, byOrdinal, disagreements, ordinals);
        if !ok { return; }
        NoneFailsSnoc(reg, clock, View(), segments, i);
      }
      assert segments[..|segments|] == segments;
      ok := true;
    }

    method Recompute() returns (ok: bool, disagreements: map<string, nat>)
      requires Valid() && DistinctSegments(segments)
      modifies this
      ensures Valid() && (ok, View()) == Recomputed(reg, clock, old(View()))
      ensures ok ==> Reported(reg, clock, old(View()), old(segments), disagreements)
    {
      ghost var ix := View();
      var newGen := generation + 1;
      var live := LiveChannels(slots);
      var newForward, byOrdinal;
      ok, newForward, byOrdinal, disagreements := Rebuild(live, newGen);
      if !ok { return; }
      forward, generation := newForward, newGen;
      SetMany(live, byOrdinal);
      Reclaim(newGen);
      RecomputedIs(reg, clock, ix, newForward, byOrdinal, disagreements, reverse);
    }

    /** Overwrite the reverse sets of the live channels. */
    method SetMany(live: set<string>, byOrdinal: map<nat, set<nat>>)
      requires forall c :: c in live ==> c in slots && slots[c].ordinal in byOrdinal
      modifies this`reverse
      ensures reverse.Keys == old(reverse).Keys + live
      ensures forall c :: c in reverse ==> reverse[c] == if c in live then byOrdinal[slots[c].ordinal] else old(reverse)[c]
    {
      var rebuilt := map c | c in live :: byOrdinal[slots[c].ordinal];
      reverse := reverse + rebuilt;
    }

    method Reclaim(newest: int)
      modifies this`forward
      ensures forward == Reclaimed(old(forward), newest)
    {
      var oldestKept := newest - 2 + 1;
      if oldestKept <= 0 { return; }
      forward := map k | k in forward && k.1 >= oldestKept :: forward[k];
    }
  }

  function Listed(deps: map<string, seq<Segment>>, name: string): seq<Segment> {
    if name in deps then deps[name] else []
  }

  function OrdinalsOf(slots: map<string, Slot>, live: set<string>): set<nat>
    requires live <= slots.Keys
  {
    set c | c in live :: slots[c].ordinal
  }

  /** Each live ordinal has the segments whose recomputed bitmap has it. */
  ghost predicate Distributed(reg: Registry, clock: Clock, ix: Index, segs: seq<Segment>, ordinals: set<nat>, byOrdinal: map<nat, set<nat>>) {
    byOrdinal.Keys == ordinals && forall o :: o in byOrdinal ==> byOrdinal[o] == MembersOf(reg, clock, ix, segs, o)
  }

  /** Each segment has its count of disagreements. */
  ghost predicate Reported(reg: Registry, clock: Clock, ix: Index, segs: seq<Segment>, disagreements: map<string, nat>) {
    forall i :: 0 <= i < |segs| ==> Get(disagreements, segs[i].id) == Some(Disagreement(reg, clock, ix, segs[i]))
  }

  lemma {:induction false} ReportedSnoc(reg: Registry, clock: Clock, ix: Index, segs: seq<Segment>, i: nat, disagreements: map<string, nat>)
    requires i < |segs| && DistinctSegments(segs) && Reported(reg, clock, ix, segs[..i], disagreements)
    ensures Reported(reg, clock, ix, segs[..i + 1], disagreements[segs[i].id := Disagreement(reg, clock, ix, segs[i])])
  {
    var whole, d := segs[..i + 1], disagreements[segs[i].id := Disagreement(reg, clock, ix, segs[i])];
    forall j | 0 <= j < |whole| ensures Get(d, whole[j].id) == Some(Disagreement(reg, clock, ix, whole[j])) {
      if j < i {
        assert segs[..i][j] == segs[j] && segs[j].id != segs[i].id;
      }
    }
  }

  lemma {:induction false} DistributedSnoc(reg: Registry, clock: Clock, ix: Index, segs: seq<Segment>, i: nat, ordinals: set<nat>, before: map<nat, set<nat>>, after: map<nat, set<nat>>)
    requires i < |segs| && Distributed(reg, clock, ix, segs[..i], ordinals, before) && after.Keys == before.Keys
    requires forall o :: o in after ==> after[o] == before[o] + if o in Matching(reg, clock, ix, segs[i]) then {segs[i].ordinal} else {}
    ensures Distributed(reg, clock, ix, segs[..i + 1], ordinals, after)
  {
    forall o | o in after ensures after[o] == MembersOf(reg, clock, ix, segs[..i + 1], o) {
      MembersSnoc(reg, clock, ix, segs, i, o);
    }
  }

  function LiveChannels(slots: map<string, Slot>): set<string> {
    set c | c in slots && !slots[c].retired
  }

  ghost predicate Rebuilt(reg: Registry, clock: Clock, ix: Index, segs: seq<Segment>, newGen: int, ordinals: set<nat>,
      newForward: Forward, byOrdinal: map<nat, set<nat>>, disagreements: map<string, nat>) {
    && newForward == WithBitmaps(reg, clock, ix, segs, newGen)
    && Distributed(reg, clock, ix, segs, ordinals, byOrdinal)
    && Reported(reg, clock, ix, segs, disagreements)
  }

  lemma {:induction false} RebuiltSnoc(reg: Registry, clock: Clock, ix: Index, segs: seq<Segment>, i: nat, newGen: int, ordinals: set<nat>,
      newForward: Forward, before: map<nat, set<nat>>, after: map<nat, set<nat>>, disagreements: map<string, nat>)
    requires i < |segs| && DistinctSegments(segs)
    requires Rebuilt(reg, clock, ix, segs[..i], newGen, ordinals, newForward, before, disagreements)
    requires after.Keys == before.Keys
    requires forall o :: o in after ==> after[o] == before[o] + if o in Matching(reg, clock, ix, segs[i]) then {segs[i].ordinal} else {}
    ensures Rebuilt(reg, clock, ix, segs[..i + 1], newGen, ordinals, newForward[(segs[i].id, newGen) := Matching(reg, clock, ix, segs[i])],
                    after, disagreements[segs[i].id := Disagreement(reg, clock, ix, segs[i])])
  {
    assert segs[..i + 1][..i] == segs[..i];
    ReportedSnoc(reg, clock, ix, segs, i, disagreements);
    DistributedSnoc(reg, clock, ix, segs, i, ordinals, before, after);
  }

  lemma {:induction false} RecomputedIs(reg: Registry, clock: Clock, ix: Index, newForward: Forward, byOrdinal: map<nat, set<nat>>,
      disagreements: map<string, nat>, reverse: map<string, set<nat>>)
    requires !AnyFails(reg, clock, ix, ix.segments)
    requires Rebuilt(reg, clock, ix, ix.segments, ix.generation + 1, OrdinalsOf(ix.slots, LiveChannels(ix.slots)), newForward, byOrdinal, disagreements)
    requires reverse.Keys == ix.reverse.Keys + LiveChannels(ix.slots)
    requires forall c :: c in LiveChannels(ix.slots) ==> ix.slots[c].ordinal in byOrdinal
    requires forall c :: c in reverse ==> reverse[c] == if c in LiveChannels(ix.slots) then byOrdinal[ix.slots[c].ordinal] else ix.reverse[c]
    ensures Recomputed(reg, clock, ix)
            == (true, ix.(forward := Reclaimed(newForward, ix.generation + 1), generation := ix.generation + 1, reverse := reverse))
  {
    ReverseIsRebuilt(reg, clock, ix, newForward, byOrdinal, disagreements, reverse);
  }

  lemma {:induction false} ReverseIsRebuilt(reg: Registry, clock: Clock, ix: Index, newForward: Forward, byOrdinal: map<nat, set<nat>>,
      disagreements: map<string, nat>, reverse: map<string, set<nat>>)
    requires Rebuilt(reg, clock, ix, ix.segments, ix.generation + 1, OrdinalsOf(ix.slots, LiveChannels(ix.slots)), newForward, byOrdinal, disagreements)
    requires reverse.Keys == ix.reverse.Keys + LiveChannels(ix.slots)
    requires forall c :: c in LiveChannels(ix.slots) ==> ix.slots[c].ordinal in byOrdinal
    requires forall c :: c in reverse ==> reverse[c] == if c in LiveChannels(ix.slots) then byOrdinal[ix.slots[c].ordinal] else ix.reverse[c]
    ensures reverse == RebuiltReverse(reg, clock, ix)
  {
    var rebuilt, live := RebuiltReverse(reg, clock, ix), LiveChannels(ix.slots);
    assert forall c :: c in live <==> Live(ix, c);
    assert rebuilt.Keys == reverse.Keys;
    forall c | c in reverse ensures reverse[c] == rebuilt[c] {
    }
  }

  lemma {:induction false} FailureStands(clock: Clock, p: Pass, segs: seq<Segment>, k: nat, ordinal: nat, generation: int, env: map<string, Value>)
    requires k <= |segs| && PassAll(clock, p, segs[..k], ordinal, generation, env).failed
    ensures PassAll(clock, p, segs, ordinal, generation, env) == PassAll(clock, p, segs[..k], ordinal, generation, env)
    decreases |segs|
  {
    if k == |segs| {
      assert segs[..k] == segs;
    } else {
      var front := segs[..|segs| - 1];
      assert front[..k] == segs[..k];
      FailureStands(clock, p, front, k, ordinal, generation, env);
    }
  }

  lemma {:induction false} NoneFailsSnoc(reg: Registry, clock: Clock, ix: Index, segs: seq<Segment>, i: nat)
    requires i < |segs| && !AnyFails(reg, clock, ix, segs[..i]) && !QueryFails(reg, clock, ix, segs[i])
    ensures !AnyFails(reg, clock, ix, segs[..i + 1])
  {
    var whole := segs[..i + 1];
    forall j | 0 <= j < |whole| ensures !QueryFails(reg, clock, ix, whole[j]) {
      if j < i { assert segs[..i][j] == whole[j]; }
    }
  }

  /** Segment `j` puts ordinal `x` into the channel's reverse set. */
  ghost predicate Puts(reg: Registry, clock: Clock, ix: Index, segs: seq<Segment>, j: nat, o: nat, x: nat) {
    j < |segs| && o in Matching(reg, clock, ix, segs[j]) && segs[j].ordinal == x
  }

  lemma {:induction false} MembersIff(reg: Registry, clock: Clock, ix: Index, segs: seq<Segment>, o: nat, x: nat)
    ensures x in MembersOf(reg, clock, ix, segs, o) <==> exists j: nat :: Puts(reg, clock, ix, segs, j, o, x)
  {
    if x in MembersOf(reg, clock, ix, segs, o) {
      var j: nat :| j < |segs| && o in Matching(reg, clock, ix, segs[j]) && segs[j].ordinal == x;
      assert Puts(reg, clock, ix, segs, j, o, x);
    }
  }

  lemma {:induction false} PutsSnoc(reg: Registry, clock: Clock, ix: Index, segs: seq<Segment>, i: nat, j: nat, o: nat, x: nat)
    requires i < |segs|
    ensures Puts(reg, clock, ix, segs[..i + 1], j, o, x) <==> Puts(reg, clock, ix, segs[..i], j, o, x) || (j == i && Puts(reg, clock, ix, segs, i, o, x))
  {
  }

  lemma {:induction false} MembersSnoc(reg: Registry, clock: Clock, ix: Index, segs: seq<Segment>, i: nat, o: nat)
    requires i < |segs|
    ensures MembersOf(reg, clock, ix, segs[..i + 1], o)
            == MembersOf(reg, clock, ix, segs[..i], o) + if o in Matching(reg, clock, ix, segs[i]) then {segs[i].ordinal} else {}
  {
    forall x ensures x in MembersOf(reg, clock, ix, segs[..i + 1], o)
                     <==> x in MembersOf(reg, clock, ix, segs[..i], o) || Puts(reg, clock, ix, segs, i, o, x)
    {
      MemberSnoc(reg, clock, ix, segs, i, o, x);
    }
  }

  lemma {:induction false} MemberSnoc(reg: Registry, clock: Clock, ix: Index, segs: seq<Segment>, i: nat, o: nat, x: nat)
    requires i < |segs|
    ensures x in MembersOf(reg, clock, ix, segs[..i + 1], o)
            <==> x in MembersOf(reg, clock, ix, segs[..i], o) || Puts(reg, clock, ix, segs, i, o, x)
  {
    MembersIff(reg, clock, ix, segs[..i + 1], o, x);
    MembersIff(reg, clock, ix, segs[..i], o, x);
    PutsSnoc(reg, clock, ix, segs, i, i, o, x);
    forall j: nat ensures Puts(reg, clock, ix, segs[..i + 1], j, o, x) <==> Puts(reg, clock, ix, segs[..i], j, o, x) || (j == i && Puts(reg, clock, ix, segs, i, o, x)) {
      PutsSnoc(reg, clock, ix, segs, i, j, o, x);
    }
  }
}
