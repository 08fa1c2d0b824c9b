/**
 The two membership indexes: forward, a bitmap of channel ordinals per segment and generation; reverse,
 a set of segment ordinals per channel (internal/membership). Both are rebuilt by a batch recomputation
 (internal/membership/batch) and maintained in between by incremental updates of one channel
 (internal/membership/incremental). Each call is one step; bitmaps are sets.
 */
module Membership {
  import opened Wrappers
  import opened Predicates
  import opened SqlCompile
  import E = Evaluator

  datatype Segment = Segment(id: string, ordinal: nat, rule: E.Predicate, incremental: bool)

  datatype Slot = Slot(ordinal: nat, retired: bool)

  type Forward = map<(string, int), set<nat>>

  /** What the database, Redis and the evaluator hold. */
  datatype Index = Index(
    segments: seq<Segment>, channels: map<string, Row>, slots: map<string, Slot>, nextOrdinal: nat,
    forward: Forward, generation: int, reverse: map<string, set<nat>>, programs: E.Programs)

  const EMPTY := Index([], map[], map[], 1, map[], 0, map[], map[])

  function Bitmap(forward: Forward, id: string, generation: int): set<nat> {
    if (id, generation) in forward then forward[(id, generation)] else {}
  }

  function ReverseOf(reverse: map<string, set<nat>>, channel: string): set<nat> {
    if channel in reverse then reverse[channel] else {}
  }

  predicate Live(ix: Index, channel: string) {
    channel in ix.slots && !ix.slots[channel].retired
  }

  // ---- Registration ----

  /** The first registration of a channel allocates the next ordinal; ordinals are never reused. */
  function Registered(ix: Index, channel: string): Index {
    if channel in ix.slots then ix
    else ix.(slots := ix.slots[channel := Slot(ix.nextOrdinal, false)], nextOrdinal := ix.nextOrdinal + 1)
  }

  function Retired(ix: Index, channel: string): Index {
    if channel in ix.slots then ix.(slots := ix.slots[channel := ix.slots[channel].(retired := true)]) else ix
  }

  /** Write or remove one stored attribute. */
  function Written(ix: Index, channel: string, name: string, value: Option<Value>): Index {
    if channel !in ix.channels then ix
    else
      var row := ix.channels[channel];
      var attributes := if value.Some? then row.attributes[name := value.value] else row.attributes - {name};
      ix.(channels := ix.channels[channel := row.(attributes := attributes)])
  }

  /** Saving classifies the refresh mode: reading an event aggregate excludes the incremental path. */
  predicate ReadsAggregate(reg: Registry, e: Expr) {
    exists name :: name in Referenced(e) && name in reg && reg[name].source.EventAggregate?
  }

  function Saved(reg: Registry, ix: Index, id: string, ordinal: nat, p: E.Predicate): Index {
    ix.(segments := ix.segments + [Segment(id, ordinal, p, !ReadsAggregate(reg, p.tree))])
  }

  // ---- Incremental updates ----

  /** One pass over segments: the uncommitted forward index, the reverse set being edited, and the outcome so far. */
  datatype Pass = Pass(forward: Forward, members: set<nat>, changed: bool, programs: E.Programs, failed: bool)

  function FlipForward(forward: Forward, id: string, generation: int, ordinal: nat, matched: bool): Forward {
    var bitmap := Bitmap(forward, id, generation);
    if (ordinal in bitmap) == matched then forward
    else forward[(id, generation) := if matched then bitmap + {ordinal} else bitmap - {ordinal}]
  }

  function FlipMember(members: set<nat>, ordinal: nat, matched: bool): set<nat> {
    if matched then members + {ordinal} else members - {ordinal}
  }

  function PassOne(clock: Clock, p: Pass, seg: Segment, ordinal: nat, generation: int, env: map<string, Value>): Pass {
    if !seg.incremental then p
    else
      var verdict := E.Evaluated(clock, p.programs, seg.rule, env);
      var q := p.(programs := E.Cached(p.programs, seg.rule));
      match verdict
      case Failed => q.(failed := true)
      case Matched(b) =>
        q.(forward := FlipForward(p.forward, seg.id, generation, ordinal, b),
           members := FlipMember(p.members, seg.ordinal, b),
           changed := p.changed || (seg.ordinal in p.members) != b)
  }

  /** Segments in order, up to the first evaluation error. */
  function PassAll(clock: Clock, p: Pass, segs: seq<Segment>, ordinal: nat, generation: int, env: map<string, Value>): Pass {
    if segs == [] then p
    else
      var q := PassAll(clock, p, segs[..|segs| - 1], ordinal, generation, env);
      if q.failed then q else PassOne(clock, q, segs[|segs| - 1], ordinal, generation, env)
  }

  function StartPass(ix: Index, channel: string): Pass {
    Pass(ix.forward, ReverseOf(ix.reverse, channel), false, ix.programs, false)
  }

  /** An unknown or retired channel, or one evaluation error, and neither index is touched. */
  function Updated(clock: Clock, ix: Index, channel: string, segs: seq<Segment>, env: map<string, Value>): (bool, Index) {
    if !Live(ix, channel) then (false, ix)
    else
      var p := PassAll(clock, StartPass(ix, channel), segs, ix.slots[channel].ordinal, ix.generation, env);
      if p.failed then (false, ix.(programs := p.programs))
      else (true, ix.(forward := p.forward, programs := p.programs,
                      reverse := if p.changed then ix.reverse[channel := p.members] else ix.reverse))
  }

  /** The incremental segments whose predicate reads a registered attribute. */
  predicate Depends(reg: Registry, seg: Segment, name: string) {
    seg.incremental && name in Referenced(seg.rule.tree) && name in reg
  }

  function Dependents(reg: Registry, segs: seq<Segment>, name: string): seq<Segment> {
    if segs == [] then []
    else Dependents(reg, segs[..|segs| - 1], name) + if Depends(reg, segs[|segs| - 1], name) then [segs[|segs| - 1]] else []
  }

  // ---- Batch recomputation ----

  /** The segment's compiled condition on one row. */
  function Condition(reg: Registry, clock: Clock, seg: Segment, row: Row): Cell {
    var (sql, args) := Compiled(reg, clock, seg.rule.tree, []);
    if sql.Ok? then SqlEval(sql.value, args, row) else Fault
  }

  predicate Selects(reg: Registry, clock: Clock, seg: Segment, row: Row) {
    Condition(reg, clock, seg, row) == Truth(true)
  }

  /** `SELECT ordinal ... WHERE retired = false AND (condition)`. */
  function Matching(reg: Registry, clock: Clock, ix: Index, seg: Segment): set<nat> {
    set c | c in ix.slots && !ix.slots[c].retired && c in ix.channels && Selects(reg, clock, seg, ix.channels[c]) :: ix.slots[c].ordinal
  }

  /** The predicate does not compile, or its query faults on some live channel. */
  predicate QueryFails(reg: Registry, clock: Clock, ix: Index, seg: Segment) {
    || Compiled(reg, clock, seg.rule.tree, []).0.Err?
    || exists c :: c in ix.slots && !ix.slots[c].retired && c in ix.channels && Condition(reg, clock, seg, ix.channels[c]).Fault?
  }

  function WithBitmaps(reg: Registry, clock: Clock, ix: Index, segs: seq<Segment>, generation: int): Forward {
    if segs == [] then ix.forward
    else
      var seg := segs[|segs| - 1];
      WithBitmaps(reg, clock, ix, segs[..|segs| - 1], generation)[(seg.id, generation) := Matching(reg, clock, ix, seg)]
  }

  /** The segments, by ordinal, whose recomputed bitmap has the channel. */
  function MembersOf(reg: Registry, clock: Clock, ix: Index, segs: seq<Segment>, ordinal: nat): set<nat> {
    set i | 0 <= i < |segs| && ordinal in Matching(reg, clock, ix, segs[i]) :: segs[i].ordinal
  }

  function RebuiltReverse(reg: Registry, clock: Clock, ix: Index): map<string, set<nat>> {
    map c | c in ix.reverse.Keys + ix.slots.Keys && (c in ix.reverse || Live(ix, c)) ::
      if Live(ix, c) then MembersOf(reg, clock, ix, ix.segments, ix.slots[c].ordinal) else ix.reverse[c]
  }

  /** `DELETE ... WHERE generation < newest - 1`, once there is anything to delete. */
  function Reclaimed(forward: Forward, newest: int): Forward {
    if newest - 1 <= 0 then forward else map k | k in forward && k.1 >= newest - 1 :: forward[k]
  }

  function Disagreement(reg: Registry, clock: Clock, ix: Index, seg: Segment): nat {
    var was, now := Bitmap(ix.forward, seg.id, ix.generation), Matching(reg, clock, ix, seg);
    |(was - now) + (now - was)|
  }

  predicate AnyFails(reg: Registry, clock: Clock, ix: Index, segs: seq<Segment>) {
    exists i :: 0 <= i < |segs| && QueryFails(reg, clock, ix, segs[i])
  }

  /** One failing segment fails the whole recomputation, before anything is written. */
  function Recomputed(reg: Registry, clock: Clock, ix: Index): (bool, Index) {
    if AnyFails(reg, clock, ix, ix.segments) then (false, ix)
    else
      var newest := ix.generation + 1;
      (true, ix.(forward := Reclaimed(WithBitmaps(reg, clock, ix, ix.segments, newest), newest),
                 generation := newest, reverse := RebuiltReverse(reg, clock, ix)))
  }

  // ---- What holds throughout ----

  ghost predicate DistinctSegments(segs: seq<Segment>) {
    forall i, j :: 0 <= i < |segs| && 0 <= j < |segs| && (segs[i].id == segs[j].id || segs[i].ordinal == segs[j].ordinal) ==> i == j
  }

  ghost predicate DistinctSlots(ix: Index) {
    && (forall a, b :: a in ix.slots && b in ix.slots && ix.slots[a].ordinal == ix.slots[b].ordinal ==> a == b)
    && (forall a :: a in ix.slots ==> ix.slots[a].ordinal < ix.nextOrdinal)
  }

  ghost predicate KnownId(segs: seq<Segment>, id: string) {
    exists i :: 0 <= i < |segs| && segs[i].id == id
  }

  ghost predicate KnownOrdinal(segs: seq<Segment>, ordinal: nat) {
    exists i :: 0 <= i < |segs| && segs[i].ordinal == ordinal
  }

  /** Rows are of known segments, past or present generations, and allocated ordinals; reverse sets of registered channels and known segments. */
  ghost predicate Bounded(ix: Index) {
    && (forall k :: k in ix.forward ==> KnownId(ix.segments, k.0) && k.1 <= ix.generation)
    && (forall k, o :: k in ix.forward && o in ix.forward[k] ==> o < ix.nextOrdinal)
    && (forall c :: c in ix.reverse ==> c in ix.slots)
    && (forall c, o :: c in ix.reverse && o in ix.reverse[c] ==> KnownOrdinal(ix.segments, o))
  }

  /** The forward bit at the current generation is the reverse bit. */
  ghost predicate BitsAgree(ix: Index, channel: string, seg: Segment)
    requires channel in ix.slots
  {
    ix.slots[channel].ordinal in Bitmap(ix.forward, seg.id, ix.generation) <==> seg.ordinal in ReverseOf(ix.reverse, channel)
  }

  ghost predicate Coincide(ix: Index) {
    forall c, i :: Live(ix, c) && 0 <= i < |ix.segments| ==> BitsAgree(ix, c, ix.segments[i])
  }

  ghost predicate IndexInv(ix: Index) {
    DistinctSegments(ix.segments) && DistinctSlots(ix) && Bounded(ix) && Coincide(ix)
  }

  // ---- The pass, bit by bit ----

  ghost predicate Takes(segs: seq<Segment>, seg: Segment) {
    seg in segs && seg.incremental
  }

  /** Exactly the bits of `ordinal` in the current bitmaps of participating segments may change. */
  ghost predicate PassFrame(p: Pass, q: Pass, segs: seq<Segment>, ordinal: nat, generation: int) {
    && (forall id, g, o :: (o != ordinal || g != generation || !exists s :: Takes(segs, s) && s.id == id) ==>
          (o in Bitmap(q.forward, id, g) <==> o in Bitmap(p.forward, id, g)))
    && (forall so :: (!exists s :: Takes(segs, s) && s.ordinal == so) ==> (so in q.members <==> so in p.members))
    && (!q.changed ==> q.members == p.members)
    && (forall k :: k in q.forward && k !in p.forward ==> k.1 == generation && exists s :: Takes(segs, s) && s.id == k.0)
  }

  lemma {:induction false} FlipBits(forward: Forward, id: string, generation: int, ordinal: nat, matched: bool)
    ensures var f := FlipForward(forward, id, generation, ordinal, matched);
            && (ordinal in Bitmap(f, id, generation) <==> matched)
            && (forall i, g, o :: (o != ordinal || g != generation || i != id) ==> (o in Bitmap(f, i, g) <==> o in Bitmap(forward, i, g)))
            && (forall k :: k in f && k !in forward ==> k == (id, generation))
  {
  }

  lemma {:induction false} TakesFront(segs: seq<Segment>, s: Segment)
    requires segs != []
    ensures Takes(segs, s) <==> Takes(segs[..|segs| - 1], s) || (s == segs[|segs| - 1] && s.incremental)
  {
    assert segs == segs[..|segs| - 1] + [segs[|segs| - 1]];
  }

  lemma {:induction false} PassChangesOnlyItsBits(clock: Clock, p: Pass, segs: seq<Segment>, ordinal: nat, generation: int, env: map<string, Value>)
    requires !PassAll(clock, p, segs, ordinal, generation, env).failed && !p.changed
    ensures PassFrame(p, PassAll(clock, p, segs, ordinal, generation, env), segs, ordinal, generation)
  {
    if segs != [] {
      var front, seg := segs[..|segs| - 1], segs[|segs| - 1];
      var q := PassAll(clock, p, front, ordinal, generation, env);
      var r := PassOne(clock, q, seg, ordinal, generation, env);
      PassChangesOnlyItsBits(clock, p, front, ordinal, generation, env);
      forall s ensures Takes(segs, s) <==> Takes(front, s) || (s == seg && s.incremental) {
        TakesFront(segs, s);
      }
      if seg.incremental {
        assert Takes(segs, seg);
        var matched := E.Evaluated(clock, q.programs, seg.rule, env).b;
        FlipBits(q.forward, seg.id, generation, ordinal, matched);
        FrameExtends(p, q, r, front, segs, seg, ordinal, generation);
      }
    }
  }

  lemma {:induction false} FrameExtends(p: Pass, q: Pass, r: Pass, front: seq<Segment>, segs: seq<Segment>, seg: Segment, ordinal: nat, generation: int)
    requires PassFrame(p, q, front, ordinal, generation) && Takes(segs, seg)
    requires forall s :: Takes(front, s) ==> Takes(segs, s)
    requires forall i, g, o :: (o != ordinal || g != generation || i != seg.id) ==> (o in Bitmap(r.forward, i, g) <==> o in Bitmap(q.forward, i, g))
    requires forall k :: k in r.forward && k !in q.forward ==> k == (seg.id, generation)
    requires forall so :: so != seg.ordinal ==> (so in r.members <==> so in q.members)
    requires !r.changed ==> !q.changed && r.members == q.members
    ensures PassFrame(p, r, segs, ordinal, generation)
  {
  }

  /** Each participating segment ends with both its bits alike. */
  ghost predicate PassBalances(q: Pass, segs: seq<Segment>, ordinal: nat, generation: int) {
    forall s :: Takes(segs, s) ==> (ordinal in Bitmap(q.forward, s.id, generation) <==> s.ordinal in q.members)
  }

  lemma {:induction false} PassFlipsBoth(clock: Clock, p: Pass, segs: seq<Segment>, all: seq<Segment>, ordinal: nat, generation: int, env: map<string, Value>)
    requires DistinctSegments(all) && (forall s :: s in segs ==> s in all)
    requires !PassAll(clock, p, segs, ordinal, generation, env).failed
    ensures PassBalances(PassAll(clock, p, segs, ordinal, generation, env), segs, ordinal, generation)
  {
    if segs != [] {
      var front, seg := segs[..|segs| - 1], segs[|segs| - 1];
      assert segs == front + [seg];
      var q := PassAll(clock, p, front, ordinal, generation, env);
      var r := PassOne(clock, q, seg, ordinal, generation, env);
      PassFlipsBoth(clock, p, front, all, ordinal, generation, env);
      if seg.incremental {
        FlipBits(q.forward, seg.id, generation, ordinal, E.Evaluated(clock, q.programs, seg.rule, env).b);
      }
      forall s | Takes(segs, s) ensures ordinal in Bitmap(r.forward, s.id, generation) <==> s.ordinal in r.members {
        TakesFront(segs, s);
        if s != seg { Differ(all, s, seg); }
      }
    }
  }

  /** ... and as its predicate says. */
  ghost predicate PassDecides(clock: Clock, q: Pass, segs: seq<Segment>, env: map<string, Value>) {
    forall s :: Takes(segs, s) ==> E.VerdictOf(RowEval(clock, env, s.rule.tree)) == E.Matched(s.ordinal in q.members)
  }

  ghost function PredicatesOf(segs: seq<Segment>): set<E.Predicate> {
    set s | s in segs :: s.rule
  }

  lemma {:induction false} PassKeepsTheCache(clock: Clock, p: Pass, segs: seq<Segment>, ordinal: nat, generation: int, env: map<string, Value>, known: set<E.Predicate>)
    requires E.Fits(p.programs, known) && PredicatesOf(segs) <= known
    ensures E.Fits(PassAll(clock, p, segs, ordinal, generation, env).programs, known)
  {
    if segs != [] {
      var front, seg := segs[..|segs| - 1], segs[|segs| - 1];
      assert segs == front + [seg];
      PassKeepsTheCache(clock, p, front, ordinal, generation, env, known);
      var q := PassAll(clock, p, front, ordinal, generation, env);
      assert seg.rule in PredicatesOf(segs);
      E.FittingCache(clock, q.programs, known, seg.rule, env);
    }
  }

  /** The pass gets each segment's own answer, when the cache fits. */
  lemma {:induction false} PassGivesVerdicts(clock: Clock, p: Pass, segs: seq<Segment>, all: seq<Segment>, ordinal: nat, generation: int, env: map<string, Value>)
    requires E.Fits(p.programs, PredicatesOf(all)) && DistinctSegments(all) && (forall s :: s in segs ==> s in all)
    requires !PassAll(clock, p, segs, ordinal, generation, env).failed
    ensures PassDecides(clock, PassAll(clock, p, segs, ordinal, generation, env), segs, env)
  {
    if segs != [] {
      var front, seg := segs[..|segs| - 1], segs[|segs| - 1];
      assert segs == front + [seg];
      var q := PassAll(clock, p, front, ordinal, generation, env);
      PassGivesVerdicts(clock, p, front, all, ordinal, generation, env);
      LastVerdict(clock, p, segs, all, ordinal, generation, env);
      OneDecides(clock, q, segs, all, ordinal, generation, env);
    }
  }

  lemma {:induction false} OneDecides(clock: Clock, q: Pass, segs: seq<Segment>, all: seq<Segment>, ordinal: nat, generation: int, env: map<string, Value>)
    requires segs != [] && DistinctSegments(all) && (forall s :: s in segs ==> s in all)
    requires PassDecides(clock, q, segs[..|segs| - 1], env)
    requires var seg := segs[|segs| - 1];
             E.Evaluated(clock, q.programs, seg.rule, env) == E.VerdictOf(RowEval(clock, env, seg.rule.tree))
    requires !q.failed && !PassOne(clock, q, segs[|segs| - 1], ordinal, generation, env).failed
    ensures PassDecides(clock, PassOne(clock, q, segs[|segs| - 1], ordinal, generation, env), segs, env)
  {
    var seg := segs[|segs| - 1];
    var r := PassOne(clock, q, seg, ordinal, generation, env);
    forall s | Takes(segs, s) ensures E.VerdictOf(RowEval(clock, env, s.rule.tree)) == E.Matched(s.ordinal in r.members) {
      TakesFront(segs, s);
      if s != seg { Differ(all, s, seg); }
    }
  }

  /** The last segment of a pass is evaluated with its own tree. */
  lemma {:induction false} LastVerdict(clock: Clock, p: Pass, segs: seq<Segment>, all: seq<Segment>, ordinal: nat, generation: int, env: map<string, Value>)
    requires segs != [] && E.Fits(p.programs, PredicatesOf(all)) && (forall s :: s in segs ==> s in all)
    ensures var front, seg := segs[..|segs| - 1], segs[|segs| - 1];
            E.Evaluated(clock, PassAll(clock, p, front, ordinal, generation, env).programs, seg.rule, env) == E.VerdictOf(RowEval(clock, env, seg.rule.tree))
  {
    var front, seg := segs[..|segs| - 1], segs[|segs| - 1];
    assert segs == front + [seg];
    assert PredicatesOf(front) <= PredicatesOf(all);
    PassKeepsTheCache(clock, p, front, ordinal, generation, env, PredicatesOf(all));
    assert seg.rule in PredicatesOf(all);
    E.FittingCache(clock, PassAll(clock, p, front, ordinal, generation, env).programs, PredicatesOf(all), seg.rule, env);
  }

  /** A pass fails exactly when some participating segment has no answer. */
  lemma {:induction false} PassFailsIff(clock: Clock, p: Pass, segs: seq<Segment>, all: seq<Segment>, ordinal: nat, generation: int, env: map<string, Value>)
    requires !p.failed && E.Fits(p.programs, PredicatesOf(all)) && (forall s :: s in segs ==> s in all)
    ensures PassAll(clock, p, segs, ordinal, generation, env).failed
            <==> exists s :: Takes(segs, s) && E.VerdictOf(RowEval(clock, env, s.rule.tree)).Failed?
  {
    if segs != [] {
      var front, seg := segs[..|segs| - 1], segs[|segs| - 1];
      assert segs == front + [seg];
      PassFailsIff(clock, p, front, all, ordinal, generation, env);
      LastVerdict(clock, p, segs, all, ordinal, generation, env);
      forall s ensures Takes(segs, s) <==> Takes(front, s) || (s == seg && s.incremental) {
        TakesFront(segs, s);
      }
      assert seg.incremental ==> Takes(segs, seg);
    }
  }

  lemma {:induction false} Differ(all: seq<Segment>, s: Segment, t: Segment)
    requires DistinctSegments(all) && s in all && t in all && s != t
    ensures s.id != t.id && s.ordinal != t.ordinal
  {
  }
}
