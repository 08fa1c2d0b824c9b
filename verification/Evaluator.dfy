/** The row-wise evaluator's program cache (internal/audience/eval), keyed by a predicate's hash. */
module Evaluator {
  import opened Wrappers
  import opened Predicates

  /** A saved predicate. Compiling one sets the hash; reading a segment back leaves it empty. */
  datatype Predicate = Predicate(tree: Expr, hash: string)

  /** A boolean, or an evaluation error. */
  datatype Verdict = Matched(b: bool) | Failed

  function VerdictOf(o: Outcome): Verdict {
    if o.Value? && o.v.BoolVal? then Matched(o.v.b) else Failed
  }

  type Programs = map<string, Expr>

  /** The program run for `p`: the one cached under its hash, if any. */
  function ProgramOf(programs: Programs, p: Predicate): Expr {
    if p.hash in programs then programs[p.hash] else p.tree
  }

  function Cached(programs: Programs, p: Predicate): Programs {
    programs[p.hash := ProgramOf(programs, p)]
  }

  function Evaluated(clock: Clock, programs: Programs, p: Predicate, env: map<string, Value>): Verdict {
    VerdictOf(RowEval(clock, env, ProgramOf(programs, p)))
  }

  class Evaluator {
    const clock: Clock
    var programs: Programs

    constructor (clock: Clock)
      ensures this.clock == clock && programs == map[]
    {
      this.clock, programs := clock, map[];
    }

    method Evaluate(p: Predicate, env: map<string, Value>) returns (v: Verdict)
      modifies this
      ensures v == Evaluated(clock, old(programs), p, env)
      ensures programs == Cached(old(programs), p)
    {
      var program := Program(p);
      var result := RowEval(clock, env, program);
      v := match result
        case Error => Failed
        case Value(BoolVal(b)) => Matched(b)
        case Value(_) => Failed;
    }

    method Program(p: Predicate) returns (program: Expr)
      modifies this
      ensures program == ProgramOf(old(programs), p)
      ensures programs == Cached(old(programs), p)
    {
      if p.hash in programs {
        assert programs == programs[p.hash := programs[p.hash]];
        return programs[p.hash];
      }
      program := p.tree;
      programs := programs[p.hash := program];
    }
  }

  // ---- Runs ----

  /** The cache after evaluating `ps` in order, from an empty one. */
  function CacheAfter(ps: seq<Predicate>): Programs {
    if ps == [] then map[] else Cached(CacheAfter(ps[..|ps| - 1]), ps[|ps| - 1])
  }

  /** Each evaluation of the run used the predicate's own tree. */
  ghost predicate Faithful(ps: seq<Predicate>) {
    forall i :: 0 <= i < |ps| ==> ProgramOf(CacheAfter(ps[..i]), ps[i]) == ps[i].tree
  }

  /** Equal hash implies equal tree. */
  ghost predicate HashesTell(ps: seq<Predicate>) {
    forall i, j :: 0 <= i < |ps| && 0 <= j < |ps| && ps[i].hash == ps[j].hash ==> ps[i].tree == ps[j].tree
  }

  /** The first predicate of the run with this hash, if any. */
  function FirstWith(ps: seq<Predicate>, hash: string): Option<Predicate> {
    if ps == [] then None
    else
      var earlier := FirstWith(ps[..|ps| - 1], hash);
      if earlier.Some? then earlier
      else if ps[|ps| - 1].hash == hash then Some(ps[|ps| - 1]) else None
  }

  /** The cache holds the tree of the first predicate seen with each hash, and keeps it for good. */
  lemma {:induction false} FirstComeFirstServed(ps: seq<Predicate>, hash: string)
    ensures Get(CacheAfter(ps), hash) == match FirstWith(ps, hash) case None => None case Some(p) => Some(p.tree)
  {
    if ps != [] {
      FirstComeFirstServed(ps[..|ps| - 1], hash);
      FirstComeFirstServed(ps[..|ps| - 1], ps[|ps| - 1].hash);
    }
  }

  lemma {:induction false} FirstIsEarliest(ps: seq<Predicate>, hash: string) returns (k: nat)
    requires exists i :: 0 <= i < |ps| && ps[i].hash == hash
    ensures k < |ps| && ps[k].hash == hash && FirstWith(ps, hash) == Some(ps[k])
    ensures forall i :: 0 <= i < k ==> ps[i].hash != hash
  {
    var front := ps[..|ps| - 1];
    if i :| 0 <= i < |front| && front[i].hash == hash {
      k := FirstIsEarliest(front, hash);
    } else {
      k := |ps| - 1;
      NoneWith(front, hash);
    }
  }

  lemma {:induction false} NoneWith(ps: seq<Predicate>, hash: string)
    requires forall i :: 0 <= i < |ps| ==> ps[i].hash != hash
    ensures FirstWith(ps, hash) == None
  {
    if ps != [] { NoneWith(ps[..|ps| - 1], hash); }
  }

  /** A run from an empty cache answers for the right predicate throughout if and only if the hashes tell the trees apart. */
  lemma {:induction false} FaithfulIff(ps: seq<Predicate>)
    ensures Faithful(ps) <==> HashesTell(ps)
  {
    if Faithful(ps) {
      forall i, j | 0 <= i < |ps| && 0 <= j < |ps| && ps[i].hash == ps[j].hash ensures ps[i].tree == ps[j].tree {
        SharesTheFirst(ps, i);
        SharesTheFirst(ps, j);
      }
    }
    if HashesTell(ps) {
      forall i | 0 <= i < |ps| ensures ProgramOf(CacheAfter(ps[..i]), ps[i]) == ps[i].tree {
        FirstComeFirstServed(ps[..i], ps[i].hash);
        if FirstWith(ps[..i], ps[i].hash).Some? {
          var k := WhichIsFirst(ps[..i], ps[i].hash);
          assert ps[..i][k] == ps[k];
        }
      }
    }
  }

  lemma {:induction false} WhichIsFirst(ps: seq<Predicate>, hash: string) returns (k: nat)
    requires FirstWith(ps, hash).Some?
    ensures k < |ps| && FirstWith(ps, hash) == Some(ps[k]) && ps[k].hash == hash
  {
    if FirstWith(ps[..|ps| - 1], hash).Some? {
      k := WhichIsFirst(ps[..|ps| - 1], hash);
    } else {
      k := |ps| - 1;
    }
  }

  /** In a faithful run, a predicate has the tree of the first one with its hash. */
  lemma {:induction false} SharesTheFirst(ps: seq<Predicate>, i: nat)
    requires Faithful(ps) && i < |ps|
    ensures FirstWith(ps, ps[i].hash).Some? && ps[i].tree == FirstWith(ps, ps[i].hash).value.tree
  {
    var hash := ps[i].hash;
    var k := FirstIsEarliest(ps, hash);
    if k < i {
      assert ps[..i][k] == ps[k];
      var k' := FirstIsEarliest(ps[..i], hash);
      assert ps[..i][k'] == ps[k'];
      assert k' == k;
      FirstComeFirstServed(ps[..i], hash);
    }
  }

  /** Predicates fresh from the compiler, `digest` being a collision-free hash, are told apart. */
  lemma {:induction false} CompiledPredicatesAreFaithful(ps: seq<Predicate>, digest: Expr -> string)
    requires forall x, y :: digest(x) == digest(y) ==> x == y
    requires forall i :: 0 <= i < |ps| ==> ps[i].hash == digest(ps[i].tree)
    ensures Faithful(ps)
  {
    forall i, j | 0 <= i < |ps| && 0 <= j < |ps| && ps[i].hash == ps[j].hash ensures ps[i].tree == ps[j].tree {
      assert digest(ps[i].tree) == digest(ps[j].tree);
    }
    FaithfulIff(ps);
  }

  /** A segment's predicate as read back from the store: the tree, without a hash. */
  function ReadBack(tree: Expr): Predicate {
    Predicate(tree, "")
  }

  /** Of predicates read back from the store, one evaluator runs the first for all. */
  lemma {:induction false} ReadBackSegmentsShareAProgram(trees: seq<Expr>, next: Expr)
    requires trees != []
    ensures ProgramOf(CacheAfter(ReadAll(trees)), ReadBack(next)) == trees[0]
  {
    FirstComeFirstServed(ReadAll(trees), "");
    var k := FirstIsEarliest(ReadAll(trees), "") by { assert ReadAll(trees)[0].hash == ""; }
    assert k == 0 by { assert ReadAll(trees)[0].hash == ""; }
  }

  function ReadAll(trees: seq<Expr>): (ps: seq<Predicate>)
    ensures |ps| == |trees| && forall i :: 0 <= i < |trees| ==> ps[i] == ReadBack(trees[i])
  {
    seq(|trees|, i requires 0 <= i < |trees| => ReadBack(trees[i]))
  }

  // ---- A cache that fits a set of predicates ----

  /** The cache is right for every predicate of `known`, and stays so while only those are evaluated. */
  ghost predicate Fits(programs: Programs, known: set<Predicate>) {
    && (forall p :: p in known && p.hash in programs ==> programs[p.hash] == p.tree)
    && (forall p, q :: p in known && q in known && p.hash == q.hash ==> p.tree == q.tree)
  }

  lemma {:induction false} FittingCache(clock: Clock, programs: Programs, known: set<Predicate>, p: Predicate, env: map<string, Value>)
    requires Fits(programs, known) && p in known
    ensures Evaluated(clock, programs, p, env) == VerdictOf(RowEval(clock, env, p.tree))
    ensures Fits(Cached(programs, p), known)
  {
  }
}
