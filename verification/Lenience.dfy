/**
 What the database makes of any accepted predicate, said row by row: it evaluates as the row-wise side
 would if semver() took a missing or malformed version for the version its normalisation yields, and a
 search in an empty list always failed. Hence exactly when the two evaluations agree, on whole trees.
 */
module Lenience {
  import opened Wrappers
  import opened Predicates
  import opened SqlCompile
  import opened Agreement
  import SemVer

  // ---- The lenient evaluation ----

  /** semver() as the database computes it: an answer for anything. */
  function TotalVersion(a: Outcome): Outcome {
    Value(StrVal(SemVer.SqlNormalized(if a.Value? && a.v.StrVal? then Some(a.v.s) else None)))
  }

  function LenientOutcomes(clock: Clock, env: map<string, Value>, es: seq<Expr>): (vs: seq<Outcome>)
    ensures |vs| == |es|
    ensures forall i :: 0 <= i < |es| ==> vs[i] == Lenient(clock, env, es[i])
  {
    seq(|es|, i requires 0 <= i < |es| => Lenient(clock, env, es[i]))
  }

  function LenientIn(clock: Clock, env: map<string, Value>, needle: Outcome, haystack: Expr): Outcome {
    match haystack
    case ListOf(elems) => if elems == [] then BoolOf(false) else Contained(needle, Outcomes(clock, env, elems))
    case _ =>
      var stored := RowEval(clock, env, haystack);
      if stored.Value? && stored.v.SetVal? then Contained(needle, SetOutcomes(stored.v.elems)) else Error
  }

  /** Row-wise evaluation with the two leniencies. */
  function Lenient(clock: Clock, env: map<string, Value>, e: Expr): Outcome {
    if !e.Call? then RowEval(clock, env, e)
    else if e.fn.In? then
      if |e.args| != 2 then Error else LenientIn(clock, env, Lenient(clock, env, e.args[0]), e.args[1])
    else if e.fn.SemVerFn? && |e.args| == 1 && !e.args[0].Literal? then TotalVersion(Lenient(clock, env, e.args[0]))
    else Applied(clock, e.fn, LenientOutcomes(clock, env, e.args))
  }

  /** Empty lists are searched for strings: of anything else the query would compare unlike types. */
  ghost predicate ListsOfStrings(reg: Registry, e: Expr) {
    e.Call? ==>
      && (e.fn.In? && |e.args| == 2 && e.args[1] == ListOf([]) ==> TypeOf(reg, e.args[0]) == Some(StrTy))
      && forall i :: 0 <= i < |e.args| ==> ListsOfStrings(reg, e.args[i])
  }

  // ---- The database is lenient ----

  ghost predicate Compilable(reg: Registry, clock: Clock, row: Row, e: Expr, args: seq<Arg>, full: seq<Arg>) {
    && WellTyped(reg, row) && TypeOf(reg, e).Some? && ListsOfStrings(reg, e)
    && Compiled(reg, clock, e, args).0.Ok? && Compiled(reg, clock, e, args).1 <= full
  }

  /** The condition has the value of the lenient evaluation, and is NULL where that errs. */
  ghost predicate IsLenient(reg: Registry, clock: Clock, row: Row, e: Expr, args: seq<Arg>, full: seq<Arg>)
    requires TypeOf(reg, e).Some? && Compiled(reg, clock, e, args).0.Ok?
  {
    Exact(TypeOf(reg, e).value, Lenient(clock, Environment(reg, row), e), SqlEval(Compiled(reg, clock, e, args).0.value, full, row))
  }

  lemma {:induction false} BinaryIsLenient(reg: Registry, clock: Clock, row: Row, e: Expr, args: seq<Arg>, full: seq<Arg>)
    requires Compilable(reg, clock, row, e, args, full) && e.Call? && BinaryOf(e.fn).Some?
    ensures IsLenient(reg, clock, row, e, args, full)
    decreases e, 0
  {
    var env, es, op := Environment(reg, row), e.args, BinaryOf(e.fn).value;
    var (left, args1) := Compiled(reg, clock, es[0], args);
    var (right, args2) := Compiled(reg, clock, es[1], args1);
    CompilingAppends(reg, clock, es[1], args1);
    assert TypesOf(reg, es)[0] == TypeOf(reg, es[0]) && TypesOf(reg, es)[1] == TypeOf(reg, es[1]);
    TreeIsLenient(reg, clock, row, es[0], args, full);
    TreeIsLenient(reg, clock, row, es[1], args1, full);
    var vs := LenientOutcomes(clock, env, es);
    assert Lenient(clock, env, e) == Applied(clock, e.fn, vs);
    assert vs[0] == Lenient(clock, env, es[0]) && vs[1] == Lenient(clock, env, es[1]);
    BinaryRelated(op, TypeOf(reg, es[0]).value, vs[0], SqlEval(left.value, full, row), vs[1], SqlEval(right.value, full, row), true);
  }

  lemma {:induction false} NormalizeIsTotal(a: Outcome, x: Cell)
    requires Exact(StrTy, a, x)
    ensures Exact(StrTy, TotalVersion(a), SqlNormalize(x))
  {
  }

  lemma {:induction false} UnaryIsLenient(reg: Registry, clock: Clock, row: Row, e: Expr, args: seq<Arg>, full: seq<Arg>)
    requires Compilable(reg, clock, row, e, args, full) && e.Call? && |e.args| == 1
    requires e.fn.Not? || (e.fn.SemVerFn? && !e.args[0].Literal?)
    ensures IsLenient(reg, clock, row, e, args, full)
    decreases e, 0
  {
    UnaryCompiled(reg, clock, e, args);
    LenientUnary(reg, clock, Environment(reg, row), e);
    TreeIsLenient(reg, clock, row, e.args[0], args, full);
    UnaryFromLenient(Lenient(clock, Environment(reg, row), e.args[0]), Compiled(reg, clock, e.args[0], args).0.value, full, row, e.fn);
  }

  lemma {:induction false} LenientUnary(reg: Registry, clock: Clock, env: map<string, Value>, e: Expr)
    requires e.Call? && |e.args| == 1 && (e.fn.Not? || (e.fn.SemVerFn? && !e.args[0].Literal?)) && TypeOf(reg, e).Some?
    ensures var a := Lenient(clock, env, e.args[0]); Lenient(clock, env, e) == if e.fn.Not? then Negation(a) else TotalVersion(a)
    ensures TypeOf(reg, e) == Some(if e.fn.Not? then BoolTy else StrTy) && TypeOf(reg, e.args[0]) == TypeOf(reg, e)
  {
    assert LenientOutcomes(clock, env, e.args)[0] == Lenient(clock, env, e.args[0]);
    assert TypesOf(reg, e.args)[0] == TypeOf(reg, e.args[0]);
  }

  lemma {:induction false} UnaryFromLenient(a: Outcome, inner: Sql, full: seq<Arg>, row: Row, fn: Fn)
    requires fn.Not? || fn.SemVerFn?
    requires Exact(if fn.Not? then BoolTy else StrTy, a, SqlEval(inner, full, row))
    ensures fn.Not? ==> Exact(BoolTy, Negation(a), SqlEval(SNot(inner), full, row))
    ensures !fn.Not? ==> Exact(StrTy, TotalVersion(a), SqlEval(SNormalize(inner), full, row))
  {
    if fn.Not? {
      NotRelated(a, SqlEval(inner, full, row), true);
    } else {
      NormalizeIsTotal(a, SqlEval(inner, full, row));
    }
  }

  lemma {:induction false} ConvertedLiteralIsLenient(reg: Registry, clock: Clock, row: Row, e: Expr, args: seq<Arg>, full: seq<Arg>)
    requires Compilable(reg, clock, row, e, args, full) && e.Call? && |e.args| == 1
    requires e.fn.TimestampFn? || (e.fn.SemVerFn? && e.args[0].Literal?)
    ensures IsLenient(reg, clock, row, e, args, full)
  {
    PrefixArg(Compiled(reg, clock, e, args).1, full, |args| + 1);
    assert TypesOf(reg, e.args)[0] == TypeOf(reg, e.args[0]);
    assert LenientOutcomes(clock, Environment(reg, row), e.args)[0] == RowEval(clock, Environment(reg, row), e.args[0]);
  }

  lemma {:induction false} ListIsLenient(clock: Clock, env: map<string, Value>, a: Outcome, x: Cell, elems: seq<Expr>)
    requires Exact(StrTy, a, x) && LiteralStrings(elems).Ok?
    ensures Exact(BoolTy, LenientIn(clock, env, a, ListOf(elems)), SqlAnyOf(x, Some(Strings(LiteralStrings(elems).value))))
  {
    LiteralListElements(elems);
    LiteralListOutcomes(clock, env, elems);
    AnyOfRelated(a, x, LiteralStrings(elems).value, true);
  }

  lemma {:induction false} SetIsLenient(reg: Registry, clock: Clock, row: Row, a: Outcome, x: Cell, name: string)
    requires WellTyped(reg, row) && name in reg && reg[name].kind.StringSetAttr? && Exact(StrTy, a, x)
    ensures Exact(BoolTy, LenientIn(clock, Environment(reg, row), a, Ident(name)), SqlContains(Get(row.attributes, name), x))
  {
    ContainsRelated(a, x, Get(row.attributes, name), true);
  }

  /** Only strings are looked for in what the compiler accepts. */
  lemma {:induction false} SoughtIsString(reg: Registry, e: Expr, needle: Sql, args: seq<Arg>)
    requires TypeOf(reg, e) == Some(BoolTy) && e.Call? && e.fn.In? && |e.args| == 2
    requires HaystackCompiled(reg, needle, e.args[1], args).0.Ok? && ListsOfStrings(reg, e)
    ensures TypeOf(reg, e.args[0]) == Some(StrTy)
  {
    if e.args[1].ListOf? && e.args[1].elems != [] {
      LiteralListElements(e.args[1].elems);
      assert TypeOf(reg, e.args[1].elems[0]) == Some(StrTy);
    }
  }

  lemma {:induction false} HaystackIsLenient(reg: Registry, clock: Clock, row: Row, haystack: Expr, a: Outcome, needle: Sql, args: seq<Arg>, full: seq<Arg>)
    requires WellTyped(reg, row) && Exact(StrTy, a, SqlEval(needle, full, row))
    requires HaystackCompiled(reg, needle, haystack, args).0.Ok? && HaystackCompiled(reg, needle, haystack, args).1 <= full
    ensures Exact(BoolTy, LenientIn(clock, Environment(reg, row), a, haystack), SqlEval(HaystackCompiled(reg, needle, haystack, args).0.value, full, row))
  {
    if haystack.ListOf? {
      ListHaystackIsLenient(reg, clock, row, haystack, a, needle, args, full);
    } else {
      SetHaystackIsLenient(reg, clock, row, haystack, a, needle, args, full);
    }
  }

  lemma {:induction false} ListHaystackIsLenient(reg: Registry, clock: Clock, row: Row, haystack: Expr, a: Outcome, needle: Sql, args: seq<Arg>, full: seq<Arg>)
    requires Exact(StrTy, a, SqlEval(needle, full, row)) && haystack.ListOf?
    requires HaystackCompiled(reg, needle, haystack, args).0.Ok? && HaystackCompiled(reg, needle, haystack, args).1 <= full
    ensures Exact(BoolTy, LenientIn(clock, Environment(reg, row), a, haystack), SqlEval(HaystackCompiled(reg, needle, haystack, args).0.value, full, row))
  {
    var ss := LiteralStrings(haystack.elems).value;
    ListIsLenient(clock, Environment(reg, row), a, SqlEval(needle, full, row), haystack.elems);
    PrefixArg(args + [Strings(ss)], full, |args| + 1);
    assert SqlEval(SAnyOf(needle, |args| + 1), full, row) == SqlAnyOf(SqlEval(needle, full, row), Some(Strings(ss)));
  }

  lemma {:induction false} SetHaystackIsLenient(reg: Registry, clock: Clock, row: Row, haystack: Expr, a: Outcome, needle: Sql, args: seq<Arg>, full: seq<Arg>)
    requires WellTyped(reg, row) && Exact(StrTy, a, SqlEval(needle, full, row)) && !haystack.ListOf?
    requires HaystackCompiled(reg, needle, haystack, args).0.Ok? && HaystackCompiled(reg, needle, haystack, args).1 <= full
    ensures Exact(BoolTy, LenientIn(clock, Environment(reg, row), a, haystack), SqlEval(HaystackCompiled(reg, needle, haystack, args).0.value, full, row))
  {
    SetIsLenient(reg, clock, row, a, SqlEval(needle, full, row), haystack.name);
    PrefixArg(args + [Scalar(StrVal(haystack.name))], full, |args| + 1);
    assert SqlEval(SContains(|args| + 1, needle), full, row) == SqlContains(Get(row.attributes, haystack.name), SqlEval(needle, full, row));
  }

  lemma {:induction false} InIsLenient(reg: Registry, clock: Clock, row: Row, e: Expr, args: seq<Arg>, full: seq<Arg>)
    requires Compilable(reg, clock, row, e, args, full) && e.Call? && e.fn.In?
    ensures IsLenient(reg, clock, row, e, args, full)
    decreases e, 0
  {
    var (needle, args1) := Compiled(reg, clock, e.args[0], args);
    var (sql, args2) := HaystackCompiled(reg, needle.value, e.args[1], args1);
    assert args1 <= args2;
    SoughtIsString(reg, e, needle.value, args1);
    TreeIsLenient(reg, clock, row, e.args[0], args, full);
    HaystackIsLenient(reg, clock, row, e.args[1], Lenient(clock, Environment(reg, row), e.args[0]), needle.value, args1, full);
  }

  lemma {:induction false} TreeIsLenient(reg: Registry, clock: Clock, row: Row, e: Expr, args: seq<Arg>, full: seq<Arg>)
    requires Compilable(reg, clock, row, e, args, full)
    ensures IsLenient(reg, clock, row, e, args, full)
    decreases e, 1
  {
    match e
    case Ident(name) => IdentAgrees(reg, clock, row, name, args, full);
    case Literal(v) => LiteralAgrees(v, TypeOf(reg, e).value, args, full, row);
    case Call(fn, es) =>
      if BinaryOf(fn).Some? {
        BinaryIsLenient(reg, clock, row, e, args, full);
      } else if fn.In? {
        InIsLenient(reg, clock, row, e, args, full);
      } else if fn.Not? || (fn.SemVerFn? && !es[0].Literal?) {
        UnaryIsLenient(reg, clock, row, e, args, full);
      } else {
        ConvertedLiteralIsLenient(reg, clock, row, e, args, full);
      }
    case _ =>
  }

  /** On every well-typed row, whatever is missing, malformed or too long, the database decides as the lenient evaluation does. */
  lemma {:induction false} DatabaseIsLenient(reg: Registry, clock: Clock, row: Row, e: Expr, more: seq<Arg>)
    requires Accepted(reg, clock, e) && WellTyped(reg, row) && ListsOfStrings(reg, e)
    ensures Exact(BoolTy, Lenient(clock, Environment(reg, row), e), SetWise(reg, clock, row, e, more))
  {
    TreeIsLenient(reg, clock, row, e, [], Compiled(reg, clock, e, []).1 + more);
  }

  /** True is TRUE, false is FALSE, and an error is NULL, each way. */
  ghost predicate SameVerdict(o: Outcome, s: Cell) {
    && (o == BoolOf(true) <==> s == Truth(true))
    && (o == BoolOf(false) <==> s == Truth(false))
    && (o.Error? <==> s.Null?)
  }

  /** The two evaluations of any tree, `&&` and `||` included, agree if and only if leniency makes no difference row-wise. */
  lemma {:induction false} EvaluationsAgreeIff(reg: Registry, clock: Clock, row: Row, e: Expr, more: seq<Arg>)
    requires Accepted(reg, clock, e) && WellTyped(reg, row) && ListsOfStrings(reg, e)
    ensures SameVerdict(RowWise(reg, clock, row, e), SetWise(reg, clock, row, e, more))
            <==> RowWise(reg, clock, row, e) == Lenient(clock, Environment(reg, row), e)
  {
    DatabaseIsLenient(reg, clock, row, e, more);
    EvaluationIsTyped(clock, reg, row, e);
  }

  // ---- Trees without && and || ----

  predicate Unjoined(e: Expr) {
    e.Call? ==> !e.fn.And? && !e.fn.Or? && forall i :: 0 <= i < |e.args| ==> Unjoined(e.args[i])
  }

  /** A value is missing where the database notices: not below semver(), and not looked for in an empty list. */
  predicate Exposed(env: map<string, Value>, e: Expr) {
    match e
    case Ident(name) => name !in env
    case Call(fn, args) =>
      (match fn
       case Not => |args| == 1 && Exposed(env, args[0])
       case Compare(_) => |args| == 2 && (Exposed(env, args[0]) || Exposed(env, args[1]))
       case In => |args| == 2 && args[1] != ListOf([]) && (Exposed(env, args[0]) || Exposed(env, args[1]))
       case _ => false)
    case _ => false
  }

  lemma {:induction false} UndecidedErrs(clock: Clock, env: map<string, Value>, e: Expr)
    requires Unjoined(e) && !Decisive(clock, env, e)
    ensures RowEval(clock, env, e).Error?
  {
    var vs := Outcomes(clock, env, e.args);
    if DecisiveAt(clock, env, e) {
      var i :| 0 <= i < |e.args| && !Decisive(clock, env, e.args[i]);
      UndecidedErrs(clock, env, e.args[i]);
      assert vs[i].Error?;
    }
    assert |e.args| > 0 ==> vs[0] == RowEval(clock, env, e.args[0]);
  }

  lemma {:induction false} LenientErrsIff(reg: Registry, clock: Clock, row: Row, e: Expr, args: seq<Arg>)
    requires Compilable(reg, clock, row, e, args, Compiled(reg, clock, e, args).1) && Unjoined(e)
    ensures Lenient(clock, Environment(reg, row), e).Error? <==> Exposed(Environment(reg, row), e)
    decreases e, 1
  {
    if e.Call? {
      if e.fn.Compare? {
        ComparisonErrsIff(reg, clock, row, e, args);
      } else if e.fn.In? {
        SearchErrsIff(reg, clock, row, e, args);
      } else if e.fn.Not? {
        NegationErrsIff(reg, clock, row, e, args);
      } else {
        ConversionNeverErrs(reg, clock, row, e, args);
      }
    }
  }

  lemma {:induction false} ComparisonErrsIff(reg: Registry, clock: Clock, row: Row, e: Expr, args: seq<Arg>)
    requires Compilable(reg, clock, row, e, args, Compiled(reg, clock, e, args).1) && Unjoined(e) && e.Call? && e.fn.Compare?
    ensures Lenient(clock, Environment(reg, row), e).Error? <==> Exposed(Environment(reg, row), e)
    decreases e, 0
  {
    var es := e.args;
    assert TypesOf(reg, es)[0] == TypeOf(reg, es[0]) && TypesOf(reg, es)[1] == TypeOf(reg, es[1]);
    LenientErrsIff(reg, clock, row, es[0], args);
    LenientErrsIff(reg, clock, row, es[1], Compiled(reg, clock, es[0], args).1);
    var vs := LenientOutcomes(clock, Environment(reg, row), es);
    assert vs[0] == Lenient(clock, Environment(reg, row), es[0]) && vs[1] == Lenient(clock, Environment(reg, row), es[1]);
  }

  lemma {:induction false} NegationErrsIff(reg: Registry, clock: Clock, row: Row, e: Expr, args: seq<Arg>)
    requires Compilable(reg, clock, row, e, args, Compiled(reg, clock, e, args).1) && Unjoined(e) && e.Call? && e.fn.Not?
    ensures Lenient(clock, Environment(reg, row), e).Error? <==> Exposed(Environment(reg, row), e)
    decreases e, 0
  {
    UnaryCompiled(reg, clock, e, args);
    assert TypesOf(reg, e.args)[0] == TypeOf(reg, e.args[0]);
    LenientErrsIff(reg, clock, row, e.args[0], args);
    TreeIsLenient(reg, clock, row, e.args[0], args, Compiled(reg, clock, e.args[0], args).1);
    assert LenientOutcomes(clock, Environment(reg, row), e.args)[0] == Lenient(clock, Environment(reg, row), e.args[0]);
  }

  lemma {:induction false} ConversionNeverErrs(reg: Registry, clock: Clock, row: Row, e: Expr, args: seq<Arg>)
    requires Compilable(reg, clock, row, e, args, Compiled(reg, clock, e, args).1) && e.Call? && (e.fn.SemVerFn? || e.fn.TimestampFn?)
    ensures !Lenient(clock, Environment(reg, row), e).Error? && !Exposed(Environment(reg, row), e)
  {
    var env := Environment(reg, row);
    if e.args[0].Literal? {
      assert LenientOutcomes(clock, env, e.args)[0] == RowEval(clock, env, e.args[0]);
    }
  }

  lemma {:induction false} SearchErrsIff(reg: Registry, clock: Clock, row: Row, e: Expr, args: seq<Arg>)
    requires Compilable(reg, clock, row, e, args, Compiled(reg, clock, e, args).1) && Unjoined(e) && e.Call? && e.fn.In?
    ensures Lenient(clock, Environment(reg, row), e).Error? <==> Exposed(Environment(reg, row), e)
    decreases e, 0
  {
    LenientErrsIff(reg, clock, row, e.args[0], args);
    var a, env := Lenient(clock, Environment(reg, row), e.args[0]), Environment(reg, row);
    if e.args[1].ListOf? {
      LiteralListOutcomes(clock, env, e.args[1].elems);
      assert Error !in Outcomes(clock, env, e.args[1].elems) by {
        StringIn("", LiteralStrings(e.args[1].elems).value);
      }
    } else {
      StoredErrsIff(reg, clock, row, e.args[1].name, a);
    }
  }

  lemma {:induction false} StoredErrsIff(reg: Registry, clock: Clock, row: Row, name: string, a: Outcome)
    requires WellTyped(reg, row) && name in reg && reg[name].kind.StringSetAttr?
    ensures LenientIn(clock, Environment(reg, row), a, Ident(name)).Error? <==> a.Error? || name !in Environment(reg, row)
  {
    var env := Environment(reg, row);
    if name in env {
      assert env[name].SetVal?;
      StringIn("", env[name].elems);
    }
  }

  /**
   Of a tree without `&&` and `||`, on rows whose versions fit the database, the evaluations agree if and
   only if no call meets something missing or malformed, or something is missing where the database notices.
   */
  lemma {:induction false} UnjoinedAgreeIff(reg: Registry, clock: Clock, row: Row, e: Expr, more: seq<Arg>)
    requires Accepted(reg, clock, e) && WellTyped(reg, row) && Unjoined(e) && ListsOfStrings(reg, e)
    requires Regular(reg, clock, Environment(reg, row), e)
    ensures SameVerdict(RowWise(reg, clock, row, e), SetWise(reg, clock, row, e, more))
            <==> Decisive(clock, Environment(reg, row), e) || Exposed(Environment(reg, row), e)
  {
    var env := Environment(reg, row);
    EvaluationsAgreeIff(reg, clock, row, e, more);
    DatabaseIsLenient(reg, clock, row, e, more);
    DatabaseFollowsRowWise(reg, clock, row, e, more);
    LenientErrsIff(reg, clock, row, e, []);
    if Decisive(clock, env, e) {
      EvaluationsAgree(reg, clock, row, e, more);
    } else {
      UndecidedErrs(clock, env, e);
    }
  }

  // ---- Through && and || ----

  /**
   A leniency decides the tree for `b`, row by row an error. At a junction it comes from a side a leniency
   decides: for the absorbing verdict unless the other side has that verdict anyway, for the other one if
   the other side has it or a leniency decides it too.
   */
  predicate DecidesFor(clock: Clock, env: map<string, Value>, e: Expr, b: bool) {
    if e.Call? && (e.fn.And? || e.fn.Or?) && |e.args| == 2 then
      var l, r := e.args[0], e.args[1];
      if b == e.fn.Or? then
        || (DecidesFor(clock, env, l, b) && RowEval(clock, env, r) != BoolOf(b))
        || (DecidesFor(clock, env, r, b) && RowEval(clock, env, l) != BoolOf(b))
      else
        || (DecidesFor(clock, env, l, b) && (RowEval(clock, env, r) == BoolOf(b) || DecidesFor(clock, env, r, b)))
        || (DecidesFor(clock, env, r, b) && RowEval(clock, env, l) == BoolOf(b))
    else if e.Call? && e.fn.Not? && |e.args| == 1 then DecidesFor(clock, env, e.args[0], !b)
    else RowEval(clock, env, e).Error? && Lenient(clock, env, e) == BoolOf(b)
  }

  /** A row-wise verdict is the lenient one, on rows whose versions fit; both are of the type. */
  lemma {:induction false} LenientFollows(reg: Registry, clock: Clock, row: Row, e: Expr, args: seq<Arg>)
    requires Compilable(reg, clock, row, e, args, Compiled(reg, clock, e, args).1) && Regular(reg, clock, Environment(reg, row), e)
    ensures var o, lenient := RowEval(clock, Environment(reg, row), e), Lenient(clock, Environment(reg, row), e);
            && (o.Value? ==> lenient == o)
            && OfType(o, TypeOf(reg, e).value) && OfType(lenient, TypeOf(reg, e).value)
    ensures Decisive(clock, Environment(reg, row), e) ==> RowEval(clock, Environment(reg, row), e) == Lenient(clock, Environment(reg, row), e)
  {
    var full := Compiled(reg, clock, e, args).1;
    TreeIsLenient(reg, clock, row, e, args, full);
    TreesAgree(reg, clock, row, e, args, full, false);
    EvaluationIsTyped(clock, reg, row, e);
    if Decisive(clock, Environment(reg, row), e) { TreesAgree(reg, clock, row, e, args, full, true); }
  }

  /** What a junction decides for, from its sides, each following its row-wise verdict. */
  lemma {:induction false} JunctionDecides(a: Outcome, x: Outcome, c: Outcome, y: Outcome, b: bool)
    requires OfType(a, BoolTy) && OfType(x, BoolTy) && OfType(c, BoolTy) && OfType(y, BoolTy)
    requires (a.Value? ==> x == a) && (c.Value? ==> y == c)
    ensures var l, r := a.Error? && x == BoolOf(b), c.Error? && y == BoolOf(b);
            && (Conjunction(a, c).Error? && Conjunction(x, y) == BoolOf(b)
                <==> if b then (l && (c == BoolOf(b) || r)) || (r && a == BoolOf(b)) else (l && c != BoolOf(b)) || (r && a != BoolOf(b)))
            && (Disjunction(a, c).Error? && Disjunction(x, y) == BoolOf(b)
                <==> if b then (l && c != BoolOf(b)) || (r && a != BoolOf(b)) else (l && (c == BoolOf(b) || r)) || (r && a == BoolOf(b)))
  {
  }

  lemma {:induction false} SidesDecide(reg: Registry, clock: Clock, row: Row, e: Expr, args: seq<Arg>, b: bool)
    requires Compilable(reg, clock, row, e, args, Compiled(reg, clock, e, args).1) && Regular(reg, clock, Environment(reg, row), e)
    requires e.Call? && (e.fn.And? || e.fn.Or?)
    ensures DecidesFor(clock, Environment(reg, row), e, b)
            <==> RowEval(clock, Environment(reg, row), e).Error? && Lenient(clock, Environment(reg, row), e) == BoolOf(b)
    decreases e, 0
  {
    var env, l, r := Environment(reg, row), e.args[0], e.args[1];
    var args1 := Compiled(reg, clock, l, args).1;
    assert TypesOf(reg, e.args)[0] == TypeOf(reg, l) && TypesOf(reg, e.args)[1] == TypeOf(reg, r);
    DecidesForIff(reg, clock, row, l, args, b);
    DecidesForIff(reg, clock, row, r, args1, b);
    LenientFollows(reg, clock, row, l, args);
    LenientFollows(reg, clock, row, r, args1);
    JunctionDecides(RowEval(clock, env, l), Lenient(clock, env, l), RowEval(clock, env, r), Lenient(clock, env, r), b);
    JunctionEval(clock, env, e);
  }

  lemma {:induction false} JunctionEval(clock: Clock, env: map<string, Value>, e: Expr)
    requires e.Call? && (e.fn.And? || e.fn.Or?) && |e.args| == 2
    ensures var a, c := RowEval(clock, env, e.args[0]), RowEval(clock, env, e.args[1]);
            RowEval(clock, env, e) == if e.fn.And? then Conjunction(a, c) else Disjunction(a, c)
    ensures var x, y := Lenient(clock, env, e.args[0]), Lenient(clock, env, e.args[1]);
            Lenient(clock, env, e) == if e.fn.And? then Conjunction(x, y) else Disjunction(x, y)
  {
    var vs, us := Outcomes(clock, env, e.args), LenientOutcomes(clock, env, e.args);
    assert vs[0] == RowEval(clock, env, e.args[0]) && us[0] == Lenient(clock, env, e.args[0]);
  }

  lemma {:induction false} NegationDecides(reg: Registry, clock: Clock, row: Row, e: Expr, args: seq<Arg>, b: bool)
    requires Compilable(reg, clock, row, e, args, Compiled(reg, clock, e, args).1) && Regular(reg, clock, Environment(reg, row), e)
    requires e.Call? && e.fn.Not?
    ensures DecidesFor(clock, Environment(reg, row), e, b)
            <==> RowEval(clock, Environment(reg, row), e).Error? && Lenient(clock, Environment(reg, row), e) == BoolOf(b)
    decreases e, 0
  {
    UnaryCompiled(reg, clock, e, args);
    UnaryEval(reg, clock, Environment(reg, row), e);
    LenientUnary(reg, clock, Environment(reg, row), e);
    DecidesForIff(reg, clock, row, e.args[0], args, !b);
    LenientFollows(reg, clock, row, e.args[0], args);
  }

  lemma {:induction false} DecidesForIff(reg: Registry, clock: Clock, row: Row, e: Expr, args: seq<Arg>, b: bool)
    requires Compilable(reg, clock, row, e, args, Compiled(reg, clock, e, args).1) && Regular(reg, clock, Environment(reg, row), e)
    ensures DecidesFor(clock, Environment(reg, row), e, b)
            <==> RowEval(clock, Environment(reg, row), e).Error? && Lenient(clock, Environment(reg, row), e) == BoolOf(b)
    decreases e, 1
  {
    if e.Call? && (e.fn.And? || e.fn.Or?) {
      SidesDecide(reg, clock, row, e, args, b);
    } else if e.Call? && e.fn.Not? {
      NegationDecides(reg, clock, row, e, args, b);
    }
  }

  /** Below the junctions the guards decide it: something missing or malformed at a call, and nothing missing where the database notices. */
  lemma {:induction false} UnjoinedDecidesIff(reg: Registry, clock: Clock, row: Row, e: Expr, args: seq<Arg>)
    requires Compilable(reg, clock, row, e, args, Compiled(reg, clock, e, args).1) && Regular(reg, clock, Environment(reg, row), e)
    requires Unjoined(e) && TypeOf(reg, e) == Some(BoolTy)
    ensures var env := Environment(reg, row);
            DecidesFor(clock, env, e, true) || DecidesFor(clock, env, e, false) <==> !Decisive(clock, env, e) && !Exposed(env, e)
  {
    DecidesForIff(reg, clock, row, e, args, true);
    DecidesForIff(reg, clock, row, e, args, false);
    LenientFollows(reg, clock, row, e, args);
    LenientErrsIff(reg, clock, row, e, args);
    if !Decisive(clock, Environment(reg, row), e) { UndecidedErrs(clock, Environment(reg, row), e); }
  }

  /** Of any tree, on rows whose versions fit the database: the evaluations agree if and only if no leniency decides it. */
  lemma {:induction false} JoinedAgreeIff(reg: Registry, clock: Clock, row: Row, e: Expr, more: seq<Arg>)
    requires Accepted(reg, clock, e) && WellTyped(reg, row) && ListsOfStrings(reg, e)
    requires Regular(reg, clock, Environment(reg, row), e)
    ensures SameVerdict(RowWise(reg, clock, row, e), SetWise(reg, clock, row, e, more))
            <==> !DecidesFor(clock, Environment(reg, row), e, true) && !DecidesFor(clock, Environment(reg, row), e, false)
  {
    EvaluationsAgreeIff(reg, clock, row, e, more);
    LenientFollows(reg, clock, row, e, []);
    DecidesForIff(reg, clock, row, e, [], true);
    DecidesForIff(reg, clock, row, e, [], false);
  }
}
