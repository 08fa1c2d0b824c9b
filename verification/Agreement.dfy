/**
 The two evaluations of a predicate agree (what internal/audience/conformance_integration_test.go looks
 for on examples): on which rows, under which conditions, and where they do not.
 */
module Agreement {
  import opened Wrappers
  import opened Predicates
  import opened SqlCompile
  import SemVer
  import Decimals

  // ---- Agreement of one value ----

  /** The database's value has the type; and it is the row-wise value when there is one. */
  ghost predicate Sound(t: Ty, o: Outcome, s: Cell) {
    && (s.Null? || (s.Datum? && HasType(s.v, t)))
    && (o.Value? ==> s == Datum(o.v))
  }

  /** Besides, NULL is exactly the row-wise error. */
  ghost predicate Exact(t: Ty, o: Outcome, s: Cell) {
    Sound(t, o, s) && (o.Error? <==> s.Null?)
  }

  ghost predicate Related(t: Ty, o: Outcome, s: Cell, exact: bool) {
    Sound(t, o, s) && (exact ==> Exact(t, o, s))
  }

  // ---- Where the two may part ----

  ghost predicate IsVersion(o: Outcome) {
    o.Value? && o.v.StrVal? && SemVer.Normalized(o.v.s).Some?
  }

  ghost predicate RegularAt(reg: Registry, clock: Clock, env: map<string, Value>, e: Expr) {
    e.Call? ==>
      && (e.fn.SemVerFn? && |e.args| == 1 && !e.args[0].Literal? && IsVersion(RowEval(clock, env, e.args[0])) ==>
            SemVer.FitsDatabase(RowEval(clock, env, e.args[0]).v.s))
      && (e.fn.In? && |e.args| == 2 && e.args[1] == ListOf([]) ==> TypeOf(reg, e.args[0]) == Some(StrTy))
  }

  /** Wherever semver() meets a version it fits the database, and empty lists are searched for strings. */
  ghost predicate Regular(reg: Registry, clock: Clock, env: map<string, Value>, e: Expr) {
    RegularAt(reg, clock, env, e) && (e.Call? ==> forall i :: 0 <= i < |e.args| ==> Regular(reg, clock, env, e.args[i]))
  }

  ghost predicate DecisiveAt(clock: Clock, env: map<string, Value>, e: Expr) {
    e.Call? ==>
      && (e.fn.SemVerFn? && |e.args| == 1 && !e.args[0].Literal? ==> IsVersion(RowEval(clock, env, e.args[0])))
      && (e.fn.In? && |e.args| == 2 && e.args[1] == ListOf([]) ==> RowEval(clock, env, e.args[0]).Value?)
  }

  /** No semver() of something missing or malformed, and no missing value looked for in an empty list. */
  ghost predicate Decisive(clock: Clock, env: map<string, Value>, e: Expr) {
    DecisiveAt(clock, env, e) && (e.Call? ==> forall i :: 0 <= i < |e.args| ==> Decisive(clock, env, e.args[i]))
  }

  // ---- Operator by operator ----

  lemma {:induction false} BinaryRelated(op: Binary, t: Ty, a: Outcome, x: Cell, b: Outcome, y: Cell, exact: bool)
    requires Related(t, a, x, exact) && Related(t, b, y, exact)
    requires !op.BCompare? ==> t == BoolTy
    ensures op.BAnd? ==> Related(BoolTy, Conjunction(a, b), SqlAnd(x, y), exact)
    ensures op.BOr? ==> Related(BoolTy, Disjunction(a, b), SqlOr(x, y), exact)
    ensures op.BCompare? ==> Related(BoolTy, Compared(op.c, a, b), SqlCompare(op.c, x, y), exact)
  {
  }

  lemma {:induction false} NotRelated(a: Outcome, x: Cell, exact: bool)
    requires Related(BoolTy, a, x, exact)
    ensures Related(BoolTy, Negation(a), SqlNot(x), exact)
  {
  }

  lemma {:induction false} NormalizeRelated(a: Outcome, x: Cell, exact: bool)
    requires Related(StrTy, a, x, exact)
    requires IsVersion(a) ==> SemVer.FitsDatabase(a.v.s)
    ensures Sound(StrTy, Versioned(a), SqlNormalize(x))
    ensures IsVersion(a) ==> Exact(StrTy, Versioned(a), SqlNormalize(x))
  {
    if IsVersion(a) { SemVer.NormalisationsAgreeIff(a.v.s); }
  }

  lemma {:induction false} TextsAgreeIff(s: string, t: string)
    ensures Exact(StrTy, Value(StrVal(s)), Datum(StrVal(t))) <==> t == s
  {
  }

  /**
   The guard at a semver() call is exact: given agreement on its argument, the call agrees if and only if
   the argument is a version that fits. On a missing or malformed version the database has an answer
   where the row-wise evaluation has an error.
   */
  lemma {:induction false} SemVerAgreesIff(a: Outcome, x: Cell)
    requires Exact(StrTy, a, x) && (a.Value? ==> a.v.StrVal?)
    ensures Exact(StrTy, Versioned(a), SqlNormalize(x)) <==> IsVersion(a) && SemVer.FitsDatabase(a.v.s)
  {
    if IsVersion(a) {
      SemVer.NormalisationsAgreeIff(a.v.s);
      TextsAgreeIff(SemVer.Normalized(a.v.s).value, SemVer.SqlNormalized(Some(a.v.s)));
    } else {
      assert SqlNormalize(x).Datum?;
    }
  }

  /** So is the guard at an empty list. */
  lemma {:induction false} EmptyListAgreesIff(a: Outcome, x: Cell)
    requires Exact(StrTy, a, x)
    ensures Exact(BoolTy, Contained(a, []), SqlAnyOf(x, Some(Strings([])))) <==> a.Value?
  {
  }

  lemma {:induction false} AnyOfRelated(a: Outcome, x: Cell, ss: seq<string>, exact: bool)
    requires Related(StrTy, a, x, exact)
    ensures Sound(BoolTy, Contained(a, SetOutcomes(ss)), SqlAnyOf(x, Some(Strings(ss))))
    ensures exact && (ss == [] ==> a.Value?) ==> Exact(BoolTy, Contained(a, SetOutcomes(ss)), SqlAnyOf(x, Some(Strings(ss))))
  {
    if a.Value? { StringIn(a.v.s, ss); }
  }

  lemma {:induction false} StringIn(s: string, ss: seq<string>)
    ensures Value(StrVal(s)) in SetOutcomes(ss) <==> s in ss
    ensures Error !in SetOutcomes(ss)
  {
    if s in ss {
      var i :| 0 <= i < |ss| && ss[i] == s;
      assert SetOutcomes(ss)[i] == Value(StrVal(s));
    }
  }

  lemma {:induction false} ContainsRelated(a: Outcome, x: Cell, stored: Option<Value>, exact: bool)
    requires Related(StrTy, a, x, exact) && (stored.Some? ==> stored.value.SetVal?)
    ensures var o := if stored.None? then Error else Contained(a, SetOutcomes(stored.value.elems));
            Related(BoolTy, o, SqlContains(stored, x), exact)
  {
    if stored.Some? && a.Value? { StringIn(a.v.s, stored.value.elems); }
    if stored.Some? { StringIn("", stored.value.elems); }
  }

  // ---- Leaves ----

  lemma {:induction false} PrefixArg(args: seq<Arg>, full: seq<Arg>, at: nat)
    requires args <= full && 1 <= at <= |args|
    ensures ArgAt(full, at) == Some(args[at - 1])
  {
  }

  lemma {:induction false} LiteralAgrees(v: Value, t: Ty, args: seq<Arg>, full: seq<Arg>, row: Row)
    requires HasType(v, t) && LiteralCompiled(v, args).0.Ok? && LiteralCompiled(v, args).1 <= full
    ensures Exact(t, Value(v), SqlEval(LiteralCompiled(v, args).0.value, full, row))
  {
    PrefixArg(LiteralCompiled(v, args).1, full, |args| + 1);
  }

  lemma {:induction false} IdentAgrees(reg: Registry, clock: Clock, row: Row, name: string, args: seq<Arg>, full: seq<Arg>)
    requires WellTyped(reg, row) && TypeOf(reg, Ident(name)).Some?
    requires IdentCompiled(reg, name, args).0.Ok? && IdentCompiled(reg, name, args).1 <= full
    ensures Exact(TypeOf(reg, Ident(name)).value, RowEval(clock, Environment(reg, row), Ident(name)), SqlEval(IdentCompiled(reg, name, args).0.value, full, row))
  {
    PrefixArg(IdentCompiled(reg, name, args).1, full, |args| + 1);
    if reg[name].source.EventAggregate? {
      PrefixArg(IdentCompiled(reg, name, args).1, full, |args| + 2);
    }
  }

  // ---- Membership ----

  lemma {:induction false} LiteralListOutcomes(clock: Clock, env: map<string, Value>, elems: seq<Expr>)
    requires LiteralStrings(elems).Ok?
    ensures Outcomes(clock, env, elems) == SetOutcomes(LiteralStrings(elems).value)
  {
    LiteralListElements(elems);
  }

  lemma {:induction false} LiteralListElements(elems: seq<Expr>)
    requires LiteralStrings(elems).Ok?
    ensures var ss := LiteralStrings(elems).value;
            |ss| == |elems| && forall i :: 0 <= i < |elems| ==> elems[i] == Literal(StrVal(ss[i]))
  {
    if elems != [] {
      LiteralListElements(elems[..|elems| - 1]);
    }
  }

  lemma {:induction false} InListEval(clock: Clock, env: map<string, Value>, e: Expr)
    requires e.Call? && e.fn.In? && |e.args| == 2 && e.args[1].ListOf? && LiteralStrings(e.args[1].elems).Ok?
    ensures RowEval(clock, env, e) == Contained(RowEval(clock, env, e.args[0]), SetOutcomes(LiteralStrings(e.args[1].elems).value))
  {
    LiteralListOutcomes(clock, env, e.args[1].elems);
  }

  lemma {:induction false} InSetEval(reg: Registry, clock: Clock, row: Row, e: Expr, name: string)
    requires WellTyped(reg, row) && e.Call? && e.fn.In? && |e.args| == 2 && e.args[1] == Ident(name)
    requires name in reg && reg[name].kind.StringSetAttr?
    ensures var stored := Get(row.attributes, name);
            && (stored.Some? ==> stored.value.SetVal?)
            && RowEval(clock, Environment(reg, row), e)
               == if stored.None? then Error
                  else Contained(RowEval(clock, Environment(reg, row), e.args[0]), SetOutcomes(stored.value.elems))
  {
    var env := Environment(reg, row);
    assert RowEval(clock, env, Ident(name)) == if name in env then Value(env[name]) else Error;
  }

  /** Only strings are looked for in what the compiler accepts. */
  lemma {:induction false} NeedleIsString(reg: Registry, clock: Clock, env: map<string, Value>, e: Expr, needle: Sql, args: seq<Arg>)
    requires TypeOf(reg, e) == Some(BoolTy) && e.Call? && e.fn.In? && |e.args| == 2
    requires HaystackCompiled(reg, needle, e.args[1], args).0.Ok? && RegularAt(reg, clock, env, e)
    ensures TypeOf(reg, e.args[0]) == Some(StrTy)
  {
    if e.args[1].ListOf? && e.args[1].elems != [] {
      LiteralListElements(e.args[1].elems);
      assert TypeOf(reg, e.args[1].elems[0]) == Some(StrTy);
    }
  }

  lemma {:induction false} ListHaystackAgrees(reg: Registry, clock: Clock, row: Row, e: Expr, needle: Sql, args: seq<Arg>, full: seq<Arg>, exact: bool)
    requires WellTyped(reg, row) && e.Call? && e.fn.In? && |e.args| == 2
    requires HaystackCompiled(reg, needle, e.args[1], args).0.Ok? && HaystackCompiled(reg, needle, e.args[1], args).1 <= full
    requires exact ==> DecisiveAt(clock, Environment(reg, row), e)
    requires Related(StrTy, RowEval(clock, Environment(reg, row), e.args[0]), SqlEval(needle, full, row), exact)
    requires e.args[1].ListOf?
    ensures Related(BoolTy, RowEval(clock, Environment(reg, row), e), SqlEval(HaystackCompiled(reg, needle, e.args[1], args).0.value, full, row), exact)
  {
    var env, ss := Environment(reg, row), LiteralStrings(e.args[1].elems).value;
    var a, x := RowEval(clock, env, e.args[0]), SqlEval(needle, full, row);
    assert HaystackCompiled(reg, needle, e.args[1], args) == (Ok(SAnyOf(needle, |args| + 1)), args + [Strings(ss)]);
    PrefixArg(args + [Strings(ss)], full, |args| + 1);
    LiteralListElements(e.args[1].elems);
    InListEval(clock, env, e);
    AnyOfRelated(a, x, ss, exact);
    assert SqlEval(SAnyOf(needle, |args| + 1), full, row) == SqlAnyOf(x, Some(Strings(ss)));
  }

  lemma {:induction false} SetHaystackAgrees(reg: Registry, clock: Clock, row: Row, e: Expr, needle: Sql, args: seq<Arg>, full: seq<Arg>, exact: bool)
    requires WellTyped(reg, row) && e.Call? && e.fn.In? && |e.args| == 2
    requires HaystackCompiled(reg, needle, e.args[1], args).0.Ok? && HaystackCompiled(reg, needle, e.args[1], args).1 <= full
    requires exact ==> DecisiveAt(clock, Environment(reg, row), e)
    requires Related(StrTy, RowEval(clock, Environment(reg, row), e.args[0]), SqlEval(needle, full, row), exact)
    requires e.args[1].Ident?
    ensures Related(BoolTy, RowEval(clock, Environment(reg, row), e), SqlEval(HaystackCompiled(reg, needle, e.args[1], args).0.value, full, row), exact)
  {
    var env, name := Environment(reg, row), e.args[1].name;
    var a, x := RowEval(clock, env, e.args[0]), SqlEval(needle, full, row);
    assert HaystackCompiled(reg, needle, e.args[1], args) == (Ok(SContains(|args| + 1, needle)), args + [Scalar(StrVal(name))]);
    PrefixArg(args + [Scalar(StrVal(name))], full, |args| + 1);
    InSetEval(reg, clock, row, e, name);
    ContainsRelated(a, x, Get(row.attributes, name), exact);
    assert SqlEval(SContains(|args| + 1, needle), full, row) == SqlContains(Get(row.attributes, name), x);
  }

  /** A needle compiled already, in the haystack it is looked for in. */
  lemma {:induction false} HaystackAgrees(reg: Registry, clock: Clock, row: Row, e: Expr, needle: Sql, args: seq<Arg>, full: seq<Arg>, exact: bool)
    requires WellTyped(reg, row) && e.Call? && e.fn.In? && |e.args| == 2
    requires HaystackCompiled(reg, needle, e.args[1], args).0.Ok? && HaystackCompiled(reg, needle, e.args[1], args).1 <= full
    requires exact ==> DecisiveAt(clock, Environment(reg, row), e)
    requires Related(StrTy, RowEval(clock, Environment(reg, row), e.args[0]), SqlEval(needle, full, row), exact)
    ensures Related(BoolTy, RowEval(clock, Environment(reg, row), e), SqlEval(HaystackCompiled(reg, needle, e.args[1], args).0.value, full, row), exact)
  {
    if e.args[1].ListOf? {
      ListHaystackAgrees(reg, clock, row, e, needle, args, full, exact);
    } else {
      SetHaystackAgrees(reg, clock, row, e, needle, args, full, exact);
    }
  }

  // ---- Whole trees ----

  /** The hypotheses on a compiled subtree, `full` being any extension of its arguments. */
  ghost predicate Compilable(reg: Registry, clock: Clock, row: Row, e: Expr, args: seq<Arg>, full: seq<Arg>, exact: bool) {
    && WellTyped(reg, row) && TypeOf(reg, e).Some?
    && Compiled(reg, clock, e, args).0.Ok? && Compiled(reg, clock, e, args).1 <= full
    && Regular(reg, clock, Environment(reg, row), e)
    && (exact ==> Decisive(clock, Environment(reg, row), e))
  }

  ghost predicate AgreesOn(reg: Registry, clock: Clock, row: Row, e: Expr, args: seq<Arg>, full: seq<Arg>, exact: bool)
    requires TypeOf(reg, e).Some? && Compiled(reg, clock, e, args).0.Ok?
  {
    Related(TypeOf(reg, e).value, RowEval(clock, Environment(reg, row), e), SqlEval(Compiled(reg, clock, e, args).0.value, full, row), exact)
  }

  lemma {:induction false} BinaryAgrees(reg: Registry, clock: Clock, row: Row, e: Expr, args: seq<Arg>, full: seq<Arg>, exact: bool)
    requires Compilable(reg, clock, row, e, args, full, exact) && e.Call? && BinaryOf(e.fn).Some?
    ensures AgreesOn(reg, clock, row, e, args, full, exact)
    decreases e, 0
  {
    var env, es, op := Environment(reg, row), e.args, BinaryOf(e.fn).value;
    var (left, args1) := Compiled(reg, clock, es[0], args);
    var (right, args2) := Compiled(reg, clock, es[1], args1);
    CompilingAppends(reg, clock, es[1], args1);
    assert TypesOf(reg, es)[0] == TypeOf(reg, es[0]) && TypesOf(reg, es)[1] == TypeOf(reg, es[1]);
    TreesAgree(reg, clock, row, es[0], args, full, exact);
    TreesAgree(reg, clock, row, es[1], args1, full, exact);
    var vs := Outcomes(clock, env, es);
    assert RowEval(clock, env, e) == Applied(clock, e.fn, vs);
    assert vs[0] == RowEval(clock, env, es[0]) && vs[1] == RowEval(clock, env, es[1]);
    BinaryRelated(op, TypeOf(reg, es[0]).value, vs[0], SqlEval(left.value, full, row), vs[1], SqlEval(right.value, full, row), exact);
  }

  lemma {:induction false} UnaryEval(reg: Registry, clock: Clock, env: map<string, Value>, e: Expr)
    requires e.Call? && |e.args| == 1 && (e.fn.Not? || e.fn.SemVerFn?) && TypeOf(reg, e).Some?
    ensures RowEval(clock, env, e) == if e.fn.Not? then Negation(RowEval(clock, env, e.args[0])) else Versioned(RowEval(clock, env, e.args[0]))
    ensures TypeOf(reg, e) == Some(if e.fn.Not? then BoolTy else StrTy) && TypeOf(reg, e.args[0]) == TypeOf(reg, e)
  {
    assert Outcomes(clock, env, e.args)[0] == RowEval(clock, env, e.args[0]);
    assert TypesOf(reg, e.args)[0] == TypeOf(reg, e.args[0]);
  }

  lemma {:induction false} UnaryCompiled(reg: Registry, clock: Clock, e: Expr, args: seq<Arg>)
    requires e.Call? && |e.args| == 1 && (e.fn.Not? || (e.fn.SemVerFn? && !e.args[0].Literal?))
    requires Compiled(reg, clock, e, args).0.Ok?
    ensures var (inner, args1) := Compiled(reg, clock, e.args[0], args);
            inner.Ok? && Compiled(reg, clock, e, args) == (Ok(if e.fn.Not? then SNot(inner.value) else SNormalize(inner.value)), args1)
  {
  }

  lemma {:induction false} BinaryCompiled(reg: Registry, clock: Clock, e: Expr, args: seq<Arg>)
    requires e.Call? && |e.args| == 2 && BinaryOf(e.fn).Some?
    ensures var (left, args1) := Compiled(reg, clock, e.args[0], args);
            var (right, args2) := Compiled(reg, clock, e.args[1], args1);
            left.Ok? && right.Ok? ==> Compiled(reg, clock, e, args) == (Ok(BinarySql(BinaryOf(e.fn).value, left.value, right.value)), args2)
  {
  }

  lemma {:induction false} UnaryAgrees(reg: Registry, clock: Clock, row: Row, e: Expr, args: seq<Arg>, full: seq<Arg>, exact: bool)
    requires Compilable(reg, clock, row, e, args, full, exact) && e.Call? && |e.args| == 1
    requires e.fn.Not? || (e.fn.SemVerFn? && !e.args[0].Literal?)
    ensures AgreesOn(reg, clock, row, e, args, full, exact)
    decreases e, 0
  {
    UnaryEval(reg, clock, Environment(reg, row), e);
    UnaryCompiled(reg, clock, e, args);
    TreesAgree(reg, clock, row, e.args[0], args, full, exact);
    UnaryFromInner(reg, clock, row, e, args, full, exact);
  }

  lemma {:induction false} UnaryFromInner(reg: Registry, clock: Clock, row: Row, e: Expr, args: seq<Arg>, full: seq<Arg>, exact: bool)
    requires e.Call? && |e.args| == 1 && (e.fn.Not? || (e.fn.SemVerFn? && !e.args[0].Literal?))
    requires TypeOf(reg, e).Some? && TypeOf(reg, e.args[0]).Some? && Compiled(reg, clock, e, args).0.Ok? && Compiled(reg, clock, e.args[0], args).0.Ok?
    requires RegularAt(reg, clock, Environment(reg, row), e) && (exact ==> DecisiveAt(clock, Environment(reg, row), e))
    requires AgreesOn(reg, clock, row, e.args[0], args, full, exact)
    ensures AgreesOn(reg, clock, row, e, args, full, exact)
  {
    UnaryEval(reg, clock, Environment(reg, row), e);
    UnaryCompiled(reg, clock, e, args);
    UnaryRelated(RowEval(clock, Environment(reg, row), e.args[0]), Compiled(reg, clock, e.args[0], args).0.value, full, row, e.fn, exact);
  }

  lemma {:induction false} UnaryRelated(a: Outcome, inner: Sql, full: seq<Arg>, row: Row, fn: Fn, exact: bool)
    requires fn.Not? || fn.SemVerFn?
    requires Related(if fn.Not? then BoolTy else StrTy, a, SqlEval(inner, full, row), exact)
    requires !fn.Not? ==> (IsVersion(a) ==> SemVer.FitsDatabase(a.v.s)) && (exact ==> IsVersion(a))
    ensures fn.Not? ==> Related(BoolTy, Negation(a), SqlEval(SNot(inner), full, row), exact)
    ensures !fn.Not? ==> Related(StrTy, Versioned(a), SqlEval(SNormalize(inner), full, row), exact)
  {
    if fn.Not? {
      NotRelated(a, SqlEval(inner, full, row), exact);
    } else {
      NormalizeRelated(a, SqlEval(inner, full, row), exact);
    }
  }

  lemma {:induction false} ConvertedLiteralAgrees(reg: Registry, clock: Clock, row: Row, e: Expr, args: seq<Arg>, full: seq<Arg>, exact: bool)
    requires Compilable(reg, clock, row, e, args, full, exact) && e.Call? && |e.args| == 1
    requires e.fn.TimestampFn? || (e.fn.SemVerFn? && e.args[0].Literal?)
    ensures AgreesOn(reg, clock, row, e, args, full, exact)
  {
    var env := Environment(reg, row);
    PrefixArg(Compiled(reg, clock, e, args).1, full, |args| + 1);
    assert TypesOf(reg, e.args)[0] == TypeOf(reg, e.args[0]);
    assert Outcomes(clock, env, e.args)[0] == RowEval(clock, env, e.args[0]);
  }

  lemma {:induction false} InAgrees(reg: Registry, clock: Clock, row: Row, e: Expr, args: seq<Arg>, full: seq<Arg>, exact: bool)
    requires Compilable(reg, clock, row, e, args, full, exact) && e.Call? && e.fn.In?
    ensures AgreesOn(reg, clock, row, e, args, full, exact)
    decreases e, 0
  {
    var (needle, args1) := Compiled(reg, clock, e.args[0], args);
    var (sql, args2) := HaystackCompiled(reg, needle.value, e.args[1], args1);
    assert args1 <= args2;
    NeedleIsString(reg, clock, Environment(reg, row), e, needle.value, args1);
    TreesAgree(reg, clock, row, e.args[0], args, full, exact);
    HaystackAgrees(reg, clock, row, e, needle.value, args1, full, exact);
  }

  lemma {:induction false} TreesAgree(reg: Registry, clock: Clock, row: Row, e: Expr, args: seq<Arg>, full: seq<Arg>, exact: bool)
    requires Compilable(reg, clock, row, e, args, full, exact)
    ensures AgreesOn(reg, clock, row, e, args, full, exact)
    decreases e, 1
  {
    match e
    case Ident(name) => IdentAgrees(reg, clock, row, name, args, full);
    case Literal(v) => LiteralAgrees(v, TypeOf(reg, e).value, args, full, row);
    case Call(fn, es) =>
      if BinaryOf(fn).Some? {
        BinaryAgrees(reg, clock, row, e, args, full, exact);
      } else if fn.In? {
        InAgrees(reg, clock, row, e, args, full, exact);
      } else if fn.Not? || (fn.SemVerFn? && !es[0].Literal?) {
        UnaryAgrees(reg, clock, row, e, args, full, exact);
      } else {
        ConvertedLiteralAgrees(reg, clock, row, e, args, full, exact);
      }
    case _ =>
  }

  // ---- The main results ----

  /** A predicate the type checker and the compiler both accept. */
  ghost predicate Accepted(reg: Registry, clock: Clock, e: Expr) {
    TypeOf(reg, e) == Some(BoolTy) && Compiled(reg, clock, e, []).0.Ok?
  }

  ghost function RowWise(reg: Registry, clock: Clock, row: Row, e: Expr): Outcome {
    RowEval(clock, Environment(reg, row), e)
  }

  /** The condition as it is run, with whatever further arguments the enclosing query has. */
  ghost function SetWise(reg: Registry, clock: Clock, row: Row, e: Expr, more: seq<Arg>): Cell
    requires Accepted(reg, clock, e)
  {
    var (sql, args) := Compiled(reg, clock, e, []);
    SqlEval(sql.value, args + more, row)
  }

  /** Whatever the row-wise evaluation decides, the database decides the same; and the query never faults. */
  lemma {:induction false} DatabaseFollowsRowWise(reg: Registry, clock: Clock, row: Row, e: Expr, more: seq<Arg>)
    requires Accepted(reg, clock, e) && WellTyped(reg, row) && Regular(reg, clock, Environment(reg, row), e)
    ensures Sound(BoolTy, RowWise(reg, clock, row, e), SetWise(reg, clock, row, e, more))
  {
    var (sql, args) := Compiled(reg, clock, e, []);
    TreesAgree(reg, clock, row, e, [], args + more, false);
  }

  /** True is TRUE, false is FALSE, and an error is NULL, each way. */
  lemma {:induction false} EvaluationsAgree(reg: Registry, clock: Clock, row: Row, e: Expr, more: seq<Arg>)
    requires Accepted(reg, clock, e) && WellTyped(reg, row)
    requires Regular(reg, clock, Environment(reg, row), e) && Decisive(clock, Environment(reg, row), e)
    ensures var o, s := RowWise(reg, clock, row, e), SetWise(reg, clock, row, e, more);
            && (o == BoolOf(true) <==> s == Truth(true))
            && (o == BoolOf(false) <==> s == Truth(false))
            && (o.Error? <==> s.Null?)
  {
    var (sql, args) := Compiled(reg, clock, e, []);
    TreesAgree(reg, clock, row, e, [], args + more, true);
    EvaluationIsTyped(clock, reg, row, e);
  }

  /** A predicate that calls neither semver() on an attribute nor `in` on an empty list needs no condition on the row. */
  ghost predicate Plain(e: Expr) {
    e.Call? ==>
      && (e.fn.SemVerFn? && |e.args| == 1 ==> e.args[0].Literal?)
      && (e.fn.In? && |e.args| == 2 ==> e.args[1] != ListOf([]))
      && forall i :: 0 <= i < |e.args| ==> Plain(e.args[i])
  }

  lemma {:induction false} PlainIsUnconditional(reg: Registry, clock: Clock, env: map<string, Value>, e: Expr)
    requires Plain(e)
    ensures Regular(reg, clock, env, e) && Decisive(clock, env, e)
  {
    if e.Call? {
      forall i | 0 <= i < |e.args| ensures Regular(reg, clock, env, e.args[i]) && Decisive(clock, env, e.args[i]) {
        PlainIsUnconditional(reg, clock, env, e.args[i]);
      }
    }
  }

  /** On every well-typed row, missing attributes or not, a plain predicate means the same both ways. */
  lemma {:induction false} PlainPredicatesAgree(reg: Registry, clock: Clock, row: Row, e: Expr, more: seq<Arg>)
    requires Accepted(reg, clock, e) && WellTyped(reg, row) && Plain(e)
    ensures var o, s := RowWise(reg, clock, row, e), SetWise(reg, clock, row, e, more);
            && (o == BoolOf(true) <==> s == Truth(true))
            && (o == BoolOf(false) <==> s == Truth(false))
            && (o.Error? <==> s.Null?)
  {
    PlainIsUnconditional(reg, clock, Environment(reg, row), e);
    EvaluationsAgree(reg, clock, row, e, more);
  }

  // ---- Versions ----

  /** The comparison of versions as numbers. */
  ghost predicate NumericHolds(c: Comparison, a: SemVer.Version, b: SemVer.Version) {
    match c
    case Eq => a == b
    case Ne => a != b
    case Lt => SemVer.VersionLe(a, b) && a != b
    case Le => SemVer.VersionLe(a, b)
    case Gt => SemVer.VersionLe(b, a) && a != b
    case Ge => SemVer.VersionLe(b, a)
  }

  function VersionTest(c: Comparison, name: string, text: string): Expr {
    Call(Compare(c), [Call(SemVerFn, [Ident(name)]), Call(SemVerFn, [Literal(StrVal(text))])])
  }

  ghost predicate Readable(s: string) {
    SemVer.Parse(s).Some? && SemVer.Below(SemVer.Parse(s).value, Decimals.Pow10(SemVer.WIDTH))
  }

  lemma {:induction false} NormalFormsCompare(c: Comparison, a: SemVer.Version, b: SemVer.Version)
    requires SemVer.Below(a, Decimals.Pow10(SemVer.WIDTH)) && SemVer.Below(b, Decimals.Pow10(SemVer.WIDTH))
    ensures Holds(c, StrVal(SemVer.Render(a)), StrVal(SemVer.Render(b))) <==> NumericHolds(c, a, b)
  {
    SemVer.RenderPreservesOrder(a, b);
    SemVer.RenderPreservesOrder(b, a);
  }

  lemma {:induction false} VersionedEval(clock: Clock, env: map<string, Value>, e: Expr)
    ensures RowEval(clock, env, Call(SemVerFn, [e])) == Versioned(RowEval(clock, env, e))
  {
    assert Outcomes(clock, env, [e])[0] == RowEval(clock, env, e);
  }

  lemma {:induction false} VersionTestEval(clock: Clock, env: map<string, Value>, c: Comparison, name: string, text: string)
    requires name in env
    ensures RowEval(clock, env, VersionTest(c, name, text)) == Compared(c, Versioned(Value(env[name])), Versioned(Value(StrVal(text))))
  {
    var app, lit := Call(SemVerFn, [Ident(name)]), Call(SemVerFn, [Literal(StrVal(text))]);
    VersionedEval(clock, env, Ident(name));
    VersionedEval(clock, env, Literal(StrVal(text)));
    var vs := Outcomes(clock, env, [app, lit]);
    assert vs[0] == RowEval(clock, env, app) && vs[1] == RowEval(clock, env, lit);
  }

  /** Comparing a channel's version with a literal through semver() compares the versions as numbers. */
  lemma {:induction false} VersionsCompareAsNumbers(clock: Clock, env: map<string, Value>, c: Comparison, name: string, text: string)
    requires name in env && env[name].StrVal? && Readable(env[name].s) && Readable(text)
    ensures RowEval(clock, env, VersionTest(c, name, text))
            == BoolOf(NumericHolds(c, SemVer.Parse(env[name].s).value, SemVer.Parse(text).value))
  {
    VersionTestEval(clock, env, c, name, text);
    NormalFormsCompare(c, SemVer.Parse(env[name].s).value, SemVer.Parse(text).value);
  }

  // ---- Where they disagree ----

  const REGISTRY: Registry := map["app_version" := Definition(SemVerAttr, ChannelField)]
  const EMPTY_ROW := Row(map[], [], 0)

  const APP := Call(SemVerFn, [Ident("app_version")])
  const TWO := Call(SemVerFn, [Literal(StrVal("2"))])
  const OLD_APP := Call(Compare(Lt), [APP, TWO])

  lemma {:induction false} OldAppRowWise(clock: Clock)
    ensures TypeOf(REGISTRY, OLD_APP) == Some(BoolTy)
    ensures RowWise(REGISTRY, clock, EMPTY_ROW, OLD_APP) == Error
  {
    assert TypesOf(REGISTRY, APP.args) == [Some(StrTy)] && TypesOf(REGISTRY, TWO.args) == [Some(StrTy)];
    assert TypesOf(REGISTRY, OLD_APP.args) == [TypeOf(REGISTRY, APP), TypeOf(REGISTRY, TWO)];
    var env := Environment(REGISTRY, EMPTY_ROW);
    assert Outcomes(clock, env, APP.args)[0] == Error;
    assert Outcomes(clock, env, OLD_APP.args)[0] == RowEval(clock, env, APP);
  }

  lemma {:induction false} AppCompiled(clock: Clock)
    ensures Compiled(REGISTRY, clock, APP, []) == (Ok(SNormalize(SColumn(1, SemVerAttr))), [Scalar(StrVal("app_version"))])
  {
    var args: seq<Arg> := [Scalar(StrVal("app_version"))];
    assert [] + args == args;
    assert Compiled(REGISTRY, clock, Ident("app_version"), []) == (Ok(SColumn(1, SemVerAttr)), args);
  }

  lemma {:induction false} OldAppCompiled(clock: Clock)
    ensures Compiled(REGISTRY, clock, OLD_APP, [])
            == (Ok(SCompare(Lt, SNormalize(SColumn(1, SemVerAttr)), SParam(2))),
                [Scalar(StrVal("app_version")), Scalar(StrVal(SemVer.Render(SemVer.Version(2, 0, 0))))])
  {
    TwoIsAVersion();
    AppCompiled(clock);
    var args: seq<Arg> := [Scalar(StrVal("app_version"))];
    var full := args + [Scalar(StrVal(SemVer.Render(SemVer.Version(2, 0, 0))))];
    assert full == [Scalar(StrVal("app_version")), Scalar(StrVal(SemVer.Render(SemVer.Version(2, 0, 0))))];
    assert Compiled(REGISTRY, clock, TWO, args) == VersionLiteralCompiled(StrVal("2"), args);
    assert Compiled(REGISTRY, clock, TWO, args) == (Ok(SParam(2)), full);
    BinaryCompiled(REGISTRY, clock, OLD_APP, []);
  }

  /** The compiled condition, for any text in place of the normalised literal. */
  lemma {:induction false} OldAppCondition(text: string)
    ensures SqlEval(SCompare(Lt, SNormalize(SColumn(1, SemVerAttr)), SParam(2)), [Scalar(StrVal("app_version")), Scalar(StrVal(text))], EMPTY_ROW)
            == Truth(Less(StrVal(SemVer.SqlNormalized(None)), StrVal(text)))
  {
    var args := [Scalar(StrVal("app_version")), Scalar(StrVal(text))];
    assert SqlEval(SColumn(1, SemVerAttr), args, EMPTY_ROW) == Null;
    assert SqlEval(SNormalize(SColumn(1, SemVerAttr)), args, EMPTY_ROW) == Datum(StrVal(SemVer.SqlNormalized(None)));
    assert SqlEval(SParam(2), args, EMPTY_ROW) == Datum(StrVal(text));
  }

  /** `semver(app_version) < semver("2")` on a channel with no version: an error row by row, a match in the database. */
  lemma {:induction false} AMissingVersionMatches(clock: Clock)
    ensures Accepted(REGISTRY, clock, OLD_APP) && WellTyped(REGISTRY, EMPTY_ROW)
    ensures RowWise(REGISTRY, clock, EMPTY_ROW, OLD_APP) == Error
    ensures SetWise(REGISTRY, clock, EMPTY_ROW, OLD_APP, []) == Truth(true)
  {
    OldAppRowWise(clock);
    OldAppCompiled(clock);
    var (sql, args) := Compiled(REGISTRY, clock, OLD_APP, []);
    assert args + [] == args;
    OldAppCondition(SemVer.Render(SemVer.Version(2, 0, 0)));
    SemVer.MissingIsZero();
    ZeroBelowTwo();
  }

  lemma {:induction false} TwoIsAVersion()
    ensures SemVer.Normalized("2") == Some(SemVer.Render(SemVer.Version(2, 0, 0)))
  {
    assert SemVer.Split("2") == ["2"] by {
      assert SemVer.Split("2"[1..]) == [[]];
      assert ['2'] + [] == "2";
    }
    assert Decimals.Value("2") == 2 by { assert "2"[..0] == []; }
    assert Decimals.Value("0") == 0 by { assert "0"[..0] == []; }
  }

  lemma {:induction false} ZeroBelowTwo()
    ensures Less(StrVal(SemVer.Render(SemVer.Version(0, 0, 0))), StrVal(SemVer.Render(SemVer.Version(2, 0, 0))))
  {
    SemVer.EleventhDigit();
    SemVer.RenderPreservesOrder(SemVer.Version(0, 0, 0), SemVer.Version(2, 0, 0));
  }
}
