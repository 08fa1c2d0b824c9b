/**
 Which predicates the compiler takes and what their connectives mean: the constructs it supports, said
 without compiling; junctions and negation by the verdicts of their parts; searches by what is in them.
 */
module Acceptance {
  import opened Wrappers
  import opened Predicates
  import opened SqlCompile
  import opened Agreement
  import opened Comparisons
  import SemVer

  // ---- What compiles ----

  /** `elems` are string literals. */
  predicate StringLiterals(elems: seq<Expr>) {
    forall i :: 0 <= i < |elems| ==> elems[i].Literal? && elems[i].value.StrVal?
  }

  /** The constructs that have a SQL form. */
  predicate Supported(reg: Registry, clock: Clock, e: Expr) {
    match e
    case Ident(name) => name in reg && (reg[name].source.EventAggregate? || (!reg[name].kind.StringSetAttr? && !reg[name].kind.UnknownAttr?))
    case Literal(v) => !v.SetVal? && !v.OtherVal?
    case ListOf(_) => false
    case Unsupported => false
    case Call(fn, args) =>
      match fn
      case And => |args| == 2 && Supported(reg, clock, args[0]) && Supported(reg, clock, args[1])
      case Or => |args| == 2 && Supported(reg, clock, args[0]) && Supported(reg, clock, args[1])
      case Compare(_) => |args| == 2 && Supported(reg, clock, args[0]) && Supported(reg, clock, args[1])
      case Not => |args| == 1 && Supported(reg, clock, args[0])
      case In => |args| == 2 && Supported(reg, clock, args[0]) && Searchable(reg, args[1])
      case TimestampFn => |args| == 1 && args[0].Literal? && args[0].value.StrVal? && clock(args[0].value.s).Some?
      case SemVerFn =>
        && |args| == 1
        && if args[0].Literal? then args[0].value.StrVal? && SemVer.Parse(args[0].value.s).Some? else Supported(reg, clock, args[0])
      case OtherFn(_) => false
  }

  /** A list of string literals, or an attribute holding a set of strings. */
  predicate Searchable(reg: Registry, e: Expr) {
    match e
    case ListOf(elems) => StringLiterals(elems)
    case Ident(name) => name in reg && reg[name].kind.StringSetAttr?
    case _ => false
  }

  lemma {:induction false} LiteralStringsIff(elems: seq<Expr>)
    ensures LiteralStrings(elems).Ok? <==> StringLiterals(elems)
  {
    if elems != [] {
      LiteralStringsIff(elems[..|elems| - 1]);
      assert elems == elems[..|elems| - 1] + [elems[|elems| - 1]];
    }
  }

  /** A tree compiles if and only if every construct of it is supported, whatever arguments came before. */
  lemma {:induction false} CompilesIff(reg: Registry, clock: Clock, e: Expr, args: seq<Arg>)
    ensures Compiled(reg, clock, e, args).0.Ok? <==> Supported(reg, clock, e)
    decreases e
  {
    if e.Call? && e.args != [] {
      CompilesIff(reg, clock, e.args[0], args);
      if |e.args| == 2 {
        CompilesIff(reg, clock, e.args[1], Compiled(reg, clock, e.args[0], args).1);
        if e.args[1].ListOf? { LiteralStringsIff(e.args[1].elems); }
      }
    }
  }

  /** What a complaint says is so: an attribute it names is referenced, and unregistered, or of the wrong kind. */
  predicate Truthful(reg: Registry, e: Expr, complaint: CompileError) {
    match complaint
    case UnknownAttribute(name) => name in Referenced(e) && name !in reg
    case NotAStringSet(name) => name in Referenced(e) && name in reg && !reg[name].kind.StringSetAttr?
    case StringSetOutsideIn(name) => name in Referenced(e) && name in reg && reg[name].kind.StringSetAttr?
    case UnknownType(name) => name in Referenced(e) && name in reg && reg[name].kind.UnknownAttr?
    case _ => true
  }

  lemma {:induction false} PartReferences(e: Expr, i: nat)
    requires e.Call? && i < |e.args|
    ensures Referenced(e.args[i]) <= Referenced(e)
  {
  }

  lemma {:induction false} TrueOfTheWhole(reg: Registry, e: Expr, i: nat, complaint: CompileError)
    requires e.Call? && i < |e.args| && Truthful(reg, e.args[i], complaint)
    ensures Truthful(reg, e, complaint)
  {
    PartReferences(e, i);
  }

  lemma {:induction false} SearchComplaint(reg: Registry, needle: Sql, haystack: Expr, args: seq<Arg>)
    requires HaystackCompiled(reg, needle, haystack, args).0.Err?
    ensures Truthful(reg, haystack, HaystackCompiled(reg, needle, haystack, args).0.error)
  {
    if haystack.ListOf? { TextComplaint(haystack.elems); }
  }

  lemma {:induction false} TextComplaint(elems: seq<Expr>)
    requires LiteralStrings(elems).Err?
    ensures LiteralStrings(elems).error == UnsupportedConstruct
  {
    if LiteralStrings(elems[..|elems| - 1]).Err? { TextComplaint(elems[..|elems| - 1]); }
  }

  lemma {:induction false} ComplaintsAreTrue(reg: Registry, clock: Clock, e: Expr, args: seq<Arg>)
    requires Compiled(reg, clock, e, args).0.Err?
    ensures Truthful(reg, e, Compiled(reg, clock, e, args).0.error)
    decreases e
  {
    if e.Call? && |e.args| == 2 && (BinaryOf(e.fn).Some? || e.fn.In?) {
      var (first, args1) := Compiled(reg, clock, e.args[0], args);
      if first.Err? {
        ComplaintsAreTrue(reg, clock, e.args[0], args);
        TrueOfTheWhole(reg, e, 0, first.error);
      } else if e.fn.In? {
        SearchComplaint(reg, first.value, e.args[1], args1);
        TrueOfTheWhole(reg, e, 1, Compiled(reg, clock, e, args).0.error);
      } else {
        ComplaintsAreTrue(reg, clock, e.args[1], args1);
        TrueOfTheWhole(reg, e, 1, Compiled(reg, clock, e, args).0.error);
      }
    } else if e.Call? && |e.args| == 1 && (e.fn.Not? || (e.fn.SemVerFn? && !e.args[0].Literal?)) {
      ComplaintsAreTrue(reg, clock, e.args[0], args);
      TrueOfTheWhole(reg, e, 0, Compiled(reg, clock, e, args).0.error);
    }
  }

  // ---- Junctions ----

  /** A junction is accepted if and only if its sides are, a negation if and only if what it negates is. */
  lemma {:induction false} JunctionsAccepted(reg: Registry, clock: Clock, l: Expr, r: Expr)
    ensures Accepted(reg, clock, Call(And, [l, r])) <==> Accepted(reg, clock, l) && Accepted(reg, clock, r)
    ensures Accepted(reg, clock, Call(Or, [l, r])) <==> Accepted(reg, clock, l) && Accepted(reg, clock, r)
    ensures Accepted(reg, clock, Call(Not, [l])) <==> Accepted(reg, clock, l)
  {
    var es := [l, r];
    assert TypesOf(reg, es) == [TypeOf(reg, l), TypeOf(reg, r)] && TypesOf(reg, [l]) == [TypeOf(reg, l)];
    CompilesIff(reg, clock, l, []);
    CompilesIff(reg, clock, r, []);
    CompilesIff(reg, clock, Call(And, es), []);
    CompilesIff(reg, clock, Call(Or, es), []);
    CompilesIff(reg, clock, Call(Not, [l]), []);
  }

  /** On one row: both sides meet the agreement condition. */
  ghost predicate Usual(reg: Registry, clock: Clock, row: Row, e: Expr) {
    WellTyped(reg, row) && Accepted(reg, clock, e) && Regular(reg, clock, Environment(reg, row), e)
  }

  lemma {:induction false} DecidedRowWise(reg: Registry, clock: Clock, row: Row, e: Expr, more: seq<Arg>, b: bool)
    requires Usual(reg, clock, row, e) && RowWise(reg, clock, row, e) == BoolOf(b)
    ensures Decides(reg, clock, row, e, more, b)
  {
    DatabaseFollowsRowWise(reg, clock, row, e, more);
  }

  lemma {:induction false} JunctionIsUsual(reg: Registry, clock: Clock, row: Row, l: Expr, r: Expr)
    requires Usual(reg, clock, row, l) && Usual(reg, clock, row, r)
    ensures Usual(reg, clock, row, Call(And, [l, r])) && Usual(reg, clock, row, Call(Or, [l, r])) && Usual(reg, clock, row, Call(Not, [l]))
  {
    JunctionsAccepted(reg, clock, l, r);
    var es := [l, r];
    assert es[0] == l && es[1] == r && [l][0] == l;
  }

  /** Through both evaluations: one false side makes `&&` false and one true side `||` true, even beside a side without a verdict. */
  lemma {:induction false} JunctionsDecide(reg: Registry, clock: Clock, row: Row, l: Expr, r: Expr, more: seq<Arg>)
    requires Usual(reg, clock, row, l) && Usual(reg, clock, row, r)
    ensures var a, b := RowWise(reg, clock, row, l), RowWise(reg, clock, row, r);
            && (a == BoolOf(false) || b == BoolOf(false) ==> Decides(reg, clock, row, Call(And, [l, r]), more, false))
            && (a == BoolOf(true) && b == BoolOf(true) ==> Decides(reg, clock, row, Call(And, [l, r]), more, true))
            && (a == BoolOf(true) || b == BoolOf(true) ==> Decides(reg, clock, row, Call(Or, [l, r]), more, true))
            && (a == BoolOf(false) && b == BoolOf(false) ==> Decides(reg, clock, row, Call(Or, [l, r]), more, false))
  {
    JunctionIsUsual(reg, clock, row, l, r);
    JunctionOutcomes(reg, clock, row, l, r);
    forall e, v | e in {Call(And, [l, r]), Call(Or, [l, r])} && RowWise(reg, clock, row, e) == BoolOf(v)
      ensures Decides(reg, clock, row, e, more, v)
    {
      DecidedRowWise(reg, clock, row, e, more, v);
    }
  }

  lemma {:induction false} JunctionOutcomes(reg: Registry, clock: Clock, row: Row, l: Expr, r: Expr)
    ensures var a, b := RowWise(reg, clock, row, l), RowWise(reg, clock, row, r);
            RowWise(reg, clock, row, Call(And, [l, r])) == Conjunction(a, b) && RowWise(reg, clock, row, Call(Or, [l, r])) == Disjunction(a, b)
  {
    var env, es := Environment(reg, row), [l, r];
    assert Outcomes(clock, env, es) == [RowEval(clock, env, l), RowEval(clock, env, r)];
  }

  /** And negation turns a verdict round. */
  lemma {:induction false} NegationDecides(reg: Registry, clock: Clock, row: Row, e: Expr, more: seq<Arg>, b: bool)
    requires Usual(reg, clock, row, e) && RowWise(reg, clock, row, e) == BoolOf(b)
    ensures Decides(reg, clock, row, Call(Not, [e]), more, !b)
  {
    JunctionIsUsual(reg, clock, row, e, e);
    assert Outcomes(clock, Environment(reg, row), [e]) == [RowEval(clock, Environment(reg, row), e)];
    DecidedRowWise(reg, clock, row, Call(Not, [e]), more, !b);
  }

  // ---- Searches ----

  function Texts(ss: seq<string>): (es: seq<Expr>)
    ensures |es| == |ss| && forall i :: 0 <= i < |ss| ==> es[i] == Literal(StrVal(ss[i]))
  {
    seq(|ss|, i requires 0 <= i < |ss| => Literal(StrVal(ss[i])))
  }

  lemma {:induction false} TextsAre(reg: Registry, clock: Clock, env: map<string, Value>, ss: seq<string>, s: string)
    ensures Contained(Value(StrVal(s)), Outcomes(clock, env, Texts(ss))) == BoolOf(s in ss)
    ensures StringLiterals(Texts(ss)) && forall i :: 0 <= i < |ss| ==> TypeOf(reg, Texts(ss)[i]) == Some(StrTy)
  {
    var vs := Outcomes(clock, env, Texts(ss));
    assert vs == SetOutcomes(ss);
    StringIn(s, ss);
  }

  lemma {:induction false} SearchIsRegular(reg: Registry, clock: Clock, env: map<string, Value>, e: Expr)
    requires e.Call? && e.fn.In? && |e.args| == 2 && !e.args[0].Call? && !e.args[1].Call? && TypeOf(reg, e.args[0]) == Some(StrTy)
    ensures Regular(reg, clock, env, e)
  {
    var a, b := e.args[0], e.args[1];
    LeafIsRegular(reg, clock, env, a);
    LeafIsRegular(reg, clock, env, b);
    assert forall i :: 0 <= i < |e.args| ==> Regular(reg, clock, env, e.args[i]) by {
      assert e.args == [a, b];
    }
  }

  lemma {:induction false} LeafIsRegular(reg: Registry, clock: Clock, env: map<string, Value>, e: Expr)
    requires !e.Call?
    ensures Regular(reg, clock, env, e)
  {
  }

  /** A stored text sought in a list of texts, through both evaluations. */
  lemma {:induction false} ListsAreSearched(reg: Registry, clock: Clock, row: Row, name: string, ss: seq<string>, more: seq<Arg>)
    requires WellTyped(reg, row) && name in reg && !reg[name].source.EventAggregate? && (reg[name].kind.StringAttr? || reg[name].kind.SemVerAttr?)
    requires name in row.attributes
    ensures Decides(reg, clock, row, Call(In, [Ident(name), ListOf(Texts(ss))]), more, row.attributes[name].s in ss)
  {
    var e, env := Call(In, [Ident(name), ListOf(Texts(ss))]), Environment(reg, row);
    TextsAre(reg, clock, env, ss, row.attributes[name].s);
    CompilesIff(reg, clock, e, []);
    assert RowEval(clock, env, e) == Contained(Value(row.attributes[name]), Outcomes(clock, env, Texts(ss)));
    assert TypeOf(reg, e.args[0]) == Some(StrTy) && ListFor(reg, e.args[1], StrTy);
    assert Supported(reg, clock, e) && TypeOf(reg, e) == Some(BoolTy);
    SearchIsRegular(reg, clock, env, e);
    DecidedRowWise(reg, clock, row, e, more, row.attributes[name].s in ss);
  }

  /** A text sought in a stored set of texts. */
  lemma {:induction false} SetsAreSearched(reg: Registry, clock: Clock, row: Row, name: string, s: string, more: seq<Arg>)
    requires WellTyped(reg, row) && name in reg && !reg[name].source.EventAggregate? && reg[name].kind.StringSetAttr? && name in row.attributes
    ensures Decides(reg, clock, row, Call(In, [Literal(StrVal(s)), Ident(name)]), more, s in row.attributes[name].elems)
  {
    var e, env := Call(In, [Literal(StrVal(s)), Ident(name)]), Environment(reg, row);
    CompilesIff(reg, clock, e, []);
    InSetEval(reg, clock, row, e, name);
    StringIn(s, row.attributes[name].elems);
    assert RowEval(clock, env, e.args[0]) == Value(StrVal(s));
    assert TypeOf(reg, e.args[0]) == Some(StrTy) && ListFor(reg, e.args[1], StrTy);
    assert Supported(reg, clock, e) && TypeOf(reg, e) == Some(BoolTy);
    SearchIsRegular(reg, clock, env, e);
    DecidedRowWise(reg, clock, row, e, more, s in row.attributes[name].elems);
  }

  // ---- The attributes a predicate reads ----

  /** The part of a tree that a path of child numbers leads to. */
  ghost function PartAt(e: Expr, path: seq<nat>): Option<Expr>
    decreases e, |path|
  {
    if path == [] then Some(e)
    else
      match e
      case Call(_, args) => if path[0] < |args| then PartAt(args[path[0]], path[1..]) else None
      case ListOf(elems) => if path[0] < |elems| then PartAt(elems[path[0]], path[1..]) else None
      case _ => None
  }

  ghost predicate Mentions(e: Expr, name: string) {
    exists path :: PartAt(e, path) == Some(Ident(name))
  }

  lemma {:induction false} MentionedBelow(e: Expr, es: seq<Expr>, i: nat, name: string)
    requires i < |es| && Mentions(es[i], name) && (e == ListOf(es) || (e.Call? && e.args == es))
    ensures Mentions(e, name)
  {
    var path :| PartAt(es[i], path) == Some(Ident(name));
    assert ([i] + path)[1..] == path;
    assert PartAt(e, [i] + path) == Some(Ident(name));
  }

  lemma {:induction false} MentionsBelow(e: Expr, es: seq<Expr>, name: string)
    requires e == ListOf(es) || (e.Call? && e.args == es)
    ensures Mentions(e, name) <==> exists i: nat :: i < |es| && Mentions(es[i], name)
  {
    if Mentions(e, name) {
      var path :| PartAt(e, path) == Some(Ident(name));
      assert path != [] && path[0] < |es| && PartAt(es[path[0]], path[1..]) == Some(Ident(name));
      assert Mentions(es[path[0]], name);
    }
    forall i: nat | i < |es| && Mentions(es[i], name) ensures Mentions(e, name) {
      MentionedBelow(e, es, i, name);
    }
  }

  lemma {:induction false} NamedIn(es: seq<Expr>, name: string)
    requires forall i :: 0 <= i < |es| ==> (name in Referenced(es[i]) <==> Mentions(es[i], name))
    ensures name in ReferencedIn(es) <==> exists i: nat :: i < |es| && Mentions(es[i], name)
  {
    if name in ReferencedIn(es) {
      var i: nat :| i < |es| && name in Referenced(es[i]);
      assert Mentions(es[i], name);
    }
  }

  /** An attribute is read by a predicate if and only if the tree names it somewhere. */
  lemma {:induction false} ReadsIff(e: Expr, name: string)
    ensures name in Referenced(e) <==> Mentions(e, name)
  {
    match e
    case Call(_, args) =>
      forall i | 0 <= i < |args| ensures name in Referenced(args[i]) <==> Mentions(args[i], name) { ReadsIff(args[i], name); }
      NamedIn(args, name);
      MentionsBelow(e, args, name);
    case ListOf(elems) =>
      forall i | 0 <= i < |elems| ensures name in Referenced(elems[i]) <==> Mentions(elems[i], name) { ReadsIff(elems[i], name); }
      NamedIn(elems, name);
      MentionsBelow(e, elems, name);
    case _ =>
      LeafMentions(e, name);
  }

  lemma {:induction false} LeafMentions(e: Expr, name: string)
    requires !e.Call? && !e.ListOf?
    ensures Mentions(e, name) <==> e == Ident(name)
  {
    if e == Ident(name) { assert PartAt(e, []) == Some(e); }
  }
}
