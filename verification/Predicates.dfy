/**
 Audience predicates: the attribute registry (internal/audience/registry), the checked expression tree
 (internal/audience/predicate) and its row-wise evaluation by CEL (internal/audience/eval), with the
 error-absorbing `&&` and `||` of the CEL language definition, section "Logical Operators".
 */
module Predicates {
  import opened Wrappers
  import opened Ordering
  import SemVer

  // ---- The registry ----

  datatype AttrType = StringAttr | NumberAttr | BoolAttr | TimestampAttr | SemVerAttr | StringSetAttr | UnknownAttr

  datatype Source = ChannelField | UserAttribute | Tag | EventAggregate(event: string, windowDays: int)

  datatype Definition = Definition(kind: AttrType, source: Source)

  type Registry = map<string, Definition>

  // ---- Values and types ----

  /** Times are instants, numbers exact. `OtherVal` stands for the literals no type below covers (null, bytes). */
  datatype Value =
    | BoolVal(b: bool) | NumVal(x: real) | IntVal(i: int) | UintVal(n: nat)
    | StrVal(s: string) | TimeVal(t: int) | SetVal(elems: seq<string>) | OtherVal

  datatype Ty = BoolTy | NumTy | IntTy | UintTy | StrTy | TimeTy | SetTy

  predicate HasType(v: Value, t: Ty) {
    match v
    case BoolVal(_) => t == BoolTy
    case NumVal(_) => t == NumTy
    case IntVal(_) => t == IntTy
    case UintVal(_) => t == UintTy
    case StrVal(_) => t == StrTy
    case TimeVal(_) => t == TimeTy
    case SetVal(_) => t == SetTy
    case OtherVal => false
  }

  /** The CEL type an attribute is declared with; a version is declared as a plain string. */
  function CelType(a: AttrType): Option<Ty> {
    match a
    case StringAttr => Some(StrTy)
    case SemVerAttr => Some(StrTy)
    case NumberAttr => Some(NumTy)
    case BoolAttr => Some(BoolTy)
    case TimestampAttr => Some(TimeTy)
    case StringSetAttr => Some(SetTy)
    case UnknownAttr => None
  }

  // ---- Trees ----

  datatype Comparison = Eq | Ne | Lt | Le | Gt | Ge

  datatype Fn = And | Or | Not | In | SemVerFn | TimestampFn | Compare(c: Comparison) | OtherFn(name: string)

  /** `Unsupported` is a comprehension, a map, a field selection or a struct. */
  datatype Expr =
    | Call(fn: Fn, args: seq<Expr>)
    | Ident(name: string)
    | Literal(value: Value)
    | ListOf(elems: seq<Expr>)
    | Unsupported

  /** RFC 3339 parsing, which both evaluations share. */
  type Clock = string -> Option<int>

  // ---- Comparisons ----

  predicate Ordered(t: Ty) {
    !t.SetTy?
  }

  predicate Less(a: Value, b: Value) {
    match (a, b)
    case (BoolVal(x), BoolVal(y)) => !x && y
    case (NumVal(x), NumVal(y)) => x < y
    case (IntVal(x), IntVal(y)) => x < y
    case (UintVal(x), UintVal(y)) => x < y
    case (StrVal(x), StrVal(y)) => StringLt(x, y)
    case (TimeVal(x), TimeVal(y)) => x < y
    case _ => false
  }

  predicate Holds(c: Comparison, a: Value, b: Value) {
    match c
    case Eq => a == b
    case Ne => a != b
    case Lt => Less(a, b)
    case Le => Less(a, b) || a == b
    case Gt => Less(b, a)
    case Ge => Less(b, a) || a == b
  }

  /** On values of one ordered type the six comparisons are those of a total order. */
  lemma {:induction false} ComparisonsAreAnOrder(t: Ty, a: Value, b: Value, c: Value)
    requires Ordered(t) && HasType(a, t) && HasType(b, t) && HasType(c, t)
    ensures Holds(Lt, a, b) || a == b || Holds(Gt, a, b)
    ensures !(Holds(Lt, a, b) && Holds(Ge, a, b)) && !(Holds(Gt, a, b) && Holds(Le, a, b)) && !(Holds(Eq, a, b) && Holds(Ne, a, b))
    ensures Holds(Lt, a, b) <==> Holds(Gt, b, a)
    ensures Holds(Le, a, b) && Holds(Le, b, c) ==> Holds(Le, a, c)
  {
    if t.StrTy? {
      StringLeTotal(a.s, b.s);
      if StringLe(a.s, b.s) && StringLe(b.s, a.s) { StringLeAntisymmetric(a.s, b.s); }
      if StringLe(a.s, b.s) && StringLe(b.s, c.s) { StringLeTransitive(a.s, b.s, c.s); }
    }
  }

  // ---- Type checking ----

  function TypesOf(reg: Registry, es: seq<Expr>): (ts: seq<Option<Ty>>)
    ensures |ts| == |es|
    ensures forall i :: 0 <= i < |es| ==> ts[i] == TypeOf(reg, es[i])
    decreases es, 0
  {
    seq(|es|, i requires 0 <= i < |es| => TypeOf(reg, es[i]))
  }

  /** A list whose elements are all of type `t`, or a string-set expression when `t` is the string type. */
  predicate ListFor(reg: Registry, e: Expr, t: Ty)
    decreases e, 1
  {
    match e
    case ListOf(elems) => forall i :: 0 <= i < |elems| ==> TypeOf(reg, elems[i]) == Some(t)
    case _ => TypeOf(reg, e) == Some(SetTy) && t == StrTy
  }

  function CallType(fn: Fn, ts: seq<Option<Ty>>): Option<Ty> {
    match fn
    case And => if ts == [Some(BoolTy), Some(BoolTy)] then Some(BoolTy) else None
    case Or => if ts == [Some(BoolTy), Some(BoolTy)] then Some(BoolTy) else None
    case Not => if ts == [Some(BoolTy)] then Some(BoolTy) else None
    case SemVerFn => if ts == [Some(StrTy)] then Some(StrTy) else None
    case TimestampFn => if ts == [Some(StrTy)] then Some(TimeTy) else None
    case Compare(c) =>
      if |ts| == 2 && ts[0].Some? && ts[0] == ts[1] && (c.Eq? || c.Ne? || Ordered(ts[0].value)) then Some(BoolTy) else None
    case _ => None
  }

  /** What the type checker of the CEL language definition (section "Gradual Type Checking") infers for the constructs a predicate is built from. */
  function TypeOf(reg: Registry, e: Expr): Option<Ty>
    decreases e, 0
  {
    match e
    case Ident(name) => if name in reg then CelType(reg[name].kind) else None
    case Literal(v) =>
      (match v
       case BoolVal(_) => Some(BoolTy)
       case NumVal(_) => Some(NumTy)
       case IntVal(_) => Some(IntTy)
       case UintVal(_) => Some(UintTy)
       case StrVal(_) => Some(StrTy)
       case TimeVal(_) => Some(TimeTy)
       case _ => None)
    case Call(fn, args) =>
      if fn.In? then
        if |args| == 2 && TypeOf(reg, args[0]).Some? && ListFor(reg, args[1], TypeOf(reg, args[0]).value)
        then Some(BoolTy) else None
      else CallType(fn, TypesOf(reg, args))
    case _ => None
  }

  // ---- Rows ----

  /** One daily count of the targeting rollup, for one channel. */
  datatype Daily = Daily(event: string, day: int, count: nat)

  /** A channel as both evaluations see it: its stored attributes, and its daily counts up to `today`. */
  datatype Row = Row(attributes: map<string, Value>, rollup: seq<Daily>, today: int)

  /** `sum(count)` over the trailing window; no rows, no sum. */
  function WindowSum(rollup: seq<Daily>, event: string, windowDays: int, today: int): Option<nat> {
    if rollup == [] then None
    else
      var rest := WindowSum(rollup[1..], event, windowDays, today);
      if rollup[0].event == event && rollup[0].day > today - windowDays
      then Some(rollup[0].count + if rest.Some? then rest.value else 0)
      else rest
  }

  /** The value map of a row: stored attributes the registry knows, and a sum for every aggregate, zero when there is none. */
  function Environment(reg: Registry, row: Row): map<string, Value> {
    map name | name in reg && (reg[name].source.EventAggregate? || name in row.attributes) ::
      match reg[name].source
      case EventAggregate(event, days) =>
        var sum := WindowSum(row.rollup, event, days, row.today);
        NumVal(if sum.Some? then sum.value as real else 0.0)
      case _ => row.attributes[name]
  }

  /** Stored attributes have their declared type; aggregates are numbers. */
  ghost predicate WellTyped(reg: Registry, row: Row) {
    && (forall name :: name in reg && name in row.attributes && CelType(reg[name].kind).Some? ==>
          HasType(row.attributes[name], CelType(reg[name].kind).value))
    && (forall name :: name in reg && reg[name].source.EventAggregate? ==> reg[name].kind.NumberAttr?)
  }

  // ---- Row-wise evaluation ----

  datatype Outcome = Value(v: Value) | Error

  function BoolOf(b: bool): Outcome {
    Value(BoolVal(b))
  }

  /** `false` on either side decides, even against an error on the other. */
  function Conjunction(a: Outcome, b: Outcome): Outcome {
    if a == BoolOf(false) || b == BoolOf(false) then BoolOf(false)
    else if a == BoolOf(true) && b == BoolOf(true) then BoolOf(true)
    else Error
  }

  function Disjunction(a: Outcome, b: Outcome): Outcome {
    if a == BoolOf(true) || b == BoolOf(true) then BoolOf(true)
    else if a == BoolOf(false) && b == BoolOf(false) then BoolOf(false)
    else Error
  }

  function Negation(a: Outcome): Outcome {
    if a.Value? && a.v.BoolVal? then BoolOf(!a.v.b) else Error
  }

  function Compared(c: Comparison, a: Outcome, b: Outcome): Outcome {
    if a.Value? && b.Value? then BoolOf(Holds(c, a.v, b.v)) else Error
  }

  /** The row-wise semver(): an error on anything but a version. */
  function Versioned(a: Outcome): Outcome {
    if a.Value? && a.v.StrVal? && SemVer.Normalized(a.v.s).Some? then Value(StrVal(SemVer.Normalized(a.v.s).value)) else Error
  }

  function Timed(clock: Clock, a: Outcome): Outcome {
    if a.Value? && a.v.StrVal? && clock(a.v.s).Some? then Value(TimeVal(clock(a.v.s).value)) else Error
  }

  function Applied(clock: Clock, fn: Fn, vs: seq<Outcome>): Outcome {
    match fn
    case And => if |vs| == 2 then Conjunction(vs[0], vs[1]) else Error
    case Or => if |vs| == 2 then Disjunction(vs[0], vs[1]) else Error
    case Not => if |vs| == 1 then Negation(vs[0]) else Error
    case Compare(c) => if |vs| == 2 then Compared(c, vs[0], vs[1]) else Error
    case SemVerFn => if |vs| == 1 then Versioned(vs[0]) else Error
    case TimestampFn => if |vs| == 1 then Timed(clock, vs[0]) else Error
    case _ => Error
  }

  function Outcomes(clock: Clock, env: map<string, Value>, es: seq<Expr>): (vs: seq<Outcome>)
    ensures |vs| == |es|
    ensures forall i :: 0 <= i < |es| ==> vs[i] == RowEval(clock, env, es[i])
  {
    seq(|es|, i requires 0 <= i < |es| => RowEval(clock, env, es[i]))
  }

  /** Membership in a list or a string set: an error in the needle or anywhere in the haystack is an error. */
  function Contained(needle: Outcome, haystack: seq<Outcome>): Outcome {
    if needle.Error? || Error in haystack then Error else BoolOf(needle in haystack)
  }

  function SetOutcomes(elems: seq<string>): (vs: seq<Outcome>)
    ensures |vs| == |elems| && forall i :: 0 <= i < |elems| ==> vs[i] == Value(StrVal(elems[i]))
  {
    seq(|elems|, i requires 0 <= i < |elems| => Value(StrVal(elems[i])))
  }

  function RowEval(clock: Clock, env: map<string, Value>, e: Expr): Outcome {
    match e
    case Ident(name) => if name in env then Value(env[name]) else Error
    case Literal(v) => Value(v)
    case Call(fn, args) =>
      if fn.In? then
        if |args| != 2 then Error
        else
          var needle := RowEval(clock, env, args[0]);
          match args[1]
          case ListOf(elems) => Contained(needle, Outcomes(clock, env, elems))
          case _ =>
            var haystack := RowEval(clock, env, args[1]);
            if haystack.Value? && haystack.v.SetVal? then Contained(needle, SetOutcomes(haystack.v.elems)) else Error
      else Applied(clock, fn, Outcomes(clock, env, args))
    case _ => Error
  }

  // ---- What a tree reads ----

  /** The identifiers of a tree. */
  function Referenced(e: Expr): set<string> {
    match e
    case Ident(name) => {name}
    case Call(_, args) => ReferencedIn(args)
    case ListOf(elems) => ReferencedIn(elems)
    case _ => {}
  }

  function ReferencedIn(es: seq<Expr>): set<string> {
    set i, name | 0 <= i < |es| && name in Referenced(es[i]) :: name
  }

  /** Two environments with the same values, or the same absences, on `names`. */
  ghost predicate AgreeOn(env: map<string, Value>, env': map<string, Value>, names: set<string>) {
    forall name :: name in names ==> Get(env, name) == Get(env', name)
  }

  lemma {:induction false} OutcomesDependOnReferenced(clock: Clock, env: map<string, Value>, env': map<string, Value>, es: seq<Expr>)
    requires AgreeOn(env, env', ReferencedIn(es))
    ensures Outcomes(clock, env, es) == Outcomes(clock, env', es)
  {
    forall i | 0 <= i < |es| ensures RowEval(clock, env, es[i]) == RowEval(clock, env', es[i]) {
      assert Referenced(es[i]) <= ReferencedIn(es);
      EvaluationReadsOnlyReferenced(clock, env, env', es[i]);
    }
  }

  /** The frame property: evaluation reads the identifiers the tree references, and nothing else. */
  lemma {:induction false} EvaluationReadsOnlyReferenced(clock: Clock, env: map<string, Value>, env': map<string, Value>, e: Expr)
    requires AgreeOn(env, env', Referenced(e))
    ensures RowEval(clock, env, e) == RowEval(clock, env', e)
  {
    match e
    case Ident(name) => assert Get(env, name) == Get(env', name);
    case Call(fn, args) =>
      OutcomesDependOnReferenced(clock, env, env', args);
      assert Outcomes(clock, env, args) == Outcomes(clock, env', args);
      if fn.In? && |args| == 2 {
        assert RowEval(clock, env, args[0]) == Outcomes(clock, env, args)[0];
        assert RowEval(clock, env', args[0]) == Outcomes(clock, env', args)[0];
        assert RowEval(clock, env, args[1]) == Outcomes(clock, env, args)[1];
        assert RowEval(clock, env', args[1]) == Outcomes(clock, env', args)[1];
        if args[1].ListOf? {
          assert Referenced(args[1]) <= ReferencedIn(args);
          OutcomesDependOnReferenced(clock, env, env', args[1].elems);
        }
      }
    case _ =>
  }

  // ---- Type soundness of the row-wise side ----

  ghost predicate OfType(o: Outcome, t: Ty) {
    o.Value? ==> HasType(o.v, t)
  }

  lemma {:induction false} EnvironmentTyped(reg: Registry, row: Row, name: string)
    requires WellTyped(reg, row) && name in reg && CelType(reg[name].kind).Some?
    ensures name in Environment(reg, row) ==> HasType(Environment(reg, row)[name], CelType(reg[name].kind).value)
  {
  }

  /** A type-checked expression evaluates to its type or to an error. */
  lemma {:induction false} EvaluationIsTyped(clock: Clock, reg: Registry, row: Row, e: Expr)
    requires WellTyped(reg, row) && TypeOf(reg, e).Some?
    ensures OfType(RowEval(clock, Environment(reg, row), e), TypeOf(reg, e).value)
  {
    match e
    case Ident(name) => EnvironmentTyped(reg, row, name);
    case _ =>
  }
}
