/**
 The set-wise evaluation of a predicate: compilation to a SQL condition with positional arguments
 (internal/audience/sqlcompile), and what the database makes of the result. SQL is a tree here;
 its text and operator precedence are not modelled.
 */
module SqlCompile {
  import opened Wrappers
  import opened Predicates
  import SemVer

  // ---- SQL conditions ----

  /** `at` is a placeholder's number, from 1. */
  datatype Sql =
    | SAnd(left: Sql, right: Sql)
    | SOr(left: Sql, right: Sql)
    | SNot(inner: Sql)
    | SCompare(c: Comparison, left: Sql, right: Sql)
    | SParam(at: nat)
    | SColumn(at: nat, kind: AttrType)
    | SAggregate(event: nat, days: nat)
    | SNormalize(inner: Sql)
    | SAnyOf(needle: Sql, at: nat)
    | SContains(at: nat, needle: Sql)

  datatype Arg = Scalar(v: Value) | Strings(elems: seq<string>)

  /** A value, NULL, or a run-time fault of the query. */
  datatype Cell = Null | Datum(v: Value) | Fault

  function ArgAt(args: seq<Arg>, at: nat): Option<Arg> {
    if 1 <= at <= |args| then Some(args[at - 1]) else None
  }

  // ---- Three-valued logic ----

  function Truth(b: bool): Cell {
    Datum(BoolVal(b))
  }

  predicate Ternary(a: Cell) {
    a.Null? || (a.Datum? && a.v.BoolVal?)
  }

  function SqlAnd(a: Cell, b: Cell): Cell {
    if !Ternary(a) || !Ternary(b) then Fault
    else if a == Truth(false) || b == Truth(false) then Truth(false)
    else if a == Truth(true) && b == Truth(true) then Truth(true)
    else Null
  }

  function SqlOr(a: Cell, b: Cell): Cell {
    if !Ternary(a) || !Ternary(b) then Fault
    else if a == Truth(true) || b == Truth(true) then Truth(true)
    else if a == Truth(false) && b == Truth(false) then Truth(false)
    else Null
  }

  function SqlNot(a: Cell): Cell {
    if !Ternary(a) then Fault else if a.Null? then Null else Truth(!a.v.b)
  }

  function ValueTy(v: Value): Option<Ty> {
    match v
    case BoolVal(_) => Some(BoolTy)
    case NumVal(_) => Some(NumTy)
    case IntVal(_) => Some(IntTy)
    case UintVal(_) => Some(UintTy)
    case StrVal(_) => Some(StrTy)
    case TimeVal(_) => Some(TimeTy)
    case SetVal(_) => Some(SetTy)
    case OtherVal => None
  }

  function SqlCompare(c: Comparison, a: Cell, b: Cell): Cell {
    if a.Fault? || b.Fault? then Fault
    else if a.Null? || b.Null? then Null
    else if ValueTy(a.v) != ValueTy(b.v) then Fault
    else Truth(Holds(c, a.v, b.v))
  }

  /** `needle = ANY(text[])`: an empty array is FALSE whatever the needle, and NULL otherwise propagates. */
  function SqlAnyOf(needle: Cell, arg: Option<Arg>): Cell {
    if needle.Fault? || arg.None? || !arg.value.Strings? then Fault
    else if needle.Datum? && !needle.v.StrVal? then Fault
    else if arg.value.elems == [] then Truth(false)
    else if needle.Null? then Null
    else Truth(needle.v.s in arg.value.elems)
  }

  /** `(attributes->key) ? needle`. */
  function SqlContains(stored: Option<Value>, needle: Cell): Cell {
    if needle.Fault? || (needle.Datum? && !needle.v.StrVal?) then Fault
    else if stored.Some? && !stored.value.SetVal? then Fault
    else if needle.Null? || stored.None? then Null
    else Truth(needle.v.s in stored.value.elems)
  }

  /** semver_normalize is not strict: NULL becomes version zero. */
  function SqlNormalize(a: Cell): Cell {
    match a
    case Fault => Fault
    case Null => Datum(StrVal(SemVer.SqlNormalized(None)))
    case Datum(v) => if v.StrVal? then Datum(StrVal(SemVer.SqlNormalized(Some(v.s)))) else Fault
  }

  /** `(attributes->>key)` cast to the attribute's type. */
  function SqlColumn(row: Row, arg: Option<Arg>, kind: AttrType): Cell {
    if arg.None? || !arg.value.Scalar? || !arg.value.v.StrVal? then Fault
    else if arg.value.v.s !in row.attributes then Null
    else
      var v := row.attributes[arg.value.v.s];
      if CelType(kind).Some? && HasType(v, CelType(kind).value) then Datum(v) else Fault
  }

  function SqlAggregate(row: Row, event: Option<Arg>, days: Option<Arg>): Cell {
    match (event, days)
    case (Some(Scalar(StrVal(e))), Some(Scalar(IntVal(d)))) =>
      var sum := WindowSum(row.rollup, e, d, row.today);
      Datum(NumVal(if sum.Some? then sum.value as real else 0.0))
    case _ => Fault
  }

  function KeyOf(arg: Option<Arg>): Option<string> {
    match arg case Some(Scalar(StrVal(s))) => Some(s) case _ => None
  }

  /** The condition on one row. */
  function SqlEval(sql: Sql, args: seq<Arg>, row: Row): Cell {
    match sql
    case SAnd(l, r) => SqlAnd(SqlEval(l, args, row), SqlEval(r, args, row))
    case SOr(l, r) => SqlOr(SqlEval(l, args, row), SqlEval(r, args, row))
    case SNot(i) => SqlNot(SqlEval(i, args, row))
    case SCompare(c, l, r) => SqlCompare(c, SqlEval(l, args, row), SqlEval(r, args, row))
    case SParam(n) =>
      (match ArgAt(args, n)
       case Some(Scalar(v)) => Datum(v)
       case _ => Fault)
    case SColumn(n, kind) => SqlColumn(row, ArgAt(args, n), kind)
    case SAggregate(e, d) => SqlAggregate(row, ArgAt(args, e), ArgAt(args, d))
    case SNormalize(i) => SqlNormalize(SqlEval(i, args, row))
    case SAnyOf(needle, n) => SqlAnyOf(SqlEval(needle, args, row), ArgAt(args, n))
    case SContains(n, needle) =>
      var key := KeyOf(ArgAt(args, n));
      if key.None? then Fault else SqlContains(Get(row.attributes, key.value), SqlEval(needle, args, row))
  }

  // ---- Compilation ----

  datatype CompileError =
    | UnsupportedConstruct
    | WrongArity
    | UnknownAttribute(name: string)
    | NotAStringSet(name: string)
    | StringSetOutsideIn(name: string)
    | UnknownType(name: string)
    | VersionNotString
    | NotAVersion(text: string)
    | TimestampNotString
    | NotRfc3339(text: string)

  type Compiling = (Result<Sql, CompileError>, seq<Arg>)

  /** The strings of a literal list, or the complaint about its first offending element. */
  function LiteralStrings(elems: seq<Expr>): Result<seq<string>, CompileError> {
    if elems == [] then Ok([])
    else
      match LiteralStrings(elems[..|elems| - 1])
      case Err(e) => Err(e)
      case Ok(ss) =>
        var last := elems[|elems| - 1];
        if last.Literal? && last.value.StrVal? then Ok(ss + [last.value.s]) else Err(UnsupportedConstruct)
  }

  function LiteralCompiled(v: Value, args: seq<Arg>): Compiling {
    if v.SetVal? || v.OtherVal? then (Err(UnsupportedConstruct), args)
    else (Ok(SParam(|args| + 1)), args + [Scalar(v)])
  }

  /** The key's placeholder is issued before its type is looked at. */
  function IdentCompiled(reg: Registry, name: string, args: seq<Arg>): Compiling {
    if name !in reg then (Err(UnknownAttribute(name)), args)
    else
      match reg[name].source
      case EventAggregate(event, days) =>
        (Ok(SAggregate(|args| + 1, |args| + 2)), args + [Scalar(StrVal(event)), Scalar(IntVal(days))])
      case _ =>
        var args' := args + [Scalar(StrVal(name))];
        match reg[name].kind
        case StringSetAttr => (Err(StringSetOutsideIn(name)), args')
        case UnknownAttr => (Err(UnknownType(name)), args')
        case kind => (Ok(SColumn(|args| + 1, kind)), args')
  }

  function TimestampCompiled(clock: Clock, e: Expr, args: seq<Arg>): Compiling {
    if !e.Literal? then (Err(UnsupportedConstruct), args)
    else if !e.value.StrVal? then (Err(TimestampNotString), args)
    else
      match clock(e.value.s)
      case None => (Err(NotRfc3339(e.value.s)), args)
      case Some(t) => (Ok(SParam(|args| + 1)), args + [Scalar(TimeVal(t))])
  }

  /** A literal version is normalised while compiling. */
  function VersionLiteralCompiled(v: Value, args: seq<Arg>): Compiling {
    if !v.StrVal? then (Err(VersionNotString), args)
    else
      match SemVer.Normalized(v.s)
      case None => (Err(NotAVersion(v.s)), args)
      case Some(n) => (Ok(SParam(|args| + 1)), args + [Scalar(StrVal(n))])
  }

  /** The second half of `in`, the needle being compiled already. */
  function HaystackCompiled(reg: Registry, needle: Sql, e: Expr, args: seq<Arg>): Compiling {
    match e
    case ListOf(elems) =>
      (match LiteralStrings(elems)
       case Err(err) => (Err(err), args)
       case Ok(ss) => (Ok(SAnyOf(needle, |args| + 1)), args + [Strings(ss)]))
    case Ident(name) =>
      if name !in reg then (Err(UnknownAttribute(name)), args)
      else if !reg[name].kind.StringSetAttr? then (Err(NotAStringSet(name)), args)
      else (Ok(SContains(|args| + 1, needle)), args + [Scalar(StrVal(name))])
    case _ => (Err(UnsupportedConstruct), args)
  }

  datatype Binary = BAnd | BOr | BCompare(c: Comparison)

  function BinaryOf(fn: Fn): Option<Binary> {
    match fn
    case And => Some(BAnd)
    case Or => Some(BOr)
    case Compare(c) => Some(BCompare(c))
    case _ => None
  }

  function BinarySql(b: Binary, l: Sql, r: Sql): Sql {
    match b
    case BAnd => SAnd(l, r)
    case BOr => SOr(l, r)
    case BCompare(c) => SCompare(c, l, r)
  }

  /** What compiling `e` yields and leaves in the argument list. */
  function Compiled(reg: Registry, clock: Clock, e: Expr, args: seq<Arg>): Compiling
    decreases e
  {
    match e
    case Ident(name) => IdentCompiled(reg, name, args)
    case Literal(v) => LiteralCompiled(v, args)
    case ListOf(_) => (Err(UnsupportedConstruct), args)
    case Unsupported => (Err(UnsupportedConstruct), args)
    case Call(fn, es) =>
      var binary := BinaryOf(fn);
      if binary.Some? then
        if |es| != 2 then (Err(WrongArity), args)
        else
          var (left, args1) := Compiled(reg, clock, es[0], args);
          if left.Err? then (left, args1)
          else
            var (right, args2) := Compiled(reg, clock, es[1], args1);
            if right.Err? then (right, args2)
            else (Ok(BinarySql(binary.value, left.value, right.value)), args2)
      else if fn.In? then
        if |es| != 2 then (Err(WrongArity), args)
        else
          var (needle, args1) := Compiled(reg, clock, es[0], args);
          if needle.Err? then (needle, args1) else HaystackCompiled(reg, needle.value, es[1], args1)
      else if fn.OtherFn? then (Err(UnsupportedConstruct), args)
      else if |es| != 1 then (Err(WrongArity), args)
      else if fn.TimestampFn? then TimestampCompiled(clock, es[0], args)
      else if fn.SemVerFn? && es[0].Literal? then VersionLiteralCompiled(es[0].value, args)
      else
        var (inner, args1) := Compiled(reg, clock, es[0], args);
        if inner.Err? then (inner, args1)
        else (Ok(if fn.Not? then SNot(inner.value) else SNormalize(inner.value)), args1)
  }

  // ---- The compiler ----

  class Compiler {
    const reg: Registry
    const clock: Clock
    var args: seq<Arg>

    constructor (reg: Registry, clock: Clock)
      ensures this.reg == reg && this.clock == clock && args == []
    {
      this.reg, this.clock, args := reg, clock, [];
    }

    method Placeholder(arg: Arg) returns (at: nat)
      modifies this
      ensures args == old(args) + [arg] && at == |args|
    {
      args := args + [arg];
      at := |args|;
    }

    method Compile(e: Expr) returns (r: Result<Sql, CompileError>)
      modifies this
      ensures (r, args) == Compiled(reg, clock, e, old(args))
      decreases e, 2
    {
      match e
      case Call(_, _) => r := CompileCall(e);
      case Ident(name) => r := CompileIdent(name);
      case Literal(v) => r := CompileLiteral(v);
      case _ => r := Err(UnsupportedConstruct);
    }

    method CompileCall(call: Expr) returns (r: Result<Sql, CompileError>)
      requires call.Call?
      modifies this
      ensures (r, args) == Compiled(reg, clock, call, old(args))
      decreases call, 1
    {
      var es := call.args;
      match call.fn
      case And => r := CompileBinary(call, BAnd);
      case Or => r := CompileBinary(call, BOr);
      case Compare(c) => r := CompileBinary(call, BCompare(c));
      case Not =>
        if |es| != 1 { return Err(WrongArity); }
        var inner := Compile(es[0]);
        if inner.Err? { return inner; }
        r := Ok(SNot(inner.value));
      case In =>
        if |es| != 2 { return Err(WrongArity); }
        var needle := Compile(es[0]);
        if needle.Err? { return needle; }
        r := CompileHaystack(needle.value, es[1]);
      case SemVerFn =>
        if |es| != 1 { return Err(WrongArity); }
        if es[0].Literal? {
          r := CompileVersionLiteral(es[0].value);
        } else {
          var inner := Compile(es[0]);
          if inner.Err? { return inner; }
          r := Ok(SNormalize(inner.value));
        }
      case TimestampFn =>
        if |es| != 1 { return Err(WrongArity); }
        r := CompileTimestamp(es[0]);
      case OtherFn(_) => r := Err(UnsupportedConstruct);
    }

    method CompileBinary(call: Expr, op: Binary) returns (r: Result<Sql, CompileError>)
      requires call.Call? && BinaryOf(call.fn) == Some(op)
      modifies this
      ensures (r, args) == Compiled(reg, clock, call, old(args))
      decreases call, 0
    {
      if |call.args| != 2 { return Err(WrongArity); }
      var left := Compile(call.args[0]);
      if left.Err? { return left; }
      var right := Compile(call.args[1]);
      if right.Err? { return right; }
      r := Ok(BinarySql(op, left.value, right.value));
    }

    method CompileHaystack(needle: Sql, e: Expr) returns (r: Result<Sql, CompileError>)
      modifies this
      ensures (r, args) == HaystackCompiled(reg, needle, e, old(args))
    {
      match e
      case ListOf(elems) =>
        var ss := LiteralStringList(elems);
        if ss.Err? { return Err(ss.error); }
        var at := Placeholder(Strings(ss.value));
        r := Ok(SAnyOf(needle, at));
      case Ident(name) =>
        if name !in reg { return Err(UnknownAttribute(name)); }
        if !reg[name].kind.StringSetAttr? { return Err(NotAStringSet(name)); }
        var at := Placeholder(Scalar(StrVal(name)));
        r := Ok(SContains(at, needle));
      case _ => r := Err(UnsupportedConstruct);
    }

    method LiteralStringList(elems: seq<Expr>) returns (r: Result<seq<string>, CompileError>)
      ensures r == LiteralStrings(elems)
    {
      var out: seq<string> := [];
      for i := 0 to |elems|
        invariant LiteralStrings(elems[..i]) == Ok(out)
      {
        assert elems[..i + 1][..i] == elems[..i];
        if !elems[i].Literal? || !elems[i].value.StrVal? {
          FirstComplaint(elems, i + 1);
          return Err(UnsupportedConstruct);
        }
        out := out + [elems[i].value.s];
      }
      assert elems[..|elems|] == elems;
      r := Ok(out);
    }

    method CompileIdent(name: string) returns (r: Result<Sql, CompileError>)
      modifies this
      ensures (r, args) == IdentCompiled(reg, name, old(args))
    {
      if name !in reg { return Err(UnknownAttribute(name)); }
      match reg[name].source
      case EventAggregate(event, days) =>
        var first := Placeholder(Scalar(StrVal(event)));
        var second := Placeholder(Scalar(IntVal(days)));
        assert args == old(args) + [Scalar(StrVal(event)), Scalar(IntVal(days))];
        r := Ok(SAggregate(first, second));
      case _ =>
        var at := Placeholder(Scalar(StrVal(name)));
        match reg[name].kind
        case StringSetAttr => r := Err(StringSetOutsideIn(name));
        case UnknownAttr => r := Err(UnknownType(name));
        case kind => r := Ok(SColumn(at, kind));
    }

    method CompileTimestamp(e: Expr) returns (r: Result<Sql, CompileError>)
      modifies this
      ensures (r, args) == TimestampCompiled(clock, e, old(args))
    {
      if !e.Literal? { return Err(UnsupportedConstruct); }
      if !e.value.StrVal? { return Err(TimestampNotString); }
      var t := clock(e.value.s);
      if t.None? { return Err(NotRfc3339(e.value.s)); }
      var at := Placeholder(Scalar(TimeVal(t.value)));
      r := Ok(SParam(at));
    }

    method CompileVersionLiteral(v: Value) returns (r: Result<Sql, CompileError>)
      modifies this
      ensures (r, args) == VersionLiteralCompiled(v, old(args))
    {
      if !v.StrVal? { return Err(VersionNotString); }
      var n := SemVer.NormalizeSemVer(v.s);
      if n.None? { return Err(NotAVersion(v.s)); }
      var at := Placeholder(Scalar(StrVal(n.value)));
      r := Ok(SParam(at));
    }

    method CompileLiteral(v: Value) returns (r: Result<Sql, CompileError>)
      modifies this
      ensures (r, args) == LiteralCompiled(v, old(args))
    {
      if v.SetVal? || v.OtherVal? { return Err(UnsupportedConstruct); }
      var at := Placeholder(Scalar(v));
      r := Ok(SParam(at));
    }
  }

  /** The condition and its arguments, or an error and nothing. */
  method CompileToSQL(reg: Registry, clock: Clock, e: Expr) returns (r: Result<(Sql, seq<Arg>), CompileError>)
    ensures var (sql, args) := Compiled(reg, clock, e, []);
            r == if sql.Ok? then Ok((sql.value, args)) else Err(sql.error)
  {
    var c := new Compiler(reg, clock);
    var sql := c.Compile(e);
    if sql.Err? { return Err(sql.error); }
    r := Ok((sql.value, c.args));
  }

  lemma {:induction false} FirstComplaint(elems: seq<Expr>, k: nat)
    requires k <= |elems| && LiteralStrings(elems[..k]).Err?
    ensures LiteralStrings(elems) == Err(UnsupportedConstruct)
    decreases |elems| - k
  {
    if k < |elems| {
      assert elems[..k + 1][..k] == elems[..k];
      FirstComplaint(elems, k + 1);
    } else {
      assert elems[..k] == elems;
      OneComplaint(elems);
    }
  }

  lemma {:induction false} OneComplaint(elems: seq<Expr>)
    ensures LiteralStrings(elems).Err? ==> LiteralStrings(elems).error == UnsupportedConstruct
  {
    if elems != [] {
      OneComplaint(elems[..|elems| - 1]);
    }
  }

  // ---- Placeholders ----

  /** Every placeholder of `sql` is among the first `n`. */
  predicate Within(sql: Sql, n: nat) {
    match sql
    case SAnd(l, r) => Within(l, n) && Within(r, n)
    case SOr(l, r) => Within(l, n) && Within(r, n)
    case SNot(i) => Within(i, n)
    case SCompare(_, l, r) => Within(l, n) && Within(r, n)
    case SParam(at) => 1 <= at <= n
    case SColumn(at, _) => 1 <= at <= n
    case SAggregate(e, d) => 1 <= e <= n && 1 <= d <= n
    case SNormalize(i) => Within(i, n)
    case SAnyOf(needle, at) => Within(needle, n) && 1 <= at <= n
    case SContains(at, needle) => Within(needle, n) && 1 <= at <= n
  }

  lemma {:induction false} WithinMore(sql: Sql, n: nat, m: nat)
    requires Within(sql, n) && n <= m
    ensures Within(sql, m)
  {
    match sql
    case SAnd(l, r) => WithinMore(l, n, m); WithinMore(r, n, m);
    case SOr(l, r) => WithinMore(l, n, m); WithinMore(r, n, m);
    case SNot(i) => WithinMore(i, n, m);
    case SCompare(_, l, r) => WithinMore(l, n, m); WithinMore(r, n, m);
    case SNormalize(i) => WithinMore(i, n, m);
    case SAnyOf(needle, _) => WithinMore(needle, n, m);
    case SContains(_, needle) => WithinMore(needle, n, m);
    case _ =>
  }

  /** Compiling only appends arguments, and issues no placeholder without one. */
  lemma {:induction false} CompilingAppends(reg: Registry, clock: Clock, e: Expr, args: seq<Arg>)
    ensures var (r, args') := Compiled(reg, clock, e, args); args <= args' && (r.Ok? ==> Within(r.value, |args'|))
    decreases e
  {
    if e.Call? && e.args != [] {
      CompilingAppends(reg, clock, e.args[0], args);
      if |e.args| == 2 {
        CompilingAppends(reg, clock, e.args[1], Compiled(reg, clock, e.args[0], args).1);
        PairAppends(reg, clock, e, args);
      }
    }
  }

  ghost predicate Appends(reg: Registry, clock: Clock, e: Expr, args: seq<Arg>) {
    var (r, args') := Compiled(reg, clock, e, args);
    args <= args' && (r.Ok? ==> Within(r.value, |args'|))
  }

  lemma {:induction false} PairAppends(reg: Registry, clock: Clock, e: Expr, args: seq<Arg>)
    requires e.Call? && |e.args| == 2 && Appends(reg, clock, e.args[0], args)
    requires Appends(reg, clock, e.args[1], Compiled(reg, clock, e.args[0], args).1)
    ensures Appends(reg, clock, e, args)
  {
    var (first, args1) := Compiled(reg, clock, e.args[0], args);
    var (second, args2) := Compiled(reg, clock, e.args[1], args1);
    if first.Ok? {
      WithinMore(first.value, |args1|, |args2|);
      WithinMore(first.value, |args1|, |args1| + 1);
    }
  }

  /** A condition means the same on every row however many arguments are appended after it was compiled. */
  lemma {:induction false} MeaningSurvives(sql: Sql, args: seq<Arg>, more: seq<Arg>, row: Row)
    requires Within(sql, |args|)
    ensures SqlEval(sql, args + more, row) == SqlEval(sql, args, row)
  {
    match sql
    case SAnd(l, r) => MeaningSurvives(l, args, more, row); MeaningSurvives(r, args, more, row);
    case SOr(l, r) => MeaningSurvives(l, args, more, row); MeaningSurvives(r, args, more, row);
    case SNot(i) => MeaningSurvives(i, args, more, row);
    case SCompare(_, l, r) => MeaningSurvives(l, args, more, row); MeaningSurvives(r, args, more, row);
    case SNormalize(i) => MeaningSurvives(i, args, more, row);
    case SAnyOf(needle, _) => MeaningSurvives(needle, args, more, row);
    case SContains(_, needle) => MeaningSurvives(needle, args, more, row);
    case _ =>
  }
}
