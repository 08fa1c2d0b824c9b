/**
 What a comparison means, in plain values: that of an attribute with a literal, and of two literals, decides
 row by row and in the database by which of the two comes first.
 */
module Comparisons {
  import opened Wrappers
  import opened Predicates
  import opened SqlCompile
  import opened Agreement
  import W = WindowMeaning
  import opened Ordering

  /** How two values stand to each other. */
  datatype Standing = Earlier | Alike | Later

  /** What each operator asks of it. */
  predicate Asks(c: Comparison, s: Standing) {
    match c
    case Eq => s.Alike?
    case Ne => !s.Alike?
    case Lt => s.Earlier?
    case Le => !s.Later?
    case Gt => s.Later?
    case Ge => !s.Earlier?
  }

  /** The texts are the same up to `i`, where the first has ended or has the smaller character. */
  predicate BreaksAt(x: string, y: string, i: nat) {
    && i <= |x| && i < |y| && x[..i] == y[..i]
    && (i == |x| || x[i] < y[i])
  }

  ghost predicate ComesFirst(x: string, y: string) {
    exists i: nat :: BreaksAt(x, y, i)
  }

  /** Numbers and instants by size, false before true, texts by the first place they differ. */
  ghost predicate Stand(a: Value, b: Value, s: Standing) {
    match (a, b)
    case (BoolVal(x), BoolVal(y)) => s == if x == y then Alike else if y then Earlier else Later
    case (NumVal(x), NumVal(y)) => s == if x < y then Earlier else if x == y then Alike else Later
    case (IntVal(x), IntVal(y)) => s == if x < y then Earlier else if x == y then Alike else Later
    case (UintVal(x), UintVal(y)) => s == if x < y then Earlier else if x == y then Alike else Later
    case (TimeVal(x), TimeVal(y)) => s == if x < y then Earlier else if x == y then Alike else Later
    case (StrVal(x), StrVal(y)) => if s.Alike? then x == y else if s.Earlier? then ComesFirst(x, y) else ComesFirst(y, x)
    case _ => false
  }

  // ---- Texts ----

  lemma {:induction false} BreakMeansLess(x: string, y: string, i: nat)
    requires BreaksAt(x, y, i)
    ensures StringLe(x, y) && x != y
  {
    if i > 0 {
      assert x[0] == x[..i][0] == y[..i][0] == y[0];
      assert x[1..][..i - 1] == x[..i][1..] && y[1..][..i - 1] == y[..i][1..];
      BreakMeansLess(x[1..], y[1..], i - 1);
    }
  }

  lemma {:induction false} LessHasABreak(x: string, y: string)
    requires StringLe(x, y) && x != y
    ensures ComesFirst(x, y)
  {
    if x == [] || x[0] != y[0] {
      assert BreaksAt(x, y, 0);
    } else {
      assert x == [x[0]] + x[1..] && y == [y[0]] + y[1..];
      LessHasABreak(x[1..], y[1..]);
      var i: nat :| BreaksAt(x[1..], y[1..], i);
      assert x[..i + 1] == [x[0]] + x[1..][..i] && y[..i + 1] == [y[0]] + y[1..][..i];
      assert BreaksAt(x, y, i + 1);
    }
  }

  lemma {:induction false} LessIff(x: string, y: string)
    ensures StringLt(x, y) <==> ComesFirst(x, y)
  {
    if StringLt(x, y) { LessHasABreak(x, y); }
    if ComesFirst(x, y) {
      var i: nat :| BreaksAt(x, y, i);
      BreakMeansLess(x, y, i);
    }
  }

  lemma {:induction false} TextsAsk(c: Comparison, x: string, y: string, s: Standing)
    requires Stand(StrVal(x), StrVal(y), s)
    ensures Holds(c, StrVal(x), StrVal(y)) <==> Asks(c, s)
  {
    LessIff(x, y);
    LessIff(y, x);
    if StringLt(x, y) && StringLt(y, x) { StringLeAntisymmetric(x, y); }
  }

  lemma {:induction false} HoldsIffAsks(c: Comparison, a: Value, b: Value, s: Standing)
    requires Stand(a, b, s)
    ensures Holds(c, a, b) <==> Asks(c, s)
  {
    if a.StrVal? { TextsAsk(c, a.s, b.s, s); }
  }

  /** Two values of one ordered type stand in one way to each other. */
  lemma {:induction false} StandingIsUnique(t: Ty, a: Value, b: Value) returns (s: Standing)
    requires Ordered(t) && HasType(a, t) && HasType(b, t)
    ensures Stand(a, b, s) && forall other :: Stand(a, b, other) ==> other == s
  {
    if t.StrTy? {
      StringLeTotal(a.s, b.s);
      LessIff(a.s, b.s);
      LessIff(b.s, a.s);
      if StringLt(a.s, b.s) && StringLt(b.s, a.s) { StringLeAntisymmetric(a.s, b.s); }
      s := if a.s == b.s then Alike else if StringLe(a.s, b.s) then Earlier else Later;
    } else {
      s :| s in {Earlier, Alike, Later} && Stand(a, b, s);
    }
  }

  // ---- Through both evaluations ----

  /** The predicate is accepted, and both evaluations give it the verdict `b`. */
  ghost predicate Decides(reg: Registry, clock: Clock, row: Row, e: Expr, more: seq<Arg>, b: bool) {
    && Accepted(reg, clock, e)
    && RowWise(reg, clock, row, e) == BoolOf(b) && SetWise(reg, clock, row, e, more) == Truth(b)
  }

  /** A stored attribute, with the type it is registered with, compared with a literal of that type. */
  ghost predicate Comparable(reg: Registry, row: Row, name: string, v: Value, t: Ty) {
    && WellTyped(reg, row) && name in reg && !reg[name].source.EventAggregate? && name in row.attributes
    && CelType(reg[name].kind) == Some(t) && HasType(v, t) && Ordered(t)
  }

  lemma {:induction false} AttributeTree(reg: Registry, clock: Clock, row: Row, c: Comparison, name: string, v: Value, t: Ty)
    requires Comparable(reg, row, name, v, t)
    ensures Accepted(reg, clock, Call(Compare(c), [Ident(name), Literal(v)])) && Plain(Call(Compare(c), [Ident(name), Literal(v)]))
  {
    var es := [Ident(name), Literal(v)];
    assert TypesOf(reg, es) == [Some(t), Some(t)];
    BinaryCompiled(reg, clock, Call(Compare(c), es), []);
  }

  lemma {:induction false} AttributeRowWise(reg: Registry, clock: Clock, row: Row, c: Comparison, name: string, v: Value)
    requires name in reg && !reg[name].source.EventAggregate? && name in row.attributes
    ensures RowWise(reg, clock, row, Call(Compare(c), [Ident(name), Literal(v)])) == BoolOf(Holds(c, row.attributes[name], v))
  {
    var env, es := Environment(reg, row), [Ident(name), Literal(v)];
    assert Outcomes(clock, env, es) == [Value(row.attributes[name]), Value(v)];
  }

  /** An attribute compared with a literal: both evaluations decide by how the stored value stands to it. */
  lemma {:induction false} AttributesCompare(reg: Registry, clock: Clock, row: Row, c: Comparison, name: string, v: Value, t: Ty, s: Standing, more: seq<Arg>)
    requires Comparable(reg, row, name, v, t) && Stand(row.attributes[name], v, s)
    ensures Decides(reg, clock, row, Call(Compare(c), [Ident(name), Literal(v)]), more, Asks(c, s))
  {
    AttributeTree(reg, clock, row, c, name, v, t);
    AttributeRowWise(reg, clock, row, c, name, v);
    HoldsIffAsks(c, row.attributes[name], v, s);
    PlainPredicatesAgree(reg, clock, row, Call(Compare(c), [Ident(name), Literal(v)]), more);
  }

  /** Of an aggregate the number of occurrences of its event within its window is compared. */
  lemma {:induction false} AggregatesCompare(reg: Registry, clock: Clock, row: Row, c: Comparison, name: string, x: real, s: Standing, more: seq<Arg>)
    requires WellTyped(reg, row) && name in reg && reg[name].source.EventAggregate?
    requires var counted := W.Occurrences(row.rollup, reg[name].source.event, reg[name].source.windowDays, row.today);
             Stand(NumVal(|counted| as real), NumVal(x), s)
    ensures Decides(reg, clock, row, Call(Compare(c), [Ident(name), Literal(NumVal(x))]), more, Asks(c, s))
  {
    var env, es := Environment(reg, row), [Ident(name), Literal(NumVal(x))];
    var e := Call(Compare(c), es);
    W.TheWindowCounts(row.rollup, reg[name].source.event, reg[name].source.windowDays, row.today);
    assert TypesOf(reg, es) == [Some(NumTy), Some(NumTy)];
    BinaryCompiled(reg, clock, e, []);
    assert Outcomes(clock, env, es) == [Value(env[name]), Value(NumVal(x))];
    HoldsIffAsks(c, env[name], NumVal(x), s);
    PlainPredicatesAgree(reg, clock, row, e, more);
  }

  /** Literals of one type, whole numbers among them. */
  lemma {:induction false} LiteralsCompare(reg: Registry, clock: Clock, row: Row, c: Comparison, a: Value, b: Value, t: Ty, s: Standing, more: seq<Arg>)
    requires WellTyped(reg, row) && Ordered(t) && HasType(a, t) && HasType(b, t) && Stand(a, b, s)
    ensures Decides(reg, clock, row, Call(Compare(c), [Literal(a), Literal(b)]), more, Asks(c, s))
  {
    var env, es := Environment(reg, row), [Literal(a), Literal(b)];
    var e := Call(Compare(c), es);
    assert TypesOf(reg, es) == [Some(t), Some(t)];
    BinaryCompiled(reg, clock, e, []);
    assert Outcomes(clock, env, es) == [Value(a), Value(b)];
    HoldsIffAsks(c, a, b, s);
    PlainPredicatesAgree(reg, clock, row, e, more);
  }

  /** An instant compared with one written out. */
  lemma {:induction false} InstantsCompare(reg: Registry, clock: Clock, row: Row, c: Comparison, name: string, text: string, s: Standing, more: seq<Arg>)
    requires clock(text).Some? && Comparable(reg, row, name, TimeVal(clock(text).value), TimeTy)
    requires Stand(row.attributes[name], TimeVal(clock(text).value), s)
    ensures Decides(reg, clock, row, Call(Compare(c), [Ident(name), Call(TimestampFn, [Literal(StrVal(text))])]), more, Asks(c, s))
  {
    var env, lit := Environment(reg, row), Call(TimestampFn, [Literal(StrVal(text))]);
    var es := [Ident(name), lit];
    assert TypesOf(reg, lit.args) == [Some(StrTy)] && TypesOf(reg, es) == [Some(TimeTy), Some(TimeTy)];
    BinaryCompiled(reg, clock, Call(Compare(c), es), []);
    assert Outcomes(clock, env, lit.args) == [Value(StrVal(text))];
    assert Outcomes(clock, env, es) == [Value(row.attributes[name]), Value(TimeVal(clock(text).value))];
    HoldsIffAsks(c, row.attributes[name], TimeVal(clock(text).value), s);
    assert Plain(lit) && Plain(Call(Compare(c), es));
    PlainPredicatesAgree(reg, clock, row, Call(Compare(c), es), more);
  }
}
