/** Logical expressions and their three-valued evaluation, columns and schemas. */
module Expressions {
  import opened Values

  // ---------------------------------------------------------------- columns

  /** `refID` 0 marks a reference that is not attached to the plan. */
  datatype TableRef = TableRef(refID: nat, alias: string)
  datatype Origin = Derived | From(ref: TableRef)
  datatype Column = Column(name: string, ctype: Type, origin: Origin)
  type Schema = seq<Column>

  function Lower(c: char): char { if 'A' <= c <= 'Z' then c - 'A' + 'a' else c }

  predicate EqualFold(s: string, t: string) {
    |s| == |t| && forall i :: 0 <= i < |s| ==> Lower(s[i]) == Lower(t[i])
  }

  predicate SameRef(t: TableRef, u: TableRef) {
    t.refID == u.refID || ((t.refID == 0 || u.refID == 0) && t.alias == u.alias)
  }

  predicate SameOrigin(o: Origin, p: Origin) {
    match (o, p)
    case (Derived, Derived) => true
    case (From(t), From(u)) => SameRef(t, u)
    case _ => false
  }

  predicate SameColumn(c: Column, d: Column) {
    EqualFold(c.name, d.name) && c.ctype == d.ctype && SameOrigin(c.origin, d.origin)
  }

  predicate Contains(s: Schema, c: Column) { exists i :: 0 <= i < |s| && SameColumn(s[i], c) }

  /** The first column of the schema equal to `c`: the offset a column reference is bound to. */
  function Offset(s: Schema, c: Column): (i: nat)
    ensures i <= |s|
    ensures i < |s| ==> SameColumn(s[i], c)
    ensures forall j :: 0 <= j < i ==> !SameColumn(s[j], c)
  {
    if s == [] then 0
    else if SameColumn(s[0], c) then 0
    else
      assert forall j :: 0 < j < |s| ==> s[j] == s[1..][j - 1];
      1 + Offset(s[1..], c)
  }

  // ---------------------------------------------------------------- expressions

  datatype Comparison = Equal | NotEqual | GreaterThan | LessThan | GreaterThanOrEqual | LessThanOrEqual
  datatype Arithmetic = Add | Sub | Mult | Div | Mod

  datatype Expr =
    | Col(col: Column)
    | Const(val: Value)
    | Cmp(op: Comparison, left: Expr, right: Expr)
    | And(left: Expr, right: Expr)
    | Or(left: Expr, right: Expr)
    | Not(child: Expr)
    | NullCheck(negated: bool, child: Expr)
    | Arith(aop: Arithmetic, left: Expr, right: Expr)
    | Concat(left: Expr, right: Expr)
    | Like(left: Expr, right: Expr)

  /** Does a string match a pattern? */
  type Matcher = (string, string) -> bool

  function Bool(b: bool): Value { Int(if b then 1 else 0) }

  predicate IsTrue(v: Value) { v.Int? && v.i != 0 }
  predicate IsFalse(v: Value) { v.Int? && v.i == 0 }

  function EvalComparison(op: Comparison, v: Value, w: Value): Value {
    if IsNull(v) || IsNull(w) || TypeOf(v) != TypeOf(w) then NullInt
    else
      var c := Compare(v, w);
      Bool(match op
           case Equal => c == 0
           case NotEqual => c != 0
           case GreaterThan => c > 0
           case LessThan => c < 0
           case GreaterThanOrEqual => c >= 0
           case LessThanOrEqual => c <= 0)
  }

  function EvalAnd(v: Value, w: Value): Value {
    if IsTrue(v) && IsTrue(w) then Bool(true)
    else if IsFalse(v) || IsFalse(w) then Bool(false)
    else NullInt
  }

  function EvalOr(v: Value, w: Value): Value {
    if IsTrue(v) || IsTrue(w) then Bool(true)
    else if IsFalse(v) && IsFalse(w) then Bool(false)
    else NullInt
  }

  function EvalNot(v: Value): Value {
    if IsNull(v) then NullInt else Bool(!IsTrue(v))
  }

  function EvalArithmetic(op: Arithmetic, v: Value, w: Value): Value {
    if !v.Int? || !w.Int? then NullInt
    else
      match op
      case Add => Int(Wrap(v.i + w.i))
      case Sub => Int(Wrap(v.i - w.i))
      case Mult => Int(Wrap(v.i * w.i))
      case Div => if w.i == 0 then NullInt else Int(Wrap(Quotient(v.i, w.i)))
      case Mod => if w.i == 0 then NullInt else Int(Wrap(v.i - Quotient(v.i, w.i) * w.i))
  }

  function EvalConcat(v: Value, w: Value): Value {
    if v.Str? && w.Str? then Str(v.s + w.s) else NullStr
  }

  function EvalLike(like: Matcher, v: Value, w: Value): Value {
    if v.Str? && w.Str? then Bool(like(v.s, w.s)) else NullInt
  }

  /** Evaluation on a row of a schema.  A column is read at the offset it is bound to. */
  function Eval(e: Expr, s: Schema, row: Row, like: Matcher): Value {
    match e
    case Col(c) => if Offset(s, c) < |row| then row[Offset(s, c)] else NullInt
    case Const(v) => v
    case Cmp(op, a, b) => EvalComparison(op, Eval(a, s, row, like), Eval(b, s, row, like))
    case And(a, b) => EvalAnd(Eval(a, s, row, like), Eval(b, s, row, like))
    case Or(a, b) => EvalOr(Eval(a, s, row, like), Eval(b, s, row, like))
    case Not(a) => EvalNot(Eval(a, s, row, like))
    case NullCheck(negated, a) => Bool(IsNull(Eval(a, s, row, like)) != negated)
    case Arith(op, a, b) => EvalArithmetic(op, Eval(a, s, row, like), Eval(b, s, row, like))
    case Concat(a, b) => EvalConcat(Eval(a, s, row, like), Eval(b, s, row, like))
    case Like(a, b) => EvalLike(like, Eval(a, s, row, like), Eval(b, s, row, like))
  }

  /** A filter keeps the rows on which its predicate is TRUE. */
  predicate Holds(e: Expr, s: Schema, row: Row, like: Matcher) { IsTrue(Eval(e, s, row, like)) }

  // ---------------------------------------------------------------- what the operators mean

  /** Integers are compared by their values ... */
  lemma IntComparison(op: Comparison, a: int64, b: int64)
    ensures EvalComparison(op, Int(a), Int(b)) == Int(if (match op
                                                         case Equal => a == b
                                                         case NotEqual => a != b
                                                         case GreaterThan => a > b
                                                         case LessThan => a < b
                                                         case GreaterThanOrEqual => a >= b
                                                         case LessThanOrEqual => a <= b) then 1 else 0)
  {
  }

  /** ... strings by their first difference, and with NULL or across types the result is NULL. */
  lemma StringComparison(op: Comparison, s: string, t: string)
    ensures EvalComparison(op, Str(s), Str(t)) == Int(if (match op
                                                         case Equal => s == t
                                                         case NotEqual => s != t
                                                         case GreaterThan => SmallerString(t, s)
                                                         case LessThan => SmallerString(s, t)
                                                         case GreaterThanOrEqual => !SmallerString(s, t)
                                                         case LessThanOrEqual => !SmallerString(t, s)) then 1 else 0)
  {
    CompareIff(Str(s), Str(t));
  }

  lemma UnknownComparison(op: Comparison, v: Value, w: Value)
    requires !(v.Int? && w.Int?) && !(v.Str? && w.Str?)
    ensures EvalComparison(op, v, w) == NullInt
  {
  }

  /** The truth tables of the connectives: 0 is FALSE, every other integer TRUE, and NULL unknown. */
  lemma TruthTables(v: Value, w: Value)
    requires (v.Int? || v.NullInt?) && (w.Int? || w.NullInt?)
    ensures EvalAnd(v, w) == if v == Int(0) || w == Int(0) then Int(0) else if v.Int? && w.Int? then Int(1) else NullInt
    ensures EvalOr(v, w) == if (v.Int? && v.i != 0) || (w.Int? && w.i != 0) then Int(1)
                            else if v == w == Int(0) then Int(0) else NullInt
    ensures EvalNot(v) == if v.NullInt? then NullInt else if v.i == 0 then Int(1) else Int(0)
  {
  }

  lemma StringOperators(like: Matcher, v: Value, w: Value)
    ensures EvalConcat(v, w) == if v.Str? && w.Str? then Str(v.s + w.s) else NullStr
    ensures EvalLike(like, v, w) == if !v.Str? || !w.Str? then NullInt else if like(v.s, w.s) then Int(1) else Int(0)
  {
  }

  /** A column is read at the first place where the schema has it. */
  lemma ColumnIsRead(c: Column, s: Schema, row: Row, like: Matcher, i: nat)
    requires i < |s| == |row| && SameColumn(s[i], c) && forall j :: 0 <= j < i ==> !SameColumn(s[j], c)
    ensures Eval(Col(c), s, row, like) == row[i]
  {
    assert Offset(s, c) == i;
  }

  lemma NullTest(negated: bool, e: Expr, s: Schema, row: Row, like: Matcher)
    ensures var v := Eval(e, s, row, like);
            Eval(NullCheck(negated, e), s, row, like)
              == if (v.NullInt? || v.NullStr?) == negated then Int(0) else Int(1)
  {
  }

  /** Sums, differences and products wrap around at 64 bits ... */
  lemma IntSums(a: int64, b: int64)
    ensures SameModulo64(EvalArithmetic(Add, Int(a), Int(b)), a + b)
    ensures SameModulo64(EvalArithmetic(Sub, Int(a), Int(b)), a - b)
  {
  }

  lemma IntProduct(a: int64, b: int64)
    ensures SameModulo64(EvalArithmetic(Mult, Int(a), Int(b)), a * b)
  {
    Congruent(a * b);
  }

  lemma Congruent(x: int)
    ensures SameModulo64(Int(Wrap(x)), x)
  {
    assert (x - Wrap(x)) % 0x1_0000_0000_0000_0000 == 0;
    NegatedMultiple(x - Wrap(x));
  }

  lemma NegatedMultiple(d: int)
    requires d % 0x1_0000_0000_0000_0000 == 0
    ensures -d % 0x1_0000_0000_0000_0000 == 0
  {
  }

  lemma IntDivisionByZero(a: int64)
    ensures EvalArithmetic(Div, Int(a), Int(0)) == EvalArithmetic(Mod, Int(a), Int(0)) == NullInt
  {
  }

  /** ... the quotient is truncated toward zero, and the remainder has the sign of the dividend. */
  lemma IntDivision(a: int64, b: int64)
    requires b != 0
    ensures IsQuotient(a, b, EvalArithmetic(Div, Int(a), Int(b)), EvalArithmetic(Mod, Int(a), Int(b)))
  {
    var q := Quotient(a, b);
    QuotientDivides(a, b);
    assert IsDivision(a, b, q, a - q * b);
    assert SameModulo64(EvalArithmetic(Div, Int(a), Int(b)), q);
  }

  predicate SameModulo64(v: Value, x: int) { v.Int? && (v.i - x) % 0x1_0000_0000_0000_0000 == 0 }

  predicate IsDivision(a: int, b: int, q: int, r: int) {
    a == q * b + r && -Abs(b) < r < Abs(b) && (r != 0 ==> (r < 0 <==> a < 0))
  }

  ghost predicate IsQuotient(a: int, b: int, v: Value, w: Value) {
    w.Int? && exists q :: IsDivision(a, b, q, w.i) && SameModulo64(v, q)
  }

  function Abs(x: int): int { if x < 0 then -x else x }

  lemma QuotientDivides(a: int, b: int)
    requires b != 0
    ensures IsDivision(a, b, Quotient(a, b), a - Quotient(a, b) * b)
  {
    var m, d := Abs(a), Abs(b);
    var k := m / d;
    assert m == k * d + m % d;
    if a < 0 {
      if b < 0 { assert k * b == -(k * d); } else { assert -k * b == -(k * d); }
    } else if b < 0 {
      assert -k * b == k * d;
    }
  }

  // ---------------------------------------------------------------- the test of the filter executor

  /** The executor keeps a row when the integer it gets is 1. */
  predicate PassesFilter(v: Value) { v == Int(1) }

  /** The executor's test and TRUE differ on the integers other than 0 and 1, and only there. */
  lemma FilterTestIff(v: Value)
    ensures (PassesFilter(v) <==> IsTrue(v)) <==> !(v.Int? && v.i != 0 && v.i != 1)
  {
  }

  predicate IsCondition(e: Expr) { e.Cmp? || e.And? || e.Or? || e.Not? || e.NullCheck? || e.Like? }

  /** On conditions the executor keeps exactly the rows on which they are TRUE ... */
  lemma ConditionsPass(e: Expr, s: Schema, row: Row, like: Matcher)
    requires IsCondition(e)
    ensures PassesFilter(Eval(e, s, row, like)) <==> Holds(e, s, row, like)
  {
  }

  /** ... while for bare values splitting a conjunction changes what it keeps. */
  lemma BareValueIsDropped(s: Schema, row: Row, like: Matcher)
    ensures var e := And(Const(Int(2)), Const(Int(1)));
            && PassesFilter(Eval(e, s, row, like))
            && !PassesFilter(Eval(SplitPredicate(e)[0], s, row, like))
  {
    var e := And(Const(Int(2)), Const(Int(1)));
    assert SplitPredicate(e) == [Const(Int(2)), Const(Int(1))];
  }

  // ---------------------------------------------------------------- referenced columns

  /** The columns an expression reports; null checks and concatenations report none. */
  function Referenced(e: Expr): seq<Column> {
    match e
    case Col(c) => [c]
    case Const(_) => []
    case Cmp(_, a, b) => Referenced(a) + Referenced(b)
    case And(a, b) => Referenced(a) + Referenced(b)
    case Or(a, b) => Referenced(a) + Referenced(b)
    case Not(a) => Referenced(a)
    case NullCheck(_, _) => []
    case Arith(_, a, b) => Referenced(a) + Referenced(b)
    case Concat(_, _) => []
    case Like(a, b) => Referenced(a) + Referenced(b)
  }

  /** The columns an expression reads. */
  function Reads(e: Expr): set<Column> {
    match e
    case Col(c) => {c}
    case Const(_) => {}
    case Cmp(_, a, b) => Reads(a) + Reads(b)
    case And(a, b) => Reads(a) + Reads(b)
    case Or(a, b) => Reads(a) + Reads(b)
    case Not(a) => Reads(a)
    case NullCheck(_, a) => Reads(a)
    case Arith(_, a, b) => Reads(a) + Reads(b)
    case Concat(a, b) => Reads(a) + Reads(b)
    case Like(a, b) => Reads(a) + Reads(b)
  }

  predicate Covers(s: Schema, cols: set<Column>) { forall c :: c in cols ==> Contains(s, c) }

  /** Only the reported columns are looked at. */
  predicate CoversExpr(s: Schema, e: Expr) {
    var cols := Referenced(e);
    forall i :: 0 <= i < |cols| ==> Contains(s, cols[i])
  }

  // ---------------------------------------------------------------- conjunctions

  /** Flattens nested ANDs, left to right. */
  function SplitPredicate(e: Expr): (ps: seq<Expr>)
    ensures ps != [] && forall i :: 0 <= i < |ps| ==> !ps[i].And?
  {
    if e.And? then SplitPredicate(e.left) + SplitPredicate(e.right) else [e]
  }

  function Conjunction(ps: seq<Expr>): Expr
    requires ps != []
  {
    if |ps| == 1 then ps[0] else And(Conjunction(ps[..|ps| - 1]), ps[|ps| - 1])
  }

  method MergePredicates(ps: seq<Expr>) returns (root: Expr)
    requires ps != []
    ensures root == Conjunction(ps)
  {
    root := ps[0];
    assert ps[..1] == [ps[0]];
    for i := 1 to |ps|
      invariant root == Conjunction(ps[..i])
    {
      assert ps[..i + 1][..i] == ps[..i];
      root := And(root, ps[i]);
    }
    assert ps[..|ps|] == ps;
  }

  predicate AllHold(ps: seq<Expr>, s: Schema, row: Row, like: Matcher) {
    forall i :: 0 <= i < |ps| ==> Holds(ps[i], s, row, like)
  }

  lemma AllHoldAppend(ps: seq<Expr>, qs: seq<Expr>, s: Schema, row: Row, like: Matcher)
    ensures AllHold(ps + qs, s, row, like) <==> AllHold(ps, s, row, like) && AllHold(qs, s, row, like)
  {
    if AllHold(ps + qs, s, row, like) {
      forall i | 0 <= i < |ps| ensures Holds(ps[i], s, row, like) { assert (ps + qs)[i] == ps[i]; }
      forall i | 0 <= i < |qs| ensures Holds(qs[i], s, row, like) { assert (ps + qs)[|ps| + i] == qs[i]; }
    }
  }

  /** Splitting and merging keep the rows on which a predicate is TRUE. */
  lemma {:induction false} SplitHolds(e: Expr, s: Schema, row: Row, like: Matcher)
    ensures Holds(e, s, row, like) <==> AllHold(SplitPredicate(e), s, row, like)
  {
    if e.And? {
      SplitHolds(e.left, s, row, like);
      SplitHolds(e.right, s, row, like);
      AllHoldAppend(SplitPredicate(e.left), SplitPredicate(e.right), s, row, like);
    } else {
      assert SplitPredicate(e)[0] == e;
    }
  }

  lemma {:induction false} MergeHolds(ps: seq<Expr>, s: Schema, row: Row, like: Matcher)
    requires ps != []
    ensures Holds(Conjunction(ps), s, row, like) <==> AllHold(ps, s, row, like)
  {
    if |ps| > 1 {
      var n := |ps| - 1;
      MergeHolds(ps[..n], s, row, like);
      AllHoldAppend(ps[..n], [ps[n]], s, row, like);
      assert ps[..n] + [ps[n]] == ps;
      assert [ps[n]][0] == ps[n];
    } else {
      assert ps == [ps[0]];
    }
  }

  /** Merging and splitting again gives the conditions back. */
  lemma {:induction false} SplitMerged(ps: seq<Expr>)
    requires ps != [] && forall i :: 0 <= i < |ps| ==> !ps[i].And?
    ensures SplitPredicate(Conjunction(ps)) == ps
  {
    if |ps| > 1 { SplitMerged(ps[..|ps| - 1]); }
  }
}
