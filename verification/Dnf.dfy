/** Conversion of predicates to disjunctive normal form, over three-valued logic. */
module Dnf {
  import opened Values
  import opened Expressions

  /** A disjunction of conjunctions, or the panic on a leaf that is no condition. */
  datatype Converted = Terms(terms: seq<seq<Expr>>) | Panic

  // ---------------------------------------------------------------- the conversion

  predicate IsAtom(e: Expr) { e.Cmp? || e.NullCheck? || e.Like? }

  /** The conjunction of every left term with every right term, left-major. */
  function Product(left: seq<seq<Expr>>, right: seq<seq<Expr>>): seq<seq<Expr>> {
    if left == [] then [] else Extend(left[0], right) + Product(left[1..], right)
  }

  function Extend(l: seq<Expr>, right: seq<seq<Expr>>): seq<seq<Expr>> {
    if right == [] then [] else [l + right[0]] + Extend(l, right[1..])
  }

  function Conjoin(left: Converted, right: Converted): Converted {
    if left.Panic? || right.Panic? then Panic
    else if left.terms == [] then right
    else if right.terms == [] then left
    else Terms(Product(left.terms, right.terms))
  }

  function Disjoin(left: Converted, right: Converted): Converted {
    if left.Panic? || right.Panic? then Panic else Terms(left.terms + right.terms)
  }

  function ToDnf(e: Expr): Converted {
    match e
    case Or(a, b) => Disjoin(ToDnf(a), ToDnf(b))
    case And(a, b) => Conjoin(ToDnf(a), ToDnf(b))
    case Not(a) => NegateToDnf(a)
    case _ => if IsAtom(e) then Terms([[e]]) else Panic
  }

  function NegateToDnf(e: Expr): Converted {
    match e
    case Not(a) => ToDnf(a)
    case And(a, b) => Disjoin(NegateToDnf(a), NegateToDnf(b))
    case Or(a, b) => Conjoin(NegateToDnf(a), NegateToDnf(b))
    case _ => Terms([[Not(e)]])
  }

  // ---------------------------------------------------------------- three-valued truth

  datatype Truth = True | False | Unknown

  function TruthOf(v: Value): Truth { if IsTrue(v) then True else if IsFalse(v) then False else Unknown }

  function And3(a: Truth, b: Truth): Truth {
    if a == True && b == True then True else if a == False || b == False then False else Unknown
  }

  function Or3(a: Truth, b: Truth): Truth {
    if a == True || b == True then True else if a == False && b == False then False else Unknown
  }

  function Not3(a: Truth): Truth { if a == True then False else if a == False then True else Unknown }

  function TermTruth(term: seq<Expr>, s: Schema, row: Row, like: Matcher): Truth {
    if term == [] then True else And3(TruthOf(Eval(term[0], s, row, like)), TermTruth(term[1..], s, row, like))
  }

  /** The OR of the ANDs of the terms. */
  function TermsTruth(terms: seq<seq<Expr>>, s: Schema, row: Row, like: Matcher): Truth {
    if terms == [] then False else Or3(TermTruth(terms[0], s, row, like), TermsTruth(terms[1..], s, row, like))
  }

  /** A leaf of the logical structure that yields a string is no truth value. */
  predicate LogicalLeaves(e: Expr, s: Schema, row: Row, like: Matcher) {
    match e
    case And(a, b) => LogicalLeaves(a, s, row, like) && LogicalLeaves(b, s, row, like)
    case Or(a, b) => LogicalLeaves(a, s, row, like) && LogicalLeaves(b, s, row, like)
    case Not(a) => LogicalLeaves(a, s, row, like)
    case _ => !Eval(e, s, row, like).Str?
  }

  lemma {:induction false} TermsAppend(a: seq<seq<Expr>>, b: seq<seq<Expr>>, s: Schema, row: Row, like: Matcher)
    ensures TermsTruth(a + b, s, row, like) == Or3(TermsTruth(a, s, row, like), TermsTruth(b, s, row, like))
  {
    if a == [] {
      assert a + b == b;
    } else {
      TermsAppend(a[1..], b, s, row, like);
      assert (a + b)[1..] == a[1..] + b;
    }
  }

  lemma {:induction false} TermAppend(l: seq<Expr>, r: seq<Expr>, s: Schema, row: Row, like: Matcher)
    ensures TermTruth(l + r, s, row, like) == And3(TermTruth(l, s, row, like), TermTruth(r, s, row, like))
  {
    if l == [] {
      assert l + r == r;
    } else {
      TermAppend(l[1..], r, s, row, like);
      assert (l + r)[1..] == l[1..] + r;
    }
  }

  lemma {:induction false} ExtendTruth(l: seq<Expr>, right: seq<seq<Expr>>, s: Schema, row: Row, like: Matcher)
    ensures TermsTruth(Extend(l, right), s, row, like) == And3(TermTruth(l, s, row, like), TermsTruth(right, s, row, like))
    ensures |Extend(l, right)| == |right|
  {
    if right != [] {
      ExtendTruth(l, right[1..], s, row, like);
      TermAppend(l, right[0], s, row, like);
      assert Extend(l, right)[1..] == Extend(l, right[1..]);
    }
  }

  /** Distribution. */
  lemma {:induction false} ProductTruth(left: seq<seq<Expr>>, right: seq<seq<Expr>>, s: Schema, row: Row, like: Matcher)
    requires right != []
    ensures TermsTruth(Product(left, right), s, row, like)
         == And3(TermsTruth(left, s, row, like), TermsTruth(right, s, row, like))
    ensures left != [] ==> Product(left, right) != []
  {
    if left != [] {
      ProductTruth(left[1..], right, s, row, like);
      ExtendTruth(left[0], right, s, row, like);
      TermsAppend(Extend(left[0], right), Product(left[1..], right), s, row, like);
    }
  }

  // ---------------------------------------------------------------- what the conversion keeps

  /** The leaves the conversion accepts: any below an odd number of negations, conditions
      elsewhere. */
  predicate Convertible(e: Expr, negated: bool) {
    match e
    case And(a, b) => Convertible(a, negated) && Convertible(b, negated)
    case Or(a, b) => Convertible(a, negated) && Convertible(b, negated)
    case Not(a) => Convertible(a, !negated)
    case _ => negated || IsAtom(e)
  }

  /** Terms that mean `t`: not empty, and their OR of ANDs is `t`. */
  predicate Means(c: Converted, t: Truth, s: Schema, row: Row, like: Matcher) {
    c.Terms? && c.terms != [] && TermsTruth(c.terms, s, row, like) == t
  }

  lemma ConjoinMeans(a: Converted, b: Converted, t: Truth, u: Truth, s: Schema, row: Row, like: Matcher)
    requires Means(a, t, s, row, like) && Means(b, u, s, row, like)
    ensures Means(Conjoin(a, b), And3(t, u), s, row, like)
  {
    ProductTruth(a.terms, b.terms, s, row, like);
  }

  lemma DisjoinMeans(a: Converted, b: Converted, t: Truth, u: Truth, s: Schema, row: Row, like: Matcher)
    requires Means(a, t, s, row, like) && Means(b, u, s, row, like)
    ensures Means(Disjoin(a, b), Or3(t, u), s, row, like)
  {
    TermsAppend(a.terms, b.terms, s, row, like);
  }

  lemma LiteralMeans(e: Expr, s: Schema, row: Row, like: Matcher)
    ensures Means(Terms([[e]]), TruthOf(Eval(e, s, row, like)), s, row, like)
  {
    assert [[e]][1..] == [] && [e][1..] == [];
    assert TermTruth([e], s, row, like) == TruthOf(Eval(e, s, row, like));
  }

  /** The truth of a predicate when a string counts as false. */
  function Reading(e: Expr, s: Schema, row: Row, like: Matcher): Truth {
    match e
    case And(a, b) => And3(Reading(a, s, row, like), Reading(b, s, row, like))
    case Or(a, b) => Or3(Reading(a, s, row, like), Reading(b, s, row, like))
    case Not(a) => Not3(Reading(a, s, row, like))
    case _ => if Eval(e, s, row, like).Str? then False else TruthOf(Eval(e, s, row, like))
  }

  /** What the terms mean, for every predicate the conversion accepts: they are never empty, and
      their OR of ANDs is the predicate read in this way.  De Morgan, distribution and double
      negation lose nothing. */
  lemma {:induction false} DnfMeansReading(e: Expr, negated: bool, s: Schema, row: Row, like: Matcher)
    requires Convertible(e, negated)
    ensures var t := Reading(e, s, row, like);
            if negated then Means(NegateToDnf(e), Not3(t), s, row, like) else Means(ToDnf(e), t, s, row, like)
  {
    match e
    case And(a, b) =>
      DnfMeansReading(a, negated, s, row, like);
      DnfMeansReading(b, negated, s, row, like);
      var t, u := Reading(a, s, row, like), Reading(b, s, row, like);
      if negated { DisjoinMeans(NegateToDnf(a), NegateToDnf(b), Not3(t), Not3(u), s, row, like); }
      else { ConjoinMeans(ToDnf(a), ToDnf(b), t, u, s, row, like); }
    case Or(a, b) =>
      DnfMeansReading(a, negated, s, row, like);
      DnfMeansReading(b, negated, s, row, like);
      var t, u := Reading(a, s, row, like), Reading(b, s, row, like);
      if negated { ConjoinMeans(NegateToDnf(a), NegateToDnf(b), Not3(t), Not3(u), s, row, like); }
      else { DisjoinMeans(ToDnf(a), ToDnf(b), t, u, s, row, like); }
    case Not(a) => DnfMeansReading(a, !negated, s, row, like);
    case _ =>
      if negated { LiteralMeans(Not(e), s, row, like); } else { LiteralMeans(e, s, row, like); }
  }

  /** Where no leaf is a string, this is how the program evaluates. */
  lemma {:induction false} LogicalReading(e: Expr, s: Schema, row: Row, like: Matcher)
    requires LogicalLeaves(e, s, row, like)
    ensures Reading(e, s, row, like) == TruthOf(Eval(e, s, row, like))
    ensures !Eval(e, s, row, like).Str?
  {
    match e
    case And(a, b) => LogicalReading(a, s, row, like); LogicalReading(b, s, row, like);
    case Or(a, b) => LogicalReading(a, s, row, like); LogicalReading(b, s, row, like);
    case Not(a) => LogicalReading(a, s, row, like);
    case _ =>
  }

  /** The terms of a convertible predicate, or of its negation, are never empty and have exactly
      its truth value. */
  lemma DnfPreservesTruth(e: Expr, negated: bool, s: Schema, row: Row, like: Matcher)
    requires Convertible(e, negated) && LogicalLeaves(e, s, row, like)
    ensures var t := TruthOf(Eval(e, s, row, like));
            if negated then Means(NegateToDnf(e), Not3(t), s, row, like) else Means(ToDnf(e), t, s, row, like)
  {
    DnfMeansReading(e, negated, s, row, like);
    LogicalReading(e, s, row, like);
  }

  /** On any row the conversion keeps the truth of a predicate if and only if it makes no difference
      to it that its strings are read as false. */
  lemma DnfPreservesTruthIff(e: Expr, s: Schema, row: Row, like: Matcher)
    requires Convertible(e, false)
    ensures Means(ToDnf(e), TruthOf(Eval(e, s, row, like)), s, row, like)
       <==> Reading(e, s, row, like) == TruthOf(Eval(e, s, row, like))
  {
    DnfMeansReading(e, false, s, row, like);
  }

  // ---------------------------------------------------------------- lists of conditions

  /** The AND of a list of conditions. */
  function AllTruth(ps: seq<Expr>, s: Schema, row: Row, like: Matcher): Truth {
    if ps == [] then True else And3(AllTruth(ps[..|ps| - 1], s, row, like), TruthOf(Eval(ps[|ps| - 1], s, row, like)))
  }

  predicate AllLogical(ps: seq<Expr>, s: Schema, row: Row, like: Matcher) {
    forall i :: 0 <= i < |ps| ==> LogicalLeaves(ps[i], s, row, like)
  }

  lemma {:induction false} ConjunctionTruth(ps: seq<Expr>, s: Schema, row: Row, like: Matcher)
    requires ps != []
    ensures AllLogical(ps, s, row, like) ==> LogicalLeaves(Conjunction(ps), s, row, like)
    ensures TruthOf(Eval(Conjunction(ps), s, row, like)) == AllTruth(ps, s, row, like)
  {
    var n := |ps| - 1;
    if n > 0 {
      ConjunctionTruth(ps[..n], s, row, like);
      if AllLogical(ps, s, row, like) { assert forall i :: 0 <= i < n ==> ps[..n][i] == ps[i]; }
    } else {
      assert ps[..0] == [];
    }
  }

  lemma {:induction false} ConjunctionConvertible(ps: seq<Expr>)
    requires ps != []
    ensures Convertible(Conjunction(ps), false) <==> forall i :: 0 <= i < |ps| ==> Convertible(ps[i], false)
  {
    var n := |ps| - 1;
    if n > 0 {
      ConjunctionConvertible(ps[..n]);
      assert forall i :: 0 <= i < n ==> ps[..n][i] == ps[i];
    }
  }

  /** The terms for a list of conditions; there are none for the empty list. */
  method PredicatesToDnfTerms(ps: seq<Expr>) returns (r: Converted)
    ensures ps == [] ==> r == Terms([])
    ensures ps != [] ==> (r.Panic? <==> exists i :: 0 <= i < |ps| && !Convertible(ps[i], false))
    ensures ps != [] && r.Terms? ==> forall s, row, like :: AllLogical(ps, s, row, like) ==>
              Means(r, AllTruth(ps, s, row, like), s, row, like)
  {
    if |ps| == 0 { return Terms([]); }
    var e := MergePredicates(ps);
    r := ToDnf(e);
    ConjunctionConvertible(ps);
    PanicsIff(e);
    if r.Terms? {
      forall s, row, like | AllLogical(ps, s, row, like) ensures Means(r, AllTruth(ps, s, row, like), s, row, like) {
        ConjunctionTruth(ps, s, row, like);
        DnfPreservesTruth(e, false, s, row, like);
      }
    }
  }

  /** The conversion panics exactly on predicates that are not convertible. */
  lemma {:induction false} PanicsIff(e: Expr)
    ensures ToDnf(e).Panic? <==> !Convertible(e, false)
    ensures NegateToDnf(e).Panic? <==> !Convertible(e, true)
  {
    match e
    case And(a, b) => PanicsIff(a); PanicsIff(b);
    case Or(a, b) => PanicsIff(a); PanicsIff(b);
    case Not(a) => PanicsIff(a);
    case _ =>
  }

  /** Predicates over comparisons, null checks and LIKE. */
  predicate AtomicLeaves(e: Expr) {
    match e
    case And(a, b) => AtomicLeaves(a) && AtomicLeaves(b)
    case Or(a, b) => AtomicLeaves(a) && AtomicLeaves(b)
    case Not(a) => AtomicLeaves(a)
    case _ => IsAtom(e)
  }

  lemma {:induction false} AtomsAreLogical(e: Expr, negated: bool, s: Schema, row: Row, like: Matcher)
    requires AtomicLeaves(e)
    ensures Convertible(e, negated) && LogicalLeaves(e, s, row, like)
  {
    match e
    case And(a, b) => AtomsAreLogical(a, negated, s, row, like); AtomsAreLogical(b, negated, s, row, like);
    case Or(a, b) => AtomsAreLogical(a, negated, s, row, like); AtomsAreLogical(b, negated, s, row, like);
    case Not(a) => AtomsAreLogical(a, !negated, s, row, like);
    case _ =>
  }

  /** Every element of every term is a condition or the negation of one. */
  predicate Literals(terms: seq<seq<Expr>>) {
    forall i, j :: 0 <= i < |terms| && 0 <= j < |terms[i]| ==>
      IsAtom(terms[i][j]) || (terms[i][j].Not? && IsAtom(terms[i][j].child))
  }

  lemma {:induction false} ExtendLiterals(l: seq<Expr>, right: seq<seq<Expr>>)
    requires Literals([l]) && Literals(right)
    ensures Literals(Extend(l, right))
  {
    if right != [] {
      assert Literals(right[1..]);
      ExtendLiterals(l, right[1..]);
      assert [l][0] == l;
      assert Literals([l + right[0]]);
    }
  }

  lemma {:induction false} ProductLiterals(left: seq<seq<Expr>>, right: seq<seq<Expr>>)
    requires Literals(left) && Literals(right)
    ensures Literals(Product(left, right))
  {
    if left != [] {
      assert Literals([left[0]]) && Literals(left[1..]);
      ProductLiterals(left[1..], right);
      ExtendLiterals(left[0], right);
    }
  }

  lemma {:induction false} DnfLiterals(e: Expr)
    requires AtomicLeaves(e)
    ensures ToDnf(e).Terms? && Literals(ToDnf(e).terms)
    ensures NegateToDnf(e).Terms? && Literals(NegateToDnf(e).terms)
  {
    match e
    case And(a, b) =>
      DnfLiterals(a);
      DnfLiterals(b);
      ProductLiterals(ToDnf(a).terms, ToDnf(b).terms);
    case Or(a, b) =>
      DnfLiterals(a);
      DnfLiterals(b);
      ProductLiterals(NegateToDnf(a).terms, NegateToDnf(b).terms);
    case Not(a) => DnfLiterals(a);
    case _ =>
  }

  // ---------------------------------------------------------------- where it goes wrong

  lemma NotEval(e: Expr, s: Schema, row: Row, like: Matcher)
    ensures Eval(Not(e), s, row, like) == EvalNot(Eval(e, s, row, like))
  {
  }

  /** `NOT ('x' AND 1 = 1)` is NULL, but its terms are TRUE: a string leaf is neither true nor
      false inside AND, while its negation counts as true. */
  lemma StringLeafChangesTruth(s: Schema, row: Row, like: Matcher)
    ensures var one := Const(Int(1));
            var e := Not(And(Const(Str("x")), Cmp(Equal, one, one)));
            && TruthOf(Eval(e, s, row, like)) == Unknown
            && Means(ToDnf(e), True, s, row, like)
  {
    var one := Const(Int(1));
    var a, b := Const(Str("x")), Cmp(Equal, one, one);
    assert Compare(Int(1), Int(1)) == 0 && EvalComparison(Equal, Int(1), Int(1)) == Bool(true);
    assert Eval(one, s, row, like) == Int(1) && Eval(b, s, row, like) == Bool(true);
    assert Eval(And(a, b), s, row, like) == NullInt;
    NotEval(a, s, row, like);
    NotEval(b, s, row, like);
    LiteralMeans(Not(a), s, row, like);
    LiteralMeans(Not(b), s, row, like);
    DisjoinMeans(Terms([[Not(a)]]), Terms([[Not(b)]]), True, False, s, row, like);
  }
}
