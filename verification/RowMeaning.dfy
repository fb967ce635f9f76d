/** What filters and joins produce, row by row: the reading of SQL that the recursive definitions
    in `Plans` have to meet. */
module RowMeaning {
  import opened Values
  import opened Expressions
  import opened Plans
  import opened JoinFilters

  // ---------------------------------------------------------------- filters

  /** A filter keeps each row on which all conditions are TRUE as often as it occurs, and no other. */
  lemma {:induction false} KeepCount(rows: seq<Row>, ps: seq<Expr>, s: Schema, like: Matcher, x: Row)
    ensures multiset(Keep(rows, ps, s, like))[x] == if AllHold(ps, s, x, like) then multiset(rows)[x] else 0
  {
    if rows != [] {
      KeepCount(rows[1..], ps, s, like, x);
      assert rows == [rows[0]] + rows[1..];
    }
  }

  lemma KeepIff(rows: seq<Row>, ps: seq<Expr>, s: Schema, like: Matcher)
    ensures forall x :: x in Keep(rows, ps, s, like) <==> x in rows && AllHold(ps, s, x, like)
  {
    forall x ensures x in Keep(rows, ps, s, like) <==> x in rows && AllHold(ps, s, x, like) {
      KeepCount(rows, ps, s, like, x);
      assert x in multiset(rows) <==> x in rows;
      assert x in multiset(Keep(rows, ps, s, like)) <==> x in Keep(rows, ps, s, like);
    }
  }

  // ---------------------------------------------------------------- joins

  /** The join condition is TRUE on the two rows side by side. */
  predicate Match(l: Row, r: Row, on: seq<Expr>, s: Schema, like: Matcher) { AllHold(on, s, l + r, like) }

  predicate IsPair(x: Row, ls: seq<Row>, rs: seq<Row>, on: seq<Expr>, s: Schema, like: Matcher) {
    exists l, r :: l in ls && r in rs && Match(l, r, on, s, like) && x == l + r
  }

  predicate Lonely(l: Row, rs: seq<Row>, on: seq<Expr>, s: Schema, like: Matcher) {
    forall r :: r in rs ==> !Match(l, r, on, s, like)
  }

  predicate LonelyRight(ls: seq<Row>, r: Row, on: seq<Expr>, s: Schema, like: Matcher) {
    forall l :: l in ls ==> !Match(l, r, on, s, like)
  }

  predicate IsLonelyLeft(x: Row, ls: seq<Row>, rs: seq<Row>, on: seq<Expr>, sl: Schema, sr: Schema, like: Matcher) {
    exists l :: l in ls && Lonely(l, rs, on, sl + sr, like) && x == l + NullRow(sr)
  }

  predicate IsLonelyRight(x: Row, ls: seq<Row>, rs: seq<Row>, on: seq<Expr>, sl: Schema, sr: Schema, like: Matcher) {
    exists r :: r in rs && LonelyRight(ls, r, on, sl + sr, like) && x == NullRow(sl) + r
  }

  lemma MatchesOfLeft(l: Row, rs: seq<Row>, on: seq<Expr>, s: Schema, like: Matcher)
    ensures forall x :: x in Keep(Prefixed(l, rs), on, s, like) <==> exists r :: r in rs && Match(l, r, on, s, like) && x == l + r
    ensures Keep(Prefixed(l, rs), on, s, like) == [] <==> Lonely(l, rs, on, s, like)
  {
    var rows := Prefixed(l, rs);
    KeepIff(rows, on, s, like);
    forall x ensures x in Keep(rows, on, s, like) <==> exists r :: r in rs && Match(l, r, on, s, like) && x == l + r {
      if x in rows {
        var i :| 0 <= i < |rows| && rows[i] == x;
        assert rs[i] in rs && x == l + rs[i];
      }
      if r :| r in rs && Match(l, r, on, s, like) && x == l + r {
        var i :| 0 <= i < |rs| && rs[i] == r;
        assert rows[i] == x;
      }
    }
    EmptyIff(l, rs, on, s, like);
  }

  lemma EmptyIff(l: Row, rs: seq<Row>, on: seq<Expr>, s: Schema, like: Matcher)
    requires forall x :: x in Keep(Prefixed(l, rs), on, s, like) <==> exists r :: r in rs && Match(l, r, on, s, like) && x == l + r
    ensures Keep(Prefixed(l, rs), on, s, like) == [] <==> Lonely(l, rs, on, s, like)
  {
    var m := Keep(Prefixed(l, rs), on, s, like);
    if m != [] { assert m[0] in m; }
    if r :| r in rs && Match(l, r, on, s, like) { assert l + r in m; }
  }

  lemma MatchesOfRight(ls: seq<Row>, r: Row, on: seq<Expr>, s: Schema, like: Matcher)
    ensures forall x :: x in Keep(Suffixed(ls, r), on, s, like) <==> exists l :: l in ls && Match(l, r, on, s, like) && x == l + r
    ensures Keep(Suffixed(ls, r), on, s, like) == [] <==> LonelyRight(ls, r, on, s, like)
  {
    var rows := Suffixed(ls, r);
    KeepIff(rows, on, s, like);
    forall x ensures x in Keep(rows, on, s, like) <==> exists l :: l in ls && Match(l, r, on, s, like) && x == l + r {
      if x in rows {
        var i :| 0 <= i < |rows| && rows[i] == x;
        assert ls[i] in ls && x == ls[i] + r;
      }
      if l :| l in ls && Match(l, r, on, s, like) && x == l + r {
        var i :| 0 <= i < |ls| && ls[i] == l;
        assert rows[i] == x;
      }
    }
    EmptyRightIff(ls, r, on, s, like);
  }

  lemma EmptyRightIff(ls: seq<Row>, r: Row, on: seq<Expr>, s: Schema, like: Matcher)
    requires forall x :: x in Keep(Suffixed(ls, r), on, s, like) <==> exists l :: l in ls && Match(l, r, on, s, like) && x == l + r
    ensures Keep(Suffixed(ls, r), on, s, like) == [] <==> LonelyRight(ls, r, on, s, like)
  {
    var m := Keep(Suffixed(ls, r), on, s, like);
    if m != [] { assert m[0] in m; }
    if l :| l in ls && Match(l, r, on, s, like) { assert l + r in m; }
  }

  lemma {:induction false} LeftMajorIff(ls: seq<Row>, rs: seq<Row>, on: seq<Expr>, sl: Schema, sr: Schema, outer: bool, like: Matcher, x: Row)
    ensures x in LeftMajor(ls, rs, on, sl, sr, outer, like)
       <==> IsPair(x, ls, rs, on, sl + sr, like) || (outer && IsLonelyLeft(x, ls, rs, on, sl, sr, like))
  {
    if ls != [] {
      LeftMajorIff(ls[1..], rs, on, sl, sr, outer, like, x);
      MatchesOfLeft(ls[0], rs, on, sl + sr, like);
      assert forall l :: l in ls <==> l == ls[0] || l in ls[1..];
    }
  }

  lemma {:induction false} RightMajorIff(ls: seq<Row>, rs: seq<Row>, on: seq<Expr>, sl: Schema, sr: Schema, like: Matcher, x: Row)
    ensures x in RightMajor(ls, rs, on, sl, sr, like)
       <==> IsPair(x, ls, rs, on, sl + sr, like) || IsLonelyRight(x, ls, rs, on, sl, sr, like)
  {
    if rs != [] {
      RightMajorIff(ls, rs[1..], on, sl, sr, like, x);
      MatchesOfRight(ls, rs[0], on, sl + sr, like);
      assert forall r :: r in rs <==> r == rs[0] || r in rs[1..];
    }
  }

  lemma {:induction false} UnmatchedIff(ls: seq<Row>, rs: seq<Row>, on: seq<Expr>, sl: Schema, sr: Schema, like: Matcher, x: Row)
    ensures x in Unmatched(ls, rs, on, sl, sr, like) <==> IsLonelyRight(x, ls, rs, on, sl, sr, like)
  {
    if rs != [] {
      UnmatchedIff(ls, rs[1..], on, sl, sr, like, x);
      MatchesOfRight(ls, rs[0], on, sl + sr, like);
      assert forall r :: r in rs <==> r == rs[0] || r in rs[1..];
    }
  }

  /** The rows of a join: the pairs on which its condition is TRUE; for a left or full join also each
      left row without a partner, padded with NULLs; for a right or full join each right row. */
  lemma JoinRowsIff(t: JoinType, ls: seq<Row>, rs: seq<Row>, on: seq<Expr>, sl: Schema, sr: Schema, like: Matcher, x: Row)
    ensures x in JoinRows(t, ls, rs, on, sl, sr, like) <==>
              || IsPair(x, ls, rs, on, sl + sr, like)
              || ((t.Left? || t.FullOuter?) && IsLonelyLeft(x, ls, rs, on, sl, sr, like))
              || ((t.Right? || t.FullOuter?) && IsLonelyRight(x, ls, rs, on, sl, sr, like))
  {
    LeftMajorIff(ls, rs, on, sl, sr, t.Left? || t.FullOuter?, like, x);
    RightMajorIff(ls, rs, on, sl, sr, like, x);
    UnmatchedIff(ls, rs, on, sl, sr, like, x);
  }

  // ---------------------------------------------------------------- how often

  /** How many of the right rows match. */
  function Partners(l: Row, rs: seq<Row>, on: seq<Expr>, s: Schema, like: Matcher): nat {
    if rs == [] then 0
    else (if Match(l, rs[0], on, s, like) then 1 else 0) + Partners(l, rs[1..], on, s, like)
  }

  function Pairs(ls: seq<Row>, rs: seq<Row>, on: seq<Expr>, s: Schema, like: Matcher): nat {
    if ls == [] then 0 else Partners(ls[0], rs, on, s, like) + Pairs(ls[1..], rs, on, s, like)
  }

  lemma {:induction false} PartnersCount(l: Row, rs: seq<Row>, on: seq<Expr>, s: Schema, like: Matcher)
    ensures |Keep(Prefixed(l, rs), on, s, like)| == Partners(l, rs, on, s, like)
  {
    if rs != [] {
      PartnersCount(l, rs[1..], on, s, like);
      KeepCons(l + rs[0], Prefixed(l, rs[1..]), on, s, like);
    }
  }

  /** An inner join has one row for each pair that matches. */
  lemma {:induction false} InnerJoinCount(ls: seq<Row>, rs: seq<Row>, on: seq<Expr>, sl: Schema, sr: Schema, like: Matcher)
    ensures |JoinRows(Inner, ls, rs, on, sl, sr, like)| == Pairs(ls, rs, on, sl + sr, like)
  {
    if ls != [] {
      InnerJoinCount(ls[1..], rs, on, sl, sr, like);
      PartnersCount(ls[0], rs, on, sl + sr, like);
    }
  }
}
