/** Filters above a join and filters below it. */
module JoinFilters {
  import opened Values
  import opened Expressions
  import opened Plans

  // ---------------------------------------------------------------- evaluation on one side

  lemma {:induction false} OffsetLeft(sl: Schema, sr: Schema, c: Column)
    requires Contains(sl, c)
    ensures Offset(sl + sr, c) == Offset(sl, c) < |sl|
  {
    if !SameColumn(sl[0], c) {
      var i :| 0 <= i < |sl| && SameColumn(sl[i], c);
      assert sl[1..][i - 1] == sl[i];
      OffsetLeft(sl[1..], sr, c);
      assert (sl + sr)[1..] == sl[1..] + sr;
    }
  }

  lemma {:induction false} OffsetRight(sl: Schema, sr: Schema, c: Column)
    requires !Contains(sl, c)
    ensures Offset(sl + sr, c) == |sl| + Offset(sr, c)
  {
    if sl == [] {
      assert sl + sr == sr;
    } else {
      forall i | 0 <= i < |sl| - 1 ensures !SameColumn(sl[1..][i], c) { assert sl[1..][i] == sl[i + 1]; }
      OffsetRight(sl[1..], sr, c);
      assert (sl + sr)[1..] == sl[1..] + sr;
    }
  }

  lemma {:induction false} EvalLeft(e: Expr, sl: Schema, sr: Schema, l: Row, r: Row, like: Matcher)
    requires Covers(sl, Reads(e)) && |l| == |sl|
    ensures Eval(e, sl + sr, l + r, like) == Eval(e, sl, l, like)
  {
    match e
    case Col(c) => OffsetLeft(sl, sr, c);
    case Const(_) =>
    case Cmp(_, a, b) => EvalLeft(a, sl, sr, l, r, like); EvalLeft(b, sl, sr, l, r, like);
    case And(a, b) => EvalLeft(a, sl, sr, l, r, like); EvalLeft(b, sl, sr, l, r, like);
    case Or(a, b) => EvalLeft(a, sl, sr, l, r, like); EvalLeft(b, sl, sr, l, r, like);
    case Not(a) => EvalLeft(a, sl, sr, l, r, like);
    case NullCheck(_, a) => EvalLeft(a, sl, sr, l, r, like);
    case Arith(_, a, b) => EvalLeft(a, sl, sr, l, r, like); EvalLeft(b, sl, sr, l, r, like);
    case Concat(a, b) => EvalLeft(a, sl, sr, l, r, like); EvalLeft(b, sl, sr, l, r, like);
    case Like(a, b) => EvalLeft(a, sl, sr, l, r, like); EvalLeft(b, sl, sr, l, r, like);
  }

  ghost predicate AvoidsSchema(s: Schema, cols: set<Column>) { forall c :: c in cols ==> !Contains(s, c) }

  lemma {:induction false} EvalRight(e: Expr, sl: Schema, sr: Schema, l: Row, r: Row, like: Matcher)
    requires AvoidsSchema(sl, Reads(e)) && |l| == |sl|
    ensures Eval(e, sl + sr, l + r, like) == Eval(e, sr, r, like)
  {
    match e
    case Col(c) => OffsetRight(sl, sr, c);
    case Const(_) =>
    case Cmp(_, a, b) => EvalRight(a, sl, sr, l, r, like); EvalRight(b, sl, sr, l, r, like);
    case And(a, b) => EvalRight(a, sl, sr, l, r, like); EvalRight(b, sl, sr, l, r, like);
    case Or(a, b) => EvalRight(a, sl, sr, l, r, like); EvalRight(b, sl, sr, l, r, like);
    case Not(a) => EvalRight(a, sl, sr, l, r, like);
    case NullCheck(_, a) => EvalRight(a, sl, sr, l, r, like);
    case Arith(_, a, b) => EvalRight(a, sl, sr, l, r, like); EvalRight(b, sl, sr, l, r, like);
    case Concat(a, b) => EvalRight(a, sl, sr, l, r, like); EvalRight(b, sl, sr, l, r, like);
    case Like(a, b) => EvalRight(a, sl, sr, l, r, like); EvalRight(b, sl, sr, l, r, like);
  }

  // ---------------------------------------------------------------- filters on sequences of rows

  lemma KeepCons(row: Row, rows: seq<Row>, ps: seq<Expr>, s: Schema, like: Matcher)
    ensures Keep([row] + rows, ps, s, like)
         == if AllHold(ps, s, row, like) then [row] + Keep(rows, ps, s, like) else Keep(rows, ps, s, like)
  {
    assert ([row] + rows)[1..] == rows;
  }

  lemma PrefixedCons(l: Row, r: Row, rs: seq<Row>)
    ensures Prefixed(l, [r] + rs) == [l + r] + Prefixed(l, rs)
  {
    assert ([r] + rs)[1..] == rs;
  }

  lemma LeftMajorCons(l: Row, ls: seq<Row>, rs: seq<Row>, on: seq<Expr>, sl: Schema, sr: Schema, outer: bool, like: Matcher)
    ensures LeftMajor([l] + ls, rs, on, sl, sr, outer, like)
         == LeftGroup(l, rs, on, sl, sr, outer, like) + LeftMajor(ls, rs, on, sl, sr, outer, like)
  {
    assert ([l] + ls)[1..] == ls;
  }

  lemma RightMajorCons(ls: seq<Row>, r: Row, rs: seq<Row>, on: seq<Expr>, sl: Schema, sr: Schema, like: Matcher)
    ensures RightMajor(ls, [r] + rs, on, sl, sr, like)
         == RightGroup(ls, r, on, sl, sr, like) + RightMajor(ls, rs, on, sl, sr, like)
  {
    assert ([r] + rs)[1..] == rs;
  }

  lemma {:induction false} KeepConcat(a: seq<Row>, b: seq<Row>, ps: seq<Expr>, s: Schema, like: Matcher)
    ensures Keep(a + b, ps, s, like) == Keep(a, ps, s, like) + Keep(b, ps, s, like)
  {
    if a == [] {
      assert a + b == b;
    } else {
      KeepConcat(a[1..], b, ps, s, like);
      assert a + b == [a[0]] + (a[1..] + b);
      KeepCons(a[0], a[1..] + b, ps, s, like);
    }
  }

  lemma {:induction false} KeepTwice(rows: seq<Row>, ps: seq<Expr>, qs: seq<Expr>, s: Schema, like: Matcher)
    ensures Keep(Keep(rows, ps, s, like), qs, s, like) == Keep(rows, ps + qs, s, like)
  {
    if rows != [] {
      KeepTwice(rows[1..], ps, qs, s, like);
      AllHoldAppend(ps, qs, s, rows[0], like);
      KeepCons(rows[0], Keep(rows[1..], ps, s, like), qs, s, like);
    }
  }

  lemma {:induction false} KeepEquivalent(rows: seq<Row>, ps: seq<Expr>, qs: seq<Expr>, s: Schema, like: Matcher)
    requires forall i :: 0 <= i < |rows| ==> (AllHold(ps, s, rows[i], like) <==> AllHold(qs, s, rows[i], like))
    ensures Keep(rows, ps, s, like) == Keep(rows, qs, s, like)
  {
    if rows != [] {
      assert forall i :: 0 <= i < |rows| - 1 ==> rows[1..][i] == rows[i + 1];
      KeepEquivalent(rows[1..], ps, qs, s, like);
    }
  }

  lemma OneHolds(e: Expr, s: Schema, row: Row, like: Matcher)
    ensures AllHold([e], s, row, like) <==> Holds(e, s, row, like)
  {
    assert [e][0] == e;
  }

  lemma KeepSplit(rows: seq<Row>, e: Expr, s: Schema, like: Matcher)
    ensures Keep(rows, [e], s, like) == Keep(rows, SplitPredicate(e), s, like)
  {
    forall i | 0 <= i < |rows|
      ensures AllHold([e], s, rows[i], like) <==> AllHold(SplitPredicate(e), s, rows[i], like)
    {
      OneHolds(e, s, rows[i], like);
      SplitHolds(e, s, rows[i], like);
    }
    KeepEquivalent(rows, [e], SplitPredicate(e), s, like);
  }

  lemma KeepMerged(rows: seq<Row>, ps: seq<Expr>, s: Schema, like: Matcher)
    requires ps != []
    ensures Keep(rows, [Conjunction(ps)], s, like) == Keep(rows, ps, s, like)
  {
    forall i | 0 <= i < |rows|
      ensures AllHold([Conjunction(ps)], s, rows[i], like) <==> AllHold(ps, s, rows[i], like)
    {
      OneHolds(Conjunction(ps), s, rows[i], like);
      MergeHolds(ps, s, rows[i], like);
    }
    KeepEquivalent(rows, [Conjunction(ps)], ps, s, like);
  }

  /** Without conditions nothing is dropped. */
  lemma {:induction false} KeepAll(rows: seq<Row>, s: Schema, like: Matcher)
    ensures Keep(rows, [], s, like) == rows
  {
    if rows != [] { KeepAll(rows[1..], s, like); }
  }

  lemma {:induction false} KeepShaped(rows: seq<Row>, ps: seq<Expr>, s: Schema, like: Matcher, n: nat)
    requires forall i :: 0 <= i < |rows| ==> |rows[i]| == n
    ensures forall i :: 0 <= i < |Keep(rows, ps, s, like)| ==> |Keep(rows, ps, s, like)[i]| == n
  {
    if rows != [] {
      assert forall i :: 0 <= i < |rows| - 1 ==> rows[1..][i] == rows[i + 1];
      KeepShaped(rows[1..], ps, s, like, n);
    }
  }

  // ---------------------------------------------------------------- a condition split in four

  /** On joined rows, `ps` is the conjunction of a part on the left row, a part on the right
      row, and two parts on the whole. */
  ghost predicate Parts(ps: seq<Expr>, lp: seq<Expr>, rp: seq<Expr>, cs: seq<Expr>, kp: seq<Expr>, sl: Schema, sr: Schema, like: Matcher) {
    forall l: Row, r: Row :: |l| == |sl| ==> PartsAt(ps, lp, rp, cs, kp, sl, sr, like, l, r)
  }

  predicate PartsAt(ps: seq<Expr>, lp: seq<Expr>, rp: seq<Expr>, cs: seq<Expr>, kp: seq<Expr>, sl: Schema, sr: Schema, like: Matcher, l: Row, r: Row) {
    AllHold(ps, sl + sr, l + r, like)
    <==> AllHold(lp, sl, l, like) && AllHold(rp, sr, r, like)
         && AllHold(cs, sl + sr, l + r, like) && AllHold(kp, sl + sr, l + r, like)
  }

  // ---------------------------------------------------------------- inner join

  lemma {:induction false} InnerGroup(l: Row, rs: seq<Row>, on: seq<Expr>, ps: seq<Expr>, lp: seq<Expr>, rp: seq<Expr>, cs: seq<Expr>, sl: Schema, sr: Schema, like: Matcher)
    requires Parts(ps, lp, rp, cs, [], sl, sr, like) && |l| == |sl|
    ensures Keep(Keep(Prefixed(l, rs), on, sl + sr, like), ps, sl + sr, like)
         == if AllHold(lp, sl, l, like) then Keep(Prefixed(l, Keep(rs, rp, sr, like)), on + cs, sl + sr, like) else []
  {
    if rs != [] {
      var r, row, s := rs[0], l + rs[0], sl + sr;
      var tail, kept := Prefixed(l, rs[1..]), Keep(rs[1..], rp, sr, like);
      InnerGroup(l, rs[1..], on, ps, lp, rp, cs, sl, sr, like);
      assert PartsAt(ps, lp, rp, cs, [], sl, sr, like, l, r);
      AllHoldAppend(on, cs, s, row, like);
      assert Prefixed(l, rs) == [row] + tail;
      KeepCons(row, tail, on, s, like);
      KeepCons(row, Keep(tail, on, s, like), ps, s, like);
      KeepCons(row, Prefixed(l, kept), on + cs, s, like);
      PrefixedCons(l, r, kept);
    }
  }

  /** Filtering an inner join is joining filtered inputs under a longer condition. */
  lemma {:induction false} InnerFilter(ls: seq<Row>, rs: seq<Row>, on: seq<Expr>, ps: seq<Expr>, lp: seq<Expr>, rp: seq<Expr>, cs: seq<Expr>, sl: Schema, sr: Schema, like: Matcher)
    requires Parts(ps, lp, rp, cs, [], sl, sr, like) && Shaped(ls, sl)
    ensures Keep(LeftMajor(ls, rs, on, sl, sr, false, like), ps, sl + sr, like)
         == LeftMajor(Keep(ls, lp, sl, like), Keep(rs, rp, sr, like), on + cs, sl, sr, false, like)
  {
    if ls != [] {
      assert forall i :: 0 <= i < |ls| - 1 ==> ls[1..][i] == ls[i + 1];
      InnerFilter(ls[1..], rs, on, ps, lp, rp, cs, sl, sr, like);
      InnerGroup(ls[0], rs, on, ps, lp, rp, cs, sl, sr, like);
      var kept, rs' := Keep(ls[1..], lp, sl, like), Keep(rs, rp, sr, like);
      KeepConcat(LeftGroup(ls[0], rs, on, sl, sr, false, like), LeftMajor(ls[1..], rs, on, sl, sr, false, like), ps, sl + sr, like);
      LeftMajorCons(ls[0], kept, rs', on + cs, sl, sr, false, like);
    }
  }

  // ---------------------------------------------------------------- outer joins

  /** A group of rows with the same left row is kept or dropped by a condition on that row. */
  lemma {:induction false} SameLeft(rows: seq<Row>, l: Row, ps: seq<Expr>, lp: seq<Expr>, kp: seq<Expr>, sl: Schema, sr: Schema, like: Matcher)
    requires Parts(ps, lp, [], [], kp, sl, sr, like) && |l| == |sl|
    requires forall i :: 0 <= i < |rows| ==> l <= rows[i]
    ensures Keep(rows, ps, sl + sr, like) == if AllHold(lp, sl, l, like) then Keep(rows, kp, sl + sr, like) else []
  {
    if rows != [] {
      assert forall i :: 0 <= i < |rows| - 1 ==> rows[1..][i] == rows[i + 1];
      SameLeft(rows[1..], l, ps, lp, kp, sl, sr, like);
      assert rows[0] == l + rows[0][|l|..];
      assert PartsAt(ps, lp, [], [], kp, sl, sr, like, l, rows[0][|l|..]);
    }
  }

  lemma {:induction false} KeepSome(rows: seq<Row>, ps: seq<Expr>, s: Schema, like: Matcher)
    ensures forall i :: 0 <= i < |Keep(rows, ps, s, like)| ==> Keep(rows, ps, s, like)[i] in rows
  {
    if rows != [] { KeepSome(rows[1..], ps, s, like); }
  }

  lemma {:induction false} LeftFilter(ls: seq<Row>, rs: seq<Row>, on: seq<Expr>, ps: seq<Expr>, lp: seq<Expr>, kp: seq<Expr>, sl: Schema, sr: Schema, like: Matcher)
    requires Parts(ps, lp, [], [], kp, sl, sr, like) && Shaped(ls, sl)
    ensures Keep(LeftMajor(ls, rs, on, sl, sr, true, like), ps, sl + sr, like)
         == Keep(LeftMajor(Keep(ls, lp, sl, like), rs, on, sl, sr, true, like), kp, sl + sr, like)
  {
    if ls != [] {
      assert forall i :: 0 <= i < |ls| - 1 ==> ls[1..][i] == ls[i + 1];
      LeftFilter(ls[1..], rs, on, ps, lp, kp, sl, sr, like);
      LeftGroupFilter(ls[0], rs, on, ps, lp, kp, sl, sr, like);
      var group, kept := LeftGroup(ls[0], rs, on, sl, sr, true, like), Keep(ls[1..], lp, sl, like);
      KeepConcat(group, LeftMajor(ls[1..], rs, on, sl, sr, true, like), ps, sl + sr, like);
      KeepConcat(group, LeftMajor(kept, rs, on, sl, sr, true, like), kp, sl + sr, like);
      LeftMajorCons(ls[0], kept, rs, on, sl, sr, true, like);
    }
  }

  lemma LeftGroupFilter(l: Row, rs: seq<Row>, on: seq<Expr>, ps: seq<Expr>, lp: seq<Expr>, kp: seq<Expr>, sl: Schema, sr: Schema, like: Matcher)
    requires Parts(ps, lp, [], [], kp, sl, sr, like) && |l| == |sl|
    ensures var group := LeftGroup(l, rs, on, sl, sr, true, like);
            Keep(group, ps, sl + sr, like) == if AllHold(lp, sl, l, like) then Keep(group, kp, sl + sr, like) else []
  {
    KeepSome(Prefixed(l, rs), on, sl + sr, like);
    SameLeft(LeftGroup(l, rs, on, sl, sr, true, like), l, ps, lp, kp, sl, sr, like);
  }

  predicate EndsIn(row: Row, n: nat, r: Row) { n <= |row| && row[n..] == r }

  lemma {:induction false} SameRight(rows: seq<Row>, r: Row, ps: seq<Expr>, rp: seq<Expr>, kp: seq<Expr>, sl: Schema, sr: Schema, like: Matcher)
    requires Parts(ps, [], rp, [], kp, sl, sr, like)
    requires forall i :: 0 <= i < |rows| ==> EndsIn(rows[i], |sl|, r)
    ensures Keep(rows, ps, sl + sr, like) == if AllHold(rp, sr, r, like) then Keep(rows, kp, sl + sr, like) else []
  {
    if rows != [] {
      assert forall i :: 0 <= i < |rows| - 1 ==> rows[1..][i] == rows[i + 1];
      SameRight(rows[1..], r, ps, rp, kp, sl, sr, like);
      assert EndsIn(rows[0], |sl|, r);
      assert rows[0] == rows[0][..|sl|] + r;
      assert PartsAt(ps, [], rp, [], kp, sl, sr, like, rows[0][..|sl|], r);
    }
  }

  lemma RightGroupEnds(ls: seq<Row>, r: Row, on: seq<Expr>, sl: Schema, sr: Schema, like: Matcher)
    requires Shaped(ls, sl)
    ensures forall i :: 0 <= i < |RightGroup(ls, r, on, sl, sr, like)| ==> EndsIn(RightGroup(ls, r, on, sl, sr, like)[i], |sl|, r)
  {
    var all := Suffixed(ls, r);
    forall row | row in all ensures EndsIn(row, |sl|, r) {
      var i :| 0 <= i < |all| && all[i] == row;
      assert all[i] == ls[i] + r;
    }
    KeepSome(all, on, sl + sr, like);
  }

  lemma {:induction false} RightFilter(ls: seq<Row>, rs: seq<Row>, on: seq<Expr>, ps: seq<Expr>, rp: seq<Expr>, kp: seq<Expr>, sl: Schema, sr: Schema, like: Matcher)
    requires Parts(ps, [], rp, [], kp, sl, sr, like) && Shaped(ls, sl)
    ensures Keep(RightMajor(ls, rs, on, sl, sr, like), ps, sl + sr, like)
         == Keep(RightMajor(ls, Keep(rs, rp, sr, like), on, sl, sr, like), kp, sl + sr, like)
  {
    if rs != [] {
      RightFilter(ls, rs[1..], on, ps, rp, kp, sl, sr, like);
      RightGroupFilter(ls, rs[0], on, ps, rp, kp, sl, sr, like);
      var group, kept := RightGroup(ls, rs[0], on, sl, sr, like), Keep(rs[1..], rp, sr, like);
      KeepConcat(group, RightMajor(ls, rs[1..], on, sl, sr, like), ps, sl + sr, like);
      KeepConcat(group, RightMajor(ls, kept, on, sl, sr, like), kp, sl + sr, like);
      RightMajorCons(ls, rs[0], kept, on, sl, sr, like);
    }
  }

  lemma RightGroupFilter(ls: seq<Row>, r: Row, on: seq<Expr>, ps: seq<Expr>, rp: seq<Expr>, kp: seq<Expr>, sl: Schema, sr: Schema, like: Matcher)
    requires Parts(ps, [], rp, [], kp, sl, sr, like) && Shaped(ls, sl)
    ensures var group := RightGroup(ls, r, on, sl, sr, like);
            Keep(group, ps, sl + sr, like) == if AllHold(rp, sr, r, like) then Keep(group, kp, sl + sr, like) else []
  {
    RightGroupEnds(ls, r, on, sl, sr, like);
    SameRight(RightGroup(ls, r, on, sl, sr, like), r, ps, rp, kp, sl, sr, like);
  }

  // ---------------------------------------------------------------- shapes

  lemma {:induction false} LeftMajorShaped(ls: seq<Row>, rs: seq<Row>, on: seq<Expr>, sl: Schema, sr: Schema, outer: bool, like: Matcher)
    requires Shaped(ls, sl) && Shaped(rs, sr)
    ensures Shaped(LeftMajor(ls, rs, on, sl, sr, outer, like), sl + sr)
  {
    if ls != [] {
      assert forall i :: 0 <= i < |ls| - 1 ==> ls[1..][i] == ls[i + 1];
      LeftMajorShaped(ls[1..], rs, on, sl, sr, outer, like);
      KeepShaped(Prefixed(ls[0], rs), on, sl + sr, like, |sl| + |sr|);
    }
  }

  lemma {:induction false} RightMajorShaped(ls: seq<Row>, rs: seq<Row>, on: seq<Expr>, sl: Schema, sr: Schema, like: Matcher)
    requires Shaped(ls, sl) && Shaped(rs, sr)
    ensures Shaped(RightMajor(ls, rs, on, sl, sr, like), sl + sr)
    ensures Shaped(Unmatched(ls, rs, on, sl, sr, like), sl + sr)
  {
    if rs != [] {
      assert forall i :: 0 <= i < |rs| - 1 ==> rs[1..][i] == rs[i + 1];
      RightMajorShaped(ls, rs[1..], on, sl, sr, like);
      KeepShaped(Suffixed(ls, rs[0]), on, sl + sr, like, |sl| + |sr|);
    }
  }

  /** Every row of a well-formed plan has the width of its schema. */
  lemma {:induction false} RowsShaped(p: Plan, w: World)
    requires WellFormed(p, w)
    ensures Shaped(Rows(p, w), SchemaOf(p))
  {
    match p
    case Scan(oid, _, s, ps) => KeepShaped(w.table(oid), ps, s, w.like, |s|);
    case Leaf(_, _) =>
    case Filter(c, e) =>
      RowsShaped(c, w);
      KeepShaped(Rows(c, w), [e], SchemaOf(c), w.like, |SchemaOf(c)|);
    case Join(l, r, on, t) =>
      RowsShaped(l, w);
      RowsShaped(r, w);
      LeftMajorShaped(Rows(l, w), Rows(r, w), on, SchemaOf(l), SchemaOf(r), t.Left? || t.FullOuter?, w.like);
      RightMajorShaped(Rows(l, w), Rows(r, w), on, SchemaOf(l), SchemaOf(r), w.like);
    case Unary(_, _, _) =>
  }
}
