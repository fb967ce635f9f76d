/** The predicate pushdown rule and the optimizer loop that applies it. */
module Pushdown {
  import opened Values
  import opened Expressions
  import opened Plans
  import opened JoinFilters

  // ---------------------------------------------------------------- the rule

  predicate CanPushToScan(e: Expr, alias: string) {
    var cols := Referenced(e);
    forall i :: 0 <= i < |cols| ==> cols[i].origin.From? && cols[i].origin.ref.alias == alias
  }

  /** Where the conditions of a filter above a join go, and what becomes of the join type. */
  datatype Shares = Shares(left: seq<Expr>, right: seq<Expr>, on: seq<Expr>, keep: seq<Expr>, joinType: JoinType)

  function Share(d: Shares, p: Expr, sl: Schema, sr: Schema): Shares {
    var appliesLeft, appliesRight := CoversExpr(sl, p), CoversExpr(sr, p);
    match d.joinType
    case Inner =>
      if appliesLeft && !appliesRight then d.(left := d.left + [p])
      else if appliesRight && !appliesLeft then d.(right := d.right + [p])
      else d.(on := d.on + [p])
    case Left =>
      if appliesLeft && !appliesRight then d.(left := d.left + [p]) else d.(keep := d.keep + [p])
    case Right =>
      if appliesRight && !appliesLeft then d.(right := d.right + [p]) else d.(keep := d.keep + [p])
    case FullOuter => d.(keep := d.keep + [p])
    case Cross =>
      if appliesLeft && !appliesRight then d.(left := d.left + [p])
      else if appliesRight && !appliesLeft then d.(right := d.right + [p])
      else d.(joinType := Inner, on := d.on + [p])
  }

  function Distribute(ps: seq<Expr>, t: JoinType, sl: Schema, sr: Schema): Shares {
    if ps == [] then Shares([], [], [], [], t)
    else Share(Distribute(ps[..|ps| - 1], t, sl, sr), ps[|ps| - 1], sl, sr)
  }

  /** A filter with the merged conditions, if there are any. */
  function Wrap(p: Plan, ps: seq<Expr>): (q: Plan)
    ensures NonFilters(q) == NonFilters(p) && (q.Filter? ==> q == p || LeadingFilters(q) == 1 + LeadingFilters(p))
  {
    if ps == [] then p else Filter(p, Conjunction(ps))
  }

  function Assemble(d: Shares, join: Plan): Plan
    requires join.Join?
  {
    Wrap(Plan.Join(Wrap(join.left, d.left), Wrap(join.right, d.right), join.joinOn + d.on, d.joinType), d.keep)
  }

  function Apply(node: Plan): (q: Plan)
    requires node.Filter?
    ensures NonFilters(q) == NonFilters(node)
    ensures q.Filter? ==> q == node || (q.child.Join? && LeadingFilters(q) == 1)
  {
    match node.child
    case Scan(oid, alias, s, ps) =>
      if CanPushToScan(node.condition, alias) then Scan(oid, alias, s, ps + [node.condition]) else node
    case Join(l, r, on, t) =>
      Assemble(Distribute(SplitPredicate(node.condition), t, SchemaOf(l), SchemaOf(r)), node.child)
    case _ => node
  }

  // ---------------------------------------------------------------- the optimizer

  function NonFilters(p: Plan): nat {
    match p
    case Scan(_, _, _, _) => 1
    case Leaf(_, _) => 1
    case Filter(c, _) => NonFilters(c)
    case Join(l, r, _, _) => 1 + NonFilters(l) + NonFilters(r)
    case Unary(_, _, c) => 1 + NonFilters(c)
  }

  function LeadingFilters(p: Plan): nat {
    if p.Filter? then 1 + LeadingFilters(p.child) else 0
  }

  /** What the rule leaves at the root: a filter is matched at most once more, since the rule
      returns either the filter itself or a node of another kind. */
  function Rewrite(p: Plan): (q: Plan)
    ensures NonFilters(q) == NonFilters(p)
    ensures q.Filter? ==> p.Filter? && LeadingFilters(q) <= LeadingFilters(p)
  {
    if p.Filter? then Apply(p) else p
  }

  function Optimize(p: Plan): Plan
    decreases NonFilters(p), LeadingFilters(p)
  {
    match Rewrite(p)
    case Filter(c, e) => Filter(Optimize(c), e)
    case Join(l, r, on, t) => Plan.Join(Optimize(l), Optimize(r), on, t)
    case Unary(op, out, c) => Unary(op, out, Optimize(c))
    case q => q
  }

  // ---------------------------------------------------------------- the program

  method CanPush(e: Expr, alias: string) returns (ok: bool)
    ensures ok <==> CanPushToScan(e, alias)
  {
    var cols := Referenced(e);
    for i := 0 to |cols|
      invariant forall j :: 0 <= j < i ==> cols[j].origin.From? && cols[j].origin.ref.alias == alias
    {
      if cols[i].origin.Derived? { return false; }
      if cols[i].origin.ref.alias != alias { return false; }
    }
    return true;
  }

  /** Distributes the conditions over the two inputs, the join condition and what stays above;
      `changed` is false when the filter node itself is returned. */
  method PushThroughJoin(filter: Plan, join: Plan) returns (node: Plan, changed: bool)
    requires filter.Filter? && join.Join? && filter.child == join
    ensures node == Apply(filter)
    ensures changed <==> !node.Filter?
  {
    var preds := SplitPredicate(filter.condition);
    var sl, sr := SchemaOf(join.left), SchemaOf(join.right);
    var leftPush, rightPush, joinConds, keep := [], [], [], [];
    var joinType := join.joinType;
    for i := 0 to |preds|
      invariant Shares(leftPush, rightPush, joinConds, keep, joinType) == Distribute(preds[..i], join.joinType, sl, sr)
    {
      var pred := preds[i];
      assert preds[..i + 1][..i] == preds[..i];
      var appliesLeft, appliesRight := CoversExpr(sl, pred), CoversExpr(sr, pred);
      match joinType
      case Inner =>
        if appliesLeft && !appliesRight { leftPush := leftPush + [pred]; }
        else if appliesRight && !appliesLeft { rightPush := rightPush + [pred]; }
        else { joinConds := joinConds + [pred]; }
      case Left =>
        if appliesLeft && !appliesRight { leftPush := leftPush + [pred]; } else { keep := keep + [pred]; }
      case Right =>
        if appliesRight && !appliesLeft { rightPush := rightPush + [pred]; } else { keep := keep + [pred]; }
      case FullOuter => keep := keep + [pred];
      case Cross =>
        if appliesLeft && !appliesRight { leftPush := leftPush + [pred]; }
        else if appliesRight && !appliesLeft { rightPush := rightPush + [pred]; }
        else { joinType := Inner; joinConds := joinConds + [pred]; }
    }
    assert preds[..|preds|] == preds;
    var left, right := join.left, join.right;
    if |leftPush| > 0 { var e := MergePredicates(leftPush); left := Filter(left, e); }
    if |rightPush| > 0 { var e := MergePredicates(rightPush); right := Filter(right, e); }
    node := Plan.Join(left, right, join.joinOn + joinConds, joinType);
    changed := true;
    if |keep| > 0 {
      var e := MergePredicates(keep);
      node := Filter(node, e);
      changed := false;
    }
  }

  method ApplyRule(node: Plan) returns (result: Plan, changed: bool)
    requires node.Filter?
    ensures result == Apply(node) && (changed <==> !result.Filter?)
  {
    var child := node.child;
    if child.Scan? {
      var ok := CanPush(node.condition, child.alias);
      if ok { return child.(conditions := child.conditions + [node.condition]), true; }
    }
    if child.Join? { result, changed := PushThroughJoin(node, child); return; }
    return node, false;
  }

  /** Applies the rule until the node stays the same, then descends into the children. */
  method OptimizeWithRule(p: Plan) returns (node: Plan)
    ensures node == Optimize(p)
    decreases NonFilters(p), LeadingFilters(p)
  {
    node := p;
    var changed := true;
    while changed
      invariant (changed && node == p) || (node == Rewrite(p) && (changed ==> !node.Filter?))
      decreases if changed then (if node.Filter? then 2 else 1) else 0
    {
      changed := false;
      if node.Filter? { node, changed := ApplyRule(node); }
    }
    match node
    case Scan(_, _, _, _) =>
    case Leaf(_, _) =>
    case Filter(c, e) => var c' := OptimizeWithRule(c); node := Filter(c', e);
    case Join(l, r, on, t) =>
      var l' := OptimizeWithRule(l);
      var r' := OptimizeWithRule(r);
      node := Plan.Join(l', r', on, t);
    case Unary(op, out, c) => var c' := OptimizeWithRule(c); node := Unary(op, out, c');
  }

  // ---------------------------------------------------------------- one application

  /** What the distribution of `ps` guarantees. */
  ghost predicate SharesOk(d: Shares, ps: seq<Expr>, t: JoinType, sl: Schema, sr: Schema, like: Matcher) {
    && Parts(ps, d.left, d.right, d.on, d.keep, sl, sr, like)
    && (t.Inner? ==> d.joinType == Inner) && (t.Cross? ==> d.joinType.Inner? || d.joinType.Cross?)
    && (t.Inner? || t.Cross? ==> d.keep == [])
    && (t.Left? ==> d.joinType == Left && d.right == [] && d.on == [])
    && (t.Right? ==> d.joinType == Right && d.left == [] && d.on == [])
    && (t.FullOuter? ==> d.joinType == FullOuter && d.left == d.right == d.on == [])
  }

  /** Each condition that is moved below the join can be bound there. */
  ghost predicate MovedBind(d: Shares, sl: Schema, sr: Schema) { AllBind(d.left, sl) && AllBind(d.right, sr) }

  lemma HoldsLeft(p: Expr, sl: Schema, sr: Schema, l: Row, r: Row, like: Matcher)
    requires Binds(p, sl) && |l| == |sl|
    ensures Holds(p, sl + sr, l + r, like) <==> Holds(p, sl, l, like)
  {
    EvalLeft(p, sl, sr, l, r, like);
  }

  lemma HoldsRight(p: Expr, sl: Schema, sr: Schema, l: Row, r: Row, like: Matcher)
    requires Binds(p, sr) && Disjoint(sl, sr) && |l| == |sl|
    ensures Holds(p, sl + sr, l + r, like) <==> Holds(p, sr, r, like)
  {
    EvalRight(p, sl, sr, l, r, like);
  }

  lemma AppendOne(ps: seq<Expr>, p: Expr, s: Schema, row: Row, like: Matcher)
    ensures AllHold(ps + [p], s, row, like) <==> AllHold(ps, s, row, like) && Holds(p, s, row, like)
  {
    AllHoldAppend(ps, [p], s, row, like);
    OneHolds(p, s, row, like);
  }

  lemma ShareMoves(d: Shares, p: Expr, sl: Schema, sr: Schema)
    requires MovedBind(Share(d, p, sl, sr), sl, sr)
    ensures MovedBind(d, sl, sr)
    ensures Share(d, p, sl, sr).left != d.left ==> Share(d, p, sl, sr).left == d.left + [p] && Binds(p, sl)
    ensures Share(d, p, sl, sr).right != d.right ==> Share(d, p, sl, sr).right == d.right + [p] && Binds(p, sr)
  {
    var d' := Share(d, p, sl, sr);
    assert d'.left == d.left || d'.left == d.left + [p];
    assert d'.right == d.right || d'.right == d.right + [p];
    forall i | 0 <= i < |d.left| ensures Binds(d.left[i], sl) { assert d'.left[i] == d.left[i]; }
    forall i | 0 <= i < |d.right| ensures Binds(d.right[i], sr) { assert d'.right[i] == d.right[i]; }
    if d'.left == d.left + [p] { assert d'.left[|d.left|] == p; }
    if d'.right == d.right + [p] { assert d'.right[|d.right|] == p; }
  }

  lemma ShareStep(d: Shares, ps: seq<Expr>, p: Expr, t: JoinType, sl: Schema, sr: Schema, like: Matcher)
    requires SharesOk(d, ps, t, sl, sr, like) && MovedBind(Share(d, p, sl, sr), sl, sr) && Disjoint(sl, sr)
    ensures SharesOk(Share(d, p, sl, sr), ps + [p], t, sl, sr, like)
  {
    var d' := Share(d, p, sl, sr);
    ShareMoves(d, p, sl, sr);
    forall l: Row, r: Row | |l| == |sl|
      ensures PartsAt(ps + [p], d'.left, d'.right, d'.on, d'.keep, sl, sr, like, l, r)
    {
      assert PartsAt(ps, d.left, d.right, d.on, d.keep, sl, sr, like, l, r);
      AppendOne(ps, p, sl + sr, l + r, like);
      AppendOne(d.left, p, sl, l, like);
      AppendOne(d.right, p, sr, r, like);
      AppendOne(d.on, p, sl + sr, l + r, like);
      AppendOne(d.keep, p, sl + sr, l + r, like);
      if d'.left != d.left { HoldsLeft(p, sl, sr, l, r, like); }
      if d'.right != d.right { HoldsRight(p, sl, sr, l, r, like); }
    }
  }

  /** Distribution loses no condition, provided what is moved can be bound where it goes. */
  lemma {:induction false} DistributeOk(ps: seq<Expr>, t: JoinType, sl: Schema, sr: Schema, like: Matcher)
    requires MovedBind(Distribute(ps, t, sl, sr), sl, sr) && Disjoint(sl, sr)
    ensures SharesOk(Distribute(ps, t, sl, sr), ps, t, sl, sr, like)
  {
    if ps == [] {
      forall l: Row, r: Row ensures PartsAt([], [], [], [], [], sl, sr, like, l, r) {}
    } else {
      var n := |ps| - 1;
      ShareMoves(Distribute(ps[..n], t, sl, sr), ps[n], sl, sr);
      DistributeOk(ps[..n], t, sl, sr, like);
      ShareStep(Distribute(ps[..n], t, sl, sr), ps[..n], ps[n], t, sl, sr, like);
      assert ps[..n] + [ps[n]] == ps;
    }
  }

  lemma WrapKeeps(p: Plan, ps: seq<Expr>, w: World)
    requires WellFormed(p, w)
    ensures WellFormed(Wrap(p, ps), w) && SchemaOf(Wrap(p, ps)) == SchemaOf(p)
    ensures Rows(Wrap(p, ps), w) == Keep(Rows(p, w), ps, SchemaOf(p), w.like)
  {
    if ps == [] {
      KeepAll(Rows(p, w), SchemaOf(p), w.like);
    } else {
      KeepMerged(Rows(p, w), ps, SchemaOf(p), w.like);
    }
  }

  /** Filtering the rows of any join is joining filtered inputs and filtering what stays. */
  lemma JoinFilter(d: Shares, t: JoinType, ls: seq<Row>, rs: seq<Row>, on: seq<Expr>, ps: seq<Expr>, sl: Schema, sr: Schema, like: Matcher)
    requires SharesOk(d, ps, t, sl, sr, like) && Shaped(ls, sl) && Shaped(rs, sr)
    ensures Keep(JoinRows(t, ls, rs, on, sl, sr, like), ps, sl + sr, like)
         == Keep(JoinRows(d.joinType, Keep(ls, d.left, sl, like), Keep(rs, d.right, sr, like), on + d.on, sl, sr, like),
                 d.keep, sl + sr, like)
  {
    assert on + [] == on;
    if t.Inner? || t.Cross? {
      InnerFilter(ls, rs, on, ps, d.left, d.right, d.on, sl, sr, like);
      KeepAll(LeftMajor(Keep(ls, d.left, sl, like), Keep(rs, d.right, sr, like), on + d.on, sl, sr, false, like), sl + sr, like);
    } else if t.Left? {
      LeftFilter(ls, rs, on, ps, d.left, d.keep, sl, sr, like);
      KeepAll(rs, sr, like);
    } else if t.Right? {
      RightFilter(ls, rs, on, ps, d.right, d.keep, sl, sr, like);
      KeepAll(ls, sl, like);
    } else {
      FullFilter(d, ls, rs, on, ps, sl, sr, like);
    }
  }

  lemma FullFilter(d: Shares, ls: seq<Row>, rs: seq<Row>, on: seq<Expr>, ps: seq<Expr>, sl: Schema, sr: Schema, like: Matcher)
    requires SharesOk(d, ps, FullOuter, sl, sr, like) && Shaped(ls, sl) && Shaped(rs, sr)
    ensures Keep(JoinRows(FullOuter, ls, rs, on, sl, sr, like), ps, sl + sr, like)
         == Keep(JoinRows(FullOuter, Keep(ls, [], sl, like), Keep(rs, [], sr, like), on, sl, sr, like), d.keep, sl + sr, like)
  {
    KeepAll(ls, sl, like);
    KeepAll(rs, sr, like);
    LeftMajorShaped(ls, rs, on, sl, sr, true, like);
    RightMajorShaped(ls, rs, on, sl, sr, like);
    var rows := JoinRows(FullOuter, ls, rs, on, sl, sr, like);
    forall i | 0 <= i < |rows| ensures AllHold(ps, sl + sr, rows[i], like) <==> AllHold(d.keep, sl + sr, rows[i], like) {
      var l, r := rows[i][..|sl|], rows[i][|sl|..];
      assert rows[i] == l + r;
      assert PartsAt(ps, [], [], [], d.keep, sl, sr, like, l, r);
    }
    KeepEquivalent(rows, ps, d.keep, sl + sr, like);
  }

  predicate SamePlan(p: Plan, q: Plan, w: World) {
    SchemaOf(q) == SchemaOf(p) && Rows(q, w) == Rows(p, w)
  }

  // ---------------------------------------------------------------- binding

  lemma {:induction false} ConjunctionReads(ps: seq<Expr>, s: Schema)
    requires ps != []
    ensures Binds(Conjunction(ps), s) <==> AllBind(ps, s)
  {
    var n := |ps| - 1;
    if n > 0 {
      ConjunctionReads(ps[..n], s);
      assert Conjunction(ps) == And(Conjunction(ps[..n]), ps[n]);
      if AllBind(ps, s) { assert Binds(ps[n], s); assert AllBind(ps[..n], s); }
      if Binds(Conjunction(ps), s) {
        assert Binds(Conjunction(ps[..n]), s) && Binds(ps[n], s);
        forall i | 0 <= i < |ps| ensures Binds(ps[i], s) { if i < n { assert ps[..n][i] == ps[i]; } }
      }
    } else if Binds(ps[0], s) {
      assert AllBind(ps, s);
    } else {
      assert !Binds(ps[0], s);
    }
  }

  lemma {:induction false} SplitReads(e: Expr, s: Schema)
    ensures Binds(e, s) <==> AllBind(SplitPredicate(e), s)
  {
    if e.And? {
      SplitReads(e.left, s);
      SplitReads(e.right, s);
      AllBindAppend(SplitPredicate(e.left), SplitPredicate(e.right), s);
    } else {
      assert SplitPredicate(e)[0] == e;
    }
  }

  lemma AllBindAppend(ps: seq<Expr>, qs: seq<Expr>, s: Schema)
    ensures AllBind(ps + qs, s) <==> AllBind(ps, s) && AllBind(qs, s)
  {
    if AllBind(ps + qs, s) {
      forall i | 0 <= i < |ps| ensures Binds(ps[i], s) { assert (ps + qs)[i] == ps[i]; }
      forall i | 0 <= i < |qs| ensures Binds(qs[i], s) { assert (ps + qs)[|ps| + i] == qs[i]; }
    }
  }

  lemma WrapBinds(p: Plan, ps: seq<Expr>)
    ensures SchemaOf(Wrap(p, ps)) == SchemaOf(p)
    ensures Bindable(Wrap(p, ps)) <==> Bindable(p) && AllBind(ps, SchemaOf(p))
  {
    if ps != [] { ConjunctionReads(ps, SchemaOf(p)); }
  }

  /** A condition that can be bound below a join can be bound above it. */
  lemma BindsAbove(e: Expr, sl: Schema, sr: Schema)
    ensures Binds(e, sl) || Binds(e, sr) ==> Binds(e, sl + sr)
  {
    forall c | Contains(sl, c) ensures Contains(sl + sr, c) {
      var i :| 0 <= i < |sl| && SameColumn(sl[i], c);
      assert (sl + sr)[i] == sl[i];
    }
    forall c | Contains(sr, c) ensures Contains(sl + sr, c) {
      var i :| 0 <= i < |sr| && SameColumn(sr[i], c);
      assert (sl + sr)[|sl| + i] == sr[i];
    }
  }

  lemma AppendBinds(ps: seq<Expr>, p: Expr, s: Schema)
    ensures AllBind(ps + [p], s) <==> AllBind(ps, s) && Binds(p, s)
  {
    AllBindAppend(ps, [p], s);
    assert [p][0] == p;
    if Binds(p, s) { assert AllBind([p], s); }
  }

  lemma ShareBinds(d: Shares, p: Expr, sl: Schema, sr: Schema)
    ensures var d', s := Share(d, p, sl, sr), sl + sr;
            && (Binds(p, s) && AllBind(d.on, s) && AllBind(d.keep, s) ==> AllBind(d'.on, s) && AllBind(d'.keep, s))
            && (MovedBind(d', sl, sr) && AllBind(d'.on, s) && AllBind(d'.keep, s) ==>
                  Binds(p, s) && AllBind(d.on, s) && AllBind(d.keep, s))
  {
    AppendBinds(d.left, p, sl);
    AppendBinds(d.right, p, sr);
    AppendBinds(d.on, p, sl + sr);
    AppendBinds(d.keep, p, sl + sr);
    BindsAbove(p, sl, sr);
  }

  /** What is not moved stays bindable, and nothing becomes bindable by being moved down. */
  lemma {:induction false} DistributeBinds(ps: seq<Expr>, t: JoinType, sl: Schema, sr: Schema)
    ensures var d, s := Distribute(ps, t, sl, sr), sl + sr;
            && (AllBind(ps, s) ==> AllBind(d.on, s) && AllBind(d.keep, s))
            && (MovedBind(d, sl, sr) && AllBind(d.on, s) && AllBind(d.keep, s) ==> AllBind(ps, s))
  {
    if ps != [] {
      var n := |ps| - 1;
      DistributeBinds(ps[..n], t, sl, sr);
      assert ps[..n] + [ps[n]] == ps;
      AppendBinds(ps[..n], ps[n], sl + sr);
      ShareBinds(Distribute(ps[..n], t, sl, sr), ps[n], sl, sr);
      if MovedBind(Distribute(ps, t, sl, sr), sl, sr) { ShareMoves(Distribute(ps[..n], t, sl, sr), ps[n], sl, sr); }
    }
  }

  /** What one application leaves can be bound if and only if the plan could and every condition
      moved below the join can be bound on its side. */
  lemma ApplyBindsIff(p: Plan)
    requires p.Filter? && p.child.Join?
    ensures var join := p.child; var sl, sr := SchemaOf(join.left), SchemaOf(join.right);
            var d := Distribute(SplitPredicate(p.condition), join.joinType, sl, sr);
            Bindable(Apply(p)) <==> Bindable(p) && MovedBind(d, sl, sr)
  {
    var join, ps := p.child, SplitPredicate(p.condition);
    var sl, sr := SchemaOf(join.left), SchemaOf(join.right);
    var d := Distribute(ps, join.joinType, sl, sr);
    SplitReads(p.condition, sl + sr);
    DistributeBinds(ps, join.joinType, sl, sr);
    WrapBinds(join.left, d.left);
    WrapBinds(join.right, d.right);
    AllBindAppend(join.joinOn, d.on, sl + sr);
    WrapBinds(Plan.Join(Wrap(join.left, d.left), Wrap(join.right, d.right), join.joinOn + d.on, d.joinType), d.keep);
  }

  lemma RewriteBinds(p: Plan)
    ensures SchemaOf(Rewrite(p)) == SchemaOf(p)
    ensures Bindable(Rewrite(p)) ==> Bindable(p)
  {
    if p.Filter? {
      if p.child.Join? {
        ApplyBindsIff(p);
        ApplySchema(p);
      } else if p.child.Scan? {
        AppendBinds(p.child.conditions, p.condition, p.child.columns);
      }
    }
  }

  lemma ApplySchema(p: Plan)
    requires p.Filter? && p.child.Join?
    ensures SchemaOf(Apply(p)) == SchemaOf(p)
  {
    var join := p.child;
    var d := Distribute(SplitPredicate(p.condition), join.joinType, SchemaOf(join.left), SchemaOf(join.right));
    WrapBinds(join.left, d.left);
    WrapBinds(join.right, d.right);
    WrapBinds(Plan.Join(Wrap(join.left, d.left), Wrap(join.right, d.right), join.joinOn + d.on, d.joinType), d.keep);
  }

  /** Moving conditions down never helps binding: a plan whose optimized form can be bound can be
      bound. */
  lemma {:induction false} OptimizedBinds(p: Plan)
    ensures SchemaOf(Optimize(p)) == SchemaOf(p)
    ensures Bindable(Optimize(p)) ==> Bindable(Rewrite(p)) && Bindable(p)
    decreases NonFilters(p), LeadingFilters(p)
  {
    RewriteBinds(p);
    match Rewrite(p)
    case Filter(c, _) => OptimizedBinds(c);
    case Join(l, r, _, _) =>
      OptimizedBinds(l);
      OptimizedBinds(r);
    case Unary(_, _, c) => OptimizedBinds(c);
    case _ =>
  }

  // ---------------------------------------------------------------- meaning

  lemma AssembleKeeps(p: Plan, w: World)
    requires WellFormed(p, w) && p.Filter? && p.child.Join? && Bindable(Apply(p))
    ensures WellFormed(Apply(p), w) && SamePlan(p, Apply(p), w)
  {
    var join, ps := p.child, SplitPredicate(p.condition);
    var sl, sr := SchemaOf(join.left), SchemaOf(join.right);
    var d := Distribute(ps, join.joinType, sl, sr);
    ApplyBindsIff(p);
    DistributeOk(ps, join.joinType, sl, sr, w.like);
    WrapKeeps(join.left, d.left, w);
    WrapKeeps(join.right, d.right, w);
    var joined := Plan.Join(Wrap(join.left, d.left), Wrap(join.right, d.right), join.joinOn + d.on, d.joinType);
    WrapKeeps(joined, d.keep, w);
    RowsShaped(join.left, w);
    RowsShaped(join.right, w);
    JoinFilter(d, join.joinType, Rows(join.left, w), Rows(join.right, w), join.joinOn, ps, sl, sr, w.like);
    KeepSplit(Rows(join, w), p.condition, sl + sr, w.like);
  }

  /** One application of the rule that leaves a plan that can be bound keeps the plan well-formed,
      its schema and its rows. */
  lemma RewriteKeeps(p: Plan, w: World)
    requires WellFormed(p, w) && Bindable(Rewrite(p))
    ensures WellFormed(Rewrite(p), w) && SamePlan(p, Rewrite(p), w)
  {
    if p.Filter? {
      if p.child.Join? {
        AssembleKeeps(p, w);
      } else if p.child.Scan? {
        KeepTwice(w.table(p.child.oid), p.child.conditions, [p.condition], p.child.columns, w.like);
      }
    }
  }

  /** Predicate pushdown preserves meaning.  For every plan, with conditions of any kind: if the
      optimized plan can be bound, it produces the same rows in the same order, for every content
      of the tables. */
  lemma {:induction false} PushdownPreservesMeaning(p: Plan, w: World)
    requires WellFormed(p, w) && Bindable(Optimize(p))
    ensures WellFormed(Optimize(p), w) && SamePlan(p, Optimize(p), w)
    decreases NonFilters(p), LeadingFilters(p)
  {
    OptimizedBinds(p);
    RewriteKeeps(p, w);
    match Rewrite(p)
    case Filter(c, _) => PushdownPreservesMeaning(c, w);
    case Join(l, r, _, _) =>
      PushdownPreservesMeaning(l, w);
      PushdownPreservesMeaning(r, w);
    case Unary(_, _, c) => PushdownPreservesMeaning(c, w);
    case _ =>
  }

  // ---------------------------------------------------------------- conditions that report what they read

  lemma AppendReports(ps: seq<Expr>, p: Expr)
    ensures AllReport(ps + [p]) <==> AllReport(ps) && Reports(p)
  {
    if AllReport(ps + [p]) {
      forall i | 0 <= i < |ps| ensures Reports(ps[i]) { assert (ps + [p])[i] == ps[i]; }
      assert (ps + [p])[|ps|] == p;
    }
  }

  lemma CoveredBinds(p: Expr, s: Schema)
    requires Reports(p) && CoversExpr(s, p)
    ensures Binds(p, s)
  {
    forall c | c in Reads(p) ensures Contains(s, c) {
      var i :| 0 <= i < |Referenced(p)| && Referenced(p)[i] == c;
    }
  }

  lemma {:induction false} DistributeReports(ps: seq<Expr>, t: JoinType, sl: Schema, sr: Schema)
    requires AllReport(ps) && forall i :: 0 <= i < |ps| ==> !ps[i].And?
    ensures var d := Distribute(ps, t, sl, sr);
            && MovedBind(d, sl, sr) && AllReport(d.left) && AllReport(d.right) && AllReport(d.keep)
            && (forall e :: e in d.left || e in d.right || e in d.keep ==> !e.And?)
  {
    if ps != [] {
      var n := |ps| - 1;
      DistributeReports(ps[..n], t, sl, sr);
      var d := Distribute(ps[..n], t, sl, sr);
      AppendReports(d.left, ps[n]);
      AppendReports(d.right, ps[n]);
      AppendReports(d.keep, ps[n]);
      AppendBinds(d.left, ps[n], sl);
      AppendBinds(d.right, ps[n], sr);
      if CoversExpr(sl, ps[n]) { CoveredBinds(ps[n], sl); }
      if CoversExpr(sr, ps[n]) { CoveredBinds(ps[n], sr); }
    }
  }

  lemma WrapReports(p: Plan, ps: seq<Expr>)
    requires Reporting(p) && AllReport(ps) && forall e :: e in ps ==> !e.And?
    ensures Reporting(Wrap(p, ps))
  {
    if ps != [] { SplitMerged(ps); }
  }

  lemma RewriteReports(p: Plan)
    requires Bindable(p) && Reporting(p)
    ensures Bindable(Rewrite(p)) && Reporting(Rewrite(p))
  {
    if p.Filter? && p.child.Join? {
      var join, ps := p.child, SplitPredicate(p.condition);
      var sl, sr := SchemaOf(join.left), SchemaOf(join.right);
      var d := Distribute(ps, join.joinType, sl, sr);
      DistributeReports(ps, join.joinType, sl, sr);
      ApplyBindsIff(p);
      WrapReports(join.left, d.left);
      WrapReports(join.right, d.right);
      WrapReports(Plan.Join(Wrap(join.left, d.left), Wrap(join.right, d.right), join.joinOn + d.on, d.joinType), d.keep);
    } else if p.Filter? && p.child.Scan? {
      AppendBinds(p.child.conditions, p.condition, p.child.columns);
    }
  }

  /** A plan that can be bound and whose filters report the columns they read is optimized to a
      plan that can be bound. */
  lemma {:induction false} ReportedPlansBind(p: Plan)
    requires Bindable(p) && Reporting(p)
    ensures Bindable(Optimize(p))
    decreases NonFilters(p), LeadingFilters(p)
  {
    RewriteReports(p);
    match Rewrite(p)
    case Filter(c, _) =>
      ReportedPlansBind(c);
      OptimizedBinds(c);
    case Join(l, r, _, _) =>
      ReportedPlansBind(l);
      ReportedPlansBind(r);
      OptimizedBinds(l);
      OptimizedBinds(r);
    case Unary(_, _, c) => ReportedPlansBind(c);
    case _ =>
  }

  /** So for them pushdown preserves meaning outright. */
  lemma ReportedPlansKeepMeaning(p: Plan, w: World)
    requires WellFormed(p, w) && Bindable(p) && Reporting(p)
    ensures Bindable(Optimize(p)) && WellFormed(Optimize(p), w) && SamePlan(p, Optimize(p), w)
  {
    ReportedPlansBind(p);
    PushdownPreservesMeaning(p, w);
  }

  // ---------------------------------------------------------------- how far it goes

  lemma {:induction false} DistributedType(ps: seq<Expr>, t: JoinType, sl: Schema, sr: Schema)
    ensures var u := Distribute(ps, t, sl, sr).joinType;
            if t.Cross? then u.Inner? || u.Cross? else u == t
  {
    if ps != [] { DistributedType(ps[..|ps| - 1], t, sl, sr); }
  }

  /** What a join type allows to move below. */
  predicate Movable(p: Expr, t: JoinType, sl: Schema, sr: Schema) {
    match t
    case Left => CoversExpr(sl, p) && !CoversExpr(sr, p)
    case Right => CoversExpr(sr, p) && !CoversExpr(sl, p)
    case FullOuter => false
    case _ => true
  }

  /** No filter is left directly above a join whose rule would still move a condition: what stays
      above is what the join type forbids to push, all of it. */
  lemma {:induction false} KeptIsForbidden(ps: seq<Expr>, t: JoinType, sl: Schema, sr: Schema)
    ensures forall e :: e in Distribute(ps, t, sl, sr).keep <==> e in ps && !Movable(e, t, sl, sr)
    ensures var u := Distribute(ps, t, sl, sr).joinType;
            if t.Cross? then u.Inner? || u.Cross? else u == t
  {
    DistributedType(ps, t, sl, sr);
    if ps != [] {
      var n := |ps| - 1;
      KeptIsForbidden(ps[..n], t, sl, sr);
      assert ps == ps[..n] + [ps[n]];
      KeptStep(Distribute(ps[..n], t, sl, sr), ps[n], t, sl, sr);
    }
  }

  lemma KeptStep(d: Shares, p: Expr, t: JoinType, sl: Schema, sr: Schema)
    requires if t.Cross? then d.joinType.Inner? || d.joinType.Cross? else d.joinType == t
    ensures Share(d, p, sl, sr).keep == if Movable(p, t, sl, sr) then d.keep else d.keep + [p]
  {
  }

  // ---------------------------------------------------------------- nothing is left to push

  /** No filter stands directly on a filter, or is an input of a join. */
  predicate Plain(p: Plan) {
    match p
    case Scan(_, _, _, _) => true
    case Leaf(_, _) => true
    case Filter(c, _) => !c.Filter? && Plain(c)
    case Join(l, r, _, _) => !l.Filter? && !r.Filter? && Plain(l) && Plain(r)
    case Unary(_, _, c) => Plain(c)
  }

  /** No filter on a scan could go into the scan, and no condition of a filter on a join could go
      below the join or into its condition. */
  ghost predicate Settled(p: Plan) {
    match p
    case Scan(_, _, _, _) => true
    case Leaf(_, _) => true
    case Filter(c, e) =>
      && Settled(c)
      && (c.Scan? ==> !CanPushToScan(e, c.alias))
      && (c.Join? ==> forall x :: x in SplitPredicate(e) ==> !Movable(x, c.joinType, SchemaOf(c.left), SchemaOf(c.right)))
    case Join(l, r, _, _) => Settled(l) && Settled(r)
    case Unary(_, _, c) => Settled(c)
  }

  lemma PlainWrap(p: Plan, ps: seq<Expr>)
    requires Plain(p) && !p.Filter?
    ensures Plain(Wrap(p, ps))
  {
  }

  /** What stays above a join cannot be moved by the rule. */
  lemma KeptSettles(e: Expr, t: JoinType, sl: Schema, sr: Schema)
    ensures var d := Distribute(SplitPredicate(e), t, sl, sr);
            d.keep != [] ==> d.joinType == t && forall x :: x in SplitPredicate(Conjunction(d.keep)) ==> !Movable(x, t, sl, sr)
  {
    var ps := SplitPredicate(e);
    var d := Distribute(ps, t, sl, sr);
    KeptIsForbidden(ps, t, sl, sr);
    if d.keep != [] {
      assert d.keep[0] in d.keep;
      forall i | 0 <= i < |d.keep| ensures !d.keep[i].And? {
        assert d.keep[i] in d.keep;
        assert d.keep[i] in ps;
      }
      SplitMerged(d.keep);
    }
  }

  /** On such plans the optimizer leaves nothing behind that the rule could still push, at any depth. */
  lemma {:induction false} OptimizeSettles(p: Plan)
    requires Plain(p)
    ensures Settled(Optimize(p))
    decreases NonFilters(p), LeadingFilters(p)
  {
    match p
    case Scan(_, _, _, _) =>
    case Leaf(_, _) =>
    case Join(l, r, _, _) =>
      OptimizeSettles(l);
      OptimizeSettles(r);
    case Unary(_, _, c) => OptimizeSettles(c);
    case Filter(c, e) =>
      if c.Join? { JoinSettles(c, e); }
      else if !c.Scan? {
        OptimizeSettles(c);
        assert !Optimize(c).Scan? && !Optimize(c).Join?;
      }
  }

  lemma {:induction false} JoinSettles(c: Plan, e: Expr)
    requires c.Join? && Plain(c)
    ensures Settled(Optimize(Filter(c, e)))
    decreases NonFilters(c), 0
  {
    var sl, sr := SchemaOf(c.left), SchemaOf(c.right);
    var d := Distribute(SplitPredicate(e), c.joinType, sl, sr);
    var l, r := Wrap(c.left, d.left), Wrap(c.right, d.right);
    PlainWrap(c.left, d.left);
    PlainWrap(c.right, d.right);
    OptimizeSettles(l);
    OptimizeSettles(r);
    var join := Plan.Join(l, r, c.joinOn + d.on, d.joinType);
    assert Optimize(join) == Plan.Join(Optimize(l), Optimize(r), c.joinOn + d.on, d.joinType);
    assert Apply(Filter(c, e)) == Wrap(join, d.keep);
    if d.keep != [] {
      KeptSettles(e, c.joinType, sl, sr);
      OptimizedBinds(l);
      OptimizedBinds(r);
      assert Optimize(Filter(c, e)) == Filter(Optimize(join), Conjunction(d.keep));
    }
  }

  /** A filter on a filter is not reached again once the lower one has gone into the scan. */
  lemma NestedFilterStays(e: Expr)
    requires CanPushToScan(e, "t")
    ensures var scan := Scan(1, "t", [A], []);
            && Optimize(Filter(Filter(scan, e), e)) == Filter(Scan(1, "t", [A], [e]), e)
            && !Settled(Optimize(Filter(Filter(scan, e), e)))
  {
    assert [] + [e] == [e];
  }

  // ---------------------------------------------------------------- exactly when a move is right

  /** The condition is as true of a joined row as of its left part, for the rows a join of this
      kind can produce. */
  ghost predicate AsTrueOnLeft(e: Expr, on: seq<Expr>, sl: Schema, sr: Schema, outer: bool, like: Matcher) {
    forall l: Row, r: Row :: |l| == |sl| && |r| == |sr| ==> AgreesOnLeft(e, on, sl, sr, outer, like, l, r)
  }

  predicate AgreesOnLeft(e: Expr, on: seq<Expr>, sl: Schema, sr: Schema, outer: bool, like: Matcher, l: Row, r: Row) {
    AllHold(on, sl + sr, l + r, like) || (outer && r == NullRow(sr)) ==>
      (Holds(e, sl + sr, l + r, like) <==> Holds(e, sl, l, like))
  }

  /** Filtering above the join and filtering its left input give the same rows. */
  ghost predicate SameMovedLeft(e: Expr, on: seq<Expr>, sl: Schema, sr: Schema, outer: bool, like: Matcher, ls: seq<Row>, rs: seq<Row>) {
    Keep(LeftMajor(ls, rs, on, sl, sr, outer, like), [e], sl + sr, like)
      == LeftMajor(Keep(ls, [e], sl, like), rs, on, sl, sr, outer, like)
  }

  lemma {:induction false} MatchesAgree(e: Expr, on: seq<Expr>, sl: Schema, sr: Schema, outer: bool, like: Matcher, l: Row, rs: seq<Row>)
    requires AsTrueOnLeft(e, on, sl, sr, outer, like) && |l| == |sl| && Shaped(rs, sr)
    ensures var matches := Keep(Prefixed(l, rs), on, sl + sr, like);
            Keep(matches, [e], sl + sr, like) == if Holds(e, sl, l, like) then matches else []
  {
    if rs != [] {
      assert forall i :: 0 <= i < |rs| - 1 ==> rs[1..][i] == rs[i + 1];
      MatchesAgree(e, on, sl, sr, outer, like, l, rs[1..]);
      assert Prefixed(l, rs) == [l + rs[0]] + Prefixed(l, rs[1..]);
      KeepCons(l + rs[0], Prefixed(l, rs[1..]), on, sl + sr, like);
      KeepCons(l + rs[0], Keep(Prefixed(l, rs[1..]), on, sl + sr, like), [e], sl + sr, like);
      OneHolds(e, sl + sr, l + rs[0], like);
      assert AgreesOnLeft(e, on, sl, sr, outer, like, l, rs[0]);
    }
  }

  lemma GroupAgrees(e: Expr, on: seq<Expr>, sl: Schema, sr: Schema, outer: bool, like: Matcher, l: Row, rs: seq<Row>)
    requires AsTrueOnLeft(e, on, sl, sr, outer, like) && |l| == |sl| && Shaped(rs, sr)
    ensures var group := LeftGroup(l, rs, on, sl, sr, outer, like);
            Keep(group, [e], sl + sr, like) == if Holds(e, sl, l, like) then group else []
  {
    MatchesAgree(e, on, sl, sr, outer, like, l, rs);
    var row := l + NullRow(sr);
    OneHolds(e, sl + sr, row, like);
    assert AgreesOnLeft(e, on, sl, sr, outer, like, l, NullRow(sr));
    assert Keep([row], [e], sl + sr, like) == if Holds(e, sl + sr, row, like) then [row] else [];
  }

  lemma {:induction false} MovedLeftSame(e: Expr, on: seq<Expr>, sl: Schema, sr: Schema, outer: bool, like: Matcher, ls: seq<Row>, rs: seq<Row>)
    requires AsTrueOnLeft(e, on, sl, sr, outer, like) && Shaped(ls, sl) && Shaped(rs, sr)
    ensures SameMovedLeft(e, on, sl, sr, outer, like, ls, rs)
  {
    if ls != [] {
      assert forall i :: 0 <= i < |ls| - 1 ==> ls[1..][i] == ls[i + 1];
      MovedLeftSame(e, on, sl, sr, outer, like, ls[1..], rs);
      GroupAgrees(e, on, sl, sr, outer, like, ls[0], rs);
      KeepConcat(LeftGroup(ls[0], rs, on, sl, sr, outer, like), LeftMajor(ls[1..], rs, on, sl, sr, outer, like), [e], sl + sr, like);
      OneHolds(e, sl, ls[0], like);
      LeftMajorCons(ls[0], Keep(ls[1..], [e], sl, like), rs, on, sl, sr, outer, like);
    }
  }

  lemma SingleLeft(l: Row, rs: seq<Row>, on: seq<Expr>, sl: Schema, sr: Schema, outer: bool, like: Matcher)
    ensures LeftMajor([l], rs, on, sl, sr, outer, like) == LeftGroup(l, rs, on, sl, sr, outer, like)
  {
    LeftMajorCons(l, [], rs, on, sl, sr, outer, like);
    assert [l] + [] == [l];
  }

  lemma OneRow(row: Row, ps: seq<Expr>, s: Schema, like: Matcher)
    ensures Keep([row], ps, s, like) == if AllHold(ps, s, row, like) then [row] else []
  {
    KeepCons(row, [], ps, s, like);
    assert [row] + [] == [row];
  }

  /** Tables of one row tell whether the condition agrees on a joined row. */
  lemma MovedLeftAgrees(e: Expr, on: seq<Expr>, sl: Schema, sr: Schema, outer: bool, like: Matcher, l: Row, r: Row)
    requires |l| == |sl| && |r| == |sr|
    requires SameMovedLeft(e, on, sl, sr, outer, like, [l], [r]) && SameMovedLeft(e, on, sl, sr, outer, like, [l], [])
    ensures AgreesOnLeft(e, on, sl, sr, outer, like, l, r)
  {
    OneRow(l, [e], sl, like);
    OneHolds(e, sl, l, like);
    OneHolds(e, sl + sr, l + r, like);
    SingleLeft(l, [r], on, sl, sr, outer, like);
    SingleLeft(l, [], on, sl, sr, outer, like);
    assert Prefixed(l, [r]) == [l + r] && Prefixed(l, []) == [];
    OneRow(l + r, on, sl + sr, like);
    OneRow(l + r, [e], sl + sr, like);
    OneRow(l + NullRow(sr), [e], sl + sr, like);
  }

  /** Moving a condition of an inner, cross or left join to its left input keeps the rows for every
      content of the inputs if and only if the condition is as true of each row the join can
      produce as of its left part. */
  lemma MovedLeftIff(e: Expr, on: seq<Expr>, sl: Schema, sr: Schema, outer: bool, like: Matcher)
    ensures (forall ls, rs :: Shaped(ls, sl) && Shaped(rs, sr) ==> SameMovedLeft(e, on, sl, sr, outer, like, ls, rs))
       <==> AsTrueOnLeft(e, on, sl, sr, outer, like)
  {
    if AsTrueOnLeft(e, on, sl, sr, outer, like) {
      forall ls, rs | Shaped(ls, sl) && Shaped(rs, sr) ensures SameMovedLeft(e, on, sl, sr, outer, like, ls, rs) {
        MovedLeftSame(e, on, sl, sr, outer, like, ls, rs);
      }
    } else {
      var l: Row, r: Row :| |l| == |sl| && |r| == |sr| && !AgreesOnLeft(e, on, sl, sr, outer, like, l, r);
      assert Shaped([l], sl) && Shaped([r], sr) && Shaped([], sr);
      if SameMovedLeft(e, on, sl, sr, outer, like, [l], [r]) && SameMovedLeft(e, on, sl, sr, outer, like, [l], []) {
        MovedLeftAgrees(e, on, sl, sr, outer, like, l, r);
      }
    }
  }

  // Two one-column tables and the condition `a = a OR b IS NULL`.
  const A := Column("a", IntType, From(TableRef(1, "t")))
  const B := Column("b", IntType, From(TableRef(2, "u")))
  const A_OR_NO_B := Or(Cmp(Equal, Expr.Col(A), Expr.Col(A)), NullCheck(false, Expr.Col(B)))

  /** A condition that reports only columns of the left scan ends up in that scan. */
  lemma MovedToLeftScan(a: Plan, b: Plan, e: Expr)
    requires a.Scan? && b.Scan? && !e.And? && CanPushToScan(e, a.alias)
    requires CoversExpr(a.columns, e) && !CoversExpr(b.columns, e)
    ensures Optimize(Filter(Plan.Join(a, b, [], Inner), e))
         == Plan.Join(a.(conditions := a.conditions + [e]), b, [], Inner)
  {
    assert SplitPredicate(e) == [e];
    var d := Distribute([e], Inner, a.columns, b.columns);
    assert d == Share(Distribute([], Inner, a.columns, b.columns), e, a.columns, b.columns);
    assert d == Shares([e], [], [], [], Inner);
    assert Rewrite(Filter(Plan.Join(a, b, [], Inner), e)) == Plan.Join(Filter(a, e), b, [], Inner);
  }

  lemma ReportsOnlyA()
    ensures Referenced(A_OR_NO_B) == [A, A] && Reads(A_OR_NO_B) == {A, B}
    ensures !SameColumn(A, B) && !SameColumn(B, A) && SameColumn(A, A) && SameColumn(B, B)
  {
    assert A.name[0] == 'a' && B.name[0] == 'b';
  }

  const T := Scan(1, "t", [A], [])
  const U := Scan(2, "u", [B], [])
  const MIXED := Filter(Plan.Join(T, U, [], Inner), A_OR_NO_B)
  const MOVED := Plan.Join(Scan(1, "t", [A], [A_OR_NO_B]), U, [], Inner)

  lemma MixedBinding()
    ensures Binds(A_OR_NO_B, [A, B]) && !Binds(A_OR_NO_B, [A])
    ensures CoversExpr([A], A_OR_NO_B) && !CoversExpr([B], A_OR_NO_B)
  {
    ReportsOnlyA();
    assert [A, B][0] == A && [A, B][1] == B && [A][0] == A;
    assert B in Reads(A_OR_NO_B) && !Contains([A], B);
    assert Referenced(A_OR_NO_B)[0] == A && !Contains([B], A);
  }

  lemma MixedIsBindable()
    ensures Bindable(MIXED)
  {
    MixedBinding();
    assert SchemaOf(MIXED.child) == [A, B];
  }

  lemma MovedIsNotBindable()
    ensures !Bindable(MOVED)
  {
    MixedBinding();
    assert [A_OR_NO_B][0] == A_OR_NO_B;
    assert !AllBind([A_OR_NO_B], [A]);
  }

  /** Why the optimized plan has to be bindable: `A_OR_NO_B` reports only `a`, is moved below the
      join to the side of `a`, and `b` is not found there. */
  lemma UnreportedColumnIsLost()
    ensures Bindable(MIXED) && Optimize(MIXED) == MOVED && !Bindable(MOVED)
  {
    MixedIsBindable();
    MovedIsNotBindable();
    MovedToT();
  }

  lemma MovedToT()
    ensures Optimize(MIXED) == MOVED
  {
    MixedBinding();
    ReportsOnlyA();
    MovedToLeftScan(T, U, A_OR_NO_B);
    assert T.conditions + [A_OR_NO_B] == [A_OR_NO_B];
  }

  lemma MixedValues(like: Matcher)
    ensures Eval(A_OR_NO_B, [A, B], [NullInt, Int(5)], like) == NullInt
    ensures Eval(A_OR_NO_B, [A], [NullInt], like) == Bool(true)
  {
    ReportsOnlyA();
    var row: Row := [NullInt, Int(5)];
    assert [A, B][1..] == [B] && [A][1..] == [] && [B][0] == B;
    assert Offset([A, B], A) == 0 && Offset([B], B) == 0 && Offset([A, B], B) == 1;
    assert Offset([A], A) == 0 && Offset([A], B) == 1;
    assert Eval(Expr.Col(A), [A, B], row, like) == NullInt && Eval(Expr.Col(B), [A, B], row, like) == Int(5);
    assert Eval(Expr.Col(A), [A], [NullInt], like) == NullInt && Eval(Expr.Col(B), [A], [NullInt], like) == NullInt;
    assert Eval(NullCheck(false, Expr.Col(B)), [A, B], row, like) == Bool(false);
    assert Eval(NullCheck(false, Expr.Col(B)), [A], [NullInt], like) == Bool(true);
    assert Eval(Cmp(Equal, Expr.Col(A), Expr.Col(A)), [A, B], row, like) == NullInt;
  }

  /** Read as NULL, the missing column would add a row: with `a` NULL and `b` 5 the condition is not
      TRUE above the join and TRUE on the left side. */
  lemma UnreportedColumnAddsRow(w: World)
    requires w.table(1) == [[NullInt]] && w.table(2) == [[Int(5)]]
    ensures WellFormed(MIXED, w) && Rows(MIXED, w) == [] && Rows(MOVED, w) == [[NullInt, Int(5)]]
  {
    var joined: Row := [NullInt, Int(5)];
    var l, r: Row := [NullInt], [Int(5)];
    assert l + r == joined && [A] + [B] == [A, B];
    MixedValues(w.like);
    KeepAll(w.table(1), [A], w.like);
    KeepAll(w.table(2), [B], w.like);
    OneHolds(A_OR_NO_B, [A, B], joined, w.like);
    OneHolds(A_OR_NO_B, [A], l, w.like);
    OneRow(joined, [A_OR_NO_B], [A, B], w.like);
    OneRow(l, [A_OR_NO_B], [A], w.like);
    OneRow(joined, [], [A, B], w.like);
    SingleLeft(l, [r], [], [A], [B], false, w.like);
    assert Prefixed(l, [r]) == [joined];
    DistinctColumns();
    assert Rows(Plan.Join(T, U, [], Inner), w) == [joined];
    assert Rows(Scan(1, "t", [A], [A_OR_NO_B]), w) == [l];
  }

  lemma DistinctColumns()
    ensures Disjoint([A], [B])
  {
    forall c | Contains([A], c) ensures !Contains([B], c) {
      assert EqualFold(A.name, c.name);
      assert Lower(A.name[0]) == Lower(c.name[0]);
      assert Lower(B.name[0]) == 'b' && Lower(A.name[0]) == 'a';
      assert !EqualFold(B.name, c.name);
    }
  }
}
