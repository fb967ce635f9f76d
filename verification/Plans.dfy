/** Logical query plans and their meaning: the sequence of rows they produce. */
module Plans {
  import opened Values
  import opened Expressions

  datatype JoinType = Inner | Left | Right | FullOuter | Cross

  /** `Unary` stands for projection, sort, limit, aggregation, subquery and the update nodes,
      `Leaf` for literal rows. */
  datatype Plan =
    | Scan(oid: nat, alias: string, columns: Schema, conditions: seq<Expr>)
    | Leaf(id: nat, columns: Schema)
    | Filter(child: Plan, condition: Expr)
    | Join(left: Plan, right: Plan, joinOn: seq<Expr>, joinType: JoinType)
    | Unary(op: nat, out: OutSchema, child: Plan)

  /** Sort and limit pass the schema of their child on, the others have their own. */
  datatype OutSchema = SameAsChild | Own(columns: Schema)

  /** The contents of the tables and literals, and what the unary operators do. */
  datatype World = World(
    table: nat -> seq<Row>, literal: nat -> seq<Row>, apply: (nat, seq<Row>) -> seq<Row>, like: Matcher)

  function SchemaOf(p: Plan): Schema {
    match p
    case Scan(_, _, s, _) => s
    case Leaf(_, s) => s
    case Filter(c, _) => SchemaOf(c)
    case Join(l, r, _, _) => SchemaOf(l) + SchemaOf(r)
    case Unary(_, Own(s), _) => s
    case Unary(_, SameAsChild, c) => SchemaOf(c)
  }

  // ---------------------------------------------------------------- meaning

  /** The rows on which all conditions are TRUE. */
  function Keep(rows: seq<Row>, ps: seq<Expr>, s: Schema, like: Matcher): seq<Row> {
    if rows == [] then []
    else if AllHold(ps, s, rows[0], like) then [rows[0]] + Keep(rows[1..], ps, s, like)
    else Keep(rows[1..], ps, s, like)
  }

  function NullRow(s: Schema): (row: Row)
    ensures |row| == |s|
    ensures forall i :: 0 <= i < |s| ==> if s[i].ctype == IntType then row[i].NullInt? else row[i].NullStr?
  {
    seq(|s|, i requires 0 <= i < |s| => NullOf(s[i].ctype))
  }

  function Prefixed(l: Row, rs: seq<Row>): (rows: seq<Row>)
    ensures |rows| == |rs| && forall i :: 0 <= i < |rs| ==> rows[i] == l + rs[i]
  {
    if rs == [] then [] else [l + rs[0]] + Prefixed(l, rs[1..])
  }

  function Suffixed(ls: seq<Row>, r: Row): (rows: seq<Row>)
    ensures |rows| == |ls| && forall i :: 0 <= i < |ls| ==> rows[i] == ls[i] + r
  {
    if ls == [] then [] else [ls[0] + r] + Suffixed(ls[1..], r)
  }

  /** What one left row contributes: its matches, padded with NULLs when there are none and the
      join preserves the left side. */
  function LeftGroup(l: Row, rs: seq<Row>, on: seq<Expr>, sl: Schema, sr: Schema, outer: bool, like: Matcher): seq<Row> {
    var matches := Keep(Prefixed(l, rs), on, sl + sr, like);
    if outer && matches == [] then [l + NullRow(sr)] else matches
  }

  function LeftMajor(ls: seq<Row>, rs: seq<Row>, on: seq<Expr>, sl: Schema, sr: Schema, outer: bool, like: Matcher): seq<Row> {
    if ls == [] then [] else LeftGroup(ls[0], rs, on, sl, sr, outer, like) + LeftMajor(ls[1..], rs, on, sl, sr, outer, like)
  }

  function RightGroup(ls: seq<Row>, r: Row, on: seq<Expr>, sl: Schema, sr: Schema, like: Matcher): seq<Row> {
    var matches := Keep(Suffixed(ls, r), on, sl + sr, like);
    if matches == [] then [NullRow(sl) + r] else matches
  }

  function RightMajor(ls: seq<Row>, rs: seq<Row>, on: seq<Expr>, sl: Schema, sr: Schema, like: Matcher): seq<Row> {
    if rs == [] then [] else RightGroup(ls, rs[0], on, sl, sr, like) + RightMajor(ls, rs[1..], on, sl, sr, like)
  }

  /** The right rows without a match, padded on the left. */
  function Unmatched(ls: seq<Row>, rs: seq<Row>, on: seq<Expr>, sl: Schema, sr: Schema, like: Matcher): seq<Row> {
    if rs == [] then []
    else
      (if Keep(Suffixed(ls, rs[0]), on, sl + sr, like) == [] then [NullRow(sl) + rs[0]] else [])
      + Unmatched(ls, rs[1..], on, sl, sr, like)
  }

  function JoinRows(t: JoinType, ls: seq<Row>, rs: seq<Row>, on: seq<Expr>, sl: Schema, sr: Schema, like: Matcher): seq<Row> {
    match t
    case Inner => LeftMajor(ls, rs, on, sl, sr, false, like)
    case Cross => LeftMajor(ls, rs, on, sl, sr, false, like)
    case Left => LeftMajor(ls, rs, on, sl, sr, true, like)
    case Right => RightMajor(ls, rs, on, sl, sr, like)
    case FullOuter => LeftMajor(ls, rs, on, sl, sr, true, like) + Unmatched(ls, rs, on, sl, sr, like)
  }

  function Rows(p: Plan, w: World): seq<Row> {
    match p
    case Scan(oid, _, s, ps) => Keep(w.table(oid), ps, s, w.like)
    case Leaf(id, _) => w.literal(id)
    case Filter(c, e) => Keep(Rows(c, w), [e], SchemaOf(c), w.like)
    case Join(l, r, on, t) => JoinRows(t, Rows(l, w), Rows(r, w), on, SchemaOf(l), SchemaOf(r), w.like)
    case Unary(op, _, c) => w.apply(op, Rows(c, w))
  }

  // ---------------------------------------------------------------- well-formed plans

  predicate Shaped(rows: seq<Row>, s: Schema) { forall i :: 0 <= i < |rows| ==> |rows[i]| == |s| }

  /** The binder finds every column an expression reads; it panics when one is missing. */
  ghost predicate Binds(e: Expr, s: Schema) { Covers(s, Reads(e)) }

  ghost predicate AllBind(ps: seq<Expr>, s: Schema) { forall i :: 0 <= i < |ps| ==> Binds(ps[i], s) }

  /** Every condition of the plan can be bound where it is. */
  ghost predicate Bindable(p: Plan) {
    match p
    case Scan(_, _, s, ps) => AllBind(ps, s)
    case Leaf(_, _) => true
    case Filter(c, e) => Bindable(c) && Binds(e, SchemaOf(c))
    case Join(l, r, on, _) => Bindable(l) && Bindable(r) && AllBind(on, SchemaOf(l) + SchemaOf(r))
    case Unary(_, _, c) => Bindable(c)
  }

  /** An expression reports the columns it reads.  Null checks and concatenations do not. */
  ghost predicate Reports(e: Expr) { forall c :: c in Reads(e) ==> c in Referenced(e) }

  ghost predicate AllReport(ps: seq<Expr>) { forall i :: 0 <= i < |ps| ==> Reports(ps[i]) }

  /** Every condition of a filter reports the columns it reads. */
  ghost predicate Reporting(p: Plan) {
    match p
    case Scan(_, _, _, _) => true
    case Leaf(_, _) => true
    case Filter(c, e) => Reporting(c) && AllReport(SplitPredicate(e))
    case Join(l, r, _, _) => Reporting(l) && Reporting(r)
    case Unary(_, _, c) => Reporting(c)
  }

  /** No column reference is found on both sides. */
  ghost predicate Disjoint(sl: Schema, sr: Schema) {
    forall c :: Contains(sl, c) ==> !Contains(sr, c)
  }

  ghost predicate WellFormed(p: Plan, w: World) {
    match p
    case Scan(oid, _, s, _) => Shaped(w.table(oid), s)
    case Leaf(id, s) => Shaped(w.literal(id), s)
    case Filter(c, _) => WellFormed(c, w)
    case Join(l, r, _, _) => WellFormed(l, w) && WellFormed(r, w) && Disjoint(SchemaOf(l), SchemaOf(r))
    case Unary(op, _, c) => WellFormed(c, w) && Shaped(w.apply(op, Rows(c, w)), SchemaOf(p))
  }

  /** References with ids of their own and different aliases give disjoint schemas. */
  lemma DistinctRefsAreDisjoint(sl: Schema, sr: Schema)
    requires forall c, d :: c in sl && d in sr ==>
               && c.origin.From? && d.origin.From?
               && c.origin.ref.refID != 0 && d.origin.ref.refID != 0
               && c.origin.ref.refID != d.origin.ref.refID && c.origin.ref.alias != d.origin.ref.alias
    ensures Disjoint(sl, sr)
  {
    forall c | Contains(sl, c) ensures !Contains(sr, c) {
      var i :| 0 <= i < |sl| && SameColumn(sl[i], c);
      assert sl[i] in sl;
      forall j | 0 <= j < |sr| ensures !SameColumn(sr[j], c) { assert sr[j] in sr; }
    }
  }
}
