/** The hash join executor: a table of the left rows keyed by the bytes of their join key. */
module HashJoin {
  import opened Values
  import opened EquiJoin
  import B = Bytes

  const STRING_LENGTH := 32

  // ---------------------------------------------------------------- key bytes

  predicate Byteable(s: string) { |s| <= STRING_LENGTH && forall i :: 0 <= i < |s| ==> s[i] as int < 256 }

  predicate Storable(v: Value) { v.Str? ==> Byteable(v.s) }

  /** A string without the NULs at its end. */
  function Trim(s: string): (t: string)
    ensures |t| <= |s| && t == s[..|t|] && forall i :: |t| <= i < |s| ==> s[i] == '\0'
    ensures t != [] ==> t[|t| - 1] != '\0'
  {
    if s != [] && s[|s| - 1] == '\0' then Trim(s[..|s| - 1]) else s
  }

  function TrimValue(v: Value): (w: Value)
    ensures TypeOf(w) == TypeOf(v) && (IsNull(w) <==> IsNull(v)) && (Storable(v) ==> Storable(w))
  {
    if v.Str? then Str(Trim(v.s)) else v
  }

  function TrimKey(k: Key): (t: Key)
    ensures |t| == |k| && forall i :: 0 <= i < |k| ==> t[i] == TrimValue(k[i])
  {
    seq(|k|, i requires 0 <= i < |k| => TrimValue(k[i]))
  }

  /** The key expressions with the NULs at the end of each string dropped. */
  function TrimExprs(exprs: KeyExprs): (t: KeyExprs)
    ensures |t| == |exprs| && forall i, row :: 0 <= i < |t| ==> t[i](row) == TrimValue(exprs[i](row))
  {
    seq(|exprs|, i requires 0 <= i < |exprs| => (row: Row) => TrimValue(exprs[i](row)))
  }

  lemma TrimmedKey(exprs: KeyExprs, row: Row)
    ensures KeyOf(TrimExprs(exprs), row) == TrimKey(KeyOf(exprs, row))
    ensures HasNull(TrimKey(KeyOf(exprs, row))) <==> HasNull(KeyOf(exprs, row))
  {
    var k := KeyOf(exprs, row);
    forall i | 0 <= i < |k| ensures IsNull(TrimKey(k)[i]) <==> IsNull(k[i]) { assert TrimKey(k)[i] == TrimValue(k[i]); }
  }

  function Unsigned(i: int64): nat { if i < 0 then i + 0x1_0000_0000_0000_0000 else i }

  /** The bytes of a string, filled up with zeros. */
  function Padded(s: string): (b: seq<B.byte>)
    requires Byteable(s)
    ensures |b| == STRING_LENGTH
  {
    seq(STRING_LENGTH, i requires 0 <= i < STRING_LENGTH => if i < |s| then s[i] as int else 0)
  }

  function EncodeValue(v: Value): (b: seq<B.byte>)
    requires v.Str? ==> Byteable(v.s)
    ensures |b| == if TypeOf(v) == IntType then 8 else STRING_LENGTH
  {
    match v
    case Int(i) => B.Encode(8, Unsigned(i))
    case Str(s) => Padded(s)
    case NullInt => B.Encode(8, 0x8000_0000_0000_0000)
    case NullStr => seq(STRING_LENGTH, i => if i == 0 then 0xFF else 0)
  }

  predicate StorableKey(k: Key) { forall i :: 0 <= i < |k| ==> Storable(k[i]) }

  function EncodeKey(k: Key): seq<B.byte>
    requires StorableKey(k)
  {
    if k == [] then [] else EncodeValue(k[0]) + EncodeKey(k[1..])
  }

  lemma TrimKeepsBytes(s: string)
    requires Byteable(s)
    ensures Padded(Trim(s)) == Padded(s)
  {
  }

  lemma LongerDiffers(a: string, b: string)
    requires Byteable(a) && Byteable(b) && (b != [] ==> b[|b| - 1] != '\0')
    ensures |a| < |b| ==> Padded(a) != Padded(b)
  {
    if |a| < |b| { assert Padded(a)[|b| - 1] == 0 != Padded(b)[|b| - 1]; }
  }

  /** Strings have the same bytes exactly when they differ in trailing NULs only. */
  lemma PaddedEqualIff(s: string, t: string)
    requires Byteable(s) && Byteable(t)
    ensures Padded(s) == Padded(t) <==> Trim(s) == Trim(t)
  {
    TrimKeepsBytes(s);
    TrimKeepsBytes(t);
    var a, b := Trim(s), Trim(t);
    if Padded(a) == Padded(b) {
      LongerDiffers(a, b);
      LongerDiffers(b, a);
      forall i | 0 <= i < |a| ensures a[i] == b[i] { assert Padded(a)[i] == Padded(b)[i]; }
    }
  }

  lemma ValueEqualIff(v: Value, w: Value)
    requires TypeOf(v) == TypeOf(w) && !IsNull(v) && !IsNull(w) && Storable(v) && Storable(w)
    ensures EncodeValue(v) == EncodeValue(w) <==> TrimValue(v) == TrimValue(w)
  {
    match v
    case Int(i) =>
      B.Powers();
      if EncodeValue(v) == EncodeValue(w) { B.EncodeInjective(8, Unsigned(i), Unsigned(w.i)); }
    case Str(s) => PaddedEqualIff(s, w.s);
  }

  /** Keys without NULL have the same bytes exactly when they differ in trailing NULs only. */
  lemma {:induction false} KeyEqualIff(k: Key, k': Key)
    requires SameTypes(k, k') && StorableKey(k) && StorableKey(k') && !HasNull(k) && !HasNull(k')
    ensures EncodeKey(k) == EncodeKey(k') <==> TrimKey(k) == TrimKey(k')
  {
    if k != [] {
      NoNullTail(k);
      NoNullTail(k');
      ValueEqualIff(k[0], k'[0]);
      KeyEqualIff(k[1..], k'[1..]);
      TrimCons(k, k');
      if EncodeKey(k) == EncodeKey(k') {
        Unjoin(EncodeValue(k[0]), EncodeKey(k[1..]), EncodeValue(k'[0]), EncodeKey(k'[1..]));
      }
    }
  }

  lemma TrimCons(k: Key, k': Key)
    requires k != [] && k' != []
    ensures TrimKey(k) == TrimKey(k') <==> TrimValue(k[0]) == TrimValue(k'[0]) && TrimKey(k[1..]) == TrimKey(k'[1..])
  {
    assert TrimKey(k) == [TrimValue(k[0])] + TrimKey(k[1..]);
    assert TrimKey(k') == [TrimValue(k'[0])] + TrimKey(k'[1..]);
    assert TrimKey(k)[1..] == TrimKey(k[1..]) && TrimKey(k')[1..] == TrimKey(k'[1..]);
  }

  lemma Unjoin(a: seq<B.byte>, b: seq<B.byte>, a': seq<B.byte>, b': seq<B.byte>)
    requires a + b == a' + b' && |a| == |a'|
    ensures a == a' && b == b'
  {
    assert a == (a + b)[..|a|] && a' == (a' + b')[..|a|];
    assert b == (a + b)[|a|..] && b' == (a' + b')[|a|..];
  }

  lemma NoNullTail(k: Key)
    requires k != [] && !HasNull(k)
    ensures !IsNull(k[0]) && !HasNull(k[1..])
  {
    forall i | 0 <= i < |k[1..]| ensures !IsNull(k[1..][i]) { assert k[1..][i] == k[i + 1]; }
  }

  // ---------------------------------------------------------------- buckets

  /** Keys of one type list whose values can be stored. */
  ghost predicate GoodKeys(rows: seq<Row>, exprs: KeyExprs, ts: seq<Type>) {
    forall i :: 0 <= i < |rows| ==> GoodKey(KeyOf(exprs, rows[i]), ts)
  }

  predicate GoodKey(k: Key, ts: seq<Type>) {
    StorableKey(k) && |k| == |ts| && forall i :: 0 <= i < |k| ==> TypeOf(k[i]) == ts[i]
  }

  predicate InBucket(l: Row, code: seq<B.byte>, lk: KeyExprs)
    requires StorableKey(KeyOf(lk, l))
  {
    !HasNull(KeyOf(lk, l)) && EncodeKey(KeyOf(lk, l)) == code
  }

  /** The left rows with the key bytes `code`, in their order. */
  ghost function Bucket(ls: seq<Row>, code: seq<B.byte>, lk: KeyExprs, ts: seq<Type>): seq<Row>
    requires GoodKeys(ls, lk, ts)
  {
    if ls == [] then []
    else
      assert GoodKey(KeyOf(lk, ls[|ls| - 1]), ts);
      Bucket(ls[..|ls| - 1], code, lk, ts) + if InBucket(ls[|ls| - 1], code, lk) then [ls[|ls| - 1]] else []
  }

  /** Each row of a bucket joined with `r`. */
  function WithRight(ls: seq<Row>, r: Row): (out: seq<Row>)
    ensures |out| == |ls| && forall i :: 0 <= i < |ls| ==> out[i] == ls[i] + r
  {
    if ls == [] then [] else WithRight(ls[..|ls| - 1], r) + [ls[|ls| - 1] + r]
  }

  lemma WithRightAppend(a: seq<Row>, b: seq<Row>, r: Row)
    ensures WithRight(a + b, r) == WithRight(a, r) + WithRight(b, r)
  {
  }

  /** The bucket of a right key holds exactly the rows the nested loop over trimmed keys joins. */
  lemma {:induction false} BucketJoins(ls: seq<Row>, r: Row, lk: KeyExprs, rk: KeyExprs, ts: seq<Type>)
    requires GoodKeys(ls, lk, ts) && GoodKey(KeyOf(rk, r), ts) && !HasNull(KeyOf(rk, r))
    ensures WithRight(Bucket(ls, EncodeKey(KeyOf(rk, r)), lk, ts), r) == OfRight(ls, r, TrimExprs(lk), TrimExprs(rk))
  {
    if ls != [] {
      var init, l, code := ls[..|ls| - 1], ls[|ls| - 1], EncodeKey(KeyOf(rk, r));
      assert GoodKey(KeyOf(lk, l), ts);
      BucketJoins(init, r, lk, rk, ts);
      TrimmedKey(lk, l);
      TrimmedKey(rk, r);
      if !HasNull(KeyOf(lk, l)) { KeyEqualIff(KeyOf(lk, l), KeyOf(rk, r)); }
      if InBucket(l, code, lk) { WithRightAppend(Bucket(init, code, lk, ts), [l], r); }
    }
  }

  /** A right row with NULL in its key joins nothing. */
  lemma {:induction false} NullJoinsNothing(ls: seq<Row>, r: Row, lk: KeyExprs, rk: KeyExprs)
    requires HasNull(KeyOf(rk, r))
    ensures OfRight(ls, r, lk, rk) == []
  {
    if ls != [] { NullJoinsNothing(ls[..|ls| - 1], r, lk, rk); }
  }

  // ---------------------------------------------------------------- trailing NULs

  /** Two keys without NULL that are different, but only in trailing NULs. */
  predicate Blurred(k: Key, k': Key) { !HasNull(k) && k != k' && TrimKey(k) == TrimKey(k') }

  /** Rows with the keys `a` and `a` NUL meet in one bucket. */
  lemma TrailingNulCollides()
    ensures Blurred([Str("a")], [Str("a\0")]) && EncodeKey([Str("a")]) == EncodeKey([Str("a\0")])
  {
    assert Trim("a") == "a" && Trim("a\0") == Trim("a");
    var k, k' := [Str("a")], [Str("a\0")];
    assert k[0] != k'[0] && TrimKey(k) == TrimKey(k');
    KeyEqualIff(k, k');
  }

  ghost predicate Sharp(ls: seq<Row>, r: Row, lk: KeyExprs, rk: KeyExprs) {
    forall i :: 0 <= i < |ls| ==> !Blurred(KeyOf(lk, ls[i]), KeyOf(rk, r))
  }

  /** No left and right key differ in trailing NULs only. */
  ghost predicate AllSharp(ls: seq<Row>, rs: seq<Row>, lk: KeyExprs, rk: KeyExprs) {
    forall j :: 0 <= j < |rs| ==> Sharp(ls, rs[j], lk, rk)
  }

  /** The rows `b` are those of `a` when `same` holds, and more otherwise. */
  predicate Grows(a: seq<Row>, b: seq<Row>, same: bool) { if same then a == b else |a| < |b| }

  lemma GrowsBoth(a: seq<Row>, b: seq<Row>, x: bool, c: seq<Row>, d: seq<Row>, y: bool)
    requires Grows(a, b, x) && Grows(c, d, y)
    ensures Grows(a + c, b + d, x && y)
  {
  }

  lemma PairTrimmed(l: Row, r: Row, lk: KeyExprs, rk: KeyExprs)
    ensures Grows(Pair(l, r, lk, rk), Pair(l, r, TrimExprs(lk), TrimExprs(rk)), !Blurred(KeyOf(lk, l), KeyOf(rk, r)))
  {
    TrimmedKey(lk, l);
    TrimmedKey(rk, r);
  }

  lemma SharpLast(init: seq<Row>, l: Row, r: Row, lk: KeyExprs, rk: KeyExprs)
    ensures Sharp(init + [l], r, lk, rk) <==> Sharp(init, r, lk, rk) && !Blurred(KeyOf(lk, l), KeyOf(rk, r))
  {
    var ls := init + [l];
    assert ls[|init|] == l && forall i :: 0 <= i < |init| ==> ls[i] == init[i];
  }

  lemma AllSharpLast(ls: seq<Row>, init: seq<Row>, r: Row, lk: KeyExprs, rk: KeyExprs)
    ensures AllSharp(ls, init + [r], lk, rk) <==> AllSharp(ls, init, lk, rk) && Sharp(ls, r, lk, rk)
  {
    var rs := init + [r];
    assert rs[|init|] == r && forall i :: 0 <= i < |init| ==> rs[i] == init[i];
  }

  ghost predicate RowGrows(ls: seq<Row>, r: Row, lk: KeyExprs, rk: KeyExprs) {
    Grows(OfRight(ls, r, lk, rk), OfRight(ls, r, TrimExprs(lk), TrimExprs(rk)), Sharp(ls, r, lk, rk))
  }

  lemma RowStep(init: seq<Row>, l: Row, r: Row, lk: KeyExprs, rk: KeyExprs)
    requires RowGrows(init, r, lk, rk)
    ensures RowGrows(init + [l], r, lk, rk)
  {
    var tl, tr := TrimExprs(lk), TrimExprs(rk);
    OfRightLast(init, l, r, lk, rk);
    OfRightLast(init, l, r, tl, tr);
    PairTrimmed(l, r, lk, rk);
    SharpLast(init, l, r, lk, rk);
    GrowsBoth(OfRight(init, r, lk, rk), OfRight(init, r, tl, tr), Sharp(init, r, lk, rk),
              Pair(l, r, lk, rk), Pair(l, r, tl, tr), !Blurred(KeyOf(lk, l), KeyOf(rk, r)));
  }

  lemma {:induction false} RowsGrow(ls: seq<Row>, r: Row, lk: KeyExprs, rk: KeyExprs)
    ensures RowGrows(ls, r, lk, rk)
  {
    if ls != [] {
      var init, l := ls[..|ls| - 1], ls[|ls| - 1];
      RowsGrow(init, r, lk, rk);
      RowStep(init, l, r, lk, rk);
      assert init + [l] == ls;
    }
  }

  ghost predicate JoinGrows(ls: seq<Row>, rs: seq<Row>, lk: KeyExprs, rk: KeyExprs) {
    Grows(RightMajor(ls, rs, lk, rk), RightMajor(ls, rs, TrimExprs(lk), TrimExprs(rk)), AllSharp(ls, rs, lk, rk))
  }

  lemma MajorLast(ls: seq<Row>, init: seq<Row>, r: Row, lk: KeyExprs, rk: KeyExprs)
    ensures RightMajor(ls, init + [r], lk, rk) == RightMajor(ls, init, lk, rk) + OfRight(ls, r, lk, rk)
  {
    assert (init + [r])[..|init|] == init;
  }

  lemma JoinStep(ls: seq<Row>, init: seq<Row>, r: Row, lk: KeyExprs, rk: KeyExprs)
    requires JoinGrows(ls, init, lk, rk) && RowGrows(ls, r, lk, rk)
    ensures JoinGrows(ls, init + [r], lk, rk)
  {
    var tl, tr := TrimExprs(lk), TrimExprs(rk);
    MajorLast(ls, init, r, lk, rk);
    MajorLast(ls, init, r, tl, tr);
    AllSharpLast(ls, init, r, lk, rk);
    GrowsBoth(RightMajor(ls, init, lk, rk), RightMajor(ls, init, tl, tr), AllSharp(ls, init, lk, rk),
              OfRight(ls, r, lk, rk), OfRight(ls, r, tl, tr), Sharp(ls, r, lk, rk));
  }

  lemma {:induction false} JoinsGrow(ls: seq<Row>, rs: seq<Row>, lk: KeyExprs, rk: KeyExprs)
    ensures JoinGrows(ls, rs, lk, rk)
  {
    if rs != [] {
      var init, r := rs[..|rs| - 1], rs[|rs| - 1];
      JoinsGrow(ls, init, lk, rk);
      RowsGrow(ls, r, lk, rk);
      JoinStep(ls, init, r, lk, rk);
      assert init + [r] == rs;
    }
  }

  /** The join on trimmed keys is the join on the keys themselves exactly when no left and right
      key differ in trailing NULs only. */
  lemma TrimmedJoinIff(ls: seq<Row>, rs: seq<Row>, lk: KeyExprs, rk: KeyExprs)
    ensures multiset(RightMajor(ls, rs, TrimExprs(lk), TrimExprs(rk))) == multiset(NestedLoop(ls, rs, lk, rk))
            <==> AllSharp(ls, rs, lk, rk)
  {
    SameBag(ls, rs, lk, rk);
    JoinsGrow(ls, rs, lk, rk);
    var a, b := RightMajor(ls, rs, TrimExprs(lk), TrimExprs(rk)), RightMajor(ls, rs, lk, rk);
    assert |multiset(a)| == |a| && |multiset(b)| == |b|;
  }

  // ---------------------------------------------------------------- the executor

  type Table = map<seq<B.byte>, seq<Row>>

  /** The table holds the non-empty buckets of the rows inserted so far. */
  ghost predicate TableOf(table: Table, ls: seq<Row>, lk: KeyExprs, ts: seq<Type>)
    requires GoodKeys(ls, lk, ts)
  {
    forall code :: EntryOk(table, code, ls, lk, ts)
  }

  ghost predicate EntryOk(table: Table, code: seq<B.byte>, ls: seq<Row>, lk: KeyExprs, ts: seq<Type>)
    requires GoodKeys(ls, lk, ts)
  {
    Entry(table, code) == Bucket(ls, code, lk, ts)
  }

  function Entry(table: Table, code: seq<B.byte>): seq<Row> { if code in table then table[code] else [] }

  lemma BucketLast(ls: seq<Row>, l: Row, code: seq<B.byte>, lk: KeyExprs, ts: seq<Type>)
    requires GoodKeys(ls, lk, ts) && GoodKeys(ls + [l], lk, ts) && GoodKey(KeyOf(lk, l), ts)
    ensures Bucket(ls + [l], code, lk, ts) == Bucket(ls, code, lk, ts) + if InBucket(l, code, lk) then [l] else []
  {
    assert (ls + [l])[..|ls|] == ls;
  }

  /** A row without NULL in its key joins the bucket of its key bytes. */
  function Insert(table: Table, l: Row, lk: KeyExprs): Table
    requires StorableKey(KeyOf(lk, l))
  {
    var k := KeyOf(lk, l);
    if HasNull(k) then table else table[EncodeKey(k) := Entry(table, EncodeKey(k)) + [l]]
  }

  lemma InsertKeeps(table: Table, ls: seq<Row>, l: Row, lk: KeyExprs, ts: seq<Type>)
    requires GoodKeys(ls, lk, ts) && TableOf(table, ls, lk, ts) && GoodKey(KeyOf(lk, l), ts)
    ensures GoodKeys(ls + [l], lk, ts) && TableOf(Insert(table, l, lk), ls + [l], lk, ts)
  {
    assert GoodKeys(ls + [l], lk, ts);
    forall code ensures EntryOk(Insert(table, l, lk), code, ls + [l], lk, ts) {
      BucketLast(ls, l, code, lk, ts);
      assert EntryOk(table, code, ls, lk, ts);
    }
  }

  method Append(before: seq<Row>, rows: seq<Row>, r: Row) returns (out: seq<Row>)
    ensures out == before + WithRight(rows, r)
  {
    out := before;
    for j := 0 to |rows|
      invariant out == before + WithRight(rows, r)[..j]
    {
      out := out + [rows[j] + r];
    }
  }

  class HashJoinExecutor {
    const left: seq<Row>
    const right: seq<Row>
    const lk: KeyExprs
    const rk: KeyExprs
    ghost const ts: seq<Type>
    var tuples: seq<Row>
    var tIdx: int

    ghost predicate Ready()
      reads this
    {
      tuples == RightMajor(left, right, TrimExprs(lk), TrimExprs(rk)) && -1 <= tIdx && (tIdx >= 0 ==> tIdx < |tuples|)
    }

    constructor (left: seq<Row>, right: seq<Row>, lk: KeyExprs, rk: KeyExprs, ghost ts: seq<Type>)
      ensures this.left == left && this.right == right && this.lk == lk && this.rk == rk && this.ts == ts
    {
      this.left, this.right, this.lk, this.rk, this.ts := left, right, lk, rk, ts;
      tuples, tIdx := [], -1;
    }

    /** Builds the table from the left input and probes it with the right one: what is produced is
        the nested-loop join on trimmed keys, right input outside. It is the bag of the nested-loop
        join on the keys themselves exactly when no two keys differ in trailing NULs only. */
    method Init()
      requires GoodKeys(left, lk, ts) && GoodKeys(right, rk, ts)
      modifies this
      ensures Ready() && tIdx == -1
      ensures multiset(tuples) == multiset(NestedLoop(left, right, lk, rk)) <==> AllSharp(left, right, lk, rk)
    {
      tIdx := -1;
      var table := Build();
      tuples := [];
      for i := 0 to |right|
        invariant tIdx == -1 && tuples == RightMajor(left, right[..i], TrimExprs(lk), TrimExprs(rk))
      {
        var r := right[i];
        assert GoodKey(KeyOf(rk, r), ts);
        assert right[..i + 1][..i] == right[..i];
        tuples := Probe(table, r, tuples);
      }
      assert right[..|right|] == right;
      TrimmedJoinIff(left, right, lk, rk);
    }

    method Build() returns (table: Table)
      requires GoodKeys(left, lk, ts)
      ensures TableOf(table, left, lk, ts)
    {
      table := map[];
      ghost var done: seq<Row> := [];
      for i := 0 to |left|
        invariant done == left[..i] && GoodKeys(done, lk, ts) && TableOf(table, done, lk, ts)
      {
        assert GoodKey(KeyOf(lk, left[i]), ts);
        InsertKeeps(table, done, left[i], lk, ts);
        table := Add(table, left[i]);
        done := done + [left[i]];
      }
      assert done == left;
    }

    method Add(table: Table, l: Row) returns (table': Table)
      requires StorableKey(KeyOf(lk, l))
      ensures table' == Insert(table, l, lk)
    {
      var key, hasNull := JoinKey(l, lk);
      if hasNull { return table; }
      var code := EncodeKey(key);
      return table[code := Entry(table, code) + [l]];
    }

    method Probe(table: Table, r: Row, before: seq<Row>) returns (out: seq<Row>)
      requires GoodKeys(left, lk, ts) && TableOf(table, left, lk, ts) && GoodKey(KeyOf(rk, r), ts)
      ensures out == before + OfRight(left, r, TrimExprs(lk), TrimExprs(rk))
    {
      var key, hasNull := JoinKey(r, rk);
      if hasNull {
        TrimmedKey(rk, r);
        NullJoinsNothing(left, r, TrimExprs(lk), TrimExprs(rk));
        return before;
      }
      var code := EncodeKey(key);
      BucketJoins(left, r, lk, rk, ts);
      assert EntryOk(table, code, left, lk, ts);
      if code !in table { return before; }
      out := Append(before, table[code], r);
    }

    method Next() returns (more: bool)
      requires Ready()
      modifies `tIdx
      ensures Ready() && (more <==> old(tIdx) + 1 < |tuples|)
      ensures tIdx == if more then old(tIdx) + 1 else old(tIdx)
    {
      if tIdx + 1 >= |tuples| { return false; }
      tIdx := tIdx + 1;
      return true;
    }

    method Current() returns (row: Row)
      requires Ready() && tIdx >= 0
      ensures row == RightMajor(left, right, TrimExprs(lk), TrimExprs(rk))[tIdx]
    {
      return tuples[tIdx];
    }
  }
}
