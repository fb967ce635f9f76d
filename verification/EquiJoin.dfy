/** Equi-joins as nested loops: the meaning of the join executors. */
module EquiJoin {
  import opened Values

  type Key = seq<Value>
  type KeyExprs = seq<Row -> Value>

  function KeyOf(exprs: KeyExprs, row: Row): (k: Key)
    ensures |k| == |exprs| && forall i :: 0 <= i < |k| ==> k[i] == exprs[i](row)
  {
    seq(|exprs|, i requires 0 <= i < |exprs| => exprs[i](row))
  }

  predicate HasNull(k: Key) { exists i :: 0 <= i < |k| && IsNull(k[i]) }

  /** A key that contains NULL matches nothing. */
  predicate Joins(k: Key, k': Key) { !HasNull(k) && k == k' }

  /** The join key of a row; the evaluation stops at the first NULL. */
  method JoinKey(row: Row, exprs: KeyExprs) returns (key: Key, hasNull: bool)
    ensures hasNull <==> HasNull(KeyOf(exprs, row))
    ensures hasNull <==> exists i :: 0 <= i < |exprs| && (exprs[i](row).NullInt? || exprs[i](row).NullStr?)
    ensures !hasNull ==> key == KeyOf(exprs, row)
  {
    key := [];
    for i := 0 to |exprs|
      invariant key == KeyOf(exprs, row)[..i]
      invariant forall j :: 0 <= j < i ==> !IsNull(KeyOf(exprs, row)[j])
    {
      var v := exprs[i](row);
      if IsNull(v) {
        assert IsNull(KeyOf(exprs, row)[i]);
        return [], true;
      }
      key := key + [v];
    }
    return key, false;
  }

  // ---------------------------------------------------------------- the meaning of an equi-join

  /** The key columns are equal, one by one, and none is NULL. */
  predicate EqualColumns(l: Row, r: Row, lk: KeyExprs, rk: KeyExprs) {
    |lk| == |rk| && forall i :: 0 <= i < |lk| ==> lk[i](l) == rk[i](r) && !lk[i](l).NullInt? && !lk[i](l).NullStr?
  }

  /** Two rows are joined, once, exactly when their key columns are equal and not NULL. */
  lemma PairIff(l: Row, r: Row, lk: KeyExprs, rk: KeyExprs)
    ensures Pair(l, r, lk, rk) == if EqualColumns(l, r, lk, rk) then [l + r] else []
  {
    var k, k' := KeyOf(lk, l), KeyOf(rk, r);
    if Joins(k, k') {
      forall i | 0 <= i < |lk| ensures lk[i](l) == rk[i](r) && !lk[i](l).NullInt? && !lk[i](l).NullStr? {
        assert k[i] == k'[i] && !IsNull(k[i]);
      }
    }
    if EqualColumns(l, r, lk, rk) {
      assert k == k';
      forall i | 0 <= i < |k| ensures !IsNull(k[i]) { assert k[i] == lk[i](l); }
    }
  }

  lemma {:induction false} OfLeftIff(l: Row, rs: seq<Row>, lk: KeyExprs, rk: KeyExprs, x: Row)
    ensures x in OfLeft(l, rs, lk, rk) <==> exists r :: r in rs && EqualColumns(l, r, lk, rk) && x == l + r
  {
    if rs != [] {
      OfLeftIff(l, rs[1..], lk, rk, x);
      PairIff(l, rs[0], lk, rk);
      assert forall r :: r in rs <==> r == rs[0] || r in rs[1..];
    }
  }

  /** The rows of the equi-join. */
  lemma {:induction false} NestedLoopIff(ls: seq<Row>, rs: seq<Row>, lk: KeyExprs, rk: KeyExprs, x: Row)
    ensures x in NestedLoop(ls, rs, lk, rk)
       <==> exists l, r :: l in ls && r in rs && EqualColumns(l, r, lk, rk) && x == l + r
  {
    if ls != [] {
      NestedLoopIff(ls[1..], rs, lk, rk, x);
      OfLeftIff(ls[0], rs, lk, rk, x);
      assert forall l :: l in ls <==> l == ls[0] || l in ls[1..];
    }
  }

  /** How many of the right rows have the key of the left row. */
  function Partners(l: Row, rs: seq<Row>, lk: KeyExprs, rk: KeyExprs): nat {
    if rs == [] then 0 else (if EqualColumns(l, rs[0], lk, rk) then 1 else 0) + Partners(l, rs[1..], lk, rk)
  }

  lemma {:induction false} OfLeftCount(l: Row, rs: seq<Row>, lk: KeyExprs, rk: KeyExprs)
    ensures |OfLeft(l, rs, lk, rk)| == Partners(l, rs, lk, rk)
  {
    if rs != [] {
      OfLeftCount(l, rs[1..], lk, rk);
      PairIff(l, rs[0], lk, rk);
    }
  }

  // ---------------------------------------------------------------- nested loops

  /** The joined row, if the keys match. */
  function Pair(l: Row, r: Row, lk: KeyExprs, rk: KeyExprs): seq<Row> {
    if Joins(KeyOf(lk, l), KeyOf(rk, r)) then [l + r] else []
  }

  /** The pairs of one left row, in the order of the right rows. */
  function OfLeft(l: Row, rs: seq<Row>, lk: KeyExprs, rk: KeyExprs): seq<Row> {
    if rs == [] then []
    else Pair(l, rs[0], lk, rk) + OfLeft(l, rs[1..], lk, rk)
  }

  /** The nested-loop join, left input outside. */
  function NestedLoop(ls: seq<Row>, rs: seq<Row>, lk: KeyExprs, rk: KeyExprs): seq<Row> {
    if ls == [] then [] else OfLeft(ls[0], rs, lk, rk) + NestedLoop(ls[1..], rs, lk, rk)
  }

  /** The pairs of one right row, in the order of the left rows. */
  function OfRight(ls: seq<Row>, r: Row, lk: KeyExprs, rk: KeyExprs): seq<Row> {
    if ls == [] then []
    else OfRight(ls[..|ls| - 1], r, lk, rk) + Pair(ls[|ls| - 1], r, lk, rk)
  }

  /** The nested-loop join, right input outside. */
  function RightMajor(ls: seq<Row>, rs: seq<Row>, lk: KeyExprs, rk: KeyExprs): seq<Row> {
    if rs == [] then [] else RightMajor(ls, rs[..|rs| - 1], lk, rk) + OfRight(ls, rs[|rs| - 1], lk, rk)
  }

  lemma Associative(a: seq<Row>, b: seq<Row>, c: seq<Row>)
    ensures a + (b + c) == (a + b) + c
  {
  }

  lemma {:induction false} OfLeftAppend(l: Row, a: seq<Row>, b: seq<Row>, lk: KeyExprs, rk: KeyExprs)
    ensures OfLeft(l, a + b, lk, rk) == OfLeft(l, a, lk, rk) + OfLeft(l, b, lk, rk)
  {
    if a == [] {
      assert a + b == b;
    } else {
      OfLeftAppend(l, a[1..], b, lk, rk);
      OfLeftCons(l, a[0], a[1..] + b, lk, rk);
      Associative(Pair(l, a[0], lk, rk), OfLeft(l, a[1..], lk, rk), OfLeft(l, b, lk, rk));
      assert a + b == [a[0]] + (a[1..] + b);
    }
  }

  lemma OfLeftCons(l: Row, r: Row, rs: seq<Row>, lk: KeyExprs, rk: KeyExprs)
    ensures OfLeft(l, [r] + rs, lk, rk) == Pair(l, r, lk, rk) + OfLeft(l, rs, lk, rk)
  {
    assert ([r] + rs)[1..] == rs;
  }

  lemma {:induction false} NestedLoopAppend(a: seq<Row>, b: seq<Row>, rs: seq<Row>, lk: KeyExprs, rk: KeyExprs)
    ensures NestedLoop(a + b, rs, lk, rk) == NestedLoop(a, rs, lk, rk) + NestedLoop(b, rs, lk, rk)
  {
    if a == [] {
      assert a + b == b;
    } else {
      NestedLoopAppend(a[1..], b, rs, lk, rk);
      NestedLoopCons(a[0], a[1..] + b, rs, lk, rk);
      Associative(OfLeft(a[0], rs, lk, rk), NestedLoop(a[1..], rs, lk, rk), NestedLoop(b, rs, lk, rk));
      assert a + b == [a[0]] + (a[1..] + b);
    }
  }

  lemma NestedLoopCons(l: Row, ls: seq<Row>, rs: seq<Row>, lk: KeyExprs, rk: KeyExprs)
    ensures NestedLoop([l] + ls, rs, lk, rk) == OfLeft(l, rs, lk, rk) + NestedLoop(ls, rs, lk, rk)
  {
    assert ([l] + ls)[1..] == ls;
  }

  /** One right row more adds its pairs, as a bag. */
  ghost predicate Adds(ls: seq<Row>, rs: seq<Row>, r: Row, lk: KeyExprs, rk: KeyExprs) {
    multiset(NestedLoop(ls, rs + [r], lk, rk)) == multiset(NestedLoop(ls, rs, lk, rk)) + multiset(OfRight(ls, r, lk, rk))
  }

  lemma {:induction false} AddRightRow(ls: seq<Row>, rs: seq<Row>, r: Row, lk: KeyExprs, rk: KeyExprs)
    ensures Adds(ls, rs, r, lk, rk)
  {
    if ls == [] {
      assert NestedLoop([], rs + [r], lk, rk) == NestedLoop([], rs, lk, rk) == OfRight([], r, lk, rk) == [];
    } else {
      var n := |ls| - 1;
      AddRightRow(ls[..n], rs, r, lk, rk);
      assert ls == ls[..n] + [ls[n]];
      AddLeftRow(ls, ls[..n], ls[n], rs, r, lk, rk);
    }
  }

  lemma AddLeftRow(ls: seq<Row>, init: seq<Row>, l: Row, rs: seq<Row>, r: Row, lk: KeyExprs, rk: KeyExprs)
    requires ls == init + [l] && Adds(init, rs, r, lk, rk)
    ensures Adds(ls, rs, r, lk, rk)
  {
    LastLeftRow(init, l, rs + [r], lk, rk);
    LastLeftRow(init, l, rs, lk, rk);
    OfLeftAppend(l, rs, [r], lk, rk);
    OneRightRow(l, r, lk, rk);
    OfRightLast(init, l, r, lk, rk);
    BagStep(NestedLoop(init, rs, lk, rk), NestedLoop(init, rs + [r], lk, rk), OfRight(init, r, lk, rk),
            OfLeft(l, rs, lk, rk), Pair(l, r, lk, rk));
  }

  lemma OfRightLast(init: seq<Row>, l: Row, r: Row, lk: KeyExprs, rk: KeyExprs)
    ensures OfRight(init + [l], r, lk, rk) == OfRight(init, r, lk, rk) + Pair(l, r, lk, rk)
  {
    assert (init + [l])[..|init|] == init;
  }

  lemma BagStep(a: seq<Row>, a': seq<Row>, c: seq<Row>, b: seq<Row>, d: seq<Row>)
    requires multiset(a') == multiset(a) + multiset(c)
    ensures multiset(a' + (b + d)) == multiset(a + b) + multiset(c + d)
  {
  }

  lemma LastLeftRow(init: seq<Row>, l: Row, rs: seq<Row>, lk: KeyExprs, rk: KeyExprs)
    ensures NestedLoop(init + [l], rs, lk, rk) == NestedLoop(init, rs, lk, rk) + OfLeft(l, rs, lk, rk)
  {
    NestedLoopAppend(init, [l], rs, lk, rk);
    OneLeftRow(l, rs, lk, rk);
  }

  lemma OneLeftRow(l: Row, rs: seq<Row>, lk: KeyExprs, rk: KeyExprs)
    ensures NestedLoop([l], rs, lk, rk) == OfLeft(l, rs, lk, rk)
  {
    assert [l][1..] == [];
    assert NestedLoop([], rs, lk, rk) == [];
  }

  lemma OneRightRow(l: Row, r: Row, lk: KeyExprs, rk: KeyExprs)
    ensures OfLeft(l, [r], lk, rk) == Pair(l, r, lk, rk)
  {
    assert [r][1..] == [];
    assert OfLeft(l, [], lk, rk) == [];
  }

  /** Both nestings give the same bag. */
  lemma {:induction false} SameBag(ls: seq<Row>, rs: seq<Row>, lk: KeyExprs, rk: KeyExprs)
    ensures multiset(RightMajor(ls, rs, lk, rk)) == multiset(NestedLoop(ls, rs, lk, rk))
  {
    if rs == [] {
      NothingToJoin(ls, lk, rk);
    } else {
      var n := |rs| - 1;
      SameBag(ls, rs[..n], lk, rk);
      AddRightRow(ls, rs[..n], rs[n], lk, rk);
      assert rs[..n] + [rs[n]] == rs;
    }
  }

  lemma {:induction false} NothingToJoin(ls: seq<Row>, lk: KeyExprs, rk: KeyExprs)
    ensures NestedLoop(ls, [], lk, rk) == []
  {
    if ls != [] { NothingToJoin(ls[1..], lk, rk); }
  }

  // ---------------------------------------------------------------- order of keys

  predicate SameTypes(k: Key, k': Key) { |k| == |k'| && forall i :: 0 <= i < |k| ==> TypeOf(k[i]) == TypeOf(k'[i]) }

  /** Lexicographic comparison of tuples of the same types. */
  function CompareKeys(k: Key, k': Key): (c: int)
    requires SameTypes(k, k')
    ensures c == -1 || c == 0 || c == 1
    ensures c == 0 <==> k == k'
  {
    if k == [] then 0
    else if Compare(k[0], k'[0]) != 0 then Compare(k[0], k'[0])
    else
      assert k == [k[0]] + k[1..] && k' == [k'[0]] + k'[1..];
      CompareKeys(k[1..], k'[1..])
  }

  lemma {:induction false} KeysAntisymmetric(k: Key, k': Key)
    requires SameTypes(k, k')
    ensures CompareKeys(k, k') == -CompareKeys(k', k)
  {
    if k != [] {
      CompareAntisymmetric(k[0], k'[0]);
      if k[0] == k'[0] { KeysAntisymmetric(k[1..], k'[1..]); }
    }
  }

  lemma {:induction false} KeysTransitive(a: Key, b: Key, c: Key)
    requires SameTypes(a, b) && SameTypes(b, c)
    requires CompareKeys(a, b) <= 0 && CompareKeys(b, c) <= 0
    ensures SameTypes(a, c) && CompareKeys(a, c) <= 0
    ensures CompareKeys(a, b) < 0 || CompareKeys(b, c) < 0 ==> CompareKeys(a, c) < 0
  {
    if a != [] {
      CompareTransitive(a[0], b[0], c[0]);
      CompareAntisymmetric(a[0], b[0]);
      CompareAntisymmetric(b[0], c[0]);
      CompareAntisymmetric(a[0], c[0]);
      if a[0] == b[0] == c[0] { KeysTransitive(a[1..], b[1..], c[1..]); }
      else if Compare(a[0], c[0]) == 0 { CompareAntisymmetric(a[0], b[0]); }
    }
  }

  /** `k` is smaller at the first column in which the keys differ. */
  predicate SmallerKey(k: Key, k': Key) {
    exists i :: 0 <= i < |k| && i < |k'| && k[..i] == k'[..i] && SmallerValue(k[i], k'[i])
  }

  lemma {:induction false} CompareKeysIff(k: Key, k': Key)
    requires SameTypes(k, k')
    ensures CompareKeys(k, k') == -1 <==> SmallerKey(k, k')
  {
    if k != [] {
      CompareIff(k[0], k'[0]);
      if k[0] == k'[0] {
        CompareKeysIff(k[1..], k'[1..]);
        SmallerTail(k, k');
      } else {
        HeadsDiffer(k, k');
      }
    }
  }

  lemma SmallerTail(k: Key, k': Key)
    requires k != [] && k' != [] && k[0] == k'[0] && !SmallerValue(k[0], k'[0])
    ensures SmallerKey(k, k') <==> SmallerKey(k[1..], k'[1..])
  {
    if SmallerKey(k[1..], k'[1..]) {
      var i :| 0 <= i < |k[1..]| && i < |k'[1..]| && k[1..][..i] == k'[1..][..i] && SmallerValue(k[1..][i], k'[1..][i]);
      assert k[..i + 1] == [k[0]] + k[1..][..i] && k'[..i + 1] == [k'[0]] + k'[1..][..i];
    }
    if SmallerKey(k, k') {
      var i :| 0 <= i < |k| && i < |k'| && k[..i] == k'[..i] && SmallerValue(k[i], k'[i]);
      assert k[1..][..i - 1] == k[..i][1..] && k'[1..][..i - 1] == k'[..i][1..];
    }
  }

  lemma HeadsDiffer(k: Key, k': Key)
    requires k != [] && k' != [] && k[0] != k'[0]
    ensures SmallerKey(k, k') <==> SmallerValue(k[0], k'[0])
  {
    assert k[..0] == k'[..0];
    HeadOfPrefix(k, k');
  }
}
