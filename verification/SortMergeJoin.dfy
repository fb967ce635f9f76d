/** The sort-merge join executor: two cursors over inputs ascending on their join keys. */
module SortMergeJoin {
  import opened Values
  import opened EquiJoin

  predicate HasTypes(k: Key, ts: seq<Type>) { |k| == |ts| && forall i :: 0 <= i < |k| ==> TypeOf(k[i]) == ts[i] }

  /** Ascending under the NULL-first order of the keys, all of the same types. */
  ghost predicate Ascending(rows: seq<Row>, exprs: KeyExprs, ts: seq<Type>) {
    && (forall i {:trigger HasTypes(KeyOf(exprs, rows[i]), ts)} :: 0 <= i < |rows| ==> HasTypes(KeyOf(exprs, rows[i]), ts))
    && (forall i, j {:trigger NotAfter(KeyOf(exprs, rows[i]), KeyOf(exprs, rows[j]))} :: 0 <= i < j < |rows| ==> NotAfter(KeyOf(exprs, rows[i]), KeyOf(exprs, rows[j])))
  }

  predicate NotAfter(k: Key, k': Key) { SameTypes(k, k') && CompareKeys(k, k') <= 0 }

  // ---------------------------------------------------------------- steps of the merge

  predicate AllJoin(l: Row, rs: seq<Row>, lk: KeyExprs, rk: KeyExprs) {
    forall j :: 0 <= j < |rs| ==> Joins(KeyOf(lk, l), KeyOf(rk, rs[j]))
  }

  predicate NoneJoin(l: Row, rs: seq<Row>, lk: KeyExprs, rk: KeyExprs) {
    forall j :: 0 <= j < |rs| ==> !Joins(KeyOf(lk, l), KeyOf(rk, rs[j]))
  }

  lemma {:induction false} NoMatches(l: Row, rs: seq<Row>, lk: KeyExprs, rk: KeyExprs)
    requires NoneJoin(l, rs, lk, rk)
    ensures OfLeft(l, rs, lk, rk) == []
  {
    if rs != [] {
      assert forall j :: 0 <= j < |rs| - 1 ==> rs[1..][j] == rs[j + 1];
      NoMatches(l, rs[1..], lk, rk);
    }
  }

  /** A left row that matches no right row contributes nothing. */
  lemma SkipLeft(ls: seq<Row>, rs: seq<Row>, lk: KeyExprs, rk: KeyExprs)
    requires ls != [] && NoneJoin(ls[0], rs, lk, rk)
    ensures NestedLoop(ls, rs, lk, rk) == NestedLoop(ls[1..], rs, lk, rk)
  {
    NoMatches(ls[0], rs, lk, rk);
  }

  /** A right row that matches no left row contributes nothing. */
  lemma {:induction false} SkipRight(ls: seq<Row>, rs: seq<Row>, lk: KeyExprs, rk: KeyExprs)
    requires rs != [] && forall i :: 0 <= i < |ls| ==> !Joins(KeyOf(lk, ls[i]), KeyOf(rk, rs[0]))
    ensures NestedLoop(ls, rs, lk, rk) == NestedLoop(ls, rs[1..], lk, rk)
  {
    if ls != [] {
      assert forall i :: 0 <= i < |ls| - 1 ==> ls[1..][i] == ls[i + 1];
      SkipRight(ls[1..], rs, lk, rk);
    }
  }

  lemma {:induction false} SkipRights(ls: seq<Row>, rs: seq<Row>, n: nat, lk: KeyExprs, rk: KeyExprs)
    requires n <= |rs|
    requires forall i, j :: 0 <= i < |ls| && 0 <= j < n ==> !Joins(KeyOf(lk, ls[i]), KeyOf(rk, rs[j]))
    ensures NestedLoop(ls, rs, lk, rk) == NestedLoop(ls, rs[n..], lk, rk)
  {
    if n > 0 {
      SkipRight(ls, rs, lk, rk);
      assert forall j :: 0 <= j < n - 1 ==> rs[1..][j] == rs[j + 1];
      SkipRights(ls, rs[1..], n - 1, lk, rk);
      assert rs[1..][n - 1..] == rs[n..];
    } else {
      assert rs[0..] == rs;
    }
  }

  /** Every pair of two groups, left-major. */
  function Pairs(ls: seq<Row>, rs: seq<Row>): seq<Row> {
    if ls == [] then [] else Row1(ls[0], rs) + Pairs(ls[1..], rs)
  }

  function Row1(l: Row, rs: seq<Row>): (out: seq<Row>)
    ensures |out| == |rs| && forall j :: 0 <= j < |rs| ==> out[j] == l + rs[j]
  {
    if rs == [] then [] else [l + rs[0]] + Row1(l, rs[1..])
  }

  lemma {:induction false} AllMatch(l: Row, rs: seq<Row>, lk: KeyExprs, rk: KeyExprs)
    requires AllJoin(l, rs, lk, rk)
    ensures OfLeft(l, rs, lk, rk) == Row1(l, rs)
  {
    if rs != [] {
      assert forall j :: 0 <= j < |rs| - 1 ==> rs[1..][j] == rs[j + 1];
      AllMatch(l, rs[1..], lk, rk);
    }
  }

  lemma RowPairs(l: Row, a: seq<Row>, b: seq<Row>, lk: KeyExprs, rk: KeyExprs)
    requires AllJoin(l, a, lk, rk) && NoneJoin(l, b, lk, rk)
    ensures OfLeft(l, a + b, lk, rk) == Row1(l, a)
  {
    OfLeftAppend(l, a, b, lk, rk);
    AllMatch(l, a, lk, rk);
    NoMatches(l, b, lk, rk);
  }

  /** A group of left rows with one key meets the group of right rows with that key. */
  lemma {:induction false} GroupPairs(ls: seq<Row>, a: seq<Row>, b: seq<Row>, lk: KeyExprs, rk: KeyExprs)
    requires forall i :: 0 <= i < |ls| ==> AllJoin(ls[i], a, lk, rk) && NoneJoin(ls[i], b, lk, rk)
    ensures NestedLoop(ls, a + b, lk, rk) == Pairs(ls, a)
  {
    if ls != [] {
      assert forall i :: 0 <= i < |ls| - 1 ==> ls[1..][i] == ls[i + 1];
      GroupPairs(ls[1..], a, b, lk, rk);
      RowPairs(ls[0], a, b, lk, rk);
    }
  }

  lemma {:induction false} PairsLast(ls: seq<Row>, l: Row, rs: seq<Row>)
    ensures Pairs(ls + [l], rs) == Pairs(ls, rs) + Row1(l, rs)
  {
    if ls == [] {
      assert [l][1..] == [];
      assert Pairs([], rs) == [] && [] + [l] == [l];
    } else {
      PairsLast(ls[1..], l, rs);
      assert (ls + [l])[1..] == ls[1..] + [l];
      Associative(Row1(ls[0], rs), Pairs(ls[1..], rs), Row1(l, rs));
    }
  }

  method AppendPairs(before: seq<Row>, l: Row, rs: seq<Row>) returns (out: seq<Row>)
    ensures out == before + Row1(l, rs)
  {
    out := before;
    for j := 0 to |rs|
      invariant out == before + Row1(l, rs)[..j]
    {
      out := out + [l + rs[j]];
    }
  }

  method JoinGroups(before: seq<Row>, ls: seq<Row>, rs: seq<Row>) returns (out: seq<Row>)
    ensures out == before + Pairs(ls, rs)
  {
    out := before;
    for i := 0 to |ls|
      invariant out == before + Pairs(ls[..i], rs)
    {
      Associative(before, Pairs(ls[..i], rs), Row1(ls[i], rs));
      PairsLast(ls[..i], ls[i], rs);
      assert ls[..i + 1] == ls[..i] + [ls[i]];
      out := AppendPairs(out, ls[i], rs);
    }
    assert ls[..|ls|] == ls;
  }

  /** The keys of `rows[..n]` are `k`, those after it are not. */
  ghost predicate GroupOf(rows: seq<Row>, n: nat, k: Key, exprs: KeyExprs) {
    && n <= |rows|
    && (forall i :: 0 <= i < n ==> KeyOf(exprs, rows[i]) == k)
    && (forall i :: n <= i < |rows| ==> KeyOf(exprs, rows[i]) != k)
  }

  lemma MergeGroups(ls: seq<Row>, rs: seq<Row>, m: nat, n: nat, k: Key, lk: KeyExprs, rk: KeyExprs)
    requires GroupOf(ls, m, k, lk) && GroupOf(rs, n, k, rk) && !HasNull(k)
    ensures NestedLoop(ls, rs, lk, rk) == Pairs(ls[..m], rs[..n]) + NestedLoop(ls[m..], rs[n..], lk, rk)
  {
    assert ls == ls[..m] + ls[m..] && rs == rs[..n] + rs[n..];
    NestedLoopAppend(ls[..m], ls[m..], rs, lk, rk);
    GroupPairs(ls[..m], rs[..n], rs[n..], lk, rk);
    SkipRights(ls[m..], rs, n, lk, rk);
  }

  // ---------------------------------------------------------------- consequences of the order

  /** A key before the first of ascending rows is before all of them. */
  lemma BeforeAll(k: Key, rows: seq<Row>, exprs: KeyExprs, ts: seq<Type>, j: nat)
    requires Ascending(rows, exprs, ts) && HasTypes(k, ts) && j < |rows|
    requires SameTypes(k, KeyOf(exprs, rows[0])) && CompareKeys(k, KeyOf(exprs, rows[0])) < 0
    ensures k != KeyOf(exprs, rows[j])
  {
    if j > 0 {
      assert NotAfter(KeyOf(exprs, rows[0]), KeyOf(exprs, rows[j]));
      KeysTransitive(k, KeyOf(exprs, rows[0]), KeyOf(exprs, rows[j]));
    }
  }

  lemma AscendingDrop(rows: seq<Row>, exprs: KeyExprs, ts: seq<Type>, n: nat)
    requires Ascending(rows, exprs, ts) && n <= |rows|
    ensures Ascending(rows[n..], exprs, ts)
  {
    var rest := rows[n..];
    forall i, j | 0 <= i < j < |rest| ensures NotAfter(KeyOf(exprs, rest[i]), KeyOf(exprs, rest[j])) {
      assert NotAfter(KeyOf(exprs, rows[n + i]), KeyOf(exprs, rows[n + j]));
    }
  }

  /** A run of equal keys that ends at a different key holds all rows with that key. */
  lemma RunIsGroup(rows: seq<Row>, exprs: KeyExprs, ts: seq<Type>, n: nat, k: Key)
    requires Ascending(rows, exprs, ts) && 0 < n <= |rows|
    requires forall i :: 0 <= i < n ==> KeyOf(exprs, rows[i]) == k
    requires n < |rows| ==> KeyOf(exprs, rows[n]) != k
    ensures GroupOf(rows, n, k, exprs)
  {
    if n < |rows| {
      assert NotAfter(KeyOf(exprs, rows[0]), KeyOf(exprs, rows[n]));
      AscendingDrop(rows, exprs, ts, n);
      forall i | n <= i < |rows| ensures KeyOf(exprs, rows[i]) != k {
        BeforeAll(k, rows[n..], exprs, ts, i - n);
        assert rows[n..][i - n] == rows[i];
      }
    }
  }

  // ---------------------------------------------------------------- what the cursors leave

  /** What the rows from the cursors on contribute. */
  function Rest(left: seq<Row>, right: seq<Row>, l: nat, r: nat, lk: KeyExprs, rk: KeyExprs): seq<Row>
    requires l <= |left| && r <= |right|
  {
    NestedLoop(left[l..], right[r..], lk, rk)
  }

  lemma RestExhausted(left: seq<Row>, right: seq<Row>, l: nat, r: nat, lk: KeyExprs, rk: KeyExprs)
    requires l <= |left| && r <= |right| && (l == |left| || r == |right|)
    ensures Rest(left, right, l, r, lk, rk) == []
  {
    NothingToJoin(left[l..], lk, rk);
  }

  lemma NullLeft(left: seq<Row>, right: seq<Row>, l: nat, r: nat, lk: KeyExprs, rk: KeyExprs)
    requires l < |left| && r <= |right| && HasNull(KeyOf(lk, left[l]))
    ensures Rest(left, right, l, r, lk, rk) == Rest(left, right, l + 1, r, lk, rk)
  {
    SkipLeft(left[l..], right[r..], lk, rk);
    assert left[l..][1..] == left[l + 1..];
  }

  lemma NullRight(left: seq<Row>, right: seq<Row>, l: nat, r: nat, lk: KeyExprs, rk: KeyExprs)
    requires l <= |left| && r < |right| && HasNull(KeyOf(rk, right[r]))
    ensures Rest(left, right, l, r, lk, rk) == Rest(left, right, l, r + 1, lk, rk)
  {
    SkipRight(left[l..], right[r..], lk, rk);
    assert right[r..][1..] == right[r + 1..];
  }

  /** The smaller of the two current keys occurs nowhere in the other input. */
  lemma Smaller(left: seq<Row>, right: seq<Row>, l: nat, r: nat, lk: KeyExprs, rk: KeyExprs, ts: seq<Type>, comp: int)
    requires Ascending(left, lk, ts) && Ascending(right, rk, ts) && l < |left| && r < |right|
    requires SameTypes(KeyOf(lk, left[l]), KeyOf(rk, right[r])) && comp == CompareKeys(KeyOf(lk, left[l]), KeyOf(rk, right[r]))
    ensures comp < 0 ==> Rest(left, right, l, r, lk, rk) == Rest(left, right, l + 1, r, lk, rk)
    ensures comp > 0 ==> Rest(left, right, l, r, lk, rk) == Rest(left, right, l, r + 1, lk, rk)
  {
    var ls, rs := left[l..], right[r..];
    AscendingDrop(left, lk, ts, l);
    AscendingDrop(right, rk, ts, r);
    assert ls[1..] == left[l + 1..] && rs[1..] == right[r + 1..];
    if comp < 0 {
      forall j | 0 <= j < |rs| ensures !Joins(KeyOf(lk, ls[0]), KeyOf(rk, rs[j])) {
        BeforeAll(KeyOf(lk, ls[0]), rs, rk, ts, j);
      }
      SkipLeft(ls, rs, lk, rk);
    } else if comp > 0 {
      KeysAntisymmetric(KeyOf(lk, ls[0]), KeyOf(rk, rs[0]));
      forall i | 0 <= i < |ls| ensures !Joins(KeyOf(lk, ls[i]), KeyOf(rk, rs[0])) {
        BeforeAll(KeyOf(rk, rs[0]), ls, lk, ts, i);
      }
      SkipRight(ls, rs, lk, rk);
    }
  }

  /** The run of rows with key `k` from `start` up to `end`. */
  ghost predicate RunOf(rows: seq<Row>, start: nat, end: nat, k: Key, exprs: KeyExprs) {
    && start < end <= |rows|
    && (forall i :: start <= i < end ==> KeyOf(exprs, rows[i]) == k)
    && (end < |rows| ==> KeyOf(exprs, rows[end]) != k)
  }

  lemma EqualRuns(left: seq<Row>, right: seq<Row>, l: nat, r: nat, lEnd: nat, rEnd: nat, k: Key, lk: KeyExprs, rk: KeyExprs, ts: seq<Type>)
    requires Ascending(left, lk, ts) && Ascending(right, rk, ts) && !HasNull(k)
    requires RunOf(left, l, lEnd, k, lk) && RunOf(right, r, rEnd, k, rk)
    ensures Rest(left, right, l, r, lk, rk) == Pairs(left[l..lEnd], right[r..rEnd]) + Rest(left, right, lEnd, rEnd, lk, rk)
  {
    var ls, rs, m, n := left[l..], right[r..], lEnd - l, rEnd - r;
    AscendingDrop(left, lk, ts, l);
    AscendingDrop(right, rk, ts, r);
    RunIsGroup(ls, lk, ts, m, k);
    RunIsGroup(rs, rk, ts, n, k);
    MergeGroups(ls, rs, m, n, k, lk, rk);
    assert ls[..m] == left[l..lEnd] && rs[..n] == right[r..rEnd] && ls[m..] == left[lEnd..] && rs[n..] == right[rEnd..];
  }

  // ---------------------------------------------------------------- the executor

  class SortMergeJoinExecutor {
    const left: seq<Row>
    const right: seq<Row>
    const lk: KeyExprs
    const rk: KeyExprs
    ghost const ts: seq<Type>
    var l: nat
    var r: nat
    var leftNoNext: bool
    var rightNoNext: bool
    var tuples: seq<Row>
    var tIdx: int

    /** Rows not merged yet, and what they still contribute. */
    ghost predicate Valid()
      reads this
    {
      && Ascending(left, lk, ts) && Ascending(right, rk, ts)
      && l <= |left| && r <= |right| && (leftNoNext <==> l == |left|) && (rightNoNext <==> r == |right|)
      && tuples + Rest(left, right, l, r, lk, rk) == NestedLoop(left, right, lk, rk)
      && -1 <= tIdx && (tIdx >= 0 ==> leftNoNext || rightNoNext) && tIdx < |tuples|
    }

    constructor (left: seq<Row>, right: seq<Row>, lk: KeyExprs, rk: KeyExprs, ghost ts: seq<Type>)
      requires Ascending(left, lk, ts) && Ascending(right, rk, ts)
      ensures Valid() && this.left == left && this.right == right && this.lk == lk && this.rk == rk
      ensures tIdx == -1
    {
      this.left, this.right, this.lk, this.rk, this.ts := left, right, lk, rk, ts;
      l, r, leftNoNext, rightNoNext := 0, 0, |left| == 0, |right| == 0;
      tuples, tIdx := [], -1;
      new;
      assert left[0..] == left && right[0..] == right;
    }

    method AdvanceLeft()
      requires l < |left|
      modifies `l, `leftNoNext
      ensures l == old(l) + 1 && (leftNoNext <==> l == |left|)
    {
      l := l + 1;
      leftNoNext := l == |left|;
    }

    method AdvanceRight()
      requires r < |right|
      modifies `r, `rightNoNext
      ensures r == old(r) + 1 && (rightNoNext <==> r == |right|)
    {
      r := r + 1;
      rightNoNext := r == |right|;
    }

    /** Collects the left rows with the current key; a row with a NULL in its key that ends the
        run is skipped as well. */
    method TakeLeft(key: Key) returns (group: seq<Row>, ghost end: nat)
      requires l < |left| && KeyOf(lk, left[l]) == key && !HasNull(key)
      modifies `l, `leftNoNext
      ensures RunOf(left, old(l), end, key, lk) && group == left[old(l)..end]
      ensures l == if end < |left| && HasNull(KeyOf(lk, left[end])) then end + 1 else end
      ensures leftNoNext <==> l == |left|
    {
      group := [left[l]];
      while true
        invariant old(l) <= l < |left| && group == left[old(l)..l + 1]
        invariant forall i :: old(l) <= i <= l ==> KeyOf(lk, left[i]) == key
        decreases |left| - l
      {
        AdvanceLeft();
        end := l;
        if leftNoNext { return; }
        var next, hasNull := JoinKey(left[l], lk);
        if hasNull {
          AdvanceLeft();
          return;
        }
        if next != key { return; }
        group := group + [left[l]];
      }
    }

    method TakeRight(key: Key) returns (group: seq<Row>, ghost end: nat)
      requires r < |right| && KeyOf(rk, right[r]) == key && !HasNull(key)
      modifies `r, `rightNoNext
      ensures RunOf(right, old(r), end, key, rk) && group == right[old(r)..end]
      ensures r == if end < |right| && HasNull(KeyOf(rk, right[end])) then end + 1 else end
      ensures rightNoNext <==> r == |right|
    {
      group := [right[r]];
      while true
        invariant old(r) <= r < |right| && group == right[old(r)..r + 1]
        invariant forall i :: old(r) <= i <= r ==> KeyOf(rk, right[i]) == key
        decreases |right| - r
      {
        AdvanceRight();
        end := r;
        if rightNoNext { return; }
        var next, hasNull := JoinKey(right[r], rk);
        if hasNull {
          AdvanceRight();
          return;
        }
        if next != key { return; }
        group := group + [right[r]];
      }
    }

    lemma Comparable(k: Key, k': Key)
      requires Valid() && l < |left| && r < |right| && k == KeyOf(lk, left[l]) && k' == KeyOf(rk, right[r])
      ensures SameTypes(k, k')
    {
      assert HasTypes(KeyOf(lk, left[l]), ts) && HasTypes(KeyOf(rk, right[r]), ts);
    }

    /** Joins the two groups with the current key. */
    method MergeEqual(key: Key)
      requires Valid() && !leftNoNext && !rightNoNext && tIdx == -1
      requires KeyOf(lk, left[l]) == KeyOf(rk, right[r]) == key && !HasNull(key)
      modifies `l, `r, `leftNoNext, `rightNoNext, `tuples
      ensures Valid() && l > old(l) && r > old(r)
    {
      ghost var l0, r0 := l, r;
      var lGroup, lEnd := TakeLeft(key);
      var rGroup, rEnd := TakeRight(key);
      EqualRuns(left, right, l0, r0, lEnd, rEnd, key, lk, rk, ts);
      if l > lEnd { NullLeft(left, right, lEnd, rEnd, lk, rk); }
      if r > rEnd { NullRight(left, right, l, rEnd, lk, rk); }
      Associative(tuples, Pairs(lGroup, rGroup), Rest(left, right, l, r, lk, rk));
      tuples := JoinGroups(tuples, lGroup, rGroup);
    }

    /** One round of the merge: a cursor moves past a row without a match, or both past a group. */
    method MergeStep()
      requires Valid() && !leftNoNext && !rightNoNext
      modifies `l, `r, `leftNoNext, `rightNoNext, `tuples
      ensures Valid() && old(l) <= l && old(r) <= r && old(l) + old(r) < l + r
    {
      var leftKey, lKeyHasNull := JoinKey(left[l], lk);
      if lKeyHasNull {
        NullLeft(left, right, l, r, lk, rk);
        AdvanceLeft();
        return;
      }
      var rightKey, rKeyHasNull := JoinKey(right[r], rk);
      if rKeyHasNull {
        NullRight(left, right, l, r, lk, rk);
        AdvanceRight();
        return;
      }
      MergeKeys(leftKey, rightKey);
    }

    method MergeKeys(leftKey: Key, rightKey: Key)
      requires Valid() && !leftNoNext && !rightNoNext && !HasNull(leftKey)
      requires KeyOf(lk, left[l]) == leftKey && KeyOf(rk, right[r]) == rightKey
      modifies `l, `r, `leftNoNext, `rightNoNext, `tuples
      ensures Valid() && old(l) <= l && old(r) <= r && old(l) + old(r) < l + r
    {
      Comparable(leftKey, rightKey);
      var comp := CompareKeys(leftKey, rightKey);
      Smaller(left, right, l, r, lk, rk, ts, comp);
      if comp == 0 { MergeEqual(leftKey); }
      else if comp == -1 { AdvanceLeft(); }
      else { AdvanceRight(); }
    }

    /** Merges the inputs on the first call, then steps through the joined rows. */
    method Next() returns (more: bool)
      requires Valid()
      modifies this
      ensures Valid() && tuples == NestedLoop(left, right, lk, rk)
      ensures more <==> old(tIdx) + 1 < |tuples|
      ensures tIdx == if more then old(tIdx) + 1 else old(tIdx)
    {
      while !leftNoNext && !rightNoNext
        invariant Valid() && tIdx == old(tIdx)
        decreases |left| - l + |right| - r
      {
        MergeStep();
      }
      RestExhausted(left, right, l, r, lk, rk);
      if tIdx + 1 >= |tuples| { return false; }
      tIdx := tIdx + 1;
      return true;
    }

    method Current() returns (row: Row)
      requires Valid() && tIdx >= 0
      ensures row == NestedLoop(left, right, lk, rk)[tIdx]
    {
      RestExhausted(left, right, l, r, lk, rk);
      return tuples[tIdx];
    }
  }
}
