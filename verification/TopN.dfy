/** The TopN executor: a bounded max-heap over the rows seen so far. */
module TopN {
  import opened Values
  import opened EquiJoin
  import opened SortOrder

  /** Keys of one list of types. */
  ghost predicate Typed(k: Key, ts: seq<Type>) { |k| == |ts| && forall i :: 0 <= i < |k| ==> TypeOf(k[i]) == ts[i] }

  predicate Above(a: Item, b: Item, dirs: seq<Direction>) { NotAfter(b.keys, a.keys, dirs) }

  // ---------------------------------------------------------------- heaps

  function Parent(i: nat): nat { if i == 0 then 0 else (i - 1) / 2 }

  predicate ParentOk(s: seq<Item>, i: nat, dirs: seq<Direction>)
    requires i < |s|
  {
    i > 0 ==> Above(s[Parent(i)], s[i], dirs)
  }

  /** A child of `i` is not above the parent of `i`. */
  predicate GrandOk(s: seq<Item>, i: nat, c: nat, dirs: seq<Direction>) {
    c < |s| && c > 0 && Parent(c) == i && 0 < i < |s| ==> Above(s[Parent(i)], s[c], dirs)
  }

  ghost predicate IsHeap(s: seq<Item>, dirs: seq<Direction>) {
    forall i: nat {:trigger ParentOk(s, i, dirs)} :: i < |s| ==> ParentOk(s, i, dirs)
  }

  /** A heap but for position `j`, which may be larger than its parent. */
  ghost predicate HeapButUp(s: seq<Item>, j: nat, dirs: seq<Direction>) {
    && j < |s|
    && (forall i: nat {:trigger ParentOk(s, i, dirs)} :: i < |s| && i != j ==> ParentOk(s, i, dirs))
    && (forall c: nat {:trigger GrandOk(s, j, c, dirs)} :: GrandOk(s, j, c, dirs))
  }

  /** A heap but for position `j`, which may be smaller than its children. */
  ghost predicate HeapButDown(s: seq<Item>, j: nat, dirs: seq<Direction>) {
    && (forall i: nat {:trigger ParentOk(s, i, dirs)} :: i < |s| && (i == j || Parent(i) != j) ==> ParentOk(s, i, dirs))
    && (forall c: nat {:trigger GrandOk(s, j, c, dirs)} :: GrandOk(s, j, c, dirs))
  }

  ghost predicate AllTyped(s: seq<Item>, ts: seq<Type>) { forall i :: 0 <= i < |s| ==> Typed(s[i].keys, ts) }

  /** The root of a heap is above all of it. */
  lemma {:induction false} RootAbove(s: seq<Item>, i: nat, dirs: seq<Direction>, ts: seq<Type>)
    requires IsHeap(s, dirs) && AllTyped(s, ts) && |ts| == |dirs| && i < |s|
    ensures Above(s[0], s[i], dirs)
  {
    if i > 0 {
      RootAbove(s, Parent(i), dirs, ts);
      assert ParentOk(s, i, dirs);
      NotAfterTransitive(s[i].keys, s[Parent(i)].keys, s[0].keys, dirs);
    } else {
      assert Typed(s[0].keys, ts);
    }
  }

  lemma Total(a: Item, b: Item, dirs: seq<Direction>, ts: seq<Type>)
    requires Typed(a.keys, ts) && Typed(b.keys, ts) && |ts| == |dirs|
    ensures Above(a, b, dirs) || Above(b, a, dirs)
    ensures SameTypes(a.keys, b.keys) && (Above(a, b, dirs) <==> Order(a.keys, b.keys, dirs) >= 0)
  {
    OrderAntisymmetric(a.keys, b.keys, dirs);
  }

  function Swapped(s: seq<Item>, i: nat, j: nat): (t: seq<Item>)
    requires i < |s| && j < |s|
    ensures |t| == |s| && multiset(t) == multiset(s)
    ensures forall k :: 0 <= k < |s| ==> t[k] == if k == i then s[j] else if k == j then s[i] else s[k]
  {
    s[i := s[j]][j := s[i]]
  }

  lemma IsChild(i: nat, j: nat)
    requires i > 0
    ensures Parent(i) == j <==> i == 2 * j + 1 || i == 2 * j + 2
    ensures Parent(i) < i
  {
  }

  /** Moving an item up one level. */
  lemma UpStep(s: seq<Item>, j: nat, dirs: seq<Direction>, ts: seq<Type>)
    requires AllTyped(s, ts) && |ts| == |dirs| && HeapButUp(s, j, dirs) && j > 0 && Above(s[j], s[Parent(j)], dirs)
    ensures HeapButUp(Swapped(s, Parent(j), j), Parent(j), dirs)
  {
    var p := Parent(j);
    var t := Swapped(s, p, j);
    IsChild(j, p);
    forall i: nat | i < |t| && i != p ensures ParentOk(t, i, dirs) {
      if i != j && i > 0 {
        IsChild(i, Parent(i));
        assert ParentOk(s, i, dirs) && GrandOk(s, j, i, dirs);
        if Parent(i) == p { NotAfterTransitive(s[i].keys, s[p].keys, s[j].keys, dirs); }
      }
    }
    forall c: nat ensures GrandOk(t, p, c, dirs) {
      if 0 < c < |t| && Parent(c) == p && p > 0 {
        IsChild(p, Parent(p));
        IsChild(c, p);
        assert ParentOk(s, p, dirs);
        if c != j {
          assert ParentOk(s, c, dirs);
          NotAfterTransitive(s[c].keys, s[p].keys, s[Parent(p)].keys, dirs);
        }
      }
    }
  }

  lemma UpDone(s: seq<Item>, j: nat, dirs: seq<Direction>)
    requires HeapButUp(s, j, dirs) && ParentOk(s, j, dirs)
    ensures IsHeap(s, dirs)
  {
  }

  /** `c` is the larger child of `j`. */
  predicate LargerChild(s: seq<Item>, j: nat, c: nat, dirs: seq<Direction>) {
    && 2 * j + 1 <= c <= 2 * j + 2 && c < |s|
    && Above(s[c], s[2 * j + 1], dirs) && (2 * j + 2 < |s| ==> Above(s[c], s[2 * j + 2], dirs))
  }

  lemma DownParent(s: seq<Item>, j: nat, c: nat, dirs: seq<Direction>, i: nat)
    requires HeapButDown(s, j, dirs) && LargerChild(s, j, c, dirs) && Above(s[c], s[j], dirs)
    requires i < |s| && (i == c || Parent(i) != c)
    ensures ParentOk(Swapped(s, j, c), i, dirs)
  {
    IsChild(c, j);
    if i == j {
      if j > 0 {
        IsChild(j, Parent(j));
        assert GrandOk(s, j, c, dirs);
      }
    } else if i > 0 {
      IsChild(i, Parent(i));
      if Parent(i) == j { IsChild(i, j); } else { assert ParentOk(s, i, dirs); }
    }
  }

  /** Moving an item down one level. */
  lemma DownStep(s: seq<Item>, j: nat, c: nat, dirs: seq<Direction>)
    requires HeapButDown(s, j, dirs) && LargerChild(s, j, c, dirs) && Above(s[c], s[j], dirs)
    ensures HeapButDown(Swapped(s, j, c), c, dirs)
  {
    var t := Swapped(s, j, c);
    IsChild(c, j);
    forall i: nat | i < |t| && (i == c || Parent(i) != c) ensures ParentOk(t, i, dirs) { DownParent(s, j, c, dirs, i); }
    forall i: nat ensures GrandOk(t, c, i, dirs) {
      if 0 < i < |t| && Parent(i) == c {
        IsChild(i, c);
        assert ParentOk(s, i, dirs);
      }
    }
  }

  lemma DownDone(s: seq<Item>, j: nat, dirs: seq<Direction>)
    requires HeapButDown(s, j, dirs)
    requires 2 * j + 1 < |s| ==> j < |s| && Above(s[j], s[2 * j + 1], dirs)
    requires 2 * j + 2 < |s| ==> Above(s[j], s[2 * j + 2], dirs)
    ensures IsHeap(s, dirs)
  {
    forall i: nat | i < |s| ensures ParentOk(s, i, dirs) {
      if i > 0 { IsChild(i, j); }
    }
  }

  // ---------------------------------------------------------------- the heap

  /** The first difference of two key lists and its position. */
  method CompareItems(a: Item, b: Item, ghost dirs: seq<Direction>) returns (val: int, ordIdx: nat)
    requires SameTypes(a.keys, b.keys) && |dirs| == |a.keys|
    ensures ordIdx <= |a.keys| && (ordIdx == |a.keys| ==> val == 0)
    ensures Order(a.keys, b.keys, dirs) == if ordIdx < |a.keys| then Directed(val, dirs[ordIdx]) else 0
  {
    ghost var goal := Order(a.keys, b.keys, dirs);
    assert a.keys[0..] == a.keys && b.keys[0..] == b.keys && dirs[0..] == dirs;
    for i := 0 to |a.keys|
      invariant SameTypes(a.keys[i..], b.keys[i..]) && Order(a.keys[i..], b.keys[i..], dirs[i..]) == goal
    {
      assert a.keys[i..][1..] == a.keys[i + 1..] && b.keys[i..][1..] == b.keys[i + 1..] && dirs[i..][1..] == dirs[i + 1..];
      var ret := Compare(a.keys[i], b.keys[i]);
      if ret != 0 { return ret, i; }
    }
    return 0, |a.keys|;
  }

  class MaxHeap {
    const ordDirs: seq<Direction>
    ghost const ts: seq<Type>
    var tuples: seq<Item>

    ghost predicate Valid()
      reads this
    {
      |ts| == |ordDirs| && AllTyped(tuples, ts)
    }

    constructor (ordDirs: seq<Direction>, ghost ts: seq<Type>)
      requires |ts| == |ordDirs|
      ensures Valid() && tuples == [] && this.ordDirs == ordDirs && this.ts == ts
    {
      this.ordDirs, this.ts, tuples := ordDirs, ts, [];
    }

    method Less(i: nat, j: nat) returns (less: bool)
      requires Valid() && i < |tuples| && j < |tuples|
      ensures less <==> Above(tuples[i], tuples[j], ordDirs)
      ensures !less ==> Above(tuples[j], tuples[i], ordDirs)
      ensures less <==> !ComesBefore(tuples[i].keys, tuples[j].keys, ordDirs)
    {
      NotAfterIff(tuples[j].keys, tuples[i].keys, ordDirs) by {
        assert Typed(tuples[i].keys, ts) && Typed(tuples[j].keys, ts);
      }
      assert Typed(tuples[i].keys, ts) && Typed(tuples[j].keys, ts);
      Total(tuples[i], tuples[j], ordDirs, ts);
      var val, ordIdx := CompareItems(tuples[i], tuples[j], ordDirs);
      if val != 0 && ordDirs[ordIdx] == Descending { val := val * -1; }
      return val != -1;
    }

    method Swap(i: nat, j: nat)
      requires Valid() && i < |tuples| && j < |tuples|
      modifies `tuples
      ensures Valid() && tuples == Swapped(old(tuples), i, j)
    {
      tuples := tuples[i := tuples[j]][j := tuples[i]];
    }

    /** Sifts the item at `start` up. */
    method Up(start: nat)
      requires Valid() && HeapButUp(tuples, start, ordDirs)
      modifies `tuples
      ensures Valid() && IsHeap(tuples, ordDirs)
      ensures multiset(tuples) == multiset(old(tuples)) && |tuples| == |old(tuples)|
    {
      var j := start;
      while true
        invariant Valid() && HeapButUp(tuples, j, ordDirs)
        invariant multiset(tuples) == multiset(old(tuples)) && |tuples| == |old(tuples)|
        decreases j
      {
        var i := Parent(j);
        if i == j { break; }
        var less := Less(j, i);
        if !less { break; }
        UpStep(tuples, j, ordDirs, ts);
        Swap(i, j);
        IsChild(j, i);
        j := i;
      }
      UpDone(tuples, j, ordDirs);
    }

    method Child(i: nat, n: nat) returns (j: nat)
      requires Valid() && 2 * i + 1 < n <= |tuples|
      ensures j < n && LargerChild(tuples[..n], i, j, ordDirs)
    {
      var j1 := 2 * i + 1;
      j := j1;
      var j2 := j1 + 1;
      if j2 < n {
        var larger := Less(j2, j1);
        if larger { j := j2; }
      }
      Reflexive(tuples[j], ordDirs);
    }

    /** Sifts the first item down among the first `n`. */
    method Down(n: nat)
      requires Valid() && n <= |tuples| && HeapButDown(tuples[..n], 0, ordDirs)
      modifies `tuples
      ensures Valid() && |tuples| == |old(tuples)| && tuples[n..] == old(tuples[n..])
      ensures IsHeap(tuples[..n], ordDirs) && multiset(tuples[..n]) == multiset(old(tuples[..n]))
    {
      var i := 0;
      while true
        invariant Valid() && |tuples| == |old(tuples)| && tuples[n..] == old(tuples[n..])
        invariant HeapButDown(tuples[..n], i, ordDirs) && multiset(tuples[..n]) == multiset(old(tuples[..n]))
        decreases n - i
      {
        if 2 * i + 1 >= n { break; }
        var j := Child(i, n);
        var less := Less(j, i);
        if !less { StopAbove(tuples[..n], i, j, ordDirs); break; }
        DownStep(tuples[..n], i, j, ordDirs);
        ghost var before := tuples;
        Swap(i, j);
        assert tuples[..n] == Swapped(before[..n], i, j) && tuples[n..] == before[n..];
        i := j;
      }
      DownDone(tuples[..n], i, ordDirs);
    }

    method Push(x: Item)
      requires Valid() && IsHeap(tuples, ordDirs) && Typed(x.keys, ts)
      modifies `tuples
      ensures Valid() && IsHeap(tuples, ordDirs) && multiset(tuples) == multiset(old(tuples)) + multiset{x}
      ensures |tuples| == |old(tuples)| + 1
    {
      ghost var s := tuples;
      tuples := tuples + [x];
      NewLast(s, x, ordDirs);
      Up(|tuples| - 1);
    }

    /** Puts the root behind a heap of the other items. */
    method RootToEnd()
      requires Valid() && IsHeap(tuples, ordDirs) && tuples != []
      modifies `tuples
      ensures Valid() && |tuples| == |old(tuples)|
      ensures var n := |tuples| - 1;
              && IsHeap(tuples[..n], ordDirs) && tuples[n] == old(tuples)[0]
              && multiset(old(tuples)) == multiset(tuples[..n]) + multiset{tuples[n]}
    {
      var n := |tuples| - 1;
      RootGone(tuples, ordDirs);
      Swap(0, n);
      Down(n);
      PopBag(old(tuples), tuples);
    }

    /** Removes an item no other is above. */
    method Pop() returns (x: Item)
      requires Valid() && IsHeap(tuples, ordDirs) && tuples != []
      modifies `tuples
      ensures Valid() && IsHeap(tuples, ordDirs) && multiset(old(tuples)) == multiset(tuples) + multiset{x}
      ensures |tuples| == |old(tuples)| - 1 && x == old(tuples)[0]
    {
      RootToEnd();
      var n := |tuples| - 1;
      x := tuples[n];
      tuples := tuples[..n];
    }
  }

  lemma PopBag(s: seq<Item>, t: seq<Item>)
    requires s != [] && |t| == |s|
    requires var n := |s| - 1; var u := Swapped(s, 0, n);
             t[n..] == u[n..] && multiset(t[..n]) == multiset(u[..n])
    ensures t[|s| - 1] == s[0] && multiset(s) == multiset(t[..|s| - 1]) + multiset{s[0]}
  {
    var n := |s| - 1;
    var u := Swapped(s, 0, n);
    assert u == u[..n] + [u[n]];
    assert t[n] == t[n..][0] == u[n..][0] == u[n];
  }

  lemma Reflexive(a: Item, dirs: seq<Direction>)
    requires |dirs| == |a.keys|
    ensures Above(a, a, dirs)
  {
  }

  lemma StopAbove(s: seq<Item>, i: nat, j: nat, dirs: seq<Direction>)
    requires LargerChild(s, i, j, dirs) && i < |s| && Above(s[i], s[j], dirs)
    ensures Above(s[i], s[2 * i + 1], dirs) && (2 * i + 2 < |s| ==> Above(s[i], s[2 * i + 2], dirs))
  {
    NotAfterTransitive(s[2 * i + 1].keys, s[j].keys, s[i].keys, dirs);
    if 2 * i + 2 < |s| { NotAfterTransitive(s[2 * i + 2].keys, s[j].keys, s[i].keys, dirs); }
  }

  lemma NewLast(s: seq<Item>, x: Item, dirs: seq<Direction>)
    requires IsHeap(s, dirs)
    ensures HeapButUp(s + [x], |s|, dirs)
  {
    var t := s + [x];
    forall i: nat | i < |t| && i != |s| ensures ParentOk(t, i, dirs) {
      assert ParentOk(s, i, dirs);
      if i > 0 { IsChild(i, Parent(i)); }
    }
    forall c: nat ensures GrandOk(t, |s|, c, dirs) {
      if c > 0 { IsChild(c, Parent(c)); }
    }
  }

  /** With the last item in its place, only the root of the rest may be too small. */
  lemma RootGone(s: seq<Item>, dirs: seq<Direction>)
    requires IsHeap(s, dirs) && s != []
    ensures HeapButDown(Swapped(s, 0, |s| - 1)[..|s| - 1], 0, dirs)
  {
    var t := Swapped(s, 0, |s| - 1)[..|s| - 1];
    forall i: nat | i < |t| && (i == 0 || Parent(i) != 0) ensures ParentOk(t, i, dirs) {
      assert ParentOk(s, i, dirs);
      if i > 0 { IsChild(i, Parent(i)); }
    }
  }

  // ---------------------------------------------------------------- the executor

  function ItemsOf(input: seq<Row>, orderBy: KeyExprs): (items: seq<Item>)
    ensures |items| == |input|
    ensures forall i :: 0 <= i < |items| ==> items[i] == Item(input[i], KeyOf(orderBy, input[i]))
  {
    seq(|input|, i requires 0 <= i < |input| => Item(input[i], KeyOf(orderBy, input[i])))
  }

  function Min(a: int, b: int): int { if a < b then a else b }

  /** No item of `dropped` orders strictly before one of `kept`. */
  ghost predicate NoneBefore(dropped: multiset<Item>, kept: multiset<Item>, dirs: seq<Direction>) {
    forall x, y {:trigger Above(x, y, dirs)} :: x in dropped && y in kept ==> Above(x, y, dirs)
  }

  /** `kept` holds the first `limit` items of `items`, in order; `dropped` holds the others. */
  ghost predicate IsTopN(kept: seq<Item>, dropped: seq<Item>, items: seq<Item>, limit: nat, dirs: seq<Direction>) {
    && multiset(items) == multiset(kept) + multiset(dropped)
    && |kept| == Min(limit, |items|)
    && SortedKeys(KeysOf(kept), dirs)
    && NoneBefore(multiset(dropped), multiset(kept), dirs)
  }

  /** Over the values: no item kept comes before an earlier one, and none dropped before one kept. */
  ghost predicate InOrder(kept: seq<Item>, dropped: seq<Item>, dirs: seq<Direction>) {
    && (forall i, j :: 0 <= i < j < |kept| ==> !ComesBefore(kept[j].keys, kept[i].keys, dirs))
    && (forall i, j :: 0 <= i < |kept| && 0 <= j < |dropped| ==> !ComesBefore(dropped[j].keys, kept[i].keys, dirs))
  }

  lemma FirstInOrder(kept: seq<Item>, dropped: seq<Item>, items: seq<Item>, limit: nat, dirs: seq<Direction>)
    requires IsTopN(kept, dropped, items, limit, dirs)
    ensures InOrder(kept, dropped, dirs)
  {
    forall i, j | 0 <= i < j < |kept| ensures !ComesBefore(kept[j].keys, kept[i].keys, dirs) {
      assert NotAfter(KeysOf(kept)[i], KeysOf(kept)[j], dirs);
      NotAfterIff(kept[i].keys, kept[j].keys, dirs);
    }
    forall i, j | 0 <= i < |kept| && 0 <= j < |dropped| ensures !ComesBefore(dropped[j].keys, kept[i].keys, dirs) {
      assert dropped[j] in multiset(dropped) && kept[i] in multiset(kept);
      assert Above(dropped[j], kept[i], dirs);
      NotAfterIff(kept[i].keys, dropped[j].keys, dirs);
    }
  }

  /** TopN is sort then limit: whatever permutation a sort produces, its first keys are those of
      the rows kept. */
  lemma SortThenLimit(kept: seq<Item>, dropped: seq<Item>, items: seq<Item>, limit: nat, dirs: seq<Direction>, sorted: seq<Item>)
    requires IsTopN(kept, dropped, items, limit, dirs) && SortOf(sorted, items, dirs)
    ensures |kept| == Min(limit, |sorted|) && KeysOf(kept) == KeysOf(sorted[..|kept|])
  {
    assert |multiset(sorted)| == |multiset(items)|;
    SameKeyBag(sorted, kept + dropped);
    assert KeysOf(kept + dropped) == KeysOf(kept) + KeysOf(dropped);
    forall i, k | 0 <= i < |kept| && k in multiset(KeysOf(dropped)) ensures NotAfter(KeysOf(kept)[i], k, dirs) {
      var j := FindItem(k, KeysOf(dropped));
      assert dropped[j] in multiset(dropped) && kept[i] in multiset(kept);
      assert Above(dropped[j], kept[i], dirs);
    }
    SmallestFirst(KeysOf(sorted), KeysOf(kept), multiset(KeysOf(dropped)), dirs);
    assert KeysOf(sorted)[..|kept|] == KeysOf(sorted[..|kept|]);
  }

  /** Between two rows: what is in the heap and what was dropped. */
  ghost predicate Bounded(heap: seq<Item>, dropped: seq<Item>, seen: seq<Item>, limit: nat, dirs: seq<Direction>) {
    && multiset(seen) == multiset(heap) + multiset(dropped)
    && |heap| == Min(limit, |seen|)
    && NoneBefore(multiset(dropped), multiset(heap), dirs)
    && IsHeap(heap, dirs)
  }

  lemma NothingDropped(heap: seq<Item>, dropped: seq<Item>, seen: seq<Item>, limit: nat, dirs: seq<Direction>)
    requires Bounded(heap, dropped, seen, limit, dirs) && |heap| < limit
    ensures dropped == []
  {
    assert |multiset(seen)| == |multiset(heap)| + |multiset(dropped)|;
  }

  /** A full heap drops the new item, or its root for an item before the root. */
  lemma DropNew(heap: seq<Item>, dropped: seq<Item>, x: Item, dirs: seq<Direction>, ts: seq<Type>)
    requires IsHeap(heap, dirs) && AllTyped(heap, ts) && |ts| == |dirs| && heap != [] && Above(x, heap[0], dirs)
    requires NoneBefore(multiset(dropped), multiset(heap), dirs)
    ensures NoneBefore(multiset(dropped + [x]), multiset(heap), dirs)
  {
    forall d, y | d in multiset(dropped + [x]) && y in multiset(heap) ensures Above(d, y, dirs) {
      if d !in multiset(dropped) {
        assert d == x;
        var i := FindItem(y, heap);
        RootAbove(heap, i, dirs, ts);
        NotAfterTransitive(y.keys, heap[0].keys, x.keys, dirs);
      }
    }
  }

  lemma DropRoot(heap: seq<Item>, dropped: seq<Item>, x: Item, rest: multiset<Item>, dirs: seq<Direction>, ts: seq<Type>)
    requires IsHeap(heap, dirs) && AllTyped(heap, ts) && |ts| == |dirs| && heap != [] && Above(heap[0], x, dirs)
    requires NoneBefore(multiset(dropped), multiset(heap), dirs)
    requires multiset(heap) == rest + multiset{heap[0]}
    ensures NoneBefore(multiset(dropped + [heap[0]]), rest + multiset{x}, dirs)
  {
    forall d, y | d in multiset(dropped + [heap[0]]) && y in rest + multiset{x} ensures Above(d, y, dirs) {
      assert heap[0] in multiset(heap);
      if d in multiset(dropped) {
        if y in rest { assert Above(d, y, dirs); }
        else { assert Above(d, heap[0], dirs); NotAfterTransitive(x.keys, heap[0].keys, d.keys, dirs); }
      } else {
        assert d == heap[0];
        if y in rest {
          assert y in multiset(heap);
          var i := FindItem(y, heap);
          RootAbove(heap, i, dirs, ts);
        }
      }
    }
  }

  function RowsOf(items: seq<Item>): (rows: seq<Row>)
    ensures |rows| == |items| && forall i :: 0 <= i < |rows| ==> rows[i] == items[i].row
  {
    seq(|items|, i requires 0 <= i < |items| => items[i].row)
  }

  /** While the heap is emptied: what was popped is sorted and above what is left. */
  ghost predicate Draining(heap: seq<Item>, tail: seq<Item>, all: multiset<Item>, dirs: seq<Direction>) {
    && IsHeap(heap, dirs) && multiset(heap) + multiset(tail) == all
    && SortedKeys(KeysOf(tail), dirs) && NoneBefore(multiset(tail), multiset(heap), dirs)
  }

  lemma DrainStep(heap: seq<Item>, tail: seq<Item>, rest: seq<Item>, all: multiset<Item>, dirs: seq<Direction>, ts: seq<Type>)
    requires Draining(heap, tail, all, dirs) && AllTyped(heap, ts) && |ts| == |dirs| && heap != []
    requires IsHeap(rest, dirs) && multiset(heap) == multiset(rest) + multiset{heap[0]}
    ensures Draining(rest, [heap[0]] + tail, all, dirs)
  {
    var x := heap[0];
    var tail' := [x] + tail;
    assert x in multiset(heap);
    forall i, j | 0 <= i < j < |tail'| ensures NotAfter(KeysOf(tail')[i], KeysOf(tail')[j], dirs) {
      if i == 0 {
        assert tail[j - 1] in multiset(tail);
        assert Above(tail[j - 1], x, dirs);
      } else {
        assert NotAfter(KeysOf(tail)[i - 1], KeysOf(tail)[j - 1], dirs);
      }
    }
    forall d, y | d in multiset(tail') && y in multiset(rest) ensures Above(d, y, dirs) {
      assert y in multiset(heap);
      if d !in multiset(tail) {
        assert d == x;
        var i := FindItem(y, heap);
        RootAbove(heap, i, dirs, ts);
      }
    }
  }

  class TopNExecutor {
    const input: seq<Row>
    const orderBy: KeyExprs
    const dirs: seq<Direction>
    const limit: int
    var tuples: seq<Row>
    var tIdx: int

    constructor (input: seq<Row>, orderBy: KeyExprs, dirs: seq<Direction>, limit: int)
      ensures this.input == input && this.orderBy == orderBy && this.dirs == dirs && this.limit == limit
    {
      this.input, this.orderBy, this.dirs, this.limit := input, orderBy, dirs, limit;
      tuples, tIdx := [], -1;
    }

    /** Reads the whole input through the heap and empties it from the back.  Without a positive
        limit the first row is compared with the root of an empty heap, which panics. */
    method Init(ghost ts: seq<Type>) returns (panicked: bool, ghost kept: seq<Item>, ghost dropped: seq<Item>)
      requires |orderBy| == |dirs| == |ts| && AllTyped(ItemsOf(input, orderBy), ts)
      modifies this
      ensures panicked <==> limit <= 0 && input != []
      ensures !panicked && limit > 0 ==>
                tuples == RowsOf(kept) && tIdx == -1 && IsTopN(kept, dropped, ItemsOf(input, orderBy), limit, dirs)
      ensures !panicked && limit > 0 ==> InOrder(kept, dropped, dirs)
      ensures !panicked && limit > 0 ==> |tuples| == if limit < |input| then limit else |input|
      ensures !panicked && limit <= 0 ==> tuples == []
    {
      tIdx, kept, dropped := -1, [], [];
      var h := new MaxHeap(dirs, ts);
      if limit <= 0 {
        if |input| > 0 { return true, kept, dropped; }
      } else {
        dropped := Fill(h);
      }
      kept := Drain(h);
      if limit > 0 { FirstInOrder(kept, dropped, ItemsOf(input, orderBy), limit, dirs); }
      return false, kept, dropped;
    }

    /** Offers every row to the heap. */
    method Fill(h: MaxHeap) returns (ghost dropped: seq<Item>)
      requires h.Valid() && h.ordDirs == dirs && h.tuples == [] && limit > 0
      requires |orderBy| == |dirs| && AllTyped(ItemsOf(input, orderBy), h.ts)
      modifies h
      ensures h.Valid() && Bounded(h.tuples, dropped, ItemsOf(input, orderBy), limit, dirs)
    {
      dropped := [];
      ghost var items := ItemsOf(input, orderBy);
      for i := 0 to |input|
        invariant h.Valid() && Bounded(h.tuples, dropped, items[..i], limit, dirs)
      {
        var t := Item(input[i], KeyOf(orderBy, input[i]));
        assert t == items[i] && Typed(items[i].keys, h.ts);
        ghost var seen := items[..i];
        assert items[..i + 1] == seen + [t];
        dropped := Offer(h, t, seen, dropped);
      }
      assert items[..|input|] == items;
    }

    /** One row: into the heap while there is room, else in place of a root it comes before. */
    method Offer(h: MaxHeap, t: Item, ghost seen: seq<Item>, ghost dropped: seq<Item>) returns (ghost dropped': seq<Item>)
      requires h.Valid() && h.ordDirs == dirs && limit > 0 && Typed(t.keys, h.ts)
      requires Bounded(h.tuples, dropped, seen, limit, dirs)
      modifies h
      ensures h.Valid() && Bounded(h.tuples, dropped', seen + [t], limit, dirs)
      ensures if |old(h.tuples)| < limit then dropped' == dropped
              else if ComesBefore(t.keys, old(h.tuples)[0].keys, dirs) then dropped' == dropped + [old(h.tuples)[0]]
              else dropped' == dropped + [t] && h.tuples == old(h.tuples)
    {
      ghost var heap := h.tuples;
      if |h.tuples| < limit {
        NothingDropped(heap, dropped, seen, limit, dirs);
        h.Push(t);
        return dropped;
      }
      assert Typed(heap[0].keys, h.ts);
      Total(t, heap[0], dirs, h.ts);
      OrderIff(t.keys, heap[0].keys, dirs);
      var compVal, ordIdx := CompareItems(t, h.tuples[0], dirs);
      if ordIdx < |dirs| && dirs[ordIdx] == Descending { compVal := compVal * -1; }
      if compVal == -1 {
        var x := h.Pop();
        DropRoot(heap, dropped, t, multiset(h.tuples), dirs, h.ts);
        h.Push(t);
        return dropped + [x];
      }
      DropNew(heap, dropped, t, dirs, h.ts);
      return dropped + [t];
    }

    /** Pops the heap into the output, last position first. */
    method Drain(h: MaxHeap) returns (ghost kept: seq<Item>)
      requires h.Valid() && h.ordDirs == dirs && IsHeap(h.tuples, dirs)
      modifies this, h
      ensures tuples == RowsOf(kept) && tIdx == old(tIdx)
      ensures multiset(kept) == multiset(old(h.tuples)) && SortedKeys(KeysOf(kept), dirs)
    {
      kept := [];
      var n := |h.tuples|;
      tuples := seq(n, _ => []);
      for i := n downto 0
        invariant h.Valid() && |h.tuples| == i && |tuples| == n && |kept| == n - i && tIdx == old(tIdx)
        invariant Draining(h.tuples, kept, multiset(old(h.tuples)), dirs)
        invariant tuples[i..] == RowsOf(kept)
      {
        ghost var heap := h.tuples;
        var x := h.Pop();
        DrainStep(heap, kept, h.tuples, multiset(old(h.tuples)), dirs, h.ts);
        kept := [x] + kept;
        tuples := tuples[i := x.row];
      }
    }

    method Next() returns (more: bool)
      modifies `tIdx
      ensures (more <==> old(tIdx) + 1 < |tuples|) && tIdx == if more then old(tIdx) + 1 else old(tIdx)
    {
      if tIdx + 1 >= |tuples| { return false; }
      tIdx := tIdx + 1;
      return true;
    }
  }
}
