/** The order of ORDER BY: lexicographic, each key ascending or descending. */
module SortOrder {
  import opened Values
  import opened EquiJoin

  datatype Direction = Ascending | Descending

  /** A row with its evaluated sort keys. */
  datatype Item = Item(row: Row, keys: Key)

  function Directed(c: int, d: Direction): int { if d == Descending then -c else c }

  /** The comparison of the sort executor. */
  function Order(a: Key, b: Key, dirs: seq<Direction>): (c: int)
    requires SameTypes(a, b) && |dirs| == |a|
    ensures c == -1 || c == 0 || c == 1
    ensures c == 0 <==> a == b
  {
    if a == [] then 0
    else if Compare(a[0], b[0]) != 0 then Directed(Compare(a[0], b[0]), dirs[0])
    else
      assert a == [a[0]] + a[1..] && b == [b[0]] + b[1..];
      Order(a[1..], b[1..], dirs[1..])
  }

  /** Comparable, and `a` is not after `b`. */
  predicate NotAfter(a: Key, b: Key, dirs: seq<Direction>) {
    SameTypes(a, b) && |dirs| == |a| && Order(a, b, dirs) <= 0
  }

  lemma {:induction false} OrderAntisymmetric(a: Key, b: Key, dirs: seq<Direction>)
    requires SameTypes(a, b) && |dirs| == |a|
    ensures Order(a, b, dirs) == -Order(b, a, dirs)
  {
    if a != [] {
      CompareAntisymmetric(a[0], b[0]);
      if a[0] == b[0] { OrderAntisymmetric(a[1..], b[1..], dirs[1..]); }
    }
  }

  lemma {:induction false} NotAfterTransitive(a: Key, b: Key, c: Key, dirs: seq<Direction>)
    requires NotAfter(a, b, dirs) && NotAfter(b, c, dirs)
    ensures NotAfter(a, c, dirs)
  {
    if a != [] {
      CompareAntisymmetric(a[0], b[0]);
      CompareAntisymmetric(b[0], c[0]);
      CompareAntisymmetric(a[0], c[0]);
      if dirs[0] == Ascending {
        if Compare(a[0], b[0]) <= 0 && Compare(b[0], c[0]) <= 0 { CompareTransitive(a[0], b[0], c[0]); }
      } else {
        if Compare(c[0], b[0]) <= 0 && Compare(b[0], a[0]) <= 0 { CompareTransitive(c[0], b[0], a[0]); }
      }
      if a[0] == b[0] == c[0] { NotAfterTransitive(a[1..], b[1..], c[1..], dirs[1..]); }
    }
  }

  // ---------------------------------------------------------------- the order over the values

  /** At the first key in which they differ `a` has the smaller value, for a descending key the
      larger one. */
  predicate ComesBefore(a: Key, b: Key, dirs: seq<Direction>) {
    exists k :: 0 <= k < |a| && k < |b| && k < |dirs| && a[..k] == b[..k] && Precedes(a[k], b[k], dirs[k])
  }

  predicate Precedes(v: Value, w: Value, d: Direction) {
    match d
    case Ascending => SmallerValue(v, w)
    case Descending => SmallerValue(w, v)
  }

  lemma {:induction false} OrderIff(a: Key, b: Key, dirs: seq<Direction>)
    requires SameTypes(a, b) && |dirs| == |a|
    ensures Order(a, b, dirs) == -1 <==> ComesBefore(a, b, dirs)
  {
    if a != [] {
      CompareIff(a[0], b[0]);
      CompareAntisymmetric(a[0], b[0]);
      if a[0] == b[0] {
        OrderIff(a[1..], b[1..], dirs[1..]);
        BeforeTail(a, b, dirs);
      } else {
        BeforeHead(a, b, dirs);
      }
    }
  }

  lemma BeforeTail(a: Key, b: Key, dirs: seq<Direction>)
    requires a != [] && b != [] && dirs != [] && a[0] == b[0] && !SmallerValue(a[0], b[0])
    ensures ComesBefore(a, b, dirs) <==> ComesBefore(a[1..], b[1..], dirs[1..])
  {
    var a', b', dirs' := a[1..], b[1..], dirs[1..];
    if ComesBefore(a', b', dirs') {
      var k :| 0 <= k < |a'| && k < |b'| && k < |dirs'| && a'[..k] == b'[..k] && Precedes(a'[k], b'[k], dirs'[k]);
      assert a[..k + 1] == [a[0]] + a'[..k] && b[..k + 1] == [b[0]] + b'[..k];
      assert Precedes(a[k + 1], b[k + 1], dirs[k + 1]);
    }
    if ComesBefore(a, b, dirs) {
      var k :| 0 <= k < |a| && k < |b| && k < |dirs| && a[..k] == b[..k] && Precedes(a[k], b[k], dirs[k]);
      assert a'[..k - 1] == a[..k][1..] && b'[..k - 1] == b[..k][1..];
      assert Precedes(a'[k - 1], b'[k - 1], dirs'[k - 1]);
    }
  }

  lemma BeforeHead(a: Key, b: Key, dirs: seq<Direction>)
    requires a != [] && b != [] && dirs != [] && a[0] != b[0]
    ensures ComesBefore(a, b, dirs) <==> Precedes(a[0], b[0], dirs[0])
  {
    assert a[..0] == b[..0];
    HeadOfPrefix(a, b);
  }

  lemma NotAfterIff(a: Key, b: Key, dirs: seq<Direction>)
    requires SameTypes(a, b) && |dirs| == |a|
    ensures NotAfter(a, b, dirs) <==> !ComesBefore(b, a, dirs)
  {
    OrderAntisymmetric(a, b, dirs);
    OrderIff(b, a, dirs);
  }

  // ---------------------------------------------------------------- sorted sequences

  predicate SortedKeys(ks: seq<Key>, dirs: seq<Direction>) {
    forall i, j :: 0 <= i < j < |ks| ==> NotAfter(ks[i], ks[j], dirs)
  }

  function KeysOf(items: seq<Item>): (ks: seq<Key>)
    ensures |ks| == |items| && forall i :: 0 <= i < |ks| ==> ks[i] == items[i].keys
  {
    seq(|items|, i requires 0 <= i < |items| => items[i].keys)
  }

  /** A permutation of the input in order: what sorting may produce. */
  ghost predicate SortOf(sorted: seq<Item>, input: seq<Item>, dirs: seq<Direction>) {
    multiset(sorted) == multiset(input) && SortedKeys(KeysOf(sorted), dirs)
  }

  lemma RemoveOne<T>(s: seq<T>, i: nat)
    requires i < |s|
    ensures multiset(s) == multiset(s[..i] + s[i + 1..]) + multiset{s[i]}
  {
    assert s == s[..i] + [s[i]] + s[i + 1..];
  }

  /** Leaving out an item leaves out its keys. */
  lemma RemoveKeys(s: seq<Item>, i: nat)
    requires i < |s|
    ensures multiset(KeysOf(s)) == multiset(KeysOf(s[..i] + s[i + 1..])) + multiset{s[i].keys}
  {
    RemoveOne(KeysOf(s), i);
    assert KeysOf(s[..i] + s[i + 1..]) == KeysOf(s)[..i] + KeysOf(s)[i + 1..];
  }

  lemma FindItem<T>(a: T, b: seq<T>) returns (j: nat)
    requires a in multiset(b)
    ensures j < |b| && b[j] == a
  {
    j :| j < |b| && b[j] == a;
  }

  /** Permuted items have permuted keys. */
  lemma {:induction false} SameKeyBag(a: seq<Item>, b: seq<Item>)
    requires multiset(a) == multiset(b)
    ensures multiset(KeysOf(a)) == multiset(KeysOf(b))
    decreases |a|
  {
    if a == [] {
      NoItems(b);
    } else {
      var j := FindItem(a[0], b);
      StillPermuted(a, b, 0, j);
      SameKeyBag(a[..0] + a[1..], b[..j] + b[j + 1..]);
      PutBack(a, b, 0, j);
    }
  }

  lemma NoItems(b: seq<Item>)
    requires multiset(b) == multiset{}
    ensures b == []
  {
    assert |multiset(b)| == |b|;
  }

  lemma PutBack(a: seq<Item>, b: seq<Item>, i: nat, j: nat)
    requires i < |a| && j < |b| && a[i] == b[j]
    requires multiset(KeysOf(a[..i] + a[i + 1..])) == multiset(KeysOf(b[..j] + b[j + 1..]))
    ensures multiset(KeysOf(a)) == multiset(KeysOf(b))
  {
    RemoveKeys(a, i);
    RemoveKeys(b, j);
  }

  lemma StillPermuted(a: seq<Item>, b: seq<Item>, i: nat, j: nat)
    requires multiset(a) == multiset(b) && i < |a| && j < |b| && a[i] == b[j]
    ensures multiset(a[..i] + a[i + 1..]) == multiset(b[..j] + b[j + 1..])
  {
    RemoveOne(a, i);
    RemoveOne(b, j);
    CancelOne(multiset(a[..i] + a[i + 1..]), multiset(b[..j] + b[j + 1..]), a[i]);
  }

  lemma CancelOne<T>(a: multiset<T>, b: multiset<T>, x: T)
    requires a + multiset{x} == b + multiset{x}
    ensures a == b
  {
    assert a == (a + multiset{x}) - multiset{x};
    assert b == (b + multiset{x}) - multiset{x};
  }

  /** No key of `rest` comes before one of `first`. */
  ghost predicate AllAfter(first: seq<Key>, rest: multiset<Key>, dirs: seq<Direction>) {
    forall i, k :: 0 <= i < |first| && k in rest ==> NotAfter(first[i], k, dirs)
  }

  /** A sorted sequence starts with any sorted part of it that no other key comes before. */
  lemma {:induction false} SmallestFirst(all: seq<Key>, first: seq<Key>, rest: multiset<Key>, dirs: seq<Direction>)
    requires SortedKeys(all, dirs) && SortedKeys(first, dirs) && AllAfter(first, rest, dirs)
    requires multiset(all) == multiset(first) + rest
    ensures |first| <= |all| && all[..|first|] == first
  {
    if first != [] {
      HeadsAgree(all, first, rest, dirs);
      SplitHead(all);
      SplitHead(first);
      CancelOne(multiset(all[1..]), multiset(first[1..]) + rest, first[0]);
      SmallestFirst(all[1..], first[1..], rest, dirs);
      assert all == [all[0]] + all[1..] && first == [first[0]] + first[1..];
    }
  }

  lemma SplitHead<T>(s: seq<T>)
    requires s != []
    ensures multiset(s) == multiset(s[1..]) + multiset{s[0]}
  {
    assert s == [s[0]] + s[1..];
  }

  lemma HeadsAgree(all: seq<Key>, first: seq<Key>, rest: multiset<Key>, dirs: seq<Direction>)
    requires SortedKeys(all, dirs) && SortedKeys(first, dirs) && AllAfter(first, rest, dirs) && first != []
    requires multiset(all) == multiset(first) + rest
    ensures all != [] && all[0] == first[0]
  {
    assert first[0] in multiset(all);
    var j :| 0 <= j < |all| && all[j] == first[0];
    assert all[0] in multiset(first) + rest;
    if all[0] != first[0] {
      assert NotAfter(all[0], first[0], dirs);
      if all[0] in rest {
        assert NotAfter(first[0], all[0], dirs);
      } else {
        assert all[0] in multiset(first);
        var i :| 0 <= i < |first| && first[i] == all[0];
        assert NotAfter(first[0], first[i], dirs);
      }
      OrderAntisymmetric(all[0], first[0], dirs);
    }
  }
}
