/** What the lock manager promises, over every run of lock, unlock, victim and resume steps. */
module LockTheorems {
  import opened LockModes
  import opened LockState
  import opened LockInvariant

  predicate Waits(s: State, tag: Tag, t: Tid) {
    Position(LcbOf(s, tag).waiters, t) < |LcbOf(s, tag).waiters|
  }

  /** Holders of a tag are pairwise compatible. */
  lemma HoldersAreCompatible(es: seq<Event>, tag: Tag, t: Tid, u: Tid)
    requires Run(es).Some?
    requires var holders := LcbOf(Run(es).value, tag).holders; t in holders && u in holders && t != u
    ensures var holders := LcbOf(Run(es).value, tag).holders; Compatible(holders[t], holders[u])
  {
    RunsKeepInv(es);
    assert TagOk(Run(es).value, tag);
  }

  /** The domain of the waits-for graph is exactly the set of waiting transactions. */
  lemma GraphDomainIsWaiters(es: seq<Event>, t: Tid)
    requires Run(es).Some?
    ensures t in Run(es).value.graph <==> exists tag :: Waits(Run(es).value, tag, t)
  {
    RunsKeepInv(es);
    var s := Run(es).value;
    assert TxnOk(s, t);
    if t in s.graph {
      assert Waits(s, s.tcbs[t].waitingOn.value, t);
    }
    if tag :| Waits(s, tag, t) {
      assert TagOk(s, tag);
      assert WaiterOk(s, tag, Position(LcbOf(s, tag).waiters, t));
    }
  }

  /** The count of an edge is the number of incompatibilities between the waiter and the other
      transaction, as holder and as earlier waiter; for a transaction that is not queued ahead any
      more it may be one higher.  A transaction never waits for itself. */
  lemma GraphCoversConflicts(es: seq<Event>, tag: Tag, k: nat, t: Tid)
    requires Run(es).Some? && k < |LcbOf(Run(es).value, tag).waiters|
    ensures var s := Run(es).value; var lcb := LcbOf(s, tag); var w := lcb.waiters[k];
            && w.tid in s.graph && w.tid !in s.graph[w.tid]
            && (t != w.tid ==>
                  var need, count := Need(lcb.holders, lcb.waiters[..k], w, t), Count(s.graph[w.tid], t);
                  need <= count <= need + if Queued(lcb.waiters[..k], t) then 0 else 1)
  {
    RunsKeepInv(es);
    var s := Run(es).value;
    assert TagOk(s, tag) && WaiterOk(s, tag, k);
    if t != LcbOf(s, tag).waiters[k].tid {
      assert EdgeOk(LcbOf(s, tag), s.graph[LcbOf(s, tag).waiters[k].tid], k, t);
    }
  }

  /** No lost wake-up: the head of a non-empty queue conflicts with another holder. */
  lemma NoLostWakeup(es: seq<Event>, tag: Tag)
    requires Run(es).Some? && LcbOf(Run(es).value, tag).waiters != []
    ensures var lcb := LcbOf(Run(es).value, tag); var w := lcb.waiters[0];
            exists h :: h in lcb.holders && h != w.tid && !Compatible(w.mode, lcb.holders[h])
  {
    RunsKeepInv(es);
    assert HeadBlocked(Run(es).value, tag);
  }

  /** The lock count is the number of tags held, and an unregistered transaction holds none. */
  lemma LockCountIsExact(es: seq<Event>, t: Tid)
    requires Run(es).Some?
    ensures var s := Run(es).value;
            |HeldTags(s, t)| == if t in s.tcbs then s.tcbs[t].lockCount else 0
  {
    RunsKeepInv(es);
    assert TxnOk(Run(es).value, t);
  }

  // ---------------------------------------------------------------- strict FIFO

  /** `t` became a holder of `tag`, or its mode changed. */
  predicate Gains(s: State, s': State, tag: Tag, t: Tid) {
    var before, after := LcbOf(s, tag).holders, LcbOf(s', tag).holders;
    t in after && (t !in before || before[t] != after[t])
  }

  /** Waking takes a prefix of the queue, and only transactions of that prefix gain. */
  lemma {:induction false} WakeTakesPrefix(s: State, tag: Tag, t: Tid) returns (n: nat)
    ensures n <= |LcbOf(s, tag).waiters|
    ensures LcbOf(Wake(s, tag), tag).waiters == LcbOf(s, tag).waiters[n..]
    ensures Gains(s, Wake(s, tag), tag, t) ==> Position(LcbOf(s, tag).waiters, t) < n
    decreases |LcbOf(s, tag).waiters|
  {
    if HeadReady(s, tag) {
      var s1 := GrantHead(s, tag);
      n := WakeTakesPrefix(s1, tag, t);
      assert LcbOf(s, tag).waiters[1..][n..] == LcbOf(s, tag).waiters[n + 1..];
      n := n + 1;
    } else {
      n := 0;
      assert LcbOf(s, tag).waiters[0..] == LcbOf(s, tag).waiters;
    }
  }

  lemma {:induction false} WakeElsewhere(s: State, tag: Tag, other: Tag)
    requires other != tag
    ensures LcbOf(Wake(s, tag), other) == LcbOf(s, other)
    decreases |LcbOf(s, tag).waiters|
  {
    if HeadReady(s, tag) { WakeElsewhere(GrantHead(s, tag), tag, other); }
  }

  lemma GoneFromSuffix(ws: seq<Request>, n: nat, u: Tid)
    requires DistinctTids(ws) && n <= |ws| && Position(ws, u) < n
    ensures Position(ws[n..], u) == |ws[n..]|
  {
    NotInQueue(ws[n..], u);
  }

  /** No request is granted while an earlier request waits on the same tag: whoever was ahead
      of a transaction that gains has left the queue in the same step. */
  lemma StrictFifo(es: seq<Event>, e: Event, tag: Tag, t: Tid, u: Tid)
    requires Run(es).Some? && Enabled(Run(es).value, e)
    requires Gains(Run(es).value, After(Run(es).value, e), tag, t)
    requires var ws := LcbOf(Run(es).value, tag).waiters; Position(ws, u) < Position(ws, t)
    ensures !Waits(After(Run(es).value, e), tag, u)
  {
    RunsKeepInv(es);
    var s := Run(es).value;
    assert TagOk(s, tag);
    match e
    case Lock(t', tag', mode) => LockFifo(s, t', tag', mode, tag, t);
    case Resume(_) =>
    case Unlock(t', tag') =>
      if t' in s.tcbs && tag' in s.table && t' in s.table[tag'].holders { UnlockFifo(s, t', tag', tag, t, u); }
    case Victim(v) =>
      assert TxnOk(s, v);
      if v in s.tcbs && s.tcbs[v].waitingOn.Some? {
        VictimFifo(s, v, s.tcbs[v].waitingOn.value, tag, t, u);
      }
  }

  /** A lock step only grants into an empty queue. */
  lemma LockFifo(s: State, t': Tid, tag': Tag, mode: Mode, tag: Tag, t: Tid)
    requires Gains(s, LockStep(s, t', tag', mode), tag, t)
    ensures LcbOf(s, tag).waiters == []
  {
  }

  lemma UnlockFifo(s: State, t': Tid, tag': Tag, tag: Tag, t: Tid, u: Tid)
    requires TagOk(s, tag) && t' in s.tcbs && tag' in s.table && t' in s.table[tag'].holders
    requires Gains(s, UnlockStep(s, t', tag'), tag, t)
    requires Position(LcbOf(s, tag).waiters, u) < Position(LcbOf(s, tag).waiters, t)
    ensures !Waits(UnlockStep(s, t', tag'), tag, u)
  {
    var s1 := RemoveHolder(s, tag', t');
    if tag' != tag { WakeElsewhere(s1, tag', tag); }
    else {
      QueueDistinct(s, tag);
      var n := WakeTakesPrefix(s1, tag, t);
      GoneFromSuffix(LcbOf(s, tag).waiters, n, u);
    }
  }

  lemma WithoutDistinct(ws: seq<Request>, i: nat)
    requires DistinctTids(ws) && i < |ws|
    ensures DistinctTids(Without(ws, i))
  {
    var ws' := Without(ws, i);
    forall a, b | 0 <= a < b < |ws'| ensures ws'[a].tid != ws'[b].tid {
      assert ws'[a] == ws[if a < i then a else a + 1] && ws'[b] == ws[if b < i then b else b + 1];
    }
  }

  lemma WithoutPosition(ws: seq<Request>, i: nat, t: Tid)
    requires DistinctTids(ws) && i < |ws|
    ensures var p := Position(ws, t);
            Position(Without(ws, i), t) == if p == i then |ws| - 1 else if p < i then p else p - 1
  {
    var p, ws' := Position(ws, t), Without(ws, i);
    if p == i || p == |ws| {
      forall j | 0 <= j < |ws'| ensures ws'[j].tid != t { assert ws'[j] == ws[if j < i then j else j + 1]; }
      NotInQueue(ws', t);
    } else {
      var q := if p < i then p else p - 1;
      forall j | 0 <= j < q ensures ws'[j].tid != t { assert ws'[j] == ws[if j < i then j else j + 1]; }
      PositionOf(ws', t, q);
    }
  }

  lemma VictimFifo(s: State, v: Tid, tag': Tag, tag: Tag, t: Tid, u: Tid)
    requires TagOk(s, tag) && v in s.tcbs && s.tcbs[v].waitingOn == Some(tag') && tag' in s.table
    requires Position(s.table[tag'].waiters, v) < |s.table[tag'].waiters|
    requires Gains(s, VictimStep(s, v), tag, t)
    requires Position(LcbOf(s, tag).waiters, u) < Position(LcbOf(s, tag).waiters, t)
    ensures !Waits(VictimStep(s, v), tag, u)
  {
    var s1 := RemoveWaiter(s, tag', v);
    if tag' != tag { WakeElsewhere(s1, tag', tag); }
    else {
      QueueDistinct(s, tag);
      VictimPrefix(s1, tag, s.table[tag].waiters, Position(s.table[tag].waiters, v), t, u);
    }
  }

  lemma VictimPrefix(s1: State, tag: Tag, ws: seq<Request>, i: nat, t: Tid, u: Tid)
    requires DistinctTids(ws) && i < |ws| && LcbOf(s1, tag).waiters == Without(ws, i)
    requires Gains(s1, Wake(s1, tag), tag, t) && Position(ws, u) < Position(ws, t)
    ensures !Waits(Wake(s1, tag), tag, u)
  {
    WithoutDistinct(ws, i);
    WithoutPosition(ws, i, t);
    WithoutPosition(ws, i, u);
    var n := WakeTakesPrefix(s1, tag, t);
    if Position(ws, u) == i {
      forall j | 0 <= j < |Without(ws, i)| ensures Without(ws, i)[j].tid != u {
        assert Without(ws, i)[j] == ws[if j < i then j else j + 1];
      }
      NotInQueue(Without(ws, i)[n..], u);
    } else {
      GoneFromSuffix(Without(ws, i), n, u);
    }
  }
}
