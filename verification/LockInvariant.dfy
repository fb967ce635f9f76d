/** The invariant of the lock manager, kept by every step. */
module LockInvariant {
  import opened LockModes
  import opened LockState

  // ---------------------------------------------------------------- the invariant

  ghost predicate HoldersCompatible(holders: map<Tid, Mode>) {
    forall t, u :: t in holders && u in holders && t != u ==> Compatible(holders[t], holders[u])
  }

  /** One waiter of a queue: registered as waiting here, not covered by what it holds, alone
      under its id, and with a row that counts every incompatibility. */
  ghost predicate WaiterOk(s: State, tag: Tag, k: nat)
    requires k < |LcbOf(s, tag).waiters|
  {
    var lcb := LcbOf(s, tag);
    var w := lcb.waiters[k];
    && w.tid in s.tcbs && s.tcbs[w.tid].waitingOn == Some(tag)
    && !Covered(lcb.holders, w)
    && Position(lcb.waiters, w.tid) == k
    && w.tid in s.graph
    && w.tid !in s.graph[w.tid]
    && forall t :: t != w.tid ==> EdgeOk(lcb, s.graph[w.tid], k, t)
  }

  /** The count is exact for a transaction still queued ahead; for one that was granted meanwhile it
      may be one too high. */
  predicate EdgeOk(lcb: Lcb, row: Row, k: nat, t: Tid)
    requires k < |lcb.waiters|
  {
    var need := Need(lcb.holders, lcb.waiters[..k], lcb.waiters[k], t);
    need <= Count(row, t) <= need + if Queued(lcb.waiters[..k], t) then 0 else 1
  }

  predicate Queued(ws: seq<Request>, t: Tid) { exists j :: 0 <= j < |ws| && ws[j].tid == t }

  ghost predicate QueueOk(s: State, tag: Tag) {
    forall k: nat :: k < |LcbOf(s, tag).waiters| ==> WaiterOk(s, tag, k)
  }

  /** The head of a non-empty queue conflicts with some other holder. */
  ghost predicate HeadBlocked(s: State, tag: Tag) {
    var lcb := LcbOf(s, tag);
    lcb.waiters != [] ==> !Admissible(lcb.holders, lcb.waiters[0])
  }

  ghost function HeldTags(s: State, t: Tid): set<Tag> {
    set tag | tag in s.table && t in s.table[tag].holders
  }

  ghost predicate TxnOk(s: State, t: Tid) {
    && (t in s.graph <==> t in s.tcbs && s.tcbs[t].waitingOn.Some?)
    && (t in s.tcbs && s.tcbs[t].waitingOn.Some? ==>
          var ws := LcbOf(s, s.tcbs[t].waitingOn.value).waiters; Position(ws, t) < |ws|)
    && (t in s.tcbs ==> s.tcbs[t].lockCount == |HeldTags(s, t)|)
    && (t !in s.tcbs ==> HeldTags(s, t) == {})
    && (t in s.mail ==> t in s.tcbs && s.tcbs[t].waitingOn == None)
  }

  /** The registry keeps no transaction that neither holds nor awaits anything. */
  predicate NotStale(s: State, t: Tid) {
    t in s.tcbs && Idle(s, t) ==> s.tcbs[t].lockCount != 0
  }

  ghost predicate TagOk(s: State, tag: Tag) {
    HoldersCompatible(LcbOf(s, tag).holders) && QueueOk(s, tag)
  }

  /** What holds also in the middle of an operation. */
  ghost predicate Core(s: State) {
    && (forall tag :: TagOk(s, tag))
    && (forall t :: TxnOk(s, t))
  }

  ghost predicate Inv(s: State) {
    Core(s) && (forall tag :: HeadBlocked(s, tag)) && (forall t :: NotStale(s, t))
  }

  // ---------------------------------------------------------------- queues

  lemma {:induction false} PositionOf(ws: seq<Request>, t: Tid, k: nat)
    requires k < |ws| && ws[k].tid == t && (forall j :: 0 <= j < k ==> ws[j].tid != t)
    ensures Position(ws, t) == k
  {
    if ws[0].tid != t { PositionOf(ws[1..], t, k - 1); }
  }

  /** Ids in a well-formed queue are distinct. */
  lemma Distinct(s: State, tag: Tag, i: nat, j: nat)
    requires QueueOk(s, tag) && i < j < |LcbOf(s, tag).waiters|
    ensures LcbOf(s, tag).waiters[i].tid != LcbOf(s, tag).waiters[j].tid
  {
    assert WaiterOk(s, tag, i) && WaiterOk(s, tag, j);
  }

  // ---------------------------------------------------------------- edges

  ghost predicate DistinctTids(ws: seq<Request>) {
    forall i, j :: 0 <= i < j < |ws| ==> ws[i].tid != ws[j].tid
  }

  lemma {:induction false} DropEdgesEffect(graph: map<Tid, Row>, ws: seq<Request>, u: Tid, mode: Mode)
    requires DistinctTids(ws)
    ensures DropEdges(graph, ws, u, mode).Keys == graph.Keys
    ensures forall k :: 0 <= k < |ws| && ws[k].tid in graph ==>
              DropEdges(graph, ws, u, mode)[ws[k].tid]
              == if Compatible(ws[k].mode, mode) then graph[ws[k].tid] else Drop(graph[ws[k].tid], u)
    ensures forall t :: t in graph && (forall k :: 0 <= k < |ws| ==> ws[k].tid != t) ==>
              DropEdges(graph, ws, u, mode)[t] == graph[t]
  {
    if ws != [] { DropEdgesEffect(graph, ws[..|ws| - 1], u, mode); }
  }

  lemma DropCount(row: Row, u: Tid, t: Tid)
    ensures t != u ==> Count(Drop(row, u), t) == Count(row, t)
    ensures Count(row, u) > 0 ==> Count(Drop(row, u), u) == Count(row, u) - 1
    ensures t !in row ==> t !in Drop(row, u)
  {
  }

  // ---------------------------------------------------------------- registry

  lemma RegisterKeeps(s: State, t: Tid)
    requires Core(s)
    ensures Core(Register(s, t))
  {
    var s' := Register(s, t);
    forall tag ensures TagOk(s', tag) {
      assert TagOk(s, tag);
      forall k: nat | k < |LcbOf(s', tag).waiters| ensures WaiterOk(s', tag, k) { assert WaiterOk(s, tag, k); }
    }
    forall u ensures TxnOk(s', u) {
      assert TxnOk(s, u);
      assert HeldTags(s', u) == HeldTags(s, u);
    }
  }

  lemma ForgetKeeps(s: State, t: Tid)
    requires Core(s) && t !in s.mail
    ensures Core(Forget(s, t))
  {
    var s' := Forget(s, t);
    assert TxnOk(s, t);
    forall tag ensures TagOk(s', tag) {
      assert TagOk(s, tag);
      forall k: nat | k < |LcbOf(s', tag).waiters| ensures WaiterOk(s', tag, k) { assert WaiterOk(s, tag, k); }
    }
    forall u ensures TxnOk(s', u) {
      assert TxnOk(s, u);
      assert HeldTags(s', u) == HeldTags(s, u);
    }
  }

  // ---------------------------------------------------------------- granting

  /** Tags other than the one at work keep their queue, the rows and the registrations. */
  lemma OtherTag(s: State, s': State, tag: Tag, ws: seq<Request>)
    requires TagOk(s, tag) && LcbOf(s', tag) == LcbOf(s, tag) && ws == LcbOf(s, tag).waiters
    requires forall r :: r in ws ==> SameWaiter(s, s', r.tid)
    ensures TagOk(s', tag)
  {
    forall k: nat | k < |ws| ensures WaiterOk(s', tag, k) {
      assert WaiterOk(s, tag, k);
      assert ws[k] in ws;
    }
  }

  predicate SameWaiter(s: State, s': State, w: Tid) {
    && (w in s.graph ==> w in s'.graph && s'.graph[w] == s.graph[w])
    && (w in s.tcbs ==> w in s'.tcbs && s'.tcbs[w].waitingOn == s.tcbs[w].waitingOn)
  }

  lemma NewHolder(holders: map<Tid, Mode>, r: Request)
    requires HoldersCompatible(holders) && Admissible(holders, r)
    ensures HoldersCompatible(holders[r.tid := r.mode])
  {
    var h' := holders[r.tid := r.mode];
    forall t, u | t in h' && u in h' && t != u ensures Compatible(h'[t], h'[u]) {
      if t != r.tid && u == r.tid { CompatibleSymmetric(r.mode, holders[t]); }
    }
  }

  ghost predicate SameElsewhere(s: State, s': State, tag: Tag) {
    forall other :: other != tag ==> SameLcb(s, s', other)
  }

  predicate SameLcb(s: State, s': State, tag: Tag) { LcbOf(s', tag) == LcbOf(s, tag) }

  lemma HeldTagsOther(s: State, s': State, tag: Tag, u: Tid)
    requires SameElsewhere(s, s', tag)
    requires u in LcbOf(s', tag).holders <==> u in LcbOf(s, tag).holders
    ensures HeldTags(s', u) == HeldTags(s, u)
  {
    forall other ensures other in HeldTags(s', u) <==> other in HeldTags(s, u) {
      if other != tag { assert SameLcb(s, s', other); }
      assert other in HeldTags(s', u) <==> u in LcbOf(s', other).holders;
      assert other in HeldTags(s, u) <==> u in LcbOf(s, other).holders;
    }
  }

  lemma HeldTagsAdd(s: State, s': State, tag: Tag, u: Tid)
    requires SameElsewhere(s, s', tag)
    requires u in LcbOf(s', tag).holders && u !in LcbOf(s, tag).holders
    ensures HeldTags(s', u) == HeldTags(s, u) + {tag} && |HeldTags(s', u)| == |HeldTags(s, u)| + 1
  {
    forall other ensures other in HeldTags(s', u) <==> other in HeldTags(s, u) + {tag} {
      if other != tag { assert SameLcb(s, s', other); }
      assert other in HeldTags(s', u) <==> u in LcbOf(s', other).holders;
      assert other in HeldTags(s, u) <==> u in LcbOf(s, other).holders;
    }
    assert tag !in HeldTags(s, u);
  }

  lemma HoldKeeps(s: State, tag: Tag, r: Request)
    requires Core(s) && r.tid in s.tcbs && Idle(s, r.tid)
    requires LcbOf(s, tag).waiters == [] && Admissible(LcbOf(s, tag).holders, r)
    ensures Core(Hold(s, tag, r))
  {
    var s' := Hold(s, tag, r);
    assert TagOk(s, tag);
    NewHolder(LcbOf(s, tag).holders, r);
    forall other ensures TagOk(s', other) {
      assert TagOk(s, other);
      if other != tag { OtherTag(s, s', other, LcbOf(s, other).waiters); }
    }
    forall u ensures TxnOk(s', u) {
      assert TxnOk(s, u);
      if u == r.tid && u !in LcbOf(s, tag).holders { HeldTagsAdd(s, s', tag, u); }
      else { HeldTagsOther(s, s', tag, u); }
    }
  }

  // ---------------------------------------------------------------- queueing

  lemma NewRowCovers(lcb: Lcb, r: Request, t: Tid)
    requires t != r.tid
    ensures Count(NewRow(lcb, r), t) == Need(lcb.holders, lcb.waiters, r, t)
  {
    if QueueEdge(lcb.waiters, r.mode, t) > 0 {
      var j :| 0 <= j < |lcb.waiters| && lcb.waiters[j].tid == t && !Compatible(r.mode, lcb.waiters[j].mode);
      assert lcb.waiters[j] in lcb.waiters;
    }
  }

  lemma IdleNotQueued(s: State, tag: Tag, t: Tid)
    requires TagOk(s, tag) && Idle(s, t)
    ensures forall j :: 0 <= j < |LcbOf(s, tag).waiters| ==> LcbOf(s, tag).waiters[j].tid != t
  {
    forall j: nat | j < |LcbOf(s, tag).waiters| ensures LcbOf(s, tag).waiters[j].tid != t {
      assert WaiterOk(s, tag, j);
    }
  }

  lemma EnqueueQueue(s: State, tag: Tag, r: Request)
    requires TagOk(s, tag) && r.tid in s.tcbs && Idle(s, r.tid) && !Covered(LcbOf(s, tag).holders, r)
    ensures TagOk(Enqueue(s, tag, r), tag)
  {
    var s', lcb := Enqueue(s, tag, r), LcbOf(s, tag);
    var ws' := lcb.waiters + [r];
    IdleNotQueued(s, tag, r.tid);
    forall k: nat | k < |ws'| ensures WaiterOk(s', tag, k) {
      assert ws'[..k] == lcb.waiters[..k];
      if k < |lcb.waiters| {
        assert WaiterOk(s, tag, k);
        PositionOf(ws', ws'[k].tid, k);
        forall t | t != ws'[k].tid ensures EdgeOk(LcbOf(s', tag), s'.graph[ws'[k].tid], k, t) {
          assert EdgeOk(lcb, s.graph[ws'[k].tid], k, t);
        }
      } else {
        assert lcb.waiters[..k] == lcb.waiters;
        PositionOf(ws', r.tid, k);
        forall t | t != r.tid ensures EdgeOk(LcbOf(s', tag), s'.graph[r.tid], k, t) { NewRowCovers(lcb, r, t); }
      }
    }
  }

  lemma {:induction false} PositionAppend(ws: seq<Request>, r: Request, t: Tid)
    ensures Position(ws, t) < |ws| ==> Position(ws + [r], t) == Position(ws, t)
    ensures Position(ws, t) == |ws| ==> Position(ws + [r], t) == |ws| + (if r.tid == t then 0 else 1)
  {
    if ws != [] && ws[0].tid != t {
      assert (ws + [r])[1..] == ws[1..] + [r];
      PositionAppend(ws[1..], r, t);
    } else if ws == [] {
      assert (ws + [r])[1..] == [];
    }
  }

  lemma EnqueueKeeps(s: State, tag: Tag, r: Request)
    requires Core(s) && r.tid in s.tcbs && Idle(s, r.tid) && !Covered(LcbOf(s, tag).holders, r)
    ensures Core(Enqueue(s, tag, r))
  {
    var s' := Enqueue(s, tag, r);
    forall other ensures TagOk(s', other) {
      assert TagOk(s, other);
      if other == tag { EnqueueQueue(s, tag, r); }
      else { IdleNotQueued(s, other, r.tid); OtherTag(s, s', other, LcbOf(s, other).waiters); }
    }
    forall u ensures TxnOk(s', u) {
      assert TxnOk(s, u) && TagOk(s, tag);
      IdleNotQueued(s, tag, r.tid);
      PositionAppend(LcbOf(s, tag).waiters, r, u);
      HeldTagsOther(s, s', tag, u);
    }
  }

  // ---------------------------------------------------------------- waking

  /** A transaction waiting on one tag is in no other queue. */
  lemma WaitsOnce(s: State, tag: Tag, other: Tag, r: Request)
    requires TagOk(s, tag) && TagOk(s, other) && tag != other && r in LcbOf(s, other).waiters
    ensures forall j :: 0 <= j < |LcbOf(s, tag).waiters| ==> LcbOf(s, tag).waiters[j].tid != r.tid
  {
    var k :| 0 <= k < |LcbOf(s, other).waiters| && LcbOf(s, other).waiters[k] == r;
    assert WaiterOk(s, other, k);
    forall j: nat | j < |LcbOf(s, tag).waiters| ensures LcbOf(s, tag).waiters[j].tid != r.tid {
      assert WaiterOk(s, tag, j);
    }
  }

  /** What a later waiter needs when the head is granted: of the head, its edge as earlier waiter
      becomes its edge as holder; of the others the same. */
  lemma GrantNeeds(lcb: Lcb, k: nat, t: Tid)
    requires k + 1 < |lcb.waiters| && DistinctTids(lcb.waiters)
    ensures var w := lcb.waiters[0];
            var need' := Need(lcb.holders[w.tid := w.mode], lcb.waiters[1..][..k], lcb.waiters[k + 1], t);
            var need := Need(lcb.holders, lcb.waiters[..k + 1], lcb.waiters[k + 1], t);
            if t == w.tid then need' <= need <= need' + 1 && Queued(lcb.waiters[..k + 1], t) && !Queued(lcb.waiters[1..][..k], t)
            else need' == need && (Queued(lcb.waiters[..k + 1], t) <==> Queued(lcb.waiters[1..][..k], t))
  {
    var w, mode := lcb.waiters[0], lcb.waiters[k + 1].mode;
    var before, after := lcb.waiters[..k + 1], lcb.waiters[1..][..k];
    assert before == [w] + after;
    QueuedCons(w, after, mode, t);
    forall j | 0 <= j < |after| ensures after[j].tid != w.tid { assert after[j] == lcb.waiters[j + 1]; }
  }

  lemma QueuedCons(w: Request, ws: seq<Request>, mode: Mode, t: Tid)
    ensures Queued([w] + ws, t) <==> t == w.tid || Queued(ws, t)
    ensures QueueEdge([w] + ws, mode, t) == if t == w.tid && !Compatible(mode, w.mode) then 1 else QueueEdge(ws, mode, t)
  {
    var all := [w] + ws;
    assert all[0] == w && forall j :: 0 <= j < |ws| ==> all[j + 1] == ws[j];
  }

  lemma QueueDistinct(s: State, tag: Tag)
    requires QueueOk(s, tag)
    ensures DistinctTids(LcbOf(s, tag).waiters)
  {
    forall i, j | 0 <= i < j < |LcbOf(s, tag).waiters|
      ensures LcbOf(s, tag).waiters[i].tid != LcbOf(s, tag).waiters[j].tid
    {
      Distinct(s, tag, i, j);
    }
  }

  lemma GrantQueue(s: State, tag: Tag)
    requires TagOk(s, tag) && tag in s.table && HeadReady(s, tag)
    ensures TagOk(GrantHead(s, tag), tag)
  {
    var s', lcb := GrantHead(s, tag), LcbOf(s, tag);
    var w := lcb.waiters[0];
    assert WaiterOk(s, tag, 0);
    NewHolder(lcb.holders, w);
    QueueDistinct(s, tag);
    var ws' := lcb.waiters[1..];
    forall k: nat | k < |ws'| ensures WaiterOk(s', tag, k) {
      assert WaiterOk(s, tag, k + 1) && ws'[k] == lcb.waiters[k + 1];
      assert lcb.waiters[0].tid != lcb.waiters[k + 1].tid;
      PositionOf(ws', ws'[k].tid, k);
      forall t | t != ws'[k].tid ensures EdgeOk(LcbOf(s', tag), s'.graph[ws'[k].tid], k, t) {
        assert EdgeOk(lcb, s.graph[ws'[k].tid], k + 1, t);
        GrantNeeds(lcb, k, t);
      }
    }
  }

  lemma GrantKeeps(s: State, tag: Tag)
    requires Core(s) && tag in s.table && HeadReady(s, tag)
    ensures Core(GrantHead(s, tag))
  {
    var s', lcb := GrantHead(s, tag), LcbOf(s, tag);
    var w := lcb.waiters[0];
    assert TagOk(s, tag);
    assert WaiterOk(s, tag, 0);
    forall other ensures TagOk(s', other) {
      assert TagOk(s, other);
      if other == tag { GrantQueue(s, tag); }
      else {
        forall r | r in LcbOf(s, other).waiters ensures SameWaiter(s, s', r.tid) { WaitsOnce(s, tag, other, r); }
        OtherTag(s, s', other, LcbOf(s, other).waiters);
      }
    }
    forall u ensures TxnOk(s', u) {
      assert TxnOk(s, u);
      if u == w.tid && u !in lcb.holders { HeldTagsAdd(s, s', tag, u); } else { HeldTagsOther(s, s', tag, u); }
    }
  }

  lemma {:induction false} WakeKeeps(s: State, tag: Tag)
    requires Core(s) && (forall other :: other != tag ==> HeadBlocked(s, other))
    ensures Core(Wake(s, tag)) && forall other :: HeadBlocked(Wake(s, tag), other)
    decreases |LcbOf(s, tag).waiters|
  {
    assert TagOk(s, tag);
    if HeadReady(s, tag) {
      GrantKeeps(s, tag);
      var s' := GrantHead(s, tag);
      forall other | other != tag ensures HeadBlocked(s', other) { assert HeadBlocked(s, other); }
      WakeKeeps(s', tag);
    } else if LcbOf(s, tag).waiters != [] {
      assert WaiterOk(s, tag, 0);
    }
  }

  // ---------------------------------------------------------------- releasing and aborting

  lemma HeldTagsRemove(s: State, s': State, tag: Tag, u: Tid)
    requires SameElsewhere(s, s', tag)
    requires u !in LcbOf(s', tag).holders && u in LcbOf(s, tag).holders
    ensures HeldTags(s', u) == HeldTags(s, u) - {tag} && |HeldTags(s', u)| == |HeldTags(s, u)| - 1
  {
    forall other | other != tag ensures SameLcb(s', s, other) { assert SameLcb(s, s', other); }
    HeldTagsAdd(s', s, tag, u);
    forall other ensures other in HeldTags(s', u) <==> other in HeldTags(s, u) - {tag} {
      if other != tag { assert SameLcb(s, s', other); }
      assert other in HeldTags(s', u) <==> u in LcbOf(s', other).holders;
    }
  }

  lemma ReleaseQueue(s: State, tag: Tag, t: Tid)
    requires TagOk(s, tag) && tag in s.table && t in s.table[tag].holders && t in s.tcbs && Idle(s, t)
    ensures TagOk(RemoveHolder(s, tag, t), tag)
  {
    var s', lcb := RemoveHolder(s, tag, t), LcbOf(s, tag);
    var mode := lcb.holders[t];
    IdleNotQueued(s, tag, t);
    QueueDistinct(s, tag);
    DropEdgesEffect(s.graph, lcb.waiters, t, mode);
    forall k: nat | k < |lcb.waiters| ensures WaiterOk(s', tag, k) {
      assert WaiterOk(s, tag, k);
      var w := lcb.waiters[k];
      DropCount(s.graph[w.tid], t, w.tid);
      forall u | u != w.tid ensures EdgeOk(LcbOf(s', tag), s'.graph[w.tid], k, u) {
        assert EdgeOk(lcb, s.graph[w.tid], k, u);
        DropCount(s.graph[w.tid], t, u);
      }
    }
  }

  lemma ReleaseKeeps(s: State, tag: Tag, t: Tid)
    requires Core(s) && tag in s.table && t in s.table[tag].holders && t in s.tcbs && Idle(s, t)
    ensures Core(RemoveHolder(s, tag, t))
  {
    var s', lcb := RemoveHolder(s, tag, t), LcbOf(s, tag);
    assert TagOk(s, tag);
    QueueDistinct(s, tag);
    DropEdgesEffect(s.graph, lcb.waiters, t, lcb.holders[t]);
    forall other ensures TagOk(s', other) {
      assert TagOk(s, other);
      if other == tag { ReleaseQueue(s, tag, t); }
      else {
        forall r | r in LcbOf(s, other).waiters ensures SameWaiter(s, s', r.tid) { WaitsOnce(s, tag, other, r); }
        OtherTag(s, s', other, LcbOf(s, other).waiters);
      }
    }
    forall u ensures TxnOk(s', u) {
      assert TxnOk(s, u);
      if u == t { HeldTagsRemove(s, s', tag, u); } else { HeldTagsOther(s, s', tag, u); }
    }
  }

  /** Removing the waiter at `i` from a queue. */
  function Without(ws: seq<Request>, i: nat): seq<Request>
    requires i < |ws|
  {
    ws[..i] + ws[i + 1..]
  }

  /** What a later waiter needs falls by one for a conflicting victim and by nothing else. */
  lemma VictimNeeds(lcb: Lcb, i: nat, k: nat, t: Tid)
    requires i <= k && k + 1 < |lcb.waiters| && DistinctTids(lcb.waiters)
    ensures var before, after := lcb.waiters[..k + 1], Without(lcb.waiters, i)[..k]; var w, v := lcb.waiters[k + 1], lcb.waiters[i];
            && Need(lcb.holders, after, w, t) + (if t == v.tid && !Compatible(w.mode, v.mode) then 1 else 0)
                 == Need(lcb.holders, before, w, t)
            && (t != v.tid ==> (Queued(after, t) <==> Queued(before, t)))
            && Queued(before, v.tid)
  {
    var w, v := lcb.waiters[k + 1], lcb.waiters[i];
    var before, after := lcb.waiters[..k + 1], Without(lcb.waiters, i)[..k];
    assert before[i] == v;
    assert forall j :: 0 <= j < |after| ==> after[j] == before[if j < i then j else j + 1];
    forall j | 0 <= j < |before| && j != i ensures before[j] == after[if j < i then j else j - 1] && before[j].tid != v.tid { }
  }

  lemma AbortPosition(ws: seq<Request>, i: nat, k: nat)
    requires DistinctTids(ws) && i < |ws| && k < |ws| - 1
    ensures Position(Without(ws, i), Without(ws, i)[k].tid) == k
  {
    var ws' := Without(ws, i);
    forall j | 0 <= j < k ensures ws'[j].tid != ws'[k].tid {
      assert ws'[j] == ws[if j < i then j else j + 1] && ws'[k] == ws[if k < i then k else k + 1];
    }
    PositionOf(ws', ws'[k].tid, k);
  }

  /** The rows of the other waiters after the victim left: those behind it lose an edge. */
  lemma AbortRows(graph: map<Tid, Row>, ws: seq<Request>, i: nat, k: nat)
    requires DistinctTids(ws) && i < |ws| && k < |ws| && k != i && ws[k].tid in graph
    ensures var g := DropEdges(graph - {ws[i].tid}, ws[i + 1..], ws[i].tid, ws[i].mode);
            && ws[k].tid in g
            && g[ws[k].tid] == if k < i || Compatible(ws[k].mode, ws[i].mode) then graph[ws[k].tid]
                               else Drop(graph[ws[k].tid], ws[i].tid)
  {
    var tail := ws[i + 1..];
    assert forall j :: 0 <= j < |tail| ==> tail[j] == ws[i + 1 + j];
    assert DistinctTids(tail);
    DropEdgesEffect(graph - {ws[i].tid}, tail, ws[i].tid, ws[i].mode);
    if k > i { assert tail[k - i - 1] == ws[k]; }
  }

  lemma AbortEarlier(s: State, tag: Tag, v: Tid, i: nat, k: nat)
    requires TagOk(s, tag) && tag in s.table && v in s.tcbs
    requires i == Position(s.table[tag].waiters, v) < |s.table[tag].waiters| && k < i
    ensures WaiterOk(RemoveWaiter(s, tag, v), tag, k)
  {
    var s', lcb := RemoveWaiter(s, tag, v), s.table[tag];
    var w := lcb.waiters[k];
    QueueDistinct(s, tag);
    assert WaiterOk(s, tag, k);
    AbortRows(s.graph, lcb.waiters, i, k);
    AbortPosition(lcb.waiters, i, k);
    assert Without(lcb.waiters, i)[..k] == lcb.waiters[..k];
    forall t | t != w.tid ensures EdgeOk(LcbOf(s', tag), s'.graph[w.tid], k, t) {
      assert EdgeOk(lcb, s.graph[w.tid], k, t);
    }
  }

  lemma AbortLater(s: State, tag: Tag, v: Tid, i: nat, k: nat)
    requires TagOk(s, tag) && tag in s.table && v in s.tcbs
    requires i == Position(s.table[tag].waiters, v) <= k && k + 1 < |s.table[tag].waiters|
    ensures WaiterOk(RemoveWaiter(s, tag, v), tag, k)
  {
    var s', lcb := RemoveWaiter(s, tag, v), s.table[tag];
    var w := lcb.waiters[k + 1];
    QueueDistinct(s, tag);
    assert WaiterOk(s, tag, k + 1) && w.tid != lcb.waiters[i].tid;
    AbortRows(s.graph, lcb.waiters, i, k + 1);
    AbortPosition(lcb.waiters, i, k);
    DropCount(s.graph[w.tid], v, w.tid);
    var lcb' := lcb.(waiters := Without(lcb.waiters, i));
    assert LcbOf(s', tag) == lcb' && lcb'.waiters[k] == w;
    forall t | t != w.tid ensures EdgeOk(lcb', s'.graph[w.tid], k, t) {
      assert EdgeOk(lcb, s.graph[w.tid], k + 1, t);
      AbortEdge(lcb, s.graph[w.tid], i, k, t);
    }
  }

  lemma AbortEdge(lcb: Lcb, row: Row, i: nat, k: nat, t: Tid)
    requires i <= k && k + 1 < |lcb.waiters| && DistinctTids(lcb.waiters) && EdgeOk(lcb, row, k + 1, t)
    ensures var row' := if Compatible(lcb.waiters[k + 1].mode, lcb.waiters[i].mode) then row else Drop(row, lcb.waiters[i].tid);
            EdgeOk(lcb.(waiters := Without(lcb.waiters, i)), row', k, t)
  {
    DropCount(row, lcb.waiters[i].tid, t);
    VictimNeeds(lcb, i, k, t);
  }

  lemma AbortQueue(s: State, tag: Tag, v: Tid)
    requires TagOk(s, tag) && tag in s.table && v in s.tcbs
    requires Position(s.table[tag].waiters, v) < |s.table[tag].waiters|
    ensures TagOk(RemoveWaiter(s, tag, v), tag)
  {
    forall k: nat | k < |s.table[tag].waiters| - 1 ensures WaiterOk(RemoveWaiter(s, tag, v), tag, k) {
      var i := Position(s.table[tag].waiters, v);
      if k < i { AbortEarlier(s, tag, v, i, k); } else { AbortLater(s, tag, v, i, k); }
    }
  }

  lemma PositionWithout(ws: seq<Request>, i: nat, t: Tid)
    requires i < |ws| && t != ws[i].tid && Position(ws, t) < |ws| && DistinctTids(ws)
    ensures Position(Without(ws, i), t) < |ws| - 1
  {
    var p := Position(ws, t);
    var q := if p < i then p else p - 1;
    forall j | 0 <= j < q ensures Without(ws, i)[j].tid != t {
      assert Without(ws, i)[j] == ws[if j < i then j else j + 1];
    }
    PositionOf(Without(ws, i), t, q);
  }

  lemma AbortKeeps(s: State, tag: Tag, v: Tid)
    requires Core(s) && tag in s.table && v in s.tcbs && s.tcbs[v].waitingOn == Some(tag)
    requires Position(s.table[tag].waiters, v) < |s.table[tag].waiters|
    ensures Core(RemoveWaiter(s, tag, v))
  {
    var s' := RemoveWaiter(s, tag, v);
    AbortRegistry(s, tag, v);
    assert TagOk(s, tag);
    AbortQueue(s, tag, v);
    forall other ensures TagOk(s', other) {
      if other != tag {
        assert TagOk(s, other);
        forall r | r in LcbOf(s, other).waiters ensures SameWaiter(s, s', r.tid) { WaitsOnce(s, tag, other, r); }
        OtherTag(s, s', other, LcbOf(s, other).waiters);
      }
    }
    forall u ensures TxnOk(s', u) { AbortTxn(s, tag, v, u); }
  }

  /** The graph and the registry without the victim. */
  lemma AbortRegistry(s: State, tag: Tag, v: Tid)
    requires TagOk(s, tag) && tag in s.table && v in s.tcbs && Position(s.table[tag].waiters, v) < |s.table[tag].waiters|
    ensures RemoveWaiter(s, tag, v).graph.Keys == s.graph.Keys - {v}
    ensures forall u :: u != v && u in s.graph && (forall j :: 0 <= j < |s.table[tag].waiters| ==> s.table[tag].waiters[j].tid != u) ==>
              RemoveWaiter(s, tag, v).graph[u] == s.graph[u]
  {
    var ws, i := s.table[tag].waiters, Position(s.table[tag].waiters, v);
    QueueDistinct(s, tag);
    var tail := ws[i + 1..];
    assert DistinctTids(tail) && forall j :: 0 <= j < |tail| ==> tail[j] == ws[i + 1 + j];
    DropEdgesEffect(s.graph - {v}, tail, v, ws[i].mode);
  }

  lemma AbortTxn(s: State, tag: Tag, v: Tid, u: Tid)
    requires TxnOk(s, u) && TagOk(s, tag) && tag in s.table && v in s.tcbs && s.tcbs[v].waitingOn == Some(tag)
    requires Position(s.table[tag].waiters, v) < |s.table[tag].waiters|
    ensures TxnOk(RemoveWaiter(s, tag, v), u)
  {
    var s', ws := RemoveWaiter(s, tag, v), s.table[tag].waiters;
    AbortRegistry(s, tag, v);
    HeldTagsOther(s, s', tag, u);
    QueueDistinct(s, tag);
    if u != v && Position(ws, u) < |ws| { PositionWithout(ws, Position(ws, v), u); }
  }

  // ---------------------------------------------------------------- all events, all runs

  lemma LockCovered(s: State, s1: State, t: Tid)
    requires Inv(s) && Idle(s, t) && s1 == Register(s, t) && Core(s1)
    requires HeldTags(s1, t) != {}
    ensures Inv(Forget(s1, t))
  {
    ForgetKeeps(s1, t);
    assert TxnOk(s1, t);
    Unstale(s, Forget(s1, t), t);
    forall other ensures HeadBlocked(Forget(s1, t), other) { assert HeadBlocked(s, other); }
  }

  lemma LockGranted(s: State, s1: State, tag: Tag, r: Request)
    requires Inv(s) && Idle(s, r.tid) && s1 == Register(s, r.tid) && Core(s1)
    requires LcbOf(s1, tag).waiters == [] && Admissible(LcbOf(s1, tag).holders, r)
    ensures Inv(Forget(Hold(s1, tag, r), r.tid))
  {
    var s2 := Hold(s1, tag, r);
    HoldKeeps(s1, tag, r);
    assert TxnOk(s2, r.tid) && tag in HeldTags(s2, r.tid);
    ForgetKeeps(s2, r.tid);
    Unstale(s, Forget(s2, r.tid), r.tid);
    forall other ensures HeadBlocked(Forget(s2, r.tid), other) { assert HeadBlocked(s, other); }
  }

  lemma LockQueued(s: State, s1: State, tag: Tag, r: Request)
    requires Inv(s) && Idle(s, r.tid) && s1 == Register(s, r.tid) && Core(s1)
    requires !Covered(LcbOf(s1, tag).holders, r)
    requires LcbOf(s1, tag).waiters != [] || !Admissible(LcbOf(s1, tag).holders, r)
    ensures Inv(Enqueue(s1, tag, r))
  {
    EnqueueKeeps(s1, tag, r);
    Unstale(s, Enqueue(s1, tag, r), r.tid);
    forall other ensures HeadBlocked(Enqueue(s1, tag, r), other) { assert HeadBlocked(s, other); }
  }

  lemma LockKeeps(s: State, t: Tid, tag: Tag, mode: Mode)
    requires Inv(s) && Idle(s, t)
    ensures Inv(LockStep(s, t, tag, mode))
  {
    var s1, r := Register(s, t), Request(t, mode);
    RegisterKeeps(s, t);
    var lcb := LcbOf(s1, tag);
    if Covered(lcb.holders, r) {
      assert tag in HeldTags(s1, t);
      LockCovered(s, s1, t);
    } else if lcb.waiters == [] && Admissible(lcb.holders, r) {
      LockGranted(s, s1, tag, r);
    } else {
      LockQueued(s, s1, tag, r);
    }
  }

  /** Registrations other than that of `t` are as they were or belong to a queue. */
  lemma Unstale(s: State, s': State, t: Tid)
    requires forall u :: NotStale(s, u)
    requires NotStale(s', t)
    requires s'.mail == s.mail && forall u :: u != t ==> (u in s'.tcbs <==> u in s.tcbs) && (u in s.tcbs ==> s'.tcbs[u] == s.tcbs[u])
    ensures forall u :: NotStale(s', u)
  {
    forall u ensures NotStale(s', u) { assert NotStale(s, u); }
  }

  /** Waking leaves every registration with a reply in the mail or as it was. */
  lemma {:induction false} WakeRegistry(s: State, tag: Tag, u: Tid)
    ensures u in s.tcbs <==> u in Wake(s, tag).tcbs
    ensures u in s.mail ==> u in Wake(s, tag).mail
    ensures u in s.tcbs ==> u in Wake(s, tag).mail || Wake(s, tag).tcbs[u] == s.tcbs[u]
    ensures u !in s.mail && Position(LcbOf(s, tag).waiters, u) == |LcbOf(s, tag).waiters| ==> u !in Wake(s, tag).mail
    decreases |LcbOf(s, tag).waiters|
  {
    if HeadReady(s, tag) { WakeRegistry(GrantHead(s, tag), tag, u); }
  }

  lemma {:induction false} NotInQueue(ws: seq<Request>, t: Tid)
    requires forall j :: 0 <= j < |ws| ==> ws[j].tid != t
    ensures Position(ws, t) == |ws|
  {
    if ws != [] { NotInQueue(ws[1..], t); }
  }

  lemma UnlockKeeps(s: State, t: Tid, tag: Tag)
    requires Inv(s) && Idle(s, t)
    ensures Inv(UnlockStep(s, t, tag))
  {
    assert TagOk(s, tag);
    if t in s.tcbs && (tag !in s.table || t !in s.table[tag].holders) {
      ForgetKeeps(s, t);
      forall u ensures NotStale(Forget(s, t), u) { assert NotStale(s, u); }
      forall other ensures HeadBlocked(Forget(s, t), other) { assert HeadBlocked(s, other); }
    } else if t in s.tcbs {
      var s1 := RemoveHolder(s, tag, t);
      ReleaseKeeps(s, tag, t);
      forall other | other != tag ensures HeadBlocked(s1, other) { assert HeadBlocked(s, other); }
      WakeKeeps(s1, tag);
      var s2 := Wake(s1, tag);
      IdleNotQueued(s, tag, t);
      NotInQueue(LcbOf(s1, tag).waiters, t);
      WakeRegistry(s1, tag, t);
      ForgetKeeps(s2, t);
      forall u ensures NotStale(Forget(s2, t), u) {
        assert NotStale(s, u);
        WakeRegistry(s1, tag, u);
      }
      forall other ensures HeadBlocked(Forget(s2, t), other) { assert HeadBlocked(s2, other); }
    }
  }

  lemma VictimKeeps(s: State, v: Tid)
    requires Inv(s)
    ensures Inv(VictimStep(s, v))
  {
    assert TxnOk(s, v);
    if v in s.tcbs && s.tcbs[v].waitingOn.Some? {
      var tag := s.tcbs[v].waitingOn.value;
      var s1 := RemoveWaiter(s, tag, v);
      AbortKeeps(s, tag, v);
      forall other | other != tag ensures HeadBlocked(s1, other) { assert HeadBlocked(s, other); }
      WakeKeeps(s1, tag);
      forall u ensures NotStale(Wake(s1, tag), u) {
        assert NotStale(s, u);
        WakeRegistry(s1, tag, u);
      }
    }
  }

  lemma ResumeKeeps(s: State, t: Tid)
    requires Inv(s) && t in s.mail
    ensures Inv(After(s, Resume(t)))
  {
    var s1 := s.(mail := s.mail - {t});
    forall tag ensures TagOk(s1, tag) {
      assert TagOk(s, tag);
      OtherTag(s, s1, tag, LcbOf(s, tag).waiters);
    }
    forall u ensures TxnOk(s1, u) {
      assert TxnOk(s, u);
      assert HeldTags(s1, u) == HeldTags(s, u);
    }
    ForgetKeeps(s1, t);
    forall u ensures NotStale(Forget(s1, t), u) { assert NotStale(s, u) && TxnOk(s, u); }
    forall tag ensures HeadBlocked(Forget(s1, t), tag) { assert HeadBlocked(s, tag); }
  }

  lemma StepKeeps(s: State, e: Event)
    requires Inv(s) && Enabled(s, e)
    ensures Inv(After(s, e))
  {
    match e
    case Lock(t, tag, mode) => LockKeeps(s, t, tag, mode);
    case Unlock(t, tag) => UnlockKeeps(s, t, tag);
    case Victim(t) => VictimKeeps(s, t);
    case Resume(t) => ResumeKeeps(s, t);
  }

  lemma InitialInv()
    ensures Inv(INITIAL)
  {
    forall t ensures TxnOk(INITIAL, t) { assert HeldTags(INITIAL, t) == {}; }
  }

  lemma {:induction false} RunsKeepInv(es: seq<Event>)
    ensures Run(es).Some? ==> Inv(Run(es).value)
  {
    if es == [] { InitialInv(); }
    else {
      RunsKeepInv(es[..|es| - 1]);
      var prev := Run(es[..|es| - 1]);
      if prev.Some? && Enabled(prev.value, es[|es| - 1]) { StepKeeps(prev.value, es[|es| - 1]); }
    }
  }
}
