/** The lock manager as an object.  Each method is proved to perform the step of `LockState`,
    and the assertions of the program about graph and queues are discharged in its body. */
module LockManager {
  import opened LockModes
  import opened LockState
  import opened LockInvariant

  // ---------------------------------------------------------------- facts used by the loops

  /** The counts of a row under construction: holders in `hs` and waiters in `ws` considered. */
  function PartialRow(lcb: Lcb, hs: set<Tid>, ws: seq<Request>, r: Request): Row {
    map t | t in lcb.holders.Keys + (set w | w in ws :: w.tid)
            && t != r.tid && PartialNeed(lcb, hs, ws, r, t) > 0
      :: PartialNeed(lcb, hs, ws, r, t)
  }

  function PartialNeed(lcb: Lcb, hs: set<Tid>, ws: seq<Request>, r: Request, t: Tid): nat {
    (if t in hs then HolderEdge(lcb.holders, r.mode, t) else 0) + QueueEdge(ws, r.mode, t)
  }

  function Increment(row: Row, t: Tid): Row { row[t := Count(row, t) + 1] }

  lemma AddHolderEdge(lcb: Lcb, hs: set<Tid>, r: Request, h: Tid)
    requires h in lcb.holders && h !in hs
    ensures PartialRow(lcb, hs + {h}, [], r)
         == if h != r.tid && !Compatible(r.mode, lcb.holders[h]) then Increment(PartialRow(lcb, hs, [], r), h)
            else PartialRow(lcb, hs, [], r)
  {
  }

  lemma QueueEdgeAppend(ws: seq<Request>, w: Request, mode: Mode, t: Tid)
    requires forall j :: 0 <= j < |ws| ==> ws[j].tid != w.tid
    ensures QueueEdge(ws + [w], mode, t)
         == if t == w.tid then (if Compatible(mode, w.mode) then 0 else 1) else QueueEdge(ws, mode, t)
  {
    var ws' := ws + [w];
    assert ws'[|ws|] == w;
    assert forall j :: 0 <= j < |ws| ==> ws'[j] == ws[j];
    if QueueEdge(ws, mode, t) > 0 {
      var j :| 0 <= j < |ws| && ws[j].tid == t && !Compatible(mode, ws[j].mode);
      assert ws'[j].tid == t && !Compatible(mode, ws'[j].mode);
    }
  }

  lemma AddQueueEdge(lcb: Lcb, ws: seq<Request>, r: Request, w: Request)
    requires w.tid != r.tid && forall j :: 0 <= j < |ws| ==> ws[j].tid != w.tid
    ensures PartialRow(lcb, lcb.holders.Keys, ws + [w], r)
         == if Compatible(r.mode, w.mode) then PartialRow(lcb, lcb.holders.Keys, ws, r)
            else Increment(PartialRow(lcb, lcb.holders.Keys, ws, r), w.tid)
  {
    var row, row' := PartialRow(lcb, lcb.holders.Keys, ws, r), PartialRow(lcb, lcb.holders.Keys, ws + [w], r);
    var goal := if !Compatible(r.mode, w.mode) then Increment(row, w.tid) else row;
    forall t ensures Count(row', t) == Count(goal, t) && (t in row' <==> t in goal) {
      QueueEdgeAppend(ws, w, r.mode, t);
      QueueEdgeAppend(ws, w, r.mode, w.tid);
      assert w in ws + [w];
      assert forall v :: v in ws ==> v in ws + [w];
      assert forall v :: v in ws + [w] ==> v in ws || v == w;
      if QueueEdge(ws, r.mode, t) > 0 {
        var j :| 0 <= j < |ws| && ws[j].tid == t && !Compatible(r.mode, ws[j].mode);
        assert ws[j] in ws;
      }
      assert QueueEdge(ws, r.mode, w.tid) == 0;
    }
  }

  lemma NewRowIsPartialRow(lcb: Lcb, r: Request)
    ensures PartialRow(lcb, lcb.holders.Keys, lcb.waiters, r) == NewRow(lcb, r)
  {
  }

  /** The assertions of the decrement loops: the waiter has a row, it is another transaction,
      and if it conflicts with the mode going away the edge is there to be removed. */
  predicate EdgePresent(graph: map<Tid, Row>, w: Request, u: Tid, mode: Mode) {
    && w.tid in graph && w.tid != u
    && (!Compatible(w.mode, mode) ==> u in graph[w.tid] && graph[w.tid][u] >= 1)
  }

  ghost predicate EdgesPresent(graph: map<Tid, Row>, ws: seq<Request>, u: Tid, mode: Mode) {
    forall w :: w in ws ==> EdgePresent(graph, w, u, mode)
  }

  lemma HolderEdgesPresent(s: State, tag: Tag, t: Tid)
    requires Inv(s) && Idle(s, t) && t in LcbOf(s, tag).holders
    ensures EdgesPresent(s.graph, LcbOf(s, tag).waiters, t, LcbOf(s, tag).holders[t])
  {
    var lcb := LcbOf(s, tag);
    assert TagOk(s, tag);
    IdleNotQueued(s, tag, t);
    forall w | w in lcb.waiters ensures EdgePresent(s.graph, w, t, lcb.holders[t]) {
      var j :| 0 <= j < |lcb.waiters| && lcb.waiters[j] == w;
      assert WaiterOk(s, tag, j);
      assert EdgeOk(lcb, s.graph[w.tid], j, t);
    }
  }

  lemma VictimEdgesPresent(s: State, tag: Tag, v: Tid, i: nat)
    requires Inv(s) && i < |LcbOf(s, tag).waiters| && LcbOf(s, tag).waiters[i].tid == v
    ensures var ws := LcbOf(s, tag).waiters;
            DistinctTids(ws[i + 1..]) && EdgesPresent(s.graph - {v}, ws[i + 1..], v, ws[i].mode)
  {
    var lcb := LcbOf(s, tag);
    var tail := lcb.waiters[i + 1..];
    assert TagOk(s, tag);
    QueueDistinct(s, tag);
    assert forall j :: 0 <= j < |tail| ==> tail[j] == lcb.waiters[i + 1 + j];
    forall w | w in tail ensures EdgePresent(s.graph - {v}, w, v, lcb.waiters[i].mode) {
      var j :| 0 <= j < |tail| && tail[j] == w;
      var k := i + 1 + j;
      assert WaiterOk(s, tag, k) && lcb.waiters[k] == w;
      assert EdgeOk(lcb, s.graph[w.tid], k, v);
      assert lcb.waiters[..k][i] == lcb.waiters[i];
    }
  }

  lemma HeadRegistered(s: State, tag: Tag)
    requires Core(s) && LcbOf(s, tag).waiters != []
    ensures LcbOf(s, tag).waiters[0].tid in s.tcbs
  {
    assert TagOk(s, tag) && WaiterOk(s, tag, 0);
  }

  /** Rows not yet visited by the decrement loop are as they were. */
  lemma UnvisitedRow(graph: map<Tid, Row>, ws: seq<Request>, j: nat, u: Tid, mode: Mode)
    requires DistinctTids(ws) && j < |ws| && ws[j].tid in graph
    ensures ws[j].tid in DropEdges(graph, ws[..j], u, mode)
    ensures DropEdges(graph, ws[..j], u, mode)[ws[j].tid] == graph[ws[j].tid]
    ensures DropEdges(graph, ws[..j + 1], u, mode)
         == var g := DropEdges(graph, ws[..j], u, mode);
            if !Compatible(ws[j].mode, mode) then g[ws[j].tid := Drop(g[ws[j].tid], u)] else g
  {
    DropEdgesEffect(graph, ws[..j], u, mode);
    assert ws[..j + 1][..j] == ws[..j];
  }

  /** One for a clash with `t` as a holder, one for a clash with `t` as an earlier waiter. */
  function ClashCount(lcb: Lcb, r: Request, t: Tid): nat {
    if t == r.tid then 0
    else
      (if t in lcb.holders && Clash(r.mode, lcb.holders[t]) then 1 else 0)
      + (if exists j :: 0 <= j < |lcb.waiters| && lcb.waiters[j].tid == t && Clash(r.mode, lcb.waiters[j].mode) then 1 else 0)
  }

  lemma NewRowCounts(lcb: Lcb, r: Request, t: Tid)
    ensures Count(NewRow(lcb, r), t) == ClashCount(lcb, r, t)
  {
    if t in lcb.holders { CompatibleIff(r.mode, lcb.holders[t]); }
    forall j | 0 <= j < |lcb.waiters| ensures Compatible(r.mode, lcb.waiters[j].mode) <==> !Clash(r.mode, lcb.waiters[j].mode) {
      CompatibleIff(r.mode, lcb.waiters[j].mode);
    }
    if j :| 0 <= j < |lcb.waiters| && lcb.waiters[j].tid == t { assert lcb.waiters[j] in lcb.waiters; }
  }

  /** What a request leaves: it holds its mode, unless it held a covering one, or it is queued. */
  predicate Requested(before: Lcb, after: Lcb, r: Request, granted: bool) {
    if granted then
      && after.waiters == before.waiters
      && after.holders == if Covered(before.holders, r) then before.holders else before.holders[r.tid := r.mode]
    else after == Lcb(before.holders, before.waiters + [r])
  }

  lemma LockOutcome(s: State, t: Tid, tag: Tag, mode: Mode)
    ensures var lcb := LcbOf(s, tag); var r := Request(t, mode); var lcb' := LcbOf(LockStep(s, t, tag, mode), tag);
            var granted := Covered(lcb.holders, r) || (lcb.waiters == [] && Admissible(lcb.holders, r));
            Requested(lcb, lcb', r, granted) && (granted <==> Covered(lcb'.holders, r))
  {
  }

  lemma LockElsewhere(s: State, t: Tid, tag: Tag, mode: Mode)
    ensures forall other :: other != tag ==> LcbOf(LockStep(s, t, tag, mode), other) == LcbOf(s, other)
  {
  }

  lemma AdmissibleIff(holders: map<Tid, Mode>, r: Request)
    ensures Admissible(holders, r) <==> forall h :: h in holders && h != r.tid ==> !Clash(r.mode, holders[h])
  {
    forall h | h in holders ensures Compatible(r.mode, holders[h]) <==> !Clash(r.mode, holders[h]) {
      CompatibleIff(r.mode, holders[h]);
    }
  }

  // ---------------------------------------------------------------- the object

  class LockManager {
    var table: map<Tag, Lcb>
    var graph: map<Tid, Row>
    var tcbs: map<Tid, Tcb>
    var mail: map<Tid, Reply>

    ghost function S(): State
      reads this
    {
      State(table, graph, tcbs, mail)
    }

    constructor ()
      ensures S() == INITIAL
    {
      table, graph, tcbs, mail := map[], map[], map[], map[];
    }

    /** Is the request compatible with every other holder? */
    static method IsCompatible(holders: map<Tid, Mode>, r: Request) returns (b: bool)
      ensures b <==> Admissible(holders, r)
      ensures b <==> forall h :: h in holders && h != r.tid ==> !Clash(r.mode, holders[h])
    {
      AdmissibleIff(holders, r);
      var rest := holders.Keys;
      while rest != {}
        invariant rest <= holders.Keys
        invariant forall h :: h in holders && h !in rest && h != r.tid ==> Compatible(r.mode, holders[h])
        decreases rest
      {
        var h :| h in rest;
        rest := rest - {h};
        if h != r.tid && !Compatible(r.mode, holders[h]) { return false; }
      }
      return true;
    }

    /** The row of a new waiter: one count for each conflicting holder, then one for each
        conflicting waiter ahead. */
    static method BuildRow(lcb: Lcb, r: Request) returns (row: Row)
      requires DistinctTids(lcb.waiters) && forall j :: 0 <= j < |lcb.waiters| ==> lcb.waiters[j].tid != r.tid
      ensures row == NewRow(lcb, r)
      ensures forall t :: Count(row, t) == ClashCount(lcb, r, t)
    {
      forall t ensures Count(NewRow(lcb, r), t) == ClashCount(lcb, r, t) { NewRowCounts(lcb, r, t); }
      row := map[];
      var rest := lcb.holders.Keys;
      while rest != {}
        invariant rest <= lcb.holders.Keys
        invariant row == PartialRow(lcb, lcb.holders.Keys - rest, [], r)
        decreases rest
      {
        var h :| h in rest;
        AddHolderEdge(lcb, lcb.holders.Keys - rest, r, h);
        assert lcb.holders.Keys - (rest - {h}) == lcb.holders.Keys - rest + {h};
        rest := rest - {h};
        if h != r.tid && !Compatible(r.mode, lcb.holders[h]) { row := Increment(row, h); }
      }
      assert lcb.holders.Keys - {} == lcb.holders.Keys;
      var j := 0;
      while j < |lcb.waiters|
        invariant 0 <= j <= |lcb.waiters|
        invariant row == PartialRow(lcb, lcb.holders.Keys, lcb.waiters[..j], r)
      {
        var w := lcb.waiters[j];
        AddQueueEdge(lcb, lcb.waiters[..j], r, w);
        assert lcb.waiters[..j + 1] == lcb.waiters[..j] + [w];
        if !Compatible(r.mode, w.mode) { row := Increment(row, w.tid); }
        j := j + 1;
      }
      assert lcb.waiters[..j] == lcb.waiters;
      NewRowIsPartialRow(lcb, r);
    }

    method ForgetIfInactive(t: Tid)
      modifies this`tcbs
      ensures S() == Forget(old(S()), t)
    {
      if t in tcbs && tcbs[t].lockCount == 0 && tcbs[t].waitingOn == None { tcbs := tcbs - {t}; }
    }

    /** Immediate grant or upgrade. */
    method Grant(tag: Tag, r: Request)
      requires r.tid in tcbs
      modifies this`table, this`tcbs
      ensures S() == Hold(old(S()), tag, r)
    {
      var lcb := if tag in table then table[tag] else NO_LCB;
      if r.tid !in lcb.holders {
        tcbs := tcbs[r.tid := tcbs[r.tid].(lockCount := tcbs[r.tid].lockCount + 1)];
      }
      table := table[tag := lcb.(holders := lcb.holders[r.tid := r.mode])];
      assert r.tid in lcb.holders ==> tcbs == tcbs[r.tid := tcbs[r.tid]];
    }

    /** Joins the queue and adds the edges.  The transaction is not waiting already. */
    method Block(tag: Tag, r: Request)
      requires Core(S()) && r.tid in tcbs && Idle(S(), r.tid)
      modifies this`table, this`tcbs, this`graph
      ensures S() == Enqueue(old(S()), tag, r)
    {
      var lcb := if tag in table then table[tag] else NO_LCB;
      assert TagOk(S(), tag) && TxnOk(S(), r.tid);
      QueueDistinct(S(), tag);
      IdleNotQueued(S(), tag, r.tid);
      var row := BuildRow(lcb, r);
      assert tcbs[r.tid].waitingOn == None && r.tid !in graph;
      table := table[tag := lcb.(waiters := lcb.waiters + [r])];
      tcbs := tcbs[r.tid := tcbs[r.tid].(waitingOn := Some(tag))];
      graph := graph[r.tid := row];
    }

    /** The part of `Lock` up to the point where the caller is granted or blocks.  It is granted at
        once if its mode is covered, or nobody waits and no other holder clashes with it; else its
        request is the last of the queue. */
    method Lock(t: Tid, tag: Tag, mode: Mode) returns (granted: bool)
      requires Inv(S()) && Idle(S(), t)
      modifies this
      ensures S() == LockStep(old(S()), t, tag, mode) && Inv(S())
      ensures granted <==> Covered(LcbOf(S(), tag).holders, Request(t, mode))
      ensures var lcb := LcbOf(old(S()), tag);
              granted <==>
                || (t in lcb.holders && Covers(lcb.holders[t], mode))
                || (lcb.waiters == [] && forall h :: h in lcb.holders && h != t ==> !Clash(mode, lcb.holders[h]))
      ensures Requested(LcbOf(old(S()), tag), LcbOf(S(), tag), Request(t, mode), granted)
      ensures forall other :: other != tag ==> LcbOf(S(), other) == LcbOf(old(S()), other)
    {
      LockOutcome(S(), t, tag, mode);
      LockElsewhere(S(), t, tag, mode);
      AdmissibleIff(LcbOf(S(), tag).holders, Request(t, mode));
      LockKeeps(S(), t, tag, mode);
      RegisterKeeps(S(), t);
      if t !in tcbs { tcbs := tcbs[t := Tcb(0, None)]; }
      granted := LockOrQueue(t, tag, mode);
    }

    method LockOrQueue(t: Tid, tag: Tag, mode: Mode) returns (granted: bool)
      requires Core(S()) && t in tcbs && Idle(S(), t)
      modifies this
      ensures S() == LockStep(old(S()), t, tag, mode)
      ensures granted <==> Covered(LcbOf(S(), tag).holders, Request(t, mode))
    {
      var lcb := if tag in table then table[tag] else NO_LCB;
      var r := Request(t, mode);
      if t in lcb.holders && Covers(lcb.holders[t], mode) {
        ForgetIfInactive(t);
        return true;
      }
      var compatible := IsCompatible(lcb.holders, r);
      if |lcb.waiters| == 0 && compatible {
        Grant(tag, r);
        ForgetIfInactive(t);
        return true;
      }
      Block(tag, r);
      return false;
    }

    /** The waiter at `n` leaves the graph and stops waiting; unless its mode was covered it
        becomes a holder. */
    method GrantOne(ghost cur: State, tag: Tag, holders0: map<Tid, Mode>, ws: seq<Request>, n: nat, isCovered: bool)
      returns (holders: map<Tid, Mode>)
      requires n < |ws| && ws[n].tid in tcbs && (isCovered <==> Covered(holders0, ws[n]))
      requires cur == State(table[tag := Lcb(holders0, ws[n..])], graph, tcbs, Replies(mail, ws[..n]))
      modifies this`graph, this`tcbs
      ensures GrantHead(cur, tag)
           == State(table[tag := Lcb(holders, ws[n + 1..])], graph, tcbs, Replies(mail, ws[..n + 1]))
    {
      var w := ws[n];
      holders := holders0;
      if isCovered {
        tcbs := tcbs[w.tid := tcbs[w.tid].(waitingOn := None)];
      } else {
        tcbs := tcbs[w.tid := Tcb(if w.tid in holders then tcbs[w.tid].lockCount else tcbs[w.tid].lockCount + 1, None)];
        holders := holders[w.tid := w.mode];
      }
      graph := graph - {w.tid};
      assert ws[n..][0] == w && ws[n..][1..] == ws[n + 1..];
      assert ws[..n + 1][..n] == ws[..n];
    }

    /** Grants waiters from the front until one conflicts; `n` were granted. */
    method GrantPrefix(tag: Tag) returns (n: nat, holders: map<Tid, Mode>)
      requires Core(S()) && tag in table
      modifies this`graph, this`tcbs
      ensures n <= |table[tag].waiters|
      ensures Wake(old(S()), tag)
           == State(table[tag := Lcb(holders, table[tag].waiters[n..])], graph, tcbs,
                    Replies(mail, table[tag].waiters[..n]))
    {
      holders := table[tag].holders;
      var ws := table[tag].waiters;
      n := 0;
      ghost var cur := S();
      assert ws[0..] == ws && table[tag := Lcb(holders, ws)] == table;
      while n < |ws|
        invariant 0 <= n <= |ws|
        invariant cur == State(table[tag := Lcb(holders, ws[n..])], graph, tcbs, Replies(mail, ws[..n]))
        invariant Core(cur) && Wake(cur, tag) == Wake(old(S()), tag)
      {
        var w := ws[n];
        assert ws[n..][0] == w && ws[n..][1..] == ws[n + 1..];
        HeadRegistered(cur, tag);
        var isCovered := w.tid in holders && Covers(holders[w.tid], w.mode);
        var isCompatible := IsCompatible(holders, w);
        if !isCovered && !isCompatible { break; }
        GrantKeeps(cur, tag);
        holders := GrantOne(cur, tag, holders, ws, n, isCovered);
        cur := GrantHead(cur, tag);
        n := n + 1;
      }
      assert !HeadReady(cur, tag);
    }

    /** Grants what can be granted, trims the queue, and replies to the granted callers. */
    method WakeUpCompatibleWaiters(tag: Tag)
      requires Core(S()) && tag in table
      modifies this
      ensures S() == Wake(old(S()), tag)
    {
      var ws := table[tag].waiters;
      var n, holders := GrantPrefix(tag);
      table := table[tag := Lcb(holders, ws[n..])];
      var k := 0;
      while k < n
        invariant 0 <= k <= n
        invariant table == old(table)[tag := Lcb(holders, ws[n..])]
        invariant Wake(old(S()), tag) == State(table, graph, tcbs, Replies(old(mail), ws[..n]))
        invariant mail == Replies(old(mail), ws[..k])
      {
        assert ws[..k + 1] == ws[..k] + [ws[k]];
        mail := mail[ws[k].tid := Granted];
        k := k + 1;
      }
    }

    /** The decrement loop shared by `unlock` and `resolveCycle`, with their assertions. */
    method DropAll(ws: seq<Request>, u: Tid, mode: Mode)
      requires DistinctTids(ws) && EdgesPresent(graph, ws, u, mode)
      modifies this`graph
      ensures graph == DropEdges(old(graph), ws, u, mode)
    {
      var j := 0;
      while j < |ws|
        invariant 0 <= j <= |ws|
        invariant graph == DropEdges(old(graph), ws[..j], u, mode)
      {
        var w := ws[j];
        assert w in ws && EdgePresent(old(graph), w, u, mode);
        UnvisitedRow(old(graph), ws, j, u, mode);
        assert w.tid in graph && w.tid != u;
        if !Compatible(w.mode, mode) {
          assert u in graph[w.tid] && graph[w.tid][u] >= 1;
          graph := graph[w.tid := Drop(graph[w.tid], u)];
        }
        j := j + 1;
      }
      assert ws[..j] == ws;
    }

    /** Releases a held lock. */
    method Release(t: Tid, tag: Tag)
      requires Inv(S()) && Idle(S(), t) && t in tcbs && tag in table && t in table[tag].holders
      modifies this
      ensures S() == Wake(RemoveHolder(old(S()), tag, t), tag)
    {
      var lcb := table[tag];
      assert TagOk(S(), tag);
      QueueDistinct(S(), tag);
      ReleaseKeeps(S(), tag, t);
      HolderEdgesPresent(S(), tag, t);
      table := table[tag := lcb.(holders := lcb.holders - {t})];
      tcbs := tcbs[t := tcbs[t].(lockCount := tcbs[t].lockCount - 1)];
      DropAll(lcb.waiters, t, lcb.holders[t]);
      WakeUpCompatibleWaiters(tag);
    }

    /** Releases a lock; false is the lock-not-found error. */
    method Unlock(t: Tid, tag: Tag) returns (ok: bool)
      requires Inv(S()) && Idle(S(), t)
      modifies this
      ensures S() == UnlockStep(old(S()), t, tag) && Inv(S())
      ensures ok <==> t in LcbOf(old(S()), tag).holders
    {
      UnlockKeeps(S(), t, tag);
      if t !in tcbs {
        assert TxnOk(S(), t);
        assert tag !in HeldTags(S(), t);
        return false;
      }
      if tag !in table || t !in table[tag].holders {
        ForgetIfInactive(t);
        return false;
      }
      Release(t, tag);
      ForgetIfInactive(t);
      return true;
    }

    /** Aborts the pending request of a victim, if it still has one. */
    method ResolveCycle(v: Tid)
      requires Inv(S())
      modifies this
      ensures S() == VictimStep(old(S()), v) && Inv(S())
    {
      VictimKeeps(S(), v);
      if v !in tcbs || tcbs[v].waitingOn == None { return; }
      assert TxnOk(S(), v);
      AbortRequest(v, tcbs[v].waitingOn.value);
    }

    method AbortRequest(v: Tid, tag: Tag)
      requires Inv(S()) && v in tcbs && tcbs[v].waitingOn == Some(tag) && tag in table
      requires Position(table[tag].waiters, v) < |table[tag].waiters|
      modifies this
      ensures S() == Wake(RemoveWaiter(old(S()), tag, v), tag)
    {
      var lcb := table[tag];
      var i := Position(lcb.waiters, v);
      assert TagOk(S(), tag);
      QueueDistinct(S(), tag);
      AbortKeeps(S(), tag, v);
      VictimEdgesPresent(S(), tag, v, i);
      tcbs := tcbs[v := tcbs[v].(waitingOn := None)];
      graph := graph - {v};
      DropAll(lcb.waiters[i + 1..], v, lcb.waiters[i].mode);
      table := table[tag := lcb.(waiters := lcb.waiters[..i] + lcb.waiters[i + 1..])];
      assert |table[tag].waiters| == |lcb.waiters| - 1;
      mail := mail[v := Deadlock];
      WakeUpCompatibleWaiters(tag);
    }

    /** The blocked caller of `Lock` reads its channel. */
    method AwaitReply(t: Tid) returns (granted: bool)
      requires Inv(S()) && t in mail
      modifies this
      ensures S() == After(old(S()), Resume(t)) && Inv(S())
      ensures granted <==> old(mail)[t] == Granted
    {
      ResumeKeeps(S(), t);
      granted := mail[t] == Granted;
      mail := mail - {t};
      ForgetIfInactive(t);
    }
  }

  /** The mailbox after replying to a list of granted requests. */
  function Replies(mail: map<Tid, Reply>, rs: seq<Request>): map<Tid, Reply> {
    if rs == [] then mail else Replies(mail, rs[..|rs| - 1])[rs[|rs| - 1].tid := Granted]
  }
}
