/** The deadlock detector: a depth-first search over a snapshot of the waits-for graph, and the
    loop that hands every list it reports to the victim selection. */
module DeadlockSearch {
  import opened LockState
  import opened LockInvariant
  import G = Granularity
  import LM = LockManager

  /** For every waiter, the transactions it waits for, in some order. */
  type Snapshot = map<Tid, seq<Tid>>

  function Edges(g: Snapshot, u: Tid): seq<Tid> { if u in g then g[u] else [] }

  predicate Edge(g: Snapshot, u: Tid, v: Tid) { v in Edges(g, u) }

  function Nodes(g: Snapshot): set<Tid> { g.Keys + set u, i | u in g && 0 <= i < |g[u]| :: g[u][i] }

  predicate Distinct(c: seq<Tid>) { forall i, j :: 0 <= i < j < |c| ==> c[i] != c[j] }

  /** Every element waits for the one before it. */
  predicate Chain(g: Snapshot, c: seq<Tid>) { forall i :: 0 <= i < |c| - 1 ==> Edge(g, c[i + 1], c[i]) }

  /** A list without repetition whose elements wait for each other in a ring. */
  predicate Cycle(g: Snapshot, c: seq<Tid>) {
    c != [] && Distinct(c) && Chain(g, c) && Edge(g, c[0], c[|c| - 1])
  }

  ghost predicate HasCycle(g: Snapshot) { exists c :: Cycle(g, c) }

  predicate NoSelfEdge(g: Snapshot) { forall u :: u in g ==> u !in g[u] }

  // ---------------------------------------------------------------- the search

  /** What a call leaves in `visited` and `onStack`, and the list it returns. */
  datatype Outcome = Outcome(visited: set<Tid>, onStack: set<Tid>, path: seq<Tid>)

  /** The list of a callee on its way up: 0 in front marks a closed cycle. */
  function Extend(path: seq<Tid>, u: Tid): seq<Tid>
    requires path != []
  {
    if path[0] == 0 then path else if path[0] != u then path + [u] else [0] + path
  }

  function Visit(g: Snapshot, visited: set<Tid>, onStack: set<Tid>, u: Tid): (r: Outcome)
    requires u !in visited && u in Nodes(g)
    ensures visited + {u} <= r.visited <= visited + Nodes(g) && (r.path != [] ==> |r.path| >= 2)
    decreases |Nodes(g) - visited|, 0
  {
    assert Nodes(g) - (visited + {u}) < Nodes(g) - visited;
    Smaller(Nodes(g) - (visited + {u}), Nodes(g) - visited);
    Scan(g, visited + {u}, onStack + {u}, u, 0)
  }

  /** The loop over the edges of `u`, from the `i`-th on. */
  function Scan(g: Snapshot, visited: set<Tid>, onStack: set<Tid>, u: Tid, i: nat): (r: Outcome)
    requires u in Nodes(g) && i <= |Edges(g, u)|
    ensures visited <= r.visited <= visited + Nodes(g) && (r.path != [] ==> |r.path| >= 2)
    decreases |Nodes(g) - visited|, |Edges(g, u)| - i + 1
  {
    if i == |Edges(g, u)| then Outcome(visited, onStack - {u}, [])
    else
      var v := Edges(g, u)[i];
      if v in onStack then Outcome(visited, onStack, [v, u])
      else if v in visited then Scan(g, visited, onStack, u, i + 1)
      else
        var r := Visit(g, visited, onStack, v);
        Smaller(Nodes(g) - r.visited, Nodes(g) - visited);
        if r.path != [] then Outcome(r.visited, r.onStack, Extend(r.path, u))
        else Scan(g, r.visited, r.onStack, u, i + 1)
  }

  lemma Smaller(a: set<Tid>, b: set<Tid>)
    requires a <= b
    ensures |a| <= |b|
    ensures a != b ==> |a| < |b|
  {
    assert b == a + (b - a);
  }

  // ---------------------------------------------------------------- what the search knows

  function Elements(s: seq<Tid>): set<Tid> { set u | u in s }

  /** Finished nodes wait only for nodes finished earlier. */
  predicate Finished(g: Snapshot, done: seq<Tid>) {
    forall i, v :: 0 <= i < |done| && v in Edges(g, done[i]) ==> v in done[..i]
  }

  predicate Walk(g: Snapshot, stack: seq<Tid>) { forall i :: 0 <= i < |stack| - 1 ==> Edge(g, stack[i], stack[i + 1]) }

  predicate LeadsTo(g: Snapshot, u: Tid, w: seq<Tid>, c: seq<Tid>) {
    w != [] && w[0] == u && Walk(g, w) && Cycle(g, c) && w[|w| - 1] in c
  }

  /** Nothing but a victim helps `u`: it waits, through others perhaps, for a member of a cycle. */
  ghost predicate Stuck(g: Snapshot, u: Tid) {
    exists w, c :: LeadsTo(g, u, w, c)
  }

  ghost predicate AllStuck(g: Snapshot, us: set<Tid>) { forall u :: u in us ==> Stuck(g, u) }

  /** The stack is a path; what is visited is on the stack, or finished, or was left marked by an
      earlier hit. */
  ghost predicate Searching(g: Snapshot, visited: set<Tid>, onStack: set<Tid>, stack: seq<Tid>, done: seq<Tid>, marks: set<Tid>) {
    && visited == Elements(stack) + Elements(done) + marks && onStack == Elements(stack) + marks
    && Elements(stack) !! Elements(done) && Elements(stack) !! marks && Elements(done) !! marks
    && Distinct(stack) && Walk(g, stack) && Finished(g, done)
    && Elements(stack) <= Nodes(g) && marks <= Nodes(g) && AllStuck(g, marks)
  }

  /** The list returned by the call for the last node of `stack`: closed, or still on its way
      up to the node where the cycle starts, or begun at a node left marked. */
  predicate Hit(g: Snapshot, stack: seq<Tid>, path: seq<Tid>, marks: set<Tid>) {
    && stack != [] && path != []
    && (path[0] == 0 ==> Cycle(g, path[1..]))
    && (path[0] != 0 ==>
          && |path| >= 2 && Distinct(path) && Chain(g, path)
          && (path[0] in stack[..|stack| - 1] || path[0] in marks) && path[|path| - 1] == stack[|stack| - 1]
          && forall i :: 1 <= i < |path| - 1 ==> path[i] !in stack)
  }

  predicate AllIn(edges: seq<Tid>, done: seq<Tid>) { forall v :: v in edges ==> v in done }

  predicate Grown(done: seq<Tid>, done': seq<Tid>) { forall u :: u in done ==> u in done' }

  /** A node all of whose edges lead to finished nodes is finished next. */
  lemma Finish(g: Snapshot, visited: set<Tid>, onStack: set<Tid>, u: Tid, stack: seq<Tid>, done: seq<Tid>, marks: set<Tid>)
    requires Searching(g, visited, onStack, stack + [u], done, marks)
    requires AllIn(Edges(g, u), done)
    ensures Searching(g, visited, onStack - {u}, stack, done + [u], marks)
  {
    var up, done' := stack + [u], done + [u];
    assert up[|stack|] == u && forall k :: 0 <= k < |stack| ==> up[k] == stack[k];
    assert Elements(up) == Elements(stack) + {u} && Elements(done') == Elements(done) + {u};
    assert u !in stack;
    forall i, v | 0 <= i < |done'| && v in Edges(g, done'[i]) ensures v in done'[..i] {
      assert done'[..i] == done[..i];
    }
    forall i | 0 <= i < |stack| - 1 ensures Edge(g, stack[i], stack[i + 1]) { assert Edge(g, up[i], up[i + 1]); }
  }

  lemma RingOnStack(g: Snapshot, stack: seq<Tid>, k: nat)
    requires k < |stack| && Distinct(stack) && Edge(g, stack[|stack| - 1], stack[k])
    requires Walk(g, stack)
    ensures Stuck(g, stack[k])
  {
    var n := |stack|;
    var c := seq(n - k, i requires 0 <= i < n - k => stack[n - 1 - i]);
    forall i | 0 <= i < |c| - 1 ensures Edge(g, c[i + 1], c[i]) { assert c[i + 1] == stack[n - 2 - i]; }
    assert c[n - 1 - k] == stack[k];
    assert LeadsTo(g, stack[k], [stack[k]], c);
  }

  /** Whoever waits for a stuck transaction is stuck. */
  lemma StuckStep(g: Snapshot, u: Tid, v: Tid)
    requires Edge(g, u, v) && Stuck(g, v)
    ensures Stuck(g, u)
  {
    var w, c :| LeadsTo(g, v, w, c);
    var w' := [u] + w;
    forall i | 0 <= i < |w'| - 1 ensures Edge(g, w'[i], w'[i + 1]) {
      if i > 0 { assert Edge(g, w[i - 1], w[i - 1 + 1]); }
    }
    assert LeadsTo(g, u, w', c);
  }

  lemma {:induction false} StackStuck(g: Snapshot, stack: seq<Tid>, v: Tid)
    requires Walk(g, stack) && (stack != [] ==> Edge(g, stack[|stack| - 1], v)) && Stuck(g, v)
    ensures AllStuck(g, Elements(stack))
  {
    if stack != [] {
      var n := |stack| - 1;
      StuckStep(g, stack[n], v);
      assert stack == stack[..n] + [stack[n]];
      if n > 0 { assert Edge(g, stack[n - 1], stack[n - 1 + 1]); }
      StackStuck(g, stack[..n], stack[n]);
    }
  }

  lemma DistinctAppend(c: seq<Tid>, u: Tid)
    requires Distinct(c) && u !in c
    ensures Distinct(c + [u])
  {
    forall i, j | 0 <= i < j < |c + [u]| ensures (c + [u])[i] != (c + [u])[j] {
      assert (c + [u])[i] in c;
    }
  }

  lemma ChainAppend(g: Snapshot, c: seq<Tid>, u: Tid)
    requires c != [] && Chain(g, c) && Edge(g, u, c[|c| - 1])
    ensures Chain(g, c + [u])
  {
    var c' := c + [u];
    forall i | 0 <= i < |c'| - 1 ensures Edge(g, c'[i + 1], c'[i]) {
      if i < |c| - 1 { assert Edge(g, c[i + 1], c[i]); }
    }
  }

  /** A list on its way up holds no node of the shorter stack, except the one it started from. */
  lemma OpenAbove(g: Snapshot, stack: seq<Tid>, v: Tid, path: seq<Tid>, marks: set<Tid>, i: nat)
    requires v !in stack && Hit(g, stack + [v], path, marks) && path[0] != 0 && 1 <= i < |path|
    ensures path[i] !in stack
  {
    if i < |path| - 1 {
      assert path[i] !in stack + [v];
      assert forall x :: x in stack ==> x in stack + [v];
    }
  }

  /** One level up: the list is closed when it reaches its first node, and grows otherwise. */
  lemma ExtendHit(g: Snapshot, stack: seq<Tid>, v: Tid, path: seq<Tid>, marks: set<Tid>)
    requires stack != [] && v !in stack && Edge(g, stack[|stack| - 1], v) && 0 !in stack
    requires Hit(g, stack + [v], path, marks) && (forall x :: x in stack ==> x !in marks)
    ensures Hit(g, stack, Extend(path, stack[|stack| - 1]), marks)
  {
    var u := stack[|stack| - 1];
    assert (stack + [v])[..|stack|] == stack;
    if path[0] == u {
      assert ([0] + path)[1..] == path;
    } else if path[0] != 0 {
      var path' := path + [u];
      StillBelow(stack, path[0]);
      forall i: nat | 1 <= i < |path| ensures path[i] !in stack { OpenAbove(g, stack, v, path, marks, i); }
      DistinctAppend(path, u);
      ChainAppend(g, path, u);
      forall i | 1 <= i < |path'| - 1 ensures path'[i] !in stack { assert path'[i] == path[i]; }
    }
  }

  lemma StillBelow(stack: seq<Tid>, x: Tid)
    requires stack != [] && x != stack[|stack| - 1]
    ensures x in stack ==> x in stack[..|stack| - 1]
  {
    if x in stack {
      var k :| 0 <= k < |stack| && stack[k] == x;
      assert stack[..|stack| - 1][k] == x;
    }
  }

  lemma Push(g: Snapshot, visited: set<Tid>, onStack: set<Tid>, u: Tid, stack: seq<Tid>, done: seq<Tid>, marks: set<Tid>)
    requires Searching(g, visited, onStack, stack, done, marks) && u !in visited && u in Nodes(g)
    requires stack != [] ==> Edge(g, stack[|stack| - 1], u)
    ensures Searching(g, visited + {u}, onStack + {u}, stack + [u], done, marks)
  {
    var up := stack + [u];
    assert Elements(up) == Elements(stack) + {u};
    assert u !in Elements(stack);
    assert up[|stack|] == u && forall k :: 0 <= k < |stack| ==> up[k] == stack[k];
    forall i | 0 <= i < |up| - 1 ensures Edge(g, up[i], up[i + 1]) {
      if i < |stack| - 1 { assert Edge(g, stack[i], stack[i + 1]); }
    }
  }

  /** What a call does: it finishes its node `u` and leaves the stack as it was, or it reports a
      list of stuck transactions and leaves the whole stack marked. */
  ghost predicate Outcomes(g: Snapshot, stack: seq<Tid>, u: Tid, done: seq<Tid>, marks: set<Tid>, done': seq<Tid>, marks': set<Tid>, r: Outcome) {
    if r.path == [] then
      Searching(g, r.visited, r.onStack, stack, done', marks) && u in done' && Grown(done, done') && marks' == marks
    else
      && Searching(g, r.visited, r.onStack, [], done', marks') && Elements(stack + [u]) <= marks'
      && (forall x :: x in r.path ==> x == 0 || Stuck(g, x))
      && (NoSelfEdge(g) ==> Hit(g, stack + [u], r.path, marks))
  }

  /** After a hit nobody takes the marks back. */
  lemma LeaveMarks(g: Snapshot, visited: set<Tid>, onStack: set<Tid>, stack: seq<Tid>, done: seq<Tid>, marks: set<Tid>)
    requires Searching(g, visited, onStack, stack, done, marks) && AllStuck(g, Elements(stack))
    ensures Searching(g, visited, onStack, [], done, marks + Elements(stack))
  {
    assert Elements([]) == {};
  }

  /** The edge leads back into the stack, or to a node left marked. */
  lemma HitNow(g: Snapshot, visited: set<Tid>, onStack: set<Tid>, stack: seq<Tid>, u: Tid, done: seq<Tid>, marks: set<Tid>, i: nat)
    requires Searching(g, visited, onStack, stack + [u], done, marks) && 0 !in Nodes(g)
    requires i < |Edges(g, u)| && Edges(g, u)[i] in onStack
    ensures Outcomes(g, stack, u, done, marks, done, marks + Elements(stack + [u]), Outcome(visited, onStack, [Edges(g, u)[i], u]))
  {
    var v, up := Edges(g, u)[i], stack + [u];
    Last(stack, u);
    EdgeTarget(g, u, i);
    if v in up {
      var k :| 0 <= k < |up| && up[k] == v;
      RingOnStack(g, up, k);
      if NoSelfEdge(g) { assert up[..|up| - 1][k] == v; }
    }
    StackStuck(g, up, v);
    LeaveMarks(g, visited, onStack, up, done, marks);
    if NoSelfEdge(g) {
      assert v != u;
      assert Hit(g, up, [v, u], marks);
    }
  }

  lemma {:induction false} VisitSearches(g: Snapshot, visited: set<Tid>, onStack: set<Tid>, u: Tid, stack: seq<Tid>, done: seq<Tid>, marks: set<Tid>)
    returns (done': seq<Tid>, marks': set<Tid>)
    requires Searching(g, visited, onStack, stack, done, marks) && u !in visited && u in Nodes(g) && 0 !in Nodes(g)
    requires stack != [] ==> Edge(g, stack[|stack| - 1], u)
    ensures Outcomes(g, stack, u, done, marks, done', marks', Visit(g, visited, onStack, u))
    decreases |Nodes(g) - visited|, 0
  {
    Smaller(Nodes(g) - (visited + {u}), Nodes(g) - visited);
    Push(g, visited, onStack, u, stack, done, marks);
    done', marks' := ScanSearches(g, visited + {u}, onStack + {u}, u, 0, stack, done, marks);
  }

  lemma {:induction false} ScanSearches(g: Snapshot, visited: set<Tid>, onStack: set<Tid>, u: Tid, i: nat, stack: seq<Tid>, done: seq<Tid>, marks: set<Tid>)
    returns (done': seq<Tid>, marks': set<Tid>)
    requires Searching(g, visited, onStack, stack + [u], done, marks) && u in Nodes(g) && 0 !in Nodes(g)
    requires i <= |Edges(g, u)| && AllIn(Edges(g, u)[..i], done)
    ensures Outcomes(g, stack, u, done, marks, done', marks', Scan(g, visited, onStack, u, i))
    decreases |Nodes(g) - visited|, |Edges(g, u)| - i + 1
  {
    if i == |Edges(g, u)| {
      done', marks' := done + [u], marks;
      assert Edges(g, u)[..i] == Edges(g, u);
      Finish(g, visited, onStack, u, stack, done, marks);
      return;
    }
    var v := Edges(g, u)[i];
    if v in onStack {
      done', marks' := done, marks + Elements(stack + [u]);
      HitNow(g, visited, onStack, stack, u, done, marks, i);
    } else if v in visited {
      Settled(g, visited, onStack, stack + [u], done, marks, v);
      NextEdge(Edges(g, u), i, done, done);
      done', marks' := ScanSearches(g, visited, onStack, u, i + 1, stack, done, marks);
    } else {
      done', marks' := Descend(g, visited, onStack, u, i, stack, done, marks);
    }
  }

  /** The edge leads to a node not seen before. */
  lemma {:induction false} Descend(g: Snapshot, visited: set<Tid>, onStack: set<Tid>, u: Tid, i: nat, stack: seq<Tid>, done: seq<Tid>, marks: set<Tid>)
    returns (done': seq<Tid>, marks': set<Tid>)
    requires Searching(g, visited, onStack, stack + [u], done, marks) && u in Nodes(g) && 0 !in Nodes(g)
    requires i < |Edges(g, u)| && AllIn(Edges(g, u)[..i], done) && Edges(g, u)[i] !in visited && Edges(g, u)[i] !in onStack
    ensures Outcomes(g, stack, u, done, marks, done', marks', Scan(g, visited, onStack, u, i))
    decreases |Nodes(g) - visited|, |Edges(g, u)| - i
  {
    var v := Edges(g, u)[i];
    Last(stack, u);
    EdgeTarget(g, u, i);
    var r := Visit(g, visited, onStack, v);
    var done1, marks1 := VisitSearches(g, visited, onStack, v, stack + [u], done, marks);
    Smaller(Nodes(g) - r.visited, Nodes(g) - visited);
    if r.path != [] {
      done', marks' := done1, marks1;
      Ascend(g, visited, onStack, u, v, stack, done, marks, done1, marks1, r);
    } else {
      NextEdge(Edges(g, u), i, done, done1);
      done', marks' := ScanSearches(g, r.visited, r.onStack, u, i + 1, stack, done1, marks);
    }
  }

  lemma Ascend(g: Snapshot, visited: set<Tid>, onStack: set<Tid>, u: Tid, v: Tid, stack: seq<Tid>, done: seq<Tid>, marks: set<Tid>,
      done1: seq<Tid>, marks1: set<Tid>, r: Outcome)
    requires Searching(g, visited, onStack, stack + [u], done, marks) && v !in visited && Edge(g, u, v) && 0 !in Nodes(g)
    requires r.path != [] && Outcomes(g, stack + [u], v, done, marks, done1, marks1, r)
    ensures Outcomes(g, stack, u, done, marks, done1, marks1, Outcome(r.visited, r.onStack, Extend(r.path, u)))
  {
    var up := stack + [u];
    Last(stack, u);
    Last(up, v);
    OnTheStack(g, visited, onStack, up, done, marks);
    assert v !in up;
    assert Elements(up + [v]) == Elements(up) + {v};
    assert u in Elements(up) && Stuck(g, u);
    assert forall x :: x in Extend(r.path, u) ==> x in r.path || x == u || x == 0;
    if NoSelfEdge(g) { ExtendHit(g, up, v, r.path, marks); }
  }

  lemma Settled(g: Snapshot, visited: set<Tid>, onStack: set<Tid>, stack: seq<Tid>, done: seq<Tid>, marks: set<Tid>, v: Tid)
    requires Searching(g, visited, onStack, stack, done, marks) && v in visited && v !in onStack
    ensures v in done
  {
  }

  lemma OnTheStack(g: Snapshot, visited: set<Tid>, onStack: set<Tid>, stack: seq<Tid>, done: seq<Tid>, marks: set<Tid>)
    requires Searching(g, visited, onStack, stack, done, marks) && 0 !in Nodes(g)
    ensures 0 !in stack && forall x :: x in stack ==> x in visited && x !in marks
  {
    assert forall x :: x in stack ==> x in Elements(stack);
  }

  lemma Last(stack: seq<Tid>, u: Tid)
    ensures (stack + [u])[|stack + [u]| - 1] == u && u in stack + [u]
  {
  }

  lemma EdgeTarget(g: Snapshot, u: Tid, i: nat)
    requires i < |Edges(g, u)|
    ensures Edges(g, u)[i] in Nodes(g) && Edge(g, u, Edges(g, u)[i])
  {
  }

  lemma NextEdge(edges: seq<Tid>, i: nat, done: seq<Tid>, done1: seq<Tid>)
    requires i < |edges| && AllIn(edges[..i], done) && Grown(done, done1) && edges[i] in done1
    ensures AllIn(edges[..i + 1], done1)
  {
    assert edges[..i + 1] == edges[..i] + [edges[i]];
  }

  // ---------------------------------------------------------------- what a search proves

  function FirstPosition(done: seq<Tid>, u: Tid): (i: nat)
    requires u in done
    ensures i < |done| && done[i] == u && forall j :: 0 <= j < |done| && done[j] == u ==> i <= j
  {
    if done[0] == u then 0
    else
      assert forall j :: 0 < j < |done| ==> done[j] == done[1..][j - 1];
      1 + FirstPosition(done[1..], u)
  }

  lemma EdgeGoesDown(g: Snapshot, done: seq<Tid>, u: Tid, v: Tid)
    requires Finished(g, done) && u in done && Edge(g, u, v)
    ensures v in done && FirstPosition(done, v) < FirstPosition(done, u)
  {
    assert v in done[..FirstPosition(done, u)];
  }

  lemma {:induction false} ChainGoesUp(g: Snapshot, done: seq<Tid>, c: seq<Tid>, j: nat)
    requires Finished(g, done) && Chain(g, c) && j < |c| && forall i :: 0 <= i < |c| ==> c[i] in done
    ensures FirstPosition(done, c[0]) <= FirstPosition(done, c[j])
  {
    if j > 0 {
      ChainGoesUp(g, done, c, j - 1);
      assert Edge(g, c[j - 1 + 1], c[j - 1]);
      EdgeGoesDown(g, done, c[j], c[j - 1]);
    }
  }

  /** Once every waiter is finished, the snapshot has no cycle. */
  lemma FinishedHasNoCycle(g: Snapshot, done: seq<Tid>)
    requires Finished(g, done) && forall u :: u in g ==> u in done
    ensures !HasCycle(g)
  {
    if c :| Cycle(g, c) {
      forall i | 0 <= i < |c| ensures c[i] in done {
        if i > 0 { assert Edge(g, c[i - 1 + 1], c[i - 1]); }
      }
      ChainGoesUp(g, done, c, |c| - 1);
      EdgeGoesDown(g, done, c[0], c[|c| - 1]);
      assert false;
    }
  }

  /** What is true of every list reported.  Closed, it is behind its mark exactly the nodes of a
      cycle in ring order.  Not closed, it is a chain of waiters, and a cycle exactly when its first
      member waits for its last.  Either way nobody on it can go on without a victim. */
  ghost predicate ReportOk(g: Snapshot, path: seq<Tid>) {
    && path != [] && Members(path) != [] && Distinct(Members(path)) && Chain(g, Members(path))
    && AllStuck(g, Elements(Members(path)))
    && (path[0] == 0 ==> Cycle(g, Members(path)))
    && (path[0] != 0 ==> |path| >= 2 && (Cycle(g, path) <==> Edge(g, path[0], path[|path| - 1])))
  }

  /** Any search from a waiter not seen yet, whatever earlier hits have left marked: a list is as
      `ReportOk` says, and closed if nothing was marked; without a list the waiter is finished. */
  lemma SearchReports(g: Snapshot, visited: set<Tid>, onStack: set<Tid>, u: Tid, done: seq<Tid>, marks: set<Tid>)
    returns (done': seq<Tid>, marks': set<Tid>)
    requires Searching(g, visited, onStack, [], done, marks) && u in g && u !in visited && 0 !in Nodes(g) && NoSelfEdge(g)
    ensures var r := Visit(g, visited, onStack, u);
            && Searching(g, r.visited, r.onStack, [], done', marks')
            && (r.path == [] ==> u in done' && Grown(done, done') && marks' == marks)
            && (r.path != [] ==> ReportOk(g, r.path) && (marks == {} ==> r.path[0] == 0))
  {
    done', marks' := VisitSearches(g, visited, onStack, u, [], done, marks);
    var path := Visit(g, visited, onStack, u).path;
    if path != [] {
      assert ([] + [u])[..|[] + [u]| - 1] == [];
      assert forall x :: x in Members(path) ==> x in path;
      if path[0] == 0 { MembersAreNodes(g, path[1..]); } else { MembersAreNodes(g, path); }
    }
  }

  lemma MembersAreNodes(g: Snapshot, c: seq<Tid>)
    requires c != [] && Chain(g, c) && (c[|c| - 1] in Nodes(g) || Cycle(g, c))
    ensures Elements(c) <= Nodes(g)
  {
    forall i | 0 <= i < |c| ensures c[i] in Nodes(g) {
      if i < |c| - 1 { EdgeInNodes(g, c[i + 1], c[i]); } else if Cycle(g, c) { EdgeInNodes(g, c[0], c[i]); }
    }
  }

  lemma EdgeInNodes(g: Snapshot, u: Tid, v: Tid)
    requires Edge(g, u, v)
    ensures v in Nodes(g)
  {
    var i :| 0 <= i < |g[u]| && g[u][i] == v;
  }

  /** The first list reported is closed and, behind its mark, exactly the nodes of a cycle in
      ring order; without a report the search has finished its root. */
  lemma FirstReportIsCycle(g: Snapshot, visited: set<Tid>, u: Tid, done: seq<Tid>) returns (done': seq<Tid>)
    requires Searching(g, visited, {}, [], done, {}) && u in g && u !in visited && 0 !in Nodes(g) && NoSelfEdge(g)
    ensures var r := Visit(g, visited, {}, u);
            if r.path != [] then r.path[0] == 0 && Cycle(g, r.path[1..])
            else Searching(g, r.visited, r.onStack, [], done', {}) && u in done' && Grown(done, done')
  {
    var marks';
    done', marks' := SearchReports(g, visited, {}, u, done, {});
  }

  /** The marks on the stack are not taken back after a hit, so a later search of the same
      snapshot may report, and choose as its victim, a transaction that is on no cycle. */
  lemma SecondReportMayBeSpurious()
    ensures var g := map[1 := [2], 2 := [1], 3 := [1]];
            && Visit(g, {}, {}, 1) == Outcome({1, 2}, {1, 2}, [0, 1, 2])
            && Visit(g, {1, 2}, {1, 2}, 3).path == [1, 3]
            && forall c :: Cycle(g, c) ==> 3 !in c
  {
    var g: Snapshot := map[1 := [2], 2 := [1], 3 := [1]];
    assert Nodes(g) == {1, 2, 3};
    assert Edges(g, 1) == [2] && Edges(g, 2) == [1] && Edges(g, 3) == [1];
    assert {1} + {2} == {1, 2};
    assert Scan(g, {1, 2}, {1, 2}, 2, 0) == Outcome({1, 2}, {1, 2}, [1, 2]);
    assert Visit(g, {1}, {1}, 2) == Outcome({1, 2}, {1, 2}, [1, 2]);
    assert Scan(g, {1}, {1}, 1, 0) == Outcome({1, 2}, {1, 2}, Extend([1, 2], 1));
    assert {} + {1} == {1};
    assert Scan(g, {1, 2, 3}, {1, 2, 3}, 3, 0).path == [1, 3];
    assert {1, 2} + {3} == {1, 2, 3};
    forall c | Cycle(g, c) ensures 3 !in c {
      forall i | 0 <= i < |c| ensures c[i] != 3 {
        if i < |c| - 1 { assert Edge(g, c[i + 1], c[i]); }
      }
    }
  }

  /** ... and it may just as well report a cycle: a list that is not closed says nothing yet. */
  lemma SecondReportMayBeGenuine()
    ensures var g := map[1 := [2, 3], 2 := [1], 3 := [1]];
            && Visit(g, {}, {}, 1) == Outcome({1, 2}, {1, 2}, [0, 1, 2])
            && Visit(g, {1, 2}, {1, 2}, 3).path == [1, 3]
            && Cycle(g, [1, 3])
  {
    var g: Snapshot := map[1 := [2, 3], 2 := [1], 3 := [1]];
    assert Nodes(g) == {1, 2, 3};
    assert Edges(g, 1) == [2, 3] && Edges(g, 2) == [1] && Edges(g, 3) == [1];
    assert {1} + {2} == {1, 2};
    assert Scan(g, {1, 2}, {1, 2}, 2, 0) == Outcome({1, 2}, {1, 2}, [1, 2]);
    assert Visit(g, {1}, {1}, 2) == Outcome({1, 2}, {1, 2}, [1, 2]);
    assert Scan(g, {1}, {1}, 1, 0) == Outcome({1, 2}, {1, 2}, Extend([1, 2], 1));
    assert {} + {1} == {1};
    assert Scan(g, {1, 2, 3}, {1, 2, 3}, 3, 0).path == [1, 3];
    assert {1, 2} + {3} == {1, 2, 3};
  }

  // ---------------------------------------------------------------- the victim

  function Largest(c: seq<Tid>): (v: Tid)
    requires c != []
    ensures v in c && forall u :: u in c ==> u <= v
  {
    if |c| == 1 then c[0]
    else
      var v := Largest(c[1..]);
      assert forall u :: u in c ==> u == c[0] || u in c[1..];
      if c[0] > v then c[0] else v
  }

  /** A victim that still waits loses its request and finds the deadlock in its channel. */
  lemma VictimIsAborted(s: State, v: Tid)
    requires Inv(s) && v in s.graph
    ensures var s' := VictimStep(s, v);
            && v in s'.mail && s'.mail[v] == Deadlock && v !in s'.graph
            && Inv(s')
  {
    assert TxnOk(s, v);
    VictimKeeps(s, v);
    var tag := s.tcbs[v].waitingOn.value;
    var s1 := RemoveWaiter(s, tag, v);
    AbortKeeps(s, tag, v);
    G.WakeMoves(s1, tag, v);
    assert G.Unmoved(s1, Wake(s1, tag), v);
    assert TxnOk(VictimStep(s, v), v);
  }

  /** The reported lists without their marks, one victim each. */
  function Members(path: seq<Tid>): seq<Tid>
    requires path != []
  {
    if path[0] == 0 then path[1..] else path
  }

  /** A list names somebody. */
  predicate Names(path: seq<Tid>) { path != [] && Members(path) != [] }

  /** The largest member of each list, in order, loses its request. */
  function AbortAll(s: State, reports: seq<seq<Tid>>): State
    requires forall i :: 0 <= i < |reports| ==> Names(reports[i])
  {
    if reports == [] then s
    else
      assert Names(reports[|reports| - 1]);
      VictimStep(AbortAll(s, reports[..|reports| - 1]), Largest(Members(reports[|reports| - 1])))
  }

  /** The largest member of a reported list. */
  predicate IsVictim(path: seq<Tid>, v: Tid) {
    path != [] && v in Members(path) && forall u :: u in Members(path) ==> u <= v
  }

  /** The victims no longer wait, the one of the first list finds the deadlock, and so does nobody
      who is not a victim. */
  ghost predicate VictimsOnly(s: State, s': State, reports: seq<seq<Tid>>) {
    && (forall i, v :: 0 <= i < |reports| && IsVictim(reports[i], v) ==> v !in s'.graph)
    && (forall v :: reports != [] && IsVictim(reports[0], v) && v in s.graph ==> Finds(s', v, Deadlock))
    && (forall u :: Finds(s', u, Deadlock) ==> Finds(s, u, Deadlock) || IsSomeVictim(reports, u))
    && (forall u, r :: Finds(s, u, r) ==> Finds(s', u, r))
    && s'.graph.Keys <= s.graph.Keys
  }

  predicate Finds(s: State, u: Tid, r: Reply) { u in s.mail && s.mail[u] == r }

  predicate IsSomeVictim(reports: seq<seq<Tid>>, u: Tid) {
    exists i :: 0 <= i < |reports| && IsVictim(reports[i], u)
  }

  /** What aborting one victim does to another transaction. */
  lemma VictimOther(s: State, v: Tid, u: Tid)
    requires Inv(s) && u != v
    ensures Inv(VictimStep(s, v))
    ensures var s' := VictimStep(s, v);
            && (u in s'.graph ==> u in s.graph)
            && (Finds(s', u, Deadlock) ==> Finds(s, u, Deadlock))
            && forall r :: Finds(s, u, r) ==> Finds(s', u, r)
  {
    VictimKeeps(s, v);
    assert TxnOk(s, v) && TxnOk(s, u) && TxnOk(VictimStep(s, v), u);
    if v in s.graph {
      var tag := s.tcbs[v].waitingOn.value;
      assert TagOk(s, tag);
      G.RemoveWaiterUnmoved(s, tag, v, u);
      AbortKeeps(s, tag, v);
      G.WakeMoves(RemoveWaiter(s, tag, v), tag, u);
    }
  }

  lemma VictimItself(s: State, v: Tid)
    requires Inv(s)
    ensures var s' := VictimStep(s, v);
            v !in s'.graph && (v in s.graph ==> Finds(s', v, Deadlock)) && forall r :: Finds(s, v, r) ==> Finds(s', v, r)
  {
    assert TxnOk(s, v);
    if v in s.graph { VictimIsAborted(s, v); }
  }

  /** What aborting one victim more does. */
  lemma OneVictimMore(s: State, s1: State, reports: seq<seq<Tid>>, path: seq<Tid>)
    requires Names(path) && forall i :: 0 <= i < |reports| ==> Names(reports[i])
    requires Inv(s1) && VictimsOnly(s, s1, reports) && (reports == [] ==> s1 == s)
    ensures forall i :: 0 <= i < |reports + [path]| ==> Names((reports + [path])[i])
    ensures VictimsOnly(s, VictimStep(s1, Largest(Members(path))), reports + [path])
    ensures Inv(VictimStep(s1, Largest(Members(path))))
  {
    var w, rs := Largest(Members(path)), reports + [path];
    var s2 := VictimStep(s1, w);
    VictimKeeps(s1, w);
    VictimItself(s1, w);
    forall u ensures u in s2.graph ==> u in s1.graph && u != w { if u != w { VictimOther(s1, w, u); } }
    forall u, r | Finds(s1, u, r) ensures Finds(s2, u, r) { if u != w { VictimOther(s1, w, u); } }
    forall u | Finds(s2, u, Deadlock) ensures Finds(s, u, Deadlock) || IsSomeVictim(rs, u) {
      if u == w {
        assert rs[|reports|] == path && IsVictim(rs[|reports|], w);
      } else {
        VictimOther(s1, w, u);
        if !Finds(s, u, Deadlock) {
          var i :| 0 <= i < |reports| && IsVictim(reports[i], u);
          assert IsVictim(rs[i], u);
        }
      }
    }
    forall i, v | 0 <= i < |rs| && IsVictim(rs[i], v) ensures v !in s2.graph {
      if i < |reports| { assert IsVictim(reports[i], v); } else { assert v == w; }
    }
    forall v | IsVictim(rs[0], v) && v in s.graph ensures Finds(s2, v, Deadlock) {
      if reports == [] { assert v == w; } else { assert IsVictim(reports[0], v); }
    }
  }

  lemma {:induction false} AbortsVictims(s: State, reports: seq<seq<Tid>>)
    requires Inv(s) && forall i :: 0 <= i < |reports| ==> Names(reports[i])
    ensures VictimsOnly(s, AbortAll(s, reports), reports) && Inv(AbortAll(s, reports))
  {
    if reports != [] {
      var init, path := reports[..|reports| - 1], reports[|reports| - 1];
      AbortsVictims(s, init);
      OneVictimMore(s, AbortAll(s, init), init, path);
      assert init + [path] == reports;
    }
  }

  // ---------------------------------------------------------------- the detector

  /** The edges of the snapshot are the keys of the rows of the waits-for graph. */
  predicate SnapshotOf(g: Snapshot, graph: map<Tid, Row>) {
    && g.Keys == graph.Keys
    && forall u :: u in g ==> Elements(g[u]) == graph[u].Keys
  }

  lemma Shrinks(g: Snapshot, before: set<Tid>, u: Tid, after: set<Tid>)
    requires u in Nodes(g) && u !in before && before + {u} <= after
    ensures |Nodes(g) - after| < |Nodes(g) - before|
  {
    Smaller(Nodes(g) - after, Nodes(g) - before);
  }

  class Detector {
    const g: Snapshot
    var visited: set<Tid>
    var onStack: set<Tid>

    constructor (g: Snapshot)
      ensures this.g == g && visited == {} && onStack == {}
    {
      this.g, visited, onStack := g, {}, {};
    }

    method FindAnyCycle(u: Tid) returns (path: seq<Tid>)
      requires u !in visited && u in Nodes(g)
      modifies this
      ensures Outcome(visited, onStack, path) == Visit(g, old(visited), old(onStack), u)
      decreases |Nodes(g) - visited|
    {
      Shrinks(g, visited, u, visited + {u});
      visited := visited + {u};
      onStack := onStack + {u};
      ghost var goal := Scan(g, visited, onStack, u, 0);
      var edges := Edges(g, u);
      for i := 0 to |edges|
        invariant old(visited) + {u} <= visited
        invariant Scan(g, visited, onStack, u, i) == goal
      {
        var v := edges[i];
        if v in onStack { return [v, u]; }
        if v !in visited {
          Shrinks(g, old(visited), u, visited);
          EdgeTarget(g, u, i);
          path := FindAnyCycle(v);
          if path != [] { return Extend(path, u); }
        }
      }
      onStack := onStack - {u};
      return [];
    }
  }

  /** No row of a consistent lock manager leads back to its own transaction. */
  lemma NoSelfWait(s: State, g: Snapshot)
    requires Inv(s) && SnapshotOf(g, s.graph)
    ensures NoSelfEdge(g)
  {
    forall u | u in g ensures u !in g[u] {
      assert TxnOk(s, u);
      var tag := s.tcbs[u].waitingOn.value;
      assert TagOk(s, tag);
      assert WaiterOk(s, tag, Position(LcbOf(s, tag).waiters, u));
      assert u !in Elements(g[u]);
    }
  }

  method TakeSnapshot(graph: map<Tid, Row>) returns (g: Snapshot)
    ensures SnapshotOf(g, graph)
  {
    g := map[];
    var keys := graph.Keys;
    while keys != {}
      invariant keys <= graph.Keys && g.Keys == graph.Keys - keys
      invariant forall u :: u in g ==> Elements(g[u]) == graph[u].Keys
      decreases keys
    {
      var u :| u in keys;
      keys := keys - {u};
      var edges: seq<Tid>, rest := [], graph[u].Keys;
      while rest != {}
        invariant rest <= graph[u].Keys && Elements(edges) == graph[u].Keys - rest
        decreases rest
      {
        var v :| v in rest;
        rest := rest - {v};
        assert Elements(edges + [v]) == Elements(edges) + {v};
        edges := edges + [v];
      }
      g := g[u := edges];
    }
  }

  lemma NoMark(g: Snapshot, graph: map<Tid, Row>)
    requires SnapshotOf(g, graph) && forall u :: u in graph ==> u != 0 && 0 !in graph[u]
    ensures 0 !in Nodes(g)
  {
    forall u, i | u in g && 0 <= i < |g[u]| ensures g[u][i] != 0 { assert g[u][i] in Elements(g[u]); }
  }

  /** Where the detector stands between two searches, `s` being where it found the lock manager. */
  ghost predicate Progress(s: State, d: Detector, lm: LM.LockManager, reports: seq<seq<Tid>>, done: seq<Tid>, marks: set<Tid>)
    reads d, lm
  {
    && Inv(lm.S()) && NoSelfEdge(d.g) && 0 !in Nodes(d.g)
    && (forall i :: 0 <= i < |reports| ==> Names(reports[i]) && ReportOk(d.g, reports[i]))
    && lm.S() == AbortAll(s, reports)
    && Searching(d.g, d.visited, d.onStack, [], done, marks)
    && (if reports == [] then marks == {} else reports[0] != [] && reports[0][0] == 0)
  }

  lemma AbortNext(s: State, reports: seq<seq<Tid>>, path: seq<Tid>)
    requires Names(path) && forall i :: 0 <= i < |reports| ==> Names(reports[i])
    ensures forall i :: 0 <= i < |reports + [path]| ==> Names((reports + [path])[i])
    ensures AbortAll(s, reports + [path]) == VictimStep(AbortAll(s, reports), Largest(Members(path)))
  {
    assert (reports + [path])[..|reports|] == reports;
  }

  lemma ReportNext(g: Snapshot, reports: seq<seq<Tid>>, path: seq<Tid>)
    requires ReportOk(g, path) && forall i :: 0 <= i < |reports| ==> Names(reports[i]) && ReportOk(g, reports[i])
    ensures forall i :: 0 <= i < |reports + [path]| ==> Names((reports + [path])[i]) && ReportOk(g, (reports + [path])[i])
  {
  }

  /** The largest member of the list loses its request. */
  method Resolve(ghost s: State, g: Snapshot, lm: LM.LockManager, reports: seq<seq<Tid>>, path: seq<Tid>)
    returns (reports': seq<seq<Tid>>)
    requires Inv(lm.S()) && ReportOk(g, path)
    requires (forall i :: 0 <= i < |reports| ==> Names(reports[i]) && ReportOk(g, reports[i]))
    requires lm.S() == AbortAll(s, reports)
    modifies lm
    ensures reports' == reports + [path] && Inv(lm.S())
    ensures forall i :: 0 <= i < |reports'| ==> Names(reports'[i]) && ReportOk(g, reports'[i])
    ensures lm.S() == AbortAll(s, reports')
  {
    reports' := reports + [path];
    ReportNext(g, reports, path);
    AbortNext(s, reports, path);
    assert AbortAll(s, reports') == VictimStep(lm.S(), Largest(Members(path)));
    lm.ResolveCycle(Largest(Members(path)));
  }

  /** One search; the largest member of a list reported loses its request. */
  method Try(ghost s: State, d: Detector, lm: LM.LockManager, tid: Tid, reports: seq<seq<Tid>>, ghost done: seq<Tid>, ghost marks: set<Tid>)
    returns (reports': seq<seq<Tid>>, ghost done': seq<Tid>, ghost marks': set<Tid>)
    requires Progress(s, d, lm, reports, done, marks) && tid in d.g && tid !in d.visited
    modifies d, lm
    ensures Progress(s, d, lm, reports', done', marks') && |reports| <= |reports'|
    ensures old(d.visited) + {tid} <= d.visited
    ensures reports' == [] ==> tid in done' && Grown(done, done')
  {
    done', marks' := SearchReports(d.g, d.visited, d.onStack, tid, done, marks);
    var path := d.FindAnyCycle(tid);
    if path == [] {
      reports' := reports;
    } else {
      reports' := Resolve(s, d.g, lm, reports, path);
    }
  }

  /** One pass over the waiters. */
  method Sweep(ghost s: State, d: Detector, lm: LM.LockManager, reports: seq<seq<Tid>>, ghost done: seq<Tid>, ghost marks: set<Tid>)
    returns (reports': seq<seq<Tid>>, ghost done': seq<Tid>, ghost marks': set<Tid>)
    requires Progress(s, d, lm, reports, done, marks)
    modifies d, lm
    ensures Progress(s, d, lm, reports', done', marks') && |reports| <= |reports'|
    ensures |Nodes(d.g) - d.visited| <= |Nodes(d.g) - old(d.visited)|
    ensures |reports'| > |reports| ==> |Nodes(d.g) - d.visited| < |Nodes(d.g) - old(d.visited)|
    ensures reports' == [] ==> forall u :: u in d.g ==> u in done'
  {
    reports', done', marks' := reports, done, marks;
    var rest := d.g.Keys;
    while rest != {}
      invariant rest <= d.g.Keys && Progress(s, d, lm, reports', done', marks') && |reports| <= |reports'|
      invariant old(d.visited) <= d.visited
      invariant |reports'| > |reports| ==> |Nodes(d.g) - d.visited| < |Nodes(d.g) - old(d.visited)|
      invariant reports' == [] ==> forall u :: u in d.g && u !in rest ==> u in done'
      decreases rest
    {
      var tid :| tid in rest;
      rest := rest - {tid};
      if tid !in d.visited {
        ghost var seen := d.visited;
        reports', done', marks' := Try(s, d, lm, tid, reports', done', marks');
        Shrinks(d.g, seen, tid, d.visited);
        Smaller(Nodes(d.g) - seen, Nodes(d.g) - old(d.visited));
      }
    }
    Smaller(Nodes(d.g) - d.visited, Nodes(d.g) - old(d.visited));
  }

  /** Sweeps as long as a sweep finds something. */
  method Sweeps(ghost s: State, d: Detector, lm: LM.LockManager)
    returns (reports: seq<seq<Tid>>, ghost done: seq<Tid>, ghost marks: set<Tid>)
    requires Progress(s, d, lm, [], [], {})
    modifies d, lm
    ensures Progress(s, d, lm, reports, done, marks)
    ensures reports == [] ==> forall u :: u in d.g ==> u in done
  {
    reports, done, marks := [], [], {};
    var foundCycle := true;
    while foundCycle
      invariant Progress(s, d, lm, reports, done, marks)
      invariant !foundCycle && reports == [] ==> forall u :: u in d.g ==> u in done
      decreases |Nodes(d.g) - d.visited|, foundCycle
    {
      var n := |reports|;
      reports, done, marks := Sweep(s, d, lm, reports, done, marks);
      foundCycle := |reports| > n;
    }
  }

  /** Searches a snapshot of the waits-for graph.  Every list reported is as `ReportOk` says, and
      the first one is closed.  The largest member of each list no longer waits; nobody else is
      told of a deadlock. */
  method RunGlobalDeadlockCheck(lm: LM.LockManager) returns (g: Snapshot, reports: seq<seq<Tid>>)
    requires Inv(lm.S()) && forall u :: u in lm.graph ==> u != 0 && 0 !in lm.graph[u]
    modifies lm
    ensures SnapshotOf(g, old(lm.graph))
    ensures reports != [] <==> HasCycle(g)
    ensures forall i :: 0 <= i < |reports| ==> Names(reports[i]) && ReportOk(g, reports[i])
    ensures reports != [] ==> reports[0] != [] && reports[0][0] == 0
    ensures Inv(lm.S()) && lm.S() == AbortAll(old(lm.S()), reports)
    ensures VictimsOnly(old(lm.S()), lm.S(), reports)
  {
    g := TakeSnapshot(lm.graph);
    NoSelfWait(lm.S(), g);
    NoMark(g, lm.graph);
    var d := new Detector(g);
    ghost var done, marks;
    ghost var s := lm.S();
    reports, done, marks := Sweeps(s, d, lm);
    AbortsVictims(s, reports);
    if reports == [] { FinishedHasNoCycle(g, done); } else { assert Cycle(g, Members(reports[0])); }
  }
}
