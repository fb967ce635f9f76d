/** The lock manager as a state machine.  Every operation runs under the mutex of its tag and
    touches the waits-for graph under the graph mutex, so each is one step. */
module LockState {
  import opened LockModes

  type Tid = nat
  datatype Tag = TableTag(oid: nat) | TupleTag(oid: nat, page: nat, slot: nat)
  datatype Option<T> = None | Some(value: T)

  datatype Request = Request(tid: Tid, mode: Mode)

  /** Holders, and waiters in arrival order. */
  datatype Lcb = Lcb(holders: map<Tid, Mode>, waiters: seq<Request>)

  /** What the registry knows of a transaction. */
  datatype Tcb = Tcb(lockCount: int, waitingOn: Option<Tag>)

  /** What a blocked request finds in its channel. */
  datatype Reply = Granted | Deadlock

  /** waitGraph[waiter][other] counts the reasons why `waiter` waits for `other`. */
  type Row = map<Tid, nat>

  datatype State = State(
    table: map<Tag, Lcb>, graph: map<Tid, Row>, tcbs: map<Tid, Tcb>, mail: map<Tid, Reply>)

  const INITIAL := State(map[], map[], map[], map[])
  const NO_LCB := Lcb(map[], [])

  function LcbOf(s: State, tag: Tag): Lcb { if tag in s.table then s.table[tag] else NO_LCB }

  /** Compatible with every other holder? */
  predicate Admissible(holders: map<Tid, Mode>, r: Request) {
    forall h :: h in holders && h != r.tid ==> Compatible(r.mode, holders[h])
  }

  predicate Covered(holders: map<Tid, Mode>, r: Request) {
    r.tid in holders && Covers(holders[r.tid], r.mode)
  }

  // ---------------------------------------------------------------- the waits-for graph

  function Count(row: Row, t: Tid): nat { if t in row then row[t] else 0 }

  function Drop(row: Row, t: Tid): Row {
    if t !in row then row
    else if row[t] <= 1 then row - {t}
    else row[t := row[t] - 1]
  }

  function HolderEdge(holders: map<Tid, Mode>, mode: Mode, t: Tid): nat {
    if t in holders && !Compatible(mode, holders[t]) then 1 else 0
  }

  function QueueEdge(ws: seq<Request>, mode: Mode, t: Tid): nat {
    if exists j :: 0 <= j < |ws| && ws[j].tid == t && !Compatible(mode, ws[j].mode) then 1 else 0
  }

  /** The incompatibilities of a request with `t`, as holder and as earlier waiter. */
  function Need(holders: map<Tid, Mode>, earlier: seq<Request>, r: Request, t: Tid): nat {
    HolderEdge(holders, r.mode, t) + QueueEdge(earlier, r.mode, t)
  }

  /** The row of a request that joins the queue. */
  function NewRow(lcb: Lcb, r: Request): Row {
    map t | t in lcb.holders.Keys + (set w | w in lcb.waiters :: w.tid)
            && t != r.tid && Need(lcb.holders, lcb.waiters, r, t) > 0
      :: Need(lcb.holders, lcb.waiters, r, t)
  }

  /** One reason to wait for `u`, who had `mode`, disappears for each conflicting waiter. */
  function DropEdges(graph: map<Tid, Row>, ws: seq<Request>, u: Tid, mode: Mode): map<Tid, Row> {
    if ws == [] then graph
    else
      var g := DropEdges(graph, ws[..|ws| - 1], u, mode);
      var w := ws[|ws| - 1];
      if !Compatible(w.mode, mode) && w.tid in g then g[w.tid := Drop(g[w.tid], u)] else g
  }

  // ---------------------------------------------------------------- operations

  function Register(s: State, t: Tid): State {
    if t in s.tcbs then s else s.(tcbs := s.tcbs[t := Tcb(0, None)])
  }

  function Forget(s: State, t: Tid): State {
    if t in s.tcbs && s.tcbs[t].lockCount == 0 && s.tcbs[t].waitingOn == None then s.(tcbs := s.tcbs - {t}) else s
  }

  /** The requester becomes a holder, or its mode is replaced. */
  function Hold(s: State, tag: Tag, r: Request): State
    requires r.tid in s.tcbs
  {
    var lcb := LcbOf(s, tag);
    var c := s.tcbs[r.tid];
    s.(table := s.table[tag := lcb.(holders := lcb.holders[r.tid := r.mode])],
       tcbs := s.tcbs[r.tid := if r.tid in lcb.holders then c else c.(lockCount := c.lockCount + 1)])
  }

  function Enqueue(s: State, tag: Tag, r: Request): State
    requires r.tid in s.tcbs
  {
    var lcb := LcbOf(s, tag);
    s.(table := s.table[tag := lcb.(waiters := lcb.waiters + [r])],
       graph := s.graph[r.tid := NewRow(lcb, r)],
       tcbs := s.tcbs[r.tid := s.tcbs[r.tid].(waitingOn := Some(tag))])
  }

  /** The head of the queue leaves it, as a holder unless its mode was covered already. */
  function GrantHead(s: State, tag: Tag): State
    requires tag in s.table && s.table[tag].waiters != [] && s.table[tag].waiters[0].tid in s.tcbs
  {
    var lcb := s.table[tag];
    var w := lcb.waiters[0];
    var c := s.tcbs[w.tid];
    var covered := Covered(lcb.holders, w);
    State(
      s.table[tag := Lcb(if covered then lcb.holders else lcb.holders[w.tid := w.mode], lcb.waiters[1..])],
      s.graph - {w.tid},
      s.tcbs[w.tid := Tcb(if w.tid in lcb.holders then c.lockCount else c.lockCount + 1, None)],
      s.mail[w.tid := Granted])
  }

  /** Can the head of the queue be granted? */
  predicate HeadReady(s: State, tag: Tag) {
    var lcb := LcbOf(s, tag);
    && lcb.waiters != [] && lcb.waiters[0].tid in s.tcbs
    && (Covered(lcb.holders, lcb.waiters[0]) || Admissible(lcb.holders, lcb.waiters[0]))
  }

  /** Grants from the front until a request conflicts. */
  function Wake(s: State, tag: Tag): State
    decreases |LcbOf(s, tag).waiters|
  {
    if HeadReady(s, tag) then Wake(GrantHead(s, tag), tag) else s
  }

  function RemoveHolder(s: State, tag: Tag, t: Tid): State
    requires tag in s.table && t in s.table[tag].holders && t in s.tcbs
  {
    var lcb := s.table[tag];
    s.(table := s.table[tag := lcb.(holders := lcb.holders - {t})],
       graph := DropEdges(s.graph, lcb.waiters, t, lcb.holders[t]),
       tcbs := s.tcbs[t := s.tcbs[t].(lockCount := s.tcbs[t].lockCount - 1)])
  }

  /** The position of a transaction in a queue, or its length. */
  function Position(ws: seq<Request>, t: Tid): (i: nat)
    ensures i <= |ws|
    ensures i < |ws| ==> ws[i].tid == t
    ensures forall j :: 0 <= j < i ==> ws[j].tid != t
  {
    if ws == [] then 0
    else if ws[0].tid == t then 0
    else 1 + Position(ws[1..], t)
  }

  function RemoveWaiter(s: State, tag: Tag, t: Tid): State
    requires tag in s.table && t in s.tcbs && Position(s.table[tag].waiters, t) < |s.table[tag].waiters|
  {
    var lcb := s.table[tag];
    var i := Position(lcb.waiters, t);
    State(
      s.table[tag := lcb.(waiters := lcb.waiters[..i] + lcb.waiters[i + 1..])],
      DropEdges(s.graph - {t}, lcb.waiters[i + 1..], t, lcb.waiters[i].mode),
      s.tcbs[t := s.tcbs[t].(waitingOn := None)],
      s.mail[t := Deadlock])
  }

  // ---------------------------------------------------------------- events

  datatype Event =
    | Lock(t: Tid, tag: Tag, mode: Mode)
    | Unlock(t: Tid, tag: Tag)
    | Victim(t: Tid)
    | Resume(t: Tid)

  /** A transaction's own thread is free to call the lock manager. */
  predicate Idle(s: State, t: Tid) {
    t !in s.mail && (t in s.tcbs ==> s.tcbs[t].waitingOn == None)
  }

  /** Only the channel of a blocked request is a guard; a victim step may fire at any time. */
  predicate Enabled(s: State, e: Event) {
    match e
    case Lock(t, _, _) => Idle(s, t)
    case Unlock(t, _) => Idle(s, t)
    case Victim(_) => true
    case Resume(t) => t in s.mail
  }

  function LockStep(s: State, t: Tid, tag: Tag, mode: Mode): State {
    var s1 := Register(s, t);
    var lcb, r := LcbOf(s1, tag), Request(t, mode);
    if Covered(lcb.holders, r) then Forget(s1, t)
    else if lcb.waiters == [] && Admissible(lcb.holders, r) then Forget(Hold(s1, tag, r), t)
    else Enqueue(s1, tag, r)
  }

  function UnlockStep(s: State, t: Tid, tag: Tag): State {
    if t !in s.tcbs then s
    else if tag !in s.table || t !in s.table[tag].holders then Forget(s, t)
    else Forget(Wake(RemoveHolder(s, tag, t), tag), t)
  }

  function VictimStep(s: State, v: Tid): State {
    if v !in s.tcbs || s.tcbs[v].waitingOn == None then s
    else
      var tag := s.tcbs[v].waitingOn.value;
      if tag !in s.table || Position(s.table[tag].waiters, v) == |s.table[tag].waiters| then s
      else Wake(RemoveWaiter(s, tag, v), tag)
  }

  function After(s: State, e: Event): State {
    match e
    case Lock(t, tag, mode) => LockStep(s, t, tag, mode)
    case Unlock(t, tag) => UnlockStep(s, t, tag)
    case Victim(t) => VictimStep(s, t)
    case Resume(t) => Forget(s.(mail := s.mail - {t}), t)
  }

  ghost function Run(es: seq<Event>): Option<State> {
    if es == [] then Some(INITIAL)
    else
      match Run(es[..|es| - 1])
      case None => None
      case Some(s) => if Enabled(s, es[|es| - 1]) then Some(After(s, es[|es| - 1])) else None
  }
}
