/** Transactions on top of the lock manager: the private lock table of each transaction
    context, the order in which the table heap asks for table and tuple locks, and release in
    the order tuples before tables. */
module Granularity {
  import opened LockModes
  import opened LockState
  import opened LockInvariant
  import opened LockTheorems

  datatype Ask = Ask(tag: Tag, mode: Mode)

  /** `held` is the private table; `asked` the request a blocked transaction waits for. */
  datatype World = World(lm: State, held: map<Tid, map<Tag, Mode>>, asked: map<Tid, Ask>, releasing: set<Tid>)

  const EMPTY_WORLD := World(INITIAL, map[], map[], {})

  function Held(w: World, t: Tid): map<Tag, Mode> { if t in w.held then w.held[t] else map[] }

  function Look(m: map<Tag, Mode>, tag: Tag): Option<Mode> { if tag in m then Some(m[tag]) else None }

  /** The mode in which the lock manager has `t` as a holder of `tag`. */
  function ModeOf(s: State, t: Tid, tag: Tag): Option<Mode> {
    if t in LcbOf(s, tag).holders then Some(LcbOf(s, tag).holders[t]) else None
  }

  function TableOf(tag: Tag): Tag { TableTag(tag.oid) }

  /** The table mode the heap takes before a tuple mode. */
  function Intent(mode: Mode): Mode { if mode == X then IX else IS }

  // ---------------------------------------------------------------- events

  datatype Event =
    | Acquire(t: Tid, tag: Tag, mode: Mode)
    | Return(t: Tid)
    | Abort(t: Tid)
    | Release(t: Tid, tag: Tag)
    | Reset(t: Tid)

  predicate Free(w: World, t: Tid) { Idle(w.lm, t) && t !in w.asked && t !in w.releasing }

  predicate Enabled(w: World, e: Event) {
    match e
    case Acquire(t, tag, mode) =>
      && Free(w, t)
      // a tuple lock is S or X, asked for after the table lock of the same call succeeded
      && (tag.TupleTag? ==> (mode == S || mode == X) && TableOf(tag) in Held(w, t)
                            && Covers(Held(w, t)[TableOf(tag)], Intent(mode)))
    case Return(t) => t in w.lm.mail && t in w.asked
    case Abort(t) => true
    case Release(t, tag) =>
      && Idle(w.lm, t) && t !in w.asked && tag in Held(w, t)
      // the second loop of ReleaseAllLocks starts when the first has released every tuple
      && (tag.TableTag? ==> forall other :: other in Held(w, t) && other.TupleTag? ==> ModeOf(w.lm, t, other) == None)
    case Reset(t) => t in w.releasing && forall tag :: tag in Held(w, t) ==> ModeOf(w.lm, t, tag) == None
  }

  function Note(w: World, t: Tid, a: Ask): map<Tid, map<Tag, Mode>> {
    w.held[t := Held(w, t)[a.tag := a.mode]]
  }

  function After(w: World, e: Event): World {
    match e
    case Acquire(t, tag, mode) =>
      if tag in Held(w, t) && Covers(Held(w, t)[tag], mode) then w
      else
        var a := Ask(tag, if tag in Held(w, t) then Upgrade(Held(w, t)[tag], mode) else mode);
        var lm := LockStep(w.lm, t, a.tag, a.mode);
        if t in lm.tcbs && lm.tcbs[t].waitingOn.Some? then w.(lm := lm, asked := w.asked[t := a])
        else w.(lm := lm, held := Note(w, t, a))
    case Return(t) =>
      var lm := LockState.After(w.lm, Resume(t));
      var held := if t in w.lm.mail && w.lm.mail[t] == Granted && t in w.asked then Note(w, t, w.asked[t]) else w.held;
      World(lm, held, w.asked - {t}, w.releasing)
    case Abort(t) => w.(lm := VictimStep(w.lm, t))
    case Release(t, tag) => w.(lm := UnlockStep(w.lm, t, tag), releasing := w.releasing + {t})
    case Reset(t) => w.(held := w.held - {t}, releasing := w.releasing - {t})
  }

  ghost function Run(es: seq<Event>): Option<World> {
    if es == [] then Some(EMPTY_WORLD)
    else
      match Run(es[..|es| - 1])
      case None => None
      case Some(w) => if Enabled(w, es[|es| - 1]) then Some(After(w, es[|es| - 1])) else None
  }

  // ---------------------------------------------------------------- effect of lock manager steps

  /** Waking changes a transaction only if it was queued: then its wish is granted. */
  lemma {:induction false} WakeEffect(s: State, tag: Tag, u: Tid)
    requires Core(s) && u !in s.mail
    ensures u !in Wake(s, tag).mail ==>
              (u in s.tcbs <==> u in Wake(s, tag).tcbs) && (u in s.tcbs ==> Wake(s, tag).tcbs[u] == s.tcbs[u])
    ensures u !in Wake(s, tag).mail ==> Entry(Wake(s, tag), tag, u) == Entry(s, tag, u)
    ensures u !in Wake(s, tag).mail ==> ModeOf(Wake(s, tag), u, tag) == ModeOf(s, u, tag)
    ensures u in Wake(s, tag).mail ==> Wake(s, tag).mail[u] == Granted
    ensures u in Wake(s, tag).mail ==> Entry(s, tag, u).Some? && ModeOf(Wake(s, tag), u, tag) == Entry(s, tag, u)
    decreases |LcbOf(s, tag).waiters|
  {
    if HeadReady(s, tag) {
      var s1 := GrantHead(s, tag);
      var r := LcbOf(s, tag).waiters[0];
      assert TagOk(s, tag) && WaiterOk(s, tag, 0);
      GrantKeeps(s, tag);
      if u != r.tid { WakeEffect(s1, tag, u); }
      else {
        assert TxnOk(s1, u) && TagOk(s1, tag);
        IdleEntry(s1, tag, u);
        WakeMailed(s1, tag, u);
      }
    }
  }

  /** The mode a transaction asks for in a queue. */
  function Entry(s: State, tag: Tag, t: Tid): Option<Mode> { EntryIn(LcbOf(s, tag).waiters, t) }

  function EntryIn(ws: seq<Request>, t: Tid): Option<Mode> {
    if Position(ws, t) < |ws| then Some(ws[Position(ws, t)].mode) else None
  }

  lemma EntryAppend(ws: seq<Request>, r: Request, t: Tid)
    ensures t != r.tid ==> EntryIn(ws + [r], t) == EntryIn(ws, t)
    ensures t == r.tid && EntryIn(ws, t) == None ==> EntryIn(ws + [r], t) == Some(r.mode)
  {
    PositionAppend(ws, r, t);
  }

  lemma EntryWithout(ws: seq<Request>, i: nat, t: Tid)
    requires DistinctTids(ws) && i < |ws| && t != ws[i].tid
    ensures EntryIn(Without(ws, i), t) == EntryIn(ws, t)
  {
    WithoutPosition(ws, i, t);
    var p := Position(ws, t);
    if p < |ws| { assert Without(ws, i)[if p < i then p else p - 1] == ws[p]; }
  }

  lemma IdleEntry(s: State, tag: Tag, t: Tid)
    requires TagOk(s, tag) && (t in s.tcbs ==> s.tcbs[t].waitingOn == None)
    ensures Entry(s, tag, t) == None
  {
    var ws := LcbOf(s, tag).waiters;
    forall k: nat | k < |ws| ensures ws[k].tid != t { assert WaiterOk(s, tag, k); }
  }

  lemma {:induction false} WakeMailed(s: State, tag: Tag, u: Tid)
    requires u in s.mail && Entry(s, tag, u) == None
    ensures u in Wake(s, tag).mail && Wake(s, tag).mail[u] == s.mail[u]
    ensures ModeOf(Wake(s, tag), u, tag) == ModeOf(s, u, tag)
    decreases |LcbOf(s, tag).waiters|
  {
    if HeadReady(s, tag) { WakeMailed(GrantHead(s, tag), tag, u); }
  }

  /** Nothing changes for a transaction under the other tags. */
  lemma WakeOther(s: State, tag: Tag, other: Tag, u: Tid)
    requires other != tag
    ensures ModeOf(Wake(s, tag), u, other) == ModeOf(s, u, other)
    ensures Entry(Wake(s, tag), other, u) == Entry(s, other, u)
  {
    WakeElsewhere(s, tag, other);
  }

  // ---------------------------------------------------------------- the invariant

  /** What the lock manager should have `t` hold, once a reply under way is counted. */
  function Expected(w: World, t: Tid): map<Tag, Mode> {
    if t in w.asked && t in w.lm.mail && w.lm.mail[t] == Granted then Held(w, t)[w.asked[t].tag := w.asked[t].mode]
    else Held(w, t)
  }

  predicate Waiting(s: State, t: Tid) { t in s.tcbs && s.tcbs[t].waitingOn.Some? }

  /** A blocked request stands in the queue it was put in, and asks for more than is held. */
  predicate AskOk(w: World, t: Tid) {
    && (t in w.asked <==> Waiting(w.lm, t) || t in w.lm.mail)
    && (Waiting(w.lm, t) && t in w.asked ==>
          && w.lm.tcbs[t].waitingOn == Some(w.asked[t].tag)
          && Entry(w.lm, w.asked[t].tag, t) == Some(w.asked[t].mode))
    && (t in w.asked ==> t !in w.releasing)
    && (t in w.asked && w.asked[t].tag in Held(w, t) ==> Covers(w.asked[t].mode, Held(w, t)[w.asked[t].tag]))
  }

  /** The private table agrees with the holder maps; during release, where tags go one by one,
      it is still an upper bound. */
  predicate PrivateOk(w: World, t: Tid, tag: Tag) {
    ModeOf(w.lm, t, tag) == Look(Expected(w, t), tag) || (t in w.releasing && ModeOf(w.lm, t, tag) == None)
  }

  /** The table lock that a tuple mode calls for is there. */
  predicate HasIntent(s: State, t: Tid, tag: Tag, mode: Mode) {
    var m := ModeOf(s, t, TableOf(tag));
    (mode == S || mode == X) && m.Some? && Covers(m.value, Intent(mode))
  }

  predicate TupleOk(w: World, t: Tid, tag: Tag) {
    tag.TupleTag? ==>
      && (ModeOf(w.lm, t, tag).Some? ==> HasIntent(w.lm, t, tag, ModeOf(w.lm, t, tag).value))
      && (t in w.asked && w.asked[t].tag == tag ==> HasIntent(w.lm, t, tag, w.asked[t].mode))
  }

  ghost predicate WorldInv(w: World) {
    && Inv(w.lm)
    && (forall t :: AskOk(w, t))
    && (forall t, tag :: PrivateOk(w, t, tag))
    && (forall t, tag :: TupleOk(w, t, tag))
  }

  // ---------------------------------------------------------------- what a step does to the others

  ghost predicate SameModes(s: State, s': State, u: Tid) {
    forall tag :: ModeOf(s', u, tag) == ModeOf(s, u, tag)
  }

  ghost predicate Unmoved(s: State, s': State, u: Tid) {
    && SameModes(s, s', u)
    && (u in s'.mail <==> u in s.mail) && (u in s.mail ==> s'.mail[u] == s.mail[u])
    && (Waiting(s', u) <==> Waiting(s, u))
    && (Waiting(s, u) ==>
          && s'.tcbs[u].waitingOn == s.tcbs[u].waitingOn
          && Entry(s', s.tcbs[u].waitingOn.value, u) == Entry(s, s.tcbs[u].waitingOn.value, u))
  }

  /** The pending request of `u` was granted. */
  ghost predicate GrantedTo(s: State, s': State, u: Tid) {
    && Waiting(s, u) && !Waiting(s', u)
    && u in s'.mail && s'.mail[u] == Granted
    && var q := s.tcbs[u].waitingOn.value;
       Entry(s, q, u).Some? && ModeOf(s', u, q) == Entry(s, q, u)
       && forall tag :: tag != q ==> ModeOf(s', u, tag) == ModeOf(s, u, tag)
  }

  lemma WakeMoves(s: State, tag: Tag, u: Tid)
    requires Core(s)
    ensures Unmoved(s, Wake(s, tag), u) || GrantedTo(s, Wake(s, tag), u)
    ensures u in s.mail ==> Unmoved(s, Wake(s, tag), u)
  {
    var s' := Wake(s, tag);
    assert TagOk(s, tag) && TxnOk(s, u);
    WakeRegistry(s, tag, u);
    if u in s.mail {
      IdleEntry(s, tag, u);
      WakeMailed(s, tag, u);
      WakeSettled(s, tag, u);
    } else {
      WakeEffect(s, tag, u);
      if u in s'.mail {
        var ws := LcbOf(s, tag).waiters;
        assert WaiterOk(s, tag, Position(ws, u));
        WakeSettles(s, tag, u);
      }
    }
    forall other ensures other != tag ==> ModeOf(s', u, other) == ModeOf(s, u, other) && Entry(s', other, u) == Entry(s, other, u) {
      if other != tag { WakeOther(s, tag, other, u); }
    }
  }

  lemma {:induction false} WakeSettled(s: State, tag: Tag, u: Tid)
    requires Entry(s, tag, u) == None
    ensures u in Wake(s, tag).tcbs <==> u in s.tcbs
    ensures u in s.tcbs ==> Wake(s, tag).tcbs[u] == s.tcbs[u]
    decreases |LcbOf(s, tag).waiters|
  {
    if HeadReady(s, tag) { WakeSettled(GrantHead(s, tag), tag, u); }
  }

  lemma {:induction false} WakeSettles(s: State, tag: Tag, u: Tid)
    requires Core(s) && u !in s.mail && u in Wake(s, tag).mail
    ensures !Waiting(Wake(s, tag), u)
    decreases |LcbOf(s, tag).waiters|
  {
    if HeadReady(s, tag) {
      var s1 := GrantHead(s, tag);
      assert TagOk(s, tag) && WaiterOk(s, tag, 0);
      GrantKeeps(s, tag);
      if u in s1.mail {
        assert TagOk(s1, tag);
        IdleEntry(s1, tag, u);
        WakeSettled(s1, tag, u);
      } else {
        WakeSettles(s1, tag, u);
      }
    }
  }

  /** A step that leaves a transaction alone, or grants what it asked for, keeps its part of
      the invariant. */
  lemma BystanderKeeps(w: World, lm: State, u: Tid, tag: Tag)
    requires WorldInv(w) && (Unmoved(w.lm, lm, u) || GrantedTo(w.lm, lm, u))
    ensures AskOk(w.(lm := lm), u) && PrivateOk(w.(lm := lm), u, tag) && TupleOk(w.(lm := lm), u, tag)
  {
    var w' := w.(lm := lm);
    assert AskOk(w, u) && PrivateOk(w, u, tag) && TupleOk(w, u, tag) && TxnOk(w.lm, u);
    assert PrivateOk(w, u, TableOf(tag));
    if GrantedTo(w.lm, lm, u) {
      var a := w.asked[u];
      assert PrivateOk(w, u, a.tag) && TupleOk(w, u, a.tag);
      assert ModeOf(lm, u, a.tag) == Some(a.mode);
      if tag.TupleTag? && tag != a.tag {
        if ModeOf(lm, u, tag).Some? && a.tag == TableOf(tag) {
          UpgradeIsJoin(a.mode, Held(w, u)[a.tag], Intent(ModeOf(lm, u, tag).value));
        }
      }
    } else {
      assert ModeOf(lm, u, tag) == ModeOf(w.lm, u, tag) && ModeOf(lm, u, TableOf(tag)) == ModeOf(w.lm, u, TableOf(tag));
    }
  }

  lemma MovesCompose(a: State, b: State, c: State, u: Tid)
    requires Unmoved(a, b, u) && (Unmoved(b, c, u) || GrantedTo(b, c, u))
    ensures Unmoved(b, c, u) ==> Unmoved(a, c, u)
    ensures GrantedTo(b, c, u) ==> GrantedTo(a, c, u)
  {
    forall tag ensures ModeOf(b, u, tag) == ModeOf(a, u, tag) { }
  }

  lemma RegisterUnmoved(s: State, t: Tid, u: Tid)
    ensures Unmoved(s, Register(s, t), u)
  {
  }

  lemma ForgetUnmoved(s: State, t: Tid, u: Tid)
    ensures Unmoved(s, Forget(s, t), u)
  {
  }

  lemma HoldUnmoved(s: State, tag: Tag, r: Request, u: Tid)
    requires r.tid in s.tcbs && u != r.tid
    ensures Unmoved(s, Hold(s, tag, r), u)
  {
  }

  lemma EnqueueUnmoved(s: State, tag: Tag, r: Request, u: Tid)
    requires r.tid in s.tcbs && u != r.tid
    ensures Unmoved(s, Enqueue(s, tag, r), u)
  {
    EntryAppend(LcbOf(s, tag).waiters, r, u);
  }

  lemma RemoveHolderUnmoved(s: State, tag: Tag, t: Tid, u: Tid)
    requires tag in s.table && t in s.table[tag].holders && t in s.tcbs && u != t
    ensures Unmoved(s, RemoveHolder(s, tag, t), u)
  {
  }

  lemma RemoveWaiterUnmoved(s: State, tag: Tag, v: Tid, u: Tid)
    requires TagOk(s, tag) && tag in s.table && v in s.tcbs && u != v
    requires Position(s.table[tag].waiters, v) < |s.table[tag].waiters|
    ensures Unmoved(s, RemoveWaiter(s, tag, v), u)
  {
    QueueDistinct(s, tag);
    EntryWithout(s.table[tag].waiters, Position(s.table[tag].waiters, v), u);
  }

  // ---------------------------------------------------------------- events keep the invariant

  ghost predicate TxnInv(w: World, t: Tid) {
    AskOk(w, t) && forall tag :: PrivateOk(w, t, tag) && TupleOk(w, t, tag)
  }

  lemma Bystanders(w: World, lm: State, u: Tid)
    requires WorldInv(w) && (Unmoved(w.lm, lm, u) || GrantedTo(w.lm, lm, u))
    ensures TxnInv(w.(lm := lm), u)
  {
    forall tag ensures PrivateOk(w.(lm := lm), u, tag) && TupleOk(w.(lm := lm), u, tag) { BystanderKeeps(w, lm, u, tag); }
    BystanderKeeps(w, lm, u, TableTag(0));
  }

  /** The part of a transaction depends on the lock manager and on its own entries only. */
  lemma SameEntries(w: World, w': World, u: Tid)
    requires TxnInv(w, u) && w'.lm == w.lm
    requires (u in w'.held <==> u in w.held) && (u in w.held ==> w'.held[u] == w.held[u])
    requires (u in w'.asked <==> u in w.asked) && (u in w.asked ==> w'.asked[u] == w.asked[u])
    requires u in w'.releasing <==> u in w.releasing
    ensures TxnInv(w', u)
  {
    assert Held(w', u) == Held(w, u);
    forall tag ensures PrivateOk(w', u, tag) && TupleOk(w', u, tag) { assert PrivateOk(w, u, tag) && TupleOk(w, u, tag); }
  }

  lemma Assemble(w: World)
    requires Inv(w.lm) && forall t :: TxnInv(w, t)
    ensures WorldInv(w)
  {
    forall t ensures AskOk(w, t) { assert TxnInv(w, t); }
    forall t, tag ensures PrivateOk(w, t, tag) && TupleOk(w, t, tag) { assert TxnInv(w, t); }
  }

  lemma Parts(w: World, t: Tid)
    requires WorldInv(w)
    ensures TxnInv(w, t)
  {
    forall tag ensures PrivateOk(w, t, tag) && TupleOk(w, t, tag) { assert PrivateOk(w, t, tag) && TupleOk(w, t, tag); }
    assert AskOk(w, t);
  }

  /** A victim holds what it held, waits no more, and finds the deadlock error. */
  lemma VictimState(s: State, tag: Tag, v: Tid)
    requires Core(s) && v in s.tcbs && s.tcbs[v].waitingOn == Some(tag) && tag in s.table
    requires Position(s.table[tag].waiters, v) < |s.table[tag].waiters|
    ensures var s' := Wake(RemoveWaiter(s, tag, v), tag);
            SameModes(s, s', v) && !Waiting(s', v) && v in s'.mail && s'.mail[v] == Deadlock
  {
    var s1 := RemoveWaiter(s, tag, v);
    AbortKeeps(s, tag, v);
    WakeMoves(s1, tag, v);
    forall x ensures ModeOf(Wake(s1, tag), v, x) == ModeOf(s, v, x) {
      assert ModeOf(s1, v, x) == ModeOf(s, v, x);
    }
  }

  lemma VictimOwn(w: World, v: Tid, tag: Tag)
    requires WorldInv(w) && v in w.lm.tcbs && w.lm.tcbs[v].waitingOn == Some(tag) && tag in w.lm.table
    requires Position(w.lm.table[tag].waiters, v) < |w.lm.table[tag].waiters|
    ensures TxnInv(w.(lm := Wake(RemoveWaiter(w.lm, tag, v), tag)), v)
  {
    VictimState(w.lm, tag, v);
    Parts(w, v);
    assert TxnOk(w.lm, v);
    VictimInv(w, Wake(RemoveWaiter(w.lm, tag, v), tag), v);
  }

  lemma VictimInv(w: World, lm: State, v: Tid)
    requires TxnInv(w, v) && Waiting(w.lm, v) && v !in w.lm.mail
    requires SameModes(w.lm, lm, v) && !Waiting(lm, v) && v in lm.mail && lm.mail[v] == Deadlock
    ensures TxnInv(w.(lm := lm), v)
  {
    var w' := w.(lm := lm);
    forall x ensures PrivateOk(w', v, x) && TupleOk(w', v, x) {
      assert PrivateOk(w, v, x) && TupleOk(w, v, x);
      assert ModeOf(lm, v, x) == ModeOf(w.lm, v, x) && ModeOf(lm, v, TableOf(x)) == ModeOf(w.lm, v, TableOf(x));
    }
  }

  lemma AbortEventKeeps(w: World, v: Tid)
    requires WorldInv(w)
    ensures WorldInv(After(w, Abort(v)))
  {
    var s, w' := w.lm, After(w, Abort(v));
    VictimKeeps(s, v);
    assert TxnOk(s, v);
    forall u ensures TxnInv(w', u) {
      Parts(w, u);
      if v in s.tcbs && s.tcbs[v].waitingOn.Some? {
        var tag := s.tcbs[v].waitingOn.value;
        if u == v { VictimOwn(w, v, tag); }
        else {
          var s1 := RemoveWaiter(s, tag, v);
          assert TagOk(s, tag);
          RemoveWaiterUnmoved(s, tag, v, u);
          AbortKeeps(s, tag, v);
          WakeMoves(s1, tag, u);
          MovesCompose(s, s1, Wake(s1, tag), u);
          Bystanders(w, Wake(s1, tag), u);
        }
      }
    }
    Assemble(w');
  }

  lemma ReleaseOwn(w: World, t: Tid, tag: Tag)
    requires WorldInv(w) && Enabled(w, Release(t, tag))
    requires t in w.lm.tcbs && tag in w.lm.table && t in w.lm.table[tag].holders
    ensures TxnInv(After(w, Release(t, tag)), t)
  {
    var s, w' := w.lm, After(w, Release(t, tag));
    var s1 := RemoveHolder(s, tag, t);
    var s2 := Wake(s1, tag);
    ReleaseKeeps(s, tag, t);
    WakeMoves(s1, tag, t);
    ForgetUnmoved(s2, t, t);
    Parts(w, t);
    forall x ensures PrivateOk(w', t, x) && TupleOk(w', t, x) {
      assert PrivateOk(w, t, x) && TupleOk(w, t, x);
      assert ModeOf(s1, t, x) == if x == tag then None else ModeOf(s, t, x);
      assert ModeOf(s1, t, TableOf(x)) == if TableOf(x) == tag then None else ModeOf(s, t, TableOf(x));
      assert ModeOf(w'.lm, t, x) == ModeOf(s2, t, x) == ModeOf(s1, t, x);
      assert ModeOf(w'.lm, t, TableOf(x)) == ModeOf(s2, t, TableOf(x)) == ModeOf(s1, t, TableOf(x));
    }
  }

  lemma ReleaseKeepsWorld(w: World, t: Tid, tag: Tag)
    requires WorldInv(w) && Enabled(w, Release(t, tag))
    ensures WorldInv(After(w, Release(t, tag)))
  {
    var s, w' := w.lm, After(w, Release(t, tag));
    UnlockKeeps(s, t, tag);
    assert TxnOk(s, t);
    var live := t in s.tcbs && tag in s.table && t in s.table[tag].holders;
    forall u ensures TxnInv(w', u) {
      if live && u == t { ReleaseOwn(w, t, tag); }
      else {
        if live {
          var s1 := RemoveHolder(s, tag, t);
          RemoveHolderUnmoved(s, tag, t, u);
          ReleaseKeeps(s, tag, t);
          WakeMoves(s1, tag, u);
          MovesCompose(s, s1, Wake(s1, tag), u);
          ForgetUnmoved(Wake(s1, tag), t, u);
          ForgetAfter(s, Wake(s1, tag), t, u);
        } else {
          ForgetUnmoved(s, t, u);
          if t !in s.tcbs { assert Unmoved(s, s, u); }
        }
        Bystanders(w, w'.lm, u);
        if u != t { SameEntries(w.(lm := w'.lm), w', u); }
        else { ReleasingKeeps(w.(lm := w'.lm), t); }
      }
    }
    Assemble(w');
  }

  lemma ForgetAfter(s: State, s1: State, t: Tid, u: Tid)
    requires (Unmoved(s, s1, u) || GrantedTo(s, s1, u)) && Unmoved(s1, Forget(s1, t), u)
    ensures Unmoved(s, Forget(s1, t), u) || GrantedTo(s, Forget(s1, t), u)
  {
    forall tag ensures ModeOf(Forget(s1, t), u, tag) == ModeOf(s1, u, tag) { }
  }

  lemma ReleasingKeeps(w: World, t: Tid)
    requires TxnInv(w, t) && t !in w.asked
    ensures TxnInv(w.(releasing := w.releasing + {t}), t)
  {
    var w' := w.(releasing := w.releasing + {t});
    forall tag ensures PrivateOk(w', t, tag) && TupleOk(w', t, tag) { assert PrivateOk(w, t, tag) && TupleOk(w, t, tag); }
  }

  /** The lock manager's side of an acquisition that the private table does not cover. */
  lemma AcquireNotCovered(w: World, t: Tid, a: Ask)
    requires WorldInv(w) && Free(w, t)
    requires a.tag in Held(w, t) ==> !Covers(Held(w, t)[a.tag], a.mode)
    ensures !Covered(LcbOf(Register(w.lm, t), a.tag).holders, Request(t, a.mode))
  {
    Parts(w, t);
    assert PrivateOk(w, t, a.tag);
  }

  /** A granted or queued lock request and the transactions that did not make it. */
  lemma LockMoves(s: State, t: Tid, tag: Tag, mode: Mode, u: Tid)
    requires Inv(s) && Idle(s, t) && u != t
    ensures Unmoved(s, LockStep(s, t, tag, mode), u)
  {
    var s1, r := Register(s, t), Request(t, mode);
    RegisterUnmoved(s, t, u);
    RegisterKeeps(s, t);
    if Covered(LcbOf(s1, tag).holders, r) {
      ForgetUnmoved(s1, t, u);
      MovesCompose(s, s1, Forget(s1, t), u);
    } else if LcbOf(s1, tag).waiters == [] && Admissible(LcbOf(s1, tag).holders, r) {
      var s2 := Hold(s1, tag, r);
      HoldUnmoved(s1, tag, r, u);
      MovesCompose(s, s1, s2, u);
      ForgetUnmoved(s2, t, u);
      MovesCompose(s, s2, Forget(s2, t), u);
    } else {
      EnqueueUnmoved(s1, tag, r, u);
      MovesCompose(s, s1, Enqueue(s1, tag, r), u);
    }
  }

  /** `t` waits under `tag` for `mode`, or holds it; nothing else changed for it. */
  predicate Requested(s: State, s': State, t: Tid, tag: Tag, mode: Mode, x: Tag) {
    && t !in s'.mail
    && (x != tag ==> ModeOf(s', t, x) == ModeOf(s, t, x))
    && if Waiting(s', t)
       then s'.tcbs[t].waitingOn == Some(tag) && Entry(s', tag, t) == Some(mode) && ModeOf(s', t, tag) == ModeOf(s, t, tag)
       else ModeOf(s', t, tag) == Some(mode)
  }

  lemma QueuedOwn(s: State, tag: Tag, r: Request, x: Tag)
    requires TagOk(s, tag) && r.tid in s.tcbs && Idle(s, r.tid)
    ensures Requested(s, Enqueue(s, tag, r), r.tid, tag, r.mode, x)
  {
    IdleEntry(s, tag, r.tid);
    EntryAppend(LcbOf(s, tag).waiters, r, r.tid);
  }

  lemma GrantedOwn(s: State, tag: Tag, r: Request, x: Tag)
    requires r.tid in s.tcbs && Idle(s, r.tid)
    ensures Requested(s, Forget(Hold(s, tag, r), r.tid), r.tid, tag, r.mode, x)
  {
  }

  /** What an uncovered request does to its own transaction. */
  lemma LockOwn(s: State, t: Tid, tag: Tag, mode: Mode, x: Tag)
    requires Inv(s) && Idle(s, t) && !Covered(LcbOf(Register(s, t), tag).holders, Request(t, mode))
    ensures Requested(s, LockStep(s, t, tag, mode), t, tag, mode, x)
  {
    RegisterKeeps(s, t);
    RequestOwn(Register(s, t), t, tag, mode, x);
  }

  lemma RequestOwn(s: State, t: Tid, tag: Tag, mode: Mode, x: Tag)
    requires Core(s) && t in s.tcbs && Idle(s, t) && !Covered(LcbOf(s, tag).holders, Request(t, mode))
    ensures Requested(s, LockStep(s, t, tag, mode), t, tag, mode, x)
  {
    var r := Request(t, mode);
    if LcbOf(s, tag).waiters == [] && Admissible(LcbOf(s, tag).holders, r) {
      GrantedOwn(s, tag, r, x);
    } else {
      assert TagOk(s, tag);
      QueuedOwn(s, tag, r, x);
    }
  }

  lemma AcquireOwn(w: World, t: Tid, tag: Tag, mode: Mode)
    requires WorldInv(w) && Enabled(w, Acquire(t, tag, mode))
    requires !(tag in Held(w, t) && Covers(Held(w, t)[tag], mode))
    ensures TxnInv(After(w, Acquire(t, tag, mode)), t)
  {
    var s, w' := w.lm, After(w, Acquire(t, tag, mode));
    var a := Ask(tag, if tag in Held(w, t) then Upgrade(Held(w, t)[tag], mode) else mode);
    Parts(w, t);
    if tag in Held(w, t) {
      UpgradeIsJoin(Held(w, t)[tag], mode, X);
      if Covers(Held(w, t)[tag], a.mode) { UpgradeIsJoin(Held(w, t)[tag], a.mode, mode); }
    }
    AcquireNotCovered(w, t, a);
    LockOwn(s, t, tag, a.mode, tag);
    forall y ensures y != tag ==> ModeOf(w'.lm, t, y) == ModeOf(s, t, y) { LockOwn(s, t, tag, a.mode, y); }
    assert PrivateOk(w, t, tag) && TupleOk(w, t, tag) && PrivateOk(w, t, TableOf(tag));
    forall x ensures PrivateOk(w', t, x) && TupleOk(w', t, x) { AcquireTag(w, w', t, a, x, mode); }
  }

  lemma AcquireTag(w: World, w': World, t: Tid, a: Ask, x: Tag, mode: Mode)
    requires TxnInv(w, t) && Free(w, t) && Enabled(w, Acquire(t, a.tag, mode))
    requires a.mode == if a.tag in Held(w, t) then Upgrade(Held(w, t)[a.tag], mode) else mode
    requires !(a.tag in Held(w, t) && Covers(Held(w, t)[a.tag], mode))
    requires w' == After(w, Acquire(t, a.tag, mode)) && t !in w'.lm.mail
    requires forall y :: y != a.tag ==> ModeOf(w'.lm, t, y) == ModeOf(w.lm, t, y)
    requires if Waiting(w'.lm, t)
             then ModeOf(w'.lm, t, a.tag) == ModeOf(w.lm, t, a.tag) else ModeOf(w'.lm, t, a.tag) == Some(a.mode)
    ensures PrivateOk(w', t, x) && TupleOk(w', t, x)
  {
    assert PrivateOk(w, t, x) && TupleOk(w, t, x);
    assert PrivateOk(w, t, a.tag) && TupleOk(w, t, a.tag);
    assert PrivateOk(w, t, TableOf(x)) && PrivateOk(w, t, TableOf(a.tag));
    if x.TupleTag? && a.tag == TableOf(x) && ModeOf(w.lm, t, x).Some? {
      UpgradeIsJoin(Held(w, t)[a.tag], mode, X);
      UpgradeIsJoin(a.mode, Held(w, t)[a.tag], Intent(ModeOf(w.lm, t, x).value));
    }
  }

  lemma AcquireKeeps(w: World, t: Tid, tag: Tag, mode: Mode)
    requires WorldInv(w) && Enabled(w, Acquire(t, tag, mode))
    ensures WorldInv(After(w, Acquire(t, tag, mode)))
  {
    var w' := After(w, Acquire(t, tag, mode));
    if !(tag in Held(w, t) && Covers(Held(w, t)[tag], mode)) {
      var m := if tag in Held(w, t) then Upgrade(Held(w, t)[tag], mode) else mode;
      LockKeeps(w.lm, t, tag, m);
      forall u ensures TxnInv(w', u) {
        if u == t { AcquireOwn(w, t, tag, mode); }
        else {
          LockMoves(w.lm, t, tag, m, u);
          Bystanders(w, w'.lm, u);
          SameEntries(w.(lm := w'.lm), w', u);
        }
      }
      Assemble(w');
    }
  }

  lemma ReturnKeeps(w: World, t: Tid)
    requires WorldInv(w) && Enabled(w, Return(t))
    ensures WorldInv(After(w, Return(t)))
  {
    var s, w' := w.lm, After(w, Return(t));
    var s1 := s.(mail := s.mail - {t});
    ResumeKeeps(s, t);
    forall u ensures TxnInv(w', u) {
      Parts(w, u);
      ForgetUnmoved(s1, t, u);
      if u != t {
        assert Unmoved(s, s1, u);
        MovesCompose(s, s1, w'.lm, u);
        Bystanders(w, w'.lm, u);
        SameEntries(w.(lm := w'.lm), w', u);
      } else {
        assert TxnOk(s, t);
        forall x ensures PrivateOk(w', t, x) && TupleOk(w', t, x) {
          assert PrivateOk(w, t, x) && TupleOk(w, t, x);
          assert ModeOf(w'.lm, t, x) == ModeOf(s, t, x) && ModeOf(w'.lm, t, TableOf(x)) == ModeOf(s, t, TableOf(x));
        }
      }
    }
    Assemble(w');
  }

  lemma ResetKeeps(w: World, t: Tid)
    requires WorldInv(w) && Enabled(w, Reset(t))
    ensures WorldInv(After(w, Reset(t)))
  {
    var w' := After(w, Reset(t));
    forall u ensures TxnInv(w', u) {
      Parts(w, u);
      if u != t { SameEntries(w, w', u); }
      else {
        assert AskOk(w, t);
        forall x ensures PrivateOk(w', t, x) && TupleOk(w', t, x) { assert PrivateOk(w, t, x) && TupleOk(w, t, x); }
      }
    }
    Assemble(w');
  }

  lemma StepKeepsWorld(w: World, e: Event)
    requires WorldInv(w) && Enabled(w, e)
    ensures WorldInv(After(w, e))
  {
    match e
    case Acquire(t, tag, mode) => AcquireKeeps(w, t, tag, mode);
    case Return(t) => ReturnKeeps(w, t);
    case Abort(t) => AbortEventKeeps(w, t);
    case Release(t, tag) => ReleaseKeepsWorld(w, t, tag);
    case Reset(t) => ResetKeeps(w, t);
  }

  lemma {:induction false} RunsKeepWorld(es: seq<Event>)
    ensures Run(es).Some? ==> WorldInv(Run(es).value)
  {
    if es == [] {
      LockInvariant.InitialInv();
      forall t ensures TxnInv(EMPTY_WORLD, t) {
        forall x ensures PrivateOk(EMPTY_WORLD, t, x) && TupleOk(EMPTY_WORLD, t, x) { }
      }
      Assemble(EMPTY_WORLD);
    } else {
      RunsKeepWorld(es[..|es| - 1]);
      var prev := Run(es[..|es| - 1]);
      if prev.Some? && Enabled(prev.value, es[|es| - 1]) { StepKeepsWorld(prev.value, es[|es| - 1]); }
    }
  }

  // ---------------------------------------------------------------- theorems

  /** The private lock table of a transaction that is neither blocked nor releasing equals its
      entries in the holder maps. */
  lemma PrivateTableIsExact(es: seq<Event>, t: Tid, tag: Tag)
    requires Run(es).Some? && Free(Run(es).value, t)
    ensures Look(Held(Run(es).value, t), tag) == ModeOf(Run(es).value.lm, t, tag)
  {
    RunsKeepWorld(es);
    assert PrivateOk(Run(es).value, t, tag);
  }

  /** Through `AcquireLock` a mode only climbs. */
  lemma ModesClimb(es: seq<Event>, e: Event, t: Tid, tag: Tag)
    requires Run(es).Some? && Enabled(Run(es).value, e) && !e.Release?
    requires ModeOf(Run(es).value.lm, t, tag).Some?
    ensures ModeOf(After(Run(es).value, e).lm, t, tag).Some?
    ensures Covers(ModeOf(After(Run(es).value, e).lm, t, tag).value, ModeOf(Run(es).value.lm, t, tag).value)
  {
    RunsKeepWorld(es);
    var w := Run(es).value;
    Parts(w, t);
    assert AskOk(w, t) && PrivateOk(w, t, tag) && TxnOk(w.lm, t);
    match e
    case Acquire(u, x, mode) =>
      if !(x in Held(w, u) && Covers(Held(w, u)[x], mode)) {
        var m := if x in Held(w, u) then Upgrade(Held(w, u)[x], mode) else mode;
        if u != t { LockMoves(w.lm, u, x, m, t); assert SameModes(w.lm, After(w, e).lm, t); }
        else {
          if x in Held(w, t) {
            UpgradeIsJoin(Held(w, t)[x], mode, X);
            if Covers(Held(w, t)[x], m) { UpgradeIsJoin(Held(w, t)[x], m, mode); }
          }
          AcquireNotCovered(w, t, Ask(x, m));
          LockOwn(w.lm, t, x, m, tag);
        }
      }
    case Return(u) =>
      assert ModeOf(After(w, e).lm, t, tag) == ModeOf(w.lm, t, tag);
    case Abort(v) => AbortClimbs(w, v, t, tag);
    case Reset(u) =>
  }

  lemma AbortClimbs(w: World, v: Tid, t: Tid, tag: Tag)
    requires WorldInv(w) && ModeOf(w.lm, t, tag).Some?
    ensures var m := ModeOf(VictimStep(w.lm, v), t, tag); m.Some? && Covers(m.value, ModeOf(w.lm, t, tag).value)
  {
    var s := w.lm;
    assert TxnOk(s, v) && AskOk(w, t) && PrivateOk(w, t, tag);
    if v in s.tcbs && s.tcbs[v].waitingOn.Some? {
      var x := s.tcbs[v].waitingOn.value;
      var s1 := RemoveWaiter(s, x, v);
      AbortKeeps(s, x, v);
      WakeMoves(s1, x, t);
      assert ModeOf(s1, t, tag) == ModeOf(s, t, tag);
      assert TagOk(s, x);
      if t != v { RemoveWaiterUnmoved(s, x, v, t); MovesCompose(s, s1, Wake(s1, x), t); }
      if Unmoved(s1, Wake(s1, x), t) { assert ModeOf(Wake(s1, x), t, tag) == ModeOf(s1, t, tag); }
    }
  }

  /** A tuple X lock implies table IX, SIX or X for the same transaction, also midway through
      release; a tuple S lock implies some table lock. */
  lemma TupleLocksHaveIntent(es: seq<Event>, t: Tid, tag: Tag)
    requires Run(es).Some? && tag.TupleTag? && ModeOf(Run(es).value.lm, t, tag).Some?
    ensures var s := Run(es).value.lm; var m := ModeOf(s, t, TableOf(tag));
            m.Some? && (ModeOf(s, t, tag) == Some(X) ==> m.value == IX || m.value == SIX || m.value == X)
  {
    RunsKeepWorld(es);
    assert TupleOk(Run(es).value, t, tag);
  }

  predicate CanWrite(s: State, t: Tid, tag: Tag) {
    ModeOf(s, t, tag) == Some(X) || ModeOf(s, t, TableOf(tag)) == Some(X)
  }

  /** Read access to a tuple, by tuple lock or by the lock of a table scan. */
  predicate CanRead(s: State, t: Tid, tag: Tag) {
    var m := ModeOf(s, t, TableOf(tag));
    ModeOf(s, t, tag).Some? || m == Some(S) || m == Some(SIX) || m == Some(X)
  }

  /** While one transaction has write access to a tuple, no other has read or write access. */
  lemma WritersExclude(es: seq<Event>, t: Tid, u: Tid, tag: Tag)
    requires Run(es).Some? && tag.TupleTag? && t != u
    requires CanWrite(Run(es).value.lm, t, tag)
    ensures !CanRead(Run(es).value.lm, u, tag) && !CanWrite(Run(es).value.lm, u, tag)
  {
    RunsKeepWorld(es);
    var w := Run(es).value;
    assert TagOk(w.lm, tag) && TagOk(w.lm, TableOf(tag));
    assert TupleOk(w, t, tag) && TupleOk(w, u, tag);
  }
}
