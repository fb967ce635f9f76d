/** The lock table of one transaction context: reentrancy and upgrade in `AcquireLock`, the
    two loops of `ReleaseAllLocks`. */
module TransactionLocks {
  import opened LockModes
  import opened LockState
  import opened LockInvariant
  import opened LockTheorems
  import opened Granularity
  import MG = Granularity
  import LM = LockManager

  /** Unlocking takes exactly one tag from its transaction and leaves it idle. */
  lemma UnlockOwn(s: State, t: Tid, tag: Tag, x: Tag)
    requires Inv(s) && Idle(s, t)
    ensures Idle(UnlockStep(s, t, tag), t)
    ensures ModeOf(UnlockStep(s, t, tag), t, x) == if x == tag then None else ModeOf(s, t, x)
  {
    assert TxnOk(s, t);
    if t !in s.tcbs {
      assert tag !in HeldTags(s, t);
    } else if tag in s.table && t in s.table[tag].holders {
      var s1 := RemoveHolder(s, tag, t);
      ReleaseKeeps(s, tag, t);
      WakeOwn(s1, tag, t, x);
      ForgetOwn(Wake(s1, tag), t, x);
      assert ModeOf(s1, t, x) == if x == tag then None else ModeOf(s, t, x);
    } else {
      ForgetOwn(s, t, x);
    }
  }

  lemma WakeOwn(s: State, tag: Tag, t: Tid, x: Tag)
    requires Core(s) && Idle(s, t)
    ensures Idle(Wake(s, tag), t) && ModeOf(Wake(s, tag), t, x) == ModeOf(s, t, x)
  {
    WakeMoves(s, tag, t);
    var s' := Wake(s, tag);
    assert !Waiting(s, t) && Unmoved(s, s', t);
    assert SameModes(s, s', t);
  }

  lemma ForgetOwn(s: State, t: Tid, x: Tag)
    requires Idle(s, t)
    ensures Idle(Forget(s, t), t) && ModeOf(Forget(s, t), t, x) == ModeOf(s, t, x)
  {
  }

  /** The mode to ask for: the one needed if nothing is held, else the least that covers both. */
  predicate IsWanted(m: Mode, held: Option<Mode>, mode: Mode) {
    if held == None then m == mode
    else
      && Covers(m, held.value) && Covers(m, mode)
      && forall other :: Covers(other, held.value) && Covers(other, mode) ==> Covers(other, m)
  }

  lemma WantedMode(held: Option<Mode>, mode: Mode, wanted: Mode)
    requires held.Some? ==> !Covers(held.value, mode)
    requires wanted == if (held == Some(S) && mode == IX) || (mode == S && held == Some(IX)) then SIX else mode
    ensures forall m :: IsWanted(m, held, mode) <==> m == wanted
    ensures held.Some? ==> !Covers(held.value, wanted)
  {
    if held.Some? {
      assert wanted == Upgrade(held.value, mode);
      forall m | IsWanted(m, held, mode) ensures m == wanted {
        UpgradeIsJoin(held.value, mode, m);
        UpgradeIsJoin(m, wanted, wanted);
      }
      forall other | Covers(other, held.value) && Covers(other, mode) ensures Covers(other, wanted) {
        UpgradeIsJoin(held.value, mode, other);
      }
      UpgradeIsJoin(held.value, mode, wanted);
    }
  }

  /** The acquire step of the runs in `Granularity` asks for that mode too. */
  lemma StepAsksWanted(w: World, t: Tid, tag: Tag, mode: Mode)
    requires WorldInv(w) && MG.Enabled(w, Acquire(t, tag, mode))
    ensures var w' := MG.After(w, Acquire(t, tag, mode)); var held := Look(Held(w, t), tag);
            if t in w'.asked then w'.asked[t].tag == tag && IsWanted(w'.asked[t].mode, held, mode)
            else tag in Held(w', t) && IsWanted(Held(w', t)[tag], held, mode)
  {
    var held := Look(Held(w, t), tag);
    if held.Some? && Covers(held.value, mode) {
      UpgradeIsJoin(held.value, mode, mode);
    } else {
      WantedMode(held, mode, if held.Some? then Upgrade(held.value, mode) else mode);
    }
  }

  /** Somebody waits already, or another holder clashes. */
  predicate MustWait(lcb: Lcb, t: Tid, mode: Mode) {
    lcb.waiters != [] || exists h :: h in lcb.holders && h != t && Clash(mode, lcb.holders[h])
  }

  predicate QueuedLast(s: State, s': State, tag: Tag, r: Request) {
    LcbOf(s', tag) == Lcb(LcbOf(s, tag).holders, LcbOf(s, tag).waiters + [r])
  }

  class TransactionContext {
    const id: Tid
    const lm: LM.LockManager
    var heldLocks: map<Tag, Mode>

    constructor (id: Tid, lm: LM.LockManager)
      ensures this.id == id && this.lm == lm && heldLocks == map[]
    {
      this.id, this.lm, heldLocks := id, lm, map[];
    }

    /** The private table is the transaction's part of the holder maps. */
    ghost predicate Exact()
      reads this, lm
    {
      forall tag :: Look(heldLocks, tag) == ModeOf(lm.S(), id, tag)
    }

    /** Asks for a lock; `blocked` means the caller now waits for a reply.  It holds or waits for
        the mode it asked for, or the least one covering that and what it held.  It is granted at
        once if its mode is covered, or nobody waits and no other holder clashes. */
    method AcquireLock(tag: Tag, mode: Mode) returns (blocked: bool)
      requires Inv(lm.S()) && Idle(lm.S(), id) && Exact()
      modifies this, lm
      ensures Inv(lm.S()) && (blocked <==> !Idle(lm.S(), id))
      ensures blocked ==> heldLocks == old(heldLocks)
      ensures blocked ==> exists m :: IsWanted(m, Look(old(heldLocks), tag), mode) && QueuedLast(old(lm.S()), lm.S(), tag, Request(id, m))
      ensures !blocked ==> tag in heldLocks && IsWanted(heldLocks[tag], Look(old(heldLocks), tag), mode) && Exact()
      ensures blocked <==>
                && (tag in old(heldLocks) ==> !Covers(old(heldLocks)[tag], mode))
                && forall m :: IsWanted(m, Look(old(heldLocks), tag), mode) ==> MustWait(LcbOf(old(lm.S()), tag), id, m)
      ensures forall other :: other != tag ==> Look(heldLocks, other) == Look(old(heldLocks), other)
    {
      if tag in heldLocks && Covers(heldLocks[tag], mode) { return false; }
      var wanted := mode;
      if tag in heldLocks && ((heldLocks[tag] == S && mode == IX) || (mode == S && heldLocks[tag] == IX)) { wanted := SIX; }
      ghost var s := lm.S();
      WantedMode(Look(heldLocks, tag), mode, wanted);
      assert Look(heldLocks, tag) == ModeOf(s, id, tag);
      var granted := RequestLock(tag, wanted);
      if !granted { return true; }
      heldLocks := heldLocks[tag := wanted];
      forall x ensures Look(heldLocks, x) == ModeOf(lm.S(), id, x) {
        assert Look(old(heldLocks), x) == ModeOf(s, id, x);
      }
      return false;
    }

    /** The call of the lock manager, for a mode that is not covered. */
    method RequestLock(tag: Tag, wanted: Mode) returns (granted: bool)
      requires Inv(lm.S()) && Idle(lm.S(), id)
      requires ModeOf(lm.S(), id, tag).Some? ==> !Covers(ModeOf(lm.S(), id, tag).value, wanted)
      modifies lm
      ensures Inv(lm.S()) && (granted <==> Idle(lm.S(), id)) && (granted <==> !MustWait(LcbOf(old(lm.S()), tag), id, wanted))
      ensures !granted ==> QueuedLast(old(lm.S()), lm.S(), tag, Request(id, wanted))
      ensures granted ==> forall x :: ModeOf(lm.S(), id, x) == if x == tag then Some(wanted) else ModeOf(old(lm.S()), id, x)
    {
      ghost var s := lm.S();
      assert !Covered(LcbOf(Register(s, id), tag).holders, Request(id, wanted));
      forall x ensures Requested(s, LockStep(s, id, tag, wanted), id, tag, wanted, x) { LockOwn(s, id, tag, wanted, x); }
      granted := lm.Lock(id, tag, wanted);
      assert Requested(s, lm.S(), id, tag, wanted, tag);
      forall x | granted ensures ModeOf(lm.S(), id, x) == if x == tag then Some(wanted) else ModeOf(s, id, x) {
        assert Requested(s, lm.S(), id, tag, wanted, x);
      }
    }

    /** Releases the tuple locks, then the table locks; nothing is held afterwards and the lock
        manager forgets the transaction.  `released` are the tags in the order of their unlocks. */
    method ReleaseAllLocks() returns (ghost released: seq<Tag>)
      requires Inv(lm.S()) && Idle(lm.S(), id) && Exact()
      modifies lm
      ensures Inv(lm.S()) && id !in lm.S().tcbs && HeldTags(lm.S(), id) == {}
      ensures forall tag :: tag in released <==> tag in heldLocks
      ensures forall i, j :: 0 <= i < j < |released| && released[i].TableTag? ==> released[j].TableTag?
    {
      ghost var tuples := ReleaseSome(true);
      ghost var tables := ReleaseSome(false);
      released := tuples + tables;
      forall k | 0 <= k < |released| ensures released[k].TableTag? <==> k >= |tuples| {
        assert if k < |tuples| then released[k] in tuples else released[k] in tables;
      }
      assert TxnOk(lm.S(), id) && NotStale(lm.S(), id);
      forall tag ensures tag !in HeldTags(lm.S(), id) {
        assert tag in HeldTags(lm.S(), id) <==> ModeOf(lm.S(), id, tag).Some?;
      }
    }

    /** One of the two loops: unlocks the tuple tags or the table tags of the private table. */
    method ReleaseSome(tuples: bool) returns (ghost released: seq<Tag>)
      requires Inv(lm.S()) && Idle(lm.S(), id)
      modifies lm
      ensures Inv(lm.S()) && Idle(lm.S(), id)
      ensures forall tag :: ModeOf(lm.S(), id, tag)
                         == if tag in heldLocks && tag.TupleTag? == tuples then None else ModeOf(old(lm.S()), id, tag)
      ensures forall tag :: tag in released <==> tag in heldLocks && tag.TupleTag? == tuples
    {
      released := [];
      var rest := heldLocks.Keys;
      while rest != {}
        invariant rest <= heldLocks.Keys && Inv(lm.S()) && Idle(lm.S(), id)
        invariant forall tag :: ModeOf(lm.S(), id, tag)
                             == if tag in heldLocks && tag !in rest && tag.TupleTag? == tuples then None
                                else ModeOf(old(lm.S()), id, tag)
        invariant forall tag :: tag in released <==> tag in heldLocks && tag !in rest && tag.TupleTag? == tuples
        decreases rest
      {
        var tag :| tag in rest;
        rest := rest - {tag};
        if tag.TupleTag? == tuples {
          released := released + [tag];
          forall x ensures ModeOf(UnlockStep(lm.S(), id, tag), id, x) == if x == tag then None else ModeOf(lm.S(), id, x) {
            UnlockOwn(lm.S(), id, tag, x);
          }
          UnlockOwn(lm.S(), id, tag, tag);
          var ok := lm.Unlock(id, tag);
        }
      }
    }
  }
}
