/** Repeating history and rolling losers back amounts to replaying winners only.

    The discipline `WellFormed` of the log is local: it speaks of one record and the log
    before it.  This module derives from it the global statement recovery rests on: once no
    transaction is live, the rows left by replaying *every* record, compensations included,
    are the rows left by replaying, in log order, only committed transactions. */
module CommittedReplay {
  import opened LogModel

  ghost function Pending(log: Log, t: Tid, x: Rid): seq<Record> {
    OnSlot(UndoStack(log, t), x)
  }

  /** A rolled back insertion keeps its slot, marked deleted; no operation accepts it again. */
  ghost predicate Dead(s: Slot, committed: Slot) {
    s.alloc && s.deleted && VisibleRow(committed) == None
  }

  /** From a live transaction's first touch of `x` on, only that transaction touches `x`. */
  ghost predicate Owns(log: Log, t: Tid, x: Rid) {
    forall i, j :: 0 <= i < j < |log| && Touches(log[i], t, x) && IsPageRecord(log[j]) && log[j].rid == x ==>
      log[j].tid == t
  }

  /** A live transaction owns what it touched, and if it has pending records on the slot, the
      slot is the committed slot with those records on top. */
  ghost predicate OwnerOk(log: Log, x: Rid, t: Tid) {
    Live(log, t) ==>
      && Owns(log, t, x)
      && (Pending(log, t, x) != [] ==>
            && AcceptedChain(CommittedSlot(log, x, log), Pending(log, t, x))
            && SlotOf(log, x) == ApplyAll(CommittedSlot(log, x, log), Pending(log, t, x)))
  }

  ghost predicate Quiet(log: Log, x: Rid) {
    forall t :: Live(log, t) ==> Pending(log, t, x) == []
  }

  ghost predicate SlotInv(log: Log, x: Rid) {
    && (forall t :: OwnerOk(log, x, t))
    && (Quiet(log, x) ==>
          SlotOf(log, x) == CommittedSlot(log, x, log) || Dead(SlotOf(log, x), CommittedSlot(log, x, log)))
  }

  // ---------------------------------------------------------------- undo stacks

  lemma {:induction false} StackFromLog(log: Log, t: Tid)
    ensures forall u :: u in UndoStack(log, t) ==> IsData(u) && u.tid == t && u in log
  {
    if log != [] { StackFromLog(Init(log), t); }
  }

  lemma {:induction false} NoDataNoStack(log: Log, t: Tid)
    requires forall r :: r in log && IsData(r) ==> r.tid != t
    ensures UndoStack(log, t) == []
  {
    if log != [] {
      assert Last(log) in log;
      NoDataNoStack(Init(log), t);
    }
  }

  lemma {:induction false} OnSlotFrom(us: seq<Record>, x: Rid)
    ensures forall u :: u in OnSlot(us, x) ==> u in us && IsData(u) && u.rid == x
  {
    if us != [] { OnSlotFrom(Init(us), x); }
  }

  lemma UntouchedNoPending(log: Log, t: Tid, x: Rid)
    requires Untouched(log, t, x)
    ensures Pending(log, t, x) == []
  {
    StackFromLog(log, t);
    OnSlotFrom(UndoStack(log, t), x);
    if Pending(log, t, x) != [] {
      var u := Pending(log, t, x)[0];
      assert u in Pending(log, t, x);
      assert Touches(u, t, x);
    }
  }

  lemma PendingTouch(log: Log, t: Tid, x: Rid) returns (i: nat)
    requires Pending(log, t, x) != []
    ensures i < |log| && Touches(log[i], t, x)
  {
    StackFromLog(log, t);
    OnSlotFrom(UndoStack(log, t), x);
    var u := Pending(log, t, x)[0];
    assert u in Pending(log, t, x);
    i :| 0 <= i < |log| && log[i] == u;
  }

  lemma OneOwner(log: Log, x: Rid, t: Tid, t': Tid)
    requires SlotInv(log, x)
    requires Live(log, t) && Live(log, t') && Pending(log, t, x) != [] && Pending(log, t', x) != []
    ensures t == t'
  {
    var i := PendingTouch(log, t, x);
    var j := PendingTouch(log, t', x);
    assert OwnerOk(log, x, t) && OwnerOk(log, x, t');
  }

  // ---------------------------------------------------------------- committed replay

  lemma {:induction false} CommittedSkip(log: Log, x: Rid, full: Log, r: Record)
    requires !r.Commit?
    ensures CommittedSlot(log, x, full + [r]) == CommittedSlot(log, x, full)
  {
    if log != [] { CommittedSkip(Init(log), x, full, r); }
  }

  /** Letting `t` commit appends its pending records to the committed replay of its slots. */
  lemma {:induction false} CommittedAdd(log: Log, x: Rid, full: Log, t: Tid)
    requires NoClr(log, t) && Owns(log, t, x) && Commit(t) !in full
    ensures CommittedSlot(log, x, full + [Commit(t)])
         == ApplyAll(CommittedSlot(log, x, full), Pending(log, t, x))
  {
    if log != [] {
      var r := Last(log);
      CommittedAdd(Init(log), x, full, t);
      if IsPageRecord(r) && r.rid == x && r.tid != t {
        assert Untouched(Init(log), t, x) by {
          forall u | u in Init(log) ensures !Touches(u, t, x) {
            var i :| 0 <= i < |Init(log)| && Init(log)[i] == u;
            assert log[i] == u && log[|log| - 1] == r;
          }
        }
        UntouchedNoPending(Init(log), t, x);
      }
      if IsData(r) && r.tid == t {
        var s := UndoStack(Init(log), t);
        assert Init(s + [r]) == s && Last(s + [r]) == r;
        if r.rid == x {
          var p := OnSlot(s, x);
          assert Init(p + [r]) == p && Last(p + [r]) == r;
        }
      }
    }
  }

  // ---------------------------------------------------------------- one record at a time

  lemma OwnsAppend(log: Log, r: Record, t: Tid, x: Rid)
    requires Owns(log, t, x)
    requires IsPageRecord(r) && r.rid == x && r.tid != t ==> Untouched(log, t, x)
    ensures Owns(log + [r], t, x)
  {
    forall i, j | 0 <= i < j < |log + [r]| && Touches((log + [r])[i], t, x)
                  && IsPageRecord((log + [r])[j]) && (log + [r])[j].rid == x
      ensures (log + [r])[j].tid == t
    {
      assert (log + [r])[i] == log[i] && log[i] in log;
    }
  }

  lemma PendingAppend(log: Log, r: Record, t: Tid, x: Rid)
    requires MayAppend(log, r)
    ensures !IsPageRecord(r) || r.tid != t || r.rid != x ==> Pending(log + [r], t, x) == Pending(log, t, x)
    ensures IsData(r) && r.tid == t && r.rid == x ==> Pending(log + [r], t, x) == Pending(log, t, x) + [r]
    ensures IsClr(r) && r.tid == t && r.rid == x ==>
              && Pending(log, t, x) == Pending(log + [r], t, x) + [Last(UndoStack(log, t))]
  {
    TakeOfAppend(log, r);
    var s := UndoStack(log, t);
    if IsData(r) && r.tid == t {
      assert Init(s + [r]) == s && Last(s + [r]) == r;
    }
  }

  lemma SlotInvBystander(log: Log, r: Record, x: Rid)
    requires SlotInv(log, x) && MayAppend(log, r) && !r.Commit?
    requires IsPageRecord(r) ==> r.rid != x
    ensures SlotInv(log + [r], x)
  {
    TakeOfAppend(log, r);
    CommittedSkip(log, x, log, r);
    forall t ensures OwnerOk(log + [r], x, t) { BystanderOwner(log, r, x, t); }
    if Quiet(log + [r], x) {
      forall t | Live(log, t) ensures Pending(log, t, x) == [] {
        PendingAppend(log, r, t, x);
        if r != Abort(t) { assert Live(log + [r], t); }
      }
    }
  }

  lemma BystanderOwner(log: Log, r: Record, x: Rid, t: Tid)
    requires SlotInv(log, x) && MayAppend(log, r) && !r.Commit?
    requires IsPageRecord(r) ==> r.rid != x
    ensures OwnerOk(log + [r], x, t)
  {
    TakeOfAppend(log, r);
    CommittedSkip(log, x, log, r);
    PendingAppend(log, r, t, x);
    assert OwnerOk(log, x, t);
    if r == Begin(t) { UntouchedNoPending(log, t, x); }
    if Live(log + [r], t) { OwnsAppend(log, r, t, x); }
  }

  lemma CommitOwner(log: Log, t: Tid, x: Rid, t': Tid)
    requires SlotInv(log, x) && MayAppend(log, Commit(t))
    ensures OwnerOk(log + [Commit(t)], x, t')
  {
    var r := Commit(t);
    TakeOfAppend(log, r);
    assert OwnerOk(log, x, t') && OwnerOk(log, x, t);
    if Live(log + [r], t') {
      PendingAppend(log, r, t', x);
      OwnsAppend(log, r, t', x);
      if Pending(log, t', x) != [] {
        if Pending(log, t, x) != [] { OneOwner(log, x, t, t'); }
        CommittedAdd(log, x, log, t);
      }
    }
  }

  lemma SlotInvCommit(log: Log, t: Tid, x: Rid)
    requires SlotInv(log, x) && MayAppend(log, Commit(t))
    ensures SlotInv(log + [Commit(t)], x)
  {
    var r := Commit(t);
    TakeOfAppend(log, r);
    forall t' ensures OwnerOk(log + [r], x, t') { CommitOwner(log, t, x, t'); }
    if Quiet(log + [r], x) {
      assert OwnerOk(log, x, t);
      CommittedAdd(log, x, log, t);
      if Pending(log, t, x) == [] {
        forall t' | Live(log, t') ensures Pending(log, t', x) == [] {
          PendingAppend(log, r, t', x);
          if t' != t { assert Live(log + [r], t'); }
        }
      }
    }
  }

  /** A written slot carries no pending record of another live transaction, so it is either
      the committed slot or already topped by the writer. */
  lemma WriteBase(log: Log, r: Record, x: Rid)
    requires SlotInv(log, x) && IsData(r) && r.rid == x && MayWrite(log, r)
    ensures SlotOf(log, x) == ApplyAll(CommittedSlot(log, x, log), Pending(log, r.tid, x))
    ensures AcceptedChain(CommittedSlot(log, x, log), Pending(log, r.tid, x))
  {
    assert OwnerOk(log, x, r.tid);
    if Pending(log, r.tid, x) == [] {
      forall t | Live(log, t) ensures Pending(log, t, x) == [] {
        if t != r.tid { UntouchedNoPending(log, t, x); }
      }
      assert Quiet(log, x);
    }
  }

  lemma WriteOther(log: Log, r: Record, x: Rid, t: Tid)
    requires SlotInv(log, x) && IsData(r) && r.rid == x && MayWrite(log, r) && t != r.tid
    ensures OwnerOk(log + [r], x, t)
  {
    TakeOfAppend(log, r);
    PendingAppend(log, r, t, x);
    assert OwnerOk(log, x, t);
    if Live(log + [r], t) {
      OwnsAppend(log, r, t, x);
      UntouchedNoPending(log, t, x);
    }
  }

  lemma WriteSelf(log: Log, r: Record, x: Rid)
    requires SlotInv(log, x) && IsData(r) && r.rid == x && MayWrite(log, r)
    ensures OwnerOk(log + [r], x, r.tid)
  {
    TakeOfAppend(log, r);
    PendingAppend(log, r, r.tid, x);
    assert OwnerOk(log, x, r.tid);
    OwnsAppend(log, r, r.tid, x);
    WriteBase(log, r, x);
    CommittedSkip(log, x, log, r);
    TakeOfAppend(Pending(log, r.tid, x), r);
  }

  lemma WriteOwner(log: Log, r: Record, x: Rid, t: Tid)
    requires SlotInv(log, x) && IsData(r) && r.rid == x && MayWrite(log, r)
    ensures OwnerOk(log + [r], x, t)
  {
    if t == r.tid { WriteSelf(log, r, x); } else { WriteOther(log, r, x, t); }
  }

  lemma SlotInvWrite(log: Log, r: Record, x: Rid)
    requires SlotInv(log, x) && IsData(r) && r.rid == x && MayWrite(log, r)
    ensures SlotInv(log + [r], x)
  {
    forall t ensures OwnerOk(log + [r], x, t) { WriteOwner(log, r, x, t); }
    assert Live(log + [r], r.tid);
    PendingAppend(log, r, r.tid, x);
  }

  lemma {:induction false} ChainAllocates(s: Slot, us: seq<Record>)
    requires AcceptedChain(s, us) && us != []
    ensures ApplyAll(s, us).alloc
  {
  }

  /** A compensation takes the newest pending record off the slot; an insertion that goes
      leaves a dead slot. */
  lemma CompensateEffect(c: Slot, p: seq<Record>, u: Record)
    requires IsData(u) && AcceptedChain(c, p + [u])
    ensures AcceptedChain(c, p)
    ensures var s := ApplySlot(ApplyAll(c, p + [u]), ClrOf(u));
            s == ApplyAll(c, p) || (p == [] && Dead(s, c))
    ensures p != [] ==> ApplySlot(ApplyAll(c, p + [u]), ClrOf(u)) == ApplyAll(c, p)
  {
    assert Init(p + [u]) == p && Last(p + [u]) == u;
    if p != [] { ChainAllocates(c, p); }
  }

  lemma CompensateOwner(log: Log, r: Record, x: Rid, t: Tid)
    requires SlotInv(log, x) && IsClr(r) && r.rid == x && MayCompensate(log, r)
    ensures OwnerOk(log + [r], x, t)
    ensures t != r.tid && Live(log + [r], t) ==> Pending(log + [r], t, x) == []
    ensures t == r.tid ==>
              var s, c := SlotOf(log + [r], x), CommittedSlot(log + [r], x, log + [r]);
              Pending(log + [r], t, x) == [] ==> s == c || Dead(s, c)
  {
    TakeOfAppend(log, r);
    CommittedSkip(log, x, log, r);
    PendingAppend(log, r, t, x);
    PendingAppend(log, r, r.tid, x);
    assert OwnerOk(log, x, t) && OwnerOk(log, x, r.tid);
    var u := Last(UndoStack(log, r.tid));
    if Live(log + [r], t) {
      if t == r.tid {
        OwnsAppend(log, r, t, x);
        CompensateEffect(CommittedSlot(log, x, log), Pending(log + [r], t, x), u);
      } else {
        assert Pending(log, r.tid, x) != [];
        var j := PendingTouch(log, r.tid, x);
        assert Untouched(log, t, x) by {
          forall v | v in log ensures !Touches(v, t, x) {
            var i :| 0 <= i < |log| && log[i] == v;
          }
        }
        OwnsAppend(log, r, t, x);
        UntouchedNoPending(log, t, x);
      }
    }
  }

  lemma SlotInvCompensate(log: Log, r: Record, x: Rid)
    requires SlotInv(log, x) && IsClr(r) && r.rid == x && MayCompensate(log, r)
    ensures SlotInv(log + [r], x)
  {
    forall t ensures OwnerOk(log + [r], x, t) { CompensateOwner(log, r, x, t); }
    CompensateOwner(log, r, x, r.tid);
    assert Live(log + [r], r.tid);
  }

  lemma {:induction false} SlotInvHolds(log: Log, x: Rid)
    requires WellFormed(log)
    ensures SlotInv(log, x)
  {
    if log != [] {
      WellFormedInit(log);
      SlotInvHolds(Init(log), x);
      var r := Last(log);
      if r.Commit? { SlotInvCommit(Init(log), r.tid, x); }
      else if IsPageRecord(r) && r.rid == x {
        if IsData(r) { SlotInvWrite(Init(log), r, x); } else { SlotInvCompensate(Init(log), r, x); }
      } else { SlotInvBystander(Init(log), r, x); }
    }
  }

  /** Repeating history equals replaying the winners, as soon as nobody who touched the slot
      is still live. */
  lemma HistoryIsCommittedReplay(log: Log, x: Rid)
    requires WellFormed(log)
    requires forall t :: Live(log, t) ==> Untouched(log, t, x)
    ensures VisibleRow(SlotOf(log, x)) == VisibleRow(CommittedSlot(log, x, log))
  {
    SlotInvHolds(log, x);
    forall t | Live(log, t) ensures Pending(log, t, x) == [] { UntouchedNoPending(log, t, x); }
  }
}
