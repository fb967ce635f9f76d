/** Rolling back operations on a slot the table heap never checked.

    `DeleteTuple` and `UpdateTuple` test only that a tuple is not deleted, never that its slot
    is allocated.  On allocated slots rollback restores the visible row; this module says what
    happens on any slot, and when rollback fails. */
module FreeSlotDelete {
  import opened LogModel

  /** What the code itself tests. */
  predicate Tested(s: Slot, u: Record)
    requires IsData(u)
  {
    match u
    case Insert(_, _, _) => !s.alloc
    case Update(_, _, _, b) => !s.deleted && s.bytes == b
    case Delete(_, _) => !s.deleted
  }

  ghost predicate TestedChain(s: Slot, us: seq<Record>) {
    us != [] ==>
      TestedChain(s, Init(us)) && IsData(Last(us)) && Tested(ApplyAll(s, Init(us)), Last(us))
  }

  /** Compensations of `us`, newest first. */
  ghost function RollBack(s: Slot, us: seq<Record>): Slot
    decreases |us|
  {
    if us == [] || !IsData(Last(us)) then s
    else RollBack(ApplySlot(s, ClrOf(Last(us))), Init(us))
  }

  /** The first insertion or deletion of a chain. */
  ghost function FirstMark(us: seq<Record>): Option<Record> {
    if us == [] then None
    else if FirstMark(Init(us)).Some? then FirstMark(Init(us))
    else if Last(us).Insert? || Last(us).Delete? then Some(Last(us))
    else None
  }

  ghost function FirstUpdate(us: seq<Record>): Option<Record> {
    if us == [] then None
    else if FirstUpdate(Init(us)).Some? then FirstUpdate(Init(us))
    else if Last(us).Update? then Some(Last(us))
    else None
  }

  ghost predicate Inserts(us: seq<Record>) { exists u :: u in us && u.Insert? }

  ghost predicate AllData(us: seq<Record>) { forall u :: u in us ==> IsData(u) }

  lemma {:induction false} RollBackEffect(s: Slot, us: seq<Record>)
    requires AllData(us)
    decreases |us|
    ensures FirstMark(us).Some? ==> FirstMark(us).value.Insert? || FirstMark(us).value.Delete?
    ensures FirstUpdate(us).Some? ==> FirstUpdate(us).value.Update?
    ensures var r := RollBack(s, us);
            && r.alloc == s.alloc
            && (r.deleted <==> if FirstMark(us).Some? then FirstMark(us).value.Insert? else s.deleted)
            && r.bytes == if FirstUpdate(us).Some? then FirstUpdate(us).value.before else s.bytes
  {
    if us != [] {
      assert Last(us) in us;
      RollBackEffect(ApplySlot(s, ClrOf(Last(us))), Init(us));
    }
  }

  lemma {:induction false} ChainEffect(s: Slot, us: seq<Record>)
    requires TestedChain(s, us)
    ensures AllData(us)
    ensures ApplyAll(s, us).alloc <==> s.alloc || Inserts(us)
    ensures Inserts(us) ==> !s.alloc && FirstMark(us).Some?
    ensures FirstMark(us) == None ==> ApplyAll(s, us).deleted == s.deleted
    ensures FirstMark(us).Some? && FirstMark(us).value.Delete? ==> !s.deleted
    ensures !Inserts(us) && FirstUpdate(us) == None ==> ApplyAll(s, us).bytes == s.bytes
    ensures !Inserts(us) && FirstUpdate(us).Some? ==> FirstUpdate(us).value.Update? && FirstUpdate(us).value.before == s.bytes
    ensures !Inserts(us) && FirstMark(us).Some? ==> FirstMark(us).value.Delete?
  {
    if us != [] {
      ChainEffect(s, Init(us));
      assert us == Init(us) + [Last(us)];
      assert Inserts(us) <==> Inserts(Init(us)) || Last(us).Insert? by {
        if Inserts(Init(us)) { var u :| u in Init(us) && u.Insert?; assert u in us; }
        if Last(us).Insert? { assert Last(us) in us; }
      }
    }
  }

  /** Rollback restores the visible row if and only if no deletion of the free slot came before
      an insertion into it. */
  lemma RollBackRestoresIff(s: Slot, us: seq<Record>)
    requires TestedChain(s, us)
    ensures VisibleRow(RollBack(ApplyAll(s, us), us)) == VisibleRow(s)
       <==> !(Inserts(us) && FirstMark(us).Some? && FirstMark(us).value.Delete?)
  {
    ChainEffect(s, us);
    RollBackEffect(ApplyAll(s, us), us);
  }

  /** Delete a free slot, insert into it, roll back: the inserted row is left visible. */
  lemma PhantomRow(t: Tid, x: Rid, row: Bytes)
    ensures var us := [Delete(t, x), Insert(t, x, row)];
            && TestedChain(FREE_SLOT, us)
            && VisibleRow(FREE_SLOT) == None
            && VisibleRow(RollBack(ApplyAll(FREE_SLOT, us), us)) == Some(row)
  {
    var us := [Delete(t, x), Insert(t, x, row)];
    assert Init(us) == [Delete(t, x)] && Init(Init(us)) == [];
    assert TestedChain(FREE_SLOT, Init(Init(us)));
    assert TestedChain(FREE_SLOT, Init(us));
    assert ApplyAll(FREE_SLOT, us) == Slot(true, true, row);
    assert RollBack(Slot(true, true, row), us) == RollBack(Slot(true, true, row), [Delete(t, x)]);
    assert RollBack(Slot(true, true, row), [Delete(t, x)]) == RollBack(Slot(true, false, row), Init([Delete(t, x)]));
  }
}
