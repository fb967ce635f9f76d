/** What a committed row is, read off the records: the image of the newest committed change of
    its slot, and no row when that change is a deletion or there is none. */
module CommittedRows {
  import opened LogModel
  import opened CommittedReplay
  import opened Rollback

  /** `log[i]` is the newest change of the slot by a transaction that has committed. */
  ghost predicate NewestCommitted(log: Log, x: Rid, i: nat) {
    && i < |log| && IsData(log[i]) && log[i].rid == x && Commit(log[i].tid) in log
    && forall j :: i < j < |log| && IsData(log[j]) && log[j].rid == x ==> Commit(log[j].tid) !in log
  }

  ghost predicate NeverCommitted(log: Log, x: Rid) {
    forall j :: 0 <= j < |log| && IsData(log[j]) && log[j].rid == x ==> Commit(log[j].tid) !in log
  }

  /** `row` is the image of the newest committed change of the slot: its new bytes, or no row for a
      deletion and for a slot without such a change. */
  ghost predicate IsCommittedRow(log: Log, x: Rid, row: Option<Bytes>) {
    && (NeverCommitted(log, x) ==> row == None)
    && (forall i: nat :: NewestCommitted(log, x, i) ==> row == if log[i].Delete? then None else Some(log[i].after))
  }

  /** A slot nobody has inserted into is free. */
  lemma {:induction false} AllocatedOrFree(log: Log, x: Rid)
    requires WellFormed(log)
    ensures SlotOf(log, x).alloc || SlotOf(log, x) == FREE_SLOT
    ensures (exists r :: r in log && IsPageRecord(r) && r.rid == x) ==> SlotOf(log, x).alloc
  {
    if log != [] {
      WellFormedInit(log);
      AllocatedOrFree(Init(log), x);
      var pre, r := Init(log), Last(log);
      if IsClr(r) && r.rid == x {
        StackFromLog(pre, r.tid);
        var u := Last(UndoStack(pre, r.tid));
        assert u in UndoStack(pre, r.tid);
        assert u in pre && IsPageRecord(u) && u.rid == x;
      }
    }
  }

  /** The row an accepted change leaves. */
  lemma WrittenRow(log: Log, r: Record)
    requires WellFormed(log) && IsData(r) && SlotAccepts(SlotOf(log, r.rid), r)
    ensures r.Insert? || r.Update? ==> VisibleRow(ApplySlot(SlotOf(log, r.rid), r)) == Some(r.after)
    ensures r.Delete? ==> VisibleRow(ApplySlot(SlotOf(log, r.rid), r)) == None
  {
    AllocatedOrFree(log, r.rid);
  }

  lemma {:induction false} SlotUnchanged(log: Log, i: nat, n: nat, x: Rid)
    requires i <= n <= |log| && forall k :: i <= k < n && IsPageRecord(log[k]) ==> log[k].rid != x
    ensures SlotOf(log[..n], x) == SlotOf(log[..i], x)
  {
    if i < n {
      SlotUnchanged(log, i, n - 1, x);
      TakeSucc(log, n - 1);
    }
  }

  /** A transaction that commits never compensates. */
  lemma CommittedNeverCompensates(log: Log, k: nat)
    requires WellFormed(log) && k < |log| && IsClr(log[k])
    ensures Commit(log[k].tid) !in log
  {
    forall j | 0 <= j < |log| ensures log[j] != Commit(log[k].tid) { CompensatesApart(log, k, j); }
  }

  lemma CompensatesApart(log: Log, k: nat, j: nat)
    requires WellFormed(log) && k < |log| && j < |log| && IsClr(log[k])
    ensures log[j] != Commit(log[k].tid)
  {
    assert Admitted(log, j) && Admitted(log, k);
    if k < j { assert log[..j][k] == log[k]; }
    if j < k { assert log[..k][j] == log[j]; }
  }

  lemma {:induction false} NothingCommittedSince(log: Log, n: nat, m: nat, x: Rid, full: Log)
    requires n <= m <= |log|
    requires forall k :: n <= k < m && IsPageRecord(log[k]) && log[k].rid == x ==> Commit(log[k].tid) !in full
    ensures CommittedSlot(log[..m], x, full) == CommittedSlot(log[..n], x, full)
  {
    if n < m {
      NothingCommittedSince(log, n, m - 1, x, full);
      TakeSucc(log, m - 1);
    }
  }

  /** After a committed change and up to the commit, the slot is changed by nobody; `log[..n]` ends
      with the commit. */
  lemma CommitPoint(log: Log, x: Rid, i: nat) returns (n: nat)
    requires WellFormed(log) && NewestCommitted(log, x, i)
    ensures i + 1 < n <= |log| && log[n - 1] == Commit(log[i].tid)
    ensures forall k :: i < k < n && IsPageRecord(log[k]) ==> log[k].rid != x
    ensures forall u :: Live(log[..n], u) ==> Untouched(log[..n], u, x)
  {
    var j :| 0 <= j < |log| && log[j] == Commit(log[i].tid);
    n := j + 1;
    AfterChange(log, i, j);
    WellFormedPrefix(log, j);
    SlotInvHolds(log[..j], x);
    assert Admitted(log, j);
    assert OwnerOk(log[..j], x, log[i].tid) && Touches(log[..j][i], log[i].tid, x);
    forall k | i < k < n && IsPageRecord(log[k]) ensures log[k].rid != x {
      if IsClr(log[k]) { CommittedNeverCompensates(log, k); }
      if k < j { assert log[..j][k] == log[k]; }
    }
    forall u | Live(log[..n], u) ensures Untouched(log[..n], u, x) { OthersUntouched(log, x, i, n, u); }
  }

  lemma AfterChange(log: Log, i: nat, j: nat)
    requires WellFormed(log) && i < |log| && j < |log| && IsData(log[i]) && log[j] == Commit(log[i].tid)
    ensures i < j
  {
    assert Admitted(log, i);
    forall k | 0 <= k < i ensures log[k] != Commit(log[i].tid) { assert log[..i][k] == log[k]; }
  }

  lemma OthersUntouched(log: Log, x: Rid, i: nat, n: nat, u: Tid)
    requires WellFormed(log) && i + 1 < n <= |log| && IsData(log[i]) && log[i].rid == x && log[n - 1] == Commit(log[i].tid)
    requires forall k :: i < k < n && IsPageRecord(log[k]) ==> log[k].rid != x
    requires Live(log[..n], u)
    ensures Untouched(log[..n], u, x)
  {
    assert log[..n][n - 1] == log[n - 1];
    assert u != log[i].tid;
    assert Admitted(log, i);
    if !Untouched(log[..i], u, x) { LiveBefore(log, i, n, u, x); }
    forall r | r in log[..n] ensures !Touches(r, u, x) {
      var k :| 0 <= k < n && log[..n][k] == r;
      if k < i { assert log[..i][k] == r; }
    }
  }

  /** The committed row of a slot is the image of its newest committed change. */
  lemma NewestCommittedRow(log: Log, x: Rid, i: nat)
    requires WellFormed(log) && NewestCommitted(log, x, i)
    ensures log[i].Insert? || log[i].Update? ==> VisibleRow(CommittedSlot(log, x, log)) == Some(log[i].after)
    ensures log[i].Delete? ==> VisibleRow(CommittedSlot(log, x, log)) == None
  {
    var n := CommitPoint(log, x, i);
    assert Admitted(log, i);
    WellFormedPrefix(log, i);
    WrittenRow(log[..i], log[i]);
    TakeSucc(log, i);
    SlotUnchanged(log, i + 1, n, x);
    WellFormedPrefix(log, n);
    HistoryIsCommittedReplay(log[..n], x);
    CommittedStable(log, n, n, |log|, x);
    forall k | n <= k < |log| && IsPageRecord(log[k]) && log[k].rid == x ensures Commit(log[k].tid) !in log {
      if IsClr(log[k]) { CommittedNeverCompensates(log, k); }
    }
    NothingCommittedSince(log, n, |log|, x, log);
    assert log[..|log|] == log;
  }

  /** A slot no committed transaction has changed has no row. */
  lemma NeverCommittedRow(log: Log, x: Rid)
    requires WellFormed(log) && NeverCommitted(log, x)
    ensures VisibleRow(CommittedSlot(log, x, log)) == None
  {
    forall k | 0 <= k < |log| && IsPageRecord(log[k]) && log[k].rid == x ensures Commit(log[k].tid) !in log {
      if IsClr(log[k]) { CommittedNeverCompensates(log, k); }
    }
    NothingCommittedSince(log, 0, |log|, x, log);
    assert log[..|log|] == log && log[..0] == [];
  }

  /** The committed replay leaves the committed rows. */
  lemma ReplayLeavesCommittedRow(log: Log, x: Rid)
    requires WellFormed(log)
    ensures IsCommittedRow(log, x, VisibleRow(CommittedSlot(log, x, log)))
  {
    if NeverCommitted(log, x) { NeverCommittedRow(log, x); }
    forall i: nat | NewestCommitted(log, x, i)
      ensures VisibleRow(CommittedSlot(log, x, log)) == if log[i].Delete? then None else Some(log[i].after)
    {
      NewestCommittedRow(log, x, i);
    }
  }
}
