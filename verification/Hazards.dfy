/** Every clause of `Careful` is needed: for each there is a run in which a single event breaks only
    this clause, and after which recovery shows a wrong row or has lost an acknowledged commit. */
module Hazards {
  import opened LogModel
  import opened Engine
  import opened SlipRuns

  const P := PageId(1, 0)
  const Q := PageId(1, 1)
  const X := Rid(P, 0)
  const Y := Rid(P, 1)
  const Z := Rid(Q, 0)
  const A: Bytes := [1]
  const B: Bytes := [2]

  /** The page with one row in its first slot. */
  function Row(lsn: Lsn, row: Bytes): Page { Page(lsn, map[0 := Slot(true, false, row)]) }

  function Resident(page: Page, dirty: bool, recLsn: Lsn): Frame { Frame(page, dirty, false, recLsn) }

  /** Transaction 1 has inserted a row into page `p` and unpinned the page. */
  lemma Inserted(n: nat, p: PageId) returns (es: seq<Event>, s: State)
    requires n >= 7
    ensures Trip(es, n, s) && |es| == 7
    ensures var u := Insert(1, Rid(p, 0), A);
            s == READY.(log := [Begin(1), u], cache := map[p := Resident(Row(1, A), true, 1)],
                        active := map[1 := Txn(0, [u], Active, None)])
  {
    es := Boot(n);
    es, s := DoLoad(es, n, READY, p, 0);
    es, s := DoBegin(es, n, s, 1);
    es, s := DoInsert(es, n, s, 1, Rid(p, 0), A);
    assert EMPTY_PAGE.slots[0 := Slot(true, false, A)] == map[0 := Slot(true, false, A)];
    assert DiskPage(READY.disk, p) == EMPTY_PAGE && SlotOn(EMPTY_PAGE, 0) == FREE_SLOT;
    assert s.cache[p].page == Row(1, A);
    assert s.cache[p] == Frame(Row(1, A), false, true, 1);
    es, s := DoMark(es, n, s, p);
    assert s.cache == map[p := Resident(Row(1, A), true, 1)];
    assert s.log == [Begin(1), Insert(1, Rid(p, 0), A)];
    assert s.active[1].undo == [Insert(1, Rid(p, 0), A)];
    assert s.active == map[1 := Txn(0, [Insert(1, Rid(p, 0), A)], Active, None)];
  }

  /** ... and the page has been flushed. */
  lemma Flushed(n: nat, p: PageId) returns (es: seq<Event>, s: State)
    requires n >= 9
    ensures Trip(es, n, s) && |es| == 9
    ensures var u := Insert(1, Rid(p, 0), A);
            s == READY.(log := [Begin(1), u], durable := 2, disk := map[p := Row(1, A)],
                        cache := map[p := Resident(Row(1, A), false, 1)], active := map[1 := Txn(0, [u], Active, None)])
  {
    es, s := Inserted(n, p);
    es, s := DoFlushLog(es, n, s);
    es, s := DoFlushPage(es, n, s, p);
    assert s.cache == map[p := Resident(Row(1, A), false, 1)];
    assert s.disk == map[p := Row(1, A)];
  }

  /** ... and the transaction is rolling back, its compensation logged and not yet applied. */
  lemma RollingBack(n: nat, es0: seq<Event>, s0: State, u: Record) returns (es: seq<Event>, s: State)
    requires Trip(es0, n, s0) && s0.phase.Running? && IsData(u) && s0.active == map[1 := Txn(0, [u], Active, None)]
    ensures Trip(es, n, s) && |es| == |es0| + 2
    ensures s == s0.(log := s0.log + [ClrOf(u)], active := map[1 := Txn(0, [], Aborting, Some(|s0.log|))])
  {
    es, s := DoStartAbort(es0, n, s0, 1);
    es, s := DoLogClr(es, n, s, 1, u);
    assert s.active == map[1 := Txn(0, [], Aborting, Some(|s0.log|))];
  }

  /** Begin record and snapshots of a checkpoint while no transaction is live. */
  lemma QuietSnapshots(es0: seq<Event>, n: nat, s0: State, dpt: map<PageId, Lsn>) returns (es: seq<Event>, s: State)
    requires Trip(es0, n, s0) && s0.phase.Running? && s0.ckpt.Idle? && s0.active == map[]
    requires dpt == DirtyTable(s0) && (|es0| + 1 == n || NothingHidden(s0))
    ensures Trip(es, n, s) && es0 <= es && |es| == |es0| + 3 && es[|es0| + 1] == SnapshotPages
    ensures s == s0.(log := s0.log + [BeginCheckpoint], ckpt := TxnsSeen(|s0.log|, dpt, map[]))
  {
    es, s := DoCheckpointBegin(es0, n, s0);
    es, s := DoSnapshotPages(es, n, s, dpt);
    es, s := DoSnapshotTxns(es, n, s, map[]);
  }

  /** A whole checkpoint while no transaction is live. */
  lemma QuietCheckpoint(es0: seq<Event>, n: nat, s0: State, dpt: map<PageId, Lsn>, tr: Lsn) returns (es: seq<Event>, s: State)
    requires Trip(es0, n, s0) && s0.phase.Running? && s0.ckpt.Idle? && s0.active == map[] && s0.durable <= |s0.log|
    requires dpt == DirtyTable(s0) && IsLeast(tr, |s0.log|, map[], dpt) && (|es0| + 1 == n || NothingHidden(s0))
    requires tr <= |s0.log| && forall c :: 0 <= c < |s0.log| ==> !s0.log[c].EndCheckpoint?
    ensures Trip(es, n, s) && es0 <= es && |es| == |es0| + 6 && es[|es0| + 1] == SnapshotPages
    ensures s == s0.(log := s0.log + [BeginCheckpoint, EndCheckpoint(map[], dpt)], durable := |s0.log| + 2, master := tr)
  {
    es, s := QuietSnapshots(es0, n, s0, dpt);
    es, s := DoCheckpointEnd(es, n, s, tr);
    es, s := DoFlushLog(es, n, s);
    assert s.log == s0.log + [BeginCheckpoint, EndCheckpoint(map[], dpt)];
    es, s := DoWriteMaster(es, n, s, tr, |s0.log| + 1);
  }

  // ---------------------------------------------------------------- the write-back of a victim

  lemma VictimWritten() returns (es: seq<Event>, s: State)
    ensures Trip(es, 9, s) && |es| == 11
    ensures s == State([Begin(1)], 1, map[P := Row(1, A)], 0, map[], map[], multiset{}, map[], Idle, Restarted, {}, [Begin(1)])
    ensures es[9] == FinishVictim(P)
  {
    es, s := Inserted(9, P);
    es := Do(es, 9, s, FlushLog(1));
    s := After(s, FlushLog(1));
    es, s := DoTakeVictim(es, 9, s, P);
    es, s := DoFinishVictim(es, 9, s, P);
    es, s := DoCrash(es, 9, s);
    assert s.log == [Begin(1)] && s.disk == map[P := Row(1, A)];
  }

  /** The wait before the write-back of a victim returns one record too early: the page is stored
      with an insertion whose record is lost in the crash. */
  lemma UnloggedInsertSurvives() returns (es: seq<Event>)
    ensures WrongRow(es, 9, X)
    ensures es[9] == FinishVictim(P)
  {
    var s: State;
    es, s := VictimWritten();
    assert Analyze(s.log, 0, 1) == Tables(map[], map[1 := 0], {});
    es, s := DoRecover(es, 9, s, P, Tables(map[], map[1 := 0], {}), 0, 0, map[1 := Txn(0, [], Aborting, None)]);
    es, s := EndAbort(es, 9, s, 1);
    assert SlotOn(CurrentPage(s, P), 0) == Slot(true, false, A);
    assert CommittedSlot([Begin(1)], X, [Begin(1)]) == FREE_SLOT;
    EndsWrong(es, 9, s, X);
  }

  // ---------------------------------------------------------------- the wait of a commit

  /** The wait of a Commit returns one record too early: the commit is acknowledged and lost. */
  lemma AcknowledgedCommitLost() returns (es: seq<Event>)
    ensures 9 < |es| && CarefulBut(es, 9) && Run(es).Some? && Run(es).value.phase.Restarted?
    ensures 1 in Run(es).value.acked && Commit(1) !in Run(es).value.crashLog
    ensures es[9] == Acknowledge(1)
  {
    var s: State;
    es, s := Inserted(9, P);
    es, s := DoFlushLog(es, 9, s);
    es, s := DoLogCommit(es, 9, s, 1);
    es, s := DoAcknowledge(es, 9, s, 1, 2);
    es, s := DoCrash(es, 9, s);
    assert s.crashLog == [Begin(1), Insert(1, X, A)];
    TripRun(es, 9, s);
  }

  // ---------------------------------------------------------------- a page stored without a compensation

  const SKIPPED_LOG := [Begin(1), Insert(1, X, A), InsertCLR(1, X), Begin(2), Insert(2, Y, B), Commit(2)]
  const SKIPPED_PAGE := Page(4, map[0 := Slot(true, false, A), 1 := Slot(true, false, B)])

  lemma OtherBegun() returns (es: seq<Event>, s: State)
    ensures Trip(es, 15, s) && |es| == 10
    ensures s == READY.(log := SKIPPED_LOG[..4], cache := map[P := Resident(Row(1, A), true, 1)],
                        active := map[1 := Txn(0, [], Aborting, Some(2)), 2 := Txn(3, [], Active, None)])
  {
    es, s := Inserted(15, P);
    es, s := RollingBack(15, es, s, Insert(1, X, A));
    es, s := DoBegin(es, 15, s, 2);
    assert s.log == SKIPPED_LOG[..4];
  }

  lemma WrittenPast() returns (es: seq<Event>, s: State)
    ensures Trip(es, 15, s) && |es| == 12
    ensures s == READY.(log := SKIPPED_LOG[..5], cache := map[P := Resident(SKIPPED_PAGE, true, 1)],
                        active := map[1 := Txn(0, [], Aborting, Some(2)), 2 := Txn(3, [Insert(2, Y, B)], Active, None)])
  {
    es, s := OtherBegun();
    es, s := DoInsert(es, 15, s, 2, Y, B);
    assert Row(1, A).slots[1 := Slot(true, false, B)] == SKIPPED_PAGE.slots;
    es, s := DoMark(es, 15, s, P);
    assert s.log == SKIPPED_LOG[..5];
    assert s.cache == map[P := Resident(SKIPPED_PAGE, true, 1)];
    assert s.active[2].undo == [Insert(2, Y, B)];
    assert s.active == map[1 := Txn(0, [], Aborting, Some(2)), 2 := Txn(3, [Insert(2, Y, B)], Active, None)];
  }

  lemma StoredPast() returns (es: seq<Event>, s: State)
    ensures Trip(es, 15, s) && |es| == 17
    ensures s == State(SKIPPED_LOG, 6, map[P := SKIPPED_PAGE], 0, map[], map[], multiset{}, map[], Idle, Restarted, {2}, SKIPPED_LOG)
    ensures es[15] == FlushPage(P)
  {
    es, s := WrittenPast();
    es, s := EndCommit(es, 15, s, 2);
    assert s.log == SKIPPED_LOG;
    es, s := DoFlushPage(es, 15, s, P);
    es, s := DoCrash(es, 15, s);
    assert s.log == SKIPPED_LOG && s.disk == map[P := SKIPPED_PAGE];
  }

  lemma SkippedTables()
    ensures Analyze(SKIPPED_LOG, 0, 6) == Tables(map[P := 1], map[1 := 0], {2})
    ensures Losers(SKIPPED_LOG, map[1 := 0], 0) == map[1 := Txn(0, [], Aborting, None)]
  {
    assert Analyze(SKIPPED_LOG, 0, 1) == Tables(map[], map[1 := 0], {});
    assert Analyze(SKIPPED_LOG, 0, 3) == Tables(map[P := 1], map[1 := 0], {});
    assert Analyze(SKIPPED_LOG, 0, 5) == Tables(map[P := 1], map[1 := 0, 2 := 3], {});
    assert Rebuild(SKIPPED_LOG, 0, 2, 1) == [Insert(1, X, A)];
    assert Rebuild(SKIPPED_LOG, 0, 3, 1) == [];
    assert Rebuild(SKIPPED_LOG, 0, 6, 1) == [];
  }

  lemma SkippedRecovered() returns (es: seq<Event>, s: State)
    ensures Trip(es, 15, s) && |es| > 15
    ensures s == State(SKIPPED_LOG, 6, map[P := SKIPPED_PAGE], 0, map[P := Resident(SKIPPED_PAGE, false, 0)], map[],
                       multiset{}, map[1 := Txn(0, [], Aborting, None)], Idle, Undo, {2}, SKIPPED_LOG)
    ensures es[15] == FlushPage(P)
  {
    es, s := StoredPast();
    SkippedTables();
    es, s := DoRecover(es, 15, s, P, Tables(map[P := 1], map[1 := 0], {2}), 0, 0, map[1 := Txn(0, [], Aborting, None)]);
  }

  /** A page is stored between the append and the application of a compensation, with a page LSN
      past it: redo skips the compensation, the rebuilt undo log has it already, and the row of the
      aborted transaction is visible. */
  lemma AbortedRowSurvives() returns (es: seq<Event>)
    ensures WrongRow(es, 15, X)
    ensures es[15] == FlushPage(P)
  {
    var s: State;
    es, s := SkippedRecovered();
    es, s := EndAbort(es, 15, s, 1);
    NotCommitted(SKIPPED_LOG, X, SKIPPED_LOG);
    AbortedVisible(es, 15, s, X, A);
  }

  /** A run that ends with a row of an aborted transaction on its page. */
  lemma AbortedVisible(es: seq<Event>, n: nat, s: State, x: Rid, row: Bytes)
    requires Trip(es, n, s) && |es| > n && s.phase.Undo? && s.active == map[]
    requires SlotOn(CurrentPage(s, x.page), x.slot) == Slot(true, false, row)
    requires CommittedSlot(s.crashLog, x, s.crashLog) == FREE_SLOT
    ensures WrongRow(es, n, x)
  {
    EndsWrong(es, n, s, x);
  }

  lemma {:induction false} NotCommitted(log: Log, x: Rid, full: Log)
    requires forall r :: r in log && IsPageRecord(r) && r.rid == x ==> Commit(r.tid) !in full
    ensures CommittedSlot(log, x, full) == FREE_SLOT
  {
    if log != [] { NotCommitted(Init(log), x, full); }
  }

  // ---------------------------------------------------------------- a dirty page on its way out

  lemma VictimHidden() returns (es: seq<Event>, s: State)
    ensures Trip(es, 12, s) && |es| == 18
    ensures var log := [Begin(1), Insert(1, X, A), Commit(1), BeginCheckpoint, EndCheckpoint(map[], map[])];
            s == State(log, 5, map[], 3, map[], map[], multiset{}, map[], Idle, Restarted, {1}, log)
    ensures es[12] == SnapshotPages
  {
    es, s := Inserted(12, P);
    es, s := EndCommit(es, 12, s, 1);
    es, s := DoTakeVictim(es, 12, s, P);
    assert s.active == map[] && s.cache == map[];
    es, s := QuietCheckpoint(es, 12, s, map[], 3);
    es, s := DoCrash(es, 12, s);
    assert s.log == [Begin(1), Insert(1, X, A), Commit(1), BeginCheckpoint, EndCheckpoint(map[], map[])];
  }

  /** The page snapshot of a checkpoint misses a dirty victim, the scan starts behind its record,
      and the committed row is gone. */
  lemma HiddenVictimLosesCommit() returns (es: seq<Event>)
    ensures WrongRow(es, 12, X)
    ensures es[12] == SnapshotPages
  {
    var s: State;
    es, s := VictimHidden();
    assert Analyze(s.log, 3, 4) == NO_TABLES;
    assert Analyze(s.log, 3, 5) == NO_TABLES;
    es, s := DoRecover(es, 12, s, P, NO_TABLES, 3, 3, map[]);
    assert s.log[2] == Commit(1);
    CommittedRow(s.log, s.log);
    CommittedMissing(es, 12, s);
  }

  /** The committed row of a log whose only page record is the insertion. */
  lemma {:induction false} CommittedRow(log: Log, full: Log)
    requires |log| >= 2 && log[0] == Begin(1) && log[1] == Insert(1, X, A) && Commit(1) in full
    requires forall i :: 2 <= i < |log| ==> !IsPageRecord(log[i])
    ensures CommittedSlot(log, X, full) == Slot(true, false, A)
  {
    if |log| == 2 {
      assert Init(log) == [Begin(1)] && Init([Begin(1)]) == [];
      assert CommittedSlot([Begin(1)], X, full) == FREE_SLOT;
    } else {
      CommittedRow(Init(log), full);
    }
  }

  lemma CommittedMissing(es: seq<Event>, n: nat, s: State)
    requires Trip(es, n, s) && |es| > n && s.phase.Undo? && s.active == map[]
    requires P in s.cache && VisibleRow(SlotOn(s.cache[P].page, 0)) == None
    requires CommittedSlot(s.crashLog, X, s.crashLog) == Slot(true, false, A)
    ensures WrongRow(es, n, X)
  {
    EndsWrong(es, n, s, X);
  }

  // ---------------------------------------------------------------- a changed page not marked yet

  lemma UnmarkedSnapshot() returns (es: seq<Event>, s: State)
    ensures Trip(es, 7, s) && |es| == 8 && es[7] == SnapshotPages
    ensures s == READY.(log := [Begin(1), Insert(1, X, A), BeginCheckpoint], cache := s.cache,
                        active := map[1 := Txn(0, [Insert(1, X, A)], Active, None)], ckpt := PagesSeen(2, map[]))
    ensures P in s.cache
  {
    es := Boot(7);
    es, s := DoLoad(es, 7, READY, P, 0);
    es, s := DoBegin(es, 7, s, 1);
    es, s := DoInsert(es, 7, s, 1, X, A);
    assert s.active[1].undo == [Insert(1, X, A)];
    es, s := DoCheckpointBegin(es, 7, s);
    es, s := DoSnapshotPages(es, 7, s, map[]);
    assert s.log == [Begin(1), Insert(1, X, A), BeginCheckpoint];
    assert s.active == map[1 := Txn(0, [Insert(1, X, A)], Active, None)];
  }

  lemma UnmarkedCommitted() returns (es: seq<Event>, s: State)
    ensures Trip(es, 7, s) && |es| == 12 && es[7] == SnapshotPages
    ensures s == READY.(log := [Begin(1), Insert(1, X, A), BeginCheckpoint, Commit(1)], durable := 4, cache := s.cache,
                        ckpt := PagesSeen(2, map[]), acked := {1})
  {
    es, s := UnmarkedSnapshot();
    es, s := DoMark(es, 7, s, P);
    es, s := EndCommit(es, 7, s, 1);
    assert s.active == map[] && s.log == [Begin(1), Insert(1, X, A), BeginCheckpoint, Commit(1)];
  }

  lemma UnmarkedHidden() returns (es: seq<Event>, s: State)
    ensures Trip(es, 7, s) && |es| == 17
    ensures var log := [Begin(1), Insert(1, X, A), BeginCheckpoint, Commit(1), EndCheckpoint(map[], map[])];
            s == State(log, 5, map[], 2, map[], map[], multiset{}, map[], Idle, Restarted, {1}, log)
    ensures es[7] == SnapshotPages
  {
    es, s := UnmarkedCommitted();
    es, s := DoSnapshotTxns(es, 7, s, map[]);
    es, s := DoCheckpointEnd(es, 7, s, 2);
    es, s := DoFlushLog(es, 7, s);
    es, s := DoWriteMaster(es, 7, s, 2, 4);
    es, s := DoCrash(es, 7, s);
    assert s.log == [Begin(1), Insert(1, X, A), BeginCheckpoint, Commit(1), EndCheckpoint(map[], map[])];
  }

  /** The page snapshot falls between a change and the unpin that marks the page; the transaction
      commits before the transaction snapshot, and the committed row is gone. */
  lemma UnmarkedPageLosesCommit() returns (es: seq<Event>)
    ensures WrongRow(es, 7, X)
    ensures es[7] == SnapshotPages
  {
    var s: State;
    es, s := UnmarkedHidden();
    assert Analyze(s.log, 2, 3) == NO_TABLES;
    assert Analyze(s.log, 2, 4) == Tables(map[], map[], {1});
    assert Analyze(s.log, 2, 5) == Tables(map[], map[], {1});
    es, s := DoRecover(es, 7, s, P, Tables(map[], map[], {1}), 2, 2, map[]);
    assert s.log[3] == Commit(1);
    CommittedRow(s.log, s.log);
    CommittedMissing(es, 7, s);
  }

  // ---------------------------------------------------------------- a compensation not applied yet

  const OPEN_LOG :=
    [Begin(1), Insert(1, X, A), InsertCLR(1, X), BeginCheckpoint, Abort(1), EndCheckpoint(map[], map[])]

  lemma OpenSnapshot() returns (es: seq<Event>, s: State)
    ensures Trip(es, 12, s) && |es| == 15
    ensures s == READY.(log := OPEN_LOG[..4], durable := 2, disk := map[P := Row(1, A)], cache := s.cache,
                        active := map[1 := Txn(0, [], Aborting, None)], ckpt := PagesSeen(3, map[]))
    ensures es[12] == SnapshotPages
  {
    es, s := Flushed(12, P);
    es, s := RollingBack(12, es, s, Insert(1, X, A));
    es, s := DoCheckpointBegin(es, 12, s);
    es, s := DoSnapshotPages(es, 12, s, map[]);
    assert s.log == OPEN_LOG[..4];
    es, s := DoApplyClr(es, 12, s, 1, 2);
    es, s := DoMark(es, 12, s, P);
    assert s.active == map[1 := Txn(0, [], Aborting, None)];
  }

  lemma OpenHidden() returns (es: seq<Event>, s: State)
    ensures Trip(es, 12, s) && |es| == 23
    ensures s == State(OPEN_LOG, 6, map[P := Row(1, A)], 3, map[], map[], multiset{}, map[], Idle, Restarted, {}, OPEN_LOG)
    ensures es[12] == SnapshotPages
  {
    es, s := OpenSnapshot();
    es, s := EndAbort(es, 12, s, 1);
    es, s := DoSnapshotTxns(es, 12, s, map[]);
    es, s := DoCheckpointEnd(es, 12, s, 3);
    es, s := DoFlushLog(es, 12, s);
    assert s.log == OPEN_LOG;
    es, s := DoWriteMaster(es, 12, s, 3, 5);
    es, s := DoCrash(es, 12, s);
    assert s.log == OPEN_LOG && s.disk == map[P := Row(1, A)];
  }

  /** The page snapshot falls between the append and the application of a compensation; the
      rollback ends before the transaction snapshot, the scan starts behind the compensation, and
      the row of the aborted transaction is visible. */
  lemma OpenCompensationLost() returns (es: seq<Event>)
    ensures WrongRow(es, 12, X)
    ensures es[12] == SnapshotPages
  {
    var s: State;
    es, s := OpenHidden();
    assert Analyze(OPEN_LOG, 3, 4) == NO_TABLES;
    assert Analyze(OPEN_LOG, 3, 5) == Tables(map[], map[], {1});
    assert Analyze(OPEN_LOG, 3, 6) == Tables(map[], map[], {1});
    es, s := DoRecover(es, 12, s, P, Tables(map[], map[], {1}), 3, 3, map[]);
    NotCommitted(OPEN_LOG, X, OPEN_LOG);
    AbortedVisible(es, 12, s, X, A);
  }

  // ---------------------------------------------------------------- the recLSN of a used frame

  const REUSED_LOG :=
    [Begin(1), Insert(1, Z, A), InsertCLR(1, Z), Begin(2), Insert(2, X, B), Commit(2), Abort(1),
     BeginCheckpoint, EndCheckpoint(map[], map[Q := 4])]

  /** The page of the compensation is out of the pool. */
  lemma PageOut() returns (es: seq<Event>, s: State)
    ensures Trip(es, 23, s) && |es| == 13
    ensures s == READY.(log := REUSED_LOG[..3], durable := 2, disk := map[Q := Row(1, A)], spare := multiset{1},
                        active := map[1 := Txn(0, [], Aborting, Some(2))])
  {
    es, s := Flushed(23, Q);
    es, s := DoTakeVictim(es, 23, s, Q);
    es, s := DoFinishVictim(es, 23, s, Q);
    es, s := RollingBack(23, es, s, Insert(1, Z, A));
    assert s.cache == map[] && s.victims == map[];
    assert s.log == REUSED_LOG[..3];
  }

  lemma OtherPageIn() returns (es: seq<Event>, s: State)
    ensures Trip(es, 23, s) && |es| == 15
    ensures s == READY.(log := REUSED_LOG[..4], durable := 2, disk := map[Q := Row(1, A)], spare := multiset{1},
                        cache := map[P := Frame(EMPTY_PAGE, false, false, 0)],
                        active := map[1 := Txn(0, [], Aborting, Some(2)), 2 := Txn(3, [], Active, None)])
  {
    es, s := PageOut();
    es, s := DoLoad(es, 23, s, P, 0);
    es, s := DoBegin(es, 23, s, 2);
    assert s.log == REUSED_LOG[..4] && s.spare == multiset{1};
  }

  /** Another page takes a frame and is changed ... */
  lemma OtherPageChanged() returns (es: seq<Event>, s: State)
    ensures Trip(es, 23, s) && |es| == 17
    ensures s == READY.(log := REUSED_LOG[..5], durable := 2, disk := map[Q := Row(1, A)],
                        cache := map[P := Resident(Row(4, B), true, 4)], spare := multiset{1},
                        active := map[1 := Txn(0, [], Aborting, Some(2)), 2 := Txn(3, [Insert(2, X, B)], Active, None)])
  {
    es, s := OtherPageIn();
    es, s := DoInsert(es, 23, s, 2, X, B);
    assert s.log == REUSED_LOG[..5] && s.active[2].undo == [Insert(2, X, B)];
    assert EMPTY_PAGE.slots[0 := Slot(true, false, B)] == map[0 := Slot(true, false, B)];
    assert s.cache[P].page == Row(4, B);
    assert s.active == map[1 := Txn(0, [], Aborting, Some(2)), 2 := Txn(3, [Insert(2, X, B)], Active, None)];
    es, s := DoMark(es, 23, s, P);
    assert s.cache == map[P := Resident(Row(4, B), true, 4)];
  }

  /** ... by a transaction that commits. */
  lemma OtherPageWritten() returns (es: seq<Event>, s: State)
    ensures Trip(es, 23, s) && |es| == 20
    ensures s == READY.(log := REUSED_LOG[..6], durable := 6, disk := map[Q := Row(1, A)],
                        cache := map[P := Resident(Row(4, B), true, 4)], spare := multiset{1},
                        active := map[1 := Txn(0, [], Aborting, Some(2))], acked := {2})
  {
    es, s := OtherPageChanged();
    es, s := EndCommit(es, 23, s, 2);
    assert s.log == REUSED_LOG[..6];
    assert s.active == map[1 := Txn(0, [], Aborting, Some(2))];
  }

  const Q_UNDONE := Page(2, map[0 := Slot(true, true, A)])

  /** Its frame, with its recLSN, is used for the page of the compensation. */
  lemma FrameReused() returns (es: seq<Event>, s: State)
    ensures Trip(es, 23, s) && |es| == 23
    ensures s == READY.(log := REUSED_LOG[..6], durable := 6, disk := map[Q := Row(1, A), P := Row(4, B)],
                        cache := map[Q := Resident(Row(1, A), false, 4)], spare := multiset{1},
                        active := map[1 := Txn(0, [], Aborting, Some(2))], acked := {2})
  {
    es, s := OtherPageWritten();
    es, s := DoTakeVictim(es, 23, s, P);
    es, s := DoFinishVictim(es, 23, s, P);
    assert s.disk == map[Q := Row(1, A), P := Row(4, B)];
    es, s := DoLoad(es, 23, s, Q, 4);
    assert s.spare == multiset{1} && s.victims == map[];
    assert s.cache == map[Q := Resident(Row(1, A), false, 4)];
  }

  lemma AppliedInIt() returns (es: seq<Event>, s: State)
    ensures Trip(es, 23, s) && |es| == 28
    ensures s == READY.(log := REUSED_LOG[..7], durable := 7, disk := map[Q := Row(1, A), P := Row(4, B)],
                        cache := map[Q := Resident(Q_UNDONE, true, 4)], spare := multiset{1}, acked := {2})
    ensures es[23] == ApplyClr(1)
  {
    es, s := FrameReused();
    assert s.log[2] == InsertCLR(1, Z);
    es, s := DoApplyClr(es, 23, s, 1, 2);
    assert Row(1, A).slots[0 := Slot(true, true, A)] == Q_UNDONE.slots;
    es, s := DoMark(es, 23, s, Q);
    assert s.cache == map[Q := Resident(Q_UNDONE, true, 4)];
    assert s.active == map[1 := Txn(0, [], Aborting, None)];
    es, s := EndAbort(es, 23, s, 1);
    assert s.log == REUSED_LOG[..7] && s.active == map[];
  }

  lemma PastCompensation() returns (es: seq<Event>, s: State)
    ensures Trip(es, 23, s) && |es| == 35
    ensures s == State(REUSED_LOG, 9, map[Q := Row(1, A), P := Row(4, B)], 4, map[], map[], multiset{}, map[], Idle,
                       Restarted, {2}, REUSED_LOG)
    ensures es[23] == ApplyClr(1)
  {
    es, s := AppliedInIt();
    var dpt: map<PageId, Lsn> := map[Q := 4];
    assert Q in dpt && dpt[Q] == 4;
    es, s := QuietCheckpoint(es, 23, s, dpt, 4);
    assert s.log == REUSED_LOG;
    es, s := DoCrash(es, 23, s);
    assert s.log == REUSED_LOG;
  }

  const REUSED := Tables(map[P := 4, Q := 4], map[], {2, 1})

  lemma ReusedRecords()
    ensures REUSED_LOG[4].rid == X && forall i :: 5 <= i < 9 ==> !IsPageRecord(REUSED_LOG[i])
    ensures IsLeast(4, 4, map[], REUSED.dpt) && Losers(REUSED_LOG, REUSED.att, 4) == map[]
    ensures IsUndoStart(4, 4, 4, REUSED.att)
  {
  }

  lemma ReusedTables()
    ensures Analyze(REUSED_LOG, 4, 9) == REUSED
  {
    assert Analyze(REUSED_LOG, 4, 5) == Tables(map[P := 4], map[], {});
    assert Analyze(REUSED_LOG, 4, 7) == Tables(map[P := 4], map[], {2, 1});
  }

  lemma ReusedNotCommitted()
    ensures CommittedSlot(REUSED_LOG, Z, REUSED_LOG) == FREE_SLOT
  {
    assert REUSED_LOG[4] == Insert(2, X, B) && REUSED_LOG[1].tid == 1 && REUSED_LOG[2].tid == 1;
    NotCommitted(REUSED_LOG, Z, REUSED_LOG);
  }

  lemma ReusedRecovered() returns (es: seq<Event>, s: State)
    ensures Trip(es, 23, s) && |es| > 23 && s.phase.Undo? && s.active == map[] && s.crashLog == REUSED_LOG
    ensures CurrentPage(s, Q) == Row(1, A)
    ensures es[23] == ApplyClr(1)
  {
    es, s := PastCompensation();
    ReusedTables();
    ReusedRecords();
    es, s := DoRecover(es, 23, s, P, REUSED, 4, 4, map[]);
  }

  /** The page of a compensation is read into a frame whose recLSN is past it.  The checkpoint lists
      the page behind the compensation, and the row of the aborted transaction is visible. */
  lemma ReusedFrameLosesCompensation() returns (es: seq<Event>)
    ensures WrongRow(es, 23, Z)
    ensures es[23] == ApplyClr(1)
  {
    var s: State;
    es, s := ReusedRecovered();
    ReusedNotCommitted();
    AbortedVisible(es, 23, s, Z, A);
  }

  // ---------------------------------------------------------------- a commit inside a checkpoint

  const WINDOW_LOG :=
    [Begin(1), Insert(1, X, A), BeginCheckpoint, Commit(1), Begin(2), EndCheckpoint(map[1 := 0], map[]),
     BeginCheckpoint, EndCheckpoint(map[2 := 4], map[])]

  /** Transaction 1 commits after the transaction snapshot ... */
  lemma SnapshotThenCommit() returns (es: seq<Event>, s: State)
    ensures Trip(es, 24, s) && |es| == 15
    ensures s == READY.(log := WINDOW_LOG[..4], durable := 4, disk := map[P := Row(1, A)],
                        cache := map[P := Resident(Row(1, A), false, 1)], ckpt := TxnsSeen(2, map[], map[1 := 0]), acked := {1})
  {
    es, s := Flushed(24, P);
    es, s := DoCheckpointBegin(es, 24, s);
    es, s := DoSnapshotPages(es, 24, s, map[]);
    es, s := DoSnapshotTxns(es, 24, s, map[1 := 0]);
    es, s := EndCommit(es, 24, s, 1);
    assert s.log == WINDOW_LOG[..4] && s.active == map[];
  }

  /** ... and before the end record, and transaction 2 begins. */
  lemma CommitInWindow() returns (es: seq<Event>, s: State)
    ensures Trip(es, 24, s) && |es| == 19
    ensures s == READY.(log := WINDOW_LOG[..6], durable := 6, disk := map[P := Row(1, A)],
                        cache := map[P := Resident(Row(1, A), false, 1)], active := map[2 := Txn(4, [], Active, None)],
                        acked := {1})
  {
    es, s := SnapshotThenCommit();
    es, s := DoBegin(es, 24, s, 2);
    var att: map<Tid, Lsn> := map[1 := 0];
    assert s.log == WINDOW_LOG[..5] && 1 in att && att[1] == 0;
    es, s := DoCheckpointEnd(es, 24, s, 0);
    es, s := DoFlushLog(es, 24, s);
    assert s.log == WINDOW_LOG[..6];
    es, s := DoWriteMaster(es, 24, s, 0, 5);
  }

  lemma SecondSnapshot() returns (es: seq<Event>, s: State)
    ensures Trip(es, 24, s) && |es| == 22
    ensures s == READY.(log := WINDOW_LOG[..7], durable := 6, disk := map[P := Row(1, A)],
                        cache := map[P := Resident(Row(1, A), false, 1)], active := map[2 := Txn(4, [], Active, None)],
                        ckpt := TxnsSeen(6, map[], map[2 := 4]), acked := {1})
  {
    es, s := CommitInWindow();
    es, s := DoCheckpointBegin(es, 24, s);
    es, s := DoSnapshotPages(es, 24, s, map[]);
    es, s := DoSnapshotTxns(es, 24, s, map[2 := 4]);
    assert s.log == WINDOW_LOG[..7];
  }

  /** Transaction 2 keeps the next truncation LSN inside that window. */
  lemma MasterInWindow() returns (es: seq<Event>, s: State)
    ensures Trip(es, 24, s) && |es| == 26
    ensures s == State(WINDOW_LOG, 8, map[P := Row(1, A)], 4, map[], map[], multiset{}, map[], Idle, Restarted, {1}, WINDOW_LOG)
    ensures es[24] == WriteMaster
  {
    es, s := SecondSnapshot();
    var att: map<Tid, Lsn> := map[2 := 4];
    assert 2 in att && att[2] == 4;
    es, s := DoCheckpointEnd(es, 24, s, 4);
    es, s := DoFlushLog(es, 24, s);
    assert s.log == WINDOW_LOG;
    es, s := DoWriteMaster(es, 24, s, 4, 7);
    es, s := DoCrash(es, 24, s);
    assert s.log == WINDOW_LOG;
  }

  const REVIVED: Tables := Tables(map[], map[2 := 4, 1 := 0], {})
  const REVIVED_LOSERS :=
    map[1 := Txn(0, [Insert(1, X, A)], Aborting, None), 2 := Txn(4, [], Aborting, None)]

  lemma WindowTables()
    ensures Analyze(WINDOW_LOG, 4, 8) == REVIVED
  {
    assert Analyze(WINDOW_LOG, 4, 5) == Tables(map[], map[2 := 4], {});
    assert Analyze(WINDOW_LOG, 4, 6) == REVIVED;
    assert Analyze(WINDOW_LOG, 4, 7) == REVIVED;
  }

  lemma {:induction false} RebuildRest(log: Log, lo: Lsn, mid: Lsn, hi: Lsn, t: Tid)
    requires lo <= mid <= hi <= |log|
    requires forall i :: mid <= i < hi && IsPageRecord(log[i]) ==> log[i].tid != t
    ensures Rebuild(log, lo, hi, t) == Rebuild(log, lo, mid, t)
    decreases hi
  {
    if mid < hi { RebuildRest(log, lo, mid, hi - 1, t); }
  }

  lemma WindowLosers()
    ensures Losers(WINDOW_LOG, REVIVED.att, 0) == REVIVED_LOSERS
  {
    RebuildRest(WINDOW_LOG, 0, 2, 8, 1);
    RebuildRest(WINDOW_LOG, 0, 0, 1, 1);
    RebuildRest(WINDOW_LOG, 0, 0, 8, 2);
    assert Rebuild(WINDOW_LOG, 0, 0, 1) == [] && Rebuild(WINDOW_LOG, 0, 0, 2) == [];
    assert WINDOW_LOG[1] == Insert(1, X, A);
    assert Rebuild(WINDOW_LOG, 0, 2, 1) == [Insert(1, X, A)];
  }

  /** Analysis revives the committed transaction; its start LSN is below the start of redo, so the
      undo scan starts at 0 and finds its insertion. */
  lemma Revived() returns (es: seq<Event>, s: State)
    ensures Trip(es, 24, s) && |es| > 24
    ensures s == State(WINDOW_LOG, 8, map[P := Row(1, A)], 4, map[P := Resident(Row(1, A), false, 0)], map[], multiset{},
                       REVIVED_LOSERS, Idle, Undo, {1}, WINDOW_LOG)
    ensures es[24] == WriteMaster
  {
    es, s := MasterInWindow();
    WindowTables();
    WindowLosers();
    assert 1 in REVIVED.att && REVIVED.att[1] == 0;
    es, s := DoRecover(es, 24, s, P, REVIVED, 4, 0, REVIVED_LOSERS);
  }

  const UNDONE := Page(8, map[0 := Slot(true, true, A)])

  lemma TakenBack() returns (es: seq<Event>, s: State)
    ensures Trip(es, 24, s) && |es| > 24 && s.phase.Undo? && s.crashLog == WINDOW_LOG && s.durable <= |s.log|
    ensures P in s.cache && s.cache[P].page == UNDONE
    ensures s.active == map[1 := Txn(0, [], Aborting, None), 2 := Txn(4, [], Aborting, None)]
    ensures es[24] == WriteMaster
  {
    es, s := Revived();
    es, s := DoLogClr(es, 24, s, 1, Insert(1, X, A));
    assert s.log[8] == InsertCLR(1, X);
    es, s := DoApplyClr(es, 24, s, 1, 8);
    assert Row(1, A).slots[0 := Slot(true, true, A)] == UNDONE.slots;
    assert s.active == map[1 := Txn(0, [], Aborting, None), 2 := Txn(4, [], Aborting, None)];
  }

  /** A commit between the transaction snapshot and the end record of a checkpoint, before the scan
      start of a later one: recovery takes the committed insertion back. */
  lemma CommittedRowTakenBack() returns (es: seq<Event>)
    ensures WrongRow(es, 24, X)
    ensures es[24] == WriteMaster
  {
    var s: State;
    es, s := TakenBack();
    es, s := EndAbort(es, 24, s, 1);
    es, s := EndAbort(es, 24, s, 2);
    assert s.active == map[];
    assert WINDOW_LOG[3] == Commit(1);
    CommittedRow(WINDOW_LOG, WINDOW_LOG);
    CommittedMissing(es, 24, s);
  }
}
