/** What recovery promises, over every guarded run of the engine with any number of crashes. */
module RecoveryTheorems {
  import opened LogModel
  import opened CommittedReplay
  import opened Engine
  import opened EngineInvariant
  import opened AnalysisProof
  import opened EngineSteps
  import opened CommittedRows

  // ---------------------------------------------------------------- storage

  lemma StoredPagesOk(es: seq<Event>, p: PageId)
    requires Run(es).Some? && Guarded(es)
    ensures var s := Run(es).value; var page := DiskPage(s.disk, p);
            PageOk(s.log, p, page) && (page.lsn == 0 || page.lsn < s.durable) && s.durable <= |s.log|
  {
    RunsKeepInv(es);
  }

  /** Write-ahead logging: at every moment a stored page is the replay of exactly the records
      for it up to its page LSN, and that LSN is zero or durable. */
  lemma StoredPagesTrailTheLog(es: seq<Event>, p: PageId)
    requires Run(es).Some? && Guarded(es)
    ensures var s := Run(es).value; var page := DiskPage(s.disk, p);
            && (page.lsn == 0 || page.lsn < s.durable <= |s.log|)
            && page.slots == PageOf(s.log[..if page.lsn == 0 then 0 else page.lsn + 1], p).slots
  {
    StoredPagesOk(es, p);
  }

  /** Redo repeats history: in spite of its three skips, when the redo scan reaches the end
      every page is the replay of the whole durable log. */
  lemma RedoRepeatsHistory(es: seq<Event>, p: PageId)
    requires Run(es).Some? && Guarded(es) && Run(es).value.phase.Redo?
    requires Run(es).value.phase.cursor == |Run(es).value.log|
    ensures CurrentPage(Run(es).value, p) == PageOf(Run(es).value.crashLog, p)
  {
    RunsKeepInv(es);
    var s := Run(es).value;
    var page := CurrentPage(s, p);
    assert Open(s.active) == {};
    VersionOfCurrent(s, p);
    assert LacksFrom(|s.log|, s.log, p, Newest(s.disk, Frames(s), p), {});
    NotAtZero(s.log);
    CatchUp(s.log, p, page, |s.log|, {});
    NothingLess(s.log, p);
    assert s.log[..|s.log|] == s.log;
  }

  // ---------------------------------------------------------------- checkpoint and analysis

  /** The truncation LSN never exceeds the Begin LSN of a live transaction nor the LSN of a
      record missing from its stored page. */
  lemma TruncationIsSafe(es: seq<Event>, tr: Lsn, i: nat)
    requires Run(es).Some? && Guarded(es) && Enabled(Run(es).value, CheckpointEnd(tr)) && i < |Run(es).value.log|
    requires var s := Run(es).value;
             || (s.log[i].Begin? && Live(s.log, s.log[i].tid))
             || (IsPageRecord(s.log[i]) && DiskPage(s.disk, s.log[i].rid.page).lsn < i)
    ensures tr <= i
  {
    RunsKeepInv(es);
    var s := Run(es).value;
    TruncationIsScanStart(s, tr);
    assert s.log[..|s.log|] == s.log;
    if IsPageRecord(s.log[i]) {
      assert BoundsMissing(tr, s.log, s.log[i].rid.page, DiskPage(s.disk, s.log[i].rid.page));
      assert Missing(s.log, s.log[i].rid.page, DiskPage(s.disk, s.log[i].rid.page), i);
    }
  }

  /** After any crash, the scan from the master record rebuilds exactly the transactions that
      have begun and not ended, with their Begin LSNs, and for every stale page an entry at or
      below its first missing record. */
  lemma AnalysisRebuildsTables(es: seq<Event>)
    requires Run(es).Some? && Guarded(es) && Run(es).value.phase.Restarted?
    ensures var s := Run(es).value;
            && s.master <= |s.log|
            && IsLiveTable(s.log, Analyze(s.log, s.master, |s.log|).att)
            && forall p, i :: Missing(s.log, p, DiskPage(s.disk, p), i) ==>
                 p in Analyze(s.log, s.master, |s.log|).dpt && Analyze(s.log, s.master, |s.log|).dpt[p] <= i
  {
    RunsKeepInv(es);
    var s := Run(es).value;
    ScanStartLater(s.log, s.durable, |s.log|, s.disk, s.master);
    AnalysisExact(s.log, s.master, s.disk);
  }

  /** The undo scan, in spite of the test that picks its start, rebuilds for every loser its
      uncompensated records and nothing else. */
  lemma UndoLogsAreExact(es: seq<Event>, from: Lsn, t: Tid)
    requires Run(es).Some? && Guarded(es) && Enabled(Run(es).value, StartUndo(from))
    ensures var s := Run(es).value; var losers := Losers(s.log, s.phase.att, from);
            && After(s, StartUndo(from)).active == losers
            && from == s.master
            && (t in losers <==> Live(s.crashLog, t))
            && (t in losers ==> losers[t].undo == UndoStack(s.crashLog, t))
  {
    RunsKeepInv(es);
    var s := Run(es).value;
    UndoStartIsMaster(s, from);
    assert s.log == s.crashLog;
    if t in s.phase.att { RebuildIsUndoStack(s.log, s.phase.att[t], from, t); }
  }

  // ---------------------------------------------------------------- the visible database

  /** Appending records of transactions that never commit changes no committed replay. */
  lemma {:induction false} LosersAddNothing(log: Log, k: nat, x: Rid)
    requires WellFormed(log) && k <= |log|
    requires forall i :: k <= i < |log| ==> IsClr(log[i]) || log[i].Abort?
    ensures CommittedSlot(log, x, log) == CommittedSlot(log[..k], x, log[..k])
    decreases |log| - k
  {
    if k < |log| {
      WellFormedInit(log);
      LosersAddNothing(Init(log), k, x);
      assert Init(log)[..k] == log[..k];
      CommittedSkip(Init(log), x, Init(log), Last(log));
    } else {
      assert log[..k] == log;
    }
  }

  /** In a running database, a slot no live transaction has touched shows its committed row. */
  lemma UntouchedRowsAreCommitted(es: seq<Event>, x: Rid)
    requires Run(es).Some? && Guarded(es) && (Run(es).value.phase.Running? || Run(es).value.phase.Undo?)
    requires forall t :: Live(Run(es).value.log, t) ==> Untouched(Run(es).value.log, t, x)
    ensures CurrentRow(Run(es).value, x)
         == VisibleRow(CommittedSlot(Run(es).value.log, x, Run(es).value.log))
  {
    RunsKeepInv(es);
    var s := Run(es).value;
    forall k | k in Open(s.active) && k < |s.log| && IsPageRecord(s.log[k]) ensures s.log[k].rid != x {
      var t := OpenOwner(s, k);
      assert s.log[k] in s.log && Touches(s.log[k], t, s.log[k].rid);
    }
    CurrentSlot(s, x);
    HistoryIsCommittedReplay(s.log, x);
  }

  /** Crash recovery.  Whatever happened before in a guarded run, however many crashes cut the run (also inside
      redo or undo), when Recover ends the visible rows are exactly those obtained by replaying,
      in log order, only the transactions whose Commit record was durable. */
  lemma RecoveryRestoresCommittedRows(es: seq<Event>, x: Rid)
    requires Run(es).Some? && Guarded(es) && Enabled(Run(es).value, FinishRecovery)
    ensures var s := Run(es).value;
            CurrentRow(After(s, FinishRecovery), x) == VisibleRow(CommittedSlot(s.crashLog, x, s.crashLog))
  {
    RunsKeepInv(es);
    var s := Run(es).value;
    UntouchedRowsAreCommitted(es, x);
    LosersAddNothing(s.log, |s.crashLog|, x);
  }

  /** ... in terms of the records alone: after recovery a slot shows the new bytes of the newest
      change by a transaction with a durable Commit record, and no row when that change is a
      deletion or there is none. */
  lemma RecoveredRowIsCommitted(es: seq<Event>, x: Rid)
    requires Run(es).Some? && Guarded(es) && Enabled(Run(es).value, FinishRecovery)
    ensures var s := Run(es).value; IsCommittedRow(s.crashLog, x, CurrentRow(After(s, FinishRecovery), x))
  {
    RunsKeepInv(es);
    var s := Run(es).value;
    RecoveryRestoresCommittedRows(es, x);
    WellFormedPrefix(s.log, |s.crashLog|);
    ReplayLeavesCommittedRow(s.crashLog, x);
  }

  /** The same in a running database, for a slot that no live transaction has touched. */
  lemma UntouchedRowIsCommitted(es: seq<Event>, x: Rid)
    requires Run(es).Some? && Guarded(es) && (Run(es).value.phase.Running? || Run(es).value.phase.Undo?)
    requires forall t :: Live(Run(es).value.log, t) ==> Untouched(Run(es).value.log, t, x)
    ensures IsCommittedRow(Run(es).value.log, x, CurrentRow(Run(es).value, x))
  {
    RunsKeepInv(es);
    UntouchedRowsAreCommitted(es, x);
    ReplayLeavesCommittedRow(Run(es).value.log, x);
  }

  /** What a change leaves in its row, at the moment it is made. */
  lemma WrittenRowIsImage(es: seq<Event>, r: Record)
    requires Run(es).Some? && Guarded(es) && Enabled(Run(es).value, Write(r))
    ensures var row := CurrentRow(After(Run(es).value, Write(r)), r.rid);
            row == if r.Delete? then None else Some(r.after)
    ensures forall x :: x != r.rid ==> CurrentRow(After(Run(es).value, Write(r)), x) == CurrentRow(Run(es).value, x)
  {
    RunsKeepInv(es);
    var s := Run(es).value;
    ChangedSlot(s, r);
    WrittenRow(s.log, r);
    var w := After(s, Write(r));
    assert w.cache == StampPage(s, r, |s.log|).cache && w.victims == s.victims && w.disk == s.disk;
    ChangedPage(s, r, w, r.rid);
    forall x | x != r.rid ensures CurrentRow(w, x) == CurrentRow(s, x) { ChangedPage(s, r, w, x); }
  }

  lemma ChangedSlot(s: State, r: Record)
    requires Inv(s) && Enabled(s, Write(r))
    ensures SlotOn(s.cache[r.rid.page].page, r.rid.slot) == SlotOf(s.log, r.rid)
    ensures r.rid.page !in s.victims
  {
    WriteSlotFree(s, r);
    CurrentSlot(s, r.rid);
  }

  lemma ChangedPage(s: State, r: Record, s': State, x: Rid)
    requires IsPageRecord(r) && r.rid.page in s.cache && r.rid.page !in s.victims
    requires s'.cache == StampPage(s, r, |s.log|).cache && s'.victims == s.victims && s'.disk == s.disk
    ensures x == r.rid ==> CurrentRow(s', x) == VisibleRow(ApplySlot(SlotOn(s.cache[x.page].page, x.slot), r))
    ensures x != r.rid ==> CurrentRow(s', x) == CurrentRow(s, x)
  {
  }

  /** Durability: a transaction whose Commit returned is among those that recovery replays. */
  lemma AcknowledgedCommitsSurvive(es: seq<Event>, t: Tid)
    requires Run(es).Some? && Guarded(es) && t in Run(es).value.acked
    requires !Run(es).value.phase.Running?
    ensures Commit(t) in Run(es).value.crashLog
  {
    RunsKeepInv(es);
    var s := Run(es).value;
    var i :| 0 <= i < s.durable && s.log[..s.durable][i] == Commit(t);
    if i < |s.crashLog| { assert s.crashLog[i] == s.log[i]; }
  }
}
