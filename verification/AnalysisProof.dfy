/** The analysis scan and the rebuilt undo logs are exact. */
module AnalysisProof {
  import opened LogModel
  import opened CommittedReplay
  import opened Engine
  import opened EngineInvariant
  import opened CheckpointWindow

  // ---------------------------------------------------------------- one begin, one end

  lemma BeginsOnce(log: Log, i: nat, j: nat)
    requires WellFormed(log) && i < |log| && j < |log| && log[i].Begin? && log[i] == log[j]
    ensures i == j
  {
    if i < j { BeginFresh(log, i, j); } else if j < i { BeginFresh(log, j, i); }
  }

  lemma BeginFresh(log: Log, i: nat, j: nat)
    requires WellFormed(log) && i < j < |log| && log[j].Begin? && !IsCheckpoint(log[i])
    ensures log[i].tid != log[j].tid
  {
    assert Admitted(log, j);
    assert log[..j][i] == log[i] && log[i] in log[..j];
  }

  /** No record of a transaction follows its end record. */
  lemma EndIsLast(log: Log, i: nat, j: nat)
    requires WellFormed(log) && i < j < |log| && (log[i].Commit? || log[i].Abort?)
    ensures IsCheckpoint(log[j]) || log[j].tid != log[i].tid
  {
    assert Admitted(log, j);
    assert log[..j][i] == log[i] && log[i] in log[..j];
  }

  lemma EndsOnce(log: Log, t: Tid)
    requires WellFormed(log)
    ensures !(Commit(t) in log && Abort(t) in log)
  {
    if Commit(t) in log && Abort(t) in log {
      var i :| 0 <= i < |log| && log[i] == Commit(t);
      var j :| 0 <= j < |log| && log[j] == Abort(t);
      if i < j { EndIsLast(log, i, j); } else { EndIsLast(log, j, i); }
    }
  }

  /** Every record of a transaction follows its Begin. */
  lemma BeginIsFirst(log: Log, i: nat, b: nat)
    requires WellFormed(log) && i < |log| && b < |log| && log[b].Begin?
    requires !IsCheckpoint(log[i]) && log[i].tid == log[b].tid
    ensures b <= i
  {
    if i < b { BeginFresh(log, i, b); }
  }

  // ---------------------------------------------------------------- analysis

  /** The dirty page table of a scan of `log[m..n]`. */
  ghost predicate DptOk(log: Log, m: Lsn, n: Lsn, disk: map<PageId, Page>, dpt: map<PageId, Lsn>)
    requires m <= n <= |log|
  {
    && (forall i :: m <= i < n && IsPageRecord(log[i]) ==> log[i].rid.page in dpt)
    && (forall p :: p in dpt ==> BoundsMissing(dpt[p], log, p, DiskPage(disk, p)))
  }

  lemma {:induction false} AnalyzeDpt(log: Log, m: Lsn, n: Lsn, disk: map<PageId, Page>)
    requires m <= n <= |log| && LoggedTablesOk(log, disk)
    requires forall p :: BoundsMissing(m, log, p, DiskPage(disk, p))
    ensures DptOk(log, m, n, disk, Analyze(log, m, n).dpt)
    decreases n
  {
    if m < n {
      AnalyzeDpt(log, m, n - 1, disk);
      var a, r := Analyze(log, m, n - 1), log[n - 1];
      var a' := AnalyzeRecord(a, r, n - 1);
      forall p | p in a'.dpt ensures BoundsMissing(a'.dpt[p], log, p, DiskPage(disk, p)) {
        assert EntryOk(log, disk, n - 1, p);
        assert BoundsMissing(m, log, p, DiskPage(disk, p));
      }
    }
  }

  /** From a safe scan start, analysis rebuilds exactly the begun-but-unended transactions,
      and for every stale page an entry at or below its first missing record. */
  lemma AnalysisExact(log: Log, m: Lsn, disk: map<PageId, Page>)
    requires WellFormed(log) && m <= |log| && LoggedTablesOk(log, disk)
    requires ScanStart(log, |log|, disk, m) && NoStaleEntry(log, m)
    ensures IsLiveTable(log, Analyze(log, m, |log|).att)
    ensures forall p, i :: Missing(log, p, DiskPage(disk, p), i) ==>
              p in Analyze(log, m, |log|).dpt && Analyze(log, m, |log|).dpt[p] <= i
  {
    assert log[..|log|] == log;
    var a := Analyze(log, m, |log|);
    AdmittedLog(log);
    AnalysisExactIff(log, m);
    AnalyzeDpt(log, m, |log|, disk);
    forall p, i | Missing(log, p, DiskPage(disk, p), i) ensures p in a.dpt && a.dpt[p] <= i {
      assert BoundsMissing(m, log, p, DiskPage(disk, p));
    }
  }

  // ---------------------------------------------------------------- rebuilt undo logs

  /** Feeding the log from any point at or before the Begin leaves exactly the
      uncompensated records. */
  lemma {:induction false} RebuildUpTo(log: Log, b: nat, from: Lsn, n: Lsn, t: Tid)
    requires WellFormed(log) && b < |log| && log[b] == Begin(t) && from <= b && from <= n <= |log|
    ensures Rebuild(log, from, n, t) == UndoStack(log[..n], t)
    decreases n
  {
    if from < n {
      TakeSucc(log, n - 1);
      RebuildUpTo(log, b, from, n - 1, t);
    } else {
      forall r | r in log[..n] && IsData(r) ensures r.tid != t {
        var i :| 0 <= i < n && log[..n][i] == r;
        if r.tid == t { BeginIsFirst(log, i, b); }
      }
      NoDataNoStack(log[..n], t);
    }
  }

  /** A compensation never meets an empty undo log. */
  lemma CompensationHasTarget(log: Log, b: nat, from: Lsn, n: Lsn, t: Tid)
    requires WellFormed(log) && b < |log| && log[b] == Begin(t) && from <= b && from <= n < |log|
    requires IsClr(log[n]) && log[n].tid == t
    ensures Rebuild(log, from, n, t) != []
  {
    RebuildUpTo(log, b, from, n, t);
    assert Admitted(log, n);
  }

  lemma RebuildIsUndoStack(log: Log, b: nat, from: Lsn, t: Tid)
    requires WellFormed(log) && b < |log| && log[b] == Begin(t) && from <= b
    ensures Rebuild(log, from, |log|, t) == UndoStack(log, t)
  {
    RebuildUpTo(log, b, from, |log|, t);
    assert log[..|log|] == log;
  }
}
