/** Without atomic checkpoints.

    The program takes the transaction snapshot before it appends the end record, so a commit
    may fall in between; the end record then lists a transaction that has already ended.
    Analysis reads every end record from the master LSN on.  This module says exactly when the
    table it rebuilds is still right. */
module CheckpointWindow {
  import opened LogModel
  import opened Engine

  /** One life per transaction id: nothing before its Begin, nothing after its end record. */
  ghost predicate OneLife(log: Log) {
    forall i: nat, j: nat :: i < j < |log| ==> LifeOrder(log[i], log[j])
  }

  predicate LifeOrder(r: Record, later: Record) {
    !IsCheckpoint(r) && !IsCheckpoint(later) && r.tid == later.tid ==> !later.Begin? && !Ends(r, r.tid)
  }

  /** A checkpoint entry is a transaction that had begun, whether or not it has ended. */
  ghost predicate EntriesBegun(log: Log) {
    forall c: nat :: c < |log| ==> EntryBegun(log, c)
  }

  ghost predicate EntryBegun(log: Log, c: nat)
    requires c < |log|
  {
    log[c].EndCheckpoint? ==> forall t :: t in log[c].att ==> log[c].att[t] < c && log[log[c].att[t]] == Begin(t)
  }

  /** The scan of `log[m..n]` has met the transaction. */
  predicate Seen(log: Log, m: nat, n: nat, t: Tid)
    requires n <= |log|
  {
    exists i :: m <= i < n && Announces(log[i], t)
  }

  predicate Announces(r: Record, t: Tid) { r == Begin(t) || (r.EndCheckpoint? && t in r.att) }

  ghost predicate ScanOk(log: Log, m: nat, n: nat, a: Tables, t: Tid)
    requires m <= n <= |log|
  {
    && (t in a.inactive <==> EndedIn(log, m, n, t))
    && (t in a.att <==> Seen(log, m, n, t) && !EndedIn(log, m, n, t))
    && (t in a.att ==> a.att[t] < n && log[a.att[t]] == Begin(t))
  }

  lemma ScanFacts(log: Log, m: nat, n: nat, t: Tid)
    requires m <= n < |log|
    ensures EndedIn(log, m, n + 1, t) <==> EndedIn(log, m, n, t) || Ends(log[n], t)
    ensures Seen(log, m, n + 1, t) <==> Seen(log, m, n, t) || Announces(log[n], t)
  {
    if EndedIn(log, m, n, t) { var i :| m <= i < n && Ends(log[i], t); }
    if Seen(log, m, n, t) { var i :| m <= i < n && Announces(log[i], t); }
  }

  lemma {:induction false} ScanHolds(log: Log, m: nat, n: nat, t: Tid)
    requires OneLife(log) && EntriesBegun(log) && m <= n <= |log|
    ensures ScanOk(log, m, n, Analyze(log, m, n), t)
    decreases n
  {
    if m < n {
      ScanHolds(log, m, n - 1, t);
      ScanFacts(log, m, n - 1, t);
      assert EntryBegun(log, n - 1);
      if log[n - 1] == Begin(t) { NotEndedBeforeBegin(log, m, n - 1, t); }
    }
  }

  lemma NotEndedBeforeBegin(log: Log, m: nat, n: nat, t: Tid)
    requires OneLife(log) && m <= n < |log| && log[n] == Begin(t)
    ensures !EndedIn(log, m, n, t)
  {
    forall i: nat | m <= i < n ensures !Ends(log[i], t) { assert LifeOrder(log[i], log[n]); }
  }

  lemma EndedIsEndedIn(log: Log, t: Tid)
    ensures Ended(log, t) <==> EndedIn(log, 0, |log|, t)
  {
  }

  /** Analysis rebuilds exactly the live transactions if and only if no end record at or after
      the master LSN lists a transaction that had ended before it. */
  lemma AnalysisExactIff(log: Log, m: nat)
    requires OneLife(log) && EntriesBegun(log) && m <= |log|
    requires forall i: nat :: i < m && log[i].Begin? ==> Ended(log, log[i].tid)
    ensures IsLiveTable(log, Analyze(log, m, |log|).att) <==> NoStaleEntry(log, m)
  {
    var att := Analyze(log, m, |log|).att;
    if NoStaleEntry(log, m) {
      forall t ensures t in att <==> Live(log, t)
      ensures t in att ==> att[t] < |log| && log[att[t]] == Begin(t)
      {
        ScanHolds(log, m, |log|, t);
        TableEntry(log, m, t);
      }
    } else {
      var c: nat, t :| m <= c < |log| && log[c].EndCheckpoint? && t in log[c].att && EndedIn(log, 0, m, t);
      assert Announces(log[c], t);
      var e :| 0 <= e < m && Ends(log[e], t);
      EndedIsEndedIn(log, t);
      ScanHolds(log, m, |log|, t);
      forall i: nat | m <= i < |log| ensures !Ends(log[i], t) { assert LifeOrder(log[e], log[i]); }
    }
  }

  lemma TableEntry(log: Log, m: nat, t: Tid)
    requires OneLife(log) && EntriesBegun(log) && m <= |log| && NoStaleEntry(log, m)
    requires forall i: nat :: i < m && log[i].Begin? ==> Ended(log, log[i].tid)
    ensures (Seen(log, m, |log|, t) && !EndedIn(log, m, |log|, t)) <==> Live(log, t)
  {
    EndedIsEndedIn(log, t);
    if Live(log, t) {
      var i :| 0 <= i < |log| && log[i] == Begin(t);
      assert Announces(log[i], t);
      assert m <= i;
    }
    if Seen(log, m, |log|, t) && !EndedIn(log, m, |log|, t) {
      var i :| m <= i < |log| && Announces(log[i], t);
      assert EntryBegun(log, i);
      if EndedIn(log, 0, |log|, t) {
        var e :| 0 <= e < |log| && Ends(log[e], t);
        assert LifeOrder(log[e], log[i]);
        assert EndedIn(log, 0, m, t);
      }
    }
  }

  /** The logs of the engine meet the conditions of `AnalysisExactIff`. */
  lemma AdmittedLog(log: Log)
    requires WellFormed(log)
    ensures OneLife(log) && EntriesBegun(log)
  {
    forall i: nat, j: nat | i < j < |log| ensures LifeOrder(log[i], log[j]) {
      assert Admitted(log, j);
      assert log[..j][i] == log[i] && log[i] in log[..j];
    }
    forall c: nat | c < |log| ensures EntryBegun(log, c) {
      assert Admitted(log, c);
      if log[c].EndCheckpoint? {
        forall t | t in log[c].att ensures log[c].att[t] < c && log[log[c].att[t]] == Begin(t) {
          assert log[..c][log[c].att[t]] == log[log[c].att[t]];
        }
      }
    }
  }
}
