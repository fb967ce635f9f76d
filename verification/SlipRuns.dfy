/** Runs of the engine in which every event but one is careful, built one event at a time. */
module SlipRuns {
  import opened LogModel
  import opened Engine

  // ---------------------------------------------------------------- runs with one slip

  /** Every event of the run was careful, except perhaps the one at index `n`. */
  ghost predicate CarefulBut(es: seq<Event>, n: nat) {
    es != [] ==>
      var pre, e := es[..|es| - 1], es[|es| - 1];
      CarefulBut(pre, n) && (|pre| == n || (Run(pre).Some? && Enabled(Run(pre).value, e) && Careful(Run(pre).value, e)))
  }

  ghost predicate IsTrip(es: seq<Event>, n: nat, r: Option<State>, careful: bool) {
    r == Run(es) && (careful <==> CarefulBut(es, n))
  }

  /** The run `es`, careful but for event `n`, leads to `s`. */
  ghost predicate Trip(es: seq<Event>, n: nat, s: State) {
    forall r, c :: IsTrip(es, n, r, c) ==> r == Some(s) && c
  }

  lemma TripRun(es: seq<Event>, n: nat, s: State)
    requires Trip(es, n, s)
    ensures Run(es) == Some(s) && CarefulBut(es, n)
  {
    assert IsTrip(es, n, Run(es), CarefulBut(es, n));
  }

  lemma Do(es: seq<Event>, n: nat, s: State, e: Event) returns (es': seq<Event>)
    requires Trip(es, n, s) && Enabled(s, e) && (|es| == n || Careful(s, e))
    ensures es' == es + [e] && Trip(es', n, After(s, e))
  {
    TripRun(es, n, s);
    es' := es + [e];
    assert es'[..|es|] == es;
  }

  // ---------------------------------------------------------------- one event at a time

  lemma DoBegin(es: seq<Event>, n: nat, s: State, t: Tid) returns (es': seq<Event>, s': State)
    requires Trip(es, n, s) && s.phase.Running? && Unused(s.log, t) && t !in s.active
    ensures Trip(es', n, s') && es' == es + [BeginTxn(t)]
    ensures s' == s.(log := s.log + [Begin(t)], active := s.active[t := Txn(|s.log|, [], Active, None)])
  {
    es' := Do(es, n, s, BeginTxn(t));
    s' := After(s, BeginTxn(t));
  }

  /** An insertion, and the unpin that marks the page. */
  lemma DoInsert(es: seq<Event>, n: nat, s: State, t: Tid, x: Rid, row: Bytes) returns (es': seq<Event>, s': State)
    requires Trip(es, n, s) && s.phase.Running? && x.page in s.cache && t in s.active && s.active[t].status.Active?
    requires !SlotOn(s.cache[x.page].page, x.slot).alloc
    requires forall u :: u in s.active && u != t ==> Untouched(s.log, u, x)
    ensures Trip(es', n, s') && es' == es + [Write(Insert(t, x, row))]
    ensures var r := Insert(t, x, row);
            s' == s.(log := s.log + [r], cache := s.cache[x.page := Stamp(s.cache[x.page], r, |s.log|)],
                     active := s.active[t := s.active[t].(undo := s.active[t].undo + [r])])
  {
    es' := Do(es, n, s, Write(Insert(t, x, row)));
    s' := After(s, Write(Insert(t, x, row)));
  }

  lemma DoMark(es: seq<Event>, n: nat, s: State, p: PageId) returns (es': seq<Event>, s': State)
    requires Trip(es, n, s) && p in s.cache
    ensures Trip(es', n, s') && es' == es + [MarkDirty(p)]
    ensures s' == s.(cache := s.cache[p := s.cache[p].(dirty := true, unmarked := false)])
  {
    es' := Do(es, n, s, MarkDirty(p));
    s' := After(s, MarkDirty(p));
  }

  lemma DoLoad(es: seq<Event>, n: nat, s: State, p: PageId, r: Lsn) returns (es': seq<Event>, s': State)
    requires Trip(es, n, s) && !s.phase.Restarted? && p !in s.cache && p !in s.victims && (r == 0 || r in s.spare)
    ensures Trip(es', n, s') && es' == es + [LoadPage(p, r)]
    ensures s' == s.(cache := s.cache[p := Frame(DiskPage(s.disk, p), false, false, r)], spare := s.spare - multiset{r})
  {
    es' := Do(es, n, s, LoadPage(p, r));
    s' := After(s, LoadPage(p, r));
  }

  lemma DoFlushLog(es: seq<Event>, n: nat, s: State) returns (es': seq<Event>, s': State)
    requires Trip(es, n, s) && s.durable <= |s.log|
    ensures Trip(es', n, s') && es' == es + [FlushLog(|s.log|)] && s' == s.(durable := |s.log|)
  {
    es' := Do(es, n, s, FlushLog(|s.log|));
    s' := After(s, FlushLog(|s.log|));
  }

  lemma DoFlushPage(es: seq<Event>, n: nat, s: State, p: PageId) returns (es': seq<Event>, s': State)
    requires Trip(es, n, s) && p in s.cache && s.cache[p].dirty && s.cache[p].page.lsn < s.durable
    requires |es| == n || NoneSkipped(s, p, s.cache[p].page)
    ensures Trip(es', n, s') && es' == es + [FlushPage(p)]
    ensures s' == s.(disk := s.disk[p := s.cache[p].page], cache := s.cache[p := s.cache[p].(dirty := false, unmarked := false)])
  {
    es' := Do(es, n, s, FlushPage(p));
    s' := After(s, FlushPage(p));
  }

  lemma DoTakeVictim(es: seq<Event>, n: nat, s: State, p: PageId) returns (es': seq<Event>, s': State)
    requires Trip(es, n, s) && p in s.cache && !s.cache[p].unmarked
    ensures Trip(es', n, s') && es' == es + [TakeVictim(p)]
    ensures s' == s.(cache := s.cache - {p}, victims := s.victims[p := s.cache[p]])
  {
    es' := Do(es, n, s, TakeVictim(p));
    s' := After(s, TakeVictim(p));
  }

  lemma DoFinishVictim(es: seq<Event>, n: nat, s: State, p: PageId) returns (es': seq<Event>, s': State)
    requires Trip(es, n, s) && p in s.victims && (s.victims[p].dirty ==> s.victims[p].page.lsn <= s.durable)
    requires |es| == n || !s.victims[p].dirty || (NoneSkipped(s, p, s.victims[p].page) && s.victims[p].page.lsn < s.durable)
    ensures Trip(es', n, s') && es' == es + [FinishVictim(p)]
    ensures s' == s.(disk := if s.victims[p].dirty then s.disk[p := s.victims[p].page] else s.disk,
                     victims := s.victims - {p}, spare := s.spare + multiset{s.victims[p].recLsn})
  {
    es' := Do(es, n, s, FinishVictim(p));
    s' := After(s, FinishVictim(p));
  }

  lemma DoStartAbort(es: seq<Event>, n: nat, s: State, t: Tid) returns (es': seq<Event>, s': State)
    requires Trip(es, n, s) && s.phase.Running? && t in s.active && s.active[t].status.Active?
    ensures Trip(es', n, s') && es' == es + [StartAbort(t)]
    ensures s' == s.(active := s.active[t := s.active[t].(status := Aborting)])
  {
    es' := Do(es, n, s, StartAbort(t));
    s' := After(s, StartAbort(t));
  }

  lemma DoLogClr(es: seq<Event>, n: nat, s: State, t: Tid, u: Record) returns (es': seq<Event>, s': State)
    requires Trip(es, n, s) && t in s.active && s.active[t].status.Aborting? && s.active[t].pending.None?
    requires s.active[t].undo == [u] && IsData(u)
    ensures Trip(es', n, s') && es' == es + [LogClr(t)]
    ensures s' == s.(log := s.log + [ClrOf(u)], active := s.active[t := s.active[t].(undo := [], pending := Some(|s.log|))])
  {
    es' := Do(es, n, s, LogClr(t));
    s' := After(s, LogClr(t));
  }

  lemma DoApplyClr(es: seq<Event>, n: nat, s: State, t: Tid, k: Lsn) returns (es': seq<Event>, s': State)
    requires Trip(es, n, s) && t in s.active && s.active[t].pending == Some(k) && k < |s.log|
    requires IsPageRecord(s.log[k]) && s.log[k].rid.page in s.cache
    requires |es| == n || s.cache[s.log[k].rid.page].recLsn <= k
    ensures Trip(es', n, s') && es' == es + [ApplyClr(t)]
    ensures var q := s.log[k].rid.page;
            s' == s.(cache := s.cache[q := Stamp(s.cache[q], s.log[k], k)], active := s.active[t := s.active[t].(pending := None)])
  {
    es' := Do(es, n, s, ApplyClr(t));
    s' := After(s, ApplyClr(t));
  }

  lemma DoLogCommit(es: seq<Event>, n: nat, s: State, t: Tid) returns (es': seq<Event>, s': State)
    requires Trip(es, n, s) && s.phase.Running? && t in s.active && s.active[t].status.Active?
    ensures Trip(es', n, s') && es' == es + [LogCommit(t)]
    ensures s' == s.(log := s.log + [Commit(t)], active := s.active[t := s.active[t].(status := Ending(|s.log|))])
  {
    es' := Do(es, n, s, LogCommit(t));
    s' := After(s, LogCommit(t));
  }

  lemma DoLogAbort(es: seq<Event>, n: nat, s: State, t: Tid) returns (es': seq<Event>, s': State)
    requires Trip(es, n, s) && t in s.active && s.active[t].status.Aborting? && s.active[t].undo == [] && s.active[t].pending.None?
    ensures Trip(es', n, s') && es' == es + [LogAbort(t)]
    ensures s' == s.(log := s.log + [Abort(t)], active := s.active[t := s.active[t].(status := Ending(|s.log|))])
  {
    es' := Do(es, n, s, LogAbort(t));
    s' := After(s, LogAbort(t));
  }

  lemma DoAcknowledge(es: seq<Event>, n: nat, s: State, t: Tid, k: Lsn) returns (es': seq<Event>, s': State)
    requires Trip(es, n, s) && t in s.active && s.active[t].status == Ending(k) && k < |s.log| && k <= s.durable
    requires |es| == n || k < s.durable
    ensures Trip(es', n, s') && es' == es + [Acknowledge(t)]
    ensures s' == s.(active := s.active - {t}, acked := if s.log[k].Commit? then s.acked + {t} else s.acked)
  {
    es' := Do(es, n, s, Acknowledge(t));
    s' := After(s, Acknowledge(t));
  }

  lemma DoCheckpointBegin(es: seq<Event>, n: nat, s: State) returns (es': seq<Event>, s': State)
    requires Trip(es, n, s) && s.phase.Running? && s.ckpt.Idle?
    ensures Trip(es', n, s') && es' == es + [CheckpointBegin]
    ensures s' == s.(log := s.log + [BeginCheckpoint], ckpt := Begun(|s.log|))
  {
    es' := Do(es, n, s, CheckpointBegin);
    s' := After(s, CheckpointBegin);
  }

  lemma DoSnapshotPages(es: seq<Event>, n: nat, s: State, dpt: map<PageId, Lsn>) returns (es': seq<Event>, s': State)
    requires Trip(es, n, s) && s.ckpt.Begun? && dpt == DirtyTable(s) && (|es| == n || NothingHidden(s))
    ensures Trip(es', n, s') && es' == es + [SnapshotPages]
    ensures s' == s.(ckpt := PagesSeen(s.ckpt.begin, dpt))
  {
    es' := Do(es, n, s, SnapshotPages);
    s' := After(s, SnapshotPages);
  }

  lemma DoSnapshotTxns(es: seq<Event>, n: nat, s: State, att: map<Tid, Lsn>) returns (es': seq<Event>, s': State)
    requires Trip(es, n, s) && s.ckpt.PagesSeen? && att == BeginTable(s)
    requires forall t :: t in s.active ==> s.active[t].status.Active?
    ensures Trip(es', n, s') && es' == es + [SnapshotTxns]
    ensures s' == s.(ckpt := TxnsSeen(s.ckpt.begin, s.ckpt.dpt, att))
  {
    es' := Do(es, n, s, SnapshotTxns);
    s' := After(s, SnapshotTxns);
  }

  lemma DoCheckpointEnd(es: seq<Event>, n: nat, s: State, tr: Lsn) returns (es': seq<Event>, s': State)
    requires Trip(es, n, s) && s.ckpt.TxnsSeen? && IsLeast(tr, s.ckpt.begin, s.ckpt.att, s.ckpt.dpt)
    ensures Trip(es', n, s') && es' == es + [CheckpointEnd(tr)]
    ensures s' == s.(log := s.log + [EndCheckpoint(s.ckpt.att, s.ckpt.dpt)], ckpt := Logged(tr, |s.log|))
  {
    es' := Do(es, n, s, CheckpointEnd(tr));
    s' := After(s, CheckpointEnd(tr));
  }

  lemma DoWriteMaster(es: seq<Event>, n: nat, s: State, tr: Lsn, e: Lsn) returns (es': seq<Event>, s': State)
    requires Trip(es, n, s) && s.ckpt == Logged(tr, e) && e <= s.durable && tr <= |s.log|
    requires |es| == n || NoStaleEntry(s.log, tr)
    ensures Trip(es', n, s') && es' == es + [WriteMaster] && s' == s.(master := tr, ckpt := Idle)
  {
    es' := Do(es, n, s, WriteMaster);
    s' := After(s, WriteMaster);
  }

  lemma DoCrash(es: seq<Event>, n: nat, s: State) returns (es': seq<Event>, s': State)
    requires Trip(es, n, s) && s.durable <= |s.log|
    ensures Trip(es', n, s') && es' == es + [Crash]
    ensures var log := s.log[..s.durable];
            s' == State(log, s.durable, s.disk, s.master, map[], map[], multiset{}, map[], Idle, Restarted, s.acked, log)
  {
    es' := Do(es, n, s, Crash);
    s' := After(s, Crash);
  }

  lemma DoAnalysis(es: seq<Event>, n: nat, s: State, a: Tables, start: Lsn) returns (es': seq<Event>, s': State)
    requires Trip(es, n, s) && s.phase.Restarted? && s.master <= |s.log|
    requires a == Analyze(s.log, s.master, |s.log|) && IsLeast(start, s.master, map[], a.dpt)
    ensures Trip(es', n, s') && es' == es + [FinishAnalysis(start)]
    ensures s' == s.(phase := Redo(a.dpt, a.att, start, start))
  {
    es' := Do(es, n, s, FinishAnalysis(start));
    s' := After(s, FinishAnalysis(start));
  }

  /** The redo pass when no record has to be applied. */
  lemma {:induction false} DoRedo(es: seq<Event>, n: nat, s: State, dpt: map<PageId, Lsn>, att: map<Tid, Lsn>, start: Lsn, j: nat)
    returns (es': seq<Event>, s': State)
    requires Trip(es, n, s) && s.phase == Redo(dpt, att, start, j) && j <= |s.log| && |es| > n
    requires forall i :: j <= i < |s.log| && IsPageRecord(s.log[i]) && s.log[i].rid.page in dpt ==>
               s.log[i].rid.page in s.cache && i <= s.cache[s.log[i].rid.page].page.lsn
    ensures Trip(es', n, s') && es <= es' && s' == s.(phase := Redo(dpt, att, start, |s.log|))
    decreases |s.log| - j
  {
    if j == |s.log| {
      es', s' := es, s;
    } else {
      es' := Do(es, n, s, RedoOne);
      assert After(s, RedoOne) == s.(phase := Redo(dpt, att, start, j + 1));
      es', s' := DoRedo(es', n, After(s, RedoOne), dpt, att, start, j + 1);
    }
  }

  lemma DoStartUndo(es: seq<Event>, n: nat, s: State, att: map<Tid, Lsn>, from: Lsn, losers: map<Tid, Txn>)
    returns (es': seq<Event>, s': State)
    requires Trip(es, n, s) && s.phase.Redo? && s.phase.cursor == |s.log| && s.phase.att == att && from <= |s.log|
    requires IsUndoStart(from, s.master, s.phase.start, att) && losers == Losers(s.log, att, from)
    ensures Trip(es', n, s') && es' == es + [StartUndo(from)] && s' == s.(phase := Undo, active := losers)
  {
    es' := Do(es, n, s, StartUndo(from));
    s' := After(s, StartUndo(from));
  }

  /** The end of a rollback: the Abort record, its flush and the return of the call. */
  lemma EndAbort(es: seq<Event>, n: nat, s: State, t: Tid) returns (es': seq<Event>, s': State)
    requires Trip(es, n, s) && s.durable <= |s.log| && |es| > n
    requires t in s.active && s.active[t].status.Aborting? && s.active[t].undo == [] && s.active[t].pending.None?
    ensures Trip(es', n, s') && es <= es' && |es'| == |es| + 3
    ensures s' == s.(log := s.log + [Abort(t)], durable := |s.log| + 1, active := s.active - {t})
  {
    var s1, s2;
    es', s1 := DoLogAbort(es, n, s, t);
    es', s2 := DoFlushLog(es', n, s1);
    es', s' := DoAcknowledge(es', n, s2, t, |s.log|);
    assert s2.active - {t} == s.active - {t};
  }

  lemma EndCommit(es: seq<Event>, n: nat, s: State, t: Tid) returns (es': seq<Event>, s': State)
    requires Trip(es, n, s) && s.durable <= |s.log| && s.phase.Running? && t in s.active && s.active[t].status.Active?
    ensures Trip(es', n, s') && es <= es' && |es'| == |es| + 3
    ensures s' == s.(log := s.log + [Commit(t)], durable := |s.log| + 1, active := s.active - {t}, acked := s.acked + {t})
  {
    var s1, s2;
    es', s1 := DoLogCommit(es, n, s, t);
    es', s2 := DoFlushLog(es', n, s1);
    es', s' := DoAcknowledge(es', n, s2, t, |s.log|);
    assert s2.active - {t} == s.active - {t};
  }

  /** A run with one slip that ends with recovery done, row `x` not being the committed one. */
  ghost predicate WrongRow(es: seq<Event>, n: nat, x: Rid) {
    && n < |es| && CarefulBut(es, n) && Run(es).Some? && Enabled(Run(es).value, FinishRecovery)
    && var s := Run(es).value;
       CurrentRow(After(s, FinishRecovery), x) != VisibleRow(CommittedSlot(s.crashLog, x, s.crashLog))
  }

  lemma EndsWrong(es: seq<Event>, n: nat, s: State, x: Rid)
    requires Trip(es, n, s) && |es| > n && s.phase.Undo? && s.active == map[]
    requires CurrentRow(s, x) != VisibleRow(CommittedSlot(s.crashLog, x, s.crashLog))
    ensures WrongRow(es, n, x)
  {
    TripRun(es, n, s);
  }

  /** Analysis, a redo pass that finds nothing to apply, and the start of undo. */
  lemma DoRecover(es: seq<Event>, n: nat, s: State, p: PageId, a: Tables, start: Lsn, from: Lsn, losers: map<Tid, Txn>)
    returns (es': seq<Event>, s': State)
    requires Trip(es, n, s) && |es| > n && s.phase.Restarted? && s.cache == map[] && s.victims == map[] && s.master <= |s.log|
    requires a == Analyze(s.log, s.master, |s.log|) && IsLeast(start, s.master, map[], a.dpt) && start <= |s.log|
    requires forall i :: start <= i < |s.log| && IsPageRecord(s.log[i]) && s.log[i].rid.page in a.dpt ==>
               s.log[i].rid.page == p && i <= DiskPage(s.disk, p).lsn
    requires from <= |s.log| && IsUndoStart(from, s.master, start, a.att) && losers == Losers(s.log, a.att, from)
    ensures Trip(es', n, s') && es <= es'
    ensures s' == s.(cache := map[p := Frame(DiskPage(s.disk, p), false, false, 0)], spare := s.spare - multiset{0},
                     phase := Undo, active := losers)
  {
    var s1, s2, s3;
    es', s1 := DoAnalysis(es, n, s, a, start);
    es', s2 := DoLoad(es', n, s1, p, 0);
    es', s3 := DoRedo(es', n, s2, a.dpt, a.att, start, start);
    es', s' := DoStartUndo(es', n, s3, a.att, from, losers);
    assert s'.cache == map[p := Frame(DiskPage(s.disk, p), false, false, 0)];
  }

  /** Recovery of the empty database. */
  const READY := INITIAL.(phase := Running)

  lemma Boot(n: nat) returns (es: seq<Event>)
    requires n >= 3
    ensures Trip(es, n, READY) && |es| == 3
  {
    var s: State;
    es := [];
    assert Trip(es, n, INITIAL);
    es, s := DoAnalysis(es, n, INITIAL, NO_TABLES, 0);
    es, s := DoStartUndo(es, n, s, map[], 0, map[]);
    es := Do(es, n, s, FinishRecovery);
  }
}
