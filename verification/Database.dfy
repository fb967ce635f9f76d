/** The transaction manager, checkpointer and recovery manager as one object with mutable
    state.  A ghost trace records the events its methods perform; `Valid` says the fields are
    the state that trace leads to and that the trace is guarded, so every theorem about guarded
    runs applies to the object: the methods, run one at a time, are always careful. */
module Database {
  import opened LogModel
  import opened CommittedReplay
  import opened Engine
  import opened EngineInvariant
  import opened CheckpointWindow
  import opened AnalysisProof
  import opened EngineSteps
  import opened RecoveryTheorems
  import opened Rollback
  import opened CommittedRows

  ghost predicate IsRun(es: seq<Event>, r: Option<State>, guarded: bool) {
    r == Run(es) && (guarded <==> Guarded(es))
  }

  /** The guarded run `es` leads to `s`.  Stated through a quantifier, so that a method body that
      only passes the fact on is not burdened with the definition of runs. */
  ghost predicate Reached(es: seq<Event>, s: State) {
    forall r, g :: IsRun(es, r, g) ==> r == Some(s) && g
  }

  lemma ReachedRun(es: seq<Event>, s: State)
    requires Reached(es, s)
    ensures Run(es) == Some(s) && Guarded(es) && Inv(s)
  {
    assert IsRun(es, Run(es), Guarded(es));
    RunsKeepInv(es);
  }

  lemma RunStep(es: seq<Event>, s: State, e: Event)
    requires Reached(es, s) && Enabled(s, e) && Careful(s, e)
    ensures Reached(es + [e], After(s, e))
  {
    ReachedRun(es, s);
    assert (es + [e])[..|es|] == es;
  }

  /** Each listed transaction had not ended when it was listed. */
  ghost predicate ListedAlive(log: Log) {
    forall c: nat, t :: c < |log| && log[c].EndCheckpoint? && t in log[c].att ==> !EndedIn(log, 0, c, t)
  }

  predicate Marked(cache: map<PageId, Frame>) { forall p :: p in cache ==> !cache[p].unmarked }

  /** A slot that no listed transaction has touched shows its committed row. */
  ghost predicate ShowsCommitted(s: State) {
    forall x :: (forall t :: t in s.active ==> Untouched(s.log, t, x)) ==> IsCommittedRow(s.log, x, CurrentRow(s, x))
  }

  /** Every recLSN of the pool is at most `b`. */
  predicate RecLsnsAtMost(cache: map<PageId, Frame>, b: Lsn) { forall p :: p in cache ==> cache[p].recLsn <= b }

  predicate PendsOnlyOn(s: State, p: PageId) {
    forall t :: t in s.active && s.active[t].pending.Some? && s.active[t].pending.value < |s.log| ==>
      OnPage(s.log[s.active[t].pending.value], p)
  }

  predicate TidsAtMost(r: Record, v: Tid) {
    if r.EndCheckpoint? then forall t :: t in r.att ==> t <= v
    else r.BeginCheckpoint? || r.tid <= v
  }

  predicate MentionsTid(r: Record, v: Tid) {
    if r.EndCheckpoint? then v in r.att else !r.BeginCheckpoint? && r.tid == v
  }

  class Db {
    const capacity: nat
    var log: Log
    var durable: nat
    var disk: map<PageId, Page>
    var master: Lsn
    var cache: map<PageId, Frame>
    var active: map<Tid, Txn>
    ghost var victims: map<PageId, Frame>
    ghost var spare: multiset<Lsn>
    ghost var ckpt: Checkpointer
    ghost var phase: Phase
    ghost var acked: set<Tid>
    ghost var crashLog: Log
    ghost var trace: seq<Event>

    ghost function S(): State
      reads this
    {
      State(log, durable, disk, master, cache, victims, spare, active, ckpt, phase, acked, crashLog)
    }

    ghost predicate Traced()
      reads this
    {
      Reached(trace, S())
    }

    /** Between calls no eviction is under way and no changed page is unmarked. */
    ghost predicate Valid()
      reads this
    {
      Traced() && victims == map[] && spare == multiset{} && Marked(cache) && ListedAlive(log)
    }

    constructor (capacity: nat)
      ensures Valid() && phase.Restarted? && log == []
    {
      this.capacity := capacity;
      log, durable, disk, master := [], 0, map[], 0;
      cache, active, ckpt, phase, acked, crashLog := map[], map[], Idle, Restarted, {}, [];
      victims, spare := map[], multiset{};
      trace := [];
      new;
      assert Run([]) == Some(S());
    }

    // -------------------------------------------------------------- buffer pool and log

    method TakeOut(v: PageId)
      requires Valid() && v in cache && v !in victims
      modifies this`cache, this`victims, this`trace
      ensures Traced() && victims == map[v := old(cache)[v]] && cache == old(cache) - {v}
    {
      RunStep(trace, S(), TakeVictim(v));
      victims := victims[v := cache[v]];
      cache := cache - {v};
      trace := trace + [TakeVictim(v)];
    }

    method WriteBack(v: PageId, f: Frame)
      requires Traced() && v in victims && f == victims[v] && (forall t :: !Pends(S(), t, v))
      requires f.dirty && f.page.lsn != 0 ==> f.page.lsn < durable
      modifies this`disk, this`victims, this`spare, this`trace
      ensures Traced() && victims == old(victims) - {v} && spare == old(spare) + multiset{f.recLsn}
    {
      RunStep(trace, S(), FinishVictim(v));
      disk := if f.dirty then disk[v := f.page] else disk;
      victims, spare := victims - {v}, spare + multiset{f.recLsn};
      trace := trace + [FinishVictim(v)];
    }

    /** Takes a page out of the pool, forcing the log up to its page LSN and writing it back if it
        is dirty.  The recLSN of its frame stays in the frame. */
    method Evict(v: PageId, ghost p: PageId) returns (recLsn: Lsn)
      requires Valid() && v in cache && v != p && PendsOnlyOn(S(), p)
      modifies this`durable, this`disk, this`cache, this`victims, this`spare, this`trace
      ensures Traced() && victims == map[] && spare == multiset{recLsn}
      ensures cache == old(cache) - {v} && recLsn == old(cache)[v].recLsn
    {
      FrameFacts(trace, S(), v);
      var f := cache[v];
      recLsn := f.recLsn;
      TakeOut(v);
      if f.dirty && f.page.lsn != 0 { WaitUntilFlushed(f.page.lsn + 1); }
      NoPendsOn(S(), p, v);
      WriteBack(v, f);
    }

    method Load(p: PageId, recLsn: Lsn)
      requires Traced() && !phase.Restarted? && p !in cache && victims == map[] && Marked(cache) && ListedAlive(log)
      requires spare == if recLsn in spare then multiset{recLsn} else multiset{}
      requires recLsn == 0 || recLsn in spare
      modifies this`cache, this`spare, this`trace
      ensures Valid() && cache == old(cache)[p := Frame(DiskPage(disk, p), false, false, recLsn)]
    {
      RunStep(trace, S(), LoadPage(p, recLsn));
      cache := cache[p := Frame(DiskPage(disk, p), false, false, recLsn)];
      spare := spare - multiset{recLsn};
      trace := trace + [LoadPage(p, recLsn)];
    }

    /** Reads a page into the frame of another. */
    method Replace(p: PageId)
      requires Valid() && !phase.Restarted? && PendsOnlyOn(S(), p) && p !in cache && cache != map[]
      modifies this`durable, this`disk, this`cache, this`victims, this`spare, this`trace
      ensures Valid() && p in cache && cache[p].page == DiskPage(disk, p) && |cache| == |old(cache)|
      ensures cache.Keys - {p} <= old(cache).Keys && forall b :: RecLsnsAtMost(old(cache), b) ==> RecLsnsAtMost(cache, b)
    {
      var v :| v in cache;
      var recLsn := Evict(v, p);
      ghost var before := old(cache);
      Load(p, recLsn);
      KeysReplaced(before, v, p, cache[p]);
    }

    /** Reads a page into a frame unless it is cached; a full pool gives up another page first. */
    method GetPage(p: PageId, ghost b: Lsn)
      requires Valid() && !phase.Restarted? && PendsOnlyOn(S(), p) && RecLsnsAtMost(cache, b)
      modifies this`durable, this`disk, this`cache, this`victims, this`spare, this`trace
      ensures Valid() && p in cache && RecLsnsAtMost(cache, b)
      ensures p in old(cache) ==> cache == old(cache)
      ensures p !in old(cache) ==> cache[p].page == DiskPage(disk, p)
      ensures p !in old(cache) ==> cache.Keys - {p} <= old(cache).Keys
      ensures |old(cache)| < capacity ==> cache.Keys == old(cache).Keys + {p}
      ensures 0 < |old(cache)| <= capacity ==> |cache| <= capacity
    {
      if p in cache { return; }
      if |cache| >= capacity && cache != map[] {
        Replace(p);
      } else {
        Load(p, 0);
      }
    }

    method WaitUntilFlushed(n: nat)
      requires Traced() && n <= |log|
      modifies this`durable, this`trace
      ensures Traced() && old(durable) <= |log| && durable == if n <= old(durable) then old(durable) else n
    {
      DurableFacts(trace, S());
      if durable < n {
        RunStep(trace, S(), FlushLog(n));
        durable := n;
        trace := trace + [FlushLog(n)];
      }
    }

    /** The unpin that marks a changed page dirty. */
    method Unpin(p: PageId)
      requires Traced() && p in cache && victims == map[] && spare == multiset{} && ListedAlive(log)
      requires forall q :: q in cache && q != p ==> !cache[q].unmarked
      modifies this`cache, this`trace
      ensures Valid() && cache == old(cache)[p := old(cache)[p].(dirty := true, unmarked := false)]
      ensures trace == old(trace) + [MarkDirty(p)]
    {
      RunStep(trace, S(), MarkDirty(p));
      cache := cache[p := cache[p].(dirty := true, unmarked := false)];
      trace := trace + [MarkDirty(p)];
    }

    /** The background flusher writes a dirty page whose page LSN is durable. */
    method FlushDirtyPage(p: PageId)
      requires Valid() && p in cache && cache[p].dirty && (cache[p].page.lsn == 0 || cache[p].page.lsn < durable)
      requires forall t :: t in active ==> active[t].pending.None?
      modifies this`disk, this`cache, this`trace
      ensures Valid() && p in disk && disk[p] == old(cache)[p].page && p in cache && !cache[p].dirty
    {
      RunStep(trace, S(), FlushPage(p));
      disk := disk[p := cache[p].page];
      cache := cache[p := cache[p].(dirty := false, unmarked := false)];
      trace := trace + [FlushPage(p)];
    }

    // -------------------------------------------------------------- transactions

    method BeginTransaction(t: Tid)
      requires Valid() && Enabled(S(), BeginTxn(t))
      modifies this`log, this`active, this`trace
      ensures Valid() && trace == old(trace) + [BeginTxn(t)]
      ensures log == old(log) + [Begin(t)] && active == old(active)[t := Txn(|old(log)|, [], Active, None)]
    {
      RunStep(trace, S(), BeginTxn(t));
      AliveAppend(log, Begin(t));
      active := active[t := Txn(|log|, [], Active, None)];
      log := log + [Begin(t)];
      trace := trace + [BeginTxn(t)];
    }

    /** Logs a data record and applies it to its page under the latch, then unpins the page.  The
        row shows the new bytes, or is gone; no other row changes. */
    method LogAndApply(r: Record)
      requires Valid() && Enabled(S(), Write(r))
      modifies this`log, this`cache, this`active, this`trace
      ensures Valid() && trace == old(trace) + [Write(r), MarkDirty(r.rid.page)] && log == old(log) + [r]
      ensures active == old(active)[r.tid := old(active)[r.tid].(undo := old(active)[r.tid].undo + [r])]
      ensures r.Insert? || r.Update? ==> CurrentRow(S(), r.rid) == Some(r.after)
      ensures r.Delete? ==> CurrentRow(S(), r.rid) == None
      ensures forall x :: x != r.rid ==> CurrentRow(S(), x) == old(CurrentRow(S(), x))
    {
      ghost var es, s := trace, S();
      AppendAndChange(r);
      ghost var w := S();
      Unpin(r.rid.page);
      RowsAfterWrite(es, s, r, w, S());
    }

    /** The record is appended and the cached page changed under one latch. */
    method AppendAndChange(r: Record)
      requires Valid() && Enabled(S(), Write(r))
      modifies this`log, this`cache, this`active, this`trace
      ensures Traced() && S() == After(old(S()), Write(r)) && trace == old(trace) + [Write(r)] && ListedAlive(log)
    {
      RunStep(trace, S(), Write(r));
      AliveAppend(log, r);
      var lsn := |log|;
      log := log + [r];
      cache := cache[r.rid.page := Stamp(cache[r.rid.page], r, lsn)];
      active := active[r.tid := active[r.tid].(undo := active[r.tid].undo + [r])];
      trace := trace + [Write(r)];
    }

    method AppendEnd(t: Tid, r: Record)
      requires Valid() && (r == Commit(t) || r == Abort(t))
      requires Enabled(S(), if r == Commit(t) then LogCommit(t) else LogAbort(t))
      modifies this`log, this`active, this`trace
      ensures Valid() && log == old(log) + [r]
      ensures active == old(active)[t := old(active)[t].(status := Ending(|old(log)|))]
    {
      ghost var e := if r == Commit(t) then LogCommit(t) else LogAbort(t);
      RunStep(trace, S(), e);
      AliveAppend(log, r);
      active := active[t := active[t].(status := Ending(|log|))];
      log := log + [r];
      trace := trace + [e];
    }

    method Leave(t: Tid)
      requires Valid() && Enabled(S(), Acknowledge(t)) && active[t].status.lsn < durable
      modifies this`active, this`acked, this`trace
      ensures Valid() && active == old(active) - {t}
      ensures acked == if log[old(active)[t].status.lsn].Commit? then old(acked) + {t} else old(acked)
    {
      RunStep(trace, S(), Acknowledge(t));
      acked := if log[active[t].status.lsn].Commit? then acked + {t} else acked;
      active := active - {t};
      trace := trace + [Acknowledge(t)];
    }

    /** Appends an end record, waits for it to be durable, and leaves the active table. */
    method Finish(t: Tid, r: Record)
      requires Valid() && (r == Commit(t) || r == Abort(t))
      requires Enabled(S(), if r == Commit(t) then LogCommit(t) else LogAbort(t))
      modifies this`log, this`durable, this`active, this`acked, this`trace
      ensures Valid() && log == old(log) + [r] && durable == |log| && active == old(active) - {t}
      ensures acked == if r == Commit(t) then old(acked) + {t} else old(acked)
    {
      AppendEnd(t, r);
      WaitUntilFlushed(|log|);
      Leave(t);
    }

    method CommitTransaction(t: Tid)
      requires Valid() && Enabled(S(), LogCommit(t))
      modifies this`log, this`durable, this`active, this`acked, this`trace
      ensures Valid() && log == old(log) + [Commit(t)] && durable == |log|
      ensures active == old(active) - {t} && acked == old(acked) + {t}
      ensures ShowsCommitted(S())
    {
      Finish(t, Commit(t));
      CommittedShown(trace, S());
    }

    method AppendClr(t: Tid, clr: Record)
      requires Valid() && Enabled(S(), LogClr(t)) && clr == ClrOf(Last(active[t].undo))
      requires forall u :: u in active ==> active[u].pending.None?
      modifies this`log, this`active, this`trace
      ensures Valid() && log == old(log) + [clr] && PendsOnlyOn(S(), clr.rid.page)
      ensures active == old(active)[t := old(active)[t].(undo := Init(old(active)[t].undo), pending := Some(|old(log)|))]
    {
      RunStep(trace, S(), LogClr(t));
      AliveAppend(log, clr);
      active := active[t := active[t].(undo := Init(active[t].undo), pending := Some(|log|))];
      log := log + [clr];
      trace := trace + [LogClr(t)];
    }

    method ApplyPending(t: Tid, clr: Record, lsn: Lsn)
      requires Valid() && t in active && active[t].pending == Some(lsn) && lsn < |log| && log[lsn] == clr
      requires IsPageRecord(clr) && clr.rid.page in cache && cache[clr.rid.page].recLsn <= lsn
      modifies this`cache, this`active, this`trace
      ensures Valid() && active == old(active)[t := old(active)[t].(pending := None)]
    {
      RunStep(trace, S(), ApplyClr(t));
      cache := cache[clr.rid.page := Stamp(cache[clr.rid.page], clr, lsn)];
      active := active[t := active[t].(pending := None)];
      trace := trace + [ApplyClr(t)];
      Unpin(clr.rid.page);
    }

    /** Logs the compensation of the newest pending record, then fetches its page, applies it under
        the latch and unpins the page. */
    method UndoNewest(t: Tid)
      requires Valid() && (phase.Running? || phase.Undo?)
      requires t in active && active[t].status.Aborting? && active[t].undo != []
      requires forall u :: u in active[t].undo ==> IsData(u)
      requires forall u :: u in active ==> active[u].pending.None?
      modifies this`log, this`durable, this`disk, this`cache, this`victims, this`spare, this`active, this`trace
      ensures Valid() && log == old(log) + [ClrOf(Last(old(active[t].undo)))]
      ensures active == old(active)[t := old(active[t]).(undo := Init(old(active[t].undo)))]
    {
      var us, lsn := active[t].undo, |log|;
      assert Last(us) in us;
      var clr := ClrOf(Last(us));
      RecLsnFacts(trace, S());
      AppendClr(t, clr);
      GetPage(clr.rid.page, lsn);
      assert active[t].pending == Some(lsn) && log[lsn] == clr;
      ApplyPending(t, clr, lsn);
    }

    method MarkAborting(t: Tid)
      requires Valid() && (phase.Running? || phase.Undo?) && t in active && !active[t].status.Ending?
      modifies this`active, this`trace
      ensures Valid() && active == old(active)[t := old(active)[t].(status := Aborting)]
    {
      if active[t].status.Active? {
        UndoFacts(trace, S(), t);
        RunStep(trace, S(), StartAbort(t));
        active := active[t := active[t].(status := Aborting)];
        trace := trace + [StartAbort(t)];
      }
    }

    method UndoAll(t: Tid)
      requires Valid() && (phase.Running? || phase.Undo?)
      requires t in active && active[t].status.Aborting?
      requires forall u :: u in active[t].undo ==> IsData(u)
      requires forall u :: u in active ==> active[u].pending.None?
      modifies this`log, this`durable, this`disk, this`cache, this`victims, this`spare, this`active, this`trace
      ensures Valid() && log == old(log) + Compensations(old(active[t].undo))
      ensures active == old(active)[t := old(active[t]).(undo := [])]
    {
      ghost var all := active[t].undo;
      var k := |active[t].undo|;
      assert all[k..] == [] && all[..k] == all;
      while k > 0
        invariant 0 <= k <= |all| && Valid()
        invariant t in active && active == old(active)[t := old(active[t]).(undo := all[..k])]
        invariant log == old(log) + Compensations(all[k..])
      {
        CompensationsCons(all, k);
        TakeSucc(all, k - 1);
        UndoNewest(t);
        k := k - 1;
      }
      assert all[0..] == all && all[..0] == [];
    }

    /** Rolls a transaction back: one compensation per pending record, newest first, then the
        Abort record. */
    method AbortTransaction(t: Tid)
      requires Valid() && (phase.Running? || phase.Undo?) && t in active && !active[t].status.Ending?
      requires forall u :: u in active ==> active[u].pending.None?
      modifies this`log, this`durable, this`disk, this`cache, this`victims, this`spare, this`active, this`acked, this`trace
      ensures Valid() && durable == |log| && active == old(active) - {t} && acked == old(acked)
      ensures log == old(log) + Compensations(old(active[t].undo)) + [Abort(t)]
      ensures ShowsCommitted(S())
    {
      UndoFacts(trace, S(), t);
      MarkAborting(t);
      UndoAll(t);
      Finish(t, Abort(t));
      assert active == old(active) - {t};
      CommittedShown(trace, S());
    }

    // -------------------------------------------------------------- checkpoints

    /** The truncation LSN, lowered entry by entry. */
    static method Truncation(beginLsn: Lsn, att: map<Tid, Lsn>, dpt: map<PageId, Lsn>) returns (v: Lsn)
      ensures IsLeast(v, beginLsn, att, dpt)
    {
      v := beginLsn;
      var ts := att.Keys;
      while ts != {}
        invariant ts <= att.Keys && v <= beginLsn
        invariant forall t :: t in att && t !in ts ==> v <= att[t]
        invariant v == beginLsn || exists t :: t in att && v == att[t]
        decreases ts
      {
        var t :| t in ts;
        ts := ts - {t};
        if v > att[t] { v := att[t]; }
      }
      var u := SmallestRecLsn(v, dpt);
      v := u;
    }

    method BeginRecord() returns (begin: Lsn)
      requires Valid() && phase.Running? && ckpt.Idle?
      modifies this`log, this`ckpt, this`trace
      ensures Valid() && log == old(log) + [BeginCheckpoint] && begin == |old(log)| && ckpt == Begun(begin)
    {
      begin := |log|;
      RunStep(trace, S(), CheckpointBegin);
      AliveAppend(log, BeginCheckpoint);
      log, ckpt, trace := log + [BeginCheckpoint], Begun(|log|), trace + [CheckpointBegin];
    }

    method DirtyPageSnapshot() returns (dpt: map<PageId, Lsn>)
      requires Valid() && phase.Running? && ckpt.Begun? && forall t :: t in active ==> active[t].status.Active?
      modifies this`ckpt, this`trace
      ensures Valid() && dpt == DirtyTable(S()) && ckpt == PagesSeen(old(ckpt).begin, dpt)
    {
      NothingHiddenNow(trace, S());
      RunStep(trace, S(), SnapshotPages);
      dpt := map p | p in cache && cache[p].dirty :: cache[p].recLsn;
      ckpt, trace := PagesSeen(ckpt.begin, dpt), trace + [SnapshotPages];
    }

    method TransactionSnapshot() returns (att: map<Tid, Lsn>)
      requires Valid() && phase.Running? && ckpt.PagesSeen? && forall t :: t in active ==> active[t].status.Active?
      modifies this`ckpt, this`trace
      ensures Valid() && att == BeginTable(S()) && ckpt == TxnsSeen(old(ckpt).begin, old(ckpt).dpt, att)
    {
      RunStep(trace, S(), SnapshotTxns);
      att := map t | t in active :: active[t].begin;
      ckpt, trace := TxnsSeen(ckpt.begin, ckpt.dpt, att), trace + [SnapshotTxns];
    }

    method LogTables(tr: Lsn, begin: Lsn, att: map<Tid, Lsn>, dpt: map<PageId, Lsn>)
      requires Valid() && ckpt == TxnsSeen(begin, dpt, att) && IsLeast(tr, begin, att, dpt)
      requires forall t :: t in att ==> !EndedIn(log, 0, |log|, t)
      modifies this`log, this`ckpt, this`trace
      ensures Valid() && log == old(log) + [EndCheckpoint(att, dpt)] && ckpt == Logged(tr, |old(log)|)
    {
      RunStep(trace, S(), CheckpointEnd(tr));
      AliveAppend(log, EndCheckpoint(att, dpt));
      ckpt := Logged(tr, |log|);
      log := log + [EndCheckpoint(att, dpt)];
      trace := trace + [CheckpointEnd(tr)];
    }

    method SetMaster(tr: Lsn)
      requires Valid() && Enabled(S(), WriteMaster) && tr == ckpt.truncation
      modifies this`master, this`ckpt, this`trace
      ensures Valid() && master == tr && ckpt.Idle?
    {
      MasterFacts(trace, S());
      RunStep(trace, S(), WriteMaster);
      master := tr;
      ckpt := Idle;
      trace := trace + [WriteMaster];
    }

    /** Logs the two tables; the result is the truncation LSN. */
    method LogCheckpoint() returns (tr: Lsn)
      requires Valid() && phase.Running? && ckpt.Idle?
      requires forall t :: t in active ==> active[t].status.Active?
      modifies this`log, this`ckpt, this`trace
      ensures Valid() && ckpt == Logged(tr, |old(log)| + 1)
      ensures log == old(log) + [BeginCheckpoint] + [EndCheckpoint(BeginTable(old(S())), DirtyTable(old(S())))]
      ensures IsLeast(tr, |old(log)|, BeginTable(old(S())), DirtyTable(old(S())))
    {
      var begin := BeginRecord();
      var dpt := DirtyPageSnapshot();
      var att := TransactionSnapshot();
      tr := Truncation(begin, att, dpt);
      ListedFacts(trace, S());
      LogTables(tr, begin, att, dpt);
    }

    /** A fuzzy checkpoint: no page is written. */
    method Checkpoint() returns (tr: Lsn)
      requires Valid() && phase.Running? && ckpt.Idle?
      requires forall t :: t in active ==> active[t].status.Active?
      modifies this`log, this`durable, this`master, this`ckpt, this`trace
      ensures Valid() && ckpt.Idle? && master == tr && durable == |log|
      ensures log == old(log) + [BeginCheckpoint] + [EndCheckpoint(BeginTable(old(S())), DirtyTable(old(S())))]
      ensures IsLeast(tr, |old(log)|, BeginTable(old(S())), DirtyTable(old(S())))
    {
      tr := LogCheckpoint();
      DurableFacts(trace, S());
      WaitUntilFlushed(|log|);
      SetMaster(tr);
    }

    // -------------------------------------------------------------- recovery

    /** Memory and the unflushed tail of the log are lost. */
    method Fail()
      requires Valid()
      modifies this
      ensures Valid() && phase.Restarted? && disk == old(disk) && master == old(master)
      ensures old(durable) <= |old(log)| && log == old(log)[..old(durable)]
    {
      DurableFacts(trace, S());
      RunStep(trace, S(), Crash);
      AlivePrefix(log, durable);
      log := log[..durable];
      cache, active, ckpt, phase, crashLog := map[], map[], Idle, Restarted, log;
      trace := trace + [Crash];
    }

    /** Scans the log from the master record and rebuilds the two tables. */
    method AnalysisPass() returns (dpt: map<PageId, Lsn>, att: map<Tid, Lsn>, largest: Tid)
      requires Valid() && master <= |log|
      ensures dpt == Analyze(log, master, |log|).dpt && att == Analyze(log, master, |log|).att
      ensures forall i :: master <= i < |log| ==> TidsAtMost(log[i], largest)
      ensures largest == 0 || exists i :: master <= i < |log| && MentionsTid(log[i], largest)
    {
      dpt, att, largest := map[], map[], 0;
      var inactive: set<Tid> := {};
      var j := master;
      while j < |log|
        invariant master <= j <= |log|
        invariant Tables(dpt, att, inactive) == Analyze(log, master, j)
        invariant forall i :: master <= i < j ==> TidsAtMost(log[i], largest)
        invariant largest == 0 || exists i :: master <= i < j && MentionsTid(log[i], largest)
      {
        var r := log[j];
        ghost var before := largest;
        if r.Commit? || r.Abort? {
          inactive := inactive + {r.tid};
          att := att - {r.tid};
          if r.tid > largest { largest := r.tid; }
        } else if r.Begin? {
          if r.tid !in inactive { att := att[r.tid := j]; }
          if r.tid > largest { largest := r.tid; }
        } else if IsPageRecord(r) {
          if r.rid.page !in dpt { dpt := dpt[r.rid.page := j]; }
          if r.tid > largest { largest := r.tid; }
        } else if r.EndCheckpoint? {
          att, largest := ReadTransactionTable(r.att, att, inactive, largest);
          dpt := ReadDirtyTable(r.dpt, dpt);
        }
        assert largest == before || MentionsTid(log[j], largest);
        j := j + 1;
      }
    }

    /** The loop over the transaction entries of a checkpoint. */
    static method ReadTransactionTable(entries: map<Tid, Lsn>, att0: map<Tid, Lsn>, inactive: set<Tid>, largest0: Tid)
      returns (att: map<Tid, Lsn>, largest: Tid)
      ensures att == att0 + (map t | t in entries && t !in inactive :: entries[t])
      ensures largest0 <= largest && forall t :: t in entries ==> t <= largest
      ensures largest == largest0 || largest in entries
    {
      att, largest := att0, largest0;
      var rest := entries.Keys;
      while rest != {}
        invariant rest <= entries.Keys && largest0 <= largest && (largest == largest0 || largest in entries)
        invariant att == att0 + (map t | t in entries && t !in rest && t !in inactive :: entries[t])
        invariant forall t :: t in entries && t !in rest ==> t <= largest
        decreases rest
      {
        var t :| t in rest;
        rest := rest - {t};
        if t !in inactive { att := att[t := entries[t]]; }
        if t > largest { largest := t; }
      }
    }

    /** The loop over the dirty-page entries: an entry already known is kept. */
    static method ReadDirtyTable(entries: map<PageId, Lsn>, dpt0: map<PageId, Lsn>) returns (dpt: map<PageId, Lsn>)
      ensures dpt == entries + dpt0
    {
      dpt := dpt0;
      var rest := entries.Keys;
      while rest != {}
        invariant rest <= entries.Keys
        invariant dpt == (map p | p in entries && p !in rest :: entries[p]) + dpt0
        decreases rest
      {
        var p :| p in rest;
        rest := rest - {p};
        if p !in dpt { dpt := dpt[p := entries[p]]; }
      }
    }

    static method SmallestRecLsn(bound: Lsn, dpt: map<PageId, Lsn>) returns (v: Lsn)
      ensures IsLeast(v, bound, map[], dpt)
    {
      v := bound;
      var rest := dpt.Keys;
      while rest != {}
        invariant rest <= dpt.Keys && v <= bound
        invariant forall p :: p in dpt && p !in rest ==> v <= dpt[p]
        invariant v == bound || exists p :: p in dpt && v == dpt[p]
        decreases rest
      {
        var p :| p in rest;
        rest := rest - {p};
        if dpt[p] < v { v := dpt[p]; }
      }
    }

    /** The test compares with the start of redo, as in the program. */
    static method UndoStart(bound: Lsn, redoStart: Lsn, att: map<Tid, Lsn>) returns (v: Lsn)
      ensures IsUndoStart(v, bound, redoStart, att)
    {
      v := bound;
      var rest := att.Keys;
      while rest != {}
        invariant rest <= att.Keys
        invariant ((forall t :: t in att && t !in rest ==> redoStart <= att[t]) && v == bound)
               || (exists t :: t in att && att[t] < redoStart && v == att[t])
        decreases rest
      {
        var t :| t in rest;
        rest := rest - {t};
        if att[t] < redoStart { v := att[t]; }
      }
    }

    method RedoChange(j: nat, f: Frame)
      requires Traced() && phase.Redo? && phase.cursor == j < |log|
      requires RedoApplies(S(), log[j]) && log[j].rid.page in cache && cache[log[j].rid.page] == f && f.page.lsn < j
      modifies this`cache, this`phase, this`trace
      ensures Traced() && phase == old(phase).(cursor := j + 1)
      ensures cache == old(cache)[log[j].rid.page := Stamp(f, log[j], j)]
    {
      RedoReached(trace, S(), j, f);
      cache := cache[log[j].rid.page := Stamp(f, log[j], j)];
      phase := phase.(cursor := j + 1);
      trace := trace + [RedoOne];
    }

    method RedoOnPage(j: nat)
      requires Valid() && phase.Redo? && phase.cursor == j < |log|
      requires RedoApplies(S(), log[j]) && log[j].rid.page in cache && cache[log[j].rid.page].page.lsn < j
      modifies this`cache, this`phase, this`trace
      ensures Valid() && phase == old(phase).(cursor := j + 1)
    {
      RedoChange(j, cache[log[j].rid.page]);
      Unpin(log[j].rid.page);
    }

    method RedoSkip(j: nat)
      requires Valid() && phase.Redo? && phase.cursor == j < |log|
      requires RedoApplies(S(), log[j]) ==> log[j].rid.page in cache && j <= cache[log[j].rid.page].page.lsn
      modifies this`phase, this`trace
      ensures Valid() && phase == old(phase).(cursor := j + 1)
    {
      RunStep(trace, S(), RedoOne);
      assert After(S(), RedoOne) == S().(phase := phase.(cursor := j + 1));
      phase := phase.(cursor := j + 1);
      trace := trace + [RedoOne];
    }

    /** One record of the redo scan: skipped if its page has no entry in the table, if it is
        older than the entry, or if the page already has it. */
    method RedoRecord(dpt: map<PageId, Lsn>, j: nat)
      requires Valid() && phase.Redo? && phase.dpt == dpt && phase.cursor == j < |log|
      modifies this`durable, this`disk, this`cache, this`victims, this`spare, this`phase, this`trace
      ensures Valid() && phase == old(phase).(cursor := j + 1)
    {
      var r := log[j];
      if IsPageRecord(r) && r.rid.page in dpt && dpt[r.rid.page] <= j {
        NothingPends(trace, S());
        RecLsnFacts(trace, S());
        GetPage(r.rid.page, Now(S()));
        if cache[r.rid.page].page.lsn < j { RedoOnPage(j); } else { RedoSkip(j); }
      } else {
        RedoSkip(j);
      }
    }

    method RedoPass(dpt: map<PageId, Lsn>, start: Lsn)
      requires Valid() && phase.Redo? && phase.dpt == dpt && phase.cursor == start <= |log|
      modifies this`durable, this`disk, this`cache, this`victims, this`spare, this`phase, this`trace
      ensures Valid() && phase == old(phase).(cursor := |log|)
    {
      var j := start;
      while j < |log|
        invariant j <= |log|
        invariant Valid() && phase == old(phase).(cursor := j)
      {
        RedoRecord(dpt, j);
        j := j + 1;
      }
    }

    /** Feeds the log to the undo buffers of the losers; a compensation never meets an empty
        buffer. */
    method RebuildPass(att: map<Tid, Lsn>, start: Lsn) returns (bufs: map<Tid, seq<Record>>)
      requires WellFormed(log) && start <= |log|
      requires forall t :: t in att ==> start <= att[t] < |log| && log[att[t]] == Begin(t)
      ensures bufs.Keys == att.Keys && forall t :: t in att ==> bufs[t] == Rebuild(log, start, |log|, t)
    {
      bufs := map t | t in att :: [];
      var j := start;
      while j < |log|
        invariant start <= j <= |log| && bufs.Keys == att.Keys
        invariant forall t :: t in att ==> bufs[t] == Rebuild(log, start, j, t)
      {
        var r := log[j];
        if IsPageRecord(r) && r.tid in bufs {
          var t := r.tid;
          if IsClr(r) {
            CompensationHasTarget(log, att[t], start, j, t);
            assert bufs[t] != [];
          }
          bufs := bufs[t := BufferForRecovery(bufs[t], r)];
        }
        j := j + 1;
      }
    }

    method AnalysisPhase() returns (dpt: map<PageId, Lsn>, att: map<Tid, Lsn>, start: Lsn)
      requires Valid() && phase.Restarted?
      modifies this`phase, this`trace
      ensures Valid() && phase == Redo(dpt, att, start, start) && start <= |log|
      ensures log == crashLog
    {
      RestartFacts(trace, S());
      var largest;
      dpt, att, largest := AnalysisPass();
      start := SmallestRecLsn(master, dpt);
      RunStep(trace, S(), FinishAnalysis(start));
      phase, trace := Redo(dpt, att, start, start), trace + [FinishAnalysis(start)];
    }

    /** A fresh context for every loser, its undo log filled by the scan. */
    method RestartLosers(att: map<Tid, Lsn>, from: Lsn) returns (losers: map<Tid, Txn>)
      requires WellFormed(log) && from <= |log|
      requires forall t :: t in att ==> from <= att[t] < |log| && log[att[t]] == Begin(t)
      ensures losers == Losers(log, att, from)
    {
      var bufs := RebuildPass(att, from);
      losers := map t | t in att :: Txn(att[t], bufs[t], Aborting, None);
    }

    method EnterUndo(from: Lsn, losers: map<Tid, Txn>)
      requires Valid() && Enabled(S(), StartUndo(from)) && losers == Losers(log, phase.att, from)
      modifies this`active, this`phase, this`trace
      ensures Valid() && phase.Undo? && active == losers
    {
      RunStep(trace, S(), StartUndo(from));
      active := losers;
      phase, trace := Undo, trace + [StartUndo(from)];
    }

    method UndoSetup(att: map<Tid, Lsn>, start: Lsn)
      requires Valid() && phase.Redo? && phase.cursor == |log| && phase.att == att && phase.start == start
      modifies this`active, this`phase, this`trace
      ensures Valid() && phase.Undo?
      ensures forall t :: t in active ==> active[t].status.Aborting? && active[t].pending.None?
    {
      var from := UndoStart(master, start, att);
      UndoStartFacts(trace, S(), from);
      var losers := RestartLosers(att, from);
      EnterUndo(from, losers);
    }

    method UndoPhase()
      requires Valid() && phase.Undo?
      requires forall t :: t in active ==> active[t].status.Aborting? && active[t].pending.None?
      modifies this`log, this`durable, this`disk, this`cache, this`victims, this`spare, this`active, this`acked, this`trace
      ensures Valid() && active == map[] && acked == old(acked)
    {
      while active != map[]
        invariant Valid() && acked == old(acked)
        invariant forall t :: t in active ==> active[t].status.Aborting? && active[t].pending.None?
        decreases active.Keys
      {
        var t :| t in active;
        AbortTransaction(t);
      }
    }

    /** Analysis, redo, undo.  When it returns, the visible rows are those of the transactions
        whose Commit record the durable log held when recovery began: each slot shows the image of
        its newest change by one of them. */
    method Recover()
      requires Valid() && phase.Restarted?
      modifies this
      ensures Valid() && phase.Running? && active == map[]
      ensures forall x :: CurrentRow(S(), x) == VisibleRow(CommittedSlot(old(log), x, old(log)))
      ensures forall x :: IsCommittedRow(old(log), x, CurrentRow(S(), x))
      ensures forall t :: t in acked ==> Commit(t) in old(log)
    {
      var dpt, att, start := AnalysisPhase();
      RedoPass(dpt, start);
      UndoSetup(att, start);
      UndoPhase();
      RecoveryFacts(trace, S(), old(log));
      RunStep(trace, S(), FinishRecovery);
      phase, trace := Running, trace + [FinishRecovery];
    }
  }

  // ---------------------------------------------------------------- facts about reached states

  lemma DurableFacts(es: seq<Event>, s: State)
    requires Reached(es, s)
    ensures s.durable <= |s.log|
  {
    ReachedRun(es, s);
  }

  lemma FrameFacts(es: seq<Event>, s: State, p: PageId)
    requires Reached(es, s) && p in s.cache
    ensures p !in s.victims && s.durable <= |s.log| && (s.cache[p].page.lsn == 0 || s.cache[p].page.lsn < |s.log|)
  {
    ReachedRun(es, s);
    assert FrameOk(s.log, p, DiskPage(s.disk, p), Frames(s)[p], Now(s), Open(s.active));
  }

  lemma CommittedShown(es: seq<Event>, s: State)
    requires Reached(es, s) && (s.phase.Running? || s.phase.Undo?)
    ensures ShowsCommitted(s)
  {
    ReachedRun(es, s);
    forall x | forall t :: t in s.active ==> Untouched(s.log, t, x) ensures IsCommittedRow(s.log, x, CurrentRow(s, x)) {
      UntouchedRowIsCommitted(es, x);
    }
  }

  /** Marking the changed page leaves the rows as the change left them. */
  lemma RowsAfterWrite(es: seq<Event>, s: State, r: Record, w: State, s': State)
    requires Reached(es, s) && Enabled(s, Write(r)) && w == After(s, Write(r)) && SamePages(w, s')
    ensures CurrentRow(s', r.rid) == if r.Delete? then None else Some(r.after)
    ensures forall x :: x != r.rid ==> CurrentRow(s', x) == CurrentRow(s, x)
  {
    ReachedRun(es, s);
    WrittenRowIsImage(es, r);
    SameRows(w, s');
  }

  predicate SamePages(s: State, s': State) {
    s'.victims == s.victims && s'.disk == s.disk && s'.cache.Keys == s.cache.Keys
    && forall p :: p in s.cache ==> s'.cache[p].page == s.cache[p].page
  }

  lemma SameRows(s: State, s': State)
    requires SamePages(s, s')
    ensures forall x :: CurrentRow(s', x) == CurrentRow(s, x)
  {
    forall x ensures CurrentRow(s', x) == CurrentRow(s, x) {
      assert CurrentPage(s', x.page) == CurrentPage(s, x.page);
    }
  }

  /** One page out and one in: as many pages as before. */
  lemma KeysReplaced(cache: map<PageId, Frame>, v: PageId, p: PageId, f: Frame)
    requires v in cache && p !in cache
    ensures |(cache - {v})[p := f]| == |cache|
  {
    assert (cache - {v})[p := f].Keys == cache.Keys - {v} + {p};
    assert |cache.Keys - {v}| == |cache.Keys| - 1;
  }

  lemma RecLsnFacts(es: seq<Event>, s: State)
    requires Reached(es, s)
    ensures RecLsnsAtMost(s.cache, Now(s))
  {
    ReachedRun(es, s);
    forall p | p in s.cache ensures s.cache[p].recLsn <= Now(s) {
      assert FrameOk(s.log, p, DiskPage(s.disk, p), Frames(s)[p], Now(s), Open(s.active));
    }
  }

  lemma RedoReached(es: seq<Event>, s: State, j: nat, f: Frame)
    requires Reached(es, s) && s.phase.Redo? && s.phase.cursor == j < |s.log|
    requires RedoApplies(s, s.log[j]) && s.log[j].rid.page in s.cache && s.cache[s.log[j].rid.page] == f && f.page.lsn < j
    ensures Reached(es + [RedoOne], s.(cache := s.cache[s.log[j].rid.page := Stamp(f, s.log[j], j)],
                                       phase := s.phase.(cursor := j + 1)))
  {
    StampedState(s, s.log[j], j, Stamp(f, s.log[j], j));
    assert After(s, RedoOne) == StampPage(s.(phase := s.phase.(cursor := j + 1)), s.log[j], j);
    RunStep(es, s, RedoOne);
  }

  lemma NoPendsOn(s: State, p: PageId, v: PageId)
    requires PendsOnlyOn(s, p) && v != p
    ensures forall t :: !Pends(s, t, v)
  {
  }

  lemma NothingPends(es: seq<Event>, s: State)
    requires Reached(es, s) && s.phase.Redo?
    ensures s.active == map[]
  {
    ReachedRun(es, s);
  }

  /** Between calls nothing is hidden from a page snapshot. */
  lemma NothingHiddenNow(es: seq<Event>, s: State)
    requires Reached(es, s) && s.phase.Running? && s.victims == map[] && Marked(s.cache)
    requires forall t :: t in s.active ==> s.active[t].status.Active?
    ensures NothingHidden(s)
  {
    ReachedRun(es, s);
    forall p | p in s.cache && DiskPage(s.disk, p).lsn < s.cache[p].page.lsn ensures s.cache[p].dirty {
      assert FrameOk(s.log, p, DiskPage(s.disk, p), Frames(s)[p], Now(s), Open(s.active));
    }
    forall t | t in s.active ensures s.active[t].pending.None? { ActiveTxnOk(s, t); }
  }

  /** The transactions of a snapshot are live while nothing is logged. */
  lemma ListedFacts(es: seq<Event>, s: State)
    requires Reached(es, s) && s.phase.Running? && s.ckpt.TxnsSeen? && s.ckpt.att == BeginTable(s)
    requires forall t :: t in s.active ==> s.active[t].status.Active?
    ensures forall t :: t in s.ckpt.att ==> !EndedIn(s.log, 0, |s.log|, t)
  {
    ReachedRun(es, s);
    forall t | t in s.ckpt.att ensures !EndedIn(s.log, 0, |s.log|, t) {
      ActiveTxnOk(s, t);
      EndedIsEndedIn(s.log, t);
    }
  }

  /** Entries that were alive when they were listed are not stale for any scan start. */
  lemma MasterFacts(es: seq<Event>, s: State)
    requires Reached(es, s) && ListedAlive(s.log) && s.ckpt.Logged?
    ensures s.ckpt.truncation <= |s.log| && NoStaleEntry(s.log, s.ckpt.truncation)
  {
    ReachedRun(es, s);
    var m := s.ckpt.truncation;
    forall c: nat, t | m <= c < |s.log| && s.log[c].EndCheckpoint? && t in s.log[c].att ensures !EndedIn(s.log, 0, m, t) {
      assert !EndedIn(s.log, 0, c, t);
    }
  }

  lemma AliveAppend(log: Log, r: Record)
    requires ListedAlive(log) && (r.EndCheckpoint? ==> forall t :: t in r.att ==> !EndedIn(log, 0, |log|, t))
    ensures ListedAlive(log + [r])
  {
    forall c: nat, t | c < |log + [r]| && (log + [r])[c].EndCheckpoint? && t in (log + [r])[c].att
      ensures !EndedIn(log + [r], 0, c, t)
    {
      EndedInAppend(log, r, c, t);
      if c < |log| { assert log[c] == (log + [r])[c]; }
    }
  }

  lemma AlivePrefix(log: Log, n: nat)
    requires ListedAlive(log) && n <= |log|
    ensures ListedAlive(log[..n])
  {
    forall c: nat, t | c < n && log[..n][c].EndCheckpoint? && t in log[..n][c].att ensures !EndedIn(log[..n], 0, c, t) {
      assert log[c] == log[..n][c] && !EndedIn(log, 0, c, t);
      assert forall i :: 0 <= i < c ==> log[..n][i] == log[i];
    }
  }

  lemma UndoFacts(es: seq<Event>, s: State, t: Tid)
    requires Reached(es, s) && t in s.active && !s.active[t].status.Ending?
    requires s.phase.Running? || s.phase.Undo?
    ensures forall u :: u in s.active[t].undo ==> IsData(u)
    ensures s.phase.Undo? ==> s.active[t].status.Aborting?
  {
    ReachedRun(es, s);
    StackFromLog(s.log, t);
  }

  lemma RestartFacts(es: seq<Event>, s: State)
    requires Reached(es, s) && s.phase.Restarted?
    ensures s.master <= |s.log| && s.log == s.crashLog
  {
    ReachedRun(es, s);
  }

  lemma UndoStartFacts(es: seq<Event>, s: State, from: Lsn)
    requires Reached(es, s) && s.phase.Redo?
    requires s.phase.cursor == |s.log| && IsUndoStart(from, s.master, s.phase.start, s.phase.att)
    ensures WellFormed(s.log) && from <= |s.log|
    ensures forall t :: t in s.phase.att ==>
              from <= s.phase.att[t] < |s.log| && s.log[s.phase.att[t]] == Begin(t)
  {
    ReachedRun(es, s);
    UndoStartIsMaster(s, from);
  }

  lemma RecoveryFacts(es: seq<Event>, s: State, crashLog: Log)
    requires Reached(es, s) && Enabled(s, FinishRecovery) && s.crashLog == crashLog
    ensures forall x :: CurrentRow(After(s, FinishRecovery), x) == VisibleRow(CommittedSlot(crashLog, x, crashLog))
    ensures forall x :: IsCommittedRow(crashLog, x, CurrentRow(After(s, FinishRecovery), x))
    ensures forall t :: t in s.acked ==> Commit(t) in crashLog
  {
    ReachedRun(es, s);
    forall x ensures CurrentRow(After(s, FinishRecovery), x) == VisibleRow(CommittedSlot(crashLog, x, crashLog)) {
      RecoveryRestoresCommittedRows(es, x);
    }
    forall x ensures IsCommittedRow(crashLog, x, CurrentRow(After(s, FinishRecovery), x)) { RecoveredRowIsCommitted(es, x); }
    forall t | t in s.acked ensures Commit(t) in crashLog { AcknowledgedCommitsSurvive(es, t); }
  }
}
