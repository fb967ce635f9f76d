/** The crash-recovery state machine: log manager, buffer pool, transaction manager,
    checkpointer and the phases of `Recover`, one event per atomic step.

    The table heap appends a record and changes its page under one page latch, so the two are one
    event.  A rollback appends its compensation record first and fetches and latches the page only
    afterwards: two events.  A checkpoint is five, an eviction two or three, and a changed page is
    marked dirty later than it is changed.  All of them interleave freely, and a crash may fall
    between any two.

    Some interleavings lose data.  `Careful` says of one event that it is not such a one; the
    theorems are about runs all of whose events are careful (`Guarded`), and module `Hazards` has
    for each clause of `Careful` a run that breaks only this clause and ends wrong. */
module Engine {
  import opened LogModel

  /** `unmarked`: changed, but neither stored nor marked dirty since; whoever changed the page
      still holds its pin. */
  datatype Frame = Frame(page: Page, dirty: bool, unmarked: bool, recLsn: Lsn)

  /** `Ending` transactions have their end record in the log and wait for it to be durable. */
  datatype Status = Active | Aborting | Ending(lsn: Lsn)

  /** `pending` is the LSN of a compensation record that is logged and not yet applied. */
  datatype Txn = Txn(begin: Lsn, undo: seq<Record>, status: Status, pending: Option<Lsn>)

  /** A checkpoint on its way: begin record, page snapshot, transaction snapshot, end record. */
  datatype Checkpointer =
    | Idle
    | Begun(begin: Lsn)
    | PagesSeen(begin: Lsn, dpt: map<PageId, Lsn>)
    | TxnsSeen(begin: Lsn, dpt: map<PageId, Lsn>, att: map<Tid, Lsn>)
    | Logged(truncation: Lsn, endLsn: Lsn)

  datatype Phase =
    | Running
    | Restarted
    | Redo(dpt: map<PageId, Lsn>, att: map<Tid, Lsn>, start: Lsn, cursor: nat)
    | Undo

  /** `victims` are frames taken out of the pool and not yet written back; `spare` holds the
      recLSNs of frames that wait for their next page.  `crashLog` is a history variable: the
      durable log at the latest crash.  `acked` holds the transactions whose Commit call has
      returned. */
  datatype State = State(
    log: Log, durable: nat, disk: map<PageId, Page>, master: Lsn,
    cache: map<PageId, Frame>, victims: map<PageId, Frame>, spare: multiset<Lsn>,
    active: map<Tid, Txn>, ckpt: Checkpointer, phase: Phase, acked: set<Tid>, crashLog: Log)

  const INITIAL := State([], 0, map[], 0, map[], map[], multiset{}, map[], Idle, Restarted, {}, [])

  function DiskPage(disk: map<PageId, Page>, p: PageId): Page {
    if p in disk then disk[p] else EMPTY_PAGE
  }

  /** The frame a page is in, resident or on its way out. */
  function Frames(s: State): map<PageId, Frame> { s.victims + s.cache }

  function Newest(disk: map<PageId, Page>, frames: map<PageId, Frame>, p: PageId): Page {
    if p in frames then frames[p].page else DiskPage(disk, p)
  }

  function CurrentPage(s: State, p: PageId): Page { Newest(s.disk, Frames(s), p) }

  /** The row a scan of the database sees under a record id. */
  function CurrentRow(s: State, x: Rid): Option<Bytes> {
    VisibleRow(SlotOn(CurrentPage(s, x.page), x.slot))
  }

  // ---------------------------------------------------------------- building blocks

  /** A page record is applied under the latch: contents, page LSN, recLSN on the first
      change of the frame.  The dirty mark comes with the unpin. */
  function Stamp(f: Frame, r: Record, lsn: Lsn): Frame
    requires IsPageRecord(r)
  {
    Frame(ApplyPage(f.page, r, lsn), f.dirty, true, if lsn > f.page.lsn && f.recLsn == 0 then lsn else f.recLsn)
  }

  function Append(s: State, r: Record): State { s.(log := s.log + [r]) }

  function StampPage(s: State, r: Record, lsn: Lsn): State
    requires IsPageRecord(r) && r.rid.page in s.cache
  {
    s.(cache := s.cache[r.rid.page := Stamp(s.cache[r.rid.page], r, lsn)])
  }

  predicate IsLeast(v: Lsn, bound: Lsn, a: map<Tid, Lsn>, d: map<PageId, Lsn>) {
    && v <= bound
    && (forall t :: t in a ==> v <= a[t])
    && (forall p :: p in d ==> v <= d[p])
    && (v == bound || (exists t :: t in a && v == a[t]) || (exists p :: p in d && v == d[p]))
  }

  function BeginTable(s: State): map<Tid, Lsn> { map t | t in s.active :: s.active[t].begin }

  function DirtyTable(s: State): map<PageId, Lsn> { map p | p in s.cache && s.cache[p].dirty :: s.cache[p].recLsn }

  /** The analysis tables after one more record. */
  datatype Tables = Tables(dpt: map<PageId, Lsn>, att: map<Tid, Lsn>, inactive: set<Tid>)

  const NO_TABLES := Tables(map[], map[], {})

  function AnalyzeRecord(a: Tables, r: Record, lsn: Lsn): Tables {
    if r.Commit? || r.Abort? then a.(inactive := a.inactive + {r.tid}, att := a.att - {r.tid})
    else if r.Begin? then (if r.tid in a.inactive then a else a.(att := a.att[r.tid := lsn]))
    else if IsPageRecord(r) then
      if r.rid.page in a.dpt then a else a.(dpt := a.dpt[r.rid.page := lsn])
    else if r.EndCheckpoint? then
      a.(att := a.att + (map t | t in r.att && t !in a.inactive :: r.att[t]), dpt := r.dpt + a.dpt)
    else a
  }

  /** Scan of `log[lo..hi]`. */
  function Analyze(log: Log, lo: Lsn, hi: Lsn): Tables
    requires lo <= hi <= |log|
    decreases hi
  {
    if hi == lo then NO_TABLES else AnalyzeRecord(Analyze(log, lo, hi - 1), log[hi - 1], hi - 1)
  }

  /** One step of the in-memory undo log: data is pushed, a compensation pops. */
  function BufferForRecovery(us: seq<Record>, r: Record): seq<Record> {
    if IsData(r) then us + [r] else if IsClr(r) && us != [] then us[..|us| - 1] else us
  }

  function Rebuild(log: Log, lo: Lsn, hi: Lsn, t: Tid): seq<Record>
    requires lo <= hi <= |log|
    decreases hi
  {
    if hi == lo then []
    else if IsPageRecord(log[hi - 1]) && log[hi - 1].tid == t then
      BufferForRecovery(Rebuild(log, lo, hi - 1, t), log[hi - 1])
    else Rebuild(log, lo, hi - 1, t)
  }

  /** The start of the undo scan.  The program compares begin LSNs with the start of *redo*
      and keeps the last one below it that map iteration meets. */
  predicate IsUndoStart(v: Lsn, master: Lsn, redoStart: Lsn, att: map<Tid, Lsn>) {
    if exists t :: t in att && att[t] < redoStart then exists t :: t in att && att[t] < redoStart && v == att[t]
    else v == master
  }

  /** The contexts restarted for the losers, with the undo logs the scan left in them. */
  function Losers(log: Log, att: map<Tid, Lsn>, from: Lsn): map<Tid, Txn>
    requires from <= |log|
  {
    map t | t in att :: Txn(att[t], Rebuild(log, from, |log|, t), Aborting, None)
  }

  // ---------------------------------------------------------------- events

  datatype Event =
    | BeginTxn(t: Tid)
    | Write(r: Record)
    | StartAbort(t: Tid)
    | LogClr(t: Tid)
    | ApplyClr(t: Tid)
    | LogCommit(t: Tid)
    | LogAbort(t: Tid)
    | Acknowledge(t: Tid)
    | FlushLog(upTo: nat)
    | FlushPage(p: PageId)
    | MarkDirty(p: PageId)
    | TakeVictim(p: PageId)
    | FinishVictim(p: PageId)
    | LoadPage(p: PageId, recLsn: Lsn)
    | CheckpointBegin
    | SnapshotPages
    | SnapshotTxns
    | CheckpointEnd(truncation: Lsn)
    | WriteMaster
    | Crash
    | FinishAnalysis(start: Lsn)
    | RedoOne
    | StartUndo(from: Lsn)
    | FinishRecovery

  predicate RedoApplies(s: State, r: Record)
    requires s.phase.Redo?
  {
    IsPageRecord(r) && r.rid.page in s.phase.dpt && s.phase.dpt[r.rid.page] <= s.phase.cursor
  }

  /** `t` has logged a compensation of page `p` and not applied it yet. */
  predicate Pends(s: State, t: Tid, p: PageId) {
    && t in s.active && s.active[t].pending.Some?
    && s.active[t].pending.value < |s.log| && OnPage(s.log[s.active[t].pending.value], p)
  }

  ghost predicate Enabled(s: State, e: Event) {
    match e
    case BeginTxn(t) => s.phase.Running? && Unused(s.log, t) && t !in s.active
    case Write(r) =>
      && s.phase.Running? && IsData(r) && r.rid.page in s.cache
      && r.tid in s.active && s.active[r.tid].status.Active?
      && SlotAccepts(SlotOn(s.cache[r.rid.page].page, r.rid.slot), r)
      // the tuple X lock: no other unfinished transaction has touched the slot
      && (forall t :: t in s.active && t != r.tid ==> Untouched(s.log, t, r.rid))
    case StartAbort(t) => s.phase.Running? && t in s.active && s.active[t].status.Active?
    case LogClr(t) =>
      && t in s.active && s.active[t].status.Aborting? && s.active[t].pending.None?
      && s.active[t].undo != [] && IsData(Last(s.active[t].undo))
    case ApplyClr(t) =>
      && t in s.active && s.active[t].pending.Some? && s.active[t].pending.value < |s.log|
      && IsPageRecord(s.log[s.active[t].pending.value])
      && s.log[s.active[t].pending.value].rid.page in s.cache
    case LogCommit(t) => s.phase.Running? && t in s.active && s.active[t].status.Active?
    case LogAbort(t) =>
      t in s.active && s.active[t].status.Aborting? && s.active[t].undo == [] && s.active[t].pending.None?
    // a wait for an LSN is over when that LSN is at most the end of the durable log
    case Acknowledge(t) =>
      t in s.active && s.active[t].status.Ending? && s.active[t].status.lsn < |s.log| && s.active[t].status.lsn <= s.durable
    case FlushLog(n) => s.durable <= n <= |s.log|
    // the flusher tests that the page LSN is below the end of the durable log
    case FlushPage(p) => p in s.cache && s.cache[p].dirty && (s.cache[p].page.lsn == 0 || s.cache[p].page.lsn < s.durable)
    case MarkDirty(p) => p in s.cache
    case TakeVictim(p) => p in s.cache && !s.cache[p].unmarked
    case FinishVictim(p) => p in s.victims && (s.victims[p].dirty ==> s.victims[p].page.lsn <= s.durable)
    case LoadPage(p, r) =>
      !s.phase.Restarted? && p !in s.cache && p !in s.victims && (r == 0 || r in s.spare)
    case CheckpointBegin => s.phase.Running? && s.ckpt.Idle?
    case SnapshotPages => s.ckpt.Begun?
    case SnapshotTxns =>
      && s.ckpt.PagesSeen?
      // the snapshot mutex: nobody is between entering and leaving Commit or Abort
      && (forall t :: t in s.active ==> s.active[t].status.Active?)
    case CheckpointEnd(tr) => s.ckpt.TxnsSeen? && IsLeast(tr, s.ckpt.begin, s.ckpt.att, s.ckpt.dpt)
    case WriteMaster => s.ckpt.Logged? && s.ckpt.endLsn <= s.durable
    case Crash => s.durable <= |s.log|
    case FinishAnalysis(start) =>
      && s.phase.Restarted? && s.master <= |s.log|
      && IsLeast(start, s.master, map[], Analyze(s.log, s.master, |s.log|).dpt)
    case RedoOne =>
      && s.phase.Redo? && s.phase.cursor < |s.log|
      && (RedoApplies(s, s.log[s.phase.cursor]) ==> s.log[s.phase.cursor].rid.page in s.cache)
    case StartUndo(from) =>
      && s.phase.Redo? && s.phase.cursor == |s.log|
      && from <= |s.log| && IsUndoStart(from, s.master, s.phase.start, s.phase.att)
    case FinishRecovery => s.phase.Undo? && s.active == map[]
  }

  function SetTxn(s: State, t: Tid, x: Txn): State { s.(active := s.active[t := x]) }

  ghost function After(s: State, e: Event): State
    requires Enabled(s, e)
  {
    match e
    case BeginTxn(t) => SetTxn(Append(s, Begin(t)), t, Txn(|s.log|, [], Active, None))
    case Write(r) =>
      SetTxn(StampPage(Append(s, r), r, |s.log|), r.tid, s.active[r.tid].(undo := s.active[r.tid].undo + [r]))
    case StartAbort(t) => SetTxn(s, t, s.active[t].(status := Aborting))
    case LogClr(t) =>
      var us := s.active[t].undo;
      SetTxn(Append(s, ClrOf(Last(us))), t, s.active[t].(undo := Init(us), pending := Some(|s.log|)))
    case ApplyClr(t) =>
      var lsn := s.active[t].pending.value;
      SetTxn(StampPage(s, s.log[lsn], lsn), t, s.active[t].(pending := None))
    case LogCommit(t) => SetTxn(Append(s, Commit(t)), t, s.active[t].(status := Ending(|s.log|)))
    case LogAbort(t) => SetTxn(Append(s, Abort(t)), t, s.active[t].(status := Ending(|s.log|)))
    case Acknowledge(t) =>
      s.(active := s.active - {t}, acked := if s.log[s.active[t].status.lsn].Commit? then s.acked + {t} else s.acked)
    case FlushLog(n) => s.(durable := n)
    case FlushPage(p) =>
      s.(disk := s.disk[p := s.cache[p].page], cache := s.cache[p := s.cache[p].(dirty := false, unmarked := false)])
    case MarkDirty(p) => s.(cache := s.cache[p := s.cache[p].(dirty := true, unmarked := false)])
    case TakeVictim(p) => s.(cache := s.cache - {p}, victims := s.victims[p := s.cache[p]])
    case FinishVictim(p) =>
      s.(disk := if s.victims[p].dirty then s.disk[p := s.victims[p].page] else s.disk,
         victims := s.victims - {p}, spare := s.spare + multiset{s.victims[p].recLsn})
    case LoadPage(p, r) =>
      s.(cache := s.cache[p := Frame(DiskPage(s.disk, p), false, false, r)], spare := s.spare - multiset{r})
    case CheckpointBegin => Append(s, BeginCheckpoint).(ckpt := Begun(|s.log|))
    case SnapshotPages => s.(ckpt := PagesSeen(s.ckpt.begin, DirtyTable(s)))
    case SnapshotTxns => s.(ckpt := TxnsSeen(s.ckpt.begin, s.ckpt.dpt, BeginTable(s)))
    case CheckpointEnd(tr) => Append(s, EndCheckpoint(s.ckpt.att, s.ckpt.dpt)).(ckpt := Logged(tr, |s.log|))
    case WriteMaster => s.(master := s.ckpt.truncation, ckpt := Idle)
    case Crash =>
      s.(log := s.log[..s.durable], crashLog := s.log[..s.durable], cache := map[], victims := map[],
         spare := multiset{}, active := map[], ckpt := Idle, phase := Restarted)
    case FinishAnalysis(start) =>
      var a := Analyze(s.log, s.master, |s.log|);
      s.(phase := Redo(a.dpt, a.att, start, start))
    case RedoOne =>
      var r, j := s.log[s.phase.cursor], s.phase.cursor;
      var s1 := s.(phase := s.phase.(cursor := j + 1));
      if RedoApplies(s, r) && s.cache[r.rid.page].page.lsn < j then StampPage(s1, r, j) else s1
    case StartUndo(from) =>
      s.(phase := Undo, active := Losers(s.log, s.phase.att, from))
    case FinishRecovery => s.(phase := Running)
  }

  /** The state after a run, or None when some event of the run could not occur. */
  ghost function Run(es: seq<Event>): Option<State> {
    if es == [] then Some(INITIAL)
    else
      match Run(es[..|es| - 1])
      case None => None
      case Some(s) => if Enabled(s, es[|es| - 1]) then Some(After(s, es[|es| - 1])) else None
  }

  // ---------------------------------------------------------------- careful runs

  /** No compensation of page `p` at or below the LSN of this version of it is still to be
      applied. */
  ghost predicate NoneSkipped(s: State, p: PageId, page: Page) {
    forall t :: Pends(s, t, p) ==> page.lsn < s.active[t].pending.value
  }

  /** Nothing a checkpoint must list is hidden from its page snapshot: no frame on its way out is
      newer than its stored page, every resident frame that is newer is marked dirty, and every
      compensation still to be applied is of a page that is listed with an LSN at or below it. */
  ghost predicate NothingHidden(s: State) {
    && (forall p :: p in s.victims ==> s.victims[p].page.lsn <= DiskPage(s.disk, p).lsn)
    && (forall p :: p in s.cache && DiskPage(s.disk, p).lsn < s.cache[p].page.lsn ==> s.cache[p].dirty)
    && (forall t, p :: Pends(s, t, p) ==>
          p in s.cache && s.cache[p].dirty && s.cache[p].recLsn <= s.active[t].pending.value)
  }

  ghost predicate Careful(s: State, e: Event)
    requires Enabled(s, e)
  {
    match e
    case FlushPage(p) => NoneSkipped(s, p, s.cache[p].page)
    // ... and the wait for the page LSN has made the record at that LSN durable
    case FinishVictim(p) =>
      s.victims[p].dirty ==>
        && NoneSkipped(s, p, s.victims[p].page)
        && (s.victims[p].page.lsn == 0 || s.victims[p].page.lsn < s.durable)
    // so has the wait for a Commit record
    case Acknowledge(t) => s.log[s.active[t].status.lsn].Commit? ==> s.active[t].status.lsn < s.durable
    // the recLSN of the frame has not passed the compensation
    case ApplyClr(t) => s.cache[s.log[s.active[t].pending.value].rid.page].recLsn <= s.active[t].pending.value
    case SnapshotPages => NothingHidden(s)
    // no transaction listed by an end record from there on had ended before
    case WriteMaster => s.ckpt.truncation <= |s.log| && NoStaleEntry(s.log, s.ckpt.truncation)
    case _ => true
  }

  /** Every event of the run that occurred was careful. */
  ghost predicate Guarded(es: seq<Event>) {
    es != [] ==>
      && Guarded(es[..|es| - 1])
      && (Run(es[..|es| - 1]).Some? && Enabled(Run(es[..|es| - 1]).value, es[|es| - 1]) ==>
            Careful(Run(es[..|es| - 1]).value, es[|es| - 1]))
  }
}
