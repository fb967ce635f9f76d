/** Every careful event preserves the invariant of the engine; hence every guarded run satisfies
    it. */
module EngineSteps {
  import opened LogModel
  import opened CommittedReplay
  import opened Engine
  import opened EngineInvariant
  import opened AnalysisProof

  // ---------------------------------------------------------------- log flushes

  lemma TakeMonotone(log: Log, d: nat, d': nat, r: Record)
    requires d <= d' <= |log| && r in log[..d]
    ensures r in log[..d']
  {
    var i :| 0 <= i < d && log[i] == r;
    assert log[..d'][i] == r;
  }

  lemma ScanStartLater(log: Log, d: nat, d': nat, disk: map<PageId, Page>, m: Lsn)
    requires d <= d' <= |log| && ScanStart(log, d, disk, m)
    ensures ScanStart(log, d', disk, m)
  {
    forall i | 0 <= i < m && log[i].Begin? ensures Ended(log[..d'], log[i].tid) {
      var t := log[i].tid;
      if Commit(t) in log[..d] { TakeMonotone(log, d, d', Commit(t)); } else { TakeMonotone(log, d, d', Abort(t)); }
    }
  }

  lemma FlushLogKeeps(s: State, n: nat)
    requires Inv(s) && s.durable <= n <= |s.log|
    ensures Inv(s.(durable := n))
  {
    ScanStartLater(s.log, s.durable, n, s.disk, s.master);
    forall t | t in s.acked ensures Commit(t) in s.log[..n] { TakeMonotone(s.log, s.durable, n, Commit(t)); }
  }

  // ---------------------------------------------------------------- storing pages

  /** A newer stored version of one page lacks fewer records. */
  lemma StoreBounds(log: Log, disk: map<PageId, Page>, p: PageId, page: Page, q: PageId, v: Lsn)
    requires DiskPage(disk, p).lsn <= page.lsn && BoundsMissing(v, log, q, DiskPage(disk, q))
    ensures BoundsMissing(v, log, q, DiskPage(disk[p := page], q))
  {
    var newer := DiskPage(disk[p := page], q);
    forall i | Missing(log, q, newer, i) ensures v <= i {
      assert Missing(log, q, DiskPage(disk, q), i);
    }
  }

  lemma StoreScanStart(log: Log, d: nat, disk: map<PageId, Page>, m: Lsn, p: PageId, page: Page)
    requires d <= |log| && ScanStart(log, d, disk, m) && DiskPage(disk, p).lsn <= page.lsn
    ensures ScanStart(log, d, disk[p := page], m)
  {
    var disk' := disk[p := page];
    forall q ensures BoundsMissing(m, log, q, DiskPage(disk', q)) {
      assert BoundsMissing(m, log, q, DiskPage(disk, q));
      StoreBounds(log, disk, p, page, q, m);
    }
  }

  lemma StoreLoggedTables(log: Log, disk: map<PageId, Page>, p: PageId, page: Page)
    requires LoggedTablesOk(log, disk) && DiskPage(disk, p).lsn <= page.lsn
    ensures LoggedTablesOk(log, disk[p := page])
  {
    var disk' := disk[p := page];
    forall c: nat, q | c < |log| ensures EntryOk(log, disk', c, q) {
      assert EntryOk(log, disk, c, q);
      if log[c].EndCheckpoint? && q in log[c].dpt { StoreBounds(log, disk, p, page, q, log[c].dpt[q]); }
    }
  }

  lemma StoreSnapshot(log: Log, disk: map<PageId, Page>, b: Lsn, dpt: map<PageId, Lsn>, p: PageId, page: Page)
    requires PagesSnapshotOk(log, disk, b, dpt) && DiskPage(disk, p).lsn <= page.lsn
    ensures PagesSnapshotOk(log, disk[p := page], b, dpt)
  {
    var disk' := disk[p := page];
    forall q | q in dpt ensures BoundsMissing(dpt[q], log, q, DiskPage(disk', q)) {
      StoreBounds(log, disk, p, page, q, dpt[q]);
    }
    forall q, i | Missing(log, q, DiskPage(disk', q), i) && i < b ensures q in dpt {
      assert Missing(log, q, DiskPage(disk, q), i);
    }
  }

  lemma StoreCheckpoint(log: Log, disk: map<PageId, Page>, m: Lsn, c: Checkpointer, p: PageId, page: Page)
    requires CheckpointOk(log, disk, m, c) && DiskPage(disk, p).lsn <= page.lsn
    ensures CheckpointOk(log, disk[p := page], m, c)
  {
    match c
    case Idle =>
    case Begun(b) =>
    case PagesSeen(b, dpt) => StoreSnapshot(log, disk, b, dpt, p, page);
    case TxnsSeen(b, dpt, att) => StoreSnapshot(log, disk, b, dpt, p, page);
    case Logged(tr, e) => StoreScanStart(log, e, disk, tr, p, page);
  }

  lemma StorePhase(s: State, p: PageId, page: Page)
    requires PhaseOk(s) && DiskPage(s.disk, p).lsn <= page.lsn
    ensures PhaseOk(s.(disk := s.disk[p := page]))
  {
    if s.phase.Redo? {
      var disk' := s.disk[p := page];
      forall q, i | Missing(s.log, q, DiskPage(disk', q), i)
        ensures q in s.phase.dpt && s.phase.dpt[q] <= i
      {
        assert Missing(s.log, q, DiskPage(s.disk, q), i);
      }
    }
  }

  lemma StoreKeepsStable(s: State, p: PageId, page: Page)
    requires LogAndDiskOk(s) && DiskPage(s.disk, p).lsn <= page.lsn
    requires PageOk(s.log, p, page) && (page.lsn == 0 || page.lsn < s.durable)
    ensures StableOk(s.log, s.durable, s.disk[p := page], s.master, s.ckpt, s.acked)
  {
    StoreScanStart(s.log, s.durable, s.disk, s.master, p, page);
    StoreLoggedTables(s.log, s.disk, p, page);
    StoreCheckpoint(s.log, s.disk, s.master, s.ckpt, p, page);
  }

  /** The stored version becomes that of the frame, which lacks only open records newer than it. */
  lemma StorePages(log: Log, disk: map<PageId, Page>, frames: map<PageId, Frame>, p: PageId, now: nat, open: set<Lsn>)
    requires PagesOk(log, disk, frames, now, open) && p in frames
    requires forall k :: k in open && k < |log| && OnPage(log[k], p) ==> frames[p].page.lsn < k
    ensures PagesOk(log, disk[p := frames[p].page], frames[p := frames[p].(dirty := false, unmarked := false)], now, open)
    ensures PagesOk(log, disk[p := frames[p].page], frames - {p}, now, open)
    ensures DiskPage(disk, p).lsn <= frames[p].page.lsn && PageOk(log, p, frames[p].page)
  {
    var disk', frames' := disk[p := frames[p].page], frames[p := frames[p].(dirty := false, unmarked := false)];
    assert LacksFrom(now, log, p, Newest(disk, frames, p), open);
    assert FrameOk(log, p, DiskPage(disk, p), frames[p], now, open);
    StoredVersion(log, p, frames[p].page, open);
    forall q ensures LacksFrom(now, log, q, Newest(disk', frames', q), open) {
      assert LacksFrom(now, log, q, Newest(disk, frames, q), open);
    }
    forall q ensures LacksFrom(now, log, q, Newest(disk', frames - {p}, q), open) {
      assert LacksFrom(now, log, q, Newest(disk, frames, q), open);
    }
    forall k | k in open ensures OpenOk(log, disk', k) { assert OpenOk(log, disk, k); }
    forall q | q in frames' ensures FrameOk(log, q, DiskPage(disk', q), frames'[q], now, open) {
      assert FrameOk(log, q, DiskPage(disk, q), frames[q], now, open);
    }
    forall q | q in frames - {p} ensures FrameOk(log, q, DiskPage(disk', q), (frames - {p})[q], now, open) {
      assert FrameOk(log, q, DiskPage(disk, q), frames[q], now, open);
    }
  }

  lemma NoneOpen(s: State, p: PageId, page: Page)
    requires PhaseOk(s) && NoneSkipped(s, p, page)
    ensures forall k :: k in Open(s.active) && k < |s.log| && OnPage(s.log[k], p) ==> page.lsn < k
  {
    if s.phase.Running? || s.phase.Undo? { NoneOpenBelow(s, p, page); }
  }

  /** An event of the buffer pool: only stored pages, frames and spare frames change. */
  lemma PoolChange(s: State, s': State)
    requires Inv(s)
    requires s' == s.(disk := s'.disk, cache := s'.cache, victims := s'.victims, spare := s'.spare)
    requires StableOk(s.log, s.durable, s'.disk, s.master, s.ckpt, s.acked) && PhaseOk(s.(disk := s'.disk))
    requires PagesOk(s.log, s'.disk, Frames(s'), Now(s), Open(s.active))
    requires forall p :: p in s'.victims ==> p !in s'.cache && !s'.victims[p].unmarked
    requires forall r :: r in s'.spare ==> r <= Now(s)
    requires s.phase.Restarted? ==> s'.cache == map[] && s'.victims == map[]
    ensures Inv(s')
  {
  }

  lemma SamePool(s: State)
    requires Inv(s)
    ensures LogAndDiskOk(s) && PhaseOk(s) && PhaseOk(s.(disk := s.disk))
    ensures PagesOk(s.log, s.disk, Frames(s), Now(s), Open(s.active))
    ensures forall p :: p in s.victims ==> p !in s.cache && !s.victims[p].unmarked
    ensures forall r :: r in s.spare ==> r <= Now(s)
    ensures s.phase.Restarted? ==> s.cache == map[] && s.victims == map[] && Frames(s) == map[]
  {
  }

  lemma SetFrame(victims: map<PageId, Frame>, cache: map<PageId, Frame>, p: PageId, f: Frame)
    ensures victims + cache[p := f] == (victims + cache)[p := f]
  {
  }

  lemma MoveFrame(victims: map<PageId, Frame>, cache: map<PageId, Frame>, p: PageId)
    requires p in cache && p !in victims
    ensures victims[p := cache[p]] + (cache - {p}) == victims + cache
  {
  }

  lemma RemoveFrame(victims: map<PageId, Frame>, cache: map<PageId, Frame>, p: PageId)
    requires p in victims && p !in cache
    ensures (victims - {p}) + cache == (victims + cache) - {p}
    ensures (victims + cache)[p] == victims[p]
  {
  }

  lemma FlushPageKeeps(s: State, p: PageId)
    requires Inv(s) && p in s.cache && NoneSkipped(s, p, s.cache[p].page)
    requires s.cache[p].page.lsn == 0 || s.cache[p].page.lsn < s.durable
    ensures var f := s.cache[p];
            Inv(s.(disk := s.disk[p := f.page], cache := s.cache[p := f.(dirty := false, unmarked := false)]))
  {
    var f := s.cache[p];
    SamePool(s);
    SetFrame(s.victims, s.cache, p, f.(dirty := false, unmarked := false));
    NoneOpen(s, p, f.page);
    StorePages(s.log, s.disk, Frames(s), p, Now(s), Open(s.active));
    StoreKeepsStable(s, p, f.page);
    StorePhase(s, p, f.page);
    PoolChange(s, s.(disk := s.disk[p := f.page], cache := s.cache[p := f.(dirty := false, unmarked := false)]));
  }

  /** A frame of the pool is replaced; the stored pages stay. */
  lemma ReplaceFrame(log: Log, disk: map<PageId, Page>, frames: map<PageId, Frame>, p: PageId, f: Frame, now: nat, open: set<Lsn>)
    requires PagesOk(log, disk, frames, now, open)
    requires FrameOk(log, p, DiskPage(disk, p), f, now, open) && f.page == Newest(disk, frames, p)
    ensures PagesOk(log, disk, frames[p := f], now, open)
  {
    var frames' := frames[p := f];
    forall q ensures LacksFrom(now, log, q, Newest(disk, frames', q), open) {
      assert LacksFrom(now, log, q, Newest(disk, frames, q), open);
    }
  }

  lemma MarkDirtyKeeps(s: State, p: PageId)
    requires Inv(s) && p in s.cache
    ensures Inv(s.(cache := s.cache[p := s.cache[p].(dirty := true, unmarked := false)]))
  {
    var f := s.cache[p].(dirty := true, unmarked := false);
    SamePool(s);
    SetFrame(s.victims, s.cache, p, f);
    assert FrameOk(s.log, p, DiskPage(s.disk, p), Frames(s)[p], Now(s), Open(s.active));
    ReplaceFrame(s.log, s.disk, Frames(s), p, f, Now(s), Open(s.active));
    PoolChange(s, s.(cache := s.cache[p := f]));
  }

  lemma TakeVictimKeeps(s: State, p: PageId)
    requires Inv(s) && p in s.cache && !s.cache[p].unmarked
    ensures Inv(s.(cache := s.cache - {p}, victims := s.victims[p := s.cache[p]]))
  {
    SamePool(s);
    MoveFrame(s.victims, s.cache, p);
    PoolChange(s, s.(cache := s.cache - {p}, victims := s.victims[p := s.cache[p]]));
  }

  /** A clean frame leaves the pool. */
  lemma DropFrame(log: Log, disk: map<PageId, Page>, frames: map<PageId, Frame>, p: PageId, now: nat, open: set<Lsn>)
    requires PagesOk(log, disk, frames, now, open) && p in frames && frames[p].page == DiskPage(disk, p)
    ensures PagesOk(log, disk, frames - {p}, now, open)
  {
    forall q ensures LacksFrom(now, log, q, Newest(disk, frames - {p}, q), open) {
      assert LacksFrom(now, log, q, Newest(disk, frames, q), open);
    }
  }

  lemma FinishVictimKeeps(s: State, p: PageId)
    requires Inv(s) && p in s.victims
    requires var f := s.victims[p];
             f.dirty ==> NoneSkipped(s, p, f.page) && (f.page.lsn == 0 || f.page.lsn < s.durable)
    ensures var f := s.victims[p];
            Inv(s.(disk := if f.dirty then s.disk[p := f.page] else s.disk, victims := s.victims - {p},
                   spare := s.spare + multiset{f.recLsn}))
  {
    var f := s.victims[p];
    var s' := s.(disk := if f.dirty then s.disk[p := f.page] else s.disk, victims := s.victims - {p},
                 spare := s.spare + multiset{f.recLsn});
    SamePool(s);
    RemoveFrame(s.victims, s.cache, p);
    assert FrameOk(s.log, p, DiskPage(s.disk, p), Frames(s)[p], Now(s), Open(s.active));
    if f.dirty {
      NoneOpen(s, p, f.page);
      StorePages(s.log, s.disk, Frames(s), p, Now(s), Open(s.active));
      StoreKeepsStable(s, p, f.page);
      StorePhase(s, p, f.page);
    } else {
      assert !f.unmarked;
      DropFrame(s.log, s.disk, Frames(s), p, Now(s), Open(s.active));
    }
    PoolChange(s, s');
  }

  lemma LoadedFrameOk(log: Log, disk: map<PageId, Page>, frames: map<PageId, Frame>, p: PageId, r: Lsn, now: nat, open: set<Lsn>, durable: nat)
    requires PagesOk(log, disk, frames, now, open) && DiskOk(log, durable, disk) && p !in frames && r <= now
    ensures FrameOk(log, p, DiskPage(disk, p), Frame(DiskPage(disk, p), false, false, r), now, open)
  {
    assert LacksFrom(now, log, p, Newest(disk, frames, p), open);
    forall k | k in open && k < |log| && OnPage(log[k], p) ensures DiskPage(disk, p).lsn < k { assert OpenOk(log, disk, k); }
    StoredVersion(log, p, DiskPage(disk, p), open);
  }

  lemma LoadPageKeeps(s: State, p: PageId, r: Lsn)
    requires Inv(s) && !s.phase.Restarted? && p !in s.cache && p !in s.victims && r <= Now(s)
    ensures Inv(s.(cache := s.cache[p := Frame(DiskPage(s.disk, p), false, false, r)], spare := s.spare - multiset{r}))
  {
    var f := Frame(DiskPage(s.disk, p), false, false, r);
    SamePool(s);
    SetFrame(s.victims, s.cache, p, f);
    LoadedFrameOk(s.log, s.disk, Frames(s), p, r, Now(s), Open(s.active), s.durable);
    ReplaceFrame(s.log, s.disk, Frames(s), p, f, Now(s), Open(s.active));
    PoolChange(s, s.(cache := s.cache[p := f], spare := s.spare - multiset{r}));
  }

  // ---------------------------------------------------------------- transactions

  lemma OtherTxn(log: Log, r: Record, u: Tid, x: Txn)
    requires TxnOk(log, u, x) && (IsCheckpoint(r) || r.tid != u)
    ensures TxnOk(log + [r], u, x)
  {
    TakeOfAppend(log, r);
  }

  /** One record of transaction `t` was appended and its table entry became `x`. */
  lemma TableStep(log: Log, r: Record, active: map<Tid, Txn>, t: Tid, x: Txn)
    requires TableOk(log, active) && !IsCheckpoint(r) && r.tid == t && TxnOk(log + [r], t, x)
    ensures TableOk(log + [r], active[t := x])
  {
    forall u | u in active && u != t ensures TxnOk(log + [r], u, active[u]) { OtherTxn(log, r, u, active[u]); }
  }

  lemma TransactionPool(s: State, s1: State, t: Tid, x: Txn, frames: map<PageId, Frame>, open: set<Lsn>)
    requires PoolOk(s) && (s.phase.Running? || s.phase.Undo?) && s1.phase == s.phase
    requires s1.victims == s.victims && s1.cache.Keys == s.cache.Keys && s1.spare == s.spare && |s.log| <= |s1.log|
    requires frames == Frames(s1) && open == Open(s1.active[t := x]) && PagesOk(s1.log, s1.disk, frames, |s1.log|, open)
    ensures PoolOk(SetTxn(s1, t, x))
  {
  }

  /** What is left to show of an event that appends a record of transaction `t`. */
  lemma StepDone(s: State, s1: State, r: Record, t: Tid, x: Txn)
    requires Inv(s) && (s.phase.Running? || s.phase.Undo?) && LogAndDiskOk(s1) && PoolOk(SetTxn(s1, t, x))
    requires s1.log == s.log + [r] && s1.crashLog == s.crashLog && s1.phase == s.phase && s1.ckpt == s.ckpt
    requires s1.active == s.active && !IsCheckpoint(r) && r.tid == t && TxnOk(s1.log, t, x)
    requires s.phase.Undo? ==> (IsClr(r) || r.Abort?) && !x.status.Active?
    ensures Inv(SetTxn(s1, t, x))
  {
    TableStep(s.log, r, s.active, t, x);
    HistoryStep(s, s1, r, t, x);
  }

  lemma VersionOfCurrent(s: State, p: PageId)
    requires StorageOk(s)
    ensures VersionOk(s.log, p, CurrentPage(s, p), Open(s.active))
  {
    if p in Frames(s) {
      assert FrameOk(s.log, p, DiskPage(s.disk, p), Frames(s)[p], Now(s), Open(s.active));
    } else {
      LoadedFrameOk(s.log, s.disk, Frames(s), p, 0, Now(s), Open(s.active), s.durable);
    }
  }

  /** While the engine runs, a page is the replay of the log without the open compensations. */
  lemma CurrentIsReplay(s: State, p: PageId)
    requires StorageOk(s) && (s.phase.Running? || s.phase.Undo?)
    ensures CurrentPage(s, p) == PageLess(s.log, p, Open(s.active))
  {
    VersionOfCurrent(s, p);
    assert LacksFrom(|s.log|, s.log, p, Newest(s.disk, Frames(s), p), Open(s.active));
    NotAtZero(s.log);
    CatchUp(s.log, p, CurrentPage(s, p), |s.log|, Open(s.active));
    assert s.log[..|s.log|] == s.log;
  }

  lemma CurrentSlot(s: State, x: Rid)
    requires StorageOk(s) && (s.phase.Running? || s.phase.Undo?)
    requires forall k :: k in Open(s.active) && k < |s.log| && IsPageRecord(s.log[k]) ==> s.log[k].rid != x
    ensures SlotOn(CurrentPage(s, x.page), x.slot) == SlotOf(s.log, x)
  {
    CurrentIsReplay(s, x.page);
    SlotLess(s.log, x, Open(s.active));
  }

  /** A record of transaction `t` that changes no page. */
  lemma PlainStep(s: State, r: Record, t: Tid, x: Txn)
    requires Inv(s) && (s.phase.Running? || s.phase.Undo?)
    requires MayAppend(s.log, r) && !IsPageRecord(r) && !IsCheckpoint(r) && r.tid == t && TxnOk(s.log + [r], t, x)
    requires x.pending == if t in s.active then s.active[t].pending else None
    requires s.phase.Undo? ==> r.Abort? && !x.status.Active?
    ensures Inv(SetTxn(Append(s, r), t, x))
  {
    AppendKeepsStable(s, r);
    PagesAppend(s.log, r, s.disk, Frames(s), Open(s.active));
    OpenSame(s.active, t, x);
    TransactionPool(s, Append(s, r), t, x, Frames(s), Open(s.active));
    StepDone(s, Append(s, r), r, t, x);
  }

  lemma BeginTxnKeeps(s: State, t: Tid)
    requires Inv(s) && Enabled(s, BeginTxn(t))
    ensures Inv(After(s, BeginTxn(t)))
  {
    TakeOfAppend(s.log, Begin(t));
    NoDataNoStack(s.log, t);
    PlainStep(s, Begin(t), t, Txn(|s.log|, [], Active, None));
  }

  /** Nobody else has a compensation open on a slot a transaction may write. */
  lemma WriteSlotFree(s: State, r: Record)
    requires Inv(s) && Enabled(s, Write(r))
    ensures SlotsFree(s.log, Open(s.active), r)
  {
    forall k | k in Open(s.active) && k < |s.log| && IsPageRecord(s.log[k]) ensures s.log[k].rid != r.rid {
      var t := OpenOwner(s, k);
      assert TxnOk(s.log, t, s.active[t]) && s.log[k] in s.log;
      assert t != r.tid;
      assert Touches(s.log[k], t, s.log[k].rid);
    }
  }

  lemma WriteAllowed(s: State, r: Record)
    requires Inv(s) && Enabled(s, Write(r))
    ensures MayWrite(s.log, r)
  {
    WriteSlotFree(s, r);
    CurrentSlot(s, r.rid);
    assert Frames(s)[r.rid.page] == s.cache[r.rid.page];
  }

  lemma WriteTxn(log: Log, r: Record, x: Txn)
    requires IsData(r) && TxnOk(log, r.tid, x) && x.status.Active?
    ensures TxnOk(log + [r], r.tid, x.(undo := x.undo + [r]))
  {
    TakeOfAppend(log, r);
  }

  /** A data record is appended and applied. */
  lemma PagesWrite(log: Log, r: Record, disk: map<PageId, Page>, frames: map<PageId, Frame>, open: set<Lsn>, f: Frame)
    requires PagesOk(log, disk, frames, |log|, open) && WellFormed(log + [r])
    requires IsPageRecord(r) && r.rid.page in frames && SlotsFree(log, open, r) && f == frames[r.rid.page]
    ensures PagesOk(log + [r], disk, frames[r.rid.page := Stamp(f, r, |log|)], |log| + 1, open)
  {
    var q := r.rid.page;
    FramesAppend(log, r, disk, frames, open);
    CompleteAppend(log, r, disk, frames, open);
    OpenAppend(log, r, disk, open);
    assert FrameOk(log, q, DiskPage(disk, q), frames[q], |log|, open);
    NotAtZero(log + [r]);
    if |log| in open { assert OpenOk(log, disk, |log|); }
    StampNew(log + [r], disk, frames, q, |log|, open);
  }

  lemma WritePool(s: State, r: Record, x: Txn)
    requires WellFormed(s.log) && PoolOk(s) && s.phase.Running? && IsData(r) && r.rid.page in s.cache && r.tid in s.active
    requires MayWrite(s.log, r) && SlotsFree(s.log, Open(s.active), r) && x.pending == s.active[r.tid].pending
    ensures PoolOk(SetTxn(StampPage(Append(s, r), r, |s.log|), r.tid, x))
  {
    var f := Stamp(s.cache[r.rid.page], r, |s.log|);
    WritePages(s, r, Frames(s)[r.rid.page := f]);
    SetFrame(s.victims, s.cache, r.rid.page, f);
    OpenSame(s.active, r.tid, x);
    TransactionPool(s, StampPage(Append(s, r), r, |s.log|), r.tid, x, Frames(s)[r.rid.page := f], Open(s.active));
  }

  lemma WritePages(s: State, r: Record, frames: map<PageId, Frame>)
    requires WellFormed(s.log) && PoolOk(s) && s.phase.Running? && IsData(r) && r.rid.page in s.cache
    requires MayWrite(s.log, r) && SlotsFree(s.log, Open(s.active), r)
    requires frames == Frames(s)[r.rid.page := Stamp(s.cache[r.rid.page], r, |s.log|)]
    ensures PagesOk(s.log + [r], s.disk, frames, |s.log| + 1, Open(s.active))
  {
    WellFormedAppend(s.log, r);
    PagesWrite(s.log, r, s.disk, Frames(s), Open(s.active), s.cache[r.rid.page]);
  }

  lemma WriteKeeps(s: State, r: Record)
    requires Inv(s) && Enabled(s, Write(r))
    ensures Inv(After(s, Write(r)))
  {
    WriteAllowed(s, r);
    WriteSlotFree(s, r);
    ActiveTxnOk(s, r.tid);
    WriteTxn(s.log, r, s.active[r.tid]);
    WriteStep(s, r, s.active[r.tid].(undo := s.active[r.tid].undo + [r]));
  }

  lemma WriteStep(s: State, r: Record, x: Txn)
    requires Inv(s) && s.phase.Running? && IsData(r) && r.rid.page in s.cache && r.tid in s.active
    requires MayWrite(s.log, r) && SlotsFree(s.log, Open(s.active), r)
    requires TxnOk(s.log + [r], r.tid, x) && x.pending == s.active[r.tid].pending
    ensures Inv(SetTxn(StampPage(Append(s, r), r, |s.log|), r.tid, x))
  {
    AppendKeepsStable(s, r);
    WritePool(s, r, x);
    StepDone(s, StampPage(Append(s, r), r, |s.log|), r, r.tid, x);
  }

  lemma ClrTxn(log: Log, t: Tid, x: Txn)
    requires TxnOk(log, t, x) && x.status.Aborting? && x.undo != []
    ensures IsData(Last(x.undo)) && MayCompensate(log, ClrOf(Last(x.undo))) && Last(x.undo).tid == t && Last(x.undo) in log
    ensures TxnOk(log + [ClrOf(Last(x.undo))], t, x.(undo := Init(x.undo), pending := Some(|log|)))
  {
    StackFromLog(log, t);
    assert Last(x.undo) in x.undo;
    TakeOfAppend(log, ClrOf(Last(x.undo)));
  }

  lemma ActiveTxnOk(s: State, t: Tid)
    requires Inv(s) && t in s.active
    ensures (s.phase.Running? || s.phase.Undo?) && TxnOk(s.log, t, s.active[t])
  {
  }

  /** No two live transactions have touched the same slot. */
  lemma OneToucher(log: Log, t: Tid, u: Tid, x: Rid)
    requires WellFormed(log) && Live(log, t) && Live(log, u) && !Untouched(log, t, x) && !Untouched(log, u, x)
    ensures t == u
  {
    SlotInvHolds(log, x);
    assert OwnerOk(log, x, t) && OwnerOk(log, x, u);
    var a :| a in log && Touches(a, t, x);
    var b :| b in log && Touches(b, u, x);
    var i :| 0 <= i < |log| && log[i] == a;
    var j :| 0 <= j < |log| && log[j] == b;
  }

  lemma ClrSlotFree(s: State, t: Tid)
    requires Inv(s) && Enabled(s, LogClr(t))
    ensures SlotsFree(s.log, Open(s.active), ClrOf(Last(s.active[t].undo)))
  {
    var r := ClrOf(Last(s.active[t].undo));
    ActiveTxnOk(s, t);
    ClrTxn(s.log, t, s.active[t]);
    forall k | k in Open(s.active) && k < |s.log| && IsPageRecord(s.log[k]) ensures s.log[k].rid != r.rid {
      var u := OpenOwner(s, k);
      assert s.log[k] in s.log && Last(s.active[t].undo) in s.log;
      if s.log[k].rid == r.rid {
        assert Touches(s.log[k], u, r.rid) && Touches(Last(s.active[t].undo), t, r.rid);
        OneToucher(s.log, t, u, r.rid);
      }
    }
  }

  lemma LogClrKeeps(s: State, t: Tid)
    requires Inv(s) && Enabled(s, LogClr(t))
    ensures Inv(After(s, LogClr(t)))
  {
    var x := s.active[t];
    ActiveTxnOk(s, t);
    ClrTxn(s.log, t, x);
    ClrSlotFree(s, t);
    ClrStep(s, ClrOf(Last(x.undo)), t, x.(undo := Init(x.undo), pending := Some(|s.log|)));
  }

  lemma StoredBelow(s: State, p: PageId)
    requires LogAndDiskOk(s) && s.log != []
    ensures DiskPage(s.disk, p).lsn < |s.log|
  {
  }

  lemma ClrStep(s: State, r: Record, t: Tid, x: Txn)
    requires Inv(s) && (s.phase.Running? || s.phase.Undo?) && s.log != []
    requires IsClr(r) && MayAppend(s.log, r) && r.tid == t && TxnOk(s.log + [r], t, x) && SlotsFree(s.log, Open(s.active), r)
    requires t in s.active && s.active[t].pending.None? && x.pending == Some(|s.log|)
    ensures Inv(SetTxn(Append(s, r), t, x))
  {
    AppendKeepsStable(s, r);
    StoredBelow(s, r.rid.page);
    ClrPool(s, r, t, x);
    StepDone(s, Append(s, r), r, t, x);
  }

  lemma ClrPool(s: State, r: Record, t: Tid, x: Txn)
    requires PoolOk(s) && (s.phase.Running? || s.phase.Undo?) && IsClr(r) && SlotsFree(s.log, Open(s.active), r)
    requires DiskPage(s.disk, r.rid.page).lsn < |s.log|
    requires t in s.active && s.active[t].pending.None? && x.pending == Some(|s.log|)
    ensures PoolOk(SetTxn(Append(s, r), t, x))
  {
    PagesAppendOpen(s.log, r, s.disk, Frames(s), Open(s.active));
    OpenMore(s.active, t, x, |s.log|);
    TransactionPool(s, Append(s, r), t, x, Frames(s), Open(s.active) + {|s.log|});
  }

  lemma ApplyClrKeeps(s: State, t: Tid)
    requires Inv(s) && Enabled(s, ApplyClr(t)) && Careful(s, ApplyClr(t))
    ensures Inv(After(s, ApplyClr(t)))
  {
    ActiveTxnOk(s, t);
    FillStep(s, t, s.active[t].pending.value);
  }

  lemma FillStep(s: State, t: Tid, k: Lsn)
    requires Inv(s) && (s.phase.Running? || s.phase.Undo?) && t in s.active && s.active[t].pending == Some(k)
    requires k < |s.log| && IsPageRecord(s.log[k]) && s.log[k].rid.page in s.cache && s.cache[s.log[k].rid.page].recLsn <= k
    ensures Inv(SetTxn(StampPage(s, s.log[k], k), t, s.active[t].(pending := None)))
  {
    var s' := SetTxn(StampPage(s, s.log[k], k), t, s.active[t].(pending := None));
    assert PoolOk(s') by { FillPool(s, t, k); }
    assert PhaseOk(s') && HistoryOk(s') by { FillTable(s, t); }
    assert LogAndDiskOk(s');
  }

  lemma FillPool(s: State, t: Tid, k: Lsn)
    requires WellFormed(s.log) && PoolOk(s) && (s.phase.Running? || s.phase.Undo?) && TableOk(s.log, s.active)
    requires t in s.active && s.active[t].pending == Some(k)
    requires k < |s.log| && IsPageRecord(s.log[k]) && s.log[k].rid.page in s.cache && s.cache[s.log[k].rid.page].recLsn <= k
    ensures PoolOk(SetTxn(StampPage(s, s.log[k], k), t, s.active[t].(pending := None)))
  {
    var x, q := s.active[t].(pending := None), s.log[k].rid.page;
    var f := Stamp(s.cache[q], s.log[k], k);
    FillPages(s, t, k, Frames(s)[q := f]);
    SetFrame(s.victims, s.cache, q, f);
    OpenLess(s.log, s.active, t, x);
    TransactionPool(s, StampPage(s, s.log[k], k), t, x, Frames(s)[q := f], Open(s.active) - {k});
  }

  lemma FillPages(s: State, t: Tid, k: Lsn, frames: map<PageId, Frame>)
    requires WellFormed(s.log) && PoolOk(s) && (s.phase.Running? || s.phase.Undo?) && t in s.active && s.active[t].pending == Some(k)
    requires k < |s.log| && IsPageRecord(s.log[k]) && s.log[k].rid.page in s.cache && s.cache[s.log[k].rid.page].recLsn <= k
    requires frames == Frames(s)[s.log[k].rid.page := Stamp(s.cache[s.log[k].rid.page], s.log[k], k)]
    ensures PagesOk(s.log, s.disk, frames, |s.log|, Open(s.active) - {k})
  {
    NotAtZero(s.log);
    OpenIs(s.active, k);
    StampOpen(s.log, s.disk, Frames(s), s.log[k].rid.page, k, Open(s.active), s.cache[s.log[k].rid.page]);
  }

  lemma FillTable(s: State, t: Tid)
    requires PhaseOk(s) && HistoryOk(s) && (s.phase.Running? || s.phase.Undo?) && t in s.active
    ensures TableOk(s.log, s.active[t := s.active[t].(pending := None)])
    ensures HistoryOk(SetTxn(s, t, s.active[t].(pending := None)))
  {
    assert TxnOk(s.log, t, s.active[t]);
  }

  lemma LogEndKeeps(s: State, e: Event)
    requires Inv(s) && (e.LogCommit? || e.LogAbort?) && Enabled(s, e)
    ensures Inv(After(s, e))
  {
    var r := if e.LogCommit? then Commit(e.t) else Abort(e.t);
    ActiveTxnOk(s, e.t);
    TakeOfAppend(s.log, r);
    PlainStep(s, r, e.t, s.active[e.t].(status := Ending(|s.log|)));
  }

  lemma StartAbortKeeps(s: State, t: Tid)
    requires Inv(s) && Enabled(s, StartAbort(t))
    ensures Inv(After(s, StartAbort(t)))
  {
    OpenSame(s.active, t, s.active[t].(status := Aborting));
    TransactionPool(s, s, t, s.active[t].(status := Aborting), Frames(s), Open(s.active));
  }

  lemma AcknowledgeKeeps(s: State, t: Tid)
    requires Inv(s) && Enabled(s, Acknowledge(t)) && Careful(s, Acknowledge(t))
    ensures Inv(After(s, Acknowledge(t)))
  {
    ActiveTxnOk(s, t);
    LeaveStep(s, t, s.active[t].status.lsn);
  }

  lemma LeaveStep(s: State, t: Tid, k: Lsn)
    requires Inv(s) && (s.phase.Running? || s.phase.Undo?) && t in s.active && s.active[t].status == Ending(k)
    requires k < |s.log| && (s.log[k].Commit? ==> k < s.durable)
    ensures Inv(s.(active := s.active - {t}, acked := if s.log[k].Commit? then s.acked + {t} else s.acked))
  {
    assert TxnOk(s.log, t, s.active[t]) && s.log[k] in s.log;
    OpenGone(s.active, t);
    if s.log[k].Commit? { assert s.log[..s.durable][k] == Commit(t); }
  }

  // ---------------------------------------------------------------- checkpoints

  lemma TableCheckpoint(log: Log, r: Record, active: map<Tid, Txn>)
    requires TableOk(log, active) && IsCheckpoint(r)
    ensures TableOk(log + [r], active)
  {
    forall u | u in active ensures TxnOk(log + [r], u, active[u]) { OtherTxn(log, r, u, active[u]); }
  }

  lemma CheckpointRecord(s: State, r: Record, c: Checkpointer)
    requires Inv(s) && s.phase.Running? && IsCheckpoint(r)
    requires MayAppend(s.log, r) && EntriesOk(s.log, s.disk, s.master, r)
    requires CheckpointOk(s.log + [r], s.disk, s.master, c)
    ensures Inv(Append(s, r).(ckpt := c))
  {
    AppendKeepsStable(s, r);
    PagesAppend(s.log, r, s.disk, Frames(s), Open(s.active));
    TableCheckpoint(s.log, r, s.active);
    TakeOfAppend(s.log, r);
    assert Frames(Append(s, r).(ckpt := c)) == Frames(s);
  }

  lemma SetCheckpointer(s: State, c: Checkpointer)
    requires Inv(s) && (s.phase.Running? || c.Idle?) && CheckpointOk(s.log, s.disk, s.master, c)
    ensures Inv(s.(ckpt := c))
  {
    assert Frames(s.(ckpt := c)) == Frames(s);
  }

  /** What the page snapshot of an event would miss. */
  lemma SnapshotEntry(s: State, p: PageId, i: int)
    requires Inv(s) && s.phase.Running? && NothingHidden(s) && Missing(s.log, p, DiskPage(s.disk, p), i)
    ensures p in DirtyTable(s) && DirtyTable(s)[p] <= i
  {
    var open := Open(s.active);
    assert LacksFrom(|s.log|, s.log, p, Newest(s.disk, Frames(s), p), open);
    if i in open { var t := OpenOwner(s, i); }
    else if p in Frames(s) { SnapshotFrame(s, p, i); }
  }

  lemma SnapshotFrame(s: State, p: PageId, i: int)
    requires PoolOk(s) && s.phase.Running? && NothingHidden(s) && Missing(s.log, p, DiskPage(s.disk, p), i)
    requires p in Frames(s) && i !in Open(s.active)
    ensures p in DirtyTable(s) && DirtyTable(s)[p] <= i
  {
    assert FrameOk(s.log, p, DiskPage(s.disk, p), Frames(s)[p], |s.log|, Open(s.active));
    assert LacksFrom(|s.log|, s.log, p, Newest(s.disk, Frames(s), p), Open(s.active));
  }

  lemma SnapshotPagesKeeps(s: State)
    requires Inv(s) && Enabled(s, SnapshotPages) && Careful(s, SnapshotPages)
    ensures Inv(After(s, SnapshotPages))
  {
    var dpt := DirtyTable(s);
    forall p | p in dpt ensures dpt[p] <= |s.log| && BoundsMissing(dpt[p], s.log, p, DiskPage(s.disk, p)) {
      assert FrameOk(s.log, p, DiskPage(s.disk, p), Frames(s)[p], |s.log|, Open(s.active));
      forall i | Missing(s.log, p, DiskPage(s.disk, p), i) ensures dpt[p] <= i { SnapshotEntry(s, p, i); }
    }
    forall p, i | Missing(s.log, p, DiskPage(s.disk, p), i) && i < s.ckpt.begin ensures p in dpt { SnapshotEntry(s, p, i); }
    SetCheckpointer(s, PagesSeen(s.ckpt.begin, dpt));
  }

  lemma SnapshotTxnsKeeps(s: State)
    requires Inv(s) && Enabled(s, SnapshotTxns)
    ensures Inv(After(s, SnapshotTxns))
  {
    var att := BeginTable(s);
    forall t | t in att ensures att[t] < |s.log| && s.log[att[t]] == Begin(t) && !EndedIn(s.log, 0, s.master, t) {
      assert TxnOk(s.log, t, s.active[t]);
      assert forall i :: 0 <= i < |s.log| ==> s.log[i] in s.log;
    }
    forall i | 0 <= i < s.ckpt.begin && s.log[i].Begin? && !Ended(s.log, s.log[i].tid) ensures s.log[i].tid in att {
      assert s.log[i] in s.log;
      assert Live(s.log, s.log[i].tid);
    }
    SetCheckpointer(s, TxnsSeen(s.ckpt.begin, s.ckpt.dpt, att));
  }

  /** The truncation LSN is at most the Begin of each live transaction and at most every
      record some stored page lacks. */
  lemma TruncationIsScanStart(s: State, tr: Lsn)
    requires Inv(s) && Enabled(s, CheckpointEnd(tr))
    ensures ScanStart(s.log, |s.log|, s.disk, tr)
  {
    var b, att, dpt := s.ckpt.begin, s.ckpt.att, s.ckpt.dpt;
    assert s.log[..|s.log|] == s.log;
    forall i | 0 <= i < tr && s.log[i].Begin? ensures Ended(s.log, s.log[i].tid) {
      var t := s.log[i].tid;
      if !Ended(s.log, t) {
        assert t in att;
        BeginsOnce(s.log, i, att[t]);
      }
    }
    forall p ensures BoundsMissing(tr, s.log, p, DiskPage(s.disk, p)) {
      forall i | Missing(s.log, p, DiskPage(s.disk, p), i) ensures tr <= i {
        if i < b { assert p in dpt; }
      }
    }
  }

  lemma CheckpointBeginKeeps(s: State)
    requires Inv(s) && Enabled(s, CheckpointBegin)
    ensures Inv(After(s, CheckpointBegin))
  {
    CheckpointRecord(s, BeginCheckpoint, Begun(|s.log|));
  }

  lemma CheckpointEndKeeps(s: State, tr: Lsn)
    requires Inv(s) && Enabled(s, CheckpointEnd(tr))
    ensures Inv(After(s, CheckpointEnd(tr)))
  {
    var r := EndCheckpoint(s.ckpt.att, s.ckpt.dpt);
    TruncationIsScanStart(s, tr);
    ScanStartAppend(s.log, r, |s.log|, s.disk, tr);
    CheckpointRecord(s, r, Logged(tr, |s.log|));
  }

  lemma WriteMasterKeeps(s: State)
    requires Inv(s) && Enabled(s, WriteMaster) && Careful(s, WriteMaster)
    ensures Inv(After(s, WriteMaster))
  {
    ScanStartLater(s.log, s.ckpt.endLsn, s.durable, s.disk, s.ckpt.truncation);
    assert Frames(After(s, WriteMaster)) == Frames(s);
  }

  // ---------------------------------------------------------------- crash and restart

  lemma CrashBounds(log: Log, d: nat, p: PageId, page: Page, v: Lsn)
    requires d <= |log| && BoundsMissing(v, log, p, page)
    ensures BoundsMissing(v, log[..d], p, page)
  {
    forall i | Missing(log[..d], p, page, i) ensures v <= i { assert Missing(log, p, page, i); }
  }

  lemma CrashStale(log: Log, d: nat, m: Lsn)
    requires m <= d <= |log| && NoStaleEntry(log, m)
    ensures NoStaleEntry(log[..d], m)
  {
    forall c: nat, t | m <= c < d && log[..d][c].EndCheckpoint? && t in log[..d][c].att ensures !EndedIn(log[..d], 0, m, t) {
      assert log[c] == log[..d][c];
      assert !EndedIn(log, 0, m, t);
      assert forall i :: 0 <= i < m ==> log[..d][i] == log[i];
    }
  }

  lemma CrashKeepsStable(s: State)
    requires LogAndDiskOk(s)
    ensures StableOk(s.log[..s.durable], s.durable, s.disk, s.master, Idle, s.acked)
  {
    var log', d := s.log[..s.durable], s.durable;
    assert log'[..d] == log';
    WellFormedPrefix(s.log, d);
    forall p | p in s.disk ensures PageOk(log', p, s.disk[p]) { PageOkPrefix(s.log, d, p, s.disk[p]); }
    assert ScanStart(log', d, s.disk, s.master) by {
      forall p ensures BoundsMissing(s.master, log', p, DiskPage(s.disk, p)) {
        CrashBounds(s.log, d, p, DiskPage(s.disk, p), s.master);
      }
    }
    CrashStale(s.log, d, s.master);
    assert LoggedTablesOk(log', s.disk) by {
      forall c: nat, p | c < |log'| ensures EntryOk(log', s.disk, c, p) {
        assert EntryOk(s.log, s.disk, c, p);
        if log'[c].EndCheckpoint? && p in log'[c].dpt {
          CrashBounds(s.log, d, p, DiskPage(s.disk, p), log'[c].dpt[p]);
        }
      }
    }
  }

  lemma CrashKeeps(s: State)
    requires Inv(s)
    ensures Inv(After(s, Crash))
  {
    CrashKeepsStable(s);
    assert Open(map[]) == {};
    assert After(s, Crash).log[..s.durable] == After(s, Crash).log;
  }

  lemma FinishAnalysisKeeps(s: State, start: Lsn)
    requires Inv(s) && Enabled(s, FinishAnalysis(start))
    ensures Inv(After(s, FinishAnalysis(start)))
  {
    assert s.log[..|s.log|] == s.log;
    ScanStartLater(s.log, s.durable, |s.log|, s.disk, s.master);
    AnalysisExact(s.log, s.master, s.disk);
    assert Open(s.active) == {};
    forall p ensures LacksFrom(start, s.log, p, Newest(s.disk, Frames(s), p), {}) {
      assert BoundsMissing(s.master, s.log, p, DiskPage(s.disk, p));
    }
    assert Frames(After(s, FinishAnalysis(start))) == Frames(s);
  }

  lemma RedoFrames(log: Log, disk: map<PageId, Page>, frames: map<PageId, Frame>, j: nat)
    requires FramesOk(log, disk, frames, j, {})
    ensures FramesOk(log, disk, frames, j + 1, {})
  {
    forall p | p in frames ensures FrameOk(log, p, DiskPage(disk, p), frames[p], j + 1, {}) {
      assert FrameOk(log, p, DiskPage(disk, p), frames[p], j, {});
    }
  }

  lemma RedoApplied(log: Log, disk: map<PageId, Page>, frames: map<PageId, Frame>, j: nat, f: Frame)
    requires WellFormed(log) && j < |log| && IsPageRecord(log[j]) && log[j].rid.page in frames
    requires f == frames[log[j].rid.page] && PagesOk(log, disk, frames, j, {}) && f.page.lsn < j
    ensures PagesOk(log, disk, frames[log[j].rid.page := Stamp(f, log[j], j)], j + 1, {})
  {
    var q := log[j].rid.page;
    NotAtZero(log);
    RedoFrames(log, disk, frames, j);
    assert FrameOk(log, q, DiskPage(disk, q), frames[q], j, {});
    StampNew(log, disk, frames, q, j, {});
  }

  /** The three skips of redo are justified: a skipped record has already reached its page. */
  lemma RedoSkipped(log: Log, disk: map<PageId, Page>, frames: map<PageId, Frame>, j: nat)
    requires PagesOk(log, disk, frames, j, {})
    requires forall p :: Missing(log, p, DiskPage(disk, p), j) ==> p in frames && j <= frames[p].page.lsn
    ensures PagesOk(log, disk, frames, j + 1, {})
  {
    RedoFrames(log, disk, frames, j);
    forall p ensures LacksFrom(j + 1, log, p, Newest(disk, frames, p), {}) {
      assert LacksFrom(j, log, p, Newest(disk, frames, p), {});
      if Missing(log, p, Newest(disk, frames, p), j) {
        if p in frames { assert FrameOk(log, p, DiskPage(disk, p), frames[p], j, {}); }
        assert Missing(log, p, DiskPage(disk, p), j);
      }
    }
  }

  lemma RedoPool(s: State, cache: map<PageId, Frame>, frames: map<PageId, Frame>)
    requires PoolOk(s) && s.phase.Redo? && s.active == map[]
    requires cache.Keys == s.cache.Keys && frames == s.victims + cache
    requires PagesOk(s.log, s.disk, frames, s.phase.cursor + 1, {})
    ensures PoolOk(s.(cache := cache, phase := s.phase.(cursor := s.phase.cursor + 1)))
  {
    assert Open(s.active) == {};
  }

  lemma RedoDone(s: State, j: nat, cache: map<PageId, Frame>, frames: map<PageId, Frame>, s': State)
    requires LogAndDiskOk(s) && PoolOk(s) && PhaseOk(s) && HistoryOk(s) && s.phase.Redo? && s.phase.cursor == j < |s.log|
    requires cache.Keys == s.cache.Keys && frames == s.victims + cache
    requires PagesOk(s.log, s.disk, frames, j + 1, {})
    requires s' == s.(cache := cache, phase := s.phase.(cursor := j + 1))
    ensures Inv(s')
  {
    RedoPool(s, cache, frames);
  }

  lemma RedoStamp(s: State, r: Record, j: nat, f: Frame, s': State)
    requires Inv(s) && s.phase.Redo? && s.phase.cursor == j < |s.log| && r == s.log[j]
    requires IsPageRecord(r) && r.rid.page in s.cache && s.cache[r.rid.page].page.lsn < j
    requires f == Stamp(s.cache[r.rid.page], r, j)
    requires s' == s.(cache := s.cache[r.rid.page := f], phase := s.phase.(cursor := j + 1))
    ensures Inv(s')
  {
    var frames := Frames(s)[r.rid.page := f];
    RedoStampPages(s, r, j, f, frames);
    SetFrame(s.victims, s.cache, r.rid.page, f);
    RedoDone(s, j, s.cache[r.rid.page := f], frames, s');
  }

  lemma RedoStampPages(s: State, r: Record, j: nat, f: Frame, frames: map<PageId, Frame>)
    requires LogAndDiskOk(s) && PoolOk(s) && PhaseOk(s) && s.phase.Redo? && s.phase.cursor == j < |s.log| && r == s.log[j]
    requires IsPageRecord(r) && r.rid.page in s.cache && s.cache[r.rid.page].page.lsn < j
    requires f == Stamp(s.cache[r.rid.page], r, j) && frames == Frames(s)[r.rid.page := f]
    ensures PagesOk(s.log, s.disk, frames, j + 1, {})
  {
    assert Open(s.active) == {};
    RedoApplied(s.log, s.disk, Frames(s), j, s.cache[r.rid.page]);
  }

  lemma RedoSkip(s: State)
    requires Inv(s) && s.phase.Redo? && s.phase.cursor < |s.log|
    requires var r := s.log[s.phase.cursor];
             RedoApplies(s, r) ==> r.rid.page in s.cache && s.phase.cursor <= s.cache[r.rid.page].page.lsn
    ensures Inv(s.(phase := s.phase.(cursor := s.phase.cursor + 1)))
  {
    var j := s.phase.cursor;
    SamePool(s);
    assert Open(s.active) == {};
    forall p | Missing(s.log, p, DiskPage(s.disk, p), j) ensures p in Frames(s) && j <= Frames(s)[p].page.lsn {
      assert RedoApplies(s, s.log[j]);
    }
    RedoSkipped(s.log, s.disk, Frames(s), j);
    RedoDone(s, j, s.cache, Frames(s), s.(phase := s.phase.(cursor := j + 1)));
  }

  lemma RedoOneKeeps(s: State)
    requires Inv(s) && Enabled(s, RedoOne)
    ensures Inv(After(s, RedoOne))
  {
    var r, j := s.log[s.phase.cursor], s.phase.cursor;
    if RedoApplies(s, r) && s.cache[r.rid.page].page.lsn < j {
      var f := Stamp(s.cache[r.rid.page], r, j);
      StampedState(s, r, j, f);
      RedoStamp(s, r, j, f, After(s, RedoOne));
    } else {
      RedoSkip(s);
    }
  }

  lemma StampedState(s: State, r: Record, j: nat, f: Frame)
    requires s.phase.Redo? && IsPageRecord(r) && r.rid.page in s.cache && f == Stamp(s.cache[r.rid.page], r, j)
    ensures StampPage(s.(phase := s.phase.(cursor := j + 1)), r, j)
         == s.(cache := s.cache[r.rid.page := f], phase := s.phase.(cursor := j + 1))
  {
  }

  /** No loser began before the master LSN, so the test against the start of redo never
      fires and the undo scan starts at the master LSN. */
  lemma UndoStartIsMaster(s: State, from: Lsn)
    requires Inv(s) && s.phase.Redo? && IsUndoStart(from, s.master, s.phase.start, s.phase.att)
    ensures from == s.master <= |s.log|
    ensures forall t :: t in s.phase.att ==>
              from <= s.phase.att[t] < |s.log| && s.log[s.phase.att[t]] == Begin(t)
  {
    assert s.log[..|s.log|] == s.log;
    ScanStartLater(s.log, s.durable, |s.log|, s.disk, s.master);
    forall t | t in s.phase.att ensures s.master <= s.phase.att[t] {
      assert s.log[s.phase.att[t]].Begin?;
    }
  }

  lemma StartUndoKeeps(s: State, from: Lsn)
    requires Inv(s) && Enabled(s, StartUndo(from))
    ensures Inv(After(s, StartUndo(from)))
  {
    var s' := After(s, StartUndo(from));
    UndoStartIsMaster(s, from);
    forall t | t in s'.active ensures TxnOk(s'.log, t, s'.active[t]) {
      RebuildIsUndoStack(s.log, s.phase.att[t], from, t);
    }
    assert Open(s'.active) == {} && Open(s.active) == {};
    assert Frames(s') == Frames(s);
  }

  lemma FinishRecoveryKeeps(s: State)
    requires Inv(s) && Enabled(s, FinishRecovery)
    ensures Inv(After(s, FinishRecovery))
  {
    assert Frames(After(s, FinishRecovery)) == Frames(s);
  }

  // ---------------------------------------------------------------- all events, all runs

  lemma RollbackStepKeeps(s: State, e: Event)
    requires Inv(s) && Enabled(s, e) && Careful(s, e) && (e.StartAbort? || e.LogClr? || e.ApplyClr?)
    ensures Inv(After(s, e))
  {
    match e
    case StartAbort(t) => StartAbortKeeps(s, t);
    case LogClr(t) => LogClrKeeps(s, t);
    case ApplyClr(t) => ApplyClrKeeps(s, t);
  }

  lemma TransactionStepKeeps(s: State, e: Event)
    requires Inv(s) && Enabled(s, e) && Careful(s, e)
    requires e.BeginTxn? || e.Write? || e.LogCommit? || e.LogAbort? || e.Acknowledge?
    ensures Inv(After(s, e))
  {
    match e
    case BeginTxn(t) => BeginTxnKeeps(s, t);
    case Write(r) => WriteKeeps(s, r);
    case LogCommit(t) => LogEndKeeps(s, e);
    case LogAbort(t) => LogEndKeeps(s, e);
    case Acknowledge(t) => AcknowledgeKeeps(s, t);
  }

  lemma StorageStepKeeps(s: State, e: Event)
    requires Inv(s) && Enabled(s, e) && Careful(s, e) && (e.FlushLog? || e.FlushPage? || e.MarkDirty?)
    ensures Inv(After(s, e))
  {
    match e
    case FlushLog(n) => FlushLogKeeps(s, n);
    case FlushPage(p) => FlushPageKeeps(s, p);
    case MarkDirty(p) => MarkDirtyKeeps(s, p);
  }

  lemma EvictionStepKeeps(s: State, e: Event)
    requires Inv(s) && Enabled(s, e) && Careful(s, e) && (e.TakeVictim? || e.FinishVictim? || e.LoadPage?)
    ensures Inv(After(s, e))
  {
    match e
    case TakeVictim(p) => TakeVictimKeeps(s, p);
    case FinishVictim(p) => FinishVictimKeeps(s, p);
    case LoadPage(p, r) => LoadPageKeeps(s, p, r);
  }

  lemma CheckpointStepKeeps(s: State, e: Event)
    requires Inv(s) && Enabled(s, e) && Careful(s, e)
    requires e.CheckpointBegin? || e.SnapshotPages? || e.SnapshotTxns? || e.CheckpointEnd? || e.WriteMaster?
    ensures Inv(After(s, e))
  {
    match e
    case CheckpointBegin => CheckpointBeginKeeps(s);
    case SnapshotPages => SnapshotPagesKeeps(s);
    case SnapshotTxns => SnapshotTxnsKeeps(s);
    case CheckpointEnd(tr) => CheckpointEndKeeps(s, tr);
    case WriteMaster => WriteMasterKeeps(s);
  }

  lemma RestartStepKeeps(s: State, e: Event)
    requires Inv(s) && Enabled(s, e)
    requires e.Crash? || e.FinishAnalysis? || e.RedoOne? || e.StartUndo? || e.FinishRecovery?
    ensures Inv(After(s, e))
  {
    match e
    case Crash => CrashKeeps(s);
    case FinishAnalysis(start) => FinishAnalysisKeeps(s, start);
    case RedoOne => RedoOneKeeps(s);
    case StartUndo(from) => StartUndoKeeps(s, from);
    case FinishRecovery => FinishRecoveryKeeps(s);
  }

  lemma StepKeeps(s: State, e: Event)
    requires Inv(s) && Enabled(s, e) && Careful(s, e)
    ensures Inv(After(s, e))
  {
    if e.Crash? || e.FinishAnalysis? || e.RedoOne? || e.StartUndo? || e.FinishRecovery? { RestartStepKeeps(s, e); }
    else if e.CheckpointBegin? || e.SnapshotPages? || e.SnapshotTxns? || e.CheckpointEnd? || e.WriteMaster? { CheckpointStepKeeps(s, e); }
    else if e.FlushLog? || e.FlushPage? || e.MarkDirty? { StorageStepKeeps(s, e); }
    else if e.TakeVictim? || e.FinishVictim? || e.LoadPage? { EvictionStepKeeps(s, e); }
    else if e.StartAbort? || e.LogClr? || e.ApplyClr? { RollbackStepKeeps(s, e); }
    else { TransactionStepKeeps(s, e); }
  }

  lemma {:induction false} RunsKeepInv(es: seq<Event>)
    requires Guarded(es)
    ensures Run(es).Some? ==> Inv(Run(es).value)
  {
    if es == [] { InitialInv(); }
    else {
      RunsKeepInv(es[..|es| - 1]);
      var prev := Run(es[..|es| - 1]);
      if prev.Some? && Enabled(prev.value, es[|es| - 1]) { StepKeeps(prev.value, es[|es| - 1]); }
    }
  }
}
