/** The invariant of the engine and its preservation by the building blocks of events. */
module EngineInvariant {
  import opened LogModel
  import opened Engine

  // ---------------------------------------------------------------- page versions

  /** The compensations that are logged and still to be applied. */
  function Open(active: map<Tid, Txn>): set<Lsn> {
    set t | t in active && active[t].pending.Some? :: active[t].pending.value
  }

  /** Replay of the log on one page, without the records in `open`. */
  ghost function PageLess(log: Log, p: PageId, open: set<Lsn>): Page {
    if log == [] then EMPTY_PAGE
    else if OnPage(Last(log), p) && |log| - 1 !in open then
      ApplyPage(PageLess(Init(log), p, open), Last(log), |log| - 1)
    else PageLess(Init(log), p, open)
  }

  /** The page is the replay of exactly the records for it with LSN at most the page LSN ... */
  ghost predicate PageOk(log: Log, p: PageId, page: Page) {
    if page.lsn == 0 then page == EMPTY_PAGE
    else page.lsn < |log| && page == PageOf(log[..page.lsn + 1], p)
  }

  /** ... or of all of those but the ones in `open`. */
  ghost predicate VersionOk(log: Log, p: PageId, page: Page, open: set<Lsn>) {
    if page.lsn == 0 then page == EMPTY_PAGE
    else page.lsn < |log| && page == PageLess(log[..page.lsn + 1], p, open)
  }

  /** Record `i` is newer than this version of page `p`. */
  predicate Missing(log: Log, p: PageId, page: Page, i: int) {
    page.lsn < i < |log| && OnPage(log[i], p)
  }

  ghost predicate BoundsMissing(v: Lsn, log: Log, p: PageId, page: Page) {
    forall i :: Missing(log, p, page, i) ==> v <= i
  }

  ghost predicate LacksFrom(v: Lsn, log: Log, p: PageId, page: Page, open: set<Lsn>) {
    forall i :: Missing(log, p, page, i) ==> i in open || v <= i
  }

  // ---------------------------------------------------------------- the invariant

  ghost predicate DiskOk(log: Log, durable: nat, disk: map<PageId, Page>) {
    forall p :: p in disk ==> PageOk(log, p, disk[p]) && (disk[p].lsn == 0 || disk[p].lsn < durable)
  }

  ghost predicate FrameOk(log: Log, p: PageId, stored: Page, f: Frame, now: nat, open: set<Lsn>) {
    && VersionOk(log, p, f.page, open)
    && stored.lsn <= f.page.lsn
    && ((!f.dirty && !f.unmarked) || f.recLsn == 0 ==> f.page == stored)
    && f.recLsn <= now
    && LacksFrom(f.recLsn, log, p, stored, open)
  }

  ghost predicate FramesOk(log: Log, disk: map<PageId, Page>, frames: map<PageId, Frame>, now: nat, open: set<Lsn>) {
    forall p :: p in frames ==> FrameOk(log, p, DiskPage(disk, p), frames[p], now, open)
  }

  /** Every record below `now` has reached the current version of its page or is in `open`. */
  ghost predicate Complete(log: Log, disk: map<PageId, Page>, frames: map<PageId, Frame>, now: nat, open: set<Lsn>) {
    forall p :: LacksFrom(now, log, p, Newest(disk, frames, p), open)
  }

  /** A compensation still to be applied is newer than the stored page, and nothing was written
      to its slot since. */
  ghost predicate OpenOk(log: Log, disk: map<PageId, Page>, k: Lsn) {
    && k < |log| && IsClr(log[k])
    && DiskPage(disk, log[k].rid.page).lsn < k
    && LastOnSlot(log, k)
  }

  ghost predicate LastOnSlot(log: Log, k: Lsn)
    requires k < |log| && IsPageRecord(log[k])
  {
    forall i :: k < i < |log| && IsPageRecord(log[i]) ==> log[i].rid != log[k].rid
  }

  ghost predicate PagesOk(log: Log, disk: map<PageId, Page>, frames: map<PageId, Frame>, now: nat, open: set<Lsn>) {
    && FramesOk(log, disk, frames, now, open)
    && Complete(log, disk, frames, now, open)
    && (forall k :: k in open ==> OpenOk(log, disk, k))
  }

  /** A scan from `m` misses no live transaction's Begin and no record a stored page lacks,
      and stays so when the log loses its tail beyond `durable`. */
  ghost predicate ScanStart(log: Log, durable: nat, disk: map<PageId, Page>, m: Lsn)
    requires durable <= |log|
  {
    && m <= durable
    && (forall i :: 0 <= i < m && log[i].Begin? ==> Ended(log[..durable], log[i].tid))
    && (forall p :: BoundsMissing(m, log, p, DiskPage(disk, p)))
  }

  /** Every dirty-page entry ever logged is still a lower bound for what its page lacks. */
  ghost predicate LoggedTablesOk(log: Log, disk: map<PageId, Page>) {
    forall c: nat, p :: c < |log| ==> EntryOk(log, disk, c, p)
  }

  ghost predicate EntryOk(log: Log, disk: map<PageId, Page>, c: nat, p: PageId)
    requires c < |log|
  {
    log[c].EndCheckpoint? && p in log[c].dpt ==>
      log[c].dpt[p] <= c && BoundsMissing(log[c].dpt[p], log, p, DiskPage(disk, p))
  }

  ghost predicate TxnOk(log: Log, t: Tid, x: Txn) {
    && x.begin < |log| && log[x.begin] == Begin(t)
    && (x.status.Ending? ==> x.status.lsn < |log| && Ends(log[x.status.lsn], t))
    && (!x.status.Ending? ==> Live(log, t) && x.undo == UndoStack(log, t))
    && (x.status.Active? ==> NoClr(log, t))
    && (x.pending.Some? ==>
          x.status.Aborting? && x.pending.value < |log| && IsClr(log[x.pending.value]) && log[x.pending.value].tid == t)
  }

  ghost predicate TableOk(log: Log, active: map<Tid, Txn>) {
    && (forall t :: Live(log, t) ==> t in active)
    && (forall t :: t in active ==> TxnOk(log, t, active[t]))
  }

  /** The log position up to which current pages are complete. */
  function Now(s: State): nat {
    match s.phase
    case Running => |s.log|
    case Restarted => 0
    case Redo(_, _, _, j) => j
    case Undo => |s.log|
  }

  ghost predicate PhaseOk(s: State) {
    match s.phase
    case Running => TableOk(s.log, s.active)
    case Undo => TableOk(s.log, s.active)
    case Restarted => s.active == map[] && s.cache == map[] && s.victims == map[]
    case Redo(dpt, att, start, j) =>
      && s.active == map[] && j <= |s.log| && start <= s.master
      && IsLiveTable(s.log, att)
      && (forall p, i :: Missing(s.log, p, DiskPage(s.disk, p), i) ==> p in dpt && dpt[p] <= i)
  }

  /** Recovery itself logs nothing but compensations and Abort records. */
  ghost predicate HistoryOk(s: State) {
    && |s.crashLog| <= |s.log| && s.log[..|s.crashLog|] == s.crashLog
    && (!s.phase.Running? ==> s.ckpt.Idle?)
    && (s.phase.Restarted? || s.phase.Redo? ==> |s.log| == |s.crashLog|)
    && (s.phase.Undo? ==>
          && (forall i :: |s.crashLog| <= i < |s.log| ==> IsClr(s.log[i]) || s.log[i].Abort?)
          && (forall t :: t in s.active ==> !s.active[t].status.Active?))
  }

  /** The page snapshot has every page that lacks a record below `b`, with an LSN at or below
      all the page lacks. */
  ghost predicate PagesSnapshotOk(log: Log, disk: map<PageId, Page>, b: Lsn, dpt: map<PageId, Lsn>) {
    && (forall p :: p in dpt ==> dpt[p] <= |log| && BoundsMissing(dpt[p], log, p, DiskPage(disk, p)))
    && (forall p, i :: Missing(log, p, DiskPage(disk, p), i) && i < b ==> p in dpt)
  }

  ghost predicate TxnsSnapshotOk(log: Log, master: Lsn, b: Lsn, att: map<Tid, Lsn>)
    requires b <= |log|
  {
    && master <= |log|
    && EntriesIn(log, att)
    && (forall t :: t in att ==> !EndedIn(log, 0, master, t))
    && (forall i :: 0 <= i < b && log[i].Begin? && !Ended(log, log[i].tid) ==> log[i].tid in att)
  }

  ghost predicate CheckpointOk(log: Log, disk: map<PageId, Page>, master: Lsn, c: Checkpointer) {
    match c
    case Idle => true
    case Begun(b) => b <= |log|
    case PagesSeen(b, dpt) => b <= |log| && PagesSnapshotOk(log, disk, b, dpt)
    case TxnsSeen(b, dpt, att) => b <= |log| && PagesSnapshotOk(log, disk, b, dpt) && TxnsSnapshotOk(log, master, b, att)
    case Logged(tr, e) => e < |log| && ScanStart(log, e, disk, tr)
  }

  ghost predicate StableOk(log: Log, durable: nat, disk: map<PageId, Page>, master: Lsn, ckpt: Checkpointer, acked: set<Tid>) {
    && WellFormed(log)
    && durable <= |log|
    && DiskOk(log, durable, disk)
    && ScanStart(log, durable, disk, master)
    && NoStaleEntry(log, master)
    && CheckpointOk(log, disk, master, ckpt)
    && LoggedTablesOk(log, disk)
    && (forall t :: t in acked ==> Commit(t) in log[..durable])
  }

  ghost predicate LogAndDiskOk(s: State) { StableOk(s.log, s.durable, s.disk, s.master, s.ckpt, s.acked) }

  ghost predicate PoolOk(s: State) {
    && PagesOk(s.log, s.disk, Frames(s), Now(s), Open(s.active))
    && (forall p :: p in s.victims ==> p !in s.cache && !s.victims[p].unmarked)
    && (forall r :: r in s.spare ==> r <= Now(s))
  }

  ghost predicate StorageOk(s: State) { LogAndDiskOk(s) && PoolOk(s) }

  ghost predicate Inv(s: State) {
    StorageOk(s) && PhaseOk(s) && HistoryOk(s)
  }

  lemma InitialInv()
    ensures Inv(INITIAL)
  {
  }

  // ---------------------------------------------------------------- replay of pages

  ghost predicate StartsPlain(log: Log) { log != [] ==> !IsPageRecord(log[0]) }

  lemma NotAtZero(log: Log)
    requires WellFormed(log)
    ensures StartsPlain(log)
  {
    if log != [] { assert Admitted(log, 0); }
  }

  lemma {:induction false} NothingLess(log: Log, p: PageId)
    ensures PageLess(log, p, {}) == PageOf(log, p)
  {
    if log != [] { NothingLess(Init(log), p); }
  }

  /** Only records of the page count. */
  lemma {:induction false} LessAgree(log: Log, p: PageId, open: set<Lsn>, open': set<Lsn>)
    requires forall i: nat :: i < |log| && OnPage(log[i], p) ==> (i in open <==> i in open')
    ensures PageLess(log, p, open) == PageLess(log, p, open')
  {
    if log != [] { LessAgree(Init(log), p, open, open'); }
  }

  /** Applying an open record late, with nothing on its slot since, is applying it in place. */
  lemma {:induction false} Fill(log: Log, p: PageId, open: set<Lsn>, k: Lsn)
    requires k < |log| && k in open && OnPage(log[k], p) && LastOnSlot(log, k)
    ensures PageLess(log, p, open - {k}) == ApplyPage(PageLess(log, p, open), log[k], k)
  {
    var n := |log| - 1;
    if k == n {
      LessAgree(Init(log), p, open, open - {k});
    } else {
      assert Init(log)[k] == log[k];
      Fill(Init(log), p, open, k);
      if OnPage(log[n], p) && n !in open {
        Commute(PageLess(Init(log), p, open), log[k], k, log[n], n);
      }
    }
  }

  lemma Commute(page: Page, a: Record, i: Lsn, b: Record, j: Lsn)
    requires IsPageRecord(a) && IsPageRecord(b) && a.rid.slot != b.rid.slot
    ensures ApplyPage(ApplyPage(page, a, i), b, j) == ApplyPage(ApplyPage(page, b, j), a, i)
  {
    assert ApplyPage(ApplyPage(page, a, i), b, j).slots == ApplyPage(ApplyPage(page, b, j), a, i).slots;
  }

  /** A page version lacking nothing but open records below `n` is the replay of the first `n`
      records without those. */
  lemma {:induction false} CatchUp(log: Log, p: PageId, page: Page, n: nat, open: set<Lsn>)
    requires StartsPlain(log) && VersionOk(log, p, page, open) && n <= |log|
    requires page.lsn < n || page.lsn == 0
    requires LacksFrom(n, log, p, page, open)
    ensures PageLess(log[..n], p, open) == page
  {
    if n > 0 {
      if page.lsn != n - 1 || page.lsn == 0 {
        TakeSucc(log, n - 1);
        assert OnPage(log[n - 1], p) && page.lsn < n - 1 ==> Missing(log, p, page, n - 1);
        CatchUp(log, p, page, n - 1, open);
      }
    }
  }

  lemma {:induction false} PageSlots(log: Log, x: Rid)
    ensures SlotOn(PageOf(log, x.page), x.slot) == SlotOf(log, x)
  {
    if log != [] { PageSlots(Init(log), x); }
  }

  /** A slot no open record is for. */
  lemma {:induction false} SlotLess(log: Log, x: Rid, open: set<Lsn>)
    requires forall i: nat :: i < |log| && IsPageRecord(log[i]) && log[i].rid == x ==> i !in open
    ensures SlotOn(PageLess(log, x.page, open), x.slot) == SlotOf(log, x)
  {
    if log != [] {
      assert forall i: nat :: i < |Init(log)| ==> Init(log)[i] == log[i];
      SlotLess(Init(log), x, open);
    }
  }

  lemma StoredVersion(log: Log, p: PageId, page: Page, open: set<Lsn>)
    requires forall k :: k in open && k < |log| && OnPage(log[k], p) ==> page.lsn < k
    ensures PageOk(log, p, page) <==> VersionOk(log, p, page, open)
  {
    if page.lsn != 0 && page.lsn < |log| {
      var pre := log[..page.lsn + 1];
      NothingLess(pre, p);
      LessAgree(pre, p, {}, open);
    }
  }

  lemma VersionAppend(log: Log, r: Record, p: PageId, page: Page, open: set<Lsn>)
    requires VersionOk(log, p, page, open)
    ensures VersionOk(log + [r], p, page, open)
  {
    if page.lsn != 0 { TakeOfAppend(log, r); }
  }

  lemma PageOkAppend(log: Log, r: Record, p: PageId, page: Page)
    requires PageOk(log, p, page)
    ensures PageOk(log + [r], p, page)
  {
    if page.lsn != 0 { TakeOfAppend(log, r); }
  }

  lemma PageOkPrefix(log: Log, n: nat, p: PageId, page: Page)
    requires PageOk(log, p, page) && n <= |log| && (page.lsn == 0 || page.lsn < n)
    ensures PageOk(log[..n], p, page)
  {
    if page.lsn != 0 { assert log[..n][..page.lsn + 1] == log[..page.lsn + 1]; }
  }

  /** A page version advanced by record `n`. */
  lemma AdvancePage(log: Log, p: PageId, page: Page, n: nat, open: set<Lsn>)
    requires StartsPlain(log) && VersionOk(log, p, page, open) && n < |log| && OnPage(log[n], p) && n !in open
    requires page.lsn < n && LacksFrom(n, log, p, page, open)
    ensures VersionOk(log, p, ApplyPage(page, log[n], n), open)
  {
    TakeSucc(log, n);
    CatchUp(log, p, page, n, open);
  }

  /** A page version completed by the open record `k`, be it newer than the page LSN or not. */
  lemma FillPage(log: Log, p: PageId, page: Page, k: Lsn, open: set<Lsn>)
    requires StartsPlain(log) && VersionOk(log, p, page, open) && LacksFrom(|log|, log, p, page, open)
    requires k < |log| && k in open && OnPage(log[k], p) && LastOnSlot(log, k)
    ensures VersionOk(log, p, ApplyPage(page, log[k], k), open - {k})
  {
    var n := if page.lsn < k then k + 1 else page.lsn + 1;
    CatchUp(log, p, page, n, open);
    assert log[..n][k] == log[k];
    Fill(log[..n], p, open, k);
  }

  // ---------------------------------------------------------------- appending to the log

  lemma MissingAppend(log: Log, r: Record, p: PageId, page: Page)
    ensures forall i :: Missing(log + [r], p, page, i) ==>
              Missing(log, p, page, i) || (i == |log| && OnPage(r, p))
    ensures forall i :: Missing(log, p, page, i) ==> Missing(log + [r], p, page, i)
  {
  }

  lemma EndedAppend(log: Log, r: Record, t: Tid)
    ensures Ended(log, t) ==> Ended(log + [r], t)
  {
  }

  lemma ScanStartAppend(log: Log, r: Record, d: nat, disk: map<PageId, Page>, m: Lsn)
    requires d <= |log| && ScanStart(log, d, disk, m)
    ensures ScanStart(log + [r], d, disk, m)
  {
    TakeOfAppend(log, r);
    forall p ensures BoundsMissing(m, log + [r], p, DiskPage(disk, p)) {
      assert BoundsMissing(m, log, p, DiskPage(disk, p));
      MissingAppend(log, r, p, DiskPage(disk, p));
    }
  }

  /** An end-of-checkpoint record carries entries that bound what stored pages lack, and no
      transaction that ended before `m`. */
  ghost predicate EntriesOk(log: Log, disk: map<PageId, Page>, m: Lsn, r: Record)
    requires m <= |log|
  {
    r.EndCheckpoint? ==>
      && (forall p :: p in r.dpt ==> r.dpt[p] <= |log| && BoundsMissing(r.dpt[p], log, p, DiskPage(disk, p)))
      && (forall t :: t in r.att ==> !EndedIn(log, 0, m, t))
  }

  lemma LoggedTablesAppend(log: Log, r: Record, disk: map<PageId, Page>, m: Lsn)
    requires m <= |log| && LoggedTablesOk(log, disk) && EntriesOk(log, disk, m, r)
    ensures LoggedTablesOk(log + [r], disk)
  {
    forall c: nat, p | c < |log + [r]| ensures EntryOk(log + [r], disk, c, p) {
      MissingAppend(log, r, p, DiskPage(disk, p));
      if c < |log| { assert EntryOk(log, disk, c, p); }
    }
  }

  lemma EndedInAppend(log: Log, r: Record, m: Lsn, t: Tid)
    requires m <= |log|
    ensures EndedIn(log + [r], 0, m, t) <==> EndedIn(log, 0, m, t)
  {
    if EndedIn(log, 0, m, t) {
      var i :| 0 <= i < m && Ends(log[i], t);
      assert Ends((log + [r])[i], t);
    }
  }

  lemma StaleAppend(log: Log, r: Record, disk: map<PageId, Page>, m: Lsn)
    requires m <= |log| && NoStaleEntry(log, m) && EntriesOk(log, disk, m, r)
    ensures NoStaleEntry(log + [r], m)
  {
    forall c: nat, t | m <= c < |log + [r]| && (log + [r])[c].EndCheckpoint? && t in (log + [r])[c].att
      ensures !EndedIn(log + [r], 0, m, t)
    {
      EndedInAppend(log, r, m, t);
      if c < |log| { assert log[c] == (log + [r])[c]; }
    }
  }

  lemma SnapshotAppend(log: Log, r: Record, disk: map<PageId, Page>, b: Lsn, dpt: map<PageId, Lsn>)
    requires b <= |log| && PagesSnapshotOk(log, disk, b, dpt)
    ensures PagesSnapshotOk(log + [r], disk, b, dpt)
  {
    forall p | p in dpt ensures BoundsMissing(dpt[p], log + [r], p, DiskPage(disk, p)) {
      MissingAppend(log, r, p, DiskPage(disk, p));
    }
    forall p, i | Missing(log + [r], p, DiskPage(disk, p), i) && i < b ensures p in dpt {
      assert Missing(log, p, DiskPage(disk, p), i);
    }
  }

  lemma TxnsSnapshotAppend(log: Log, r: Record, m: Lsn, b: Lsn, att: map<Tid, Lsn>)
    requires b <= |log| && TxnsSnapshotOk(log, m, b, att)
    ensures TxnsSnapshotOk(log + [r], m, b, att)
  {
    forall t | t in att ensures !EndedIn(log + [r], 0, m, t) { EndedInAppend(log, r, m, t); }
    forall i | 0 <= i < b && (log + [r])[i].Begin? && !Ended(log + [r], (log + [r])[i].tid)
      ensures (log + [r])[i].tid in att
    {
      EndedAppend(log, r, log[i].tid);
    }
  }

  lemma CheckpointAppend(log: Log, r: Record, disk: map<PageId, Page>, m: Lsn, c: Checkpointer)
    requires CheckpointOk(log, disk, m, c)
    ensures CheckpointOk(log + [r], disk, m, c)
  {
    match c
    case Idle =>
    case Begun(b) =>
    case PagesSeen(b, dpt) => SnapshotAppend(log, r, disk, b, dpt);
    case TxnsSeen(b, dpt, att) =>
      SnapshotAppend(log, r, disk, b, dpt);
      TxnsSnapshotAppend(log, r, m, b, att);
    case Logged(tr, e) => ScanStartAppend(log, r, e, disk, tr);
  }

  /** What an append leaves alone, given the record is allowed. */
  lemma AppendKeepsStable(s: State, r: Record)
    requires LogAndDiskOk(s) && MayAppend(s.log, r) && EntriesOk(s.log, s.disk, s.master, r)
    ensures LogAndDiskOk(Append(s, r))
  {
    TakeOfAppend(s.log, r);
    WellFormedAppend(s.log, r);
    forall p | p in s.disk ensures PageOk(s.log + [r], p, s.disk[p]) { PageOkAppend(s.log, r, p, s.disk[p]); }
    ScanStartAppend(s.log, r, s.durable, s.disk, s.master);
    StaleAppend(s.log, r, s.disk, s.master);
    CheckpointAppend(s.log, r, s.disk, s.master, s.ckpt);
    LoggedTablesAppend(s.log, r, s.disk, s.master);
  }

  lemma FrameOkAppend(log: Log, r: Record, p: PageId, stored: Page, f: Frame, open: set<Lsn>)
    requires FrameOk(log, p, stored, f, |log|, open)
    ensures FrameOk(log + [r], p, stored, f, |log + [r]|, open)
  {
    VersionAppend(log, r, p, f.page, open);
    MissingAppend(log, r, p, stored);
  }

  lemma FramesAppend(log: Log, r: Record, disk: map<PageId, Page>, frames: map<PageId, Frame>, open: set<Lsn>)
    requires FramesOk(log, disk, frames, |log|, open)
    ensures FramesOk(log + [r], disk, frames, |log + [r]|, open)
  {
    forall p | p in frames ensures FrameOk(log + [r], p, DiskPage(disk, p), frames[p], |log + [r]|, open) {
      FrameOkAppend(log, r, p, DiskPage(disk, p), frames[p], open);
    }
  }

  /** After an append, current pages lack at most the new record. */
  lemma CompleteAppend(log: Log, r: Record, disk: map<PageId, Page>, frames: map<PageId, Frame>, open: set<Lsn>)
    requires Complete(log, disk, frames, |log|, open)
    ensures Complete(log + [r], disk, frames, |log|, open)
    ensures !IsPageRecord(r) ==> Complete(log + [r], disk, frames, |log + [r]|, open)
  {
    forall p
      ensures LacksFrom(|log|, log + [r], p, Newest(disk, frames, p), open)
      ensures !IsPageRecord(r) ==> LacksFrom(|log + [r]|, log + [r], p, Newest(disk, frames, p), open)
    {
      assert LacksFrom(|log|, log, p, Newest(disk, frames, p), open);
      MissingAppend(log, r, p, Newest(disk, frames, p));
    }
  }

  /** The slots of open compensations are not written by this record. */
  ghost predicate SlotsFree(log: Log, open: set<Lsn>, r: Record) {
    forall k :: k in open && k < |log| && IsPageRecord(log[k]) && IsPageRecord(r) ==> log[k].rid != r.rid
  }

  lemma OpenAppend(log: Log, r: Record, disk: map<PageId, Page>, open: set<Lsn>)
    requires (forall k :: k in open ==> OpenOk(log, disk, k)) && SlotsFree(log, open, r)
    ensures forall k :: k in open ==> OpenOk(log + [r], disk, k)
  {
    forall k | k in open ensures OpenOk(log + [r], disk, k) {
      assert OpenOk(log, disk, k);
      assert LastOnSlot(log + [r], k);
    }
  }

  /** A record that changes no page. */
  lemma PagesAppend(log: Log, r: Record, disk: map<PageId, Page>, frames: map<PageId, Frame>, open: set<Lsn>)
    requires PagesOk(log, disk, frames, |log|, open) && !IsPageRecord(r)
    ensures PagesOk(log + [r], disk, frames, |log + [r]|, open)
  {
    FramesAppend(log, r, disk, frames, open);
    CompleteAppend(log, r, disk, frames, open);
    OpenAppend(log, r, disk, open);
  }

  /** A compensation that is logged and not applied yet. */
  lemma PagesAppendOpen(log: Log, r: Record, disk: map<PageId, Page>, frames: map<PageId, Frame>, open: set<Lsn>)
    requires PagesOk(log, disk, frames, |log|, open) && IsClr(r) && SlotsFree(log, open, r)
    requires DiskPage(disk, r.rid.page).lsn < |log|
    ensures PagesOk(log + [r], disk, frames, |log + [r]|, open + {|log|})
  {
    var open' := open + {|log|};
    FramesAppend(log, r, disk, frames, open);
    CompleteAppend(log, r, disk, frames, open);
    OpenAppend(log, r, disk, open);
    assert OpenOk(log + [r], disk, |log|);
    forall p | p in frames ensures FrameOk(log + [r], p, DiskPage(disk, p), frames[p], |log + [r]|, open') {
      VersionBeyond(log, r, p, frames[p].page, open);
      assert FrameOk(log + [r], p, DiskPage(disk, p), frames[p], |log + [r]|, open);
    }
    forall p ensures LacksFrom(|log + [r]|, log + [r], p, Newest(disk, frames, p), open') {
      assert LacksFrom(|log|, log + [r], p, Newest(disk, frames, p), open);
    }
  }

  lemma VersionBeyond(log: Log, r: Record, p: PageId, page: Page, open: set<Lsn>)
    requires VersionOk(log + [r], p, page, open) && (page.lsn == 0 || page.lsn < |log|)
    ensures VersionOk(log + [r], p, page, open + {|log|})
  {
    if page.lsn != 0 { LessAgree((log + [r])[..page.lsn + 1], p, open, open + {|log|}); }
  }

  // ---------------------------------------------------------------- changing a page

  lemma StampedFrameOk(log: Log, p: PageId, stored: Page, f: Frame, j: nat, open: set<Lsn>)
    requires StartsPlain(log) && FrameOk(log, p, stored, f, j + 1, open)
    requires f.recLsn <= j < |log| && OnPage(log[j], p) && f.page.lsn < j && j !in open
    requires LacksFrom(j, log, p, f.page, open)
    ensures FrameOk(log, p, stored, Stamp(f, log[j], j), j + 1, open)
    ensures Stamp(f, log[j], j).page.lsn == j
  {
    AdvancePage(log, p, f.page, j, open);
    forall i | Missing(log, p, stored, i) && f.recLsn == 0 ensures i in open || j <= i {
      assert Missing(log, p, f.page, i);
    }
  }

  /** Applying record `j` to a page that lacks nothing older but open records. */
  lemma StampNew(log: Log, disk: map<PageId, Page>, frames: map<PageId, Frame>, q: PageId, j: nat, open: set<Lsn>)
    requires StartsPlain(log) && j < |log| && OnPage(log[j], q) && q in frames && j !in open
    requires FramesOk(log, disk, frames, j + 1, open) && frames[q].recLsn <= j && frames[q].page.lsn < j
    requires Complete(log, disk, frames, j, open)
    ensures FramesOk(log, disk, frames[q := Stamp(frames[q], log[j], j)], j + 1, open)
    ensures Complete(log, disk, frames[q := Stamp(frames[q], log[j], j)], j + 1, open)
  {
    var frames' := frames[q := Stamp(frames[q], log[j], j)];
    assert LacksFrom(j, log, q, Newest(disk, frames, q), open);
    StampedFrameOk(log, q, DiskPage(disk, q), frames[q], j, open);
    forall p ensures LacksFrom(j + 1, log, p, Newest(disk, frames', p), open) {
      assert LacksFrom(j, log, p, Newest(disk, frames, p), open);
    }
  }

  lemma FilledFrameOk(log: Log, p: PageId, stored: Page, f: Frame, k: Lsn, open: set<Lsn>)
    requires StartsPlain(log) && FrameOk(log, p, stored, f, |log|, open) && LacksFrom(|log|, log, p, f.page, open)
    requires k < |log| && k in open && OnPage(log[k], p) && LastOnSlot(log, k) && stored.lsn < k
    requires f.recLsn <= k
    ensures FrameOk(log, p, stored, Stamp(f, log[k], k), |log|, open - {k})
  {
    FillPage(log, p, f.page, k, open);
    forall i | Missing(log, p, stored, i) && f.recLsn == 0 ensures i in open - {k} || k <= i {
      assert Missing(log, p, f.page, i);
    }
  }

  lemma OtherFrameOk(log: Log, p: PageId, stored: Page, f: Frame, k: Lsn, open: set<Lsn>)
    requires FrameOk(log, p, stored, f, |log|, open) && k < |log| && !OnPage(log[k], p)
    ensures FrameOk(log, p, stored, f, |log|, open - {k})
  {
    if f.page.lsn != 0 { LessAgree(log[..f.page.lsn + 1], p, open, open - {k}); }
  }

  /** Applying an open compensation, late or not. */
  lemma StampOpen(log: Log, disk: map<PageId, Page>, frames: map<PageId, Frame>, q: PageId, k: Lsn, open: set<Lsn>, f: Frame)
    requires StartsPlain(log) && PagesOk(log, disk, frames, |log|, open) && k in open
    requires k < |log| && OnPage(log[k], q) && q in frames && f == frames[q] && f.recLsn <= k
    ensures PagesOk(log, disk, frames[q := Stamp(f, log[k], k)], |log|, open - {k})
  {
    var frames' := frames[q := Stamp(f, log[k], k)];
    assert OpenOk(log, disk, k);
    assert LacksFrom(|log|, log, q, Newest(disk, frames, q), open);
    forall p | p in frames' ensures FrameOk(log, p, DiskPage(disk, p), frames'[p], |log|, open - {k}) {
      if p == q { FilledFrameOk(log, q, DiskPage(disk, q), f, k, open); }
      else { OtherFrameOk(log, p, DiskPage(disk, p), frames[p], k, open); }
    }
    forall p ensures LacksFrom(|log|, log, p, Newest(disk, frames', p), open - {k}) {
      assert LacksFrom(|log|, log, p, Newest(disk, frames, p), open);
    }
  }

  // ---------------------------------------------------------------- the table of transactions

  lemma OpenIs(active: map<Tid, Txn>, k: Lsn)
    ensures k in Open(active) <==> exists t :: t in active && active[t].pending == Some(k)
  {
    if t :| t in active && active[t].pending == Some(k) { assert active[t].pending.Some? && active[t].pending.value == k; }
  }

  lemma OpenSame(active: map<Tid, Txn>, t: Tid, x: Txn)
    requires x.pending == if t in active then active[t].pending else None
    ensures Open(active[t := x]) == Open(active)
  {
    var after := active[t := x];
    forall k ensures k in Open(after) <==> k in Open(active) {
      OpenIs(active, k);
      OpenIs(after, k);
      if u :| u in active && active[u].pending == Some(k) { assert u in after && after[u].pending == Some(k); }
      if u :| u in after && after[u].pending == Some(k) { assert u in active && active[u].pending == Some(k); }
    }
  }

  lemma OpenMore(active: map<Tid, Txn>, t: Tid, x: Txn, k: Lsn)
    requires t in active && active[t].pending.None? && x.pending == Some(k)
    ensures Open(active[t := x]) == Open(active) + {k}
  {
    var after := active[t := x];
    forall i ensures i in Open(after) <==> i in Open(active) + {k} {
      OpenIs(active, i);
      OpenIs(after, i);
      if u :| u in active && active[u].pending == Some(i) { assert u in after && after[u].pending == Some(i); }
      if i == k { assert t in after && after[t].pending == Some(i); }
    }
  }

  /** Pending compensations of different transactions are different records. */
  lemma OpenLess(log: Log, active: map<Tid, Txn>, t: Tid, x: Txn)
    requires forall u :: u in active ==> TxnOk(log, u, active[u])
    requires t in active && active[t].pending.Some? && x.pending.None?
    ensures Open(active[t := x]) == Open(active) - {active[t].pending.value}
  {
    var after := active[t := x];
    var k := active[t].pending.value;
    forall i ensures i in Open(after) <==> i in Open(active) - {k} {
      OpenIs(active, i);
      OpenIs(after, i);
      if u :| u in active && active[u].pending == Some(i) && i != k { assert u in after && after[u].pending == Some(i); }
      if u :| u in after && after[u].pending == Some(i) {
        assert u in active && active[u].pending == Some(i);
        assert TxnOk(log, u, active[u]) && TxnOk(log, t, active[t]);
      }
    }
  }

  lemma OpenGone(active: map<Tid, Txn>, t: Tid)
    requires t in active && active[t].pending.None?
    ensures Open(active - {t}) == Open(active)
  {
    forall k ensures k in Open(active - {t}) <==> k in Open(active) {
      OpenIs(active, k);
      OpenIs(active - {t}, k);
      if u :| u in active && active[u].pending == Some(k) { assert u in active - {t} && (active - {t})[u].pending == Some(k); }
    }
  }

  /** Open records are those of transactions that are still rolling back. */
  lemma OpenOwner(s: State, k: Lsn) returns (t: Tid)
    requires TableOk(s.log, s.active) && k in Open(s.active)
    ensures t in s.active && s.active[t].pending == Some(k) && k < |s.log| && IsClr(s.log[k]) && s.log[k].tid == t
    ensures Live(s.log, t) && Pends(s, t, s.log[k].rid.page)
  {
    OpenIs(s.active, k);
    t :| t in s.active && s.active[t].pending == Some(k);
    assert TxnOk(s.log, t, s.active[t]);
  }

  lemma NoneOpenBelow(s: State, p: PageId, page: Page)
    requires TableOk(s.log, s.active) && NoneSkipped(s, p, page)
    ensures forall k :: k in Open(s.active) && k < |s.log| && OnPage(s.log[k], p) ==> page.lsn < k
  {
    forall k | k in Open(s.active) && k < |s.log| && OnPage(s.log[k], p) ensures page.lsn < k {
      var t := OpenOwner(s, k);
    }
  }

  /** History is kept by one more record of a transaction that is no longer `Active` unless
      the engine is running. */
  lemma HistoryStep(s: State, s1: State, r: Record, t: Tid, x: Txn)
    requires HistoryOk(s) && (s.phase.Running? || s.phase.Undo?)
    requires s1.log == s.log + [r] && s1.crashLog == s.crashLog && s1.phase == s.phase && s1.ckpt == s.ckpt
    requires s1.active == s.active
    requires s.phase.Undo? ==> (IsClr(r) || r.Abort?) && !x.status.Active?
    ensures HistoryOk(SetTxn(s1, t, x))
  {
    TakeOfAppend(s.log, r);
  }
}
