/** The clauses of `Careful` are exact: in every state a guarded run reaches, an event keeps the
    property its clause is for if and only if the clause holds. */
module ExactGuards {
  import opened LogModel
  import opened Engine
  import opened EngineInvariant
  import opened CheckpointWindow
  import opened AnalysisProof
  import opened EngineSteps

  // ---------------------------------------------------------------- storing a page

  /** The page shows every record for it up to its page LSN. */
  ghost predicate ShowsReplay(log: Log, p: PageId, page: Page)
    requires page.lsn == 0 || page.lsn < |log|
  {
    forall k: nat :: SlotOn(page, k) == SlotOf(log[..if page.lsn == 0 then 0 else page.lsn + 1], Rid(p, k))
  }

  /** The record would change nothing on the page. */
  predicate WithoutEffect(page: Page, r: Record)
    requires IsPageRecord(r)
  {
    ApplySlot(SlotOn(page, r.rid.slot), r) == SlotOn(page, r.rid.slot)
  }

  lemma PrefixLast(log: Log, n: nat, k: Lsn)
    requires k < n <= |log| && IsPageRecord(log[k]) && LastOnSlot(log, k)
    ensures LastOnSlot(log[..n], k)
  {
  }

  /** The slot of an open record: what replay has there and the page has not. */
  lemma OpenSlot(log: Log, n: nat, p: PageId, open: set<Lsn>, k: Lsn)
    requires k < n <= |log| && k in open && OnPage(log[k], p) && LastOnSlot(log, k)
    requires forall i :: i in open ==> i < |log| && IsPageRecord(log[i]) && LastOnSlot(log, i)
    ensures var page := PageLess(log[..n], p, open);
            SlotOf(log[..n], log[k].rid) == ApplySlot(SlotOn(page, log[k].rid.slot), log[k])
  {
    PrefixLast(log, n, k);
    assert log[..n][k] == log[k];
    Fill(log[..n], p, open, k);
    forall i: nat | i < n && IsPageRecord(log[..n][i]) && log[..n][i].rid == log[k].rid ensures i !in open - {k} {
      assert log[..n][i] == log[i];
    }
    SlotLess(log[..n], log[k].rid, open - {k});
  }

  lemma OpenFacts(s: State)
    requires Inv(s)
    ensures forall i :: i in Open(s.active) ==> i < |s.log| && IsPageRecord(s.log[i]) && LastOnSlot(s.log, i)
  {
    forall i | i in Open(s.active) ensures i < |s.log| && IsPageRecord(s.log[i]) && LastOnSlot(s.log, i) {
      assert OpenOk(s.log, s.disk, i);
    }
  }

  lemma PendsOpen(s: State, t: Tid, p: PageId)
    requires Inv(s) && Pends(s, t, p)
    ensures s.active[t].pending.value in Open(s.active)
    ensures s.phase.Running? || s.phase.Undo?
    ensures OpenOk(s.log, s.disk, s.active[t].pending.value)
  {
    OpenIs(s.active, s.active[t].pending.value);
    ActiveTxnOk(s, t);
  }

  /** Whose compensation is open. */
  lemma OpenPends(s: State, k: Lsn) returns (t: Tid)
    requires Inv(s) && k in Open(s.active)
    ensures k < |s.log| && IsPageRecord(s.log[k]) && Pends(s, t, s.log[k].rid.page) && s.active[t].pending == Some(k)
  {
    if s.phase.Running? || s.phase.Undo? { t := OpenOwner(s, k); }
  }

  /** Each compensation of the page that is logged at or below its LSN and not applied yet would
      change nothing. */
  ghost predicate SkipsNothing(s: State, p: PageId, page: Page) {
    forall t :: Pends(s, t, p) && s.active[t].pending.value <= page.lsn && IsPageRecord(s.log[s.active[t].pending.value]) ==>
      WithoutEffect(page, s.log[s.active[t].pending.value])
  }

  ghost predicate VersionAt(s: State, p: PageId, page: Page) {
    0 < page.lsn < |s.log| && page == PageLess(s.log[..page.lsn + 1], p, Open(s.active))
  }

  lemma SlotShown(s: State, p: PageId, page: Page, k: nat)
    requires Inv(s) && VersionAt(s, p, page) && SkipsNothing(s, p, page)
    ensures SlotOn(page, k) == SlotOf(s.log[..page.lsn + 1], Rid(p, k))
  {
    var n, open := page.lsn + 1, Open(s.active);
    if i: nat :| i < n && i in open && IsPageRecord(s.log[i]) && s.log[i].rid == Rid(p, k) {
      OpenFacts(s);
      OpenSlot(s.log, n, p, open, i);
      var t := OpenPends(s, i);
    } else {
      forall i: nat | i < n && IsPageRecord(s.log[..n][i]) && s.log[..n][i].rid == Rid(p, k) ensures i !in open {
        assert s.log[..n][i] == s.log[i];
      }
      SlotLess(s.log[..n], Rid(p, k), open);
    }
  }

  lemma ShownSkips(s: State, p: PageId, page: Page, t: Tid)
    requires Inv(s) && VersionAt(s, p, page) && ShowsReplay(s.log, p, page)
    requires Pends(s, t, p) && s.active[t].pending.value <= page.lsn
    ensures WithoutEffect(page, s.log[s.active[t].pending.value])
  {
    var k := s.active[t].pending.value;
    PendsOpen(s, t, p);
    OpenFacts(s);
    OpenSlot(s.log, page.lsn + 1, p, Open(s.active), k);
    assert s.log[k].rid == Rid(p, s.log[k].rid.slot);
  }

  lemma EmptyShown(s: State, p: PageId, page: Page)
    requires Inv(s) && page == EMPTY_PAGE
    ensures SkipsNothing(s, p, page) && ShowsReplay(s.log, p, page)
  {
    forall t | Pends(s, t, p) ensures s.active[t].pending.value > 0 {
      PendsOpen(s, t, p);
      NotAtZero(s.log);
    }
    assert s.log[..0] == [];
  }

  lemma FrameVersion(s: State, p: PageId)
    requires Inv(s) && p in Frames(s)
    ensures var page := Frames(s)[p].page; page == EMPTY_PAGE || VersionAt(s, p, page)
  {
    assert FrameOk(s.log, p, DiskPage(s.disk, p), Frames(s)[p], Now(s), Open(s.active));
  }

  /** A frame that is about to be stored shows every record for its page up to the page LSN if and
      only if each compensation of the page that is logged at or below this LSN and not applied
      yet would change nothing.  A version that lacks one stays wrong once it is stored: redo skips
      what is at or below the page LSN. */
  lemma StoredPageIff(es: seq<Event>, p: PageId)
    requires Run(es).Some? && Guarded(es) && p in Frames(Run(es).value)
    ensures var s := Run(es).value; var page := Frames(s)[p].page;
            (page.lsn == 0 || page.lsn < |s.log|) && (ShowsReplay(s.log, p, page) <==> SkipsNothing(s, p, page))
  {
    RunsKeepInv(es);
    var s := Run(es).value;
    var page := Frames(s)[p].page;
    FrameVersion(s, p);
    if page == EMPTY_PAGE {
      EmptyShown(s, p, page);
    } else {
      if ShowsReplay(s.log, p, page) {
        forall t | Pends(s, t, p) && s.active[t].pending.value <= page.lsn
          ensures WithoutEffect(page, s.log[s.active[t].pending.value])
        {
          ShownSkips(s, p, page, t);
        }
      }
      if SkipsNothing(s, p, page) {
        forall k: nat ensures SlotOn(page, k) == SlotOf(s.log[..page.lsn + 1], Rid(p, k)) { SlotShown(s, p, page, k); }
      }
    }
  }

  // ---------------------------------------------------------------- recLSN

  /** When a compensation is applied, the recLSN of the frame bounds everything its stored page
      lacks, up to compensations still open, if and only if it had not passed this one. */
  lemma RecLsnBoundsIff(es: seq<Event>, t: Tid)
    requires Run(es).Some? && Guarded(es) && Enabled(Run(es).value, ApplyClr(t))
    ensures var s := Run(es).value; var s' := After(s, ApplyClr(t));
            var q := s.log[s.active[t].pending.value].rid.page;
            LacksFrom(s'.cache[q].recLsn, s.log, q, DiskPage(s.disk, q), Open(s'.active)) <==> Careful(s, ApplyClr(t))
  {
    RunsKeepInv(es);
    var s := Run(es).value;
    var s', k := After(s, ApplyClr(t)), s.active[t].pending.value;
    var q := s.log[k].rid.page;
    ActiveTxnOk(s, t);
    assert Pends(s, t, q);
    PendsOpen(s, t, q);
    OpenLess(s.log, s.active, t, s.active[t].(pending := None));
    assert Missing(s.log, q, DiskPage(s.disk, q), k);
    if Careful(s, ApplyClr(t)) {
      StepKeeps(s, ApplyClr(t));
      assert Frames(s')[q] == s'.cache[q];
      assert FrameOk(s'.log, q, DiskPage(s'.disk, q), Frames(s')[q], Now(s'), Open(s'.active));
    }
  }

  // ---------------------------------------------------------------- the page snapshot

  /** Each page whose stored copy lacks a record is listed, at or below the first it lacks. */
  ghost predicate ListsStalePages(log: Log, disk: map<PageId, Page>, dpt: map<PageId, Lsn>) {
    forall p, i :: Missing(log, p, DiskPage(disk, p), i) ==> p in dpt && dpt[p] <= i
  }

  lemma {:induction false} LsnIsOwn(log: Log, p: PageId, open: set<Lsn>)
    requires PageLess(log, p, open).lsn != 0
    ensures PageLess(log, p, open).lsn < |log| && OnPage(log[PageLess(log, p, open).lsn], p)
  {
    if log != [] {
      var page := PageLess(Init(log), p, open);
      if page.lsn != 0 {
        LsnIsOwn(Init(log), p, open);
        assert Init(log)[page.lsn] == log[page.lsn];
      }
    }
  }

  lemma NewerFrame(s: State, p: PageId)
    requires Inv(s) && p in Frames(s) && DiskPage(s.disk, p).lsn < Frames(s)[p].page.lsn
    ensures Missing(s.log, p, DiskPage(s.disk, p), Frames(s)[p].page.lsn)
  {
    var page := Frames(s)[p].page;
    assert FrameOk(s.log, p, DiskPage(s.disk, p), Frames(s)[p], Now(s), Open(s.active));
    LsnIsOwn(s.log[..page.lsn + 1], p, Open(s.active));
  }

  /** The page snapshot of a checkpoint lists every stale page if and only if nothing is hidden
      from it: no unstored frame on its way out, no unstored frame unmarked, no compensation open
      on a page that is not listed at or below it. */
  lemma SnapshotListsIff(es: seq<Event>)
    requires Run(es).Some? && Guarded(es) && Run(es).value.phase.Running?
    ensures var s := Run(es).value; ListsStalePages(s.log, s.disk, DirtyTable(s)) <==> NothingHidden(s)
  {
    RunsKeepInv(es);
    var s := Run(es).value;
    if NothingHidden(s) {
      forall p, i | Missing(s.log, p, DiskPage(s.disk, p), i) ensures p in DirtyTable(s) && DirtyTable(s)[p] <= i {
        SnapshotEntry(s, p, i);
      }
    }
    if ListsStalePages(s.log, s.disk, DirtyTable(s)) {
      forall p | p in s.victims ensures s.victims[p].page.lsn <= DiskPage(s.disk, p).lsn {
        if DiskPage(s.disk, p).lsn < s.victims[p].page.lsn { NewerFrame(s, p); }
      }
      forall p | p in s.cache && DiskPage(s.disk, p).lsn < s.cache[p].page.lsn ensures s.cache[p].dirty { NewerFrame(s, p); }
      forall t, p | Pends(s, t, p) ensures p in s.cache && s.cache[p].dirty && s.cache[p].recLsn <= s.active[t].pending.value {
        PendsOpen(s, t, p);
        assert Missing(s.log, p, DiskPage(s.disk, p), s.active[t].pending.value);
      }
    }
  }

  // ---------------------------------------------------------------- waits and the master record

  /** When the wait of a Commit is over, its record is durable if and only if its LSN is strictly
      below the end of the durable log. */
  lemma CommitDurableIff(es: seq<Event>, t: Tid)
    requires Run(es).Some? && Guarded(es) && Enabled(Run(es).value, Acknowledge(t))
    requires var s := Run(es).value; s.log[s.active[t].status.lsn].Commit?
    ensures var s := Run(es).value;
            s.durable <= |s.log| && (Commit(t) in s.log[..s.durable] <==> Careful(s, Acknowledge(t)))
  {
    RunsKeepInv(es);
    var s := Run(es).value;
    var k := s.active[t].status.lsn;
    ActiveTxnOk(s, t);
    if k < s.durable { assert s.log[..s.durable][k] == Commit(t); }
    if Commit(t) in s.log[..s.durable] {
      var i :| 0 <= i < s.durable && s.log[..s.durable][i] == Commit(t);
      if i < k { EndIsLast(s.log, i, k); } else if k < i { EndIsLast(s.log, k, i); }
    }
  }

  /** From a new master record, analysis of the log so far rebuilds exactly the live transactions
      if and only if no end-of-checkpoint record from there on lists a transaction that had ended
      before. */
  lemma MasterIsRightIff(es: seq<Event>)
    requires Run(es).Some? && Guarded(es) && Enabled(Run(es).value, WriteMaster)
    ensures var s := Run(es).value; var tr := s.ckpt.truncation;
            tr <= |s.log| && (IsLiveTable(s.log, Analyze(s.log, tr, |s.log|).att) <==> Careful(s, WriteMaster))
  {
    RunsKeepInv(es);
    var s := Run(es).value;
    AdmittedLog(s.log);
    assert s.log[..|s.log|] == s.log;
    ScanStartLater(s.log, s.ckpt.endLsn, |s.log|, s.disk, s.ckpt.truncation);
    AnalysisExactIff(s.log, s.ckpt.truncation);
  }
}
