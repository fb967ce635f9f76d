/** The write-ahead log as a sequence of records, its replay onto tuple slots and pages,
    and the discipline under which records are appended.

    An LSN is the index of a record in the log.  The program uses the byte offset of the
    record, which orders records the same way; offset 0 and index 0 alike never belong to
    a data record, because a transaction's Begin record precedes its data. */
module LogModel {

  type Lsn = nat
  type Tid = nat
  type Bytes = seq<bv8>

  datatype PageId = PageId(oid: nat, num: nat)
  datatype Rid = Rid(page: PageId, slot: nat)

  datatype Record =
    | Begin(tid: Tid)
    | Commit(tid: Tid)
    | Abort(tid: Tid)
    | Insert(tid: Tid, rid: Rid, after: Bytes)
    | Update(tid: Tid, rid: Rid, after: Bytes, before: Bytes)
    | Delete(tid: Tid, rid: Rid)
    | InsertCLR(tid: Tid, rid: Rid)
    | UpdateCLR(tid: Tid, rid: Rid, after: Bytes)
    | DeleteCLR(tid: Tid, rid: Rid)
    | BeginCheckpoint
    | EndCheckpoint(att: map<Tid, Lsn>, dpt: map<PageId, Lsn>)

  type Log = seq<Record>

  predicate IsData(r: Record) { r.Insert? || r.Update? || r.Delete? }

  predicate IsClr(r: Record) { r.InsertCLR? || r.UpdateCLR? || r.DeleteCLR? }

  predicate IsPageRecord(r: Record) { IsData(r) || IsClr(r) }

  predicate IsCheckpoint(r: Record) { r.BeginCheckpoint? || r.EndCheckpoint? }

  predicate Touches(r: Record, t: Tid, x: Rid) { IsPageRecord(r) && r.tid == t && r.rid == x }

  predicate OnPage(r: Record, p: PageId) { IsPageRecord(r) && r.rid.page == p }

  /** The compensation record that undoes a data record. */
  function ClrOf(u: Record): Record
    requires IsData(u)
  {
    match u
    case Insert(t, x, _) => InsertCLR(t, x)
    case Update(t, x, _, b) => UpdateCLR(t, x, b)
    case Delete(t, x) => DeleteCLR(t, x)
  }

  // ---------------------------------------------------------------- slots and pages

  datatype Slot = Slot(alloc: bool, deleted: bool, bytes: Bytes)

  const FREE_SLOT := Slot(false, false, [])

  datatype Option<T> = None | Some(value: T)

  /** What a table scan yields for a slot: allocated and not deleted. */
  function VisibleRow(s: Slot): Option<Bytes> {
    if s.alloc && !s.deleted then Some(s.bytes) else None
  }

  /** The effect of a page record on its slot; the same switch serves forward processing,
      rollback and redo. */
  function ApplySlot(s: Slot, r: Record): Slot
    requires IsPageRecord(r)
  {
    match r
    case Insert(_, _, a) => s.(alloc := true, bytes := a)
    case Update(_, _, a, _) => s.(bytes := a)
    case UpdateCLR(_, _, a) => s.(bytes := a)
    case Delete(_, _) => s.(deleted := true)
    case InsertCLR(_, _) => s.(deleted := true)
    case DeleteCLR(_, _) => s.(deleted := false)
  }

  /** When the table heap lets a data record be written: insertion takes a free slot;
      update and delete reject a deleted tuple and name an existing one, and an update
      logs the bytes it overwrites. */
  predicate SlotAccepts(s: Slot, u: Record)
    requires IsData(u)
  {
    match u
    case Insert(_, _, _) => !s.alloc
    case Update(_, _, _, b) => s.alloc && !s.deleted && s.bytes == b
    case Delete(_, _) => s.alloc && !s.deleted
  }

  datatype Page = Page(lsn: Lsn, slots: map<nat, Slot>)

  const EMPTY_PAGE := Page(0, map[])

  function SlotOn(page: Page, k: nat): Slot {
    if k in page.slots then page.slots[k] else FREE_SLOT
  }

  /** Applies a record to a page and raises the page LSN, never lowering it. */
  function ApplyPage(page: Page, r: Record, lsn: Lsn): Page
    requires IsPageRecord(r)
  {
    Page(if lsn > page.lsn then lsn else page.lsn,
         page.slots[r.rid.slot := ApplySlot(SlotOn(page, r.rid.slot), r)])
  }

  // ---------------------------------------------------------------- replay

  function Last(log: Log): Record requires log != [] { log[|log| - 1] }

  function Init(log: Log): Log requires log != [] { log[..|log| - 1] }

  /** Replay of the whole log on one slot. */
  ghost function SlotOf(log: Log, x: Rid): Slot {
    if log == [] then FREE_SLOT
    else if IsPageRecord(Last(log)) && Last(log).rid == x then ApplySlot(SlotOf(Init(log), x), Last(log))
    else SlotOf(Init(log), x)
  }

  /** Replay, in log order, of only the transactions that commit in `full`. */
  ghost function CommittedSlot(log: Log, x: Rid, full: Log): Slot {
    if log == [] then FREE_SLOT
    else if IsPageRecord(Last(log)) && Last(log).rid == x && Commit(Last(log).tid) in full then
      ApplySlot(CommittedSlot(Init(log), x, full), Last(log))
    else CommittedSlot(Init(log), x, full)
  }

  /** Replay of the whole log on one page; its LSN is that of the last record applied. */
  ghost function PageOf(log: Log, p: PageId): Page {
    if log == [] then EMPTY_PAGE
    else if OnPage(Last(log), p) then ApplyPage(PageOf(Init(log), p), Last(log), |log| - 1)
    else PageOf(Init(log), p)
  }

  /** The data records of `t` not yet compensated, oldest first. */
  ghost function UndoStack(log: Log, t: Tid): seq<Record> {
    if log == [] then []
    else
      var s := UndoStack(Init(log), t);
      var r := Last(log);
      if IsData(r) && r.tid == t then s + [r]
      else if IsClr(r) && r.tid == t && s != [] then s[..|s| - 1]
      else s
  }

  ghost function OnSlot(us: seq<Record>, x: Rid): seq<Record> {
    if us == [] then []
    else if IsData(Last(us)) && Last(us).rid == x then OnSlot(Init(us), x) + [Last(us)]
    else OnSlot(Init(us), x)
  }

  ghost function ApplyAll(s: Slot, us: seq<Record>): Slot {
    if us == [] then s
    else if IsData(Last(us)) then ApplySlot(ApplyAll(s, Init(us)), Last(us))
    else ApplyAll(s, Init(us))
  }

  /** Each record of `us` was accepted by the slot its predecessors produced. */
  ghost predicate AcceptedChain(s: Slot, us: seq<Record>) {
    us != [] ==>
      && AcceptedChain(s, Init(us))
      && IsData(Last(us))
      && SlotAccepts(ApplyAll(s, Init(us)), Last(us))
  }

  // ---------------------------------------------------------------- transactions

  predicate Ended(log: Log, t: Tid) { Commit(t) in log || Abort(t) in log }

  predicate Live(log: Log, t: Tid) { Begin(t) in log && !Ended(log, t) }

  ghost predicate Untouched(log: Log, t: Tid, x: Rid) {
    forall r :: r in log ==> !Touches(r, t, x)
  }

  ghost predicate NoClr(log: Log, t: Tid) {
    forall r :: r in log && IsClr(r) ==> r.tid != t
  }

  ghost predicate Unused(log: Log, t: Tid) {
    forall r :: r in log && !IsCheckpoint(r) ==> r.tid != t
  }

  /** The begin LSN of every live transaction and of no other. */
  ghost predicate IsLiveTable(log: Log, att: map<Tid, Lsn>) {
    && (forall t :: t in att <==> Live(log, t))
    && (forall t :: t in att ==> att[t] < |log| && log[att[t]] == Begin(t))
  }

  /** Each entry is the LSN of the Begin of its transaction, which may have ended since. */
  ghost predicate EntriesIn(log: Log, att: map<Tid, Lsn>) {
    forall t :: t in att ==> att[t] < |log| && log[att[t]] == Begin(t)
  }

  predicate Ends(r: Record, t: Tid) { r == Commit(t) || r == Abort(t) }

  predicate EndedIn(log: Log, lo: nat, hi: nat, t: Tid)
    requires hi <= |log|
  {
    exists i :: lo <= i < hi && Ends(log[i], t)
  }

  /** No end-of-checkpoint record from `m` on lists a transaction that ended before `m`. */
  ghost predicate NoStaleEntry(log: Log, m: nat)
    requires m <= |log|
  {
    forall c: nat, t :: m <= c < |log| && log[c].EndCheckpoint? && t in log[c].att ==> !EndedIn(log, 0, m, t)
  }

  /** A data record: its transaction is live and not rolling back, the slot accepts it, and
      the tuple X lock (held until the end record) keeps every other live transaction away. */
  ghost predicate MayWrite(log: Log, r: Record)
    requires IsData(r)
  {
    && Live(log, r.tid)
    && NoClr(log, r.tid)
    && SlotAccepts(SlotOf(log, r.rid), r)
    && (forall t :: t != r.tid && Live(log, t) ==> Untouched(log, t, r.rid))
  }

  /** A compensation record undoes the newest pending record of its transaction. */
  ghost predicate MayCompensate(log: Log, r: Record)
    requires IsClr(r)
  {
    && Live(log, r.tid)
    && UndoStack(log, r.tid) != []
    && IsData(Last(UndoStack(log, r.tid)))
    && r == ClrOf(Last(UndoStack(log, r.tid)))
  }

  /** What may be appended to `log`.  Transaction ids are fresh, a transaction that has begun
      to roll back cannot commit, and a checkpoint lists transactions that have begun. */
  ghost predicate MayAppend(log: Log, r: Record) {
    if IsData(r) then MayWrite(log, r)
    else if IsClr(r) then MayCompensate(log, r)
    else if r.Begin? then Unused(log, r.tid)
    else if r.Commit? then Live(log, r.tid) && NoClr(log, r.tid)
    else if r.Abort? then Live(log, r.tid) && UndoStack(log, r.tid) == []
    else r.EndCheckpoint? ==> EntriesIn(log, r.att)
  }

  ghost predicate Admitted(log: Log, n: nat)
    requires n < |log|
  {
    MayAppend(log[..n], log[n])
  }

  ghost predicate WellFormed(log: Log) {
    forall n: nat :: n < |log| ==> Admitted(log, n)
  }

  // ---------------------------------------------------------------- prefixes

  lemma TakeOfAppend(log: Log, r: Record)
    ensures Init(log + [r]) == log && Last(log + [r]) == r
    ensures forall k {:trigger (log + [r])[..k]} :: 0 <= k <= |log| ==> (log + [r])[..k] == log[..k]
  {
    forall k | 0 <= k <= |log| ensures (log + [r])[..k] == log[..k] { }
  }

  lemma TakeSucc(log: Log, n: nat)
    requires n < |log|
    ensures log[..n + 1] == log[..n] + [log[n]]
    ensures Init(log[..n + 1]) == log[..n] && Last(log[..n + 1]) == log[n]
  {
    assert Init(log[..n + 1]) == log[..n];
  }

  lemma WellFormedPrefix(log: Log, n: nat)
    requires WellFormed(log) && n <= |log|
    ensures WellFormed(log[..n])
  {
    forall k: nat | k < n ensures Admitted(log[..n], k) {
      assert log[..n][..k] == log[..k];
      assert Admitted(log, k);
    }
  }

  lemma WellFormedAppend(log: Log, r: Record)
    requires WellFormed(log) && MayAppend(log, r)
    ensures WellFormed(log + [r])
  {
    TakeOfAppend(log, r);
    forall k: nat | k < |log + [r]| ensures Admitted(log + [r], k) {
      if k < |log| { assert Admitted(log, k); }
    }
  }

  lemma WellFormedInit(log: Log)
    requires WellFormed(log) && log != []
    ensures WellFormed(Init(log)) && MayAppend(Init(log), Last(log))
    ensures log == Init(log) + [Last(log)]
  {
    WellFormedPrefix(log, |log| - 1);
    assert Admitted(log, |log| - 1);
  }
}
