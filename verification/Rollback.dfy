/** The shape of one transaction's records, and what a complete rollback achieves. */
module Rollback {
  import opened LogModel
  import opened CommittedReplay
  import opened AnalysisProof

  /** The records of one transaction, in log order. */
  ghost function TxnLog(log: Log, t: Tid): seq<Record> {
    if log == [] then []
    else if !IsCheckpoint(Last(log)) && Last(log).tid == t then TxnLog(Init(log), t) + [Last(log)]
    else TxnLog(Init(log), t)
  }

  /** Compensations in exact reverse order. */
  ghost function Compensations(us: seq<Record>): seq<Record> {
    if us == [] || !IsData(Last(us)) then []
    else [ClrOf(Last(us))] + Compensations(Init(us))
  }

  ghost predicate EndOf(t: Tid, end: seq<Record>, data: seq<Record>, k: nat) {
    || end == []
    || (end == [Commit(t)] && k == |data|)
    || (end == [Abort(t)] && k == 0)
  }

  ghost predicate DataOf(t: Tid, us: seq<Record>) {
    forall u :: u in us ==> IsData(u) && u.tid == t
  }

  /** Begin, data, the compensations of a suffix newest first, end record; the first `k` data
      records are the pending ones. */
  ghost predicate Shape(log: Log, t: Tid, data: seq<Record>, k: nat, end: seq<Record>) {
    && k <= |data| && DataOf(t, data) && EndOf(t, end, data, k)
    && TxnLog(log, t) == [Begin(t)] + data + Compensations(data[k..]) + end
    && UndoStack(log, t) == data[..k]
    && (end == [] <==> !Ended(log, t))
    && (NoClr(log, t) <==> k == |data|)
  }

  lemma {:induction false} NoRecords(log: Log, t: Tid)
    requires Unused(log, t)
    ensures TxnLog(log, t) == [] && UndoStack(log, t) == []
  {
    if log != [] {
      assert Last(log) in log;
      NoRecords(Init(log), t);
    }
  }

  lemma CompensationsCons(us: seq<Record>, k: nat)
    requires 0 < k <= |us| && (forall u :: u in us ==> IsData(u))
    ensures Compensations(us[k - 1..]) == Compensations(us[k..]) + [ClrOf(us[k - 1])]
    decreases |us|
  {
    var v := us[k - 1..];
    if k == |us| {
      assert v == [us[k - 1]] && Init(v) == [];
      assert Compensations(Init(v)) == [];
    } else {
      CompensationsCons(Init(us), k);
      assert Init(v) == Init(us)[k - 1..] && Init(us[k..]) == Init(us)[k..];
    }
  }

  lemma ShapeData(pre: Log, t: Tid, data: seq<Record>, k: nat, r: Record)
    requires Shape(pre, t, data, k, []) && IsData(r) && r.tid == t && NoClr(pre, t)
    ensures Shape(pre + [r], t, data + [r], k + 1, [])
  {
    TakeOfAppend(pre, r);
    var us := data + [r];
    assert us[..k + 1] == us && us[k + 1..] == [] && data[k..] == [] && data[..k] == data;
  }

  lemma ShapeClr(pre: Log, t: Tid, data: seq<Record>, k: nat, r: Record)
    requires Shape(pre, t, data, k, []) && IsClr(r) && r.tid == t && k > 0 && r == ClrOf(data[k - 1])
    ensures Shape(pre + [r], t, data, k - 1, [])
  {
    TakeOfAppend(pre, r);
    CompensationsCons(data, k);
    assert data[..k][..k - 1] == data[..k - 1];
    assert r in pre + [r];
  }

  lemma ShapeEnd(pre: Log, t: Tid, data: seq<Record>, k: nat, r: Record)
    requires Shape(pre, t, data, k, []) && EndOf(t, [r], data, k)
    ensures Shape(pre + [r], t, data, k, [r])
  {
    TakeOfAppend(pre, r);
  }

  lemma ShapeOther(pre: Log, t: Tid, data: seq<Record>, k: nat, end: seq<Record>, r: Record)
    requires Shape(pre, t, data, k, end) && (IsCheckpoint(r) || r.tid != t)
    ensures Shape(pre + [r], t, data, k, end)
  {
    TakeOfAppend(pre, r);
  }

  /** Every transaction's log is Begin, its data records, then the compensations of the newest
      of them in exact reverse order, then its end record. */
  lemma {:induction false} TransactionShape(log: Log, t: Tid)
    returns (data: seq<Record>, k: nat, end: seq<Record>)
    requires WellFormed(log) && Begin(t) in log
    ensures Shape(log, t, data, k, end)
  {
    WellFormedInit(log);
    var pre, r := Init(log), Last(log);
    if r == Begin(t) {
      NoRecords(pre, t);
      data, k, end := [], 0, [];
    } else {
      data, k, end := TransactionShape(pre, t);
      if IsCheckpoint(r) || r.tid != t {
        ShapeOther(pre, t, data, k, end, r);
      } else {
        assert Live(pre, t);
        if IsData(r) {
          ShapeData(pre, t, data, k, r);
          data, k := data + [r], k + 1;
        } else if IsClr(r) {
          ShapeClr(pre, t, data, k, r);
          k := k - 1;
        } else {
          ShapeEnd(pre, t, data, k, r);
          end := [r];
        }
      }
    }
  }

  // ---------------------------------------------------------------- rollback restores

  /** Who touched `x` before `i` and was still live later was live at `i`. */
  lemma LiveBefore(log: Log, i: nat, n: nat, t: Tid, x: Rid)
    requires WellFormed(log) && i <= n <= |log| && Live(log[..n], t) && !Untouched(log[..i], t, x)
    ensures Live(log[..i], t)
  {
    var r :| r in log[..i] && Touches(r, t, x);
    var j :| 0 <= j < i && log[..i][j] == r;
    assert Admitted(log, j);
    assert Begin(t) in log[..j];
    var b :| 0 <= b < j && log[..j][b] == Begin(t);
    assert log[..i][b] == Begin(t);
    forall u | u in log[..i] ensures u in log[..n] {
      var e :| 0 <= e < i && log[..i][e] == u;
      assert log[..n][e] == u;
    }
  }

  /** Until `n`, nobody but `t` wrote `x` after `t` first did, and nobody else who wrote it
      before was still live then. */
  lemma SoleWriter(log: Log, i: nat, n: nat, t: Tid, x: Rid)
    requires WellFormed(log) && i < n <= |log| && Live(log[..n], t)
    requires Touches(log[i], t, x) && Untouched(log[..i], t, x)
    ensures IsData(log[i])
    ensures forall u :: u != t && Live(log[..i], u) ==> Untouched(log[..i], u, x)
    ensures forall j :: i <= j < n && IsPageRecord(log[j]) && log[j].rid == x ==> log[j].tid == t
  {
    assert Admitted(log, i);
    if IsClr(log[i]) {
      var u := Last(UndoStack(log[..i], t));
      StackFromLog(log[..i], t);
      assert u in UndoStack(log[..i], t);
      assert Touches(u, t, x);
    }
    WellFormedPrefix(log, n);
    SlotInvHolds(log[..n], x);
    assert OwnerOk(log[..n], x, t);
    forall j | i <= j < n && IsPageRecord(log[j]) && log[j].rid == x ensures log[j].tid == t {
      assert log[..n][i] == log[i] && log[..n][j] == log[j];
    }
  }

  /** Commits between `i` and `n` do not change the committed replay of the first `i` records
      on a slot whose writers had all ended. */
  lemma {:induction false} CommittedStable(log: Log, k: nat, i: nat, n: nat, x: Rid)
    requires WellFormed(log) && k <= i <= n <= |log|
    requires forall u :: Live(log[..i], u) ==> Untouched(log[..i], u, x)
    ensures CommittedSlot(log[..k], x, log[..n]) == CommittedSlot(log[..k], x, log[..i])
  {
    if k > 0 {
      TakeSucc(log, k - 1);
      CommittedStable(log, k - 1, i, n, x);
      var r := log[k - 1];
      if IsPageRecord(r) && r.rid == x {
        assert log[..i][k - 1] == r && r in log[..i];
        assert Touches(r, r.tid, x);
        assert Admitted(log, k - 1);
        assert Begin(r.tid) in log[..k - 1];
        var b :| 0 <= b < k - 1 && log[..k - 1][b] == Begin(r.tid);
        assert log[..i][b] == Begin(r.tid) && Begin(r.tid) in log[..i];
        assert !Untouched(log[..i], r.tid, x);
        CommitStays(log, i, n, r.tid);
      }
    }
  }

  lemma CommitStays(log: Log, i: nat, n: nat, t: Tid)
    requires WellFormed(log) && i <= n <= |log| && Ended(log[..i], t)
    ensures Commit(t) in log[..n] <==> Commit(t) in log[..i]
  {
    if Commit(t) in log[..i] {
      var e :| 0 <= e < i && log[..i][e] == Commit(t);
      assert log[..n][e] == Commit(t);
    } else if Commit(t) in log[..n] {
      var e :| 0 <= e < i && log[..i][e] == Abort(t);
      var c :| 0 <= c < n && log[..n][c] == Commit(t);
      assert log[..n][e] == Abort(t);
      WellFormedPrefix(log, n);
      EndsOnce(log[..n], t);
    }
  }

  lemma {:induction false} CommittedUnmoved(log: Log, i: nat, m: nat, n: nat, t: Tid, x: Rid)
    requires i <= m <= n <= |log| && Commit(t) !in log[..n]
    requires forall j :: i <= j < n && IsPageRecord(log[j]) && log[j].rid == x ==> log[j].tid == t
    ensures CommittedSlot(log[..m], x, log[..n]) == CommittedSlot(log[..i], x, log[..n])
    decreases m
  {
    if i < m {
      TakeSucc(log, m - 1);
      CommittedUnmoved(log, i, m - 1, n, t, x);
    }
  }

  /** A complete rollback restores the visible contents of every slot it touched to what they
      were before the transaction first touched it. */
  lemma AbortRestoresRows(log: Log, i: nat, n: nat, t: Tid, x: Rid)
    requires WellFormed(log) && i < n < |log| && log[n] == Abort(t)
    requires Touches(log[i], t, x) && Untouched(log[..i], t, x)
    ensures VisibleRow(SlotOf(log[..n], x)) == VisibleRow(SlotOf(log[..i], x))
  {
    assert Admitted(log, n);
    SoleWriter(log, i, n, t, x);
    WellFormedPrefix(log, i);
    WellFormedPrefix(log, n);
    HistoryIsCommittedReplay(log[..i], x);
    SlotInvHolds(log[..n], x);
    forall u | Live(log[..n], u) ensures Pending(log[..n], u, x) == [] {
      if u != t {
        if !Untouched(log[..i], u, x) { LiveBefore(log, i, n, u, x); }
        forall r | r in log[..n] ensures !Touches(r, u, x) {
          var j :| 0 <= j < n && log[..n][j] == r;
          if j < i { assert log[..i][j] == r && r in log[..i]; }
        }
        UntouchedNoPending(log[..n], u, x);
      }
    }
    CommittedUnmoved(log, i, n, n, t, x);
    CommittedStable(log, i, i, n, x);
  }
}
