/** The double-buffered write-ahead log: appenders fill the front buffer, the flusher swaps it
    with the empty back buffer, writes the back buffer to the file and publishes how far the file
    reaches.  Everything between two lock operations is one step. */
module DoubleBuffer {
  import opened Bytes

  const LOG_BUFFER_SIZE := 0x10_0000

  /** Where the flusher is: the file holds the back buffer from `Written` on, and the buffer is
      emptied before `flushedLSN` moves. */
  datatype Flusher = Waiting | Written(n: nat) | Cleared(n: nat)

  datatype State = State(front: Bytestring, back: Bytestring, file: Bytestring, lsn: nat, flushedLSN: nat, flusher: Flusher)

  datatype Event = Append(record: Bytestring) | Swap | Write | Clear | Publish

  /** Opening a log: numbering continues at the size of the file. */
  function Open(file: Bytestring): State { State([], [], file, |file|, |file|, Waiting) }

  predicate HasRoom(s: State, record: Bytestring) { |s.front| + |record| < LOG_BUFFER_SIZE }

  predicate Enabled(s: State, e: Event) {
    match e
    case Append(r) => HasRoom(s, r)
    case Swap => s.flusher == Waiting && |s.front| > 0 && |s.back| == 0
    case Write => s.flusher == Waiting && |s.back| > 0
    case Clear => s.flusher.Written?
    case Publish => s.flusher.Cleared?
  }

  function After(s: State, e: Event): State
    requires Enabled(s, e)
  {
    match e
    case Append(r) => s.(front := s.front + r, lsn := s.lsn + |r|)
    case Swap => s.(front := s.back, back := s.front)
    case Write => s.(file := s.file + s.back, flusher := Written(|s.back|))
    case Clear => s.(back := [], flusher := Cleared(s.flusher.n))
    case Publish => s.(flushedLSN := s.flushedLSN + s.flusher.n, flusher := Waiting)
  }

  /** The records appended by a run, in order. */
  function Records(es: seq<Event>): seq<Bytestring> {
    if es == [] then []
    else
      var rs, e := Records(es[..|es| - 1]), es[|es| - 1];
      if e.Append? then rs + [e.record] else rs
  }

  predicate Legal(file: Bytestring, es: seq<Event>) { Run(file, es).Some? }

  datatype Outcome = None | Some(s: State)

  function Run(file: Bytestring, es: seq<Event>): Outcome {
    if es == [] then Some(Open(file))
    else
      match Run(file, es[..|es| - 1])
      case None => None
      case Some(s) => if Enabled(s, es[|es| - 1]) then Some(After(s, es[|es| - 1])) else None
  }

  /** The byte offset at which record `k` starts, or at which the log ends. */
  function Offset(file: Bytestring, rs: seq<Bytestring>, k: nat): nat
    requires k <= |rs|
  {
    |file| + |Concat(rs[..k])|
  }

  // ---------------------------------------------------------------- refinement of a byte string

  /** The bytes not in the file yet. */
  function Pending(s: State): Bytestring { (if s.flusher.Waiting? then s.back else []) + s.front }

  ghost predicate Boundary(file: Bytestring, rs: seq<Bytestring>, n: nat) {
    exists k: nat :: k <= |rs| && Offset(file, rs, k) == n
  }

  ghost predicate Inv(file: Bytestring, rs: seq<Bytestring>, s: State) {
    && s.file + Pending(s) == file + Concat(rs)
    && s.lsn == |file| + |Concat(rs)|
    && |s.front| < LOG_BUFFER_SIZE && |s.back| < LOG_BUFFER_SIZE
    && Boundary(file, rs, |s.file|) && Boundary(file, rs, s.flushedLSN)
    && (s.flusher.Waiting? ==> s.flushedLSN == |s.file| && Boundary(file, rs, |s.file| + |s.back|))
    && (s.flusher.Written? ==> s.flushedLSN + s.flusher.n == |s.file| && s.flusher.n == |s.back|)
    && (s.flusher.Cleared? ==> s.flushedLSN + s.flusher.n == |s.file| && s.back == [])
  }

  /** A boundary stays one when records are appended. */
  lemma BoundaryStays(file: Bytestring, rs: seq<Bytestring>, r: Bytestring, n: nat)
    requires Boundary(file, rs, n)
    ensures Boundary(file, rs + [r], n)
  {
    var k: nat :| k <= |rs| && Offset(file, rs, k) == n;
    assert (rs + [r])[..k] == rs[..k];
    assert Offset(file, rs + [r], k) == n;
  }

  lemma EndIsBoundary(file: Bytestring, rs: seq<Bytestring>)
    ensures Boundary(file, rs, |file| + |Concat(rs)|)
  {
    assert rs[..|rs|] == rs;
    assert Offset(file, rs, |rs|) == |file| + |Concat(rs)|;
  }

  lemma AppendKeeps(file: Bytestring, rs: seq<Bytestring>, s: State, r: Bytestring)
    requires Inv(file, rs, s) && HasRoom(s, r)
    ensures Inv(file, rs + [r], After(s, Append(r)))
  {
    ConcatAppend(rs, r);
    BoundaryStays(file, rs, r, |s.file|);
    BoundaryStays(file, rs, r, s.flushedLSN);
    if s.flusher.Waiting? { BoundaryStays(file, rs, r, |s.file| + |s.back|); }
    assert s.file + (Pending(s) + r) == (s.file + Pending(s)) + r;
    assert Pending(After(s, Append(r))) == Pending(s) + r;
  }

  lemma SwapKeeps(file: Bytestring, rs: seq<Bytestring>, s: State)
    requires Inv(file, rs, s) && Enabled(s, Swap)
    ensures Inv(file, rs, After(s, Swap))
  {
    EndIsBoundary(file, rs);
    assert Pending(After(s, Swap)) == Pending(s);
    assert |s.file + Pending(s)| == |s.file| + |s.front|;
  }

  lemma FlushKeeps(file: Bytestring, rs: seq<Bytestring>, s: State, e: Event)
    requires Inv(file, rs, s) && Enabled(s, e) && (e.Write? || e.Clear? || e.Publish?)
    ensures Inv(file, rs, After(s, e))
  {
    match e
    case Write => assert s.file + (s.back + s.front) == (s.file + s.back) + s.front;
    case Clear =>
    case Publish => assert [] + s.front == s.front;
  }

  lemma StepKeeps(file: Bytestring, rs: seq<Bytestring>, s: State, e: Event)
    requires Inv(file, rs, s) && Enabled(s, e)
    ensures Inv(file, if e.Append? then rs + [e.record] else rs, After(s, e))
  {
    match e
    case Append(r) => AppendKeeps(file, rs, s, r);
    case Swap => SwapKeeps(file, rs, s);
    case _ => FlushKeeps(file, rs, s, e);
  }

  lemma {:induction false} RunsKeepInv(file: Bytestring, es: seq<Event>)
    requires Legal(file, es)
    ensures Inv(file, Records(es), Run(file, es).s)
  {
    if es == [] {
      EndIsBoundary(file, []);
    } else {
      var n := |es| - 1;
      RunsKeepInv(file, es[..n]);
      StepKeeps(file, Records(es[..n]), Run(file, es[..n]).s, es[n]);
    }
  }

  /** The log refines an append-only byte string: file, back and front buffer together are the old
      file and the appended records, in the order of their appends; the buffers stay within their
      capacity, and what is published is in the file. */
  lemma RefinesByteString(file: Bytestring, es: seq<Event>)
    requires Legal(file, es)
    ensures var s := Run(file, es).s;
            && s.file + Pending(s) == file + Concat(Records(es))
            && s.lsn == |file| + |Concat(Records(es))|
            && |s.front| < LOG_BUFFER_SIZE && |s.back| < LOG_BUFFER_SIZE
            && s.flushedLSN <= |s.file|
            && Boundary(file, Records(es), s.flushedLSN)
  {
    RunsKeepInv(file, es);
  }

  /** The LSN returned by an append is the byte offset of its record. */
  lemma LsnIsOffset(file: Bytestring, es: seq<Event>, r: Bytestring)
    requires Legal(file, es + [Append(r)])
    ensures Legal(file, es)
    ensures var rs := Records(es + [Append(r)]);
            rs == Records(es) + [r] && Run(file, es).s.lsn == Offset(file, rs, |Records(es)|)
  {
    assert (es + [Append(r)])[..|es|] == es;
    RunsKeepInv(file, es);
    assert (Records(es) + [r])[..|Records(es)|] == Records(es);
  }

  /** `flushedLSN` never moves back. */
  lemma {:induction false} PublishedGrows(file: Bytestring, es: seq<Event>, k: nat)
    requires Legal(file, es) && k <= |es|
    ensures Legal(file, es[..k]) && Run(file, es[..k]).s.flushedLSN <= Run(file, es).s.flushedLSN
    decreases |es|
  {
    if k < |es| {
      var n := |es| - 1;
      PublishedGrows(file, es[..n], k);
      assert es[..n][..k] == es[..k];
    } else {
      assert es[..k] == es;
    }
  }

  // ---------------------------------------------------------------- waiting for a record

  lemma OffsetNext(file: Bytestring, rs: seq<Bytestring>, k: nat)
    requires k < |rs|
    ensures Offset(file, rs, k + 1) == Offset(file, rs, k) + |rs[k]|
    ensures file + Concat(rs[..k]) + rs[k] <= file + Concat(rs)
  {
    assert rs[..k + 1] == rs[..k] + [rs[k]];
    ConcatAppend(rs[..k], rs[k]);
    ConcatPrefix(rs, k + 1);
  }

  lemma {:induction false} OffsetsGrow(file: Bytestring, rs: seq<Bytestring>, j: nat, k: nat)
    requires j <= k <= |rs| && forall i :: 0 <= i < |rs| ==> rs[i] != []
    ensures Offset(file, rs, j) <= Offset(file, rs, k)
    ensures j < k ==> Offset(file, rs, j) < Offset(file, rs, k)
    decreases k
  {
    if j < k {
      OffsetsGrow(file, rs, j, k - 1);
      OffsetNext(file, rs, k - 1);
    }
  }

  /** Record `k` is in the file, at its offset. */
  predicate InFile(file: Bytestring, rs: seq<Bytestring>, s: State, k: nat)
    requires k < |rs|
  {
    && Offset(file, rs, k) + |rs[k]| <= |s.file|
    && s.file[Offset(file, rs, k)..Offset(file, rs, k) + |rs[k]|] == rs[k]
  }

  lemma EndsInFile(file: Bytestring, rs: seq<Bytestring>, s: State, k: nat)
    requires Inv(file, rs, s) && k < |rs| && Offset(file, rs, k + 1) <= |s.file|
    ensures InFile(file, rs, s, k)
  {
    OffsetNext(file, rs, k);
    var a, n := Offset(file, rs, k), |rs[k]|;
    var all := file + Concat(rs);
    assert s.file == all[..|s.file|];
    assert all[..a + n] == file + Concat(rs[..k]) + rs[k];
    assert s.file[a..a + n] == all[..a + n][a..] == rs[k];
  }

  /** When a wait on `lsn` is over, every record that ends at or before `lsn` is in the file. */
  lemma WaitCovers(file: Bytestring, es: seq<Event>, lsn: nat, k: nat)
    requires Legal(file, es) && lsn <= Run(file, es).s.flushedLSN
    requires k < |Records(es)| && Offset(file, Records(es), k + 1) <= lsn
    ensures InFile(file, Records(es), Run(file, es).s, k)
  {
    RunsKeepInv(file, es);
    EndsInFile(file, Records(es), Run(file, es).s, k);
  }

  /** A wait on the LSN of a record is over as soon as everything before the record is published;
      the record itself is published exactly when its LSN is below `flushedLSN`. */
  lemma PublishedIffBelow(file: Bytestring, es: seq<Event>, k: nat)
    requires Legal(file, es) && k < |Records(es)|
    requires forall i :: 0 <= i < |Records(es)| ==> Records(es)[i] != []
    ensures var rs, s := Records(es), Run(file, es).s;
            && (Offset(file, rs, k + 1) <= s.flushedLSN <==> Offset(file, rs, k) < s.flushedLSN)
            && (Offset(file, rs, k) < s.flushedLSN ==> InFile(file, rs, s, k))
  {
    RunsKeepInv(file, es);
    var rs, s := Records(es), Run(file, es).s;
    var j: nat :| j <= |rs| && Offset(file, rs, j) == s.flushedLSN;
    OffsetsGrow(file, rs, k, k + 1);
    if j <= k { OffsetsGrow(file, rs, j, k); } else { OffsetsGrow(file, rs, k + 1, j); }
    if Offset(file, rs, k + 1) <= |s.file| { EndsInFile(file, rs, s, k); }
  }

  /** A wait on a record just appended to a flushed log returns at once, with nothing of the record
      in the file. */
  lemma WaitReturnsTooEarly(file: Bytestring, r: Bytestring)
    requires 0 < |r| < LOG_BUFFER_SIZE
    ensures var s := Run(file, [Append(r)]);
            && s.Some? && Records([Append(r)]) == [r]
            && Offset(file, [r], 0) <= s.s.flushedLSN
            && !InFile(file, [r], s.s, 0)
  {
    assert [Append(r)][..0] == [];
    assert Run(file, []) == Some(Open(file));
    assert Records([]) == [] && [] + [r] == [r];
    assert [r][..0] == [];
  }

  // ---------------------------------------------------------------- no appender waits for ever

  /** What the flusher still has to do before the front buffer is empty. */
  function Drain(s: State): seq<Event> {
    match s.flusher
    case Written(_) => [Clear, Publish] + if |s.front| > 0 then [Swap] else []
    case Cleared(_) => [Publish] + if |s.front| > 0 then [Swap] else []
    case Waiting =>
      (if |s.back| > 0 then [Write, Clear, Publish] else []) + if |s.front| > 0 then [Swap] else []
  }

  function Steps(s: State, es: seq<Event>): Outcome
    decreases |es|
  {
    if es == [] then Some(s)
    else if Enabled(s, es[0]) then Steps(After(s, es[0]), es[1..])
    else None
  }

  lemma StepsCons(s: State, e: Event, es: seq<Event>)
    requires Enabled(s, e)
    ensures Steps(s, [e] + es) == Steps(After(s, e), es)
  {
    assert ([e] + es)[1..] == es;
  }

  lemma SwapDrains(s: State)
    requires s.flusher.Waiting? && s.back == []
    ensures var es: seq<Event> := if |s.front| > 0 then [Swap] else [];
            Steps(s, es).Some? && Steps(s, es).s.front == []
  {
    if |s.front| > 0 {
      assert [Swap] + [] == [Swap];
      StepsCons(s, Swap, []);
    }
  }

  /** At most four steps of the flusher, none of them blocked, make room for any record smaller
      than the buffer. */
  lemma FlusherMakesRoom(file: Bytestring, es: seq<Event>, r: Bytestring)
    requires Legal(file, es) && |r| < LOG_BUFFER_SIZE
    ensures var s := Run(file, es).s;
            && |Drain(s)| <= 4 && Steps(s, Drain(s)).Some? && HasRoom(Steps(s, Drain(s)).s, r)
  {
    RunsKeepInv(file, es);
    var s := Run(file, es).s;
    var last: seq<Event> := if |s.front| > 0 then [Swap] else [];
    match s.flusher
    case Written(_) =>
      assert Drain(s) == [Clear] + ([Publish] + last);
      StepsCons(s, Clear, [Publish] + last);
      StepsCons(After(s, Clear), Publish, last);
      SwapDrains(After(After(s, Clear), Publish));
    case Cleared(_) =>
      StepsCons(s, Publish, last);
      SwapDrains(After(s, Publish));
    case Waiting =>
      if |s.back| > 0 {
        assert Drain(s) == [Write] + ([Clear] + ([Publish] + last));
        StepsCons(s, Write, [Clear] + ([Publish] + last));
        StepsCons(After(s, Write), Clear, [Publish] + last);
        StepsCons(After(After(s, Write), Clear), Publish, last);
        SwapDrains(After(After(After(s, Write), Clear), Publish));
      } else {
        assert Drain(s) == last;
        SwapDrains(s);
      }
  }

  // ---------------------------------------------------------------- the program

  class DoubleBufferLogManager {
    ghost const initial: Bytestring
    ghost var trace: seq<Event>
    var front: Bytestring
    var back: Bytestring
    var file: Bytestring
    var lsn: nat
    var flushedLSN: nat
    ghost var flusher: Flusher

    ghost function S(): State
      reads this
    {
      State(front, back, file, lsn, flushedLSN, flusher)
    }

    /** The fields are what the steps performed so far lead to. */
    ghost predicate Valid()
      reads this
    {
      Legal(initial, trace) && S() == Run(initial, trace).s
    }

    constructor (file: Bytestring)
      ensures Valid() && initial == file && trace == []
    {
      initial, trace, front, back, this.file, lsn, flushedLSN, flusher := file, [], [], [], file, |file|, |file|, Waiting;
    }

    lemma Performed(e: Event, s: State)
      requires Legal(initial, trace) && Enabled(Run(initial, trace).s, e) && s == After(Run(initial, trace).s, e)
      ensures Legal(initial, trace + [e]) && Run(initial, trace + [e]).s == s
    {
      assert (trace + [e])[..|trace|] == trace;
    }

    /** Reserves the next bytes of the front buffer for the record and numbers it by its offset;
        `wait` means there is no room until the flusher has swapped the buffers. */
    method Append(record: Bytestring) returns (wait: bool, at: nat)
      requires Valid()
      modifies `front, `lsn, `trace
      ensures Valid() && (wait <==> |old(front)| + |record| >= LOG_BUFFER_SIZE)
      ensures wait ==> S() == old(S()) && trace == old(trace)
      ensures !wait ==> front == old(front) + record && lsn == old(lsn) + |record| && at == old(lsn)
      ensures !wait ==> trace == old(trace) + [Event.Append(record)] && Records(trace) == Records(old(trace)) + [record]
      ensures !wait ==> at == Offset(initial, Records(trace), |Records(trace)| - 1)
    {
      if |front| + |record| >= LOG_BUFFER_SIZE { return true, 0; }
      Performed(Event.Append(record), After(S(), Event.Append(record)));
      LsnIsOffset(initial, trace, record);
      at := lsn;
      lsn := lsn + |record|;
      front := front + record;
      trace := trace + [Event.Append(record)];
      return false, at;
    }

    /** The condition a waiter checks under the mutex; it sleeps while this is false. */
    method WaitUntilFlushed(target: nat) returns (over: bool)
      requires Valid()
      ensures over <==> target <= flushedLSN
      ensures over ==> forall k: nat :: k < |Records(trace)| && Offset(initial, Records(trace), k + 1) <= target ==>
                         InFile(initial, Records(trace), S(), k)
    {
      over := target <= flushedLSN;
      if over {
        forall k: nat | k < |Records(trace)| && Offset(initial, Records(trace), k + 1) <= target
          ensures InFile(initial, Records(trace), S(), k)
        {
          WaitCovers(initial, trace, target, k);
        }
      }
    }

    /** First half of a round of the flusher, under the append mutex. */
    method SwapBuffers()
      requires Valid() && flusher == Waiting
      modifies `front, `back, `trace
      ensures Valid() && flusher == Waiting
      ensures trace == if |old(front)| > 0 && |old(back)| == 0 then old(trace) + [Swap] else old(trace)
      ensures front == (if |old(back)| == 0 then [] else old(front)) && back == if |old(back)| == 0 then old(front) else old(back)
    {
      if |front| > 0 && |back| == 0 {
        Performed(Swap, After(S(), Swap));
        front, back := back, front;
        trace := trace + [Swap];
      }
    }

    /** Second half of a round, without the mutex: the file is written and synced, the buffer
        emptied and the new end published. */
    method FlushBack()
      requires Valid() && flusher == Waiting
      modifies `file, `back, `flushedLSN, `trace, `flusher
      ensures Valid() && flusher == Waiting && back == [] && flushedLSN == |file| && file == old(file) + old(back)
      ensures trace == if |old(back)| > 0 then old(trace) + [Write, Clear, Publish] else old(trace)
    {
      RunsKeepInv(initial, trace);
      if |back| > 0 {
        var n := |back|;
        Performed(Write, After(S(), Write));
        file, flusher, trace := file + back, Written(n), trace + [Write];
        Performed(Clear, After(S(), Clear));
        back, flusher, trace := [], Cleared(n), trace + [Clear];
        Performed(Publish, After(S(), Publish));
        flushedLSN, flusher, trace := flushedLSN + n, Waiting, trace + [Publish];
        assert trace == old(trace) + [Write, Clear, Publish];
      }
    }
  }
}
