/** The iterator over a log file, and what it reads from a file that ends anywhere. */
module LogFile {
  import opened Bytes
  import opened LogCodec

  datatype Found = NoRecord | Bytes(data: Bytestring)

  /** The record at a position: its size is read first, then that many bytes, which must verify. */
  function NextRecord(file: Bytestring, at: nat, crc: Checksum): (f: Found)
    requires at <= |file|
    ensures f.Bytes? ==> HEADER_SIZE <= |f.data| <= |file| - at
  {
    if |file| - at < 2 then NoRecord
    else
      var size := Decode(file[at..at + 2]);
      if |file| - at < size || !Verified(file[at..at + size], crc) then NoRecord else Bytes(file[at..at + size])
  }

  datatype Entry = Entry(lsn: nat, data: Bytestring)

  /** Everything the iterator returns from a position on. */
  function Scan(file: Bytestring, at: nat, crc: Checksum): seq<Entry>
    requires at <= |file|
    decreases |file| - at
  {
    match NextRecord(file, at, crc)
    case NoRecord => []
    case Bytes(data) => [Entry(at, data)] + Scan(file, at + |data|, crc)
  }

  // ---------------------------------------------------------------- byte strings of records

  /** Verified bytes whose size field is their length. */
  predicate WellSized(b: Bytestring, crc: Checksum) { Verified(b, crc) && Decode(b[..2]) == |b| }

  predicate AllWellSized(bs: seq<Bytestring>, crc: Checksum) { forall i :: 0 <= i < |bs| ==> WellSized(bs[i], crc) }

  /** The LSN of record `k`. */
  function Start(bs: seq<Bytestring>, k: nat): nat
    requires k <= |bs|
  {
    |Concat(bs[..k])|
  }

  /** The first `n` bytes of the log hold `m` whole records. */
  predicate Holds(bs: seq<Bytestring>, n: nat, m: nat) {
    m <= |bs| && Start(bs, m) <= n <= |Concat(bs)| && (m < |bs| ==> n < Start(bs, m + 1))
  }

  /** The entries of records `k` to `m`. */
  function Entries(bs: seq<Bytestring>, k: nat, m: nat): seq<Entry>
    requires k <= m <= |bs|
    decreases m - k
  {
    if k == m then [] else [Entry(Start(bs, k), bs[k])] + Entries(bs, k + 1, m)
  }

  lemma SliceHead(s: Bytestring, at: nat, n: nat)
    requires 2 <= n && at + n <= |s|
    ensures s[at..at + 2] == s[at..at + n][..2]
  {
  }

  lemma TakeSlice(all: Bytestring, n: nat, i: nat, j: nat)
    requires i <= j <= n <= |all|
    ensures all[..n][i..j] == all[i..j]
  {
  }

  lemma FindsRecord(file: Bytestring, at: nat, b: Bytestring, crc: Checksum)
    requires at + |b| <= |file| && file[at..at + |b|] == b && WellSized(b, crc)
    ensures NextRecord(file, at, crc) == Bytes(b)
  {
    SliceHead(file, at, |b|);
  }

  lemma MissesRecord(file: Bytestring, at: nat, size: nat, crc: Checksum)
    requires at <= |file| < at + size && (|file| >= at + 2 ==> Decode(file[at..at + 2]) == size)
    ensures NextRecord(file, at, crc) == NoRecord
  {
  }

  lemma ScanStep(file: Bytestring, at: nat, b: Bytestring, crc: Checksum)
    requires at + |b| <= |file| && NextRecord(file, at, crc) == Bytes(b)
    ensures Scan(file, at, crc) == [Entry(at, b)] + Scan(file, at + |b|, crc)
  {
  }

  lemma WholeRecord(bs: seq<Bytestring>, n: nat, k: nat, crc: Checksum)
    requires AllWellSized(bs, crc) && k < |bs| && Start(bs, k + 1) <= n <= |Concat(bs)|
    ensures Start(bs, k) + |bs[k]| == Start(bs, k + 1)
    ensures NextRecord(Concat(bs)[..n], Start(bs, k), crc) == Bytes(bs[k])
  {
    ConcatAt(bs, k);
    TakeSlice(Concat(bs), n, Start(bs, k), Start(bs, k) + |bs[k]|);
    FindsRecord(Concat(bs)[..n], Start(bs, k), bs[k], crc);
  }

  /** A record cut off anywhere is not returned. */
  lemma CutRecord(bs: seq<Bytestring>, n: nat, m: nat, crc: Checksum)
    requires AllWellSized(bs, crc) && Holds(bs, n, m)
    ensures NextRecord(Concat(bs)[..n], Start(bs, m), crc) == NoRecord
  {
    var all, at := Concat(bs), Start(bs, m);
    if m < |bs| {
      ConcatAt(bs, m);
      if n - at >= 2 {
        TakeSlice(all, n, at, at + 2);
        SliceHead(all, at, |bs[m]|);
      }
      MissesRecord(all[..n], at, |bs[m]|, crc);
    } else {
      assert bs[..m] == bs;
    }
  }

  lemma {:induction false} StartsGrow(bs: seq<Bytestring>, k: nat, m: nat)
    requires k <= m <= |bs|
    ensures Start(bs, k) <= Start(bs, m)
    decreases m
  {
    if k < m {
      StartsGrow(bs, k, m - 1);
      ConcatAt(bs, m - 1);
    }
  }

  /** The iterator, started at record `k`, returns the records up to `m`. */
  ghost predicate Returns(file: Bytestring, bs: seq<Bytestring>, k: nat, m: nat, crc: Checksum)
    requires k <= m <= |bs|
  {
    Start(bs, k) <= |file| && Scan(file, Start(bs, k), crc) == Entries(bs, k, m)
  }

  lemma ReturnsStep(file: Bytestring, bs: seq<Bytestring>, k: nat, m: nat, crc: Checksum)
    requires k < m <= |bs| && Start(bs, k) + |bs[k]| == Start(bs, k + 1)
    requires Start(bs, k) <= |file| && NextRecord(file, Start(bs, k), crc) == Bytes(bs[k])
    requires Returns(file, bs, k + 1, m, crc)
    ensures Returns(file, bs, k, m, crc)
  {
    ScanStep(file, Start(bs, k), bs[k], crc);
  }

  /** From any record boundary of a log cut off anywhere, the iterator returns exactly the whole
      records that follow, with their LSNs. */
  lemma {:induction false} ReadsWholePrefix(bs: seq<Bytestring>, n: nat, k: nat, m: nat, crc: Checksum)
    requires AllWellSized(bs, crc) && Holds(bs, n, m) && k <= m
    ensures Returns(Concat(bs)[..n], bs, k, m, crc)
    decreases m - k
  {
    if k == m {
      CutRecord(bs, n, m, crc);
    } else {
      ReadsWholePrefix(bs, n, k + 1, m, crc);
      StartsGrow(bs, k + 1, m);
      WholeRecord(bs, n, k, crc);
      ReturnsStep(Concat(bs)[..n], bs, k, m, crc);
    }
  }

  // ---------------------------------------------------------------- logs of constructed records

  /** Records the constructors build and the size field can hold. */
  predicate Short(rs: seq<Record>) { forall i :: 0 <= i < |rs| ==> Constructible(rs[i]) && SizeOf(rs[i]) < 0x1_0000 }

  function Serialized(rs: seq<Record>, crc: Checksum): (bs: seq<Bytestring>)
    ensures |bs| == |rs| && forall i :: 0 <= i < |bs| ==> bs[i] == Serialize(rs[i], crc)
  {
    seq(|rs|, i requires 0 <= i < |rs| => Serialize(rs[i], crc))
  }

  lemma SerializedWellSized(r: Record, crc: Checksum)
    requires Constructible(r) && SizeOf(r) < 0x1_0000
    ensures WellSized(Serialize(r, crc), crc)
  {
    SerializedVerifies(r, crc);
    Powers();
    HeaderFields(r, crc);
    DecodeField(2, SizeOf(r));
  }

  /** The log codec loses nothing: records serialized back to back and cut off after `n` bytes are
      read, from any record boundary, as the longest run of whole records, each with its LSN and
      its fields. */
  lemma RoundTrip(rs: seq<Record>, n: nat, k: nat, m: nat, crc: Checksum)
    requires Short(rs) && Holds(Serialized(rs, crc), n, m) && k <= m
    ensures Returns(Concat(Serialized(rs, crc))[..n], Serialized(rs, crc), k, m, crc)
    ensures forall i :: k <= i < m ==> Readable(Serialized(rs, crc)[i], rs[i], crc)
  {
    var bs := Serialized(rs, crc);
    forall i | 0 <= i < |rs| ensures WellSized(bs[i], crc) && Readable(bs[i], rs[i], crc) {
      SerializedWellSized(rs[i], crc);
      ReadSerialized(rs[i], crc);
    }
    ReadsWholePrefix(bs, n, k, m, crc);
  }

  /** The bound on the size is exact: wherever a constructed record lies in a file, the iterator
      returns it if and only if it is shorter than 65536 bytes.  Of a longer one the size field
      holds the low 16 bits only. */
  lemma RecordReturnedIff(pre: Bytestring, r: Record, rest: Bytestring, crc: Checksum)
    requires Constructible(r)
    ensures NextRecord(pre + Serialize(r, crc) + rest, |pre|, crc) == Bytes(Serialize(r, crc)) <==> SizeOf(r) < 0x1_0000
  {
    var file, b := pre + Serialize(r, crc) + rest, Serialize(r, crc);
    assert file[|pre|..|pre| + |b|] == b;
    if SizeOf(r) < 0x1_0000 {
      SerializedWellSized(r, crc);
      FindsRecord(file, |pre|, b, crc);
    } else {
      DecodeBound(file[|pre|..|pre| + 2]);
      Powers();
    }
  }

  /** A record whose size is a multiple of 65536 has the size field 0, and the scan stops there
      silently. */
  lemma ScanStopsAtZeroSize(pre: Bytestring, r: Record, rest: Bytestring, crc: Checksum)
    requires SizeOf(r) % 0x1_0000 == 0
    ensures Scan(pre + Serialize(r, crc) + rest, |pre|, crc) == []
  {
    var file, b := pre + Serialize(r, crc) + rest, Serialize(r, crc);
    HeaderFields(r, crc);
    assert file[|pre|..|pre| + 2] == b[..2] == Encode(2, SizeOf(r));
    assert SizeOf(r) % 256 == 0 && SizeOf(r) / 256 % 256 == 0;
    assert Encode(2, SizeOf(r)) == [0, 0];
    assert Decode([0, 0]) == 0 by { assert Decode([0]) == 0; assert [0, 0][1..] == [0]; }
    assert |file[|pre|..|pre| + 0]| == 0;
  }

  /** Every cut holds some number of whole records. */
  lemma {:induction false} SomeWholeRecords(bs: seq<Bytestring>, n: nat) returns (m: nat)
    requires n <= |Concat(bs)|
    ensures Holds(bs, n, m)
  {
    m := |bs|;
    assert bs[..m] == bs && bs[..0] == [];
    while n < Start(bs, m)
      invariant m <= |bs| && (m < |bs| ==> n < Start(bs, m + 1))
      decreases m
    {
      m := m - 1;
    }
  }

  predicate Readable(b: Bytestring, r: Record, crc: Checksum) {
    Verified(b, crc) && |b| < 0x1_0000 && 1 <= TypeField(b) <= 11 && Read(b, crc) == r
  }

  /** What was read and what is still to come is `goal`. */
  ghost predicate Reading(goal: seq<Entry>, entries: seq<Entry>, file: Bytestring, at: nat, crc: Checksum) {
    at <= |file| && entries + Scan(file, at, crc) == goal
  }

  lemma ReadOne(goal: seq<Entry>, entries: seq<Entry>, file: Bytestring, at: nat, data: Bytestring, crc: Checksum)
    requires Reading(goal, entries, file, at, crc) && NextRecord(file, at, crc) == Bytes(data)
    ensures Reading(goal, entries + [Entry(at, data)], file, at + |data|, crc)
  {
    ScanStep(file, at, data, crc);
    assert entries + ([Entry(at, data)] + Scan(file, at + |data|, crc))
        == (entries + [Entry(at, data)]) + Scan(file, at + |data|, crc);
  }

  lemma ReadNone(goal: seq<Entry>, entries: seq<Entry>, file: Bytestring, at: nat, crc: Checksum)
    requires Reading(goal, entries, file, at, crc) && NextRecord(file, at, crc) == NoRecord
    ensures entries == goal
  {
    assert entries + [] == entries;
  }

  // ---------------------------------------------------------------- the iterator

  class LogFileIterator {
    const file: Bytestring
    const crc: Checksum
    var pos: nat
    var currentLSN: nat
    var recordStartLSN: nat
    var record: Bytestring

    /** The reader is where the iterator thinks it is. */
    predicate InStep()
      reads this
    {
      pos == currentLSN <= |file|
    }

    constructor (file: Bytestring, startLSN: nat, crc: Checksum)
      requires startLSN <= |file|
      ensures InStep() && currentLSN == startLSN && this.file == file && this.crc == crc
    {
      this.file, this.crc, pos, currentLSN, recordStartLSN, record := file, crc, startLSN, startLSN, startLSN, [];
    }

    /** Advances by one record.  A record that is cut off or does not verify is consumed by the
        reader, while the LSNs stay where they were. */
    method Next() returns (more: bool)
      requires pos <= |file|
      modifies this
      ensures pos <= |file|
      ensures more <==> NextRecord(file, old(pos), crc).Bytes?
      ensures more ==> record == NextRecord(file, old(pos), crc).data && pos == old(pos) + |record|
      ensures more ==> recordStartLSN == old(currentLSN) && currentLSN == old(currentLSN) + |record|
      ensures !more ==> currentLSN == old(currentLSN) && recordStartLSN == old(recordStartLSN)
    {
      if |file| - pos < 2 { return false; }
      var size := Decode(file[pos..pos + 2]);
      if |file| - pos < size {
        pos := |file|;
        return false;
      }
      var data := file[pos..pos + size];
      pos := pos + size;
      if !Verified(data, crc) {
        record := [];
        return false;
      }
      record := data;
      recordStartLSN := currentLSN;
      currentLSN := currentLSN + size;
      return true;
    }

    /** One round of the loop of every pass of recovery. */
    method ReadNext(ghost goal: seq<Entry>, entries: seq<Entry>) returns (more: bool, entries': seq<Entry>)
      requires InStep() && Reading(goal, entries, file, pos, crc)
      modifies this
      ensures more ==> InStep() && Reading(goal, entries', file, pos, crc) && pos > old(pos)
      ensures !more ==> entries' == goal
    {
      ghost var at := pos;
      more := Next();
      if more {
        ReadOne(goal, entries, file, at, record, crc);
        entries' := entries + [Entry(recordStartLSN, record)];
      } else {
        ReadNone(goal, entries, file, at, crc);
        entries' := entries;
      }
    }

    method ReadAll() returns (entries: seq<Entry>)
      requires InStep()
      modifies this
      ensures entries == Scan(file, old(pos), crc)
    {
      entries := [];
      ghost var goal := Scan(file, pos, crc);
      var more := true;
      while more
        invariant more ==> InStep() && Reading(goal, entries, file, pos, crc)
        invariant !more ==> entries == goal
        decreases more, if more then |file| - pos else 0
      {
        more, entries := ReadNext(goal, entries);
      }
    }
  }
}
