/** The payload of an end-of-checkpoint record: the active transactions and the dirty pages. */
module CheckpointPayload {
  import opened Bytes
  import opened LogCodec
  import LF = LogFile
  import W = LogWriter

  datatype Att = Att(id: u64, startLSN: u64)
  datatype Dpt = Dpt(oid: u32, page: i32, recLSN: u64)

  const ENTRY_SIZE := 16

  /** More entries do not fit into one record. */
  const MAX_ENTRIES := 4094

  function AttBytes(e: Att): (b: Bytestring)
    ensures |b| == ENTRY_SIZE
  {
    Encode(8, e.id) + Encode(8, e.startLSN)
  }

  function DptBytes(e: Dpt): (b: Bytestring)
    ensures |b| == ENTRY_SIZE
  {
    Encode(4, e.oid) + Encode(4, ToUnsigned(e.page)) + Encode(8, e.recLSN)
  }

  function AttTable(att: seq<Att>): (b: Bytestring)
    ensures |b| == ENTRY_SIZE * |att|
  {
    if att == [] then [] else AttTable(att[..|att| - 1]) + AttBytes(att[|att| - 1])
  }

  function DptTable(dpt: seq<Dpt>): (b: Bytestring)
    ensures |b| == ENTRY_SIZE * |dpt|
  {
    if dpt == [] then [] else DptTable(dpt[..|dpt| - 1]) + DptBytes(dpt[|dpt| - 1])
  }

  /** Two counted tables. */
  function PayloadOf(att: seq<Att>, dpt: seq<Dpt>): (b: Bytestring)
    ensures |b| == 8 + ENTRY_SIZE * |att| + ENTRY_SIZE * |dpt|
  {
    (Encode(4, |att|) + AttTable(att)) + (Encode(4, |dpt|) + DptTable(dpt))
  }

  function Lower(a: u64, b: u64): u64 { if a > b then b else a }

  /** The smallest of a bound and the start LSNs. */
  function LeastStart(att: seq<Att>, bound: u64): (m: u64)
    ensures m <= bound && forall i :: 0 <= i < |att| ==> m <= att[i].startLSN
    ensures m == bound || exists i :: 0 <= i < |att| && att[i].startLSN == m
  {
    if att == [] then bound else Lower(LeastStart(att[..|att| - 1], bound), att[|att| - 1].startLSN)
  }

  /** The smallest of a bound and the recovery LSNs. */
  function LeastRec(dpt: seq<Dpt>, bound: u64): (m: u64)
    ensures m <= bound && forall i :: 0 <= i < |dpt| ==> m <= dpt[i].recLSN
    ensures m == bound || exists i :: 0 <= i < |dpt| && dpt[i].recLSN == m
  {
    if dpt == [] then bound else Lower(LeastRec(dpt[..|dpt| - 1], bound), dpt[|dpt| - 1].recLSN)
  }

  // ---------------------------------------------------------------- writing

  /** Fills the payload of the record in `buf` and finds the smallest of the LSNs. */
  method Fill(buf: array<byte>, att: seq<Att>, dpt: seq<Dpt>, beginLSN: u64) returns (truncationLSN: u64)
    requires buf.Length == HEADER_SIZE + |PayloadOf(att, dpt)|
    modifies buf
    ensures buf[HEADER_SIZE..] == PayloadOf(att, dpt)
    ensures truncationLSN == LeastRec(dpt, LeastStart(att, beginLSN))
    ensures buf.Length < 0x1_0000 <==> |att| + |dpt| <= MAX_ENTRIES
  {
    ghost var b, a := buf[..], Encode(4, |att|) + AttTable(att);
    var base := HEADER_SIZE + 4 + ENTRY_SIZE * |att|;
    truncationLSN := FillAtt(buf, att, beginLSN);
    W.SplicedTwice(b, HEADER_SIZE, a, Encode(4, |dpt|) + DptTable(dpt));
    truncationLSN := FillDpt(buf, base, dpt, truncationLSN);
    W.Filled(b, HEADER_SIZE, PayloadOf(att, dpt));
  }

  lemma NextAtt(att: seq<Att>, i: nat, bound: u64)
    requires i < |att|
    ensures LeastStart(att[..i + 1], bound) == Lower(LeastStart(att[..i], bound), att[i].startLSN)
    ensures AttTable(att[..i + 1]) == AttTable(att[..i]) + AttBytes(att[i])
  {
    assert att[..i + 1][..i] == att[..i];
  }

  lemma NextDpt(dpt: seq<Dpt>, i: nat, bound: u64)
    requires i < |dpt|
    ensures LeastRec(dpt[..i + 1], bound) == Lower(LeastRec(dpt[..i], bound), dpt[i].recLSN)
    ensures DptTable(dpt[..i + 1]) == DptTable(dpt[..i]) + DptBytes(dpt[i])
  {
    assert dpt[..i + 1][..i] == dpt[..i];
  }

  method PutAtt(buf: array<byte>, at: nat, e: Att)
    requires at + ENTRY_SIZE <= buf.Length
    modifies buf
    ensures buf[..] == W.Spliced(old(buf[..]), at, AttBytes(e))
  {
    W.SplicedTwice(buf[..], at, Encode(8, e.id), Encode(8, e.startLSN));
    W.PutUint(buf, at, 8, e.id);
    W.PutUint(buf, at + 8, 8, e.startLSN);
  }

  method PutDpt(buf: array<byte>, at: nat, e: Dpt)
    requires at + ENTRY_SIZE <= buf.Length
    modifies buf
    ensures buf[..] == W.Spliced(old(buf[..]), at, DptBytes(e))
  {
    W.SplicedTwice(buf[..], at, Encode(4, e.oid), Encode(4, ToUnsigned(e.page)));
    W.SplicedTwice(buf[..], at, Encode(4, e.oid) + Encode(4, ToUnsigned(e.page)), Encode(8, e.recLSN));
    W.PutUint(buf, at, 4, e.oid);
    W.PutUint(buf, at + 4, 4, ToUnsigned(e.page));
    W.PutUint(buf, at + 8, 8, e.recLSN);
  }

  method FillAtt(buf: array<byte>, att: seq<Att>, beginLSN: u64) returns (lsn: u64)
    requires buf.Length >= HEADER_SIZE + 4 + ENTRY_SIZE * |att|
    modifies buf
    ensures buf[..] == W.Spliced(old(buf[..]), HEADER_SIZE, Encode(4, |att|) + AttTable(att))
    ensures lsn == LeastStart(att, beginLSN)
  {
    lsn := beginLSN;
    ghost var b, count := buf[..], Encode(4, |att|);
    W.PutUint(buf, HEADER_SIZE, 4, |att|);
    assert count + AttTable([]) == count;
    for i := 0 to |att|
      invariant buf[..] == W.Spliced(b, HEADER_SIZE, count + AttTable(att[..i]))
      invariant lsn == LeastStart(att[..i], beginLSN)
    {
      NextAtt(att, i, beginLSN);
      W.SplicedMore(b, HEADER_SIZE, count, AttTable(att[..i]), AttBytes(att[i]));
      PutAtt(buf, HEADER_SIZE + 4 + i * ENTRY_SIZE, att[i]);
      if lsn > att[i].startLSN { lsn := att[i].startLSN; }
    }
    assert att[..|att|] == att;
  }

  method FillDpt(buf: array<byte>, start: nat, dpt: seq<Dpt>, bound: u64) returns (lsn: u64)
    requires buf.Length == start + 4 + ENTRY_SIZE * |dpt|
    modifies buf
    ensures buf[..] == W.Spliced(old(buf[..]), start, Encode(4, |dpt|) + DptTable(dpt))
    ensures lsn == LeastRec(dpt, bound)
  {
    lsn := bound;
    ghost var b, count := buf[..], Encode(4, |dpt|);
    W.PutUint(buf, start, 4, |dpt|);
    assert count + DptTable([]) == count;
    for i := 0 to |dpt|
      invariant buf[..] == W.Spliced(b, start, count + DptTable(dpt[..i]))
      invariant lsn == LeastRec(dpt[..i], bound)
    {
      NextDpt(dpt, i, bound);
      SplicedDpt(b, start, count, dpt, i);
      PutDpt(buf, start + 4 + i * ENTRY_SIZE, dpt[i]);
      if lsn > dpt[i].recLSN { lsn := dpt[i].recLSN; }
    }
    assert dpt[..|dpt|] == dpt;
  }

  /** One entry more behind those spliced in so far. */
  lemma SplicedDpt(b: Bytestring, start: nat, count: Bytestring, dpt: seq<Dpt>, i: nat)
    requires i < |dpt| && |count| == 4 && |b| == start + 4 + ENTRY_SIZE * |dpt|
    ensures |count + DptTable(dpt[..i])| == 4 + ENTRY_SIZE * i
    ensures W.Spliced(W.Spliced(b, start, count + DptTable(dpt[..i])), start + 4 + i * ENTRY_SIZE, DptBytes(dpt[i]))
         == W.Spliced(b, start, count + DptTable(dpt[..i + 1]))
  {
    NextDpt(dpt, i, 0);
    W.SplicedMore(b, start, count, DptTable(dpt[..i]), DptBytes(dpt[i]));
  }

  // ---------------------------------------------------------------- reading

  lemma {:induction false} AttAt(att: seq<Att>, i: nat)
    requires i < |att|
    ensures AttTable(att)[ENTRY_SIZE * i..ENTRY_SIZE * i + ENTRY_SIZE] == AttBytes(att[i])
    decreases |att|
  {
    var n := |att| - 1;
    if i < n {
      AttAt(att[..n], i);
      W.Inner(AttTable(att[..n]), AttBytes(att[n]), ENTRY_SIZE * i, ENTRY_SIZE * i + ENTRY_SIZE);
    } else {
      W.Suffix(AttTable(att[..n]), AttBytes(att[n]));
    }
  }

  lemma {:induction false} DptAt(dpt: seq<Dpt>, i: nat)
    requires i < |dpt|
    ensures DptTable(dpt)[ENTRY_SIZE * i..ENTRY_SIZE * i + ENTRY_SIZE] == DptBytes(dpt[i])
    decreases |dpt|
  {
    var n := |dpt| - 1;
    if i < n {
      DptAt(dpt[..n], i);
      W.Inner(DptTable(dpt[..n]), DptBytes(dpt[n]), ENTRY_SIZE * i, ENTRY_SIZE * i + ENTRY_SIZE);
    } else {
      W.Suffix(DptTable(dpt[..n]), DptBytes(dpt[n]));
    }
  }

  function EightAt(b: Bytestring, i: nat): u64
    requires i + 8 <= |b|
  {
    DecodeBound(b[i..i + 8]);
    Powers();
    Decode(b[i..i + 8])
  }

  function ReadAtt(b: Bytestring, at: nat): Att
    requires at + ENTRY_SIZE <= |b|
  {
    Att(EightAt(b, at), EightAt(b, at + 8))
  }

  function ReadDpt(b: Bytestring, at: nat): Dpt
    requires at + ENTRY_SIZE <= |b|
  {
    Dpt(FourAt(b, at), ToSigned(FourAt(b, at + 4)), EightAt(b, at + 8))
  }

  lemma AttReadsBack(b: Bytestring, at: nat, e: Att)
    requires at + ENTRY_SIZE <= |b| && b[at..at + ENTRY_SIZE] == AttBytes(e)
    ensures ReadAtt(b, at) == e
  {
    Powers();
    DecodeField(8, e.id);
    DecodeField(8, e.startLSN);
    W.Part(b, at, ENTRY_SIZE, 0, 8);
    W.Part(b, at, ENTRY_SIZE, 8, 16);
    assert AttBytes(e)[0..8] == Encode(8, e.id) && AttBytes(e)[8..16] == Encode(8, e.startLSN);
  }

  lemma DptReadsBack(b: Bytestring, at: nat, e: Dpt)
    requires at + ENTRY_SIZE <= |b| && b[at..at + ENTRY_SIZE] == DptBytes(e)
    ensures ReadDpt(b, at) == e
  {
    Powers();
    DecodeField(4, e.oid);
    DecodeField(4, ToUnsigned(e.page));
    DecodeField(8, e.recLSN);
    W.Part(b, at, ENTRY_SIZE, 0, 4);
    W.Part(b, at, ENTRY_SIZE, 4, 8);
    W.Part(b, at, ENTRY_SIZE, 8, 16);
    var d := DptBytes(e);
    assert d[0..4] == Encode(4, e.oid) && d[4..8] == Encode(4, ToUnsigned(e.page)) && d[8..16] == Encode(8, e.recLSN);
  }

  /** Where everything is: the two counts before their tables; transaction and start LSN in an entry
      of the first, object, page and recLSN in one of the second. */
  lemma Layout(att: seq<Att>, dpt: seq<Dpt>)
    requires |att| < 0x8000_0000 && |dpt| < 0x8000_0000
    ensures var b := PayloadOf(att, dpt); var n := 4 + 16 * |att|;
            && |b| == n + 4 + 16 * |dpt|
            && Decode(b[0..4]) == |att| && Decode(b[n..n + 4]) == |dpt|
            && (forall i :: 0 <= i < |att| ==> AttPlaced(b, 4 + 16 * i, att[i]))
            && (forall i :: 0 <= i < |dpt| ==> DptPlaced(b, n + 4 + 16 * i, dpt[i]))
  {
    var b := PayloadOf(att, dpt);
    Tables(b, att, dpt);
    forall i | 0 <= i < |att| ensures AttPlaced(b, 4 + 16 * i, att[i]) { AttEntry(b, att, dpt, i); }
    forall i | 0 <= i < |dpt| ensures DptPlaced(b, 8 + 16 * |att| + 16 * i, dpt[i]) { DptEntry(b, att, dpt, i); }
  }

  predicate AttPlaced(b: Bytestring, at: nat, e: Att) {
    at + 16 <= |b| && Decode(b[at..at + 8]) == e.id && Decode(b[at + 8..at + 16]) == e.startLSN
  }

  predicate DptPlaced(b: Bytestring, at: nat, e: Dpt) {
    && at + 16 <= |b| && Decode(b[at..at + 4]) == e.oid
    && Decode(b[at + 4..at + 8]) == (if e.page < 0 then 0x1_0000_0000 + e.page else e.page)
    && Decode(b[at + 8..at + 16]) == e.recLSN
  }

  /** The two loops of the analysis over the data of an end-of-checkpoint record: a payload that was
      filled in reads back as the tables it was filled from. */
  method ReadPayload(data: Bytestring, ghost att0: seq<Att>, ghost dpt0: seq<Dpt>) returns (att: seq<Att>, dpt: seq<Dpt>)
    requires data == PayloadOf(att0, dpt0) && |att0| < 0x8000_0000 && |dpt0| < 0x8000_0000
    ensures att == att0 && dpt == dpt0
  {
    Tables(data, att0, dpt0);
    var numAT := ToSigned(FourAt(data, 0));
    att := [];
    for i := 0 to numAT
      invariant att == att0[..i]
    {
      var base := 4 + i * ENTRY_SIZE;
      AttEntry(data, att0, dpt0, i);
      att := att + [ReadAtt(data, base)];
    }
    var totalATTSize := 4 + ENTRY_SIZE * numAT;
    var numDP := ToSigned(FourAt(data, totalATTSize));
    dpt := [];
    for i := 0 to numDP
      invariant dpt == dpt0[..i]
    {
      var base := totalATTSize + 4 + i * ENTRY_SIZE;
      DptEntry(data, att0, dpt0, i);
      dpt := dpt + [ReadDpt(data, base)];
    }
  }

  lemma CountReadsBack(b: Bytestring, at: nat, n: nat)
    requires n < 0x8000_0000 && at + 4 <= |b| && b[at..at + 4] == Encode(4, n)
    ensures FourAt(b, at) == n
  {
    Powers();
    DecodeField(4, n);
  }

  lemma Tables(data: Bytestring, att: seq<Att>, dpt: seq<Dpt>)
    requires data == PayloadOf(att, dpt) && |att| < 0x8000_0000 && |dpt| < 0x8000_0000
    ensures var n := 4 + ENTRY_SIZE * |att|;
            && FourAt(data, 0) == |att| && FourAt(data, n) == |dpt|
            && data[4..n] == AttTable(att) && data[n + 4..] == DptTable(dpt)
  {
    W.Quarters(Encode(4, |att|), AttTable(att), Encode(4, |dpt|), DptTable(dpt));
    CountReadsBack(data, 0, |att|);
    CountReadsBack(data, 4 + ENTRY_SIZE * |att|, |dpt|);
  }

  lemma AttEntry(data: Bytestring, att: seq<Att>, dpt: seq<Dpt>, i: nat)
    requires data == PayloadOf(att, dpt) && i < |att| < 0x8000_0000 && |dpt| < 0x8000_0000
    ensures 4 + i * ENTRY_SIZE + ENTRY_SIZE <= |data| && ReadAtt(data, 4 + i * ENTRY_SIZE) == att[i]
  {
    Tables(data, att, dpt);
    AttAt(att, i);
    W.Part(data, 4, ENTRY_SIZE * |att|, ENTRY_SIZE * i, ENTRY_SIZE * i + ENTRY_SIZE);
    AttReadsBack(data, 4 + i * ENTRY_SIZE, att[i]);
  }

  lemma DptEntry(data: Bytestring, att: seq<Att>, dpt: seq<Dpt>, i: nat)
    requires data == PayloadOf(att, dpt) && i < |dpt| < 0x8000_0000 && |att| < 0x8000_0000
    ensures var base := 8 + ENTRY_SIZE * |att| + i * ENTRY_SIZE;
            base + ENTRY_SIZE <= |data| && ReadDpt(data, base) == dpt[i]
  {
    Tables(data, att, dpt);
    DptAt(dpt, i);
    W.Part(data, 8 + ENTRY_SIZE * |att|, ENTRY_SIZE * |dpt|, ENTRY_SIZE * i, ENTRY_SIZE * i + ENTRY_SIZE);
    DptReadsBack(data, 8 + ENTRY_SIZE * |att| + i * ENTRY_SIZE, dpt[i]);
  }

  // ---------------------------------------------------------------- the size of the record

  function EndRecord(att: seq<Att>, dpt: seq<Dpt>): Record { EndCheckpoint(PayloadOf(att, dpt)) }

  /** Wherever it lies in the log, recovery reads an end-of-checkpoint record if and only if the two
      tables have at most 4094 entries together. */
  lemma EndRecordReadIff(pre: Bytestring, att: seq<Att>, dpt: seq<Dpt>, rest: Bytestring, crc: Checksum)
    ensures var b := Serialize(EndRecord(att, dpt), crc);
            LF.NextRecord(pre + b + rest, |pre|, crc) == LF.Bytes(b) <==> |att| + |dpt| <= MAX_ENTRIES
  {
    LF.RecordReturnedIff(pre, EndRecord(att, dpt), rest, crc);
  }

  /** With one entry more, analysis and redo stop at the record without an error, and whatever
      follows it in the log is not seen. */
  lemma ScanStopsAtLargeCheckpoint(pre: Bytestring, att: seq<Att>, dpt: seq<Dpt>, rest: Bytestring, crc: Checksum)
    requires |att| + |dpt| == MAX_ENTRIES + 1
    ensures LF.Scan(pre + Serialize(EndRecord(att, dpt), crc) + rest, |pre|, crc) == []
  {
    LF.ScanStopsAtZeroSize(pre, EndRecord(att, dpt), rest, crc);
  }
}
