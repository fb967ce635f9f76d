/** The byte format of log records: what the constructors write, what the accessors read, and
    which bytes are accepted as a record. */
module LogCodec {
  import opened Bytes

  /** CRC-32, as an arbitrary function to 32 bits. */
  type Checksum = Bytestring -> u32
  type u32 = x: nat | x < 0x1_0000_0000
  type u64 = x: nat | x < 0x1_0000_0000_0000_0000
  type i32 = x: int | -0x8000_0000 <= x < 0x8000_0000

  datatype Rid = Rid(oid: u32, page: i32, slot: i32)

  /** A record as its constructor builds it. */
  datatype Record =
    | Begin(t: u64) | Commit(t: u64) | Abort(t: u64)
    | Insert(t: u64, rid: Rid, after: Bytestring)
    | Update(t: u64, rid: Rid, after: Bytestring, before: Bytestring)
    | Delete(t: u64, rid: Rid)
    | BeginCheckpoint | EndCheckpoint(payload: Bytestring)
    | InsertClr(t: u64, rid: Rid) | UpdateClr(t: u64, rid: Rid, after: Bytestring) | DeleteClr(t: u64, rid: Rid)

  const HEADER_SIZE := 8
  const TXN_SIZE := 16
  const RID_SIZE := 28

  /** Both images of an update have the same length. */
  predicate Constructible(r: Record) { r.Update? ==> |r.before| == |r.after| }

  // ---------------------------------------------------------------- encoding

  function TypeCode(r: Record): nat {
    match r
    case Begin(_) => 1 case Commit(_) => 2 case Abort(_) => 3
    case Insert(_, _, _) => 4 case Update(_, _, _, _) => 5 case Delete(_, _) => 6
    case BeginCheckpoint => 7 case EndCheckpoint(_) => 8
    case InsertClr(_, _) => 9 case UpdateClr(_, _, _) => 10 case DeleteClr(_, _) => 11
  }

  function ToUnsigned(i: i32): u32 { if i < 0 then i + 0x1_0000_0000 else i }
  function ToSigned(u: u32): i32 { if u >= 0x8000_0000 then u - 0x1_0000_0000 else u }

  function RidBytes(rid: Rid): (b: Bytestring)
    ensures |b| == 12
  {
    Encode(4, rid.oid) + Encode(4, ToUnsigned(rid.page)) + Encode(4, ToUnsigned(rid.slot))
  }

  function DataBytes(t: u64, rid: Rid): (b: Bytestring)
    ensures |b| == 20
  {
    Encode(8, t) + RidBytes(rid)
  }

  /** Everything behind the type. */
  function Payload(r: Record): Bytestring {
    match r
    case Begin(t) => Encode(8, t)
    case Commit(t) => Encode(8, t)
    case Abort(t) => Encode(8, t)
    case Insert(t, rid, after) => DataBytes(t, rid) + after
    case Update(t, rid, after, before) => DataBytes(t, rid) + (after + before)
    case Delete(t, rid) => DataBytes(t, rid)
    case BeginCheckpoint => []
    case EndCheckpoint(payload) => payload
    case InsertClr(t, rid) => DataBytes(t, rid)
    case UpdateClr(t, rid, after) => DataBytes(t, rid) + after
    case DeleteClr(t, rid) => DataBytes(t, rid)
  }

  function SizeOf(r: Record): nat { HEADER_SIZE + |Payload(r)| }

  /** The serialized form; the size field holds 16 bits. */
  function Serialize(r: Record, crc: Checksum): (b: Bytestring)
    ensures |b| == SizeOf(r)
  {
    var body := Encode(2, TypeCode(r)) + Payload(r);
    Encode(2, SizeOf(r)) + Encode(4, crc(body)) + body
  }

  // ---------------------------------------------------------------- the format

  /** The byte of each record type. */
  function TypeByte(r: Record): byte {
    if r.Begin? then 1 else if r.Commit? then 2 else if r.Abort? then 3
    else if r.Insert? then 4 else if r.Update? then 5 else if r.Delete? then 6
    else if r.BeginCheckpoint? then 7 else if r.EndCheckpoint? then 8
    else if r.InsertClr? then 9 else if r.UpdateClr? then 10 else 11
  }

  /** Where everything is: size in bytes 0 and 1, checksum of all that follows it in 2 to 5, type in
      6 and 7; then the transaction in 8 to 15, the record id in 16 to 27, and the images, the new
      one first. */
  lemma Layout(r: Record, crc: Checksum)
    ensures var b := Serialize(r, crc);
            && b[..2] == Encode(2, |b|) && b[2..6] == Encode(4, crc(b[6..])) && b[6] == TypeByte(r) && b[7] == 0
    ensures r.Begin? || r.Commit? || r.Abort? ==> Serialize(r, crc)[8..] == Encode(8, r.t)
    ensures HasRid(r) ==> |Serialize(r, crc)| >= 28 && RidLayout(Serialize(r, crc), r.t, r.rid)
    ensures var b := Serialize(r, crc);
            && (r.Insert? || r.UpdateClr? ==> b[28..] == r.after)
            && (r.Update? ==> |b| == 28 + |r.after| + |r.before| && b[28..28 + |r.after|] == r.after && b[28 + |r.after|..] == r.before)
            && (r.Delete? || r.InsertClr? || r.DeleteClr? ==> |b| == 28)
            && (r.BeginCheckpoint? ==> |b| == 8) && (r.EndCheckpoint? ==> b[8..] == r.payload)
  {
    HeaderFields(r, crc);
    var b := Serialize(r, crc);
    assert b[6] == b[6..8][0] && b[7] == b[6..8][1];
    if HasRid(r) {
      var rest := Payload(r)[20..];
      assert Payload(r) == DataBytes(r.t, r.rid) + rest;
      RidPlaces(b, r.t, r.rid, rest);
      if r.Update? {
        assert b[28..28 + |r.after|] == rest[..|r.after|] && b[28 + |r.after|..] == rest[|r.after|..];
      }
    }
  }

  predicate HasRid(r: Record) {
    r.Insert? || r.Update? || r.Delete? || r.InsertClr? || r.UpdateClr? || r.DeleteClr?
  }

  /** Page and slot numbers are in two's complement. */
  predicate RidLayout(b: Bytestring, t: u64, rid: Rid)
    requires |b| >= 28
  {
    && b[8..16] == Encode(8, t) && b[16..20] == Encode(4, rid.oid)
    && b[20..24] == Encode(4, if rid.page < 0 then 0x1_0000_0000 + rid.page else rid.page)
    && b[24..28] == Encode(4, if rid.slot < 0 then 0x1_0000_0000 + rid.slot else rid.slot)
  }

  lemma RidPlaces(b: Bytestring, t: u64, rid: Rid, rest: Bytestring)
    requires |b| >= 8 && b[8..] == DataBytes(t, rid) + rest
    ensures |b| >= 28 && RidLayout(b, t, rid) && b[28..] == rest
  {
    var p := b[8..];
    assert b[8..16] == p[..8] && b[16..20] == p[8..12] && b[20..24] == p[12..16] && b[24..28] == p[16..20];
    assert b[28..] == p[20..] == rest;
  }

  // ---------------------------------------------------------------- reading

  function SizeField(b: Bytestring): nat
    requires |b| >= 2
  {
    Decode(b[..2])
  }

  function TypeField(b: Bytestring): nat
    requires |b| >= HEADER_SIZE
  {
    Decode(b[6..8])
  }

  /** The checks made before bytes are taken for a record; unknown types pass. */
  predicate Verified(b: Bytestring, crc: Checksum) {
    && |b| >= HEADER_SIZE
    && SizeField(b) >= 8 && SizeField(b) == |b| % 0x1_0000
    && Decode(b[2..6]) == crc(b[6..])
    && SizeFits(TypeField(b), SizeField(b))
  }

  predicate SizeFits(code: nat, size: nat) {
    if code == 1 || code == 2 || code == 3 then size == TXN_SIZE
    else if code == 4 || code == 10 then size >= RID_SIZE
    else if code == 5 then size >= RID_SIZE && (size - RID_SIZE) % 2 == 0
    else if code == 6 || code == 9 || code == 11 then size == RID_SIZE
    else if code == 7 then size == HEADER_SIZE
    else code == 8 ==> size >= HEADER_SIZE
  }

  function TxnIdAt(b: Bytestring): u64
    requires |b| >= TXN_SIZE
  {
    DecodeBound(b[8..16]);
    Powers();
    Decode(b[8..16])
  }

  function FourAt(b: Bytestring, i: nat): u32
    requires i + 4 <= |b|
  {
    DecodeBound(b[i..i + 4]);
    Powers();
    Decode(b[i..i + 4])
  }

  function RidAt(b: Bytestring): Rid
    requires |b| >= RID_SIZE
  {
    Rid(FourAt(b, 16), ToSigned(FourAt(b, 20)), ToSigned(FourAt(b, 24)))
  }

  /** The first half of what follows the record id of an update is the new image. */
  function AfterImage(b: Bytestring): Bytestring
    requires |b| >= RID_SIZE
  {
    if TypeField(b) == 5 then b[RID_SIZE..RID_SIZE + (|b| - RID_SIZE) / 2] else b[RID_SIZE..]
  }

  function BeforeImage(b: Bytestring): Bytestring
    requires |b| >= RID_SIZE
  {
    b[RID_SIZE + (|b| - RID_SIZE) / 2..]
  }

  /** What the accessors say about verified bytes of a known type. */
  function Read(b: Bytestring, crc: Checksum): Record
    requires Verified(b, crc) && |b| < 0x1_0000 && 1 <= TypeField(b) <= 11
  {
    match TypeField(b)
    case 1 => Begin(TxnIdAt(b))
    case 2 => Commit(TxnIdAt(b))
    case 3 => Abort(TxnIdAt(b))
    case 4 => Insert(TxnIdAt(b), RidAt(b), AfterImage(b))
    case 5 => Update(TxnIdAt(b), RidAt(b), AfterImage(b), BeforeImage(b))
    case 6 => Delete(TxnIdAt(b), RidAt(b))
    case 7 => BeginCheckpoint
    case 8 => EndCheckpoint(b[HEADER_SIZE..])
    case 9 => InsertClr(TxnIdAt(b), RidAt(b))
    case 10 => UpdateClr(TxnIdAt(b), RidAt(b), AfterImage(b))
    case _ => DeleteClr(TxnIdAt(b), RidAt(b))
  }

  // ---------------------------------------------------------------- round trips

  lemma DecodeField(n: nat, x: nat)
    requires x < Power256(n)
    ensures Decode(Encode(n, x)) == x
  {
    DecodeEncode(n, x);
  }

  lemma HeaderFields(r: Record, crc: Checksum)
    ensures var b, body := Serialize(r, crc), Encode(2, TypeCode(r)) + Payload(r);
            && b[..2] == Encode(2, SizeOf(r)) && b[2..6] == Encode(4, crc(body)) && b[6..] == body
            && b[6..8] == Encode(2, TypeCode(r)) && b[8..] == Payload(r)
  {
    var body := Encode(2, TypeCode(r)) + Payload(r);
    Fields(Encode(2, SizeOf(r)), Encode(4, crc(body)), Encode(2, TypeCode(r)), Payload(r));
  }

  lemma Fields(size: Bytestring, sum: Bytestring, code: Bytestring, payload: Bytestring)
    requires |size| == 2 && |sum| == 4 && |code| == 2
    ensures var b := size + sum + (code + payload);
            b[..2] == size && b[2..6] == sum && b[6..] == code + payload && b[6..8] == code && b[8..] == payload
  {
    var b := size + sum + (code + payload);
    assert b[6..8] == (code + payload)[..2] && b[8..] == (code + payload)[2..];
  }

  lemma DataFields(b: Bytestring, t: u64, rid: Rid, rest: Bytestring)
    requires |b| >= HEADER_SIZE && b[8..] == DataBytes(t, rid) + rest
    ensures |b| >= RID_SIZE && TxnIdAt(b) == t && RidAt(b) == rid && b[RID_SIZE..] == rest
  {
    Powers();
    var p := b[8..];
    assert b[8..16] == p[..8] == Encode(8, t);
    assert b[16..20] == p[8..12] == Encode(4, rid.oid);
    assert b[20..24] == p[12..16] == Encode(4, ToUnsigned(rid.page));
    assert b[24..28] == p[16..20] == Encode(4, ToUnsigned(rid.slot));
    assert b[28..] == p[20..] == rest;
    DecodeField(8, t);
    DecodeField(4, rid.oid);
    DecodeField(4, ToUnsigned(rid.page));
    DecodeField(4, ToUnsigned(rid.slot));
  }

  /** A constructed record shorter than 65536 bytes is accepted. */
  lemma SerializedVerifies(r: Record, crc: Checksum)
    requires Constructible(r) && SizeOf(r) < 0x1_0000
    ensures Verified(Serialize(r, crc), crc) && TypeField(Serialize(r, crc)) == TypeCode(r)
  {
    Powers();
    HeaderFields(r, crc);
    DecodeField(2, SizeOf(r));
    DecodeField(4, crc(Encode(2, TypeCode(r)) + Payload(r)));
    DecodeField(2, TypeCode(r));
  }

  /** And reads back as what was written. */
  lemma ReadSerialized(r: Record, crc: Checksum)
    requires Constructible(r) && SizeOf(r) < 0x1_0000
    ensures Verified(Serialize(r, crc), crc) && 1 <= TypeField(Serialize(r, crc)) <= 11
    ensures Read(Serialize(r, crc), crc) == r
  {
    var b := Serialize(r, crc);
    SerializedVerifies(r, crc);
    HeaderFields(r, crc);
    match r
    case Insert(t, rid, after) => DataFields(b, t, rid, after);
    case Update(t, rid, after, before) =>
      DataFields(b, t, rid, after + before);
      Halves(b, after, before);
    case UpdateClr(t, rid, after) => DataFields(b, t, rid, after);
    case Delete(t, rid) => NoImage(b, t, rid);
    case InsertClr(t, rid) => NoImage(b, t, rid);
    case DeleteClr(t, rid) => NoImage(b, t, rid);
    case BeginCheckpoint =>
    case EndCheckpoint(_) =>
    case _ => TxnField(b, r.t);
  }

  lemma TxnField(b: Bytestring, t: u64)
    requires |b| >= HEADER_SIZE && b[8..] == Encode(8, t)
    ensures |b| == TXN_SIZE && TxnIdAt(b) == t
  {
    Powers();
    DecodeField(8, t);
    assert b[8..16] == b[8..];
  }

  lemma NoImage(b: Bytestring, t: u64, rid: Rid)
    requires |b| >= HEADER_SIZE && b[8..] == DataBytes(t, rid)
    ensures |b| >= RID_SIZE && TxnIdAt(b) == t && RidAt(b) == rid
  {
    assert DataBytes(t, rid) + [] == DataBytes(t, rid);
    DataFields(b, t, rid, []);
  }

  lemma Halves(b: Bytestring, after: Bytestring, before: Bytestring)
    requires |b| >= RID_SIZE && b[RID_SIZE..] == after + before && |after| == |before| && TypeField(b) == 5
    ensures AfterImage(b) == after && BeforeImage(b) == before
  {
    var n := |after|;
    assert (|b| - RID_SIZE) / 2 == n;
    assert b[RID_SIZE..RID_SIZE + n] == b[RID_SIZE..][..n];
    assert b[RID_SIZE + n..] == b[RID_SIZE..][n..];
  }

  lemma EncodeAt(b: Bytestring, i: nat, n: nat)
    requires i + n <= |b|
    ensures Encode(n, Decode(b[i..i + n])) == b[i..i + n]
  {
    EncodeDecode(b[i..i + n]);
  }

  /** Conversely, accepted bytes of a known type are the serialized form of what is read. */
  lemma SerializeRead(b: Bytestring, crc: Checksum)
    requires Verified(b, crc) && |b| < 0x1_0000 && 1 <= TypeField(b) <= 11
    ensures Constructible(Read(b, crc)) && Serialize(Read(b, crc), crc) == b
  {
    PayloadRead(b, crc);
    Header(b);
  }

  lemma Header(b: Bytestring)
    requires |b| >= HEADER_SIZE
    ensures b[6..] == Encode(2, TypeField(b)) + b[8..]
    ensures b == Encode(2, SizeField(b)) + Encode(4, Decode(b[2..6])) + b[6..]
  {
    EncodeAt(b, 0, 2);
    EncodeAt(b, 2, 4);
    EncodeAt(b, 6, 2);
    assert b[6..] == b[6..8] + b[8..];
    assert b == (b[..2] + b[2..6]) + b[6..];
  }

  lemma PayloadRead(b: Bytestring, crc: Checksum)
    requires Verified(b, crc) && |b| < 0x1_0000 && 1 <= TypeField(b) <= 11
    ensures var r := Read(b, crc); Constructible(r) && TypeCode(r) == TypeField(b) && Payload(r) == b[8..]
  {
    if TypeField(b) <= 3 {
      EncodeAt(b, 8, 8);
      assert b[8..16] == b[8..];
    } else if TypeField(b) != 7 && TypeField(b) != 8 {
      DataRead(b);
      if TypeField(b) == 5 {
        var n := (|b| - RID_SIZE) / 2;
        assert b[RID_SIZE..] == AfterImage(b) + BeforeImage(b);
      }
    }
  }

  lemma DataRead(b: Bytestring)
    requires |b| >= RID_SIZE
    ensures DataBytes(TxnIdAt(b), RidAt(b)) == b[8..28] && DataBytes(TxnIdAt(b), RidAt(b)) + b[28..] == b[8..]
    ensures |b| == RID_SIZE ==> DataBytes(TxnIdAt(b), RidAt(b)) == b[8..]
  {
    EncodeAt(b, 8, 8);
    EncodeAt(b, 16, 4);
    EncodeAt(b, 20, 4);
    EncodeAt(b, 24, 4);
    Join(b, 16, 20, 24);
    Join(b, 16, 24, 28);
    Join(b, 8, 16, 28);
    Join(b, 8, 28, |b|);
  }

  lemma Join(b: Bytestring, i: nat, j: nat, k: nat)
    requires i <= j <= k <= |b|
    ensures b[i..k] == b[i..j] + b[j..k]
  {
  }
}
