/** Record constructors and `WriteToLog`, which fill byte buffers in place. */
module LogWriter {
  import opened Bytes
  import opened LogCodec

  /** `old` with `src` from position `at` on. */
  function Spliced(before: Bytestring, at: nat, src: Bytestring): (after: Bytestring)
    requires at + |src| <= |before|
    ensures |after| == |before|
  {
    before[..at] + src + before[at + |src|..]
  }

  lemma SplicedTwice(before: Bytestring, at: nat, a: Bytestring, b: Bytestring)
    requires at + |a| + |b| <= |before|
    ensures Spliced(Spliced(before, at, a), at + |a|, b) == Spliced(before, at, a + b)
  {
  }

  lemma SplicedMore(before: Bytestring, at: nat, a: Bytestring, b: Bytestring, c: Bytestring)
    requires at + |a| + |b| + |c| <= |before|
    ensures Spliced(Spliced(before, at, a + b), at + |a| + |b|, c) == Spliced(before, at, a + (b + c))
  {
    SplicedTwice(before, at, a + b, c);
    assert (a + b) + c == a + (b + c);
  }

  lemma Inner(a: Bytestring, b: Bytestring, i: nat, j: nat)
    requires i <= j <= |a|
    ensures (a + b)[i..j] == a[i..j]
  {
  }

  lemma Suffix(a: Bytestring, b: Bytestring)
    ensures (a + b)[|a|..|a| + |b|] == b
  {
  }

  lemma Part(b: Bytestring, at: nat, n: nat, i: nat, j: nat)
    requires at + n <= |b| && i <= j <= n
    ensures b[at..at + n][i..j] == b[at + i..at + j]
  {
    var part := b[at..at + n];
    forall k | 0 <= k < j - i ensures part[i..j][k] == b[at + i..at + j][k] { assert part[i + k] == b[at + (i + k)]; }
  }

  lemma Quarters(a: Bytestring, b: Bytestring, c: Bytestring, d: Bytestring)
    ensures var s := (a + b) + (c + d); var m := |a| + |b|;
            s[..|a|] == a && s[|a|..m] == b && s[m..m + |c|] == c && s[m + |c|..] == d
  {
    var s, m := (a + b) + (c + d), |a| + |b|;
    assert s[..m] == a + b && s[m..] == c + d;
    Halved(a, b);
    Halved(c, d);
    assert s[|a|..m] == s[..m][|a|..] && s[m..m + |c|] == s[m..][..|c|];
    assert s[..|a|] == s[..m][..|a|] && s[m + |c|..] == s[m..][|c|..];
  }

  lemma Halved(a: Bytestring, b: Bytestring)
    ensures (a + b)[..|a|] == a && (a + b)[|a|..] == b
  {
  }

  /** A buffer filled up to its end. */
  lemma Filled(before: Bytestring, at: nat, src: Bytestring)
    requires at + |src| == |before|
    ensures Spliced(before, at, src)[at..] == src
  {
  }

  method Copy(buf: array<byte>, at: nat, src: Bytestring)
    requires at + |src| <= buf.Length
    modifies buf
    ensures buf[..] == Spliced(old(buf[..]), at, src)
  {
    for i := 0 to |src|
      invariant buf[at..at + i] == src[..i]
      invariant buf[..at] == old(buf[..at]) && buf[at + |src|..] == old(buf[at + |src|..])
    {
      buf[at + i] := src[i];
    }
    assert buf[..] == buf[..at] + buf[at..at + |src|] + buf[at + |src|..];
  }

  method PutUint(buf: array<byte>, at: nat, n: nat, x: nat)
    requires at + n <= buf.Length
    modifies buf
    ensures buf[..] == Spliced(old(buf[..]), at, Encode(n, x))
  {
    Copy(buf, at, Encode(n, x));
  }

  /** Serializes a record into the front of a buffer: size and checksum are filled in, and the
      checksum covers the whole rest of the buffer. */
  method WriteToLog(data: Bytestring, buffer: array<byte>, crc: Checksum)
    requires HEADER_SIZE <= |data| <= buffer.Length
    modifies buffer
    ensures buffer[..] == Written(data, old(buffer[|data|..]), crc)
  {
    ghost var rest := buffer[|data|..];
    Copy(buffer, 0, data);
    PutUint(buffer, 0, 2, |data|);
    assert buffer[6..] == data[6..] + rest;
    PutUint(buffer, 2, 4, crc(buffer[6..]));
    assert buffer[..] == Written(data, rest, crc);
  }

  function Written(data: Bytestring, rest: Bytestring, crc: Checksum): Bytestring
    requires |data| >= HEADER_SIZE
  {
    var body := data[6..] + rest;
    Encode(2, |data|) + Encode(4, crc(body)) + body
  }

  /** What a constructor has put behind the checksum. */
  predicate Holds(data: Bytestring, r: Record) {
    |data| == SizeOf(r) && data[6..] == Encode(2, TypeCode(r)) + Payload(r)
  }

  /** Written into a buffer of its own size, a constructed record is serialized. */
  lemma WrittenIsSerialized(data: Bytestring, r: Record, crc: Checksum)
    requires Holds(data, r)
    ensures Written(data, [], crc) == Serialize(r, crc)
  {
    assert data[6..] + [] == data[6..];
  }

  /** In a longer buffer the record verifies exactly when the bytes behind it do not change the
      checksum. */
  lemma LongerBufferVerifiesIff(data: Bytestring, r: Record, rest: Bytestring, crc: Checksum)
    requires Holds(data, r) && Constructible(r) && SizeOf(r) < 0x1_0000
    ensures Verified(Written(data, rest, crc)[..|data|], crc) <==> crc(data[6..] + rest) == crc(data[6..])
  {
    var body := data[6..];
    var sum := crc(body + rest);
    Front(Encode(2, |data|) + Encode(4, sum), body, rest);
    Fields(Encode(2, |data|), Encode(4, sum), Encode(2, TypeCode(r)), Payload(r));
    Powers();
    DecodeField(2, |data|);
    DecodeField(4, sum);
    DecodeField(2, TypeCode(r));
    SumDecides(Written(data, rest, crc)[..|data|], r, sum, crc);
  }

  /** Of well-formed bytes only the checksum is in question. */
  lemma SumDecides(b: Bytestring, r: Record, sum: u32, crc: Checksum)
    requires |b| == SizeOf(r) < 0x1_0000 && Constructible(r)
    requires SizeField(b) == |b| && TypeField(b) == TypeCode(r) && Decode(b[2..6]) == sum
    ensures Verified(b, crc) <==> sum == crc(b[6..])
  {
  }

  lemma Front(head: Bytestring, body: Bytestring, rest: Bytestring)
    ensures (head + (body + rest))[..|head| + |body|] == head + body
  {
  }

  // ---------------------------------------------------------------- constructors

  method NewUpdateRecord(buf: array<byte>, t: u64, rid: Rid, before: Bytestring, after: Bytestring)
    requires |before| == |after| && buf.Length == RID_SIZE + |before| + |after|
    modifies buf
    ensures Holds(buf[..], Update(t, rid, after, before))
  {
    ghost var b, code := buf[..], Encode(2, 5);
    PutUint(buf, 6, 2, 5);
    SplicedTwice(b, 6, code, Encode(8, t));
    PutUint(buf, 8, 8, t);
    SplicedTwice(b, 6, code + Encode(8, t), RidBytes(rid));
    Copy(buf, 16, RidBytes(rid));
    SplicedTwice(b, 6, code + Encode(8, t) + RidBytes(rid), after);
    Copy(buf, RID_SIZE, after);
    SplicedTwice(b, 6, code + Encode(8, t) + RidBytes(rid) + after, before);
    Copy(buf, RID_SIZE + |after|, before);
    Filled(b, 6, code + Encode(8, t) + RidBytes(rid) + after + before);
    Regroup(code, Encode(8, t), RidBytes(rid), after, before);
  }

  lemma Regroup(a: Bytestring, b: Bytestring, c: Bytestring, d: Bytestring, e: Bytestring)
    ensures a + b + c + d + e == a + ((b + c) + (d + e))
  {
  }

  /** The compensation of a data record. */
  function Compensation(r: Record): Record
    requires r.Insert? || r.Update? || r.Delete?
  {
    match r
    case Insert(t, rid, _) => InsertClr(t, rid)
    case Update(t, rid, _, before) => UpdateClr(t, rid, before)
    case Delete(t, rid) => DeleteClr(t, rid)
  }

  /** The data of a record with transaction and record id, and what follows them. */
  lemma DataOf(data: Bytestring, r: Record)
    requires Holds(data, r) && (r.Insert? || r.Update? || r.Delete?)
    ensures |data| >= RID_SIZE && data[8..28] == DataBytes(r.t, r.rid)
    ensures r.Update? ==> data[28..] == r.after + r.before
  {
    Behind(data[6..], Encode(2, TypeCode(r)), DataBytes(r.t, r.rid),
           if r.Insert? then r.after else if r.Update? then r.after + r.before else []);
    Take(data, 6, 2, 20);
  }

  lemma Behind(body: Bytestring, code: Bytestring, d: Bytestring, rest: Bytestring)
    requires |code| == 2 && |d| == 20 && (body == code + (d + rest) || (rest == [] && body == code + d))
    ensures body[2..22] == d && body[22..] == rest
  {
  }

  lemma Take(b: Bytestring, i: nat, j: nat, n: nat)
    requires i + j + n <= |b|
    ensures b[i..][j..j + n] == b[i + j..i + j + n] && b[i..][j + n..] == b[i + j + n..]
  {
  }

  method NewInsertClr(buf: array<byte>, data: Bytestring, ghost r: Record)
    requires r.Insert? && Holds(data, r) && buf.Length == RID_SIZE
    modifies buf
    ensures Holds(buf[..], Compensation(r))
  {
    DataOf(data, r);
    ghost var b := buf[..];
    PutUint(buf, 6, 2, 9);
    SplicedTwice(b, 6, Encode(2, 9), data[8..28]);
    Copy(buf, 8, data[8..28]);
    Filled(b, 6, Encode(2, 9) + data[8..28]);
  }

  method NewDeleteClr(buf: array<byte>, data: Bytestring, ghost r: Record)
    requires r.Delete? && Holds(data, r) && buf.Length == RID_SIZE
    modifies buf
    ensures Holds(buf[..], Compensation(r))
  {
    DataOf(data, r);
    Filled(buf[..], 0, data);
    Copy(buf, 0, data);
    assert buf[..] == buf[0..] == data;
    SplicedTwice(data, 6, Encode(2, 11), data[8..28]);
    PutUint(buf, 6, 2, 11);
    assert buf[..] == Spliced(buf[..], 8, data[8..28]);
    Filled(data, 6, Encode(2, 11) + data[8..28]);
  }

  /** The old image of the update becomes the new image of its compensation. */
  method NewUpdateClr(buf: array<byte>, data: Bytestring, ghost r: Record)
    requires r.Update? && Constructible(r) && Holds(data, r) && buf.Length == RID_SIZE + |r.before|
    modifies buf
    ensures Holds(buf[..], Compensation(r))
  {
    DataOf(data, r);
    TypeOfData(data, r);
    Halves(data, r.after, r.before);
    ghost var b := buf[..];
    PutUint(buf, 6, 2, 10);
    SplicedTwice(b, 6, Encode(2, 10), data[8..28]);
    Copy(buf, 8, data[8..28]);
    SplicedTwice(b, 6, Encode(2, 10) + data[8..28], r.before);
    Copy(buf, RID_SIZE, BeforeImage(data));
    Filled(b, 6, Encode(2, 10) + data[8..28] + r.before);
    assert Encode(2, 10) + data[8..28] + r.before == Encode(2, 10) + (data[8..28] + r.before);
  }

  lemma TypeOfData(data: Bytestring, r: Record)
    requires Holds(data, r)
    ensures TypeField(data) == TypeCode(r)
  {
    Powers();
    DecodeField(2, TypeCode(r));
    assert data[6..8] == data[6..][..2];
  }
}
