/** Byte strings, and little-endian encodings of fixed width. */
module Bytes {
  type byte = x: int | 0 <= x < 256
  type Bytestring = seq<byte>

  function Power256(n: nat): nat { if n == 0 then 1 else 256 * Power256(n - 1) }

  /** The `n` low bytes of `x`, lowest first. */
  function Encode(n: nat, x: nat): (b: seq<byte>)
    ensures |b| == n
  {
    if n == 0 then [] else [x % 256] + Encode(n - 1, x / 256)
  }

  function Decode(b: seq<byte>): nat {
    if b == [] then 0 else b[0] + 256 * Decode(b[1..])
  }

  /** Lowest byte first: what lies behind the first `i` bytes has the weight 256 to the power of `i`. */
  lemma {:induction false} ByteOrder(b: seq<byte>, i: nat)
    requires i <= |b|
    ensures Decode(b) == Decode(b[..i]) + Power256(i) * Decode(b[i..])
    ensures |b| == 1 ==> Decode(b) == b[0]
  {
    if i > 0 {
      var tail := b[1..];
      ByteOrder(tail, i - 1);
      assert b[..i][1..] == tail[..i - 1] && tail[i - 1..] == b[i..];
      Regroup(Power256(i - 1), Decode(b[i..]));
    } else {
      assert b[0..] == b;
    }
  }

  lemma Regroup(p: nat, d: nat)
    ensures 256 * (p * d) == (256 * p) * d
  {
  }

  lemma {:induction false} DecodeEncode(n: nat, x: nat)
    requires x < Power256(n)
    ensures Decode(Encode(n, x)) == x
  {
    if n > 0 {
      DecodeEncode(n - 1, x / 256);
      assert Encode(n, x)[1..] == Encode(n - 1, x / 256);
    }
  }

  /** Encodings of numbers that fit are different. */
  lemma EncodeInjective(n: nat, x: nat, y: nat)
    requires x < Power256(n) && y < Power256(n) && Encode(n, x) == Encode(n, y)
    ensures x == y
  {
    DecodeEncode(n, x);
    DecodeEncode(n, y);
  }

  lemma {:induction false} DecodeBound(b: seq<byte>)
    ensures Decode(b) < Power256(|b|)
  {
    if b != [] { DecodeBound(b[1..]); }
  }

  lemma {:induction false} EncodeDecode(b: seq<byte>)
    ensures Encode(|b|, Decode(b)) == b
  {
    if b != [] {
      EncodeDecode(b[1..]);
      assert Decode(b) / 256 == Decode(b[1..]) && Decode(b) % 256 == b[0];
      assert b == [b[0]] + b[1..];
    }
  }

  lemma Powers()
    ensures Power256(2) == 0x1_0000 && Power256(4) == 0x1_0000_0000 && Power256(8) == 0x1_0000_0000_0000_0000
  {
    assert Power256(1) == 256 && Power256(2) == 0x1_0000 && Power256(3) == 0x100_0000 && Power256(4) == 0x1_0000_0000;
    assert Power256(5) == 0x100_0000_0000 && Power256(6) == 0x1_0000_0000_0000 && Power256(7) == 0x100_0000_0000_0000;
  }

  // ---------------------------------------------------------------- byte strings back to back

  function Concat(rs: seq<Bytestring>): Bytestring {
    if rs == [] then [] else Concat(rs[..|rs| - 1]) + rs[|rs| - 1]
  }

  lemma ConcatAppend(rs: seq<Bytestring>, r: Bytestring)
    ensures Concat(rs + [r]) == Concat(rs) + r
  {
    assert (rs + [r])[..|rs|] == rs;
  }

  lemma {:induction false} ConcatPrefix(rs: seq<Bytestring>, k: nat)
    requires k <= |rs|
    ensures Concat(rs[..k]) <= Concat(rs)
    decreases |rs|
  {
    if k < |rs| {
      ConcatPrefix(rs[..|rs| - 1], k);
      assert rs[..|rs| - 1][..k] == rs[..k];
    } else {
      assert rs[..k] == rs;
    }
  }

  /** The `k`-th string lies behind the first `k`. */
  lemma ConcatAt(rs: seq<Bytestring>, k: nat)
    requires k < |rs|
    ensures var a, n := |Concat(rs[..k])|, |rs[k]|;
            && |Concat(rs[..k + 1])| == a + n <= |Concat(rs)| && Concat(rs)[a..a + n] == rs[k]
  {
    assert rs[..k + 1] == rs[..k] + [rs[k]];
    ConcatAppend(rs[..k], rs[k]);
    ConcatPrefix(rs, k + 1);
    var a, n := |Concat(rs[..k])|, |rs[k]|;
    assert Concat(rs)[a..a + n] == Concat(rs)[..a + n][a..];
  }
}
