/** Values, tuples of values and their order. */
module Values {
  const MIN_INT64 := -0x8000_0000_0000_0000
  const MAX_INT64 := 0x7FFF_FFFF_FFFF_FFFF

  type int64 = x: int | MIN_INT64 <= x <= MAX_INT64

  datatype Type = IntType | StringType
  datatype Value = Int(i: int64) | Str(s: string) | NullInt | NullStr

  function TypeOf(v: Value): Type { if v.Int? || v.NullInt? then IntType else StringType }

  predicate IsNull(v: Value) { v.NullInt? || v.NullStr? }

  function NullOf(t: Type): Value { if t == IntType then NullInt else NullStr }

  type Row = seq<Value>

  /** Two's complement wrap-around. */
  function Wrap(x: int): (r: int64)
    ensures (x - r) % 0x1_0000_0000_0000_0000 == 0
    ensures MIN_INT64 <= x <= MAX_INT64 ==> r == x
  {
    (x + 0x8000_0000_0000_0000) % 0x1_0000_0000_0000_0000 - 0x8000_0000_0000_0000
  }

  /** Division truncates toward zero. */
  function Quotient(a: int, b: int): (q: int)
    requires b != 0
  {
    var m := (if a < 0 then -a else a) / (if b < 0 then -b else b);
    if (a < 0) == (b < 0) then m else -m
  }

  // ---------------------------------------------------------------- order

  /** Byte-wise lexicographic comparison. */
  function CompareStrings(s: string, t: string): (c: int)
    ensures c == -1 || c == 0 || c == 1
    ensures c == 0 <==> s == t
  {
    if s == [] && t == [] then 0
    else if s == [] then -1
    else if t == [] then 1
    else if s[0] < t[0] then -1
    else if s[0] > t[0] then 1
    else
      assert s == [s[0]] + s[1..] && t == [t[0]] + t[1..];
      CompareStrings(s[1..], t[1..])
  }

  /** NULL sorts first; values of different types are not comparable. */
  function Compare(v: Value, w: Value): (c: int)
    requires TypeOf(v) == TypeOf(w)
    ensures c == -1 || c == 0 || c == 1
    ensures c == 0 <==> v == w
  {
    if IsNull(v) && IsNull(w) then 0
    else if IsNull(v) then -1
    else if IsNull(w) then 1
    else
      match v
      case Int(a) => if a < w.i then -1 else if a > w.i then 1 else 0
      case Str(s) => CompareStrings(s, w.s)
  }

  lemma {:induction false} StringsAntisymmetric(s: string, t: string)
    ensures CompareStrings(s, t) == -CompareStrings(t, s)
  {
    if s != [] && t != [] && s[0] == t[0] { StringsAntisymmetric(s[1..], t[1..]); }
  }

  lemma {:induction false} StringsTransitive(s: string, t: string, u: string)
    requires CompareStrings(s, t) <= 0 && CompareStrings(t, u) <= 0
    ensures CompareStrings(s, u) <= 0
  {
    if s != [] && t != [] && u != [] && s[0] == t[0] == u[0] { StringsTransitive(s[1..], t[1..], u[1..]); }
  }

  /** `s` is a proper prefix of `t`, or smaller at the first character in which they differ. */
  predicate SmallerString(s: string, t: string) {
    exists k :: 0 <= k <= |s| && k < |t| && s[..k] == t[..k] && (k == |s| || s[k] < t[k])
  }

  /** Ascending: NULL first, integers by value, strings by their first difference. */
  predicate SmallerValue(v: Value, w: Value) {
    || (v.NullInt? && w.Int?) || (v.NullStr? && w.Str?)
    || (v.Int? && w.Int? && v.i < w.i)
    || (v.Str? && w.Str? && SmallerString(v.s, w.s))
  }

  lemma HeadOfPrefix<T>(a: seq<T>, b: seq<T>)
    ensures forall k :: 0 < k <= |a| && k <= |b| && a[..k] == b[..k] ==> a[0] == b[0]
  {
    forall k | 0 < k <= |a| && k <= |b| && a[..k] == b[..k] ensures a[0] == b[0] {
      assert a[..k][0] == a[0] && b[..k][0] == b[0];
    }
  }

  lemma {:induction false} StringsIff(s: string, t: string)
    ensures CompareStrings(s, t) == -1 <==> SmallerString(s, t)
  {
    if s != [] && t != [] && s[0] == t[0] {
      StringsIff(s[1..], t[1..]);
      if SmallerString(s[1..], t[1..]) {
        var k :| 0 <= k <= |s[1..]| && k < |t[1..]| && s[1..][..k] == t[1..][..k] && (k == |s[1..]| || s[1..][k] < t[1..][k]);
        assert s[..k + 1] == [s[0]] + s[1..][..k] && t[..k + 1] == [t[0]] + t[1..][..k];
      }
      if SmallerString(s, t) {
        var k :| 0 <= k <= |s| && k < |t| && s[..k] == t[..k] && (k == |s| || s[k] < t[k]);
        assert k > 0;
        assert s[1..][..k - 1] == s[..k][1..] && t[1..][..k - 1] == t[..k][1..];
      }
    } else if s == [] && t != [] {
      assert s[..0] == t[..0];
    } else if s != [] && t != [] && s[0] < t[0] {
      assert s[..0] == t[..0];
    } else {
      HeadOfPrefix(s, t);
    }
  }

  /** `Compare` tells the smaller of two values of one type. */
  lemma CompareIff(v: Value, w: Value)
    requires TypeOf(v) == TypeOf(w)
    ensures Compare(v, w) == -1 <==> SmallerValue(v, w)
    ensures Compare(v, w) == 1 <==> SmallerValue(w, v)
  {
    if v.Str? && w.Str? {
      StringsIff(v.s, w.s);
      StringsIff(w.s, v.s);
      StringsAntisymmetric(v.s, w.s);
    }
  }

  /** `Compare` is a total order on the values of one type. */
  lemma CompareAntisymmetric(v: Value, w: Value)
    requires TypeOf(v) == TypeOf(w)
    ensures Compare(v, w) == -Compare(w, v)
  {
    if v.Str? && w.Str? { StringsAntisymmetric(v.s, w.s); }
  }

  lemma CompareTransitive(v: Value, w: Value, x: Value)
    requires TypeOf(v) == TypeOf(w) == TypeOf(x)
    requires Compare(v, w) <= 0 && Compare(w, x) <= 0
    ensures Compare(v, x) <= 0
  {
    if v.Str? && w.Str? && x.Str? { StringsTransitive(v.s, w.s, x.s); }
  }
}
