/** Integers and slices as bytes: fixed-width, varint and length-prefixed forms (coding.h,
    coding.cc). */
module Coding {
  type Byte = b: nat | b < 256

  datatype Parsed<+T> = Failed | Parsed(value: T, rest: seq<Byte>)

  const TWO_32: nat := 0x1_0000_0000
  const TWO_64: nat := 0x1_0000_0000_0000_0000

  lemma SliceOfSlice(s: seq<Byte>, lo: nat, hi: nat, i: nat, j: nat)
    requires lo <= hi <= |s| && i <= j <= hi - lo
    ensures s[lo..hi][i..j] == s[lo + i..lo + j]
  {
    var t, u := s[lo..hi], s[lo + i..lo + j];
    forall k | 0 <= k < j - i
      ensures t[i..j][k] == u[k]
    {
      assert t[i + k] == s[lo + (i + k)];
    }
  }

  // ----- fixed width, little endian -----

  function Fixed(v: nat, n: nat): (r: seq<Byte>)
    ensures |r| == n
    decreases n
  {
    if n == 0 then [] else [v % 256] + Fixed(v / 256, n - 1)
  }

  function Unfixed(bytes: seq<Byte>): nat {
    if bytes == [] then 0 else bytes[0] + 256 * Unfixed(bytes[1..])
  }

  function Pow(b: nat, n: nat): nat
    decreases n
  {
    if n == 0 then 1 else b * Pow(b, n - 1)
  }

  lemma {:induction false} FixedRoundTrip(v: nat, n: nat)
    ensures v < Pow(256, n) ==> Unfixed(Fixed(v, n)) == v
    decreases n
  {
    if n > 0 {
      assert Fixed(v, n)[1..] == Fixed(v / 256, n - 1);
      FixedRoundTrip(v / 256, n - 1);
      DivBelow(v, Pow(256, n - 1));
    }
  }

  lemma DivBelow(v: nat, p: nat)
    ensures v < 256 * p ==> v / 256 < p
  {
  }

  lemma SplitLow(low: Byte, high: nat)
    ensures (low + 256 * high) % 256 == low && (low + 256 * high) / 256 == high
  {
  }

  lemma {:induction false} UnfixedRoundTrip(bytes: seq<Byte>)
    ensures Unfixed(bytes) < Pow(256, |bytes|)
    ensures Fixed(Unfixed(bytes), |bytes|) == bytes
  {
    if bytes != [] {
      UnfixedRoundTrip(bytes[1..]);
      SplitLow(bytes[0], Unfixed(bytes[1..]));
      assert bytes == [bytes[0]] + bytes[1..];
    }
  }

  /** EncodeFixed32 and DecodeFixed32 are inverse on 32-bit values. */
  lemma Fixed32RoundTrip(v: nat)
    requires v < TWO_32
    ensures Unfixed(Fixed(v, 4)) == v
  {
    FixedRoundTrip(v, 4);
    assert Pow(256, 4) == TWO_32 by {
      assert Pow(256, 1) == 256 && Pow(256, 2) == 0x1_0000 && Pow(256, 3) == 0x100_0000;
    }
  }

  lemma Fixed64RoundTrip(v: nat)
    requires v < TWO_64
    ensures Unfixed(Fixed(v, 8)) == v
  {
    FixedRoundTrip(v, 8);
    assert Pow(256, 8) == TWO_64 by {
      assert Pow(256, 1) == 256 && Pow(256, 2) == 0x1_0000 && Pow(256, 3) == 0x100_0000 && Pow(256, 4) == TWO_32;
      assert Pow(256, 5) == 256 * TWO_32 && Pow(256, 6) == 0x1_0000 * TWO_32 && Pow(256, 7) == 0x100_0000 * TWO_32;
    }
  }

  lemma Product(m: nat, a: nat, b: nat)
    ensures m * (a + b) == m * a + m * b
  {
  }

  lemma NonNegative(m: nat, d: nat)
    ensures m * d >= 0
  {
  }

  lemma MulStep(m: nat, x: nat, y: nat)
    requires x < y
    ensures m * x + m <= m * y
  {
    var d := y - x - 1;
    assert m * y == m * (x + 1 + d) == m * x + m + m * d by {
      Product(m, x + 1, d);
      Product(m, x, 1);
    }
    NonNegative(m, d);
  }

  lemma Quotient(v: nat, m: nat, q: nat, low: nat)
    requires v == m * q + low && low < m
    ensures v / m == q
  {
    var d := v / m;
    if d < q {
      MulStep(m, d, q);
    } else if q < d {
      MulStep(m, q, d);
    }
  }

  lemma Distribute(a: nat, b: nat, h: nat, rest: nat)
    ensures a * (b * h + rest) == a * b * h + a * rest
  {
    assert a * (b * h) == a * b * h;
  }

  lemma Nested(v: nat, a: nat, b: nat, q: nat, low: nat, h: nat, rest: nat)
    requires v == a * q + low && low < a && q == b * h + rest && rest < b
    ensures a * b > 0 && v / (a * b) == h
  {
    MulStep(a, 0, b);
    MulStep(a, rest, b);
    Distribute(a, b, h, rest);
    Quotient(v, a * b, h, a * rest + low);
  }

  lemma DivDiv(v: nat, a: nat, b: nat)
    requires a > 0 && b > 0
    ensures a * b > 0 && v / a / b == v / (a * b)
  {
    Nested(v, a, b, v / a, v % a, v / a / b, v / a % b);
  }

  lemma {:induction false} PowPositive(b: nat, n: nat)
    requires b > 0
    ensures Pow(b, n) > 0
  {
    if n > 0 {
      PowPositive(b, n - 1);
      assert b * Pow(b, n - 1) > 0;
    }
  }

  /** The low byte comes first. */
  lemma {:induction false} FixedByte(v: nat, n: nat, i: nat)
    requires i < n
    ensures Pow(256, i) > 0 && Fixed(v, n)[i] == v / Pow(256, i) % 256
    decreases n
  {
    PowPositive(256, i);
    if i > 0 {
      FixedByte(v / 256, n - 1, i - 1);
      DivDiv(v, 256, Pow(256, i - 1));
    } else {
      assert v / 1 == v;
    }
  }

  // ----- varints -----

  /** Seven bits a byte, low bits first; all bytes but the last are 128 or more. */
  lemma {:induction false} VarintByte(v: nat, i: nat)
    requires i < |Varint(v)|
    ensures Pow(128, i) > 0 && Varint(v)[i] % 128 == v / Pow(128, i) % 128
    ensures Varint(v)[i] >= 128 <==> i + 1 < |Varint(v)|
    ensures Varint(v)[i] >= 128 <==> v / Pow(128, i) >= 128
    decreases i
  {
    PowPositive(128, i);
    if i > 0 {
      VarintByte(v / 128, i - 1);
      DivDiv(v, 128, Pow(128, i - 1));
    } else {
      assert v / 1 == v;
    }
  }

  function Varint(v: nat): (r: seq<Byte>)
    ensures r != []
  {
    if v < 128 then [v] else [128 + v % 128] + Varint(v / 128)
  }

  /** At most `bytes` bytes, seven bits each, the last one below 128. */
  function TakeVarint(p: seq<Byte>, bytes: nat): (r: Parsed<nat>)
    ensures r.Parsed? ==> |r.rest| < |p|
    decreases bytes
  {
    if bytes == 0 || p == [] then Failed
    else if p[0] < 128 then Parsed(p[0], p[1..])
    else
      var r := TakeVarint(p[1..], bytes - 1);
      if r.Failed? then Failed else Parsed(p[0] - 128 + 128 * r.value, r.rest)
  }

  lemma {:induction false} VarintRoundTrip(v: nat, tail: seq<Byte>, bytes: nat)
    requires v < Pow(128, bytes) && bytes > 0
    ensures TakeVarint(Varint(v) + tail, bytes) == Parsed(v, tail)
    decreases bytes
  {
    var p := Varint(v) + tail;
    if v < 128 {
      assert p[1..] == tail;
    } else {
      assert v / 128 < Pow(128, bytes - 1);
      VarintRoundTrip(v / 128, tail, bytes - 1);
      assert p[1..] == Varint(v / 128) + tail;
    }
  }

  function GetVarint32(input: seq<Byte>): (r: Parsed<nat>)
    ensures r.Parsed? ==> |r.rest| < |input| && r.value < TWO_32
  {
    var r := TakeVarint(input, 5);
    if r.Failed? then Failed else Parsed(r.value % TWO_32, r.rest)
  }

  function GetVarint64(input: seq<Byte>): (r: Parsed<nat>)
    ensures r.Parsed? ==> |r.rest| < |input| && r.value < TWO_64
  {
    var r := TakeVarint(input, 10);
    if r.Failed? then Failed else Parsed(r.value % TWO_64, r.rest)
  }

  lemma PowersOf128()
    ensures Pow(128, 5) >= TWO_32 && Pow(128, 10) >= TWO_64
  {
    assert Pow(128, 1) == 128 && Pow(128, 2) == 0x4000 && Pow(128, 3) == 0x20_0000 && Pow(128, 4) == 0x1000_0000;
    assert Pow(128, 5) == 0x8_0000_0000 && Pow(128, 6) == 128 * Pow(128, 5) && Pow(128, 7) == 128 * Pow(128, 6);
    assert Pow(128, 8) == 128 * Pow(128, 7) && Pow(128, 9) == 128 * Pow(128, 8);
  }

  lemma Varint32RoundTrip(v: nat, tail: seq<Byte>)
    requires v < TWO_32
    ensures GetVarint32(Varint(v) + tail) == Parsed(v, tail)
  {
    hide Pow, TakeVarint, Varint;
    PowersOf128();
    VarintRoundTrip(v, tail, 5);
  }

  lemma Varint64RoundTrip(v: nat, tail: seq<Byte>)
    requires v < TWO_64
    ensures GetVarint64(Varint(v) + tail) == Parsed(v, tail)
  {
    hide Pow, TakeVarint, Varint;
    PowersOf128();
    VarintRoundTrip(v, tail, 10);
  }

  /** EncodeVarint64: the loop that moves `ptr`. */
  method PutVarint64(dst: seq<Byte>, value: nat) returns (r: seq<Byte>)
    requires value < TWO_64
    ensures r == dst + Varint(value)
  {
    var v := value;
    r := dst;
    while v >= 128
      invariant r + Varint(v) == dst + Varint(value)
    {
      assert Varint(v) == [128 + v % 128] + Varint(v / 128);
      r := r + [128 + v % 128];
      v := v / 128;
    }
    r := r + [v];
  }

  /** EncodeVarint32: one case per length. */
  method PutVarint32(dst: seq<Byte>, v: nat) returns (r: seq<Byte>)
    requires v < TWO_32
    ensures r == dst + Varint(v)
  {
    hide Varint;
    var a, b, c, d := v / 0x80, v / 0x4000, v / 0x20_0000, v / 0x1000_0000;
    ShiftChain(v);
    VarintUnfold(v);
    VarintUnfold(a);
    VarintUnfold(b);
    VarintUnfold(c);
    VarintUnfold(d);
    if v < 0x80 {
      r := dst + [v];
    } else if v < 0x4000 {
      r := dst + [128 + v % 128, a];
    } else if v < 0x20_0000 {
      r := dst + [128 + v % 128, 128 + a % 128, b];
    } else if v < 0x1000_0000 {
      r := dst + [128 + v % 128, 128 + a % 128, 128 + b % 128, c];
    } else {
      r := dst + [128 + v % 128, 128 + a % 128, 128 + b % 128, 128 + c % 128, d];
    }
  }

  lemma ShiftChain(v: nat)
    requires v < TWO_32
    ensures v / 0x80 / 128 == v / 0x4000 && v / 0x4000 / 128 == v / 0x20_0000 && v / 0x20_0000 / 128 == v / 0x1000_0000
    ensures v / 0x1000_0000 < 16
  {
  }

  lemma VarintUnfold(v: nat)
    ensures Varint(v) == if v < 128 then [v] else [128 + v % 128] + Varint(v / 128)
  {
  }

  /** GetVarint64Ptr: the loop over `shift`. The C++ accumulator keeps the low 64 bits. */
  method ReadVarint64(input: seq<Byte>) returns (r: Parsed<nat>)
    ensures r == GetVarint64(input)
  {
    r := ReadVarint(input, 10);
    if r.Parsed? {
      r := Parsed(r.value % TWO_64, r.rest);
    }
  }

  /** GetVarint32Ptr with its fast path for one byte; the accumulator keeps 32 bits. */
  method ReadVarint32(input: seq<Byte>) returns (r: Parsed<nat>)
    ensures r == GetVarint32(input)
  {
    if input != [] && input[0] < 128 {
      return Parsed(input[0], input[1..]);
    }
    r := ReadVarint(input, 5);
    if r.Parsed? {
      r := Parsed(r.value % TWO_32, r.rest);
    }
  }

  method ReadVarint(input: seq<Byte>, bytes: nat) returns (r: Parsed<nat>)
    ensures r == TakeVarint(input, bytes)
  {
    var result: nat, weight: nat, p, i := 0, 1, input, 0;
    hide Shifted, Accumulate;
    ShiftNone(TakeVarint(p, bytes));
    while i < bytes && p != []
      invariant 0 <= i <= bytes
      invariant Shifted(result, weight, TakeVarint(p, bytes - i)) == TakeVarint(input, bytes)
    {
      var byte: nat := p[0];
      p := p[1..];
      if byte >= 128 {
        ShiftOnce(result, weight, byte - 128, TakeVarint(p, bytes - i - 1));
        result := Accumulate(result, byte - 128, weight);
      } else {
        ShiftEnd(result, weight, Parsed(byte, p));
        return Parsed(Accumulate(result, byte, weight), p);
      }
      weight := weight * 128;
      i := i + 1;
    }
    ShiftEnd(result, weight, Failed);
    return Failed;
  }

  /** `result | byte << shift`, the bits of `result` lying below. */
  function Accumulate(result: nat, low: nat, weight: nat): nat {
    result + low * weight
  }

  function Shifted(result: nat, weight: nat, r: Parsed<nat>): Parsed<nat> {
    if r.Failed? then Failed else Parsed(Accumulate(result, r.value, weight), r.rest)
  }

  lemma ShiftNone(r: Parsed<nat>)
    ensures Shifted(0, 1, r) == r
  {
  }

  lemma ShiftEnd(result: nat, weight: nat, r: Parsed<nat>)
    ensures Shifted(result, weight, r) == if r.Failed? then Failed else Parsed(Accumulate(result, r.value, weight), r.rest)
  {
  }

  lemma ShiftOnce(result: nat, weight: nat, low: nat, r: Parsed<nat>)
    ensures Shifted(result, weight, if r.Failed? then Failed else Parsed(low + 128 * r.value, r.rest))
         == Shifted(Accumulate(result, low, weight), weight * 128, r)
  {
    if r.Parsed? {
      assert (low + 128 * r.value) * weight == low * weight + r.value * (weight * 128);
    }
  }

  // ----- length-prefixed slices -----

  function LengthPrefixed(s: seq<Byte>): seq<Byte> {
    Varint(|s|) + s
  }

  function GetLengthPrefixed(input: seq<Byte>): (r: Parsed<seq<Byte>>)
    ensures r.Parsed? ==> |r.rest| < |input|
  {
    var n := GetVarint32(input);
    if n.Parsed? && n.value <= |n.rest| then Parsed(n.rest[..n.value], n.rest[n.value..]) else Failed
  }

  lemma LengthPrefixedRoundTrip(s: seq<Byte>, tail: seq<Byte>)
    requires |s| < TWO_32
    ensures GetLengthPrefixed(LengthPrefixed(s) + tail) == Parsed(s, tail)
  {
    Varint32RoundTrip(|s|, s + tail);
    assert LengthPrefixed(s) + tail == Varint(|s|) + (s + tail);
    assert (s + tail)[..|s|] == s && (s + tail)[|s|..] == tail;
  }

  method PutLengthPrefixed(dst: seq<Byte>, s: seq<Byte>) returns (r: seq<Byte>)
    requires |s| < TWO_32
    ensures r == dst + LengthPrefixed(s)
  {
    r := PutVarint32(dst, |s|);
    r := r + s;
  }

  method ReadLengthPrefixed(input: seq<Byte>) returns (r: Parsed<seq<Byte>>)
    ensures r == GetLengthPrefixed(input)
  {
    var n := ReadVarint32(input);
    if n.Parsed? && |n.rest| >= n.value {
      return Parsed(n.rest[..n.value], n.rest[n.value..]);
    }
    return Failed;
  }
}
