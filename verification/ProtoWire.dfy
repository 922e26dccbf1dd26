/** The wire format below fields: tags, varints, zigzag and fixed-width numbers (pb_encode.c,
    pb_decode.c; Protocol Buffers Encoding, "Base 128 Varints" and "Signed Integers"). */
module ProtoWire {
  import opened Coding
  import opened ProtoFields

  const WT_VARINT: nat := 0
  const WT_64BIT: nat := 1
  const WT_STRING: nat := 2
  const WT_32BIT: nat := 5

  // ----- 32-bit varints -----

  /** pb_decode_varint32 after the first byte: what the loop does from `bitpos` on. A position is
      an 8-bit counter. */
  function Varint32From(result: nat, bitpos: nat, input: seq<Byte>): (r: Parsed<nat>)
    requires result < TWO_32 && bitpos < 256
    ensures r.Parsed? ==> r.value < TWO_32 && |r.rest| < |input|
    decreases |input|
  {
    if input == [] then Failed
    else
      var b: nat := input[0];
      if bitpos >= 32 && b % 128 != 0 && (result < 0x8000_0000 || b != SignExtension(bitpos)) then Failed
      else
        var next := if bitpos >= 32 then result else Or(result, b % 128, bitpos);
        var pos := (bitpos + 7) % 256;
        if b >= 128 then Varint32From(next, pos, input[1..])
        else if pos == 35 && b / 16 % 8 != 0 then Failed
        else Parsed(next, input[1..])
  }

  function SignExtension(bitpos: nat): nat {
    if bitpos < 63 then 0xFF else 0x01
  }

  /** `result | (uint32_t)low << bitpos`, cut to 32 bits. */
  function Or(result: nat, low: nat, bitpos: nat): (r: nat)
    ensures r < TWO_32
  {
    BitOr(result, low * Pow(2, bitpos), 32) % TWO_32
  }

  /** Bitwise or of the low `n` bits. */
  function BitOr(a: nat, b: nat, n: nat): nat
    decreases n
  {
    if n == 0 then 0 else (if a % 2 == 1 || b % 2 == 1 then 1 else 0) + 2 * BitOr(a / 2, b / 2, n - 1)
  }

  lemma {:induction false} BitOrZero(b: nat, n: nat)
    requires b < Pow(2, n)
    ensures BitOr(0, b, n) == b
  {
    if n > 0 {
      BitOrZero(b / 2, n - 1);
    }
  }

  /** Or is addition when the bits do not overlap. */
  lemma {:induction false} BitOrDisjoint(a: nat, b: nat, k: nat, n: nat)
    requires a < Pow(2, k) && k <= n && a + b * Pow(2, k) < Pow(2, n)
    ensures BitOr(a, b * Pow(2, k), n) == a + b * Pow(2, k)
    decreases k
  {
    if k == 0 {
      BitOrZero(b, n);
    } else {
      var h := b * Pow(2, k - 1);
      assert b * Pow(2, k) == 2 * h;
      BitOrDisjoint(a / 2, b, k - 1, n - 1);
    }
  }

  lemma {:induction false} PowSum(b: nat, m: nat, n: nat)
    ensures Pow(b, m + n) == Pow(b, m) * Pow(b, n)
    decreases m
  {
    if m > 0 {
      PowSum(b, m - 1, n);
      MulAssoc(b, Pow(b, m - 1), Pow(b, n));
    }
  }

  lemma MulAssoc(a: nat, b: nat, c: nat)
    ensures a * (b * c) == a * b * c
  {
  }

  lemma PowersOfTwo()
    ensures Pow(2, 7) == 128 && Pow(2, 28) == 0x1000_0000 && Pow(2, 32) == TWO_32
  {
    assert Pow(2, 1) == 2 && Pow(2, 2) == 4 && Pow(2, 3) == 8 && Pow(2, 4) == 16;
    PowSum(2, 3, 4);
    PowSum(2, 7, 7);
    PowSum(2, 14, 14);
    PowSum(2, 4, 28);
  }

  function DecodeVarint32(input: seq<Byte>): (r: Parsed<nat>)
    ensures r.Parsed? ==> r.value < TWO_32 && |r.rest| < |input|
  {
    Varint32From(0, 0, input)
  }

  /** One turn of the loop while the bits still fall into the 32. */
  lemma Varint32Turn(result: nat, bitpos: nat, low: Byte, tail: seq<Byte>)
    requires result < TWO_32 && bitpos <= 28 && low < 128
    ensures Varint32From(result, bitpos, [128 + low] + tail) == Varint32From(Or(result, low, bitpos), bitpos + 7, tail)
    ensures (bitpos == 28 ==> low < 16) ==> Varint32From(result, bitpos, [low] + tail) == Parsed(Or(result, low, bitpos), tail)
  {
    hide Or;
    assert ([128 + low] + tail)[1..] == tail && ([low] + tail)[1..] == tail;
  }

  lemma {:induction false} Varint32Loop(result: nat, bitpos: nat, v: nat, tail: seq<Byte>)
    requires bitpos <= 28 && bitpos % 7 == 0
    requires result < Pow(2, bitpos) && result + v * Pow(2, bitpos) < TWO_32
    ensures result < TWO_32
    ensures Varint32From(result, bitpos, Coding.Varint(v) + tail) == Parsed(result + v * Pow(2, bitpos), tail)
    decreases v
  {
    hide Or, Pow, Varint32From, Coding.Varint;
    var low: Byte, rest := v % 128, v / 128;
    Varint32Sum(result, bitpos, v);
    VarintUnfold(v);
    if v < 128 {
      Varint32Turn(result, bitpos, low, tail);
    } else {
      assert Coding.Varint(v) + tail == [128 + low] + (Coding.Varint(rest) + tail);
      Varint32Turn(result, bitpos, low, Coding.Varint(rest) + tail);
      Varint32Loop(Or(result, low, bitpos), bitpos + 7, rest, tail);
    }
  }

  /** The low seven bits move from the number into the result. */
  lemma Varint32Sum(result: nat, bitpos: nat, v: nat)
    requires bitpos <= 28 && bitpos % 7 == 0
    requires result < Pow(2, bitpos) && result + v * Pow(2, bitpos) < TWO_32
    ensures var r := Or(result, v % 128, bitpos);
      r < Pow(2, bitpos + 7) && r + v / 128 * Pow(2, bitpos + 7) == result + v * Pow(2, bitpos)
    ensures result < TWO_32 && (v < 128 ==> Or(result, v, bitpos) == result + v * Pow(2, bitpos))
    ensures bitpos == 28 ==> v < 16
  {
    hide BitOr, Pow;
    var p, low := Pow(2, bitpos), v % 128;
    PowersOfTwo();
    PowSum(2, 7, bitpos);
    Split(v, p);
    TopVarintByte(bitpos, v);
    BitOrDisjoint(result, low, bitpos, 32);
    LowBelow(result, low, p);
  }

  lemma Split(v: nat, p: nat)
    ensures v * p == v % 128 * p + v / 128 * (128 * p)
  {
    assert v == v % 128 + 128 * (v / 128);
    assert (v % 128 + 128 * (v / 128)) * p == v % 128 * p + v / 128 * (128 * p);
  }

  lemma LowBelow(result: nat, low: nat, p: nat)
    requires result < p && low < 128
    ensures result + low * p < 128 * p
  {
    assert low * p <= 127 * p;
  }

  lemma TopVarintByte(bitpos: nat, v: nat)
    requires bitpos <= 28 && bitpos % 7 == 0 && v * Pow(2, bitpos) < TWO_32
    ensures bitpos == 28 ==> v < 16
  {
    hide Pow;
    PowersOfTwo();
  }

  /** 32-bit varints come back. */
  lemma Varint32RoundTrip(v: nat, tail: seq<Byte>)
    requires v < TWO_32
    ensures DecodeVarint32(Coding.Varint(v) + tail) == Parsed(v, tail)
  {
    assert Pow(2, 0) == 1;
    Varint32Loop(0, 0, v, tail);
  }

  // ----- numbers on the wire -----

  /** pb_encode_svarint: `~(value << 1)` for negative values, in 64 bits. */
  function ZigZag(n: int): nat
    requires -HalfRange(8) <= n < HalfRange(8)
  {
    if n < 0 then TWO_64 - 1 - 2 * (n + TWO_64) % TWO_64 else 2 * n
  }

  /** pb_decode_svarint: `~(value >> 1)` for odd values. */
  function UnZigZag(u: nat): int {
    if u % 2 == 1 then -(u / 2) - 1 else u / 2
  }

  lemma ZigZagRoundTrip(n: int)
    requires -HalfRange(8) <= n < HalfRange(8)
    ensures ZigZag(n) < TWO_64 && UnZigZag(ZigZag(n)) == n
    ensures ZigZag(n) == if n < 0 then -2 * n - 1 else 2 * n
  {
    if n < 0 {
      assert 2 * (n + TWO_64) == TWO_64 + (2 * n + TWO_64);
      assert 2 * (n + TWO_64) % TWO_64 == 2 * n + TWO_64;
    }
  }

  /** A C cast to a signed integer of `size` bytes. */
  function Cast(n: int, size: nat): int {
    var low := n % (2 * HalfRange(size));
    if low < HalfRange(size) then low else low - 2 * HalfRange(size)
  }

  lemma CastInRange(n: int, size: nat)
    requires -HalfRange(size) <= n < HalfRange(size)
    ensures Cast(n, size) == n
  {
    var w := 2 * HalfRange(size);
    if n < 0 {
      assert n + w == n % w;
    }
  }

  predicate IsVarint(kind: Kind) {
    kind.Bool? || kind.Varint? || kind.Uvarint? || kind.Svarint?
  }

  /** The 64-bit number the varint encoders write. */
  function ToWire(kind: Kind, n: int): nat
    requires IsVarint(kind) && WellFormedKind(kind) && InKind(kind, Num(n))
  {
    match kind
    case Varint(_) => if n < 0 then n + TWO_64 else n
    case Svarint(_) => ZigZag(n)
    case _ => n
  }

  /** pb_dec_varint, pb_dec_uvarint and pb_dec_svarint after reading a 64-bit number: the value, cast
      to the size of the field, unless the cast changes it. Fields below 64 bits take the low 32. */
  function FromWire(kind: Kind, u: nat): (r: Parsed<int>)
    requires IsVarint(kind) && !kind.Bool? && u < TWO_64
    ensures r.Parsed? && WellFormedKind(kind) ==> InKind(kind, Num(r.value))
  {
    match kind
    case Varint(size) =>
      var s := if size == 8 then Cast(u, 8) else Cast(u, 4);
      if Cast(s, size) == s then Parsed(s, []) else Failed
    case Uvarint(size) =>
      if u % (2 * HalfRange(size)) == u then Parsed(u, []) else Failed
    case Svarint(size) =>
      var s := UnZigZag(u);
      if Cast(s, size) == s then Parsed(s, []) else Failed
    case _ => Failed
  }

  lemma NumberRoundTrip(kind: Kind, n: int)
    requires IsVarint(kind) && WellFormedKind(kind) && InKind(kind, Num(n))
    ensures ToWire(kind, n) < TWO_64
    ensures !kind.Bool? ==> FromWire(kind, ToWire(kind, n)) == Parsed(n, [])
  {
    match kind
    case Varint(size) =>
      CastInRange(n, size);
      if n < 0 {
        CastWrap(n, if size == 8 then 8 else 4);
      }
      CastInRange(n, if size == 8 then 8 else 4);
    case Svarint(size) =>
      ZigZagRoundTrip(n);
      CastInRange(n, size);
    case _ =>
  }

  lemma CastWrap(n: int, size: nat)
    requires size == 4 || size == 8
    ensures Cast(n + TWO_64, size) == Cast(n, size)
  {
    ModShift(n);
  }

  lemma ModShift(n: int)
    ensures (n + TWO_64) % TWO_32 == n % TWO_32
    ensures (n + TWO_64) % TWO_64 == n % TWO_64
  {
    var q, r := n / TWO_32, n % TWO_32;
    assert n + TWO_64 == TWO_32 * (q + TWO_32) + r;
  }

  function WireType(kind: Kind): nat {
    match kind
    case Fixed32 => WT_32BIT
    case Fixed64 => WT_64BIT
    case _ => if IsVarint(kind) then WT_VARINT else WT_STRING
  }

  function TagBytes(tag: nat, wireType: nat): seq<Byte> {
    Coding.Varint(8 * tag + wireType)
  }
}
