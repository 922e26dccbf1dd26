/** Bloom filters and the filter block of a table (bloom.cc, filter_block.cc). */
module Filters {
  import opened Coding

  // ----- bits of a byte -----

  predicate Bit(b: nat, i: nat)
    decreases i
  {
    if i == 0 then b % 2 == 1 else Bit(b / 2, i - 1)
  }

  /** `b | (1 << i)`. */
  function SetBit(b: nat, i: nat): nat
    decreases i
  {
    if i == 0 then b + 1 - b % 2 else 2 * SetBit(b / 2, i - 1) + b % 2
  }

  lemma Halves(h: nat, r: nat)
    requires r < 2
    ensures (2 * h + r) / 2 == h && (2 * h + r) % 2 == r
  {
  }

  lemma {:induction false} SetBitSets(b: nat, i: nat, j: nat)
    ensures Bit(SetBit(b, i), j) <==> i == j || Bit(b, j)
    decreases i
  {
    if i == 0 {
      Halves(b / 2, 1);
      assert SetBit(b, i) == 2 * (b / 2) + 1;
    } else {
      Halves(SetBit(b / 2, i - 1), b % 2);
      if j > 0 {
        SetBitSets(b / 2, i - 1, j - 1);
      }
    }
  }

  lemma {:induction false} SetBitFits(b: nat, i: nat, n: nat)
    requires i < n && b < Pow(2, n)
    ensures SetBit(b, i) < Pow(2, n)
    decreases i
  {
    var half := Pow(2, n - 1);
    assert Pow(2, n) == 2 * half && b == 2 * (b / 2) + b % 2;
    assert b / 2 < half;
    if i > 0 {
      SetBitFits(b / 2, i - 1, n - 1);
    }
  }

  lemma {:induction false} ZeroBits(i: nat)
    ensures !Bit(0, i)
  {
    if i > 0 {
      ZeroBits(i - 1);
    }
  }

  // ----- bloom filters -----

  /** The hash of a key; which function it is does not matter. */
  type KeyHash = seq<Byte> -> nat

  /** Rotate right by 17 bits. */
  function Delta(h: nat): nat {
    (h / 0x2_0000 + h % 0x2_0000 * 0x8000) % TWO_32
  }

  /** Of a 32-bit word, bit `i` of the result is bit `i + 17` around the word. */
  lemma DeltaIsRotation(h: nat, i: nat)
    requires h < TWO_32 && i < 32
    ensures Bit(Delta(h), i) <==> Bit(h, (i + 17) % 32)
  {
    hide Bit, Pow;
    TwoPowers();
    var low, high := h % 0x2_0000, h / 0x2_0000;
    assert high < 0x8000 && high + low * 0x8000 < TWO_32;
    BitsJoin(high, low, 15, i);
    if i < 15 {
      BitsAbove(h, 17, i);
    } else {
      BitsBelow(h, 17, i - 15);
    }
  }

  lemma TwoPowers()
    ensures Pow(2, 15) == 0x8000 && Pow(2, 17) == 0x2_0000
  {
    assert Pow(2, 1) == 2 && Pow(2, 2) == 4 && Pow(2, 3) == 8 && Pow(2, 4) == 16 && Pow(2, 5) == 32 && Pow(2, 6) == 64;
    assert Pow(2, 7) == 128 && Pow(2, 8) == 256 && Pow(2, 9) == 512 && Pow(2, 10) == 1024 && Pow(2, 11) == 2048;
    assert Pow(2, 12) == 4096 && Pow(2, 13) == 8192 && Pow(2, 14) == 16384 && Pow(2, 15) == 32768 && Pow(2, 16) == 65536;
  }

  /** The bits from `n` on. */
  lemma {:induction false} BitsAbove(h: nat, n: nat, i: nat)
    ensures Pow(2, n) > 0 && (Bit(h / Pow(2, n), i) <==> Bit(h, n + i))
    decreases n
  {
    PowPositive(2, n);
    if n == 0 {
      assert h / 1 == h;
    } else {
      BitsAbove(h / 2, n - 1, i);
      DivDiv(h, 2, Pow(2, n - 1));
    }
  }

  /** The bits below `n`. */
  lemma {:induction false} BitsBelow(h: nat, n: nat, i: nat)
    requires i < n
    ensures Pow(2, n) > 0 && (Bit(h % Pow(2, n), i) <==> Bit(h, i))
    decreases n
  {
    PowPositive(2, n);
    PowPositive(2, n - 1);
    HalfOfRemainder(h, Pow(2, n - 1));
    if i > 0 {
      BitsBelow(h / 2, n - 1, i - 1);
    }
  }

  lemma HalfOfRemainder(h: nat, p: nat)
    requires p > 0
    ensures h % (2 * p) / 2 == h / 2 % p && h % (2 * p) % 2 == h % 2
  {
    var q, low := h / 2 / p, h / 2 % p;
    assert h == 2 * (p * q + low) + h % 2 by {
      assert h / 2 == p * q + low;
    }
    assert 2 * (p * q + low) + h % 2 == 2 * p * q + (2 * low + h % 2) by {
      assert 2 * (p * q) == 2 * p * q;
    }
    Remainder(h, 2 * p, q, 2 * low + h % 2);
    Halves(low, h % 2);
  }

  lemma Remainder(v: nat, m: nat, q: nat, low: nat)
    requires v == m * q + low && low < m
    ensures v % m == low
  {
    Quotient(v, m, q, low);
  }

  /** Two words put together. */
  lemma {:induction false} BitsJoin(a: nat, b: nat, n: nat, i: nat)
    requires a < Pow(2, n)
    ensures Bit(a + b * Pow(2, n), i) <==> if i < n then Bit(a, i) else Bit(b, i - n)
    decreases n
  {
    if n > 0 {
      var p := b * Pow(2, n - 1);
      assert b * Pow(2, n) == 2 * p by {
        assert b * (2 * Pow(2, n - 1)) == 2 * (b * Pow(2, n - 1));
      }
      assert a == 2 * (a / 2) + a % 2;
      Halves(a / 2 + p, a % 2);
      assert a + 2 * p == 2 * (a / 2 + p) + a % 2;
      if i > 0 {
        BitsJoin(a / 2, b, n - 1, i - 1);
      }
    } else {
      assert b * Pow(2, 0) == b;
    }
  }

  /** The bit probed in round `j`. */
  function Probe(h: nat, j: nat, bits: nat): nat
    requires bits > 0
    ensures Probe(h, j, bits) < bits
  {
    Round(h, j) % bits
  }

  /** The running hash after `j` rounds: h += delta in 32 bits. */
  function Round(h: nat, j: nat): nat
    decreases j
  {
    if j == 0 then h else (Round(h, j - 1) + Delta(h)) % TWO_32
  }

  predicate BitAt(a: seq<Byte>, p: nat)
    requires p < 8 * |a|
  {
    Bit(a[p / 8], p % 8)
  }

  /** Some round of some key probes bit `p`. */
  ghost predicate Probed(hash: KeyHash, keys: seq<seq<Byte>>, k: nat, bits: nat, p: nat)
    requires bits > 0
  {
    exists key, j: nat :: key in keys && j < k && Probe(hash(key), j, bits) == p
  }

  ghost predicate AllProbesSet(a: seq<Byte>, h: nat, k: nat)
    requires |a| > 0
  {
    forall j: nat :: j < k ==> BitAt(a, Probe(h, j, 8 * |a|))
  }

  class BloomFilterPolicy {
    const hash: KeyHash
    const bitsPerKey: nat
    const k: nat

    ghost predicate Valid() {
      1 <= k <= 30
    }

    constructor (hash: KeyHash, bitsPerKey: nat)
      ensures Valid() && this.hash == hash && this.bitsPerKey == bitsPerKey
      ensures k == if bitsPerKey * 69 / 100 < 1 then 1 else if bitsPerKey * 69 / 100 > 30 then 30 else bitsPerKey * 69 / 100
    {
      this.hash, this.bitsPerKey := hash, bitsPerKey;
      var probes := bitsPerKey * 69 / 100;
      k := if probes < 1 then 1 else if probes > 30 then 30 else probes;
    }

    /** CreateFilter: appends an array in which exactly the probed bits are set, and k. */
    method CreateFilter(keys: seq<seq<Byte>>, dst: seq<Byte>) returns (r: seq<Byte>)
      requires Valid()
      ensures |r| >= |dst| + 9 && r[..|dst|] == dst
      ensures var f := r[|dst|..]; IsFilter(hash, keys, k, f)
      ensures var bits := |keys| * bitsPerKey; |r| == |dst| + (if bits < 64 then 64 + 7 else bits + 7) / 8 + 1
    {
      var bits := |keys| * bitsPerKey;
      if bits < 64 {
        bits := 64;
      }
      var bytes := (bits + 7) / 8;
      bits := bytes * 8;
      var a := new Byte[bytes](_ => 0);
      NothingSet(a[..]);
      NothingProbed(hash, keys[..0], k, bits);
      for i := 0 to |keys|
        invariant fresh(a) && Exactly(a[..], hash, keys[..i], k)
      {
        ProbeKey(a, keys, i);
      }
      assert keys[..|keys|] == keys;
      r := dst + a[..] + [k];
      assert r[|dst|..] == a[..] + [k];
      assert (a[..] + [k])[..bytes] == a[..];
    }

    /** Set the bits of one more key. */
    method ProbeKey(a: array<Byte>, keys: seq<seq<Byte>>, i: nat)
      requires i < |keys| && a.Length > 0 && Exactly(a[..], hash, keys[..i], k)
      modifies a
      ensures Exactly(a[..], hash, keys[..i + 1], k)
    {
      var bits := a.Length * 8;
      var h := hash(keys[i]);
      var delta := Delta(h);
      ghost var start, was := h, a[..];
      for j := 0 to k
        invariant h == Round(start, j)
        invariant forall p: nat :: p < bits ==> (BitAt(a[..], p) <==> BitAt(was, p) || HitBy(start, j, bits, p))
      {
        var bitpos := h % bits;
        ghost var before := a[..];
        a[bitpos / 8] := SetByteBit(a[bitpos / 8], bitpos % 8);
        forall p: nat | p < bits
          ensures BitAt(a[..], p) <==> BitAt(was, p) || HitBy(start, j + 1, bits, p)
        {
          assert a[..] == before[bitpos / 8 := SetByteBit(before[bitpos / 8], bitpos % 8)];
          OneBitMore(before, bitpos, p);
          OneHitMore(start, j, bits, p);
        }
        h := (h + delta) % TWO_32;
      }
      forall p: nat | p < bits
        ensures BitAt(a[..], p) <==> Probed(hash, keys[..i + 1], k, bits, p)
      {
        OneKeyMore(hash, keys, i, k, bits, p);
      }
    }
  }

  /** In `a` exactly the probed bits are set. */
  ghost predicate Exactly(a: seq<Byte>, hash: KeyHash, keys: seq<seq<Byte>>, k: nat) {
    |a| > 0 && forall p: nat :: p < 8 * |a| ==> (BitAt(a, p) <==> Probed(hash, keys, k, 8 * |a|, p))
  }

  function SetByteBit(b: Byte, i: nat): Byte
    requires i < 8
  {
    assert Pow(2, 8) == 256 by {
      PowersOfTwo();
    }
    SetBitFits(b, i, 8);
    SetBit(b, i)
  }

  lemma PowersOfTwo()
    ensures Pow(2, 8) == 256
  {
    assert Pow(2, 1) == 2 && Pow(2, 2) == 4 && Pow(2, 3) == 8 && Pow(2, 4) == 16;
    assert Pow(2, 5) == 32 && Pow(2, 6) == 64 && Pow(2, 7) == 128;
  }

  lemma OneBitMore(a: seq<Byte>, q: nat, p: nat)
    requires q < 8 * |a| && p < 8 * |a|
    ensures BitAt(a[q / 8 := SetByteBit(a[q / 8], q % 8)], p) <==> p == q || BitAt(a, p)
  {
    SetBitSets(a[q / 8], q % 8, p % 8);
  }

  lemma OneHitMore(h: nat, j: nat, bits: nat, p: nat)
    requires bits > 0
    ensures HitBy(h, j + 1, bits, p) <==> HitBy(h, j, bits, p) || Probe(h, j, bits) == p
  {
    if HitBy(h, j, bits, p) {
      var i: nat :| i < j && Probe(h, i, bits) == p;
      assert i < j + 1;
    }
  }

  lemma OneKeyMore(hash: KeyHash, keys: seq<seq<Byte>>, i: nat, k: nat, bits: nat, p: nat)
    requires i < |keys| && bits > 0
    ensures Probed(hash, keys[..i + 1], k, bits, p) <==> Probed(hash, keys[..i], k, bits, p) || HitBy(hash(keys[i]), k, bits, p)
  {
    assert keys[..i + 1] == keys[..i] + [keys[i]];
    if Probed(hash, keys[..i], k, bits, p) {
      var key, j: nat :| key in keys[..i] && j < k && Probe(hash(key), j, bits) == p;
      assert key in keys[..i + 1];
    }
    if HitBy(hash(keys[i]), k, bits, p) {
      assert keys[i] in keys[..i + 1];
    }
  }

  lemma NothingSet(a: seq<Byte>)
    requires forall i :: 0 <= i < |a| ==> a[i] == 0
    ensures forall p: nat :: p < 8 * |a| ==> !BitAt(a, p)
  {
    forall p: nat | p < 8 * |a|
      ensures !BitAt(a, p)
    {
      ZeroBits(p % 8);
    }
  }

  lemma NothingProbed(hash: KeyHash, keys: seq<seq<Byte>>, k: nat, bits: nat)
    requires keys == [] && bits > 0
    ensures forall p :: !Probed(hash, keys, k, bits, p)
  {
  }

  ghost predicate HitBy(h: nat, k: nat, bits: nat, p: nat)
    requires bits > 0
  {
    exists j: nat :: j < k && Probe(h, j, bits) == p
  }

  /** The filter made for these keys: the probed bits are set and no others; k comes last. */
  ghost predicate IsFilter(hash: KeyHash, keys: seq<seq<Byte>>, k: nat, f: seq<Byte>) {
    |f| >= 9 && k <= 30 && f[|f| - 1] == k && Exactly(f[..|f| - 1], hash, keys, k)
  }

  /** KeyMayMatch: are all probed bits set? */
  method KeyMayMatch(hash: KeyHash, key: seq<Byte>, filter: seq<Byte>) returns (r: bool)
    ensures r <==> MayMatch(hash, key, filter)
  {
    var len := |filter|;
    if len < 2 {
      return false;
    }
    var a := filter[..len - 1];
    var bits := (len - 1) * 8;
    var k: nat := filter[len - 1];
    if k > 30 {
      return true;
    }
    var h := hash(key);
    var delta := Delta(h);
    ghost var start := h;
    for j := 0 to k
      invariant h == Round(start, j)
      invariant AllProbesSet(a, start, j)
    {
      var bitpos := h % bits;
      if !Bit(filter[bitpos / 8], bitpos % 8) {
        assert a[bitpos / 8] == filter[bitpos / 8];
        assert !BitAt(a, Probe(start, j, 8 * |a|));
        return false;
      }
      h := (h + delta) % TWO_32;
    }
    return true;
  }

  /** What the policy answers; k above 30 is reserved and counts as a match. */
  ghost predicate MayMatch(hash: KeyHash, key: seq<Byte>, filter: seq<Byte>) {
    |filter| >= 2 && (filter[|filter| - 1] > 30 || AllProbesSet(filter[..|filter| - 1], hash(key), filter[|filter| - 1]))
  }

  /** No false negatives: a key the filter was made for matches. */
  lemma FilterMatches(hash: KeyHash, keys: seq<seq<Byte>>, k: nat, f: seq<Byte>, key: seq<Byte>)
    requires IsFilter(hash, keys, k, f) && key in keys
    ensures MayMatch(hash, key, f)
  {
    var a := f[..|f| - 1];
    forall j: nat | j < k
      ensures BitAt(a, Probe(hash(key), j, 8 * |a|))
    {
      assert Probed(hash, keys, k, 8 * |a|, Probe(hash(key), j, 8 * |a|));
    }
  }
}
