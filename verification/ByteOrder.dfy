/** The default comparator (comparator.cc): byte strings in lexicographic order, and the short
    keys between them. */
module ByteOrder {
  import opened Coding
  import opened Entries

  /** Slice::compare as an order: the first differing byte decides, else the shorter comes first. */
  predicate Below(a: seq<Byte>, b: seq<Byte>) {
    b != [] && (a == [] || a[0] < b[0] || (a[0] == b[0] && Below(a[1..], b[1..])))
  }

  /** A value as the engine holds it. */
  function Text(bytes: seq<Byte>): Bytes {
    seq(|bytes|, i requires 0 <= i < |bytes| => bytes[i] as char)
  }

  // ----- byte strings as points of a line -----

  /** A point of [0, 1) for each byte string. */
  function Rank(s: seq<Byte>): (r: real)
    ensures 0.0 <= r < 1.0
  {
    if s == [] then 0.0 else (s[0] as real + 1.0 + Rank(s[1..])) / 257.0
  }

  lemma OrderByDigit(a: nat, b: nat, x: real, y: real)
    requires 0.0 <= x < 1.0 && 0.0 <= y < 1.0
    ensures (a as real + 1.0 + x) / 257.0 < (b as real + 1.0 + y) / 257.0 <==> a < b || (a == b && x < y)
  {
    var p, q := a as real + 1.0 + x, b as real + 1.0 + y;
    assert p / 257.0 < q / 257.0 <==> p < q;
    if a < b {
      assert a + 1 <= b;
      assert a as real + 1.0 <= b as real;
    } else if b < a {
      assert b + 1 <= a;
      assert b as real + 1.0 <= a as real;
    }
  }

  /** The embedding: the order of byte strings is the order of their points. */
  lemma {:induction false} RankOrder(a: seq<Byte>, b: seq<Byte>)
    ensures Below(a, b) <==> Rank(a) < Rank(b)
    decreases |a|
  {
    if a != [] && b != [] {
      RankOrder(a[1..], b[1..]);
      OrderByDigit(a[0], b[0], Rank(a[1..]), Rank(b[1..]));
    } else if b != [] {
      assert Rank(b) > 0.0;
    }
  }

  lemma {:induction false} RankInjective(a: seq<Byte>, b: seq<Byte>)
    ensures Rank(a) == Rank(b) ==> a == b
    decreases |a|
  {
    if a != [] && b != [] {
      RankInjective(a[1..], b[1..]);
      OrderByDigit(a[0], b[0], Rank(a[1..]), Rank(b[1..]));
      OrderByDigit(b[0], a[0], Rank(b[1..]), Rank(a[1..]));
      assert a == [a[0]] + a[1..] && b == [b[0]] + b[1..];
    } else if a != [] {
      assert Rank(a) > 0.0;
    } else if b != [] {
      assert Rank(b) > 0.0;
    }
  }

  /** Below is a strict total order. */
  lemma BelowIsOrder(a: seq<Byte>, b: seq<Byte>, c: seq<Byte>)
    ensures !Below(a, a)
    ensures Below(a, b) && Below(b, c) ==> Below(a, c)
    ensures Below(a, b) || Below(b, a) || a == b
  {
    RankOrder(a, a);
    RankOrder(a, b);
    RankOrder(b, a);
    RankOrder(b, c);
    RankOrder(a, c);
    RankInjective(a, b);
  }

  // ----- shortest separators and successors -----

  lemma {:induction false} BelowAt(a: seq<Byte>, b: seq<Byte>, d: nat)
    requires d < |b| && d <= |a| && a[..d] == b[..d]
    requires d == |a| || a[d] < b[d]
    ensures Below(a, b)
  {
    if d > 0 {
      assert a[0] == a[..d][0] == b[..d][0] == b[0];
      assert a[1..][..d - 1] == a[..d][1..] && b[1..][..d - 1] == b[..d][1..];
      BelowAt(a[1..], b[1..], d - 1);
    }
  }

  /** The strings first differ at `d`, with room for a byte between. */
  predicate RoomAt(start: seq<Byte>, limit: seq<Byte>, d: nat) {
    d < |start| && d < |limit| && start[..d] == limit[..d] && start[d] + 1 < limit[d] as int
  }

  lemma FirstDifference(start: seq<Byte>, limit: seq<Byte>, d: nat, e: nat)
    requires d <= |start| && d <= |limit| && start[..d] == limit[..d]
    requires d < |start| && d < |limit| ==> start[d] != limit[d]
    requires RoomAt(start, limit, e)
    ensures d == e
  {
    PrefixAgrees(start, limit, d);
    PrefixAgrees(start, limit, e);
  }

  lemma PrefixAgrees(a: seq<Byte>, b: seq<Byte>, n: nat)
    requires n <= |a| && n <= |b| && a[..n] == b[..n]
    ensures forall i :: 0 <= i < n ==> a[i] == b[i]
  {
    forall i | 0 <= i < n
      ensures a[i] == b[i]
    {
      assert a[..n][i] == b[..n][i];
    }
  }

  /** FindShortestSeparator: a short key in [start, limit), cut behind the first difference when
      that byte leaves room. */
  method FindShortestSeparator(start: seq<Byte>, limit: seq<Byte>) returns (r: seq<Byte>)
    ensures forall d: nat :: RoomAt(start, limit, d) ==> |r| == d + 1 && r[..d] == start[..d] && r[d] == start[d] + 1
    ensures (forall d: nat :: !RoomAt(start, limit, d)) ==> r == start
    ensures r == start || Below(start, r)
    ensures Below(start, limit) ==> Below(r, limit)
    ensures |r| <= |start|
  {
    var minLength := if |start| < |limit| then |start| else |limit|;
    var diffIndex := 0;
    while diffIndex < minLength && start[diffIndex] == limit[diffIndex]
      invariant diffIndex <= minLength
      invariant start[..diffIndex] == limit[..diffIndex]
    {
      assert start[..diffIndex + 1] == start[..diffIndex] + [start[diffIndex]];
      assert limit[..diffIndex + 1] == limit[..diffIndex] + [limit[diffIndex]];
      diffIndex := diffIndex + 1;
    }
    r := start;
    forall d: nat | RoomAt(start, limit, d)
      ensures d == diffIndex
    {
      FirstDifference(start, limit, diffIndex, d);
    }
    if diffIndex >= minLength {
      // one is a prefix of the other: do not shorten
    } else {
      var diffByte: nat := start[diffIndex];
      if diffByte < 0xff && diffByte + 1 < limit[diffIndex] {
        assert RoomAt(start, limit, diffIndex);
        r := start[..diffIndex] + [diffByte + 1];
        assert r[..diffIndex] == start[..diffIndex];
        BelowAt(start, r, diffIndex);
        BelowAt(r, limit, diffIndex);
      }
    }
  }

  /** FindShortSuccessor: a short key at or after the given one. */
  method FindShortSuccessor(key: seq<Byte>) returns (r: seq<Byte>)
    ensures r == key || Below(key, r)
    ensures |r| <= |key|
    ensures r == key ==> forall i :: 0 <= i < |key| ==> key[i] == 0xff
    ensures r != key ==> |r| > 0 && r[..|r| - 1] == key[..|r| - 1] && (forall i :: 0 <= i < |r| - 1 ==> key[i] == 0xff)
    ensures r != key ==> |r| <= |key| && key[|r| - 1] != 0xff && r[|r| - 1] == key[|r| - 1] + 1
  {
    var n := |key|;
    for i := 0 to n
      invariant forall j :: 0 <= j < i ==> key[j] == 0xff
    {
      var byte: nat := key[i];
      if byte != 0xff {
        r := key[..i] + [byte + 1];
        assert r[..i] == key[..i];
        BelowAt(key, r, i);
        return;
      }
    }
    return key;
  }
}
