/** Lookups in the bytes of a block, in the order of stored internal keys (table.cc, dbformat.cc). */
module BlockLookup {
  import opened Keys
  import opened Entries
  import opened Versions
  import opened Coding
  import opened ByteOrder
  import opened BlockFormat
  import opened BlockReader
  import opened TableFormat
  import opened Options

  // ----- InternalKeyComparator on bytes -----

  function UserPart(a: seq<Byte>): seq<Byte>
    requires |a| >= 8
  {
    a[..|a| - 8]
  }

  function Tag(a: seq<Byte>): nat
    requires |a| >= 8
  {
    Unfixed(a[|a| - 8..])
  }

  /** InternalKeyComparator::Compare: user keys first, then the larger tag first. Stored keys have
      their eight bytes of tag; shorter strings come first. */
  predicate EncodedLess(a: seq<Byte>, b: seq<Byte>) {
    if |a| < 8 || |b| < 8 then |a| < 8 && (|b| >= 8 || Below(a, b))
    else Below(UserPart(a), UserPart(b)) || (UserPart(a) == UserPart(b) && Tag(a) > Tag(b))
  }

  lemma TagUnique(a: seq<Byte>, b: seq<Byte>)
    requires |a| >= 8 && |b| >= 8 && UserPart(a) == UserPart(b) && Tag(a) == Tag(b)
    ensures a == b
  {
    hide Unfixed, Fixed;
    UnfixedRoundTrip(a[|a| - 8..]);
    UnfixedRoundTrip(b[|b| - 8..]);
    assert a == UserPart(a) + a[|a| - 8..] && b == UserPart(b) + b[|b| - 8..];
  }

  lemma EncodedIrreflexive(a: seq<Byte>)
    ensures !EncodedLess(a, a)
  {
    hide Unfixed;
    BelowIrreflexive(a);
    if |a| >= 8 {
      BelowIrreflexive(UserPart(a));
    }
  }

  lemma BelowIrreflexive(a: seq<Byte>)
    ensures !Below(a, a)
  {
    RankOrder(a, a);
  }

  lemma BelowTransitive(a: seq<Byte>, b: seq<Byte>, c: seq<Byte>)
    ensures Below(a, b) && Below(b, c) ==> Below(a, c)
    ensures Below(a, b) || Below(b, a) || a == b
  {
    hide Rank, Below;
    RankOrder(a, b);
    RankOrder(b, c);
    RankOrder(a, c);
    RankOrder(b, a);
    RankInjective(a, b);
  }

  lemma EncodedTransitive(a: seq<Byte>, b: seq<Byte>, c: seq<Byte>)
    ensures EncodedLess(a, b) && EncodedLess(b, c) ==> EncodedLess(a, c)
    ensures EncodedLess(a, b) || EncodedLess(b, a) || a == b
  {
    hide Below, Unfixed;
    BelowTransitive(a, b, c);
    if |a| >= 8 && |b| >= 8 {
      BelowTransitive(UserPart(a), UserPart(b), if |c| >= 8 then UserPart(c) else []);
      if UserPart(a) == UserPart(b) && Tag(a) == Tag(b) {
        TagUnique(a, b);
      }
    }
  }

  lemma EncodedIsOrder()
    ensures IsOrder(EncodedLess)
  {
    hide EncodedLess;
    forall a
      ensures !EncodedLess(a, a)
    {
      EncodedIrreflexive(a);
    }
    forall a, b, c | EncodedLess(a, b) && EncodedLess(b, c)
      ensures EncodedLess(a, c)
    {
      EncodedTransitive(a, b, c);
    }
    forall a, b
      ensures EncodedLess(a, b) || EncodedLess(b, a) || a == b
    {
      EncodedTransitive(a, b, a);
    }
  }

  lemma BytewiseIsOrder()
    ensures IsOrder(Below)
  {
    hide Below;
    forall a
      ensures !Below(a, a)
    {
      BelowIrreflexive(a);
    }
    forall a, b, c | Below(a, b) && Below(b, c)
      ensures Below(a, c)
    {
      BelowTransitive(a, b, c);
    }
    forall a, b
      ensures Below(a, b) || Below(b, a) || a == b
    {
      BelowTransitive(a, b, a);
    }
  }

  /** A key that parses has the tag of its parts. */
  lemma DecodedParts(a: seq<Byte>, k: ByteKey)
    requires DecodeKey(a) == Some(k)
    ensures |a| >= 8 && UserPart(a) == k.user && Tag(a) == Pack(Abstract(k))
  {
    hide Unfixed;
  }

  /** The comparator on stored keys is the engine's order. */
  lemma EncodedIsLess(a: seq<Byte>, b: seq<Byte>, ka: ByteKey, kb: ByteKey)
    requires DecodeKey(a) == Some(ka) && DecodeKey(b) == Some(kb)
    ensures EncodedLess(a, b) <==> Less(Abstract(ka), Abstract(kb))
  {
    hide Below, Unfixed, DecodeKey, Less, Pack;
    DecodedParts(a, ka);
    DecodedParts(b, kb);
    KeyBelowIsLess(ka, kb);
  }

  // ----- a block of entries -----

  function EntryOf(p: Pair): Option<Entry> {
    match DecodeKey(p.key)
    case None => None
    case Some(k) => Some(Entry(Abstract(k), Text(p.value)))
  }

  /** The pairs are the entries as they are stored. */
  ghost predicate Encodes(kvs: seq<Pair>, es: seq<Entry>) {
    |kvs| == |es| && forall i :: 0 <= i < |kvs| ==> EntryOf(kvs[i]) == Some(es[i])
  }

  lemma StoredPair(k: ByteKey, value: seq<Byte>)
    ensures EntryOf(Pair(EncodeKey(k), value)) == Some(Entry(Abstract(k), Text(value)))
  {
    KeyRoundTrip(k);
  }

  lemma PairLess(p: Pair, q: Pair, e: Entry, f: Entry)
    requires EntryOf(p) == Some(e) && EntryOf(q) == Some(f)
    ensures EncodedLess(p.key, q.key) <==> Less(e.key, f.key)
  {
    hide DecodeKey, EncodedLess, Less;
    EncodedIsLess(p.key, q.key, DecodeKey(p.key).value, DecodeKey(q.key).value);
  }

  lemma EncodesIncreasing(kvs: seq<Pair>, es: seq<Entry>)
    requires Encodes(kvs, es) && Sorted(es)
    ensures Increasing(EncodedLess, kvs)
  {
    hide EntryOf, EncodedLess, Less;
    forall i, j | 0 <= i < j < |kvs|
      ensures EncodedLess(kvs[i].key, kvs[j].key)
    {
      PairLess(kvs[i], kvs[j], es[i], es[j]);
    }
  }

  /** A lower bound among the stored keys is where a seek among the entries lands. */
  lemma BoundIsSeek(kvs: seq<Pair>, es: seq<Entry>, target: ByteKey, r: Option<nat>)
    requires Encodes(kvs, es) && Sorted(es)
    requires LowerBound(EncodedLess, kvs, EncodeKey(target), r)
    ensures SeekIndex(es, Abstract(target)) == if r.None? then |es| else r.value
  {
    hide EntryOf, EncodedLess, Less, EncodeKey;
    var t, e := Pair(EncodeKey(target), []), Entry(Abstract(target), "");
    StoredPair(target, []);
    assert Text([]) == "";
    var i := if r.None? then |es| else r.value;
    forall j | 0 <= j < |es|
      ensures EncodedLess(kvs[j].key, t.key) <==> Less(es[j].key, e.key)
    {
      PairLess(kvs[j], t, es[j], e);
    }
    SeekIs(es, e.key, i);
  }

  /** Where a seek ends: at an error, past the last pair, or at a pair. */
  datatype Sought = Broken | PastEnd | Shown(pair: Pair)

  /** A block iterator's seek in any bytes; a block without room for its restart array is broken. */
  method SeekPair(less: KeyOrder, block: seq<Byte>, target: seq<Byte>, ghost kvs: seq<Pair>, ghost rs: seq<nat>)
    returns (r: Sought, ghost pos: Option<nat>)
    requires IsOrder(less)
    ensures IsBlock(block, kvs, rs) && Increasing(less, kvs) ==>
      LowerBound(less, kvs, target, pos) && r == if pos.None? then PastEnd else Shown(kvs[pos.value])
  {
    hide IsOrder, IsBlock, Increasing, LowerBound;
    r, pos := Broken, None;
    if IsBlock(block, kvs, rs) {
      RoomForRestarts(block, kvs, rs);
    }
    if |block| < 4 {
      return;
    }
    var n := Unfixed(block[|block| - 4..]);
    if 4 * n + 4 > |block| {
      return;
    }
    if n == 0 {
      return PastEnd, None;
    }
    var iter := new BlockIter(less, block, kvs, rs);
    iter.Seek(target);
    pos := iter.pos;
    if iter.Built() && Increasing(less, kvs) {
      iter.ShowsPair();
      BoundInRange(less, kvs, target, pos);
    }
    r := if iter.current < iter.restarts then Shown(Pair(iter.key, iter.Value())) else if iter.corrupt then Broken else PastEnd;
  }

  lemma BoundInRange(less: KeyOrder, kvs: seq<Pair>, target: seq<Byte>, r: Option<nat>)
    requires LowerBound(less, kvs, target, r)
    ensures r.Some? ==> r.value < |kvs|
  {
  }

  lemma RoomForRestarts(block: seq<Byte>, kvs: seq<Pair>, rs: seq<nat>)
    requires IsBlock(block, kvs, rs)
    ensures |block| >= 4
    ensures var n := Unfixed(block[|block| - 4..]); n > 0 && 4 * n + 4 <= |block|
  {
    CountDecodes(block, kvs, rs);
  }

  /** The block iterator's seek and SaveValue: what a point lookup finds in a data block. A key that
      does not parse is an error. */
  method BlockGet(block: seq<Byte>, key: seq<Byte>, s: SequenceNumber, ghost kvs: seq<Pair>, ghost rs: seq<nat>, ghost es: seq<Entry>)
    returns (r: Option<Lookup>)
    ensures IsBlock(block, kvs, rs) && Encodes(kvs, es) && Sorted(es) ==>
      r == Some(Probe(es, SeekIndex(es, SeekKey(Rank(key), s)), Rank(key)))
  {
    hide IsOrder, IsBlock, Increasing, LowerBound, EncodedLess, EncodeKey, DecodeKey, Sorted, SeekIndex;
    EncodedIsOrder();
    var target := ByteKey(key, s, TypeValue);
    var found;
    ghost var pos;
    found, pos := SeekPair(EncodedLess, block, EncodeKey(target), kvs, rs);
    if IsBlock(block, kvs, rs) && Encodes(kvs, es) && Sorted(es) {
      EncodesIncreasing(kvs, es);
      BoundIsSeek(kvs, es, target, pos);
      BoundInRange(EncodedLess, kvs, EncodeKey(target), pos);
    }
    if !found.Shown? {
      return if found.Broken? then None else Some(Absent);
    }
    var parsed := DecodeKey(found.pair.key);
    if parsed.None? {
      return None;
    }
    RankInjective(parsed.value.user, key);
    if parsed.value.user != key {
      return Some(Absent);
    }
    return Some(if parsed.value.kind.TypeValue? then Found(Text(found.pair.value)) else Deleted);
  }
}
