/** The filter block of a table: one bloom filter for every 2 KB of data (filter_block.cc). */
module FilterBlocks {
  import opened Coding
  import opened BlockFormat
  import opened Filters

  const FILTER_BASE_LG: Byte := 11
  const FILTER_BASE: nat := 2048

  type Key = seq<Byte>

  function Flat(keys: seq<Key>): seq<Byte> {
    if keys == [] then [] else Flat(keys[..|keys| - 1]) + keys[|keys| - 1]
  }

  lemma {:induction false} FlatSlice(keys: seq<Key>, i: nat)
    requires i < |keys|
    ensures |Flat(keys[..i + 1])| == |Flat(keys[..i])| + |keys[i]| <= |Flat(keys)|
    ensures Flat(keys)[|Flat(keys[..i])|..|Flat(keys[..i + 1])|] == keys[i]
    decreases |keys|
  {
    var n := |keys| - 1;
    assert keys[..i + 1][..i] == keys[..i];
    if i < n {
      FlatSlice(keys[..n], i);
      assert keys[..n][..i] == keys[..i] && keys[..n][..i + 1] == keys[..i + 1];
      var lo, hi := |Flat(keys[..i])|, |Flat(keys[..i + 1])|;
      assert Flat(keys)[lo..hi] == Flat(keys[..n])[lo..hi];
    } else {
      assert keys[..n + 1] == keys;
    }
  }

  /** Where filter `i` ends: where the next one starts, or at the end. */
  function End(offsets: seq<nat>, size: nat, i: nat): nat
    requires i < |offsets|
  {
    if i + 1 < |offsets| then offsets[i + 1] else size
  }

  /** Filter `i` covers exactly the keys `made`: no bytes for no keys. */
  ghost predicate FilterOk(hash: KeyHash, k: nat, result: seq<Byte>, offsets: seq<nat>, i: nat, made: seq<Key>)
    requires i < |offsets|
  {
    && offsets[i] <= End(offsets, |result|, i) <= |result|
    && if made == [] then End(offsets, |result|, i) == offsets[i]
       else IsFilter(hash, made, k, result[offsets[i]..End(offsets, |result|, i)])
  }

  ghost predicate FiltersOk(hash: KeyHash, k: nat, result: seq<Byte>, offsets: seq<nat>, made: seq<seq<Key>>) {
    |offsets| == |made| && forall i :: 0 <= i < |made| ==> FilterOk(hash, k, result, offsets, i, made[i])
  }

  lemma AppendFilter(hash: KeyHash, k: nat, result: seq<Byte>, offsets: seq<nat>, made: seq<seq<Key>>, result': seq<Byte>, keys: seq<Key>)
    requires FiltersOk(hash, k, result, offsets, made)
    requires |result'| >= |result| && result'[..|result|] == result
    requires if keys == [] then result' == result else IsFilter(hash, keys, k, result'[|result|..])
    ensures FiltersOk(hash, k, result', offsets + [|result|], made + [keys])
  {
    var offsets', made' := offsets + [|result|], made + [keys];
    forall i | 0 <= i < |made'|
      ensures FilterOk(hash, k, result', offsets', i, made'[i])
    {
      if i < |made| {
        assert FilterOk(hash, k, result, offsets, i, made[i]);
        assert End(offsets', |result'|, i) == End(offsets, |result|, i);
        var lo, hi := offsets[i], End(offsets, |result|, i);
        SliceOfSlice(result', 0, |result|, lo, hi);
        assert result'[lo..hi] == result[lo..hi];
      } else {
        assert result'[|result|..|result'|] == result'[|result|..];
      }
    }
  }

  class FilterBlockBuilder {
    const policy: BloomFilterPolicy
    var keys: seq<Byte>
    var start: seq<nat>
    var result: seq<Byte>
    var filterOffsets: seq<nat>

    /** Keys not yet in a filter; the keys of each filter made; who was added for which block. */
    ghost var pending: seq<Key>
    ghost var made: seq<seq<Key>>
    ghost var added: set<(nat, Key)>
    ghost var blockOffset: nat

    ghost predicate Valid()
      reads this
    {
      && policy.Valid()
      && Gathered()
      && FiltersOk(policy.hash, policy.k, result, filterOffsets, made)
      && Logged()
    }

    ghost predicate Gathered()
      reads this
    {
      && keys == Flat(pending) && |start| == |pending|
      && forall i :: 0 <= i < |start| ==> start[i] == |Flat(pending[..i])|
    }

    /** Every added key is in the filter of its block's 2 KB range, or waits for it. */
    ghost predicate Logged()
      reads this
    {
      forall o, key :: (o, key) in added ==>
        if o / FILTER_BASE < |made| then key in made[o / FILTER_BASE]
        else o / FILTER_BASE == |made| && key in pending
    }

    constructor (policy: BloomFilterPolicy)
      requires policy.Valid()
      ensures Valid() && added == {} && this.policy == policy && filterOffsets == []
    {
      this.policy := policy;
      keys, start, result, filterOffsets := [], [], [], [];
      pending, made, added, blockOffset := [], [], {}, 0;
    }

    /** Offsets never decrease; filters are made up to the 2 KB range the block starts in. */
    method StartBlock(offset: nat)
      requires Valid() && offset / FILTER_BASE >= |filterOffsets|
      modifies this
      ensures Valid() && added == old(added) && blockOffset == offset && |filterOffsets| == offset / FILTER_BASE
    {
      var filterIndex := offset / FILTER_BASE;
      while filterIndex > |filterOffsets|
        invariant Valid() && added == old(added) && |filterOffsets| <= filterIndex
      {
        GenerateFilter();
      }
      blockOffset := offset;
    }

    method AddKey(key: Key)
      requires Valid() && |filterOffsets| == blockOffset / FILTER_BASE
      modifies this
      ensures Valid() && added == old(added) + {(blockOffset, key)}
      ensures blockOffset == old(blockOffset) && filterOffsets == old(filterOffsets)
    {
      assert (pending + [key])[..|pending|] == pending;
      assert forall i :: 0 <= i <= |pending| ==> (pending + [key])[..i] == pending[..i];
      start := start + [|keys|];
      keys := keys + key;
      pending := pending + [key];
      added := added + {(blockOffset, key)};
    }

    method GenerateFilter()
      requires Valid()
      modifies this
      ensures Valid() && added == old(added) && pending == []
      ensures |filterOffsets| == |old(filterOffsets)| + 1 && made == old(made) + [old(pending)]
    {
      ghost var was := pending;
      var numKeys := |start|;
      var before := result;
      if numKeys > 0 {
        var tmpKeys := ListKeys();
        assert tmpKeys == was;
        result := policy.CreateFilter(tmpKeys, result);
      }
      AppendFilter(policy.hash, policy.k, before, filterOffsets, made, result, was);
      filterOffsets := filterOffsets + [|before|];
      made := made + [was];
      keys, start, pending := [], [], [];
    }

    /** The keys, cut out of the flat string. */
    method ListKeys() returns (tmpKeys: seq<Key>)
      requires Gathered()
      ensures tmpKeys == pending
    {
      var starts := start + [|keys|];
      tmpKeys := [];
      assert pending[..|pending|] == pending;
      for i := 0 to |start|
        invariant tmpKeys == pending[..i]
      {
        FlatSlice(pending, i);
        assert starts[i + 1] == |Flat(pending[..i + 1])|;
        tmpKeys := tmpKeys + [keys[starts[i]..starts[i + 1]]];
        assert pending[..i + 1] == pending[..i] + [pending[i]];
      }
    }

    method Finish() returns (block: seq<Byte>)
      requires Valid()
      modifies this
      ensures added == old(added) && FiltersOk(policy.hash, policy.k, result, filterOffsets, made) && Logged()
      ensures made == old(made) + if old(start) != [] then [old(pending)] else []
      ensures pending == [] && block == FilterBlockBytes(result, filterOffsets)
    {
      if start != [] {
        GenerateFilter();
      }
      assert pending == [];
      block := AppendOffsets(result, filterOffsets);
      block := block + Fixed(|result|, 4);
      block := block + [FILTER_BASE_LG];
    }

    static method AppendOffsets(data: seq<Byte>, offsets: seq<nat>) returns (block: seq<Byte>)
      ensures block == data + Fixed32s(offsets)
    {
      hide Fixed32s, Fixed;
      block := data;
      Fixed32sNone();
      for i := 0 to |offsets|
        invariant block == data + Fixed32s(offsets[..i])
      {
        Fixed32sStep(offsets, i);
        Associate(data, Fixed32s(offsets[..i]), Fixed(offsets[i], 4));
        block := block + Fixed(offsets[i], 4);
      }
      assert offsets[..|offsets|] == offsets;
    }
  }

  /** The filters, their offsets, the offset of that array, and the 2 KB parameter. */
  function FilterBlockBytes(result: seq<Byte>, offsets: seq<nat>): (r: seq<Byte>)
    ensures |r| == |result| + 4 * |offsets| + 5
  {
    result + Fixed32s(offsets) + Fixed(|result|, 4) + [FILTER_BASE_LG]
  }

  // ----- reading -----

  /** `v >> n`. */
  function ShiftRight(v: nat, n: nat): nat
    decreases n
  {
    if n == 0 then v else ShiftRight(v / 2, n - 1)
  }

  ghost predicate IsFilterBlock(contents: seq<Byte>, result: seq<Byte>, offsets: seq<nat>) {
    contents == FilterBlockBytes(result, offsets) && |contents| < TWO_32
  }

  /** The bytes of the filter block, cut up as the constructor of FilterBlockReader does. */
  lemma BlockParts(result: seq<Byte>, offsets: seq<nat>)
    requires |result| < TWO_32 && forall i :: 0 <= i < |offsets| ==> offsets[i] < TWO_32
    ensures var b := FilterBlockBytes(result, offsets); var n := |b|;
      && n == |result| + 4 * |offsets| + 5
      && b[n - 1] == FILTER_BASE_LG
      && Unfixed(b[n - 5..n - 1]) == |result|
      && b[..|result|] == result
    ensures var b := FilterBlockBytes(result, offsets);
      forall i :: 0 <= i < |offsets| ==>
        && Unfixed(b[|result| + 4 * i..|result| + 4 * i + 4]) == offsets[i]
        && Unfixed(b[|result| + 4 * i + 4..|result| + 4 * i + 8]) == End(offsets, |result|, i)
  {
    hide Fixed32s, Fixed, Unfixed;
    var b, m, f := FilterBlockBytes(result, offsets), |result|, Fixed32s(offsets);
    FourParts(result, f, Fixed(m, 4), FILTER_BASE_LG);
    Fixed32RoundTrip(m);
    forall i | 0 <= i < |offsets|
      ensures Unfixed(b[m + 4 * i..m + 4 * i + 4]) == offsets[i]
    {
      SliceOfSlice(b, m, m + |f|, 4 * i, 4 * i + 4);
      Fixed32At(offsets, i);
      Fixed32RoundTrip(offsets[i]);
    }
  }

  lemma FourParts(a: seq<Byte>, b: seq<Byte>, c: seq<Byte>, d: Byte)
    ensures var s := a + b + c + [d];
      && s[..|a|] == a && s[|a|..|a| + |b|] == b && s[|a| + |b|..|a| + |b| + |c|] == c && s[|s| - 1] == d
  {
  }

  class FilterBlockReader {
    const hash: KeyHash
    const data: seq<Byte>
    const offset: nat
    const num: nat
    const baseLg: Byte

    /** Enough room for the offset array and the word behind it; nothing otherwise. */
    ghost predicate Valid() {
      num > 0 ==> offset + 4 * num + 5 <= |data|
    }

    /** The filter for the offset is one the key matches. */
    ghost predicate Finds(blockOffset: nat, key: Key) {
      var i := ShiftRight(blockOffset, baseLg);
      && i < num && offset + 4 * i + 8 <= |data|
      && var lo, hi := Unfixed(data[offset + 4 * i..offset + 4 * i + 4]), Unfixed(data[offset + 4 * i + 4..offset + 4 * i + 8]);
        lo <= hi <= offset && hi <= |data| && MayMatch(hash, key, data[lo..hi])
    }

    constructor (hash: KeyHash, contents: seq<Byte>)
      ensures Valid() && this.hash == hash
      ensures forall result, offsets :: IsFilterBlock(contents, result, offsets) ==>
        data == contents && offset == |result| && num == |offsets| && baseLg == FILTER_BASE_LG
    {
      this.hash := hash;
      var n := |contents|;
      data, offset, num, baseLg := [], 0, 0, 0;
      if n >= 5 {
        baseLg := contents[n - 1];
        var lastWord := Unfixed(contents[n - 5..n - 1]);
        if lastWord <= n - 5 {
          data := contents;
          offset := lastWord;
          num := (n - 5 - lastWord) / 4;
        }
      }
      forall result, offsets | IsFilterBlock(contents, result, offsets)
        ensures n >= 5 && contents[n - 1] == FILTER_BASE_LG && Unfixed(contents[n - 5..n - 1]) == |result|
        ensures n == |result| + 4 * |offsets| + 5
      {
        LastWord(result, offsets);
      }
    }

    /** KeyMayMatch: errors count as potential matches. */
    method KeyMayMatch(blockOffset: nat, key: Key) returns (r: bool)
      requires Valid()
      ensures ShiftRight(blockOffset, baseLg) >= num ==> r
      ensures ShiftRight(blockOffset, baseLg) < num ==>
        var i := ShiftRight(blockOffset, baseLg);
        var lo, hi := Unfixed(data[offset + 4 * i..offset + 4 * i + 4]), Unfixed(data[offset + 4 * i + 4..offset + 4 * i + 8]);
        r <==> if lo <= hi <= offset then MayMatch(hash, key, data[lo..hi]) else lo != hi
      ensures Finds(blockOffset, key) ==> r
    {
      var index := ShiftRight(blockOffset, baseLg);
      if index < num {
        var lo := Unfixed(data[offset + index * 4..offset + index * 4 + 4]);
        var hi := Unfixed(data[offset + index * 4 + 4..offset + index * 4 + 8]);
        if lo <= hi && hi <= offset {
          r := Filters.KeyMayMatch(hash, key, data[lo..hi]);
          return;
        } else if lo == hi {
          return false;
        }
      }
      return true;
    }
  }

  lemma LastWord(result: seq<Byte>, offsets: seq<nat>)
    requires |FilterBlockBytes(result, offsets)| < TWO_32
    ensures var b := FilterBlockBytes(result, offsets); var n := |b|;
      n == |result| + 4 * |offsets| + 5 && b[n - 1] == FILTER_BASE_LG && Unfixed(b[n - 5..n - 1]) == |result|
  {
    hide Fixed32s, Fixed;
    var b := FilterBlockBytes(result, offsets);
    Fixed32RoundTrip(|result|);
    assert b[|b| - 5..|b| - 1] == Fixed(|result|, 4);
  }

  /** No false negatives: through the 2 KB index, the encoded offsets and the probes, every key
      added for a block matches at that block's offset. */
  lemma NoFalseNegatives(b: FilterBlockBuilder, block: seq<Byte>, reader: FilterBlockReader, o: nat, key: Key)
    requires FiltersOk(b.policy.hash, b.policy.k, b.result, b.filterOffsets, b.made) && b.Logged() && b.pending == []
    requires block == FilterBlockBytes(b.result, b.filterOffsets) && |block| < TWO_32
    requires reader.hash == b.policy.hash && reader.data == block && reader.offset == |b.result|
    requires reader.num == |b.filterOffsets| && reader.baseLg == FILTER_BASE_LG
    requires (o, key) in b.added
    ensures reader.Finds(o, key)
  {
    hide Fixed, Fixed32s, Unfixed, IsFilter, MayMatch, ShiftRight, FilterBlockBytes;
    var i := o / FILTER_BASE;
    BaseIsShift(o);
    assert FilterOk(b.policy.hash, b.policy.k, b.result, b.filterOffsets, i, b.made[i]);
    OffsetsFit(b.policy.hash, b.policy.k, b.result, b.filterOffsets, b.made);
    BlockParts(b.result, b.filterOffsets);
    var lo, hi := b.filterOffsets[i], End(b.filterOffsets, |b.result|, i);
    SliceOfSlice(block, 0, |b.result|, lo, hi);
    assert block[lo..hi] == b.result[lo..hi];
    FilterMatches(b.policy.hash, b.made[i], b.policy.k, b.result[lo..hi], key);
  }

  lemma OffsetsFit(hash: KeyHash, k: nat, result: seq<Byte>, offsets: seq<nat>, made: seq<seq<Key>>)
    requires FiltersOk(hash, k, result, offsets, made)
    ensures forall i :: 0 <= i < |offsets| ==> offsets[i] <= |result|
  {
    forall i | 0 <= i < |offsets|
      ensures offsets[i] <= |result|
    {
      assert FilterOk(hash, k, result, offsets, i, made[i]);
    }
  }

  lemma BaseIsShift(o: nat)
    ensures ShiftRight(o, FILTER_BASE_LG) == o / FILTER_BASE
  {
    ShiftSplit(o, 3, 8);
    ShiftSplit(ShiftRight(o, 3), 3, 5);
    ShiftSplit(ShiftRight(ShiftRight(o, 3), 3), 3, 2);
    ShiftThree(o);
    ShiftThree(o / 8);
    ShiftThree(o / 8 / 8);
    assert ShiftRight(o / 8 / 8 / 8, 2) == o / 8 / 8 / 8 / 4 by {
      assert ShiftRight(o / 8 / 8 / 8 / 2, 1) == o / 8 / 8 / 8 / 2 / 2;
    }
  }

  lemma {:induction false} ShiftSplit(v: nat, a: nat, b: nat)
    ensures ShiftRight(v, a + b) == ShiftRight(ShiftRight(v, a), b)
    decreases a
  {
    if a > 0 {
      ShiftSplit(v / 2, a - 1, b);
    }
  }

  lemma ShiftThree(v: nat)
    ensures ShiftRight(v, 3) == v / 8
  {
    assert ShiftRight(v / 2 / 2, 1) == v / 2 / 2 / 2;
  }
}
