/** Tables: data blocks behind an index of shortened separators (table_builder.cc, table.cc,
    dbformat.cc). */
module TableFormat {
  import opened Keys
  import opened Entries
  import opened Versions
  import opened Coding
  import opened ByteOrder
  import opened Options

  /** An internal key as stored: user key bytes and the 64-bit tag. */
  datatype ByteKey = ByteKey(user: seq<Byte>, sequence: SequenceNumber, kind: ValueType)

  /** The engine's view of a stored key. */
  function Abstract(k: ByteKey): InternalKey {
    InternalKey(Rank(k.user), k.sequence, k.kind)
  }

  /** The encoded form ends in eight bytes holding the tag. */
  function EncodeKey(k: ByteKey): seq<Byte> {
    k.user + Fixed(Pack(Abstract(k)), 8)
  }

  function DecodeKey(bytes: seq<Byte>): Option<ByteKey> {
    if |bytes| < 8 then None
    else
      var tag := Unfixed(bytes[|bytes| - 8..]);
      if tag % 256 > 1 || tag / 256 > MAX_SEQUENCE then None
      else Some(ByteKey(bytes[..|bytes| - 8], tag / 256, if tag % 256 == 1 then TypeValue else TypeDeletion))
  }

  /** ParseInternalKey undoes AppendInternalKey. */
  lemma KeyRoundTrip(k: ByteKey)
    ensures DecodeKey(EncodeKey(k)) == Some(k)
  {
    var tag, bytes := Pack(Abstract(k)), EncodeKey(k);
    assert bytes[|bytes| - 8..] == Fixed(tag, 8) && bytes[..|bytes| - 8] == k.user;
    hide Fixed, Unfixed, EncodeKey, Rank;
    Fixed64RoundTrip(tag);
    TagParts(k.sequence, TypeCode(k.kind));
  }

  lemma TagParts(sequence: SequenceNumber, code: nat)
    requires code < 2
    ensures (sequence * 256 + code) % 256 == code && (sequence * 256 + code) / 256 == sequence
  {
  }

  /** InternalKeyComparator: user bytes first, then the larger tag first; this is the engine's order. */
  predicate KeyBelow(a: ByteKey, b: ByteKey) {
    Below(a.user, b.user) || (a.user == b.user && Pack(Abstract(a)) > Pack(Abstract(b)))
  }

  lemma KeyBelowIsLess(a: ByteKey, b: ByteKey)
    ensures KeyBelow(a, b) <==> Less(Abstract(a), Abstract(b))
    ensures Abstract(a) == Abstract(b) ==> a == b
  {
    RankOrder(a.user, b.user);
    RankInjective(a.user, b.user);
  }

  // ----- separators -----

  /** `r` may stand between `start` and `limit` in an index: it is `start` itself, or a key of
      an earlier user key than `limit`. */
  ghost predicate Separates(start: InternalKey, r: InternalKey, limit: InternalKey) {
    && (r == start || Less(start, r))
    && Less(r, limit)
    && (r == start || r.user < limit.user)
  }

  /** InternalKeyComparator::FindShortestSeparator. */
  method FindShortestInternalSeparator(start: ByteKey, limit: ByteKey) returns (r: ByteKey)
    ensures |r.user| <= |start.user|
    ensures KeyBelow(start, limit) ==> Separates(Abstract(start), Abstract(r), Abstract(limit))
    ensures forall d: nat :: RoomAt(start.user, limit.user, d) && d + 1 < |start.user| ==>
      r == ByteKey(start.user[..d] + [start.user[d] + 1], MAX_SEQUENCE, TypeValue)
    ensures (forall d: nat :: !(RoomAt(start.user, limit.user, d) && d + 1 < |start.user|)) ==> r == start
  {
    r := start;
    var tmp := FindShortestSeparator(start.user, limit.user);
    if |tmp| < |start.user| && Below(start.user, tmp) {
      r := ByteKey(tmp, MAX_SEQUENCE, TypeValue);
      RankOrder(start.user, tmp);
      RankOrder(tmp, limit.user);
      RankOrder(start.user, limit.user);
    }
    KeyBelowIsLess(start, limit);
  }

  /** InternalKeyComparator::FindShortSuccessor. */
  method FindShortInternalSuccessor(key: ByteKey) returns (r: ByteKey)
    ensures r == key || Less(Abstract(key), Abstract(r))
    ensures |r.user| <= |key.user|
    ensures forall i: nat :: i + 1 < |key.user| && key.user[i] != 0xff && (forall j :: 0 <= j < i ==> key.user[j] == 0xff) ==>
      r == ByteKey(key.user[..i] + [key.user[i] + 1], MAX_SEQUENCE, TypeValue)
    ensures (forall i :: 0 <= i < |key.user| - 1 ==> key.user[i] == 0xff) ==> r == key
  {
    r := key;
    var tmp := FindShortSuccessor(key.user);
    if |tmp| < |key.user| && Below(key.user, tmp) {
      r := ByteKey(tmp, MAX_SEQUENCE, TypeValue);
      RankOrder(key.user, tmp);
    }
  }

  // ----- the table as blocks behind an index -----

  type Blocks = seq<seq<Entry>>

  /** All entries of the table in order. */
  function Contents(blocks: Blocks): seq<Entry> {
    if blocks == [] then [] else Contents(blocks[..|blocks| - 1]) + blocks[|blocks| - 1]
  }

  function LastOf(block: seq<Entry>): Entry
    requires block != []
  {
    block[|block| - 1]
  }

  /** Index key `i` separates block `i` from the first entry after it. */
  ghost predicate Indexed(blocks: Blocks, index: seq<InternalKey>, next: seq<Entry>) {
    && |index| <= |blocks|
    && (forall i :: 0 <= i < |blocks| ==> blocks[i] != [])
    && (forall i :: 0 <= i < |index| && i + 1 < |blocks| ==> Separates(LastOf(blocks[i]).key, index[i], blocks[i + 1][0].key))
    && (|blocks| > 0 && |index| == |blocks| ==>
      var k, last := index[|index| - 1], LastOf(blocks[|blocks| - 1]).key;
      if next == [] then k == last || Less(last, k) else Separates(last, k, next[0].key))
  }

  /** One more index key if one was due, and none longer than the key it was made from. */
  ghost predicate OneMore(was: seq<ByteKey>, now: seq<ByteKey>, due: bool, length: nat) {
    && |now| == |was| + (if due then 1 else 0)
    && now[..|was|] == was
    && (due ==> |now[|was|].user| <= length)
  }

  /** The index keys, as stored and as the engine sees them. */
  ghost predicate AreKeys(index: seq<InternalKey>, keys: seq<ByteKey>) {
    |index| == |keys| && forall i :: 0 <= i < |keys| ==> index[i] == Abstract(keys[i])
  }

  class TableBuilder {
    var blocks: Blocks
    var dataBlock: seq<Entry>
    var index: seq<InternalKey>
    var indexKeys: seq<ByteKey>
    var pendingIndexEntry: bool
    var lastKey: ByteKey
    var numEntries: nat
    var closed: bool

    ghost predicate Valid()
      reads this
    {
      && Sorted(Contents(blocks) + dataBlock)
      && Indexed(blocks, index, dataBlock)
      && |index| + (if pendingIndexEntry then 1 else 0) == |blocks|
      && AreKeys(index, indexKeys)
      && (pendingIndexEntry ==> dataBlock == [])
      && numEntries == |Contents(blocks)| + |dataBlock|
      && (dataBlock != [] ==> Abstract(lastKey) == LastOf(dataBlock).key)
      && (pendingIndexEntry ==> Abstract(lastKey) == LastOf(blocks[|blocks| - 1]).key)
      && (dataBlock == [] && !pendingIndexEntry && !closed ==> blocks == [])
      && (closed ==> dataBlock == [] && !pendingIndexEntry)
    }

    constructor ()
      ensures Valid() && Contents(blocks) + dataBlock == [] && !closed && lastKey.user == [] && numEntries == 0
    {
      blocks, dataBlock, index, indexKeys, pendingIndexEntry, numEntries, closed := [], [], [], [], false, 0, false;
      lastKey := ByteKey([], 0, TypeDeletion);
    }

    /** Add, up to the point where the block may be full. */
    method Add(key: ByteKey, value: Bytes)
      requires Valid() && !closed
      requires numEntries > 0 ==> KeyBelow(lastKey, key)
      modifies this
      ensures Valid() && !closed
      ensures Contents(blocks) + dataBlock == old(Contents(blocks) + dataBlock) + [Entry(Abstract(key), value)]
      ensures numEntries == old(numEntries) + 1 && lastKey == key
      ensures blocks == old(blocks) && dataBlock == old(dataBlock) + [Entry(Abstract(key), value)] && !pendingIndexEntry
      ensures OneMore(old(indexKeys), indexKeys, old(pendingIndexEntry), old(|lastKey.user|))
    {
      hide Sorted, Rank, Separates, KeyBelow, Indexed, AreKeys, OneMore;
      ghost var before := Contents(blocks) + dataBlock;
      var e := Entry(Abstract(key), value);
      if numEntries > 0 {
        KeyBelowIsLess(lastKey, key);
        NoEmptyBlock();
        LastEntry(blocks, dataBlock);
      }
      AppendSorted(before, e);
      IndexBefore(key, e);
      assert Contents(blocks) + (dataBlock + [e]) == before + [e];
      AppendEntry(key, value);
    }

    lemma NoEmptyBlock()
      requires Valid()
      ensures forall i :: 0 <= i < |blocks| ==> blocks[i] != []
    {
    }

    /** The entry joins the open block. */
    method AppendEntry(key: ByteKey, value: Bytes)
      requires Sorted(Contents(blocks) + (dataBlock + [Entry(Abstract(key), value)]))
      requires Indexed(blocks, index, dataBlock + [Entry(Abstract(key), value)]) && |index| == |blocks| && AreKeys(index, indexKeys)
      requires !pendingIndexEntry && !closed && numEntries == |Contents(blocks)| + |dataBlock|
      modifies `dataBlock, `lastKey, `numEntries
      ensures Valid() && !closed && dataBlock == old(dataBlock) + [Entry(Abstract(key), value)]
      ensures numEntries == old(numEntries) + 1 && lastKey == key
    {
      hide Sorted, Indexed, Abstract;
      lastKey := key;
      numEntries := numEntries + 1;
      dataBlock := dataBlock + [Entry(Abstract(key), value)];
    }

    /** The index entry of the last block, once the key after it is known. */
    method IndexBefore(key: ByteKey, ghost e: Entry)
      requires Valid() && !closed && e.key == Abstract(key)
      requires numEntries > 0 ==> KeyBelow(lastKey, key)
      modifies `index, `indexKeys, `pendingIndexEntry
      ensures !pendingIndexEntry && |index| == |blocks| && Indexed(blocks, index, dataBlock + [e]) && AreKeys(index, indexKeys)
      ensures OneMore(old(indexKeys), indexKeys, old(pendingIndexEntry), |lastKey.user|)
    {
      if pendingIndexEntry {
        ContentsNonempty(blocks);
        var separator := FindShortestInternalSeparator(lastKey, key);
        index, indexKeys := index + [Abstract(separator)], indexKeys + [separator];
        pendingIndexEntry := false;
      }
    }

    method Flush()
      requires Valid() && !closed
      modifies `blocks, `dataBlock, `pendingIndexEntry
      ensures Valid()
      ensures dataBlock == [] && Contents(blocks) == old(Contents(blocks) + dataBlock)
      ensures blocks == old(blocks) + if old(dataBlock) == [] then [] else [old(dataBlock)]
      ensures pendingIndexEntry <==> old(pendingIndexEntry) || old(dataBlock) != []
    {
      hide Sorted, Indexed, AreKeys;
      if dataBlock == [] {
        return;
      }
      BlockClosed(blocks, dataBlock, index);
      blocks := blocks + [dataBlock];
      dataBlock := [];
      pendingIndexEntry := true;
    }

    method Finish()
      requires Valid() && !closed
      modifies this
      ensures Valid() && closed
      ensures Contents(blocks) == old(Contents(blocks) + dataBlock)
      ensures blocks == old(blocks) + if old(dataBlock) == [] then [] else [old(dataBlock)]
      ensures Indexed(blocks, index, []) && |index| == |blocks| && AreKeys(index, indexKeys)
      ensures OneMore(old(indexKeys), indexKeys, old(pendingIndexEntry) || old(dataBlock) != [], old(|lastKey.user|))
    {
      hide Sorted, Contents, Separates, Indexed, AreKeys, OneMore;
      Flush();
      IndexLast();
      closed := true;
    }

    /** The index entry of the very last block. */
    method IndexLast()
      requires Valid() && !closed && dataBlock == []
      modifies `index, `indexKeys, `pendingIndexEntry
      ensures !pendingIndexEntry && |index| == |blocks| && Indexed(blocks, index, []) && AreKeys(index, indexKeys)
      ensures OneMore(old(indexKeys), indexKeys, old(pendingIndexEntry), |lastKey.user|)
    {
      hide Sorted, Contents;
      if pendingIndexEntry {
        var successor := FindShortInternalSuccessor(lastKey);
        index, indexKeys := index + [Abstract(successor)], indexKeys + [successor];
        pendingIndexEntry := false;
      }
    }
  }

  /** The last added entry ends the contents. */
  lemma LastEntry(blocks: Blocks, dataBlock: seq<Entry>)
    requires forall i :: 0 <= i < |blocks| ==> blocks[i] != []
    requires dataBlock != [] || blocks != []
    ensures Contents(blocks) + dataBlock != []
    ensures LastOf(Contents(blocks) + dataBlock) == if dataBlock != [] then LastOf(dataBlock) else LastOf(blocks[|blocks| - 1])
  {
    if dataBlock == [] {
      assert Contents(blocks) + dataBlock == Contents(blocks[..|blocks| - 1]) + blocks[|blocks| - 1];
    }
  }

  lemma ContentsNonempty(blocks: Blocks)
    requires blocks != [] && blocks[|blocks| - 1] != []
    ensures |Contents(blocks)| > 0
  {
  }

  lemma AppendSorted(es: seq<Entry>, e: Entry)
    requires Sorted(es) && (es != [] ==> Less(LastOf(es).key, e.key))
    ensures Sorted(es + [e])
  {
    forall i | 0 <= i < |es|
      ensures Less(es[i].key, e.key)
    {
      assert i < |es| - 1 ==> Less(es[i].key, LastOf(es).key);
    }
  }

  // ----- point lookup -----

  /** First index key at or after `target`. */
  function IndexSeek(index: seq<InternalKey>, target: InternalKey): (i: nat)
    ensures i <= |index|
    ensures forall j :: 0 <= j < i ==> Less(index[j], target)
    ensures i < |index| ==> !Less(index[i], target)
  {
    if index == [] || !Less(index[0], target) then 0
    else
      var i := IndexSeek(index[1..], target);
      assert forall j :: 1 <= j < i + 1 ==> index[j] == index[1..][j - 1];
      i + 1
  }

  /** Where block `i` starts in the contents. */
  function Start(blocks: Blocks, i: nat): nat
    requires i <= |blocks|
  {
    |Contents(blocks[..i])|
  }

  lemma {:induction false} BlockIn(blocks: Blocks, i: nat)
    requires i < |blocks|
    ensures Start(blocks, i + 1) == Start(blocks, i) + |blocks[i]| <= |Contents(blocks)|
    ensures forall j :: 0 <= j < |blocks[i]| ==> Contents(blocks)[Start(blocks, i) + j] == blocks[i][j]
    decreases |blocks|
  {
    var n := |blocks| - 1;
    assert blocks[..i + 1][..i] == blocks[..i];
    if i < n {
      BlockIn(blocks[..n], i);
      assert blocks[..n][..i] == blocks[..i] && blocks[..n][..i + 1] == blocks[..i + 1];
    } else {
      assert blocks[..n + 1] == blocks;
    }
  }

  lemma SeekIs(es: seq<Entry>, target: InternalKey, i: nat)
    requires Sorted(es) && i <= |es|
    requires i > 0 ==> Less(es[i - 1].key, target)
    requires i < |es| ==> !Less(es[i].key, target)
    ensures SeekIndex(es, target) == i
  {
    var j := SeekIndex(es, target);
    assert j == i;
  }

  /** The open block closed: nothing changes but where it stands. */
  lemma BlockClosed(blocks: Blocks, block: seq<Entry>, index: seq<InternalKey>)
    requires block != [] && |index| == |blocks| && Indexed(blocks, index, block) && Sorted(Contents(blocks) + block)
    ensures Contents(blocks + [block]) + [] == Contents(blocks + [block]) == Contents(blocks) + block
    ensures Indexed(blocks + [block], index, []) && Sorted(Contents(blocks + [block]) + [])
  {
    hide Sorted, Separates;
    assert (blocks + [block])[..|blocks|] == blocks;
    assert Contents(blocks) + block == Contents(blocks) + block + [];
  }

  /** The entry before block `i` lies before the target an index Seek took to that block. */
  lemma BeforeBlock(blocks: Blocks, index: seq<InternalKey>, target: InternalKey, i: nat)
    requires Indexed(blocks, index, []) && |index| == |blocks|
    requires 0 < i <= |blocks| && Less(index[i - 1], target)
    ensures Start(blocks, i) > 0 && Start(blocks, i) <= |Contents(blocks)|
    ensures Less(Contents(blocks)[Start(blocks, i) - 1].key, target)
  {
    AtSeparator(blocks, index, i - 1);
    hide Indexed, Separates, Contents, Sorted;
    LastInBlock(blocks, i);
  }

  lemma LastInBlock(blocks: Blocks, i: nat)
    requires 0 < i <= |blocks| && blocks[i - 1] != []
    ensures 0 < Start(blocks, i) <= |Contents(blocks)| && Contents(blocks)[Start(blocks, i) - 1] == LastOf(blocks[i - 1])
  {
    hide Contents, Start;
    BlockIn(blocks, i - 1);
    var k := |blocks[i - 1]| - 1;
    assert Contents(blocks)[Start(blocks, i - 1) + k] == blocks[i - 1][k];
  }

  lemma AtSeparator(blocks: Blocks, index: seq<InternalKey>, i: nat)
    requires Indexed(blocks, index, []) && i < |index| == |blocks|
    ensures blocks[i] != [] && (index[i] == LastOf(blocks[i]).key || Less(LastOf(blocks[i]).key, index[i]))
  {
    hide Less;
    if i + 1 < |blocks| {
      assert Separates(LastOf(blocks[i]).key, index[i], blocks[i + 1][0].key);
    } else {
      assert i == |index| - 1;
    }
  }

  /** The Seek lands inside block `i`. */
  lemma FoundInBlock(blocks: Blocks, index: seq<InternalKey>, target: InternalKey, i: nat)
    requires Sorted(Contents(blocks))
    requires Indexed(blocks, index, []) && |index| == |blocks|
    requires i < |blocks| && (i > 0 ==> Less(index[i - 1], target))
    requires SeekIndex(blocks[i], target) < |blocks[i]|
    ensures var p := Start(blocks, i) + SeekIndex(blocks[i], target);
      SeekIndex(Contents(blocks), target) == p < |Contents(blocks)| && Contents(blocks)[p] == blocks[i][SeekIndex(blocks[i], target)]
  {
    hide Sorted, Contents, Indexed;
    BlockIn(blocks, i);
    var all, j, p := Contents(blocks), SeekIndex(blocks[i], target), Start(blocks, i);
    if j == 0 && i > 0 {
      BeforeBlock(blocks, index, target, i);
    }
    assert j > 0 ==> all[p + j - 1] == blocks[i][j - 1];
    StartZero(blocks);
    SeekIs(all, target, p + j);
  }

  /** The Seek runs past block `i`: it lands on the first entry of the next block, if there is one. */
  lemma PastBlock(blocks: Blocks, index: seq<InternalKey>, target: InternalKey, i: nat)
    requires Sorted(Contents(blocks))
    requires Indexed(blocks, index, []) && |index| == |blocks|
    requires i < |blocks| && !Less(index[i], target)
    requires SeekIndex(blocks[i], target) == |blocks[i]|
    ensures SeekIndex(Contents(blocks), target) == Start(blocks, i + 1) <= |Contents(blocks)|
    ensures i + 1 == |blocks| ==> Start(blocks, i + 1) == |Contents(blocks)|
    ensures i + 1 < |blocks| ==> Start(blocks, i + 1) < |Contents(blocks)| && Contents(blocks)[Start(blocks, i + 1)] == blocks[i + 1][0]
    ensures i + 1 < |blocks| ==> blocks[i + 1][0].key.user > target.user
  {
    hide Sorted, Contents;
    BlockIn(blocks, i);
    var all, p := Contents(blocks), Start(blocks, i + 1);
    assert all[p - 1] == LastOf(blocks[i]) && Less(LastOf(blocks[i]).key, target);
    if i + 1 < |blocks| {
      BlockIn(blocks, i + 1);
      NextIsBeyond(LastOf(blocks[i]).key, index[i], blocks[i + 1][0].key, target);
      assert all[p] == blocks[i + 1][0];
    } else {
      AllContents(blocks);
    }
    SeekIs(all, target, p);
  }

  lemma NextIsBeyond(last: InternalKey, separator: InternalKey, next: InternalKey, target: InternalKey)
    requires Separates(last, separator, next) && Less(last, target) && !Less(separator, target)
    ensures next.user > target.user && !Less(next, target)
  {
  }

  /** One data block is enough: what the probed block does not have for the key, no block has. */
  lemma OneBlockEnough(blocks: Blocks, index: seq<InternalKey>, k: UserKey, s: SequenceNumber)
    requires Sorted(Contents(blocks))
    requires Indexed(blocks, index, []) && |index| == |blocks|
    ensures var target := SeekKey(k, s); var i := IndexSeek(index, target); var all := Contents(blocks);
      Probe(all, SeekIndex(all, target), k) == if i < |index| then Probe(blocks[i], SeekIndex(blocks[i], target), k) else Absent
  {
    hide Sorted, Contents, Indexed;
    var target, all := SeekKey(k, s), Contents(blocks);
    var i := IndexSeek(index, target);
    if i == |index| {
      AllContents(blocks);
      StartZero(blocks);
      if i > 0 {
        BeforeBlock(blocks, index, target, i);
      }
      SeekIs(all, target, |all|);
    } else if SeekIndex(blocks[i], target) < |blocks[i]| {
      FoundInBlock(blocks, index, target, i);
    } else {
      PastBlock(blocks, index, target, i);
    }
  }

  lemma AllContents(blocks: Blocks)
    ensures Start(blocks, |blocks|) == |Contents(blocks)|
  {
    assert blocks[..|blocks|] == blocks;
  }

  lemma StartZero(blocks: Blocks)
    ensures Start(blocks, 0) == 0
  {
    assert blocks[..0] == [];
  }
}
