/** A table with its filter block: building both side by side, and a lookup that asks the filter
    first (table_builder.cc, table.cc). */
module FilteredTables {
  import opened Keys
  import opened Entries
  import opened Coding
  import opened ByteOrder
  import opened Filters
  import opened FilterBlocks
  import opened TableFormat

  /** The user key of every entry of the block was added to the filter for the block's offset. */
  ghost predicate Added(block: seq<Entry>, offset: nat, added: set<(nat, Key)>) {
    forall e, key :: e in block && Rank(key) == e.key.user ==> (offset, key) in added
  }

  lemma AddedOne(block: seq<Entry>, offset: nat, added: set<(nat, Key)>, k: ByteKey, value: Bytes)
    requires Added(block, offset, added)
    ensures Added(block + [Entry(Abstract(k), value)], offset, added + {(offset, k.user)})
  {
    forall e, key | e in block + [Entry(Abstract(k), value)] && Rank(key) == e.key.user
      ensures (offset, key) in added + {(offset, k.user)}
    {
      RankInjective(key, k.user);
    }
  }

  class FilteredBuilder {
    const table: TableBuilder
    const filter: FilterBlockBuilder
    var offset: nat

    /** Where each finished block starts in the file. */
    var offsets: seq<nat>

    ghost predicate Valid()
      reads this, table, filter
    {
      && table.Valid() && !table.closed && filter.Valid()
      && filter.blockOffset == offset && |filter.filterOffsets| == offset / FILTER_BASE
      && Logged(table.dataBlock)
    }

    /** Finished blocks are filtered under their offsets, the open one under the next offset. */
    ghost predicate Logged(open: seq<Entry>)
      reads this, table, filter
    {
      && |offsets| == |table.blocks|
      && (forall i :: 0 <= i < |offsets| ==> Added(table.blocks[i], offsets[i], filter.added))
      && Added(open, offset, filter.added)
    }

    constructor (policy: BloomFilterPolicy)
      requires policy.Valid()
      ensures Valid() && fresh(table) && fresh(filter) && filter.policy == policy
      ensures Contents(table.blocks) + table.dataBlock == [] && offset == 0 && table.lastKey.user == [] && table.numEntries == 0
    {
      table := new TableBuilder();
      filter := new FilterBlockBuilder(policy);
      offset, offsets := 0, [];
      new;
      filter.StartBlock(0);
      assert table.dataBlock == [] && table.blocks == [];
    }

    /** Add, up to the point where the block may be full. */
    method Add(key: ByteKey, value: Bytes)
      requires Valid()
      requires table.numEntries > 0 ==> KeyBelow(table.lastKey, key)
      modifies table, filter
      ensures Valid() && table.lastKey == key && table.numEntries == old(table.numEntries) + 1
      ensures table.blocks == old(table.blocks) && table.dataBlock == old(table.dataBlock) + [Entry(Abstract(key), value)]
      ensures !table.pendingIndexEntry
      ensures OneMore(old(table.indexKeys), table.indexKeys, old(table.pendingIndexEntry), old(|table.lastKey.user|))
    {
      AddedOne(table.dataBlock, offset, filter.added, key, value);
      filter.AddKey(key.user);
      table.Add(key, value);
    }

    /** `size`: what the open block takes in the file. */
    method Flush(size: nat)
      requires Valid()
      modifies `offset, `offsets, table, filter
      ensures Valid() && table.lastKey == old(table.lastKey) && table.numEntries == old(table.numEntries)
      ensures table.dataBlock == [] && table.indexKeys == old(table.indexKeys)
      ensures Contents(table.blocks) == old(Contents(table.blocks) + table.dataBlock)
      ensures if old(table.dataBlock) == [] then
          table.blocks == old(table.blocks) && offsets == old(offsets) && offset == old(offset)
            && table.pendingIndexEntry == old(table.pendingIndexEntry)
        else
          table.blocks == old(table.blocks) + [old(table.dataBlock)] && offsets == old(offsets) + [old(offset)]
            && offset == old(offset) + size && table.pendingIndexEntry
    {
      if table.dataBlock == [] {
        EmptyBlock();
        return;
      }
      offsets := offsets + [offset];
      table.Flush();
      offset := offset + size;
      filter.StartBlock(offset);
    }

    lemma StartsEmpty()
      requires Valid() && Contents(table.blocks) + table.dataBlock == []
      ensures table.blocks == [] && table.dataBlock == [] && offsets == [] && table.indexKeys == [] && !table.pendingIndexEntry
    {
      if table.blocks != [] {
        ContentsNonempty(table.blocks);
      }
    }

    /** While a block is open every finished one is in the index. */
    lemma NothingPending()
      requires Valid() && table.dataBlock != []
      ensures !table.pendingIndexEntry && |table.indexKeys| == |table.blocks|
    {
    }

    lemma NoOpenBlock()
      requires Valid() && table.dataBlock == []
      ensures Contents(table.blocks) + table.dataBlock == Contents(table.blocks)
    {
    }

    lemma EmptyBlock()
      ensures Contents(table.blocks) + [] == Contents(table.blocks)
    {
    }

    /** The table and its filter block are complete. */
    ghost predicate Finished(block: seq<Byte>)
      reads this, table, filter
    {
      && Sorted(Contents(table.blocks))
      && Indexed(table.blocks, table.index, []) && |table.index| == |table.blocks|
      && Logged([])
      && FiltersOk(filter.policy.hash, filter.policy.k, filter.result, filter.filterOffsets, filter.made)
      && filter.Logged() && filter.pending == []
      && block == FilterBlockBytes(filter.result, filter.filterOffsets)
    }

    method Finish() returns (block: seq<Byte>)
      requires Valid() && table.dataBlock == []
      modifies table, filter
      ensures Finished(block) && table.closed && table.blocks == old(table.blocks)
      ensures AreKeys(table.index, table.indexKeys)
      ensures OneMore(old(table.indexKeys), table.indexKeys, old(table.pendingIndexEntry), old(|table.lastKey.user|))
    {
      block := filter.Finish();
      table.Finish();
    }
  }

  // ----- reading -----

  /** The filter rules out no user key of a block at that block's offset. */
  ghost predicate Covers(filter: FilterBlockReader, blocks: Blocks, offsets: seq<nat>) {
    |offsets| == |blocks| && forall i :: 0 <= i < |blocks| ==> Covered(filter, blocks[i], offsets[i])
  }

  ghost predicate Covered(filter: FilterBlockReader, block: seq<Entry>, offset: nat) {
    forall e, key :: e in block && Rank(key) == e.key.user ==> filter.Finds(offset, key)
  }

  lemma NothingRuledOut(b: FilteredBuilder, block: seq<Byte>, reader: FilterBlockReader)
    requires b.Finished(block) && |block| < TWO_32
    requires reader.hash == b.filter.policy.hash && reader.data == block && reader.offset == |b.filter.result|
    requires reader.num == |b.filter.filterOffsets| && reader.baseLg == FILTER_BASE_LG
    ensures Covers(reader, b.table.blocks, b.offsets)
  {
    forall i, e, key | 0 <= i < |b.offsets| && e in b.table.blocks[i] && Rank(key) == e.key.user
      ensures reader.Finds(b.offsets[i], key)
    {
      assert Added(b.table.blocks[i], b.offsets[i], b.filter.added);
      NoFalseNegatives(b.filter, block, reader, b.offsets[i], key);
    }
  }

  /** A key the filter rejects is not found in its block. */
  lemma RejectedIsAbsent(block: seq<Entry>, j: nat, k: UserKey)
    requires forall e :: e in block ==> e.key.user != k
    ensures Entries.Probe(block, j, k) == Absent
  {
  }
}
