/** An iterator over blocks reached through an index, or over the files of a sorted level
    (two_level_iterator.cc). Blocks may be empty. */
module TwoLevelIterator {
  import opened Keys
  import opened Entries
  import opened Versions
  import opened TableFormat
  import opened MergingIterator
  import opened Options

  type BlockFunction = Bytes -> seq<Entry>

  /** Block `i` is what the index value `i` leads to; index key `i` is at or after the entries of
      the blocks up to `i`, and before those of the blocks after it. */
  ghost predicate Indexes(index: seq<Entry>, open: BlockFunction, blocks: Blocks)
    ensures Indexes(index, open, blocks) ==> |index| == |blocks|
    ensures Indexes(index, open, blocks) ==> forall i :: 0 <= i < |blocks| ==> blocks[i] == open(index[i].value)
  {
    && Sorted(Contents(blocks))
    && |index| == |blocks|
    && (forall i :: 0 <= i < |blocks| ==> blocks[i] == open(index[i].value))
    && (forall i, j, e :: 0 <= j <= i < |blocks| && e in blocks[j] ==> e.key == index[i].key || Less(e.key, index[i].key))
    && forall i, j, e :: 0 <= i < j < |blocks| && e in blocks[j] ==> Less(index[i].key, e.key)
  }

  lemma BlockSorted(blocks: Blocks, i: nat)
    requires Sorted(Contents(blocks)) && i < |blocks|
    ensures Sorted(blocks[i])
  {
    BlockIn(blocks, i);
    forall a, b | 0 <= a < b < |blocks[i]|
      ensures Less(blocks[i][a].key, blocks[i][b].key)
    {
      assert Contents(blocks)[Start(blocks, i) + a] == blocks[i][a];
      assert Contents(blocks)[Start(blocks, i) + b] == blocks[i][b];
    }
  }

  lemma StartBounds(blocks: Blocks)
    ensures Start(blocks, 0) == 0 && Start(blocks, |blocks|) == |Contents(blocks)|
  {
    StartZero(blocks);
    AllContents(blocks);
  }

  /** The entry before position `Start(i)` lies in some block before `i`. */
  lemma {:induction false} InEarlierBlock(blocks: Blocks, i: nat) returns (j: nat)
    requires i <= |blocks| && Start(blocks, i) > 0
    ensures Start(blocks, i) <= |Contents(blocks)|
    ensures j < i && Contents(blocks)[Start(blocks, i) - 1] in blocks[j]
    decreases i
  {
    StartZero(blocks);
    j := i - 1;
    BlockIn(blocks, j);
    if blocks[j] == [] {
      j := InEarlierBlock(blocks, j);
    } else {
      assert Contents(blocks)[Start(blocks, j) + (|blocks[j]| - 1)] == blocks[j][|blocks[j]| - 1];
    }
  }

  lemma {:induction false} InLaterBlock(blocks: Blocks, i: nat) returns (j: nat)
    requires i <= |blocks| && Start(blocks, i) < |Contents(blocks)|
    ensures i <= j < |blocks| && Contents(blocks)[Start(blocks, i)] in blocks[j]
    decreases |blocks| - i
  {
    AllContents(blocks);
    j := i;
    BlockIn(blocks, j);
    if blocks[j] == [] {
      j := InLaterBlock(blocks, j + 1);
    } else {
      assert Contents(blocks)[Start(blocks, j) + 0] == blocks[j][0];
    }
  }

  /** Where a Seek in the index and then in its block lands. */
  function Landing(index: seq<Entry>, blocks: Blocks, target: InternalKey): nat
    requires |index| == |blocks|
  {
    var i := SeekIndex(index, target);
    if i == |index| then |Contents(blocks)| else Start(blocks, i) + SeekIndex(blocks[i], target)
  }

  lemma LandingAfter(index: seq<Entry>, open: BlockFunction, blocks: Blocks, target: InternalKey)
    requires Indexes(index, open, blocks)
    requires Landing(index, blocks, target) > 0
    ensures Landing(index, blocks, target) <= |Contents(blocks)|
    ensures Less(Contents(blocks)[Landing(index, blocks, target) - 1].key, target)
  {
    hide Sorted, Contents, Start;
    var i, p, all := SeekIndex(index, target), Landing(index, blocks, target), Contents(blocks);
    StartBounds(blocks);
    if i < |index| {
      BlockIn(blocks, i);
    }
    if i == |index| || SeekIndex(blocks[i], target) == 0 {
      var j := InEarlierBlock(blocks, i);
      var e := all[p - 1];
      assert e.key == index[i - 1].key || Less(e.key, index[i - 1].key);
    } else {
      assert all[p - 1] == blocks[i][SeekIndex(blocks[i], target) - 1];
    }
  }

  lemma LandingBefore(index: seq<Entry>, open: BlockFunction, blocks: Blocks, target: InternalKey)
    requires Indexes(index, open, blocks)
    requires Landing(index, blocks, target) < |Contents(blocks)|
    ensures !Less(Contents(blocks)[Landing(index, blocks, target)].key, target)
  {
    hide Sorted, Contents, Start;
    var i, p, all := SeekIndex(index, target), Landing(index, blocks, target), Contents(blocks);
    BlockIn(blocks, i);
    if SeekIndex(blocks[i], target) == |blocks[i]| {
      var j := InLaterBlock(blocks, i + 1);
      assert Less(index[i].key, all[p].key);
    } else {
      assert all[p] == blocks[i][SeekIndex(blocks[i], target)];
    }
  }

  lemma SeekLands(index: seq<Entry>, open: BlockFunction, blocks: Blocks, target: InternalKey)
    requires Indexes(index, open, blocks)
    ensures SeekIndex(Contents(blocks), target) == Landing(index, blocks, target)
  {
    hide Landing;
    var p := Landing(index, blocks, target);
    if p > 0 {
      LandingAfter(index, open, blocks, target);
    }
    if p < |Contents(blocks)| {
      LandingBefore(index, open, blocks, target);
    }
    SeekIs(Contents(blocks), target, p);
  }

  class TwoLevel {
    const index: Cursor
    const open: BlockFunction
    var data: Cursor?
    var dataHandle: Bytes

    ghost const blocks: Blocks
    ghost var pos: Option<nat>

    ghost predicate Linked()
      reads this, index, data
    {
      && index.Ok()
      && Indexes(index.entries, open, blocks)
      && (data != null <==> index.at.Some?)
      && (data != null ==>
        && data != index && data.Ok()
        && data.entries == blocks[index.at.value]
        && dataHandle == index.entries[index.at.value].value)
    }

    ghost predicate Valid()
      reads this, index, data
    {
      && Linked()
      && (pos.Some? <==> data != null && data.at.Some?)
      && (pos.Some? ==>
        && pos.value < |Contents(blocks)|
        && pos.value == Start(blocks, index.at.value) + data.at.value
        && data.entries[data.at.value] == Contents(blocks)[pos.value])
    }

    constructor (index: Cursor, open: BlockFunction, ghost blocks: Blocks)
      requires index.Ok() && index.at.None? && Indexes(index.entries, open, blocks)
      ensures Valid() && pos == None && this.index == index && this.open == open && this.blocks == blocks && data == null
    {
      this.index := index;
      this.open := open;
      this.blocks := blocks;
      data, dataHandle := null, "";
      pos := None;
    }

    function Entry(): Entries.Entry
      requires Valid() && pos.Some?
      reads this, index, data
      ensures Entry() == Contents(blocks)[pos.value]
    {
      data.entries[data.at.value]
    }

    /** Open the block the index is at, unless it is open already. */
    method InitDataBlock()
      requires index.Ok() && Indexes(index.entries, open, blocks)
      requires data != null ==> data != index && data.Ok() && data.entries == open(dataHandle)
      modifies `data, `dataHandle
      ensures Linked()
      ensures data == null || data == old(data) || fresh(data)
    {
      if index.at.None? {
        data := null;
      } else {
        var handle := index.entries[index.at.value].value;
        if data != null && handle == dataHandle {
        } else {
          BlockSorted(blocks, index.at.value);
          data := new Cursor(open(handle));
          dataHandle := handle;
        }
      }
    }

    /** From a position just before entry `p`, or at it, to entry `p`. */
    method SkipEmptyDataBlocksForward(ghost p: nat)
      requires Linked() && Ahead(p)
      modifies this, index, data
      ensures Valid() && pos == At(Contents(blocks), p)
      ensures data == null || data == old(data) || fresh(data)
    {
      hide Contents, Sorted, Start, Indexes;
      while data == null || data.at.None?
        invariant Linked() && Ahead(p)
        invariant data == null || data == old(data) || fresh(data)
        decreases if index.at.Some? then |index.entries| - index.at.value else 0, data != null
      {
        if index.at.None? {
          data := null;
          pos := None;
          return;
        }
        index.Next();
        InitDataBlock();
        StartBounds(blocks);
        if data != null {
          data.SeekToFirst();
          BlockIn(blocks, index.at.value);
        }
      }
      BlockIn(blocks, index.at.value);
      pos := Some(p);
    }

    /** The cursors stand at entry `p`, or at the end of the block before it. */
    ghost predicate Ahead(p: nat)
      requires Linked()
      reads this, index, data
    {
      if data == null then p == |Contents(blocks)|
      else if data.at.Some? then p == Start(blocks, index.at.value) + data.at.value
      else p == Start(blocks, index.at.value + 1)
    }

    /** The cursors stand at the entry before `p`, or before the block that starts at `p`. */
    ghost predicate Back(p: nat)
      requires Linked()
      reads this, index, data
    {
      if data == null then p == 0
      else if data.at.Some? then p == Start(blocks, index.at.value) + data.at.value + 1
      else p == Start(blocks, index.at.value)
    }

    method SkipEmptyDataBlocksBackward(ghost p: nat)
      requires Linked() && Back(p)
      modifies this, index, data
      ensures Valid() && pos == Behind(p)
      ensures data == null || data == old(data) || fresh(data)
    {
      hide Contents, Sorted, Start, Indexes;
      while data == null || data.at.None?
        invariant Linked() && Back(p)
        invariant data == null || data == old(data) || fresh(data)
        decreases if index.at.Some? then index.at.value + 1 else 0
      {
        if index.at.None? {
          data := null;
          pos := None;
          return;
        }
        index.Prev();
        InitDataBlock();
        StartBounds(blocks);
        if data != null {
          data.SeekToLast();
          BlockIn(blocks, index.at.value);
        }
      }
      BlockIn(blocks, index.at.value);
      pos := Behind(p);
    }

    method SeekToFirst()
      requires Valid()
      modifies this, index, data
      ensures Valid() && pos == At(Contents(blocks), 0)
      ensures data == null || data == old(data) || fresh(data)
    {
      index.SeekToFirst();
      InitDataBlock();
      StartBounds(blocks);
      if data != null {
        data.SeekToFirst();
        BlockIn(blocks, 0);
      }
      SkipEmptyDataBlocksForward(0);
    }

    method SeekToLast()
      requires Valid()
      modifies this, index, data
      ensures Valid() && pos == Behind(|Contents(blocks)|)
      ensures data == null || data == old(data) || fresh(data)
    {
      index.SeekToLast();
      InitDataBlock();
      StartBounds(blocks);
      if data != null {
        data.SeekToLast();
        BlockIn(blocks, |blocks| - 1);
      }
      SkipEmptyDataBlocksBackward(|Contents(blocks)|);
    }

    method Seek(target: InternalKey)
      requires Valid()
      modifies this, index, data
      ensures Valid() && pos == At(Contents(blocks), SeekIndex(Contents(blocks), target))
      ensures data == null || data == old(data) || fresh(data)
    {
      hide Contents, Sorted, Start, Indexes;
      SeekLands(index.entries, open, blocks, target);
      index.Seek(target);
      InitDataBlock();
      if data != null {
        data.Seek(target);
        BlockIn(blocks, index.at.value);
      }
      SkipEmptyDataBlocksForward(SeekIndex(Contents(blocks), target));
    }

    method Next()
      requires Valid() && pos.Some?
      modifies this, index, data
      ensures Valid() && pos == At(Contents(blocks), old(pos.value) + 1)
      ensures data == null || data == old(data) || fresh(data)
    {
      hide Contents, Sorted, Start, Indexes;
      BlockIn(blocks, index.at.value);
      data.Next();
      SkipEmptyDataBlocksForward(pos.value + 1);
    }

    method Prev()
      requires Valid() && pos.Some?
      modifies this, index, data
      ensures Valid() && pos == Behind(old(pos.value))
      ensures data == null || data == old(data) || fresh(data)
    {
      hide Contents, Sorted, Start, Indexes;
      BlockIn(blocks, index.at.value);
      data.Prev();
      SkipEmptyDataBlocksBackward(pos.value);
    }
  }
}
