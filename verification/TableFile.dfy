/** The table file: blocks with their trailers, the filter block, metaindex, index and footer, written
    by a builder and read back by a table (format.cc, table_builder.cc, table.cc). */
module TableFiles {
  import opened Keys
  import opened Entries
  import opened Versions
  import opened Coding
  import opened ByteOrder
  import opened BlockFormat
  import opened BlockReader
  import opened BlockLookup
  import opened Filters
  import opened FilterBlocks
  import opened TableFormat
  import opened FilteredTables
  import opened Options

  // ----- handles -----

  datatype BlockHandle = BlockHandle(offset: nat, size: nat)

  function HandleBytes(h: BlockHandle): seq<Byte> {
    Varint(h.offset) + Varint(h.size)
  }

  function DecodeHandle(input: seq<Byte>): Parsed<BlockHandle> {
    var offset := GetVarint64(input);
    if offset.Failed? then Failed
    else
      var size := GetVarint64(offset.rest);
      if size.Failed? then Failed else Parsed(BlockHandle(offset.value, size.value), size.rest)
  }

  predicate Fits64(h: BlockHandle) {
    h.offset < TWO_64 && h.size < TWO_64
  }

  lemma HandleRoundTrip(h: BlockHandle, tail: seq<Byte>)
    requires Fits64(h)
    ensures DecodeHandle(HandleBytes(h) + tail) == Parsed(h, tail)
  {
    hide Varint, GetVarint64;
    assert HandleBytes(h) + tail == Varint(h.offset) + (Varint(h.size) + tail);
    Varint64RoundTrip(h.offset, Varint(h.size) + tail);
    Varint64RoundTrip(h.size, tail);
  }

  lemma {:induction false} VarintShort(v: nat, n: nat)
    requires n > 0 && v < Pow(128, n)
    ensures |Varint(v)| <= n
    decreases n
  {
    if v >= 128 {
      assert Pow(128, n) == 128 * Pow(128, n - 1);
      VarintShort(v / 128, n - 1);
    }
  }

  lemma HandleShort(h: BlockHandle)
    requires Fits64(h)
    ensures |HandleBytes(h)| <= 20
  {
    hide Varint, Pow;
    PowersOf128();
    VarintShort(h.offset, 10);
    VarintShort(h.size, 10);
  }

  // ----- blocks in the file -----

  const BLOCK_TRAILER_SIZE: nat := 5
  const NO_COMPRESSION: Byte := 0

  /** The masked checksum of a block and its type byte. */
  type BlockChecksum = seq<Byte> -> nat

  ghost predicate Is32(crc: BlockChecksum) {
    forall b :: crc(b) < TWO_32
  }

  /** WriteRawBlock: the contents, the type, and the checksum of both. */
  function RawBlock(crc: BlockChecksum, contents: seq<Byte>): (r: seq<Byte>)
    ensures |r| == |contents| + BLOCK_TRAILER_SIZE
  {
    contents + [NO_COMPRESSION] + Fixed(crc(contents + [NO_COMPRESSION]), 4)
  }

  /** ReadBlock, without compression. */
  function ReadBlock(file: seq<Byte>, h: BlockHandle, crc: BlockChecksum, verify: bool): Option<seq<Byte>> {
    if h.offset + h.size + BLOCK_TRAILER_SIZE > |file| then None
    else
      var data := file[h.offset..h.offset + h.size + BLOCK_TRAILER_SIZE];
      if verify && Unfixed(data[h.size + 1..]) != crc(data[..h.size + 1]) then None
      else if data[h.size] == NO_COMPRESSION then Some(data[..h.size])
      else None
  }

  ghost predicate HasBlock(file: seq<Byte>, h: BlockHandle, crc: BlockChecksum, contents: seq<Byte>) {
    && Fits64(h) && h.size == |contents|
    && h.offset + |contents| + BLOCK_TRAILER_SIZE <= |file|
    && file[h.offset..h.offset + |contents| + BLOCK_TRAILER_SIZE] == RawBlock(crc, contents)
  }

  lemma ReadBack(file: seq<Byte>, h: BlockHandle, crc: BlockChecksum, contents: seq<Byte>, verify: bool)
    requires HasBlock(file, h, crc, contents) && Is32(crc)
    ensures ReadBlock(file, h, crc, verify) == Some(contents)
  {
    hide Fixed, Unfixed;
    var data, n := RawBlock(crc, contents), |contents|;
    assert data[..n] == contents && data[..n + 1] == contents + [NO_COMPRESSION];
    assert data[n + 1..] == Fixed(crc(contents + [NO_COMPRESSION]), 4);
    Fixed32RoundTrip(crc(contents + [NO_COMPRESSION]));
  }

  lemma StillHasBlock(file: seq<Byte>, more: seq<Byte>, h: BlockHandle, crc: BlockChecksum, contents: seq<Byte>)
    requires HasBlock(file, h, crc, contents)
    ensures HasBlock(file + more, h, crc, contents)
  {
    var hi := h.offset + |contents| + BLOCK_TRAILER_SIZE;
    assert (file + more)[h.offset..hi] == file[h.offset..hi];
  }

  lemma NewBlock(file: seq<Byte>, crc: BlockChecksum, contents: seq<Byte>)
    requires |file| + |contents| + BLOCK_TRAILER_SIZE < TWO_64
    ensures HasBlock(file + RawBlock(crc, contents), BlockHandle(|file|, |contents|), crc, contents)
  {
    hide RawBlock;
    var raw := RawBlock(crc, contents);
    assert (file + raw)[|file|..|file| + |raw|] == raw;
  }

  // ----- the footer -----

  const FOOTER_SIZE: nat := 48
  const MAGIC_LOW: nat := 0x8b80fb57
  const MAGIC_HIGH: nat := 0xdb477524

  function Zeros(n: nat): (r: seq<Byte>)
    ensures |r| == n
  {
    seq(n, _ => 0)
  }

  function Padded(b: seq<Byte>, n: nat): (r: seq<Byte>)
    ensures |b| <= n ==> |r| == n && r[..|b|] == b
  {
    if |b| <= n then b + Zeros(n - |b|) else b
  }

  function FooterBytes(meta: BlockHandle, index: BlockHandle): seq<Byte> {
    Padded(HandleBytes(meta) + HandleBytes(index), FOOTER_SIZE - 8) + Fixed(MAGIC_LOW, 4) + Fixed(MAGIC_HIGH, 4)
  }

  /** The handles of metaindex and index. */
  function DecodeFooter(input: seq<Byte>): Option<(BlockHandle, BlockHandle)>
    requires |input| == FOOTER_SIZE
  {
    if Unfixed(input[FOOTER_SIZE - 8..FOOTER_SIZE - 4]) != MAGIC_LOW || Unfixed(input[FOOTER_SIZE - 4..]) != MAGIC_HIGH then None
    else
      var meta := DecodeHandle(input);
      if meta.Failed? then None
      else
        var index := DecodeHandle(meta.rest);
        if index.Failed? then None else Some((meta.value, index.value))
  }

  lemma FooterRoundTrip(meta: BlockHandle, index: BlockHandle)
    requires Fits64(meta) && Fits64(index)
    ensures |FooterBytes(meta, index)| == FOOTER_SIZE
    ensures DecodeFooter(FooterBytes(meta, index)) == Some((meta, index))
  {
    hide Fixed, Unfixed, HandleBytes, DecodeHandle;
    HandleShort(meta);
    HandleShort(index);
    var b, low, high := HandleBytes(meta) + HandleBytes(index), Fixed(MAGIC_LOW, 4), Fixed(MAGIC_HIGH, 4);
    var f, rest := FooterBytes(meta, index), Zeros(FOOTER_SIZE - 8 - |b|) + low + high;
    assert f[FOOTER_SIZE - 8..FOOTER_SIZE - 4] == low && f[FOOTER_SIZE - 4..] == high;
    Fixed32RoundTrip(MAGIC_LOW);
    Fixed32RoundTrip(MAGIC_HIGH);
    assert f == HandleBytes(meta) + (HandleBytes(index) + rest);
    HandleRoundTrip(meta, HandleBytes(index) + rest);
    HandleRoundTrip(index, rest);
  }

  // ----- what a table file holds -----

  /** The pairs of a finished block, and which of them are restart points. */
  datatype Image = Image(kvs: seq<Pair>, rs: seq<nat>)

  ghost predicate BlockOf(contents: seq<Byte>, im: Image) {
    GoodRestarts(im.kvs, im.rs) && contents == BlockBytes(im.kvs, im.rs)
  }

  /** Block `i` is in the file under its handle, as the bytes of its entries. */
  ghost predicate StoredAt(file: seq<Byte>, crc: BlockChecksum, block: seq<Entry>, im: Image, h: BlockHandle, contents: seq<Byte>) {
    BlockOf(contents, im) && Encodes(im.kvs, block) && HasBlock(file, h, crc, contents)
  }

  ghost predicate BlocksStored(file: seq<Byte>, crc: BlockChecksum, blocks: Blocks, offsets: seq<nat>, images: seq<Image>,
                               handles: seq<BlockHandle>, contents: seq<seq<Byte>>)
  {
    && |blocks| == |offsets| == |images| == |handles| == |contents|
    && forall i :: 0 <= i < |blocks| ==>
        handles[i].offset == offsets[i] && StoredAt(file, crc, blocks[i], images[i], handles[i], contents[i])
  }

  /** The index block maps index keys to handles. */
  ghost predicate IndexLists(kvs: seq<Pair>, keys: seq<ByteKey>, handles: seq<BlockHandle>) {
    && |kvs| == |keys| <= |handles|
    && forall i :: 0 <= i < |keys| ==> kvs[i] == Pair(EncodeKey(keys[i]), HandleBytes(handles[i]))
  }

  lemma StillStored(file: seq<Byte>, more: seq<Byte>, crc: BlockChecksum, blocks: Blocks, offsets: seq<nat>, images: seq<Image>,
                    handles: seq<BlockHandle>, contents: seq<seq<Byte>>)
    requires BlocksStored(file, crc, blocks, offsets, images, handles, contents)
    ensures BlocksStored(file + more, crc, blocks, offsets, images, handles, contents)
  {
    hide HasBlock, BlockOf, Encodes;
    forall i | 0 <= i < |blocks|
      ensures StoredAt(file + more, crc, blocks[i], images[i], handles[i], contents[i])
    {
      assert StoredAt(file, crc, blocks[i], images[i], handles[i], contents[i]);
      StillHasBlock(file, more, handles[i], crc, contents[i]);
    }
  }

  lemma OneMoreStored(file: seq<Byte>, crc: BlockChecksum, blocks: Blocks, offsets: seq<nat>, images: seq<Image>,
                      handles: seq<BlockHandle>, contents: seq<seq<Byte>>, block: seq<Entry>, im: Image, bytes: seq<Byte>)
    requires BlocksStored(file, crc, blocks, offsets, images, handles, contents)
    requires BlockOf(bytes, im) && Encodes(im.kvs, block) && |file| + |bytes| + BLOCK_TRAILER_SIZE < TWO_64
    ensures BlocksStored(file + RawBlock(crc, bytes), crc, blocks + [block], offsets + [|file|], images + [im],
                         handles + [BlockHandle(|file|, |bytes|)], contents + [bytes])
  {
    hide HasBlock, BlockOf, Encodes, StoredAt, RawBlock;
    StillStored(file, RawBlock(crc, bytes), crc, blocks, offsets, images, handles, contents);
    NewBlock(file, crc, bytes);
    NewStored(file + RawBlock(crc, bytes), crc, block, im, BlockHandle(|file|, |bytes|), bytes);
  }

  lemma NewStored(file: seq<Byte>, crc: BlockChecksum, block: seq<Entry>, im: Image, h: BlockHandle, bytes: seq<Byte>)
    requires BlockOf(bytes, im) && Encodes(im.kvs, block) && HasBlock(file, h, crc, bytes)
    ensures StoredAt(file, crc, block, im, h, bytes)
  {
  }

  /** "filter." and the name of the policy. */
  function FilterKey(name: seq<Byte>): seq<Byte> {
    [102, 105, 108, 116, 101, 114, 46] + name
  }

  /** The parts of a finished table. */
  datatype Layout = Layout(
    blocks: Blocks, index: seq<InternalKey>, keys: seq<ByteKey>, offsets: seq<nat>,
    images: seq<Image>, handles: seq<BlockHandle>, contents: seq<seq<Byte>>,
    indexImage: Image, indexBlock: seq<Byte>, indexHandle: BlockHandle,
    filterBlock: seq<Byte>, filterHandle: BlockHandle,
    metaImage: Image, metaBlock: seq<Byte>, metaHandle: BlockHandle)

  ghost predicate IsTable(file: seq<Byte>, crc: BlockChecksum, name: seq<Byte>, l: Layout) {
    && Sorted(Contents(l.blocks))
    && Indexed(l.blocks, l.index, []) && |l.index| == |l.blocks| && AreKeys(l.index, l.keys)
    && BlocksStored(file, crc, l.blocks, l.offsets, l.images, l.handles, l.contents)
    && IndexLists(l.indexImage.kvs, l.keys, l.handles)
    && BlockOf(l.indexBlock, l.indexImage) && HasBlock(file, l.indexHandle, crc, l.indexBlock)
    && HasBlock(file, l.filterHandle, crc, l.filterBlock)
    && l.metaImage.kvs == [Pair(FilterKey(name), HandleBytes(l.filterHandle))]
    && BlockOf(l.metaBlock, l.metaImage) && HasBlock(file, l.metaHandle, crc, l.metaBlock)
    && |file| >= FOOTER_SIZE && file[|file| - FOOTER_SIZE..] == FooterBytes(l.metaHandle, l.indexHandle)
  }

  /** Blocks within the reach of 32-bit offsets. */
  ghost predicate Small(l: Layout) {
    && (forall i :: 0 <= i < |l.contents| ==> |l.contents[i]| < TWO_32)
    && |l.indexBlock| < TWO_32 && |l.filterBlock| < TWO_32 && |l.metaBlock| < TWO_32
  }

  // ----- writing -----

  lemma EncodesMore(kvs: seq<Pair>, es: seq<Entry>, k: ByteKey, value: seq<Byte>)
    requires Encodes(kvs, es)
    ensures Encodes(kvs + [Pair(EncodeKey(k), value)], es + [Entry(Abstract(k), Text(value))])
  {
    hide EntryOf, EncodeKey;
    StoredPair(k, value);
  }

  lemma ListsMore(kvs: seq<Pair>, was: seq<ByteKey>, keys: seq<ByteKey>, handles: seq<BlockHandle>, due: bool, length: nat)
    requires IndexLists(kvs, was, handles) && OneMore(was, keys, due, length)
    requires due ==> |handles| == |was| + 1
    ensures due ==> IndexLists(kvs + [Pair(EncodeKey(keys[|was|]), HandleBytes(handles[|was|]))], keys, handles)
    ensures !due ==> IndexLists(kvs, keys, handles)
  {
    hide EncodeKey, HandleBytes;
    if due {
      assert forall i :: 0 <= i < |was| ==> keys[i] == keys[..|was|][i];
    } else {
      assert keys == was;
    }
  }

  class TableFileBuilder {
    const crc: BlockChecksum
    const name: seq<Byte>
    const blockSize: nat
    const restartInterval: nat
    const inner: FilteredBuilder
    const dataBlock: BlockBuilder
    const indexBlock: BlockBuilder
    var file: seq<Byte>
    var pendingHandle: BlockHandle

    /** The finished blocks: their pairs, handles and bytes. */
    ghost var images: seq<Image>
    ghost var handles: seq<BlockHandle>
    ghost var contents: seq<seq<Byte>>

    ghost predicate Valid()
      reads this, inner, inner.table, inner.filter, dataBlock, indexBlock
    {
      && inner.Valid() && dataBlock != indexBlock && restartInterval >= 1 && |name| + 7 < TWO_32
      && dataBlock.Valid() && !dataBlock.finished && indexBlock.Valid() && !indexBlock.finished
      && Encodes(dataBlock.kvs, inner.table.dataBlock)
      && |file| == inner.offset
      && InFile(inner.table.blocks, inner.offsets)
      && IndexLists(indexBlock.kvs, inner.table.indexKeys, handles)
      && (inner.table.pendingIndexEntry ==> Pending(inner.table.indexKeys))
      && |inner.table.lastKey.user| + 8 < TWO_32
    }

    ghost predicate InFile(blocks: Blocks, offsets: seq<nat>)
      reads this
    {
      BlocksStored(file, crc, blocks, offsets, images, handles, contents)
    }

    /** The last block has no index entry yet. */
    ghost predicate Pending(keys: seq<ByteKey>)
      reads this
    {
      |handles| == |keys| + 1 && pendingHandle == handles[|keys|] && Fits64(pendingHandle)
    }

    /** Everything added so far. */
    ghost function Entries(): seq<Entry>
      reads inner, inner.table
    {
      Contents(inner.table.blocks) + inner.table.dataBlock
    }

    /** A builder over empty parts. */
    constructor (crc: BlockChecksum, name: seq<Byte>, blockSize: nat, restartInterval: nat,
                 inner: FilteredBuilder, dataBlock: BlockBuilder, indexBlock: BlockBuilder)
      requires inner.Valid() && inner.offset == 0 && inner.table.lastKey.user == [] && inner.table.numEntries == 0
      requires Contents(inner.table.blocks) + inner.table.dataBlock == []
      requires dataBlock.Valid() && dataBlock.kvs == [] && !dataBlock.finished && dataBlock != indexBlock
      requires indexBlock.Valid() && indexBlock.kvs == [] && !indexBlock.finished
      requires restartInterval >= 1 && |name| + 7 < TWO_32
      ensures Valid() && Entries() == [] && this.crc == crc && this.name == name
      ensures this.inner == inner && this.dataBlock == dataBlock && this.indexBlock == indexBlock
    {
      hide FilteredBuilder.Valid, BlockBuilder.Valid, BlocksStored, IndexLists, Encodes, Contents;
      this.crc, this.name, this.blockSize, this.restartInterval := crc, name, blockSize, restartInterval;
      this.inner, this.dataBlock, this.indexBlock := inner, dataBlock, indexBlock;
      file, pendingHandle := [], BlockHandle(0, 0);
      images, handles, contents := [], [], [];
      new;
      inner.StartsEmpty();
      NothingStored(crc);
    }

    /** The index entry of the last block, now that its key is known. */
    method ListKey(due: bool, ghost was: seq<ByteKey>, ghost length: nat)
      requires indexBlock.Valid() && !indexBlock.finished && IndexLists(indexBlock.kvs, was, handles)
      requires OneMore(was, inner.table.indexKeys, due, length) && length + 8 < TWO_32
      requires due ==> Pending(was)
      modifies indexBlock
      ensures indexBlock.Valid() && !indexBlock.finished && IndexLists(indexBlock.kvs, inner.table.indexKeys, handles)
    {
      hide BlockBuilder.Valid, IndexLists, HandleBytes, EncodeKey;
      ListsMore(indexBlock.kvs, was, inner.table.indexKeys, handles, due, length);
      if due {
        var keys := inner.table.indexKeys;
        HandleShort(pendingHandle);
        KeyLength(keys[|keys| - 1]);
        indexBlock.Add(EncodeKey(keys[|keys| - 1]), HandleBytes(pendingHandle));
      }
    }

    /** TableBuilder::Add. Writing past 2 to the 64 fails. */
    method Add(key: ByteKey, value: seq<Byte>) returns (ok: bool)
      requires Valid() && |key.user| + 8 < TWO_32 && |value| < TWO_32
      requires inner.table.numEntries > 0 ==> KeyBelow(inner.table.lastKey, key)
      modifies this, inner, inner.table, inner.filter, dataBlock, indexBlock
      ensures ok ==> Valid() && Entries() == old(Entries()) + [Entry(Abstract(key), Text(value))]
      ensures ok ==> inner.table.lastKey == key && inner.table.numEntries == old(inner.table.numEntries) + 1
      ensures ok ==> CutAt(old(inner.table.blocks), old(inner.table.dataBlock) + [Entry(Abstract(key), Text(value))])
      ensures !ok ==> file == old(file) && |file| + |dataBlock.buffer| + 5 >= TWO_64
    {
      hide FilteredBuilder.Valid, BlockBuilder.Valid, BlocksStored, IndexLists, Encodes, EncodeKey, KeyBelow, Contents, OneMore, CutAt;
      AddOne(key, value);
      ok := true;
      SizeEstimated();
      if dataBlock.CurrentSizeEstimate() >= blockSize {
        ok := Flush();
      }
      if ok {
        IsCut(old(inner.table.blocks), old(inner.table.dataBlock) + [Entry(Abstract(key), Text(value))]);
      }
    }

    /** The open block ends exactly when its bytes reach the block size. */
    ghost predicate CutAt(blocks: Blocks, block: seq<Entry>)
      reads this, inner, inner.table, dataBlock
    {
      if inner.table.dataBlock == [] then
        inner.table.blocks == blocks + [block] && contents != [] && |contents[|contents| - 1]| >= blockSize
      else
        inner.table.blocks == blocks && inner.table.dataBlock == block && |dataBlock.buffer| + 4 * |dataBlock.rs| + 4 < blockSize
    }

    lemma IsCut(blocks: Blocks, block: seq<Entry>)
      requires block != []
      requires if inner.table.dataBlock == [] then
          inner.table.blocks == blocks + [block] && contents != [] && |contents[|contents| - 1]| >= blockSize
        else
          inner.table.blocks == blocks && inner.table.dataBlock == block && |dataBlock.buffer| + 4 * |dataBlock.rs| + 4 < blockSize
      ensures CutAt(blocks, block)
    {
    }

    /** The estimate is the size the block would have if it were finished now. */
    lemma SizeEstimated()
      requires dataBlock.Valid() && !dataBlock.finished
      ensures forall j :: 0 <= j < |dataBlock.rs| ==> dataBlock.rs[j] <= |dataBlock.kvs|
      ensures dataBlock.CurrentSizeEstimate() == |BlockBytes(dataBlock.kvs, dataBlock.rs)| == |dataBlock.buffer| + 4 * |dataBlock.rs| + 4
    {
      hide Data, Fixed32s, Fixed;
    }

    /** Add, up to the point where the block may be full. */
    method AddOne(key: ByteKey, value: seq<Byte>)
      requires Valid() && |key.user| + 8 < TWO_32 && |value| < TWO_32
      requires inner.table.numEntries > 0 ==> KeyBelow(inner.table.lastKey, key)
      modifies inner.table, inner.filter, dataBlock, indexBlock
      ensures Valid() && Entries() == old(Entries()) + [Entry(Abstract(key), Text(value))]
      ensures inner.table.lastKey == key && inner.table.numEntries == old(inner.table.numEntries) + 1
      ensures inner.table.blocks == old(inner.table.blocks)
      ensures inner.table.dataBlock == old(inner.table.dataBlock) + [Entry(Abstract(key), Text(value))]
    {
      hide FilteredBuilder.Valid, BlockBuilder.Valid, BlocksStored, IndexLists, Encodes, EncodeKey, KeyBelow, Contents, OneMore;
      ghost var was, length := inner.table.indexKeys, |inner.table.lastKey.user|;
      var due := inner.table.pendingIndexEntry;
      EncodesMore(dataBlock.kvs, inner.table.dataBlock, key, value);
      inner.Add(key, Text(value));
      ListKey(due, was, length);
      KeyLength(key);
      dataBlock.Add(EncodeKey(key), value);
    }

    /** TableBuilder::Flush. */
    method Flush() returns (ok: bool)
      requires Valid()
      modifies this, inner, inner.table, inner.filter, dataBlock
      ensures ok ==> Valid() && Entries() == old(Entries()) && inner.table.dataBlock == []
      ensures ok ==> inner.table.lastKey == old(inner.table.lastKey) && inner.table.numEntries == old(inner.table.numEntries)
      ensures ok ==> inner.table.blocks == old(inner.table.blocks) + if old(inner.table.dataBlock) == [] then [] else [old(inner.table.dataBlock)]
      ensures ok && old(inner.table.dataBlock) != [] ==> contents != [] && |contents[|contents| - 1]| == old(dataBlock.CurrentSizeEstimate())
      ensures !ok ==> file == old(file) && |file| + |dataBlock.buffer| + 5 >= TWO_64
    {
      hide FilteredBuilder.Valid, BlockBuilder.Valid, BlocksStored, IndexLists, Encodes, Contents, GoodRestarts;
      if inner.table.dataBlock == [] {
        return true;
      }
      ok := WriteDataBlock();
      if ok {
        dataBlock.Reset();
        EncodesNone(dataBlock.kvs, inner.table.dataBlock);
      }
    }

    /** WriteBlock for the data block. */
    method WriteDataBlock() returns (ok: bool)
      requires Valid() && inner.table.dataBlock != []
      modifies this, inner, inner.table, inner.filter, dataBlock
      ensures ok ==> inner.Valid() && dataBlock.Valid() && |file| == inner.offset && Entries() == old(Entries())
      ensures ok ==> InFile(inner.table.blocks, inner.offsets) && IndexLists(indexBlock.kvs, inner.table.indexKeys, handles)
      ensures ok ==> inner.table.pendingIndexEntry && Pending(inner.table.indexKeys) && inner.table.dataBlock == []
      ensures ok ==> inner.table.lastKey == old(inner.table.lastKey) && inner.table.numEntries == old(inner.table.numEntries)
      ensures ok ==> inner.table.blocks == old(inner.table.blocks) + [old(inner.table.dataBlock)]
      ensures ok ==> contents != [] && |contents[|contents| - 1]| == old(dataBlock.CurrentSizeEstimate())
      ensures !ok ==> file == old(file) && |file| + |dataBlock.buffer| + 5 >= TWO_64
    {
      hide FilteredBuilder.Valid, BlockBuilder.Valid, BlocksStored, IndexLists, Encodes, Contents, GoodRestarts, BlockBytes;
      var block := dataBlock.Finish();
      ok := |file| + |block| + BLOCK_TRAILER_SIZE < TWO_64;
      if ok {
        AppendBlock(block);
        inner.Flush(|block| + BLOCK_TRAILER_SIZE);
      }
    }

    /** The bytes of the open block, its trailer and its handle. */
    method AppendBlock(block: seq<Byte>)
      requires inner.Valid() && inner.table.dataBlock != [] && |file| == inner.offset
      requires InFile(inner.table.blocks, inner.offsets) && IndexLists(indexBlock.kvs, inner.table.indexKeys, handles)
      requires GoodRestarts(dataBlock.kvs, dataBlock.rs) && block == BlockBytes(dataBlock.kvs, dataBlock.rs)
      requires Encodes(dataBlock.kvs, inner.table.dataBlock) && |file| + |block| + BLOCK_TRAILER_SIZE < TWO_64
      modifies `file, `pendingHandle, `images, `handles, `contents
      ensures |file| == inner.offset + |block| + BLOCK_TRAILER_SIZE
      ensures InFile(inner.table.blocks + [inner.table.dataBlock], inner.offsets + [inner.offset])
      ensures IndexLists(indexBlock.kvs, inner.table.indexKeys, handles) && Pending(inner.table.indexKeys)
      ensures contents == old(contents) + [block]
    {
      hide FilteredBuilder.Valid, BlocksStored, IndexLists, Encodes, Contents, GoodRestarts, RawBlock;
      ghost var im := Image(dataBlock.kvs, dataBlock.rs);
      ListsLonger(indexBlock.kvs, inner.table.indexKeys, handles, BlockHandle(|file|, |block|));
      inner.NothingPending();
      OneMoreStored(file, crc, inner.table.blocks, inner.offsets, images, handles, contents, inner.table.dataBlock, im, block);
      StoredLengths(file, crc, inner.table.blocks, inner.offsets, images, handles, contents);
      pendingHandle := BlockHandle(|file|, |block|);
      file := file + RawBlock(crc, block);
      images, handles, contents := images + [im], handles + [pendingHandle], contents + [block];
    }

    /** WriteRawBlock. */
    method WriteRawBlock(block: seq<Byte>) returns (ok: bool, h: BlockHandle)
      modifies `file
      ensures ok ==> file == old(file) + RawBlock(crc, block) && HasBlock(file, h, crc, block)
      ensures ok <==> old(|file|) + |block| + 5 < TWO_64
    {
      h := BlockHandle(|file|, |block|);
      ok := |file| + |block| + BLOCK_TRAILER_SIZE < TWO_64;
      if ok {
        NewBlock(file, crc, block);
        file := file + RawBlock(crc, block);
      }
    }

    /** TableBuilder::Finish: the last block, then filter, metaindex, index and footer. */
    method Finish() returns (ok: bool, ghost l: Option<Layout>)
      requires Valid()
      modifies this, inner, inner.table, inner.filter, dataBlock, indexBlock
      ensures ok ==> l.Some? && IsTable(file, crc, name, l.value) && Contents(l.value.blocks) == old(Entries())
      ensures ok ==> inner.Finished(l.value.filterBlock) && l.value.blocks == inner.table.blocks && l.value.offsets == inner.offsets
    {
      hide FilteredBuilder.Valid, BlockBuilder.Valid, BlocksStored, IndexLists, Encodes, Contents, HasBlock, BlockOf, Sorted, Indexed,
           FilteredBuilder.Logged, FiltersOk, FilterBlockBuilder.Logged, OneMore, AreKeys;
      l := None;
      ok := Flush();
      if !ok {
        return;
      }
      ghost var was, length := inner.table.indexKeys, |inner.table.lastKey.user|;
      inner.NoOpenBlock();
      var due := inner.table.pendingIndexEntry;
      var filterBlock := inner.Finish();
      ListKey(due, was, length);
      ok, l := WriteMeta(filterBlock);
    }

    /** Filter block, metaindex block, index block and footer. */
    method WriteMeta(filterBlock: seq<Byte>) returns (ok: bool, ghost l: Option<Layout>)
      requires indexBlock.Valid() && !indexBlock.finished && restartInterval >= 1 && |name| + 7 < TWO_32
      requires InFile(inner.table.blocks, inner.offsets) && IndexLists(indexBlock.kvs, inner.table.indexKeys, handles)
      requires Sorted(Contents(inner.table.blocks)) && Indexed(inner.table.blocks, inner.table.index, [])
      requires |inner.table.index| == |inner.table.blocks| && AreKeys(inner.table.index, inner.table.indexKeys)
      modifies `file, indexBlock
      ensures ok ==> l.Some? && IsTable(file, crc, name, l.value) && l.value.filterBlock == filterBlock
      ensures ok ==> l.value.blocks == inner.table.blocks && l.value.offsets == inner.offsets
    {
      hide BlockBuilder.Valid, BlocksStored, IndexLists, Contents, HasBlock, BlockOf, Sorted, Indexed, AreKeys, RawBlock, FooterBytes, HandleBytes, FilterKey;
      l := None;
      ghost var f0 := file;
      var filterHandle, metaHandle, indexHandle;
      ok, filterHandle := WriteRawBlock(filterBlock);
      if !ok {
        return;
      }
      ghost var f1 := file;
      HandleFits(f1, filterHandle, crc, filterBlock);
      var metaBlock;
      ghost var metaImage;
      metaBlock, metaImage := MetaBlock(filterHandle);
      ok, metaHandle := WriteRawBlock(metaBlock);
      if !ok {
        return;
      }
      ghost var f2 := file;
      var block;
      ghost var indexImage;
      block, indexImage := FinishIndex();
      ok, indexHandle := WriteRawBlock(block);
      if !ok {
        return;
      }
      ghost var f3 := file;
      file := file + FooterBytes(metaHandle, indexHandle);
      ghost var parts := Layout(inner.table.blocks, inner.table.index, inner.table.indexKeys, inner.offsets, images, handles, contents,
        indexImage, block, indexHandle, filterBlock, filterHandle, metaImage, metaBlock, metaHandle);
      Assemble(f0, f1, f2, f3, file, crc, name, parts);
      l := Some(parts);
    }

    method FinishIndex() returns (block: seq<Byte>, ghost im: Image)
      requires indexBlock.Valid() && !indexBlock.finished
      modifies indexBlock
      ensures BlockOf(block, im) && im.kvs == old(indexBlock.kvs)
    {
      block := indexBlock.Finish();
      im := Image(indexBlock.kvs, indexBlock.rs);
    }

    /** The metaindex block, with the filter block's handle. */
    method MetaBlock(filterHandle: BlockHandle) returns (block: seq<Byte>, ghost im: Image)
      requires Fits64(filterHandle) && restartInterval >= 1 && |name| + 7 < TWO_32
      ensures BlockOf(block, im) && im.kvs == [Pair(FilterKey(name), HandleBytes(filterHandle))]
    {
      hide BlockBuilder.Valid, HandleBytes;
      var meta := new BlockBuilder(restartInterval);
      HandleShort(filterHandle);
      meta.Add(FilterKey(name), HandleBytes(filterHandle));
      block := meta.Finish();
      im := Image(meta.kvs, meta.rs);
    }
  }

  lemma KeyLength(k: ByteKey)
    ensures |EncodeKey(k)| == |k.user| + 8
  {
  }

  lemma NothingStored(crc: BlockChecksum)
    ensures BlocksStored([], crc, [], [], [], [], []) && IndexLists([], [], []) && Encodes([], [])
  {
  }

  lemma EncodesNone(kvs: seq<Pair>, es: seq<Entry>)
    requires kvs == [] && es == []
    ensures Encodes(kvs, es)
  {
  }

  lemma ListsLonger(kvs: seq<Pair>, keys: seq<ByteKey>, handles: seq<BlockHandle>, h: BlockHandle)
    requires IndexLists(kvs, keys, handles)
    ensures IndexLists(kvs, keys, handles + [h])
  {
    hide EncodeKey, HandleBytes;
  }

  lemma StoredLengths(file: seq<Byte>, crc: BlockChecksum, blocks: Blocks, offsets: seq<nat>, images: seq<Image>,
                      handles: seq<BlockHandle>, contents: seq<seq<Byte>>)
    requires BlocksStored(file, crc, blocks, offsets, images, handles, contents)
    ensures |blocks| == |offsets| == |images| == |handles| == |contents|
  {
  }

  /** The parts written one after the other make a table. */
  lemma Assemble(f0: seq<Byte>, f1: seq<Byte>, f2: seq<Byte>, f3: seq<Byte>, file: seq<Byte>, crc: BlockChecksum, name: seq<Byte>, l: Layout)
    requires Sorted(Contents(l.blocks))
    requires Indexed(l.blocks, l.index, []) && |l.index| == |l.blocks| && AreKeys(l.index, l.keys)
    requires BlocksStored(f0, crc, l.blocks, l.offsets, l.images, l.handles, l.contents)
    requires IndexLists(l.indexImage.kvs, l.keys, l.handles) && BlockOf(l.indexBlock, l.indexImage)
    requires l.metaImage.kvs == [Pair(FilterKey(name), HandleBytes(l.filterHandle))] && BlockOf(l.metaBlock, l.metaImage)
    requires f1 == f0 + RawBlock(crc, l.filterBlock) && HasBlock(f1, l.filterHandle, crc, l.filterBlock)
    requires f2 == f1 + RawBlock(crc, l.metaBlock) && HasBlock(f2, l.metaHandle, crc, l.metaBlock)
    requires f3 == f2 + RawBlock(crc, l.indexBlock) && HasBlock(f3, l.indexHandle, crc, l.indexBlock)
    requires file == f3 + FooterBytes(l.metaHandle, l.indexHandle)
    ensures IsTable(file, crc, name, l)
  {
    hide RawBlock, BlocksStored, IndexLists, BlockOf, Sorted, Indexed, AreKeys, Contents;
    HandleFits(f2, l.metaHandle, crc, l.metaBlock);
    HandleFits(f3, l.indexHandle, crc, l.indexBlock);
    hide HasBlock;
    var a, b, c, d := RawBlock(crc, l.filterBlock), RawBlock(crc, l.metaBlock), RawBlock(crc, l.indexBlock), FooterBytes(l.metaHandle, l.indexHandle);
    FooterRoundTrip(l.metaHandle, l.indexHandle);
    StillStored(f0, a, crc, l.blocks, l.offsets, l.images, l.handles, l.contents);
    StillStored(f1, b, crc, l.blocks, l.offsets, l.images, l.handles, l.contents);
    StillStored(f2, c, crc, l.blocks, l.offsets, l.images, l.handles, l.contents);
    StillStored(f3, d, crc, l.blocks, l.offsets, l.images, l.handles, l.contents);
    StillHasBlock(f1, b, l.filterHandle, crc, l.filterBlock);
    StillHasBlock(f2, c, l.filterHandle, crc, l.filterBlock);
    StillHasBlock(f3, d, l.filterHandle, crc, l.filterBlock);
    StillHasBlock(f2, c, l.metaHandle, crc, l.metaBlock);
    StillHasBlock(f3, d, l.metaHandle, crc, l.metaBlock);
    StillHasBlock(f3, d, l.indexHandle, crc, l.indexBlock);
    assert file[|file| - FOOTER_SIZE..] == d;
  }

  lemma HandleFits(file: seq<Byte>, h: BlockHandle, crc: BlockChecksum, contents: seq<Byte>)
    requires HasBlock(file, h, crc, contents)
    ensures Fits64(h)
  {
  }

  /** A builder for a new file. */
  method NewTableFile(crc: BlockChecksum, policy: BloomFilterPolicy, name: seq<Byte>, blockSize: nat, restartInterval: nat)
    returns (b: TableFileBuilder)
    requires policy.Valid() && restartInterval >= 1 && |name| + 7 < TWO_32
    ensures b.Valid() && b.Entries() == [] && b.crc == crc && b.name == name && b.inner.filter.policy == policy
    ensures fresh(b) && fresh(b.inner) && fresh(b.inner.table) && fresh(b.inner.filter) && fresh(b.dataBlock) && fresh(b.indexBlock)
  {
    hide FilteredBuilder.Valid, BlockBuilder.Valid, TableFileBuilder.Valid, Contents;
    var inner := new FilteredBuilder(policy);
    var dataBlock := new BlockBuilder(restartInterval);
    var indexBlock := new BlockBuilder(1);
    b := new TableFileBuilder(crc, name, blockSize, restartInterval, inner, dataBlock, indexBlock);
  }

  // ----- reading -----

  class Table {
    const file: seq<Byte>
    const crc: BlockChecksum
    const verify: bool
    const indexBlock: seq<Byte>
    const filter: Option<FilterBlockReader>

    /** The parts of the file, when it is one a builder wrote. */
    ghost const layout: Option<Layout>
    ghost const name: seq<Byte>

    ghost predicate Valid() {
      && Is32(crc)
      && (filter.Some? ==> filter.value.Valid())
      && (layout.Some? ==>
        && IsTable(file, crc, name, layout.value) && Small(layout.value)
        && indexBlock == layout.value.indexBlock
        && (filter.Some? ==> Covers(filter.value, layout.value.blocks, layout.value.offsets)))
    }

    constructor (file: seq<Byte>, crc: BlockChecksum, verify: bool, indexBlock: seq<Byte>, filter: Option<FilterBlockReader>,
                 ghost layout: Option<Layout>, ghost name: seq<Byte>)
      ensures this.file == file && this.crc == crc && this.verify == verify && this.indexBlock == indexBlock
      ensures this.filter == filter && this.layout == layout && this.name == name
    {
      this.file, this.crc, this.verify, this.indexBlock, this.filter := file, crc, verify, indexBlock, filter;
      this.layout, this.name := layout, name;
    }

    /** Table::InternalGet for a lookup key, with SaveValue as the handler: one seek in the index
        block, one filter probe, one seek in a data block; None is an error. On the bytes a builder
        wrote it gives the answer of a search of all entries. */
    method InternalGet(key: seq<Byte>, s: SequenceNumber) returns (r: Option<Lookup>)
      requires Valid()
      ensures layout.Some? ==> var all := Contents(layout.value.blocks);
        r == Some(Entries.Probe(all, SeekIndex(all, SeekKey(Rank(key), s)), Rank(key)))
    {
      hide Table.Valid, IsOrder, EncodedLess, EncodeKey, Entries.Probe, SeekIndex, DecodeHandle;
      EncodedIsOrder();
      ghost var kvs, rs := [], [];
      if layout.Some? {
        kvs, rs := layout.value.indexImage.kvs, layout.value.indexImage.rs;
        IndexReady();
        OneBlockEnough(layout.value.blocks, layout.value.index, Rank(key), s);
      }
      var found;
      ghost var pos;
      found, pos := SeekPair(EncodedLess, indexBlock, EncodeKey(ByteKey(key, s, TypeValue)), kvs, rs);
      if layout.Some? {
        IndexLands(key, s, pos);
      }
      if !found.Shown? {
        return if found.Broken? then None else Some(Absent);
      }
      r := BlockAnswer(found.pair.value, key, s, if pos.Some? then pos.value else 0);
    }

    /** The filter probe and the data block an index value leads to. */
    method BlockAnswer(value: seq<Byte>, key: seq<Byte>, s: SequenceNumber, ghost i: nat) returns (r: Option<Lookup>)
      requires Valid()
      ensures layout.Some? && i < |layout.value.blocks| && value == HandleBytes(layout.value.handles[i]) ==>
        var block := layout.value.blocks[i]; r == Some(Entries.Probe(block, SeekIndex(block, SeekKey(Rank(key), s)), Rank(key)))
    {
      hide Entries.Probe, SeekIndex, DecodeHandle, HandleBytes, IsTable, Small, Covers;
      ghost var ours, kvs, rs, es := false, [], [], [];
      if layout.Some? && i < |layout.value.blocks| {
        BlockReady(i);
        ours := value == HandleBytes(layout.value.handles[i]);
        kvs, rs, es := layout.value.images[i].kvs, layout.value.images[i].rs, layout.value.blocks[i];
      }
      if ours {
        HandleRoundTrip(layout.value.handles[i], []);
        assert value + [] == value;
      }
      var h := DecodeHandle(value);
      if filter.Some? && h.Parsed? {
        var may := filter.value.KeyMayMatch(h.value.offset, key);
        if !may {
          if ours {
            NotInBlock(i, key, s);
          }
          return Some(Absent);
        }
      }
      if h.Failed? {
        return None;
      }
      var block := ReadBlock(file, h.value, crc, verify);
      if block.None? {
        return None;
      }
      r := BlockGet(block.value, key, s, kvs, rs, es);
    }

    /** The index block can be searched, in the order of the index. */
    lemma IndexReady()
      requires Valid() && layout.Some?
      ensures var l := layout.value;
        && Sorted(Contents(l.blocks)) && Indexed(l.blocks, l.index, []) && |l.index| == |l.blocks|
        && IsBlock(indexBlock, l.indexImage.kvs, l.indexImage.rs) && Increasing(EncodedLess, l.indexImage.kvs)
    {
      hide Sorted, Indexed, EncodedLess, BlocksStored, HasBlock, Contents, IndexLists, AreKeys;
      IndexIncreasing(layout.value.blocks, layout.value.index);
      KeysIncreasing(layout.value.indexImage.kvs, layout.value.keys, layout.value.handles, layout.value.index);
    }

    /** The seek in the index block lands where the index says. */
    lemma IndexLands(key: seq<Byte>, s: SequenceNumber, pos: Option<nat>)
      requires Valid() && layout.Some?
      requires LowerBound(EncodedLess, layout.value.indexImage.kvs, EncodeKey(ByteKey(key, s, TypeValue)), pos)
      ensures var l := layout.value;
        IndexSeek(l.index, SeekKey(Rank(key), s)) == if pos.None? then |l.index| else pos.value
      ensures var l := layout.value; |l.indexImage.kvs| == |l.index| == |l.blocks| == |l.handles|
      ensures var l := layout.value; pos.Some? ==>
        pos.value < |l.index| && l.indexImage.kvs[pos.value].value == HandleBytes(l.handles[pos.value])
    {
      hide Sorted, Indexed, EncodedLess, HasBlock, StoredAt, Contents, EncodeKey, HandleBytes, Less, AreKeys, IndexLists;
      SeekInKeys(layout.value.indexImage.kvs, layout.value.keys, layout.value.handles, layout.value.index, ByteKey(key, s, TypeValue), pos);
    }

    lemma BlockReady(i: nat)
      requires Valid() && layout.Some? && i < |layout.value.blocks|
      ensures var l := layout.value;
        && |l.handles| == |l.images| == |l.contents| == |l.blocks| == |l.offsets|
        && Fits64(l.handles[i]) && l.handles[i].offset == l.offsets[i]
        && ReadBlock(file, l.handles[i], crc, verify) == Some(l.contents[i])
        && IsBlock(l.contents[i], l.images[i].kvs, l.images[i].rs) && Encodes(l.images[i].kvs, l.blocks[i]) && Sorted(l.blocks[i])
    {
      hide Sorted, Indexed, Contents, Encodes, ReadBlock, GoodRestarts, IndexLists, AreKeys, Covers;
      var l := layout.value;
      assert StoredAt(file, crc, l.blocks[i], l.images[i], l.handles[i], l.contents[i]);
      ReadBack(file, l.handles[i], crc, l.contents[i], verify);
      BlockIsSorted(l.blocks, i);
    }

    /** A key the filter does not find at a block's offset is not in the block. */
    lemma NotInBlock(i: nat, key: seq<Byte>, s: SequenceNumber)
      requires Valid() && layout.Some? && filter.Some? && i < |layout.value.blocks| == |layout.value.offsets|
      requires !filter.value.Finds(layout.value.offsets[i], key)
      ensures var block := layout.value.blocks[i]; Entries.Probe(block, SeekIndex(block, SeekKey(Rank(key), s)), Rank(key)) == Absent
    {
      hide FilterBlockReader.Finds, IsTable, Small, SeekIndex;
      var block := layout.value.blocks[i];
      assert Covered(filter.value, block, layout.value.offsets[i]);
      RejectedIsAbsent(block, SeekIndex(block, SeekKey(Rank(key), s)), Rank(key));
    }
  }

  lemma BlockIsSorted(blocks: Blocks, i: nat)
    requires Sorted(Contents(blocks)) && i < |blocks|
    ensures Sorted(blocks[i])
  {
    hide Contents, Less;
    BlockIn(blocks, i);
    forall a, b | 0 <= a < b < |blocks[i]|
      ensures Less(blocks[i][a].key, blocks[i][b].key)
    {
      assert Contents(blocks)[Start(blocks, i) + a] == blocks[i][a];
      assert Contents(blocks)[Start(blocks, i) + b] == blocks[i][b];
    }
  }

  /** Index keys lie apart, since a block's entries lie between them. */
  lemma {:induction false} IndexIncreasing(blocks: Blocks, index: seq<InternalKey>)
    requires Sorted(Contents(blocks)) && Indexed(blocks, index, []) && |index| == |blocks|
    ensures forall i, j :: 0 <= i < j < |index| ==> Less(index[i], index[j])
  {
    hide Sorted, Contents;
    forall i, j | 0 <= i < j < |index|
      ensures Less(index[i], index[j])
    {
      IndexApart(blocks, index, i, j);
    }
  }

  lemma {:induction false} IndexApart(blocks: Blocks, index: seq<InternalKey>, i: nat, j: nat)
    requires Sorted(Contents(blocks)) && Indexed(blocks, index, []) && |index| == |blocks| && i < j < |index|
    ensures Less(index[i], index[j])
    decreases j
  {
    hide Sorted, Contents;
    BlockIsSorted(blocks, j);
    EndsOf(blocks[j]);
    assert Separates(LastOf(blocks[j - 1]).key, index[j - 1], blocks[j][0].key);
    assert j + 1 < |blocks| ==> Separates(LastOf(blocks[j]).key, index[j], blocks[j + 1][0].key);
    if i < j - 1 {
      IndexApart(blocks, index, i, j - 1);
    }
  }

  lemma EndsOf(block: seq<Entry>)
    requires Sorted(block) && block != []
    ensures block[0] == LastOf(block) || Less(block[0].key, LastOf(block).key)
  {
  }

  lemma KeysIncreasing(kvs: seq<Pair>, keys: seq<ByteKey>, handles: seq<BlockHandle>, index: seq<InternalKey>)
    requires IndexLists(kvs, keys, handles) && AreKeys(index, keys)
    requires forall i, j :: 0 <= i < j < |index| ==> Less(index[i], index[j])
    ensures Increasing(EncodedLess, kvs)
  {
    hide EncodedLess, EncodeKey, DecodeKey, Less, HandleBytes;
    forall i, j | 0 <= i < j < |kvs|
      ensures EncodedLess(kvs[i].key, kvs[j].key)
    {
      KeyRoundTrip(keys[i]);
      KeyRoundTrip(keys[j]);
      EncodedIsLess(kvs[i].key, kvs[j].key, keys[i], keys[j]);
    }
  }

  lemma SeekInKeys(kvs: seq<Pair>, keys: seq<ByteKey>, handles: seq<BlockHandle>, index: seq<InternalKey>, target: ByteKey, pos: Option<nat>)
    requires IndexLists(kvs, keys, handles) && AreKeys(index, keys)
    requires LowerBound(EncodedLess, kvs, EncodeKey(target), pos)
    ensures IndexSeek(index, Abstract(target)) == if pos.None? then |index| else pos.value
    ensures |kvs| == |index|
    ensures pos.Some? ==> pos.value < |kvs| && kvs[pos.value].value == HandleBytes(handles[pos.value])
  {
    hide EncodedLess, EncodeKey, DecodeKey, Less, HandleBytes;
    KeyRoundTrip(target);
    forall i | 0 <= i < |kvs|
      ensures EncodedLess(kvs[i].key, EncodeKey(target)) <==> Less(index[i], Abstract(target))
    {
      KeyRoundTrip(keys[i]);
      EncodedIsLess(kvs[i].key, EncodeKey(target), keys[i], target);
    }
    var i := IndexSeek(index, Abstract(target));
    var p := if pos.None? then |index| else pos.value;
    assert i == p;
  }

  // ----- opening -----

  /** The file is the one the builder finished, with its filter. */
  ghost predicate Written(file: seq<Byte>, crc: BlockChecksum, hash: KeyHash, name: seq<Byte>, l: Layout, b: FilteredBuilder)
    reads b, b.table, b.filter
  {
    && IsTable(file, crc, name, l) && Small(l)
    && b.Finished(l.filterBlock) && l.blocks == b.table.blocks && l.offsets == b.offsets
    && hash == b.filter.policy.hash
  }

  /** Table::Open: footer, index block, and the filter if the options name the policy it was made with.
      No table if the footer or the index block cannot be read. */
  method Open(file: seq<Byte>, crc: BlockChecksum, hash: KeyHash, policy: Option<seq<Byte>>, paranoid: bool, verify: bool,
              ghost l: Layout, ghost name: seq<Byte>, ghost b: FilteredBuilder)
    returns (t: Table?)
    requires Is32(crc)
    ensures t != null ==> t.Valid() && t.file == file
    ensures Written(file, crc, hash, name, l, b) ==> t != null && t.layout == Some(l) && (t.filter.Some? <==> policy == Some(name))
  {
    hide Small, IsTable, Covers, FooterBytes, DecodeFooter, ReadBlock;
    ghost var ours := Written(file, crc, hash, name, l, b);
    t := null;
    if ours {
      FooterReady(file, crc, name, l, paranoid);
    }
    if |file| < FOOTER_SIZE {
      return;
    }
    var footer := DecodeFooter(file[|file| - FOOTER_SIZE..]);
    if footer.None? {
      return;
    }
    var indexBlock := ReadBlock(file, footer.value.1, crc, paranoid);
    if indexBlock.None? {
      return;
    }
    var filter := None;
    if policy.Some? {
      filter := ReadMeta(file, footer.value.0, crc, hash, policy.value, paranoid, l, name, b);
    }
    t := new Table(file, crc, verify, indexBlock.value, filter, if ours then Some(l) else None, name);
  }

  /** Table::ReadMeta and ReadFilter: errors leave the table without a filter. */
  method ReadMeta(file: seq<Byte>, meta: BlockHandle, crc: BlockChecksum, hash: KeyHash, policy: seq<Byte>, paranoid: bool,
                  ghost l: Layout, ghost name: seq<Byte>, ghost b: FilteredBuilder)
    returns (filter: Option<FilterBlockReader>)
    requires Is32(crc)
    ensures filter.Some? ==> filter.value.Valid()
    ensures Written(file, crc, hash, name, l, b) && meta == l.metaHandle ==>
      (filter.Some? <==> policy == name) && (filter.Some? ==> Covers(filter.value, l.blocks, l.offsets))
  {
    hide Small, IsTable, Covers, ReadBlock, IsOrder, Increasing, LowerBound, IsBlock, DecodeHandle, FilterBlockReader.Valid, FilteredBuilder.Finished, FilterKey;
    ghost var ours := Written(file, crc, hash, name, l, b) && meta == l.metaHandle;
    filter := None;
    if ours {
      MetaReady(file, crc, name, l, paranoid);
    }
    var block := ReadBlock(file, meta, crc, paranoid);
    if block.None? {
      return;
    }
    BytewiseIsOrder();
    var found;
    ghost var pos;
    found, pos := SeekPair(Below, block.value, FilterKey(policy), l.metaImage.kvs, l.metaImage.rs);
    if ours {
      OnlyPair(l.metaImage.kvs, FilterKey(policy), pos);
      FilterKeys(policy, name);
    }
    if !found.Shown? || found.pair.key != FilterKey(policy) {
      return;
    }
    var h := DecodeHandle(found.pair.value);
    if h.Failed? {
      return;
    }
    var data := ReadBlock(file, h.value, crc, paranoid);
    if data.None? {
      return;
    }
    var reader := new FilterBlockReader(hash, data.value);
    if ours {
      FilterReady(b, l.filterBlock, reader);
    }
    filter := Some(reader);
  }

  lemma FilterKeys(a: seq<Byte>, b: seq<Byte>)
    ensures FilterKey(a) == FilterKey(b) <==> a == b
  {
    assert FilterKey(a)[7..] == a && FilterKey(b)[7..] == b;
  }

  lemma FilterReady(b: FilteredBuilder, block: seq<Byte>, reader: FilterBlockReader)
    requires b.Finished(block) && |block| < TWO_32 && reader.hash == b.filter.policy.hash
    requires forall result, offsets :: IsFilterBlock(block, result, offsets) ==>
      reader.data == block && reader.offset == |result| && reader.num == |offsets| && reader.baseLg == FILTER_BASE_LG
    ensures Covers(reader, b.table.blocks, b.offsets)
  {
    assert IsFilterBlock(block, b.filter.result, b.filter.filterOffsets);
    NothingRuledOut(b, block, reader);
  }

  /** A seek among one pair. */
  lemma OnlyPair(kvs: seq<Pair>, target: seq<Byte>, pos: Option<nat>)
    requires |kvs| == 1 && LowerBound(Below, kvs, target, pos)
    ensures pos.Some? ==> pos.value == 0
    ensures kvs[0].key == target ==> pos == Some(0)
  {
    BelowIrreflexive(target);
  }

  lemma FooterReady(file: seq<Byte>, crc: BlockChecksum, name: seq<Byte>, l: Layout, paranoid: bool)
    requires IsTable(file, crc, name, l) && Is32(crc)
    ensures |file| >= FOOTER_SIZE && DecodeFooter(file[|file| - FOOTER_SIZE..]) == Some((l.metaHandle, l.indexHandle))
    ensures ReadBlock(file, l.indexHandle, crc, paranoid) == Some(l.indexBlock)
  {
    hide Sorted, Indexed, Contents, BlocksStored, IndexLists, BlockOf, FooterBytes, DecodeFooter, ReadBlock, AreKeys;
    FooterRoundTrip(l.metaHandle, l.indexHandle);
    ReadBack(file, l.indexHandle, crc, l.indexBlock, paranoid);
  }

  lemma MetaReady(file: seq<Byte>, crc: BlockChecksum, name: seq<Byte>, l: Layout, paranoid: bool)
    requires IsTable(file, crc, name, l) && Small(l) && Is32(crc)
    ensures ReadBlock(file, l.metaHandle, crc, paranoid) == Some(l.metaBlock)
    ensures ReadBlock(file, l.filterHandle, crc, paranoid) == Some(l.filterBlock) && |l.filterBlock| < TWO_32
    ensures IsBlock(l.metaBlock, l.metaImage.kvs, l.metaImage.rs) && Increasing(Below, l.metaImage.kvs)
    ensures l.metaImage.kvs == [Pair(FilterKey(name), HandleBytes(l.filterHandle))]
    ensures DecodeHandle(HandleBytes(l.filterHandle)) == Parsed(l.filterHandle, [])
  {
    hide Sorted, Indexed, Contents, BlocksStored, IndexLists, FooterBytes, ReadBlock, AreKeys, DecodeHandle, HandleBytes, Below;
    ReadBack(file, l.metaHandle, crc, l.metaBlock, paranoid);
    ReadBack(file, l.filterHandle, crc, l.filterBlock, paranoid);
    HandleRoundTrip(l.filterHandle, []);
    assert HandleBytes(l.filterHandle) + [] == HandleBytes(l.filterHandle);
  }

  /** What was added is what is found: a finished file opens, and its lookups answer for all entries
      added, with or without the filter and with or without checking checksums. */
  method FinishAndOpen(b: TableFileBuilder, policy: Option<seq<Byte>>, paranoid: bool, verify: bool)
    returns (ok: bool, t: Table?, ghost l: Option<Layout>)
    requires b.Valid() && Is32(b.crc)
    modifies b, b.inner, b.inner.table, b.inner.filter, b.dataBlock, b.indexBlock
    ensures ok ==> l.Some? && Contents(l.value.blocks) == old(b.Entries())
    ensures ok && Small(l.value) ==> t != null && t.Valid() && t.layout == l && (t.filter.Some? <==> policy == Some(b.name))
  {
    hide Small, IsTable, FilteredBuilder.Finished, Table.Valid, TableFileBuilder.Valid, Contents;
    t := null;
    ok, l := b.Finish();
    if ok {
      t := Open(b.file, b.crc, b.inner.filter.policy.hash, policy, paranoid, verify, l.value, b.name, b.inner);
    }
  }
}
