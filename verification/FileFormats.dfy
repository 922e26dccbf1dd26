/** The files of the database byte by byte, in numerals: log records (log_format.h), write batches
    (write_batch.cc), version edits (version_edit.cc), internal keys (dbformat.h), blocks
    (block_builder.cc), footers (format.cc) and filter blocks (filter_block.cc). */
module FileFormats {
  import opened Keys
  import opened Coding
  import LogFormat
  import WriteBatches
  import EditCodec
  import opened TableFormat
  import opened BlockFormat
  import TableFiles
  import FilterBlocks
  import opened Options

  // ----- the log -----

  /** Zeros up to the end of a block, then checksum, length, type and payload, and what follows. */
  ghost predicate Laid(crc: LogFormat.Checksum, b: seq<Byte>, skip: nat, t: Byte, payload: seq<Byte>, rest: seq<Byte>) {
    && |b| >= skip + 7 + |payload|
    && (forall i :: 0 <= i < skip ==> b[i] == 0)
    && b[skip..skip + 4] == Fixed(crc(t, payload), 4)
    && b[skip + 4] == |payload| % 256 && b[skip + 5] == |payload| / 256
    && b[skip + 6] == t
    && b[skip + 7..skip + 7 + |payload|] == payload
    && b[skip + 7 + |payload|..] == rest
  }

  /** The first fragment of what is left of a record: with fewer than seven bytes free in the block it
      goes to the next one, and it holds as much of the record as its block takes. The type is 1 for a
      whole record, 2 for its start, 3 for a middle part, 4 for its end. */
  lemma FirstFragment(crc: LogFormat.Checksum, left: LogFormat.Record, o: nat, begin: bool)
    requires o <= 32768
    ensures var skip, at := if o > 32761 then 32768 - o else 0, if o > 32761 then 0 else o;
      var n := if |left| <= 32761 - at then |left| else 32761 - at;
      var t := if n == |left| then (if begin then 1 else 4) else (if begin then 2 else 3);
      var rest := if n == |left| then [] else LogFormat.Encode(crc, left[n..], at + 7 + n, false);
      Laid(crc, LogFormat.Encode(crc, left, o, begin), skip, t, left[..n], rest)
  {
    hide LogFormat.Encode, LogFormat.Physical, LogFormat.Zeros, Laid, Fixed;
    LogFormat.EncodeStep(crc, left, o, begin);
    var n := LogFormat.FragmentLength(|left|, o);
    var tail := if n == |left| then [] else LogFormat.Encode(crc, left[n..], LogFormat.HeaderAt(o) + 7 + n, false);
    LaidOut(crc, LogFormat.Trailer(o), LogFormat.FragmentType(begin, n == |left|), left[..n], tail);
  }

  lemma LaidOut(crc: LogFormat.Checksum, skip: nat, t: Byte, payload: seq<Byte>, tail: seq<Byte>)
    requires |payload| < 0x1_0000
    ensures Laid(crc, LogFormat.Zeros(skip) + LogFormat.Physical(crc, t, payload) + tail, skip, t, payload, tail)
  {
    hide LogFormat.Header, Fixed;
    FourPieces(LogFormat.Zeros(skip), LogFormat.Header(crc, t, payload), payload, tail);
    HeaderBytes(crc, t, payload);
  }

  lemma FourPieces(z: seq<Byte>, h: seq<Byte>, p: seq<Byte>, t: seq<Byte>)
    requires |h| == 7
    ensures var b := z + (h + p) + t;
      && |b| >= |z| + 7 + |p|
      && b[..|z|] == z
      && (forall i :: 0 <= i < |z| ==> b[i] == z[i])
      && b[|z|..|z| + 4] == h[..4] && b[|z| + 4] == h[4] && b[|z| + 5] == h[5] && b[|z| + 6] == h[6]
      && b[|z| + 7..|z| + 7 + |p|] == p
      && b[|z| + 7 + |p|..] == t
  {
  }

  lemma HeaderBytes(crc: LogFormat.Checksum, t: Byte, payload: seq<Byte>)
    requires |payload| < 0x1_0000
    ensures var h := LogFormat.Header(crc, t, payload);
      h[..4] == Fixed(crc(t, payload), 4) && h[4] == |payload| % 256 && h[5] == |payload| / 256 && h[6] == t
  {
  }

  /** A record over three blocks. */
  lemma ThreeBlocks(crc: LogFormat.Checksum, r: LogFormat.Record)
    requires 2 * 32761 < |r| <= 3 * 32761
    ensures var b := LogFormat.Encode(crc, r, 0, true);
      |b| == |r| + 21 && b[6] == 2 && b[32774] == 3 && b[65542] == 4
  {
    hide LogFormat.Encode, Fixed;
    var b := LogFormat.Encode(crc, r, 0, true);
    FirstFragment(crc, r, 0, true);
    var left := r[32761..];
    var c := LogFormat.Encode(crc, left, 32768, false);
    assert c == b[32768..];
    FirstFragment(crc, left, 32768, false);
    var rest := left[32761..];
    var d := LogFormat.Encode(crc, rest, 32768, false);
    assert d == c[32768..];
    FirstFragment(crc, rest, 32768, false);
    assert |d| == 7 + |rest|;
  }

  // ----- write batches -----

  /** Eight bytes of sequence number, four of count, and the records: a put is a 1, the key and the
      value, a deletion a 0 and the key, each string behind its length. */
  lemma BatchLayout(sequence: nat, us: seq<WriteBatches.Update>, u: WriteBatches.Update)
    ensures WriteBatches.BatchBytes(sequence, []) == Fixed(sequence, 8) + Fixed(0, 4)
    ensures WriteBatches.BatchBytes(sequence, us + [u]) ==
      Fixed(sequence, 8) + Fixed(|us| + 1, 4) + (WriteBatches.BatchBytes(sequence, us)[12..] +
        match u
        case Put(key, value) => [1] + (Varint(|key|) + key) + (Varint(|value|) + value)
        case Delete(key) => [0] + (Varint(|key|) + key))
  {
    hide Fixed, Varint;
    WriteBatches.Parts(sequence, us);
    assert (us + [u])[..|us|] == us;
  }

  /** A record with any other tag ends the walk. */
  lemma OtherRecordsStop(tag: Byte, rest: seq<Byte>)
    requires tag >= 2
    ensures WriteBatches.Walk([tag] + rest) == ([], WriteBatches.UnknownTag)
  {
    hide GetLengthPrefixed;
  }

  // ----- version edits -----

  /** The tags of the fields and what follows them. */
  lemma FieldLayout(n: nat, level: nat, s: seq<Byte>, f: EditCodec.FileRecord)
    ensures EditCodec.FieldBytes(EditCodec.Comparator(s)) == [1] + (Varint(|s|) + s)
    ensures EditCodec.FieldBytes(EditCodec.LogNumber(n)) == [2] + Varint(n)
    ensures EditCodec.FieldBytes(EditCodec.NextFile(n)) == [3] + Varint(n)
    ensures EditCodec.FieldBytes(EditCodec.LastSequence(n)) == [4] + Varint(n)
    ensures EditCodec.FieldBytes(EditCodec.CompactPointer(level, s)) == [5] + (Varint(level) + (Varint(|s|) + s))
    ensures EditCodec.FieldBytes(EditCodec.DeletedFile(level, n)) == [6] + (Varint(level) + Varint(n))
    ensures EditCodec.FieldBytes(EditCodec.NewFile(level, f)) == [7] + (Varint(level)
      + (Varint(f.number) + Varint(f.size) + (Varint(|f.smallest|) + f.smallest) + (Varint(|f.largest|) + f.largest)))
    ensures EditCodec.FieldBytes(EditCodec.PrevLogNumber(n)) == [9] + Varint(n)
  {
    forall t: Byte | t < 10
      ensures Varint(t) == [t]
    {
      VarintUnfold(t);
    }
    hide Varint;
  }

  /** The numbers that are set, in the order of their writing. */
  lemma NumbersLayout(e: EditCodec.EditData)
    ensures EditCodec.FieldsBytes(EditCodec.Numbers(e)) ==
      (if e.comparator.Some? then [1] + (Varint(|e.comparator.value|) + e.comparator.value) else [])
      + (if e.logNumber.Some? then [2] + Varint(e.logNumber.value) else [])
      + (if e.prevLogNumber.Some? then [9] + Varint(e.prevLogNumber.value) else [])
      + (if e.nextFile.Some? then [3] + Varint(e.nextFile.value) else [])
      + (if e.lastSequence.Some? then [4] + Varint(e.lastSequence.value) else [])
  {
    hide Varint, EditCodec.FieldsBytes;
    var a, b, c := EditCodec.Named(e.comparator), EditCodec.Numbered(2, e.logNumber), EditCodec.Numbered(9, e.prevLogNumber);
    var d, f := EditCodec.Numbered(3, e.nextFile), EditCodec.Numbered(4, e.lastSequence);
    EditCodec.FieldsBytesAppend(a, b);
    EditCodec.FieldsBytesAppend(a + b, c);
    EditCodec.FieldsBytesAppend(a + b + c, d);
    EditCodec.FieldsBytesAppend(a + b + c + d, f);
    NameLayout(e.comparator);
    NumberLayout(2, e.logNumber);
    NumberLayout(9, e.prevLogNumber);
    NumberLayout(3, e.nextFile);
    NumberLayout(4, e.lastSequence);
  }

  lemma NameLayout(o: Option<seq<Byte>>)
    ensures EditCodec.FieldsBytes(EditCodec.Named(o)) == if o.Some? then [1] + (Varint(|o.value|) + o.value) else []
  {
    if o.Some? {
      OneField(EditCodec.Comparator(o.value));
      FieldLayout(0, 0, o.value, EditCodec.FileRecord(0, 0, [], []));
    }
  }

  lemma NumberLayout(tag: Byte, o: Option<nat>)
    requires EditCodec.NumberTag(tag)
    ensures EditCodec.FieldsBytes(EditCodec.Numbered(tag, o)) == if o.Some? then [tag] + Varint(o.value) else []
  {
    if o.Some? {
      OneField(EditCodec.NumberField(tag, o.value));
      FieldLayout(o.value, 0, [], EditCodec.FileRecord(0, 0, [], []));
    }
  }

  lemma OneField(f: EditCodec.Field)
    ensures EditCodec.FieldsBytes([f]) == EditCodec.FieldBytes(f)
  {
    hide EditCodec.FieldBytes;
    assert [f][1..] == [];
    assert EditCodec.FieldBytes(f) + [] == EditCodec.FieldBytes(f);
  }

  /** No other tag is taken. */
  lemma OtherTagsRefused(e: EditCodec.EditData, tag: Byte, rest: seq<Byte>)
    requires tag == 0 || tag == 8 || 9 < tag < 128
    ensures EditCodec.Decode(e, [tag] + rest) == (e, EditCodec.UnknownTag)
  {
    Varint32RoundTrip(tag, rest);
    VarintUnfold(tag);
    hide GetVarint32, Varint;
  }

  // ----- tables -----

  /** A stored key is the user key, the type in one byte (1 for a value, 0 for a deletion) and the
      sequence number in seven. */
  lemma KeyLayout(k: ByteKey, i: nat)
    requires i < 7
    ensures |EncodeKey(k)| == |k.user| + 8 && EncodeKey(k)[..|k.user|] == k.user
    ensures EncodeKey(k)[|k.user|] == if k.kind == TypeValue then 1 else 0
    ensures Pow(256, i) > 0 && EncodeKey(k)[|k.user| + 1 + i] == k.sequence / Pow(256, i) % 256
  {
    hide Fixed;
    var tag := Pack(Abstract(k));
    FixedByte(tag, 8, 0);
    FixedByte(tag, 8, i + 1);
    PowPositive(256, i);
    DivDiv(tag, 256, Pow(256, i));
  }

  /** How much of a key is taken over from the one before: nothing at a restart point, else as much
      as the two have in common. */
  lemma SharedIsLongest(kvs: seq<Pair>, rs: seq<nat>, i: nat)
    requires i < |kvs|
    ensures i == 0 || i in rs ==> Shared(kvs, rs, i) == 0
    ensures i > 0 && i !in rs ==>
      var a, b, n := kvs[i - 1].key, kvs[i].key, Shared(kvs, rs, i);
      n <= |a| && n <= |b| && a[..n] == b[..n] && (n < |a| && n < |b| ==> a[n] != b[n])
  {
    if i > 0 {
      CommonIsLongest(kvs[i - 1].key, kvs[i].key);
    }
  }

  lemma {:induction false} CommonIsLongest(a: seq<Byte>, b: seq<Byte>)
    ensures var n := CommonPrefix(a, b); n < |a| && n < |b| ==> a[n] != b[n]
  {
    if a != [] && b != [] && a[0] == b[0] {
      CommonIsLongest(a[1..], b[1..]);
    }
  }

  /** An entry: three lengths, the new part of the key, the value. */
  lemma EntryLayout(kvs: seq<Pair>, rs: seq<nat>, i: nat)
    requires i < |kvs|
    ensures var n := Shared(kvs, rs, i);
      EntryBytes(kvs, rs, i) == Varint(n) + Varint(|kvs[i].key| - n) + Varint(|kvs[i].value|) + (kvs[i].key[n..] + kvs[i].value)
  {
  }

  /** A block ends in the offsets of its restart points and their number, four bytes each. */
  lemma BlockLayout(kvs: seq<Pair>, rs: seq<nat>, j: nat)
    requires j < |rs| && forall i :: 0 <= i < |rs| ==> rs[i] <= |kvs|
    ensures var b := BlockBytes(kvs, rs);
      && b[|b| - 4..] == Fixed(|rs|, 4)
      && |b| >= 4 * |rs| + 4
      && var at := |b| - 4 * |rs| - 4 + 4 * j; b[at..at + 4] == Fixed(|Data(kvs, rs, rs[j])|, 4)
  {
    hide Fixed, Data, Fixed32s;
    var d, offsets := Data(kvs, rs, |kvs|), RestartOffsets(kvs, rs);
    var f, n := Fixed32s(offsets), Fixed(|rs|, 4);
    Fixed32At(offsets, j);
    MiddlePart(d, f, n, 4 * j, 4 * j + 4);
  }

  lemma MiddlePart(a: seq<Byte>, b: seq<Byte>, c: seq<Byte>, i: nat, j: nat)
    requires i <= j <= |b|
    ensures (a + b + c)[|a| + i..|a| + j] == b[i..j] && (a + b + c)[|a| + |b|..] == c
  {
  }

  /** Behind its contents a block has the type byte 0 and the checksum of both. */
  lemma TrailerLayout(crc: TableFiles.BlockChecksum, contents: seq<Byte>)
    ensures TableFiles.RawBlock(crc, contents) == contents + [0] + Fixed(crc(contents + [0]), 4)
  {
    hide Fixed;
  }

  /** The last eight of the 48 bytes of a footer are the magic number, low byte first. */
  lemma FooterLayout(meta: TableFiles.BlockHandle, index: TableFiles.BlockHandle)
    requires TableFiles.Fits64(meta) && TableFiles.Fits64(index)
    ensures var b := TableFiles.FooterBytes(meta, index);
      && |b| == 48
      && b[40..] == [0x57, 0xfb, 0x80, 0x8b, 0x24, 0x75, 0x47, 0xdb]
      && Varint(meta.offset) + Varint(meta.size) + (Varint(index.offset) + Varint(index.size)) <= b
  {
    hide Fixed;
    TableFiles.HandleShort(meta);
    TableFiles.HandleShort(index);
    FourBytes(0x8b80fb57);
    FourBytes(0xdb477524);
    hide Varint;
    var h := TableFiles.HandleBytes(meta) + TableFiles.HandleBytes(index);
    var b := TableFiles.FooterBytes(meta, index);
    assert b[..40][..|h|] == h;
  }

  lemma FourBytes(v: nat)
    ensures Fixed(v, 4) == [v % 256, v / 256 % 256, v / 256 / 256 % 256, v / 256 / 256 / 256 % 256]
  {
  }

  /** A filter block ends in the offsets of its filters, the offset of that array, and 11. */
  lemma FilterBlockLayout(result: seq<Byte>, offsets: seq<nat>, j: nat)
    requires j < |offsets|
    ensures var b := FilterBlocks.FilterBlockBytes(result, offsets);
      && b[|b| - 1] == 11
      && b[|b| - 5..|b| - 1] == Fixed(|result|, 4)
      && b[|result| + 4 * j..|result| + 4 * j + 4] == Fixed(offsets[j], 4)
  {
    hide Fixed, Fixed32s;
    Fixed32At(offsets, j);
    MiddlePart(result, Fixed32s(offsets), Fixed(|result|, 4) + [11], 4 * j, 4 * j + 4);
    var b := FilterBlocks.FilterBlockBytes(result, offsets);
    assert b == result + Fixed32s(offsets) + (Fixed(|result|, 4) + [11]);
  }
}
