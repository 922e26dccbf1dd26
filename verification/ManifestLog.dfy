/** The manifest as a log file of encoded edits: writing one, and recovering from any prefix of
    it (LogAndApply and Recover in version_set.cc). */
module ManifestLog {
  import opened Keys
  import opened Options
  import opened Coding
  import opened Entries
  import opened Versions
  import opened VersionBuilder
  import opened EditCodec
  import opened LogFormat
  import opened LogReader
  import LogRoundTrip
  import Manifest
  import TableFormat

  /** The entries of each table file, by file number. */
  type Tables = map<nat, seq<Entry>>

  const NEW_EDIT := EditData(None, None, None, None, None, [], [], [])

  // ----- what an encoded edit means to the engine -----

  /** The stored keys are internal keys, and the sequence number fits its 56 bits. */
  predicate Readable(e: EditData) {
    && (e.lastSequence.Some? ==> e.lastSequence.value <= MAX_SEQUENCE)
    && forall p :: p in e.newFiles ==> TableFormat.DecodeKey(p.1.smallest).Some? && TableFormat.DecodeKey(p.1.largest).Some?
  }

  function KeyOf(bytes: seq<Byte>): InternalKey
    requires TableFormat.DecodeKey(bytes).Some?
  {
    TableFormat.Abstract(TableFormat.DecodeKey(bytes).value)
  }

  function FileOf(tables: Tables, f: FileRecord): FileMeta
    requires TableFormat.DecodeKey(f.smallest).Some? && TableFormat.DecodeKey(f.largest).Some?
  {
    FileMeta(f.number, f.size, KeyOf(f.smallest), KeyOf(f.largest), if f.number in tables then tables[f.number] else [])
  }

  function Meaning(tables: Tables, e: EditData): Edit
    requires Readable(e)
  {
    Edit(set p | p in e.deletedFiles,
         seq(|e.newFiles|, i requires 0 <= i < |e.newFiles| => (e.newFiles[i].0, FileOf(tables, e.newFiles[i].1))),
         e.logNumber, e.nextFile,
         if e.lastSequence.Some? then Some(e.lastSequence.value) else None)
  }

  predicate AllReadable(es: seq<EditData>) {
    forall i :: 0 <= i < |es| ==> Readable(es[i])
  }

  function Meanings(tables: Tables, es: seq<EditData>): seq<Edit>
    requires AllReadable(es)
  {
    seq(|es|, i requires 0 <= i < |es| => Meaning(tables, es[i]))
  }

  // ----- the file -----

  function Records(es: seq<EditData>): seq<Record> {
    seq(|es|, i requires 0 <= i < |es| => EditBytes(es[i]))
  }

  datatype Status = Fine | Corrupt | WrongComparator

  predicate ComparatorMatches(e: EditData, comparator: seq<Byte>) {
    e.comparator.Some? ==> e.comparator.value == comparator
  }

  /** The edits read before the end of the file or the first error. */
  function ReadEdits(crc: Checksum, file: seq<Byte>, pos: nat, comparator: seq<Byte>): (seq<EditData>, Status)
    requires pos <= |file|
    decreases |file| - pos
  {
    var r := ReadLogical(crc, file, pos, false, []);
    if r.reports > 0 then ([], Corrupt)
    else if r.result.None? then ([], Fine)
    else
      var d := Decode(NEW_EDIT, r.result.value);
      if d.1 != Ok then ([], Corrupt)
      else if !ComparatorMatches(d.0, comparator) then ([], WrongComparator)
      else
        var rest := ReadEdits(crc, file, r.pos, comparator);
        ([d.0] + rest.0, rest.1)
  }

  /** Every edit written by a database with this comparator. */
  ghost predicate Written(es: seq<EditData>, comparator: seq<Byte>) {
    forall i :: 0 <= i < |es| ==> Encodable(es[i]) && ComparatorMatches(es[i], comparator)
  }

  lemma {:induction false} EditsBack(crc: Checksum, file: seq<Byte>, pos: nat, es: seq<EditData>, comparator: seq<Byte>)
    requires pos <= |file| && ReadAll(crc, file, pos) == (Records(es), 0)
    requires Written(es, comparator)
    ensures ReadEdits(crc, file, pos, comparator) == (es, Fine)
    decreases |es|
  {
    hide ReadLogical, EditBytes, Decode, Encodable;
    var r := ReadLogical(crc, file, pos, false, []);
    if r.result.None? {
      assert |Records(es)| == 0;
    } else {
      var rest := ReadAll(crc, file, r.pos);
      assert Records(es)[0] == r.result.value;
      assert Records(es)[1..] == rest.0;
      assert Records(es[1..]) == Records(es)[1..];
      Fresh(es[0]);
      EditsBack(crc, file, r.pos, es[1..], comparator);
      assert es == [es[0]] + es[1..];
    }
  }

  /** A record is decoded into an edit of its own, so nothing of an earlier record stays in it. */
  lemma Fresh(e: EditData)
    requires Encodable(e)
    ensures Decode(NEW_EDIT, EditBytes(e)) == (e, Ok)
  {
    hide EditBytes, Decode;
    RoundTripIff(NEW_EDIT, e);
  }

  /** Any byte prefix of a manifest reads back as the edits that are complete in it. */
  lemma TornManifest(crc: Checksum, es: seq<EditData>, n: nat, comparator: seq<Byte>)
    requires Is32Bit(crc) && Written(es, comparator)
    requires n <= |EncodeAll(crc, Records(es), 0)|
    ensures var k := LogRoundTrip.Complete(crc, Records(es), 0, n);
      k <= |es| && ReadEdits(crc, EncodeAll(crc, Records(es), 0)[..n], 0, comparator) == (es[..k], Fine)
  {
    hide EncodeAll, ReadAll, ReadEdits, LogRoundTrip.Complete, Encodable, EditBytes;
    LogRoundTrip.TornTail(crc, Records(es), n);
    var k := LogRoundTrip.Complete(crc, Records(es), 0, n);
    assert Records(es[..k]) == Records(es)[..k];
    EditsBack(crc, EncodeAll(crc, Records(es), 0)[..n], 0, es[..k], comparator);
  }

  // ----- the methods -----

  /** LogAndApply: encode the edit and append it to the manifest. */
  method WriteEdit(log: Writer, edit: VersionEdit)
    requires log.Valid() && Encodable(edit.Data())
    modifies log
    ensures log.Valid()
    ensures forall es :: old(log.Wrote(Records(es))) ==> log.Wrote(Records(es + [edit.Data()]))
  {
    hide Writer.Valid, EditBytes, Encode, OffsetAfter;
    ghost var e := edit.Data();
    var record := edit.EncodeTo([]);
    assert record == EditBytes(e);
    log.AddRecord(record);
    forall es | old(log.Wrote(Records(es)))
      ensures log.Wrote(Records(es + [e]))
    {
      EncodeAllExtend(log.crc, Records(es), record, 0);
      assert Records(es + [e]) == Records(es) + [record];
    }
  }

  /** The reading loop of VersionSet::Recover. */
  method ReadManifest(crc: Checksum, file: seq<Byte>, comparator: seq<Byte>) returns (edits: seq<EditData>, status: Status)
    ensures (edits, status) == ReadEdits(crc, file, 0, comparator)
  {
    hide ReadLogical, Decode, Reader.Valid, Reader.Pos;
    var reader := new Reader(crc, file);
    edits := [];
    Joined([], ReadEdits(crc, file, 0, comparator));
    while true
      invariant fresh(reader) && reader.Valid() && reader.crc == crc && reader.file == file && reader.reports == 0
      invariant Join(edits, ReadEdits(crc, file, reader.Pos(), comparator)) == ReadEdits(crc, file, 0, comparator)
      decreases |file| - reader.Pos()
    {
      ghost var rest := ReadEdits(crc, file, reader.Pos(), comparator);
      Joined(edits, rest);
      var r := reader.ReadRecord();
      if reader.reports > 0 {
        return edits, Corrupt;
      } else if r.None? {
        return edits, Fine;
      }
      var edit := new VersionEdit();
      var outcome := edit.DecodeFrom(r.value);
      if outcome != Ok {
        return edits, Corrupt;
      }
      if edit.comparator.Some? && edit.comparator.value != comparator {
        return edits, WrongComparator;
      }
      JoinMore(edits, edit.Data(), ReadEdits(crc, file, reader.Pos(), comparator));
      edits := edits + [edit.Data()];
    }
  }

  function Join(es: seq<EditData>, r: (seq<EditData>, Status)): (seq<EditData>, Status) {
    (es + r.0, r.1)
  }

  lemma Joined(es: seq<EditData>, r: (seq<EditData>, Status))
    ensures r.0 == [] ==> Join(es, r) == (es, r.1)
    ensures es == [] ==> Join(es, r) == r
  {
    assert es + [] == es;
    assert [] + r.0 == r.0;
  }

  lemma JoinMore(es: seq<EditData>, e: EditData, r: (seq<EditData>, Status))
    ensures Join(es, ([e] + r.0, r.1)) == Join(es + [e], r)
  {
    assert es + ([e] + r.0) == es + [e] + r.0;
  }

  /** VersionSet::Recover on what a crash left of a manifest: of the edits `es` written to it, those
      complete in the file are replayed, and the version after the last of them comes back. */
  method Recover(crc: Checksum, file: seq<Byte>, comparator: seq<Byte>, tables: Tables,
                 ghost es: seq<EditData>, ghost n: nat, ghost installed: Version)
    returns (r: Manifest.Recovered, ghost k: nat)
    requires Is32Bit(crc) && Written(es, comparator) && AllReadable(es)
    requires n <= |EncodeAll(crc, Records(es), 0)| && file == EncodeAll(crc, Records(es), 0)[..n]
    requires Manifest.AddedOnce(Meanings(tables, es))
    requires var k := LogRoundTrip.Complete(crc, Records(es), 0, n);
      k <= |es| && Manifest.Folds(Meanings(tables, es[..k]), installed)
    ensures k == LogRoundTrip.Complete(crc, Records(es), 0, n) <= |es|
    ensures r.Recovered? ==>
      && r.version == installed
      && Some(r.logNumber) == Manifest.LastLogNumber(Meanings(tables, es[..k]))
      && Some(r.nextFile) == Manifest.LastNextFile(Meanings(tables, es[..k]))
      && Some(r.lastSequence) == Manifest.LastLastSequence(Meanings(tables, es[..k]))
    ensures !r.Recovered? <==>
      || Manifest.LastLogNumber(Meanings(tables, es[..k])).None?
      || Manifest.LastNextFile(Meanings(tables, es[..k])).None?
      || Manifest.LastLastSequence(Meanings(tables, es[..k])).None?
  {
    hide EncodeAll, ReadEdits, LogRoundTrip.Complete, Manifest.Folds, Manifest.AddedOnce, Readable, Meaning;
    TornManifest(crc, es, n, comparator);
    k := LogRoundTrip.Complete(crc, Records(es), 0, n);
    var edits, status := ReadManifest(crc, file, comparator);
    assert edits == es[..k] && status == Fine;
    assert Meanings(tables, es[..k]) == Meanings(tables, es)[..k];
    Manifest.AddedOncePrefix(Meanings(tables, es), k);
    r := Manifest.Recover(Meanings(tables, edits), installed);
  }
}
