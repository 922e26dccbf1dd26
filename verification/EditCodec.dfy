/** Version edits as byte strings: the records of a manifest (version_edit.h, version_edit.cc). */
module EditCodec {
  import opened Keys
  import opened Options
  import opened Coding

  /** What a new-file entry says of a table; keys are kept in their encoded form. */
  datatype FileRecord = FileRecord(number: nat, size: nat, smallest: seq<Byte>, largest: seq<Byte>)

  datatype Field =
    | Comparator(name: seq<Byte>)
    | LogNumber(number: nat)
    | NextFile(number: nat)
    | LastSequence(number: nat)
    | CompactPointer(level: nat, key: seq<Byte>)
    | DeletedFile(level: nat, number: nat)
    | NewFile(level: nat, file: FileRecord)
    | PrevLogNumber(number: nat)

  predicate IsString(s: seq<Byte>) {
    |s| < TWO_32
  }

  /** InternalKey::DecodeFrom takes any non-empty string. */
  predicate IsKey(s: seq<Byte>) {
    s != [] && IsString(s)
  }

  predicate IsFile(f: FileRecord) {
    f.number < TWO_64 && f.size < TWO_64 && IsKey(f.smallest) && IsKey(f.largest)
  }

  predicate Fits(f: Field) {
    match f
    case Comparator(name) => IsString(name)
    case CompactPointer(level, key) => level < NUM_LEVELS && IsKey(key)
    case DeletedFile(level, number) => level < NUM_LEVELS && number < TWO_64
    case NewFile(level, file) => level < NUM_LEVELS && IsFile(file)
    case _ => f.number < TWO_64
  }

  // ----- one field as bytes -----

  function Tag(f: Field): Byte {
    match f
    case Comparator(_) => 1
    case LogNumber(_) => 2
    case NextFile(_) => 3
    case LastSequence(_) => 4
    case CompactPointer(_, _) => 5
    case DeletedFile(_, _) => 6
    case NewFile(_, _) => 7
    case PrevLogNumber(_) => 9
  }

  function Payload(f: Field): seq<Byte> {
    match f
    case Comparator(name) => LengthPrefixed(name)
    case CompactPointer(level, key) => Varint(level) + LengthPrefixed(key)
    case DeletedFile(level, number) => Varint(level) + Varint(number)
    case NewFile(level, file) => Varint(level) + FileBytes(file)
    case _ => Varint(f.number)
  }

  function FileBytes(f: FileRecord): seq<Byte> {
    Varint(f.number) + Varint(f.size) + LengthPrefixed(f.smallest) + LengthPrefixed(f.largest)
  }

  function FieldBytes(f: Field): (r: seq<Byte>)
    ensures r != []
  {
    Varint(Tag(f)) + Payload(f)
  }

  function FieldsBytes(fs: seq<Field>): seq<Byte> {
    if fs == [] then [] else FieldBytes(fs[0]) + FieldsBytes(fs[1..])
  }

  lemma {:induction false} FieldsBytesAppend(a: seq<Field>, b: seq<Field>)
    ensures FieldsBytes(a + b) == FieldsBytes(a) + FieldsBytes(b)
  {
    hide FieldBytes;
    if a == [] {
      assert a + b == b;
    } else {
      FieldsBytesAppend(a[1..], b);
      assert (a + b)[1..] == a[1..] + b;
    }
  }

  // ----- parsing one field -----

  function GetLevel(input: seq<Byte>): (r: Parsed<nat>)
    ensures r.Parsed? ==> |r.rest| < |input| && r.value < NUM_LEVELS
  {
    var v := GetVarint32(input);
    if v.Parsed? && v.value < NUM_LEVELS then v else Failed
  }

  function GetInternalKey(input: seq<Byte>): (r: Parsed<seq<Byte>>)
    ensures r.Parsed? ==> |r.rest| < |input| && IsKey(r.value)
  {
    var s := GetLengthPrefixed(input);
    if s.Parsed? && s.value != [] then s else Failed
  }

  function GetFile(input: seq<Byte>): (r: Parsed<FileRecord>)
    ensures r.Parsed? ==> |r.rest| < |input| && IsFile(r.value)
  {
    var n := GetVarint64(input);
    if n.Failed? then Failed
    else
      var s := GetVarint64(n.rest);
      if s.Failed? then Failed
      else
        var a := GetInternalKey(s.rest);
        if a.Failed? then Failed
        else
          var b := GetInternalKey(a.rest);
          if b.Failed? then Failed else Parsed(FileRecord(n.value, s.value, a.value, b.value), b.rest)
  }

  /** The fields that hold just a number. */
  predicate NumberTag(tag: nat) {
    2 <= tag <= 4 || tag == 9
  }

  function NumberField(tag: nat, n: nat): Field
    requires NumberTag(tag)
  {
    match tag
    case 2 => LogNumber(n)
    case 3 => NextFile(n)
    case 4 => LastSequence(n)
    case _ => PrevLogNumber(n)
  }

  predicate KnownTag(tag: nat) {
    1 <= tag <= 7 || tag == 9
  }

  /** The field that follows a tag. */
  function ParseField(tag: nat, input: seq<Byte>): (r: Parsed<Field>)
    requires KnownTag(tag)
    ensures r.Parsed? ==> |r.rest| < |input| && Fits(r.value) && Tag(r.value) == tag
  {
    if tag == 1 then
      var s := GetLengthPrefixed(input);
      if s.Failed? then Failed else Parsed(Comparator(s.value), s.rest)
    else if NumberTag(tag) then
      var n := GetVarint64(input);
      if n.Failed? then Failed else Parsed(NumberField(tag, n.value), n.rest)
    else
      var l := GetLevel(input);
      if l.Failed? then Failed
      else if tag == 5 then
        var k := GetInternalKey(l.rest);
        if k.Failed? then Failed else Parsed(CompactPointer(l.value, k.value), k.rest)
      else if tag == 6 then
        var n := GetVarint64(l.rest);
        if n.Failed? then Failed else Parsed(DeletedFile(l.value, n.value), n.rest)
      else
        var f := GetFile(l.rest);
        if f.Failed? then Failed else Parsed(NewFile(l.value, f.value), f.rest)
  }

  lemma FileRoundTrip(f: FileRecord, tail: seq<Byte>)
    requires IsFile(f)
    ensures GetFile(FileBytes(f) + tail) == Parsed(f, tail)
  {
    hide GetVarint64, GetLengthPrefixed, Varint, LengthPrefixed;
    var b := LengthPrefixed(f.largest) + tail;
    var a := LengthPrefixed(f.smallest) + b;
    var s := Varint(f.size) + a;
    assert FileBytes(f) + tail == Varint(f.number) + s;
    Varint64RoundTrip(f.number, s);
    Varint64RoundTrip(f.size, a);
    LengthPrefixedRoundTrip(f.smallest, b);
    LengthPrefixedRoundTrip(f.largest, tail);
  }

  lemma ParseFieldRoundTrip(f: Field, tail: seq<Byte>)
    requires Fits(f)
    ensures ParseField(Tag(f), Payload(f) + tail) == Parsed(f, tail)
  {
    hide GetVarint64, GetVarint32, GetLengthPrefixed, Varint, LengthPrefixed, FileBytes, GetFile;
    match f
    case Comparator(name) =>
      LengthPrefixedRoundTrip(name, tail);
    case CompactPointer(level, key) =>
      assert Payload(f) + tail == Varint(level) + (LengthPrefixed(key) + tail);
      Varint32RoundTrip(level, LengthPrefixed(key) + tail);
      LengthPrefixedRoundTrip(key, tail);
    case DeletedFile(level, number) =>
      assert Payload(f) + tail == Varint(level) + (Varint(number) + tail);
      Varint32RoundTrip(level, Varint(number) + tail);
      Varint64RoundTrip(number, tail);
    case NewFile(level, file) =>
      assert Payload(f) + tail == Varint(level) + (FileBytes(file) + tail);
      Varint32RoundTrip(level, FileBytes(file) + tail);
      FileRoundTrip(file, tail);
    case _ =>
      Varint64RoundTrip(f.number, tail);
  }

  // ----- an edit as a value -----

  datatype EditData = EditData(
    comparator: Option<seq<Byte>>,
    logNumber: Option<nat>,
    prevLogNumber: Option<nat>,
    nextFile: Option<nat>,
    lastSequence: Option<nat>,
    compactPointers: seq<(nat, seq<Byte>)>,
    deletedFiles: seq<(nat, nat)>,
    newFiles: seq<(nat, FileRecord)>)

  /** The order of std::pair, in which std::set keeps its elements. */
  predicate PairBelow(a: (nat, nat), b: (nat, nat)) {
    a.0 < b.0 || (a.0 == b.0 && a.1 < b.1)
  }

  predicate Ascending(ps: seq<(nat, nat)>) {
    forall i, j :: 0 <= i < j < |ps| ==> PairBelow(ps[i], ps[j])
  }

  /** std::set insertion. */
  function InsertPair(ps: seq<(nat, nat)>, p: (nat, nat)): seq<(nat, nat)> {
    if ps == [] || PairBelow(p, ps[0]) then [p] + ps
    else if p == ps[0] then ps
    else [ps[0]] + InsertPair(ps[1..], p)
  }

  lemma {:induction false} InsertPairMembers(ps: seq<(nat, nat)>, p: (nat, nat))
    requires Ascending(ps)
    ensures Ascending(InsertPair(ps, p))
    ensures forall q :: q in InsertPair(ps, p) <==> q in ps || q == p
  {
    if ps == [] || PairBelow(p, ps[0]) || p == ps[0] {
    } else {
      var r := InsertPair(ps[1..], p);
      InsertPairMembers(ps[1..], p);
      assert forall i :: 0 <= i < |r| ==> r[i] in r;
      assert forall q :: q in ps <==> q == ps[0] || q in ps[1..];
    }
  }

  lemma {:induction false} InsertPairLast(ps: seq<(nat, nat)>, p: (nat, nat))
    requires Ascending(ps + [p])
    ensures InsertPair(ps, p) == ps + [p]
  {
    if ps != [] {
      assert (ps + [p])[|ps|] == p && (ps + [p])[0] == ps[0];
      assert ps[1..] + [p] == (ps + [p])[1..];
      InsertPairLast(ps[1..], p);
    }
  }

  ghost predicate Encodable(e: EditData) {
    && (e.comparator.Some? ==> IsString(e.comparator.value))
    && (e.logNumber.Some? ==> e.logNumber.value < TWO_64)
    && (e.prevLogNumber.Some? ==> e.prevLogNumber.value < TWO_64)
    && (e.nextFile.Some? ==> e.nextFile.value < TWO_64)
    && (e.lastSequence.Some? ==> e.lastSequence.value < TWO_64)
    && (forall p :: p in e.compactPointers ==> p.0 < NUM_LEVELS && IsKey(p.1))
    && Ascending(e.deletedFiles)
    && (forall p :: p in e.deletedFiles ==> p.0 < NUM_LEVELS && p.1 < TWO_64)
    && forall p :: p in e.newFiles ==> p.0 < NUM_LEVELS && IsFile(p.1)
  }

  /** Clear() leaves the compaction pointers as they are. */
  function Cleared(e: EditData): EditData {
    EditData(None, None, None, None, None, e.compactPointers, [], [])
  }

  function ApplyField(e: EditData, f: Field): EditData {
    match f
    case Comparator(name) => e.(comparator := Some(name))
    case LogNumber(n) => e.(logNumber := Some(n))
    case PrevLogNumber(n) => e.(prevLogNumber := Some(n))
    case NextFile(n) => e.(nextFile := Some(n))
    case LastSequence(n) => e.(lastSequence := Some(n))
    case CompactPointer(level, key) => e.(compactPointers := e.compactPointers + [(level, key)])
    case DeletedFile(level, n) => e.(deletedFiles := InsertPair(e.deletedFiles, (level, n)))
    case NewFile(level, file) => e.(newFiles := e.newFiles + [(level, file)])
  }

  function ApplyFields(e: EditData, fs: seq<Field>): EditData
    decreases |fs|
  {
    if fs == [] then e else ApplyFields(ApplyField(e, fs[0]), fs[1..])
  }

  lemma {:induction false} ApplyFieldsAppend(e: EditData, a: seq<Field>, b: seq<Field>)
    ensures ApplyFields(e, a + b) == ApplyFields(ApplyFields(e, a), b)
    decreases |a|
  {
    hide ApplyField;
    if a == [] {
      assert a + b == b;
    } else {
      ApplyFieldsAppend(ApplyField(e, a[0]), a[1..], b);
      assert (a + b)[1..] == a[1..] + b;
    }
  }

  // ----- the fields of an edit, in the order EncodeTo writes them -----

  function Named(o: Option<seq<Byte>>): seq<Field> {
    if o.Some? then [Comparator(o.value)] else []
  }

  function Numbered(tag: nat, o: Option<nat>): seq<Field>
    requires NumberTag(tag)
  {
    if o.Some? then [NumberField(tag, o.value)] else []
  }

  function Numbers(e: EditData): seq<Field> {
    Named(e.comparator) + Numbered(2, e.logNumber) + Numbered(9, e.prevLogNumber)
    + Numbered(3, e.nextFile) + Numbered(4, e.lastSequence)
  }

  function Pointers(ps: seq<(nat, seq<Byte>)>): seq<Field> {
    seq(|ps|, i requires 0 <= i < |ps| => CompactPointer(ps[i].0, ps[i].1))
  }

  function Deletions(ps: seq<(nat, nat)>): seq<Field> {
    seq(|ps|, i requires 0 <= i < |ps| => DeletedFile(ps[i].0, ps[i].1))
  }

  function Additions(ps: seq<(nat, FileRecord)>): seq<Field> {
    seq(|ps|, i requires 0 <= i < |ps| => NewFile(ps[i].0, ps[i].1))
  }

  function FieldsOf(e: EditData): seq<Field> {
    Numbers(e) + Pointers(e.compactPointers) + Deletions(e.deletedFiles) + Additions(e.newFiles)
  }

  function EditBytes(e: EditData): seq<Byte> {
    FieldsBytes(FieldsOf(e))
  }

  // ----- decoding -----

  datatype Outcome = Ok | BadField(tag: nat) | UnknownTag | InvalidTag

  /** The edit after the fields at the front of the input, and how parsing ends. */
  function Decode(e: EditData, input: seq<Byte>): (EditData, Outcome)
    decreases |input|
  {
    var t := GetVarint32(input);
    if t.Failed? then (e, if input == [] then Ok else InvalidTag)
    else if !KnownTag(t.value) then (e, UnknownTag)
    else
      var f := ParseField(t.value, t.rest);
      if f.Failed? then (e, BadField(t.value)) else Decode(ApplyField(e, f.value), f.rest)
  }

  /** Decoding a run of fields applies them in order. */
  lemma {:induction false} DecodeFields(e: EditData, fs: seq<Field>)
    requires AllFit(fs)
    ensures Decode(e, FieldsBytes(fs)) == (ApplyFields(e, fs), Ok)
    decreases |fs|
  {
    hide GetVarint32, ParseField, ApplyField, Payload, Varint, Fits;
    if fs == [] {
      assert GetVarint32([]).Failed?;
    } else {
      var f, tail := fs[0], FieldsBytes(fs[1..]);
      assert FieldsBytes(fs) == Varint(Tag(f)) + (Payload(f) + tail);
      Varint32RoundTrip(Tag(f), Payload(f) + tail);
      ParseFieldRoundTrip(f, tail);
      DecodeFields(ApplyField(e, f), fs[1..]);
    }
  }

  ghost predicate AllFit(fs: seq<Field>) {
    forall i :: 0 <= i < |fs| ==> Fits(fs[i])
  }

  lemma AllFitAppend(a: seq<Field>, b: seq<Field>)
    requires AllFit(a) && AllFit(b)
    ensures AllFit(a + b)
  {
    hide Fits;
  }

  lemma NumbersFit(e: EditData)
    requires Encodable(e)
    ensures AllFit(Named(e.comparator)) && AllFit(Numbered(2, e.logNumber)) && AllFit(Numbered(9, e.prevLogNumber))
    ensures AllFit(Numbered(3, e.nextFile)) && AllFit(Numbered(4, e.lastSequence)) && AllFit(Numbers(e))
  {
    var a, b, c := Named(e.comparator), Numbered(2, e.logNumber), Numbered(9, e.prevLogNumber);
    var d, f := Numbered(3, e.nextFile), Numbered(4, e.lastSequence);
    AllFitAppend(a, b);
    AllFitAppend(a + b, c);
    AllFitAppend(a + b + c, d);
    AllFitAppend(a + b + c + d, f);
  }

  lemma FieldsFit(e: EditData)
    requires Encodable(e)
    ensures AllFit(FieldsOf(e))
  {
    hide Numbers, AllFit;
    NumbersFit(e);
    var a, b, c, d := Numbers(e), Pointers(e.compactPointers), Deletions(e.deletedFiles), Additions(e.newFiles);
    ListsFit(e);
    AllFitAppend(a, b);
    AllFitAppend(a + b, c);
    AllFitAppend(a + b + c, d);
  }

  lemma ListsFit(e: EditData)
    requires Encodable(e)
    ensures AllFit(Pointers(e.compactPointers)) && AllFit(Deletions(e.deletedFiles)) && AllFit(Additions(e.newFiles))
  {
    forall i | 0 <= i < |e.compactPointers|
      ensures Fits(Pointers(e.compactPointers)[i])
    {
      assert e.compactPointers[i] in e.compactPointers;
    }
    forall i | 0 <= i < |e.deletedFiles|
      ensures Fits(Deletions(e.deletedFiles)[i])
    {
      assert e.deletedFiles[i] in e.deletedFiles;
    }
    forall i | 0 <= i < |e.newFiles|
      ensures Fits(Additions(e.newFiles)[i])
    {
      assert e.newFiles[i] in e.newFiles;
    }
  }

  lemma {:induction false} ApplyPointers(e: EditData, ps: seq<(nat, seq<Byte>)>)
    ensures ApplyFields(e, Pointers(ps)) == e.(compactPointers := e.compactPointers + ps)
    decreases |ps|
  {
    if ps == [] {
      assert e.compactPointers + ps == e.compactPointers;
    } else {
      assert Pointers(ps)[1..] == Pointers(ps[1..]);
      ApplyPointers(ApplyField(e, Pointers(ps)[0]), ps[1..]);
      assert e.compactPointers + [ps[0]] + ps[1..] == e.compactPointers + ps;
    }
  }

  lemma {:induction false} ApplyDeletions(e: EditData, ps: seq<(nat, nat)>)
    requires Ascending(e.deletedFiles + ps)
    ensures ApplyFields(e, Deletions(ps)) == e.(deletedFiles := e.deletedFiles + ps)
    decreases |ps|
  {
    var ds := e.deletedFiles;
    if ps == [] {
      assert ds + ps == ds;
    } else {
      assert Deletions(ps)[1..] == Deletions(ps[1..]);
      assert ds + [ps[0]] == (ds + ps)[..|ds| + 1];
      InsertPairLast(ds, ps[0]);
      assert ds + [ps[0]] + ps[1..] == ds + ps;
      ApplyDeletions(ApplyField(e, Deletions(ps)[0]), ps[1..]);
    }
  }

  lemma {:induction false} ApplyAdditions(e: EditData, ps: seq<(nat, FileRecord)>)
    ensures ApplyFields(e, Additions(ps)) == e.(newFiles := e.newFiles + ps)
    decreases |ps|
  {
    if ps == [] {
      assert e.newFiles + ps == e.newFiles;
    } else {
      assert Additions(ps)[1..] == Additions(ps[1..]);
      ApplyAdditions(ApplyField(e, Additions(ps)[0]), ps[1..]);
      assert e.newFiles + [ps[0]] + ps[1..] == e.newFiles + ps;
    }
  }

  lemma ApplyNumbers(s: EditData, e: EditData)
    requires s == Cleared(s)
    ensures ApplyFields(s, Numbers(e))
         == e.(compactPointers := s.compactPointers, deletedFiles := [], newFiles := [])
  {
    var a, b, c := Named(e.comparator), Numbered(2, e.logNumber), Numbered(9, e.prevLogNumber);
    var d, f := Numbered(3, e.nextFile), Numbered(4, e.lastSequence);
    ApplyFieldsAppend(s, a + b + c + d, f);
    ApplyFieldsAppend(s, a + b + c, d);
    ApplyFieldsAppend(s, a + b, c);
    ApplyFieldsAppend(s, a, b);
  }

  /** Decoding an encoded edit into an edit that was used before: every field comes back, and the
      compaction pointers follow those that Clear left behind. */
  lemma DecodeEncode(s: EditData, e: EditData)
    requires Encodable(e)
    ensures Decode(Cleared(s), EditBytes(e)) == (e.(compactPointers := s.compactPointers + e.compactPointers), Ok)
  {
    hide ApplyField, Decode, FieldsBytes, Numbers, Pointers, Deletions, Additions;
    FieldsFit(e);
    DecodeFields(Cleared(s), FieldsOf(e));
    var n, p, d, a := Numbers(e), Pointers(e.compactPointers), Deletions(e.deletedFiles), Additions(e.newFiles);
    ApplyFieldsAppend(Cleared(s), n + p + d, a);
    ApplyFieldsAppend(Cleared(s), n + p, d);
    ApplyFieldsAppend(Cleared(s), n, p);
    ApplyNumbers(Cleared(s), e);
    var e1 := ApplyFields(Cleared(s), n);
    ApplyPointers(e1, e.compactPointers);
    var e2 := ApplyFields(e1, p);
    assert [] + e.deletedFiles == e.deletedFiles;
    ApplyDeletions(e2, e.deletedFiles);
    ApplyAdditions(ApplyFields(e2, d), e.newFiles);
    assert [] + e.newFiles == e.newFiles;
  }

  /** The round trip is exact just when no compaction pointers were left in the edit. */
  lemma RoundTripIff(s: EditData, e: EditData)
    requires Encodable(e)
    ensures Decode(Cleared(s), EditBytes(e)) == (e, Ok) <==> s.compactPointers == []
  {
    hide Decode, EditBytes;
    DecodeEncode(s, e);
    assert s.compactPointers == [] ==> s.compactPointers + e.compactPointers == e.compactPointers;
  }

  /** An edit that held a pointer still has it after decoding an empty edit. */
  lemma StalePointerStays()
    ensures var none := EditData(None, None, None, None, None, [], [], []);
      var used := none.(compactPointers := [(0, [1])]);
      Encodable(none) && Decode(Cleared(used), EditBytes(none)) == (used, Ok) != (none, Ok)
  {
    hide Decode, EditBytes;
    var none := EditData(None, None, None, None, None, [], [], []);
    var used := none.(compactPointers := [(0, [1])]);
    DecodeEncode(used, none);
    assert [(0, [1])] + none.compactPointers == [(0, [1])];
  }

  lemma ApplyFieldEncodable(e: EditData, f: Field)
    requires Encodable(e) && Fits(f)
    ensures Encodable(ApplyField(e, f))
  {
    if f.DeletedFile? {
      InsertPairMembers(e.deletedFiles, (f.level, f.number));
    }
  }

  /** Whatever bytes decode, the edit they decode to can be encoded, hence survives a second trip. */
  lemma {:induction false} DecodedIsEncodable(e: EditData, input: seq<Byte>)
    requires Encodable(e)
    ensures Encodable(Decode(e, input).0)
    decreases |input|
  {
    hide GetVarint32, ParseField, ApplyField, Encodable;
    var t := GetVarint32(input);
    if t.Parsed? && KnownTag(t.value) {
      var f := ParseField(t.value, t.rest);
      if f.Parsed? {
        ApplyFieldEncodable(e, f.value);
        DecodedIsEncodable(ApplyField(e, f.value), f.rest);
      }
    }
  }

  // ----- the class -----

  class VersionEdit {
    var comparator: Option<seq<Byte>>
    var logNumber: Option<nat>
    var prevLogNumber: Option<nat>
    var nextFile: Option<nat>
    var lastSequence: Option<nat>
    var compactPointers: seq<(nat, seq<Byte>)>
    var deletedFiles: seq<(nat, nat)>
    var newFiles: seq<(nat, FileRecord)>

    function Data(): EditData
      reads this
    {
      EditData(comparator, logNumber, prevLogNumber, nextFile, lastSequence, compactPointers, deletedFiles, newFiles)
    }

    constructor ()
      ensures Data() == EditData(None, None, None, None, None, [], [], [])
    {
      comparator, logNumber, prevLogNumber, nextFile, lastSequence := None, None, None, None, None;
      compactPointers, deletedFiles, newFiles := [], [], [];
    }

    method Clear()
      modifies this
      ensures Data() == Cleared(old(Data()))
    {
      comparator, logNumber, prevLogNumber, nextFile, lastSequence := None, None, None, None, None;
      deletedFiles, newFiles := [], [];
    }

    method AddFile(level: nat, number: nat, size: nat, smallest: seq<Byte>, largest: seq<Byte>)
      modifies `newFiles
      ensures Data() == old(Data()).(newFiles := old(newFiles) + [(level, FileRecord(number, size, smallest, largest))])
    {
      newFiles := newFiles + [(level, FileRecord(number, size, smallest, largest))];
    }

    method RemoveFile(level: nat, number: nat)
      requires Ascending(deletedFiles)
      modifies `deletedFiles
      ensures Data() == old(Data()).(deletedFiles := deletedFiles) && Ascending(deletedFiles)
      ensures forall p :: p in deletedFiles <==> p in old(deletedFiles) || p == (level, number)
    {
      InsertPairMembers(deletedFiles, (level, number));
      deletedFiles := InsertPair(deletedFiles, (level, number));
    }

    /** EncodeTo: the numbers that are set, then the three lists. */
    method EncodeTo(dst: seq<Byte>) returns (r: seq<Byte>)
      requires Encodable(Data())
      ensures r == dst + EditBytes(Data())
    {
      hide FieldBytes, FieldsBytes, Fits, Numbers;
      ListsFit(Data());
      var ps, ds, ns := Pointers(compactPointers), Deletions(deletedFiles), Additions(newFiles);
      ghost var es := Numbers(Data());
      r := PutNumbers(dst);
      r := PutFields(r, ps);
      FieldsBytesAppend(es, ps);
      r := PutFields(r, ds);
      FieldsBytesAppend(es + ps, ds);
      r := PutFields(r, ns);
      FieldsBytesAppend(es + ps + ds, ns);
    }

    method PutNumbers(dst: seq<Byte>) returns (r: seq<Byte>)
      requires Encodable(Data())
      ensures r == dst + FieldsBytes(Numbers(Data()))
    {
      hide FieldBytes, FieldsBytes, Named, Numbered, Fits;
      NumbersFit(Data());
      var a, b, c := Named(comparator), Numbered(2, logNumber), Numbered(9, prevLogNumber);
      var d, f := Numbered(3, nextFile), Numbered(4, lastSequence);
      r := PutFields(dst, a);
      r := PutFields(r, b);
      FieldsBytesAppend(a, b);
      r := PutFields(r, c);
      FieldsBytesAppend(a + b, c);
      r := PutFields(r, d);
      FieldsBytesAppend(a + b + c, d);
      r := PutFields(r, f);
      FieldsBytesAppend(a + b + c + d, f);
    }

    /** DecodeFrom: on failure the fields parsed so far stay in the edit. */
    method DecodeFrom(src: seq<Byte>) returns (outcome: Outcome)
      modifies this
      ensures (Data(), outcome) == Decode(Cleared(old(Data())), src)
    {
      hide GetVarint32, ParseField, InsertPair, Cleared;
      Clear();
      var input := src;
      var t := ReadVarint32(input);
      while t.Parsed?
        invariant t == GetVarint32(input)
        invariant Decode(Data(), input) == Decode(Cleared(old(Data())), src)
        decreases |input|
      {
        if !KnownTag(t.value) {
          return UnknownTag;
        }
        var f := ReadField(t.value, t.rest);
        if f.Failed? {
          return BadField(t.value);
        }
        Accept(f.value);
        input := f.rest;
        t := ReadVarint32(input);
      }
      return if input == [] then Ok else InvalidTag;
    }

    /** Store one parsed field. */
    method Accept(f: Field)
      modifies this
      ensures Data() == ApplyField(old(Data()), f)
    {
      match f {
        case Comparator(name) => comparator := Some(name);
        case LogNumber(n) => logNumber := Some(n);
        case PrevLogNumber(n) => prevLogNumber := Some(n);
        case NextFile(n) => nextFile := Some(n);
        case LastSequence(n) => lastSequence := Some(n);
        case CompactPointer(level, key) => compactPointers := compactPointers + [(level, key)];
        case DeletedFile(level, n) => deletedFiles := InsertPair(deletedFiles, (level, n));
        case NewFile(level, file) => newFiles := newFiles + [(level, file)];
      }
    }
  }

  lemma NoFields()
    ensures FieldsBytes([]) == []
  {
  }

  lemma Extend(done: seq<Field>, f: Field) returns (r: seq<Field>)
    ensures r == done + [f]
    ensures FieldsBytes(r) == FieldsBytes(done) + FieldBytes(f)
  {
    r := done + [f];
    FieldsBytesAppend(done, [f]);
    assert [f][1..] == [];
    NoFields();
  }

  method PutFields(dst: seq<Byte>, fs: seq<Field>) returns (r: seq<Byte>)
    requires AllFit(fs)
    ensures r == dst + FieldsBytes(fs)
  {
    hide FieldBytes, FieldsBytes, Fits;
    r := dst;
    NoFields();
    assert fs[..0] == [] && fs[..|fs|] == fs;
    for i := 0 to |fs|
      invariant r == dst + FieldsBytes(fs[..i])
    {
      r := PutField(r, fs[i]);
      ghost var done := Extend(fs[..i], fs[i]);
      assert done == fs[..i + 1];
    }
  }

  /** The tag and the parts of one field. */
  method PutField(dst: seq<Byte>, f: Field) returns (r: seq<Byte>)
    requires Fits(f)
    ensures r == dst + FieldBytes(f)
  {
    hide Varint, LengthPrefixed;
    r := PutVarint32(dst, Tag(f));
    match f {
      case Comparator(name) =>
        r := PutLengthPrefixed(r, name);
      case CompactPointer(level, key) =>
        r := PutVarint32(r, level);
        r := PutLengthPrefixed(r, key);
      case DeletedFile(level, number) =>
        r := PutVarint32(r, level);
        r := PutVarint64(r, number);
      case NewFile(level, file) =>
        r := PutVarint32(r, level);
        r := PutFile(r, file);
      case _ =>
        r := PutVarint64(r, f.number);
    }
  }

  method PutFile(dst: seq<Byte>, f: FileRecord) returns (r: seq<Byte>)
    requires IsFile(f)
    ensures r == dst + FileBytes(f)
  {
    hide Varint, LengthPrefixed;
    r := PutVarint64(dst, f.number);
    r := PutVarint64(r, f.size);
    r := PutLengthPrefixed(r, f.smallest);
    r := PutLengthPrefixed(r, f.largest);
  }

  method ReadInternalKey(input: seq<Byte>) returns (r: Parsed<seq<Byte>>)
    ensures r == GetInternalKey(input)
  {
    r := ReadLengthPrefixed(input);
    if r.Parsed? && r.value == [] {
      r := Failed;
    }
  }

  method ReadFile(input: seq<Byte>) returns (r: Parsed<FileRecord>)
    ensures r == GetFile(input)
  {
    hide GetVarint64, GetInternalKey;
    var n := ReadVarint64(input);
    if n.Parsed? {
      var s := ReadVarint64(n.rest);
      if s.Parsed? {
        var a := ReadInternalKey(s.rest);
        if a.Parsed? {
          var b := ReadInternalKey(a.rest);
          if b.Parsed? {
            return Parsed(FileRecord(n.value, s.value, a.value, b.value), b.rest);
          }
        }
      }
    }
    return Failed;
  }

  /** The switch of DecodeFrom. */
  method ReadField(tag: nat, input: seq<Byte>) returns (r: Parsed<Field>)
    requires KnownTag(tag)
    ensures r == ParseField(tag, input)
  {
    hide GetVarint64, GetVarint32, GetInternalKey, GetFile, GetLengthPrefixed;
    if tag == 1 {
      var s := ReadLengthPrefixed(input);
      return if s.Failed? then Failed else Parsed(Comparator(s.value), s.rest);
    } else if NumberTag(tag) {
      var n := ReadVarint64(input);
      return if n.Failed? then Failed else Parsed(NumberField(tag, n.value), n.rest);
    }
    var l := ReadVarint32(input);
    if l.Failed? || l.value >= NUM_LEVELS {
      return Failed;
    }
    if tag == 5 {
      var k := ReadInternalKey(l.rest);
      return if k.Failed? then Failed else Parsed(CompactPointer(l.value, k.value), k.rest);
    } else if tag == 6 {
      var n := ReadVarint64(l.rest);
      return if n.Failed? then Failed else Parsed(DeletedFile(l.value, n.value), n.rest);
    }
    var f := ReadFile(l.rest);
    return if f.Failed? then Failed else Parsed(NewFile(l.value, f.value), f.rest);
  }
}
