/** What a log reader returns from any file, damaged or not: only payloads whose checksums are right,
    put together in order (log_reader.cc). */
module LogSoundness {
  import opened Coding
  import opened LogFormat
  import opened LogReader
  import opened Options

  /** At `at`, inside one block, stands a fragment of type `t` with the right checksum. */
  ghost predicate FragmentAt(crc: Checksum, file: seq<Byte>, at: nat, t: nat, payload: seq<Byte>) {
    && at % 32768 + 7 + |payload| <= 32768
    && at + 7 + |payload| <= |file|
    && file[at + 4] == |payload| % 256 && file[at + 5] == |payload| / 256
    && file[at + 6] == t
    && file[at + 7..at + 7 + |payload|] == payload
    && crc(file[at + 6], payload) == Unfixed(file[at..at + 4])
  }

  datatype Part = Part(at: nat, payload: seq<Byte>)

  function Joined(parts: seq<Part>): Record {
    if parts == [] then [] else Joined(parts[..|parts| - 1]) + parts[|parts| - 1].payload
  }

  /** The parts lie one after the other. */
  ghost predicate InOrder(parts: seq<Part>) {
    forall i, j :: 0 <= i < j < |parts| ==> parts[i].at + 7 + |parts[i].payload| <= parts[j].at
  }

  /** A record in one fragment of type 1, or a start of type 2, middle parts of type 3, an end of type 4. */
  ghost predicate Assembled(crc: Checksum, file: seq<Byte>, parts: seq<Part>, r: Record) {
    && parts != [] && InOrder(parts) && r == Joined(parts)
    && forall i :: 0 <= i < |parts| ==> FragmentAt(crc, file, parts[i].at,
         if |parts| == 1 then 1 else if i == 0 then 2 else if i == |parts| - 1 then 4 else 3, parts[i].payload)
  }

  /** The parts of an unfinished record, all of them before `pos`. */
  ghost predicate Started(crc: Checksum, file: seq<Byte>, parts: seq<Part>, scratch: Record, pos: nat) {
    && parts != [] && InOrder(parts) && scratch == Joined(parts)
    && forall i :: 0 <= i < |parts| ==>
         && FragmentAt(crc, file, parts[i].at, if i == 0 then 2 else 3, parts[i].payload)
         && parts[i].at + 7 + |parts[i].payload| <= pos
  }

  /** A physical record is read where its fragment stands, at or after the position of the reader. */
  lemma {:induction false} PhysicalIsChecked(crc: Checksum, file: seq<Byte>, pos: nat) returns (at: nat)
    requires pos <= |file| && ReadPhysical(crc, file, pos).result.Fragment?
    ensures var p := ReadPhysical(crc, file, pos);
      pos <= at && p.pos == at + 7 + |p.result.payload| && FragmentAt(crc, file, at, p.result.kind, p.result.payload)
    decreases |file| - pos
  {
    if BlockEnd(file, pos) - pos >= HEADER_SIZE {
      at := pos;
      Bytes(file[pos + 4], file[pos + 5]);
    } else {
      at := PhysicalIsChecked(crc, file, BlockEnd(file, pos));
    }
  }

  /** Types 5 and 6 are taken for the end of the file and for a bad record. */
  lemma TypedCodes(t: Byte, payload: seq<Byte>)
    ensures Typed(t, payload) == if t == 5 then Eof else if t == 6 then Bad else Fragment(t, payload)
  {
  }

  lemma Bytes(low: Byte, high: Byte)
    ensures Length(low, high) % 256 == low && Length(low, high) / 256 == high
  {
  }

  lemma OnePart(crc: Checksum, file: seq<Byte>, at: nat, t: nat, payload: seq<Byte>)
    requires FragmentAt(crc, file, at, t, payload)
    ensures t == 1 ==> Assembled(crc, file, [Part(at, payload)], payload)
    ensures t == 2 ==> Started(crc, file, [Part(at, payload)], payload, at + 7 + |payload|)
  {
    var parts := [Part(at, payload)];
    assert parts[..0] == [] && Joined(parts) == [] + payload == payload;
  }

  lemma PartMore(crc: Checksum, file: seq<Byte>, parts: seq<Part>, scratch: Record, pos: nat, at: nat, t: nat, payload: seq<Byte>)
    requires Started(crc, file, parts, scratch, pos) && pos <= at && FragmentAt(crc, file, at, t, payload)
    ensures t == 3 ==> Started(crc, file, parts + [Part(at, payload)], scratch + payload, at + 7 + |payload|)
    ensures t == 4 ==> Assembled(crc, file, parts + [Part(at, payload)], scratch + payload)
  {
    hide FragmentAt;
    var more := parts + [Part(at, payload)];
    assert more[..|parts|] == parts;
  }

  lemma {:induction false} LogicalIsChecked(crc: Checksum, file: seq<Byte>, pos: nat, inFragmented: bool, scratch: Record, parts: seq<Part>)
    returns (whole: seq<Part>)
    requires pos <= |file| && ReadLogical(crc, file, pos, inFragmented, scratch).result.Some?
    requires inFragmented ==> Started(crc, file, parts, scratch, pos)
    ensures Assembled(crc, file, whole, ReadLogical(crc, file, pos, inFragmented, scratch).result.value)
    decreases |file| - pos
  {
    hide ReadPhysical, Assembled, Started, FragmentAt;
    var p := ReadPhysical(crc, file, pos);
    if p.result.Bad? {
      whole := LogicalIsChecked(crc, file, p.pos, false, if inFragmented then [] else scratch, []);
    } else {
      var t, payload := p.result.kind, p.result.payload;
      var at := PhysicalIsChecked(crc, file, pos);
      OnePart(crc, file, at, t, payload);
      if inFragmented {
        PartMore(crc, file, parts, scratch, pos, at, t, payload);
      }
      var more := parts + [Part(at, payload)];
      if t == 1 {
        whole := [Part(at, payload)];
      } else if t == 2 {
        whole := LogicalIsChecked(crc, file, p.pos, true, payload, [Part(at, payload)]);
      } else if t == 3 && inFragmented {
        whole := LogicalIsChecked(crc, file, p.pos, true, scratch + payload, more);
      } else if t == 4 && inFragmented {
        whole := more;
      } else {
        whole := LogicalIsChecked(crc, file, p.pos, false, if t == 3 || t == 4 then scratch else [], []);
      }
    }
  }

  /** Every record a reader gets from a file is made of checked fragments. */
  lemma {:induction false} AllIsChecked(crc: Checksum, file: seq<Byte>, pos: nat, i: nat) returns (whole: seq<Part>)
    requires pos <= |file| && i < |ReadAll(crc, file, pos).0|
    ensures Assembled(crc, file, whole, ReadAll(crc, file, pos).0[i])
    decreases |file| - pos
  {
    hide ReadLogical, Assembled;
    var r := ReadLogical(crc, file, pos, false, []);
    if i == 0 {
      whole := LogicalIsChecked(crc, file, pos, false, [], []);
    } else {
      whole := AllIsChecked(crc, file, r.pos, i - 1);
    }
  }

  /** After a bad record the reader goes on with the next block of the file. */
  lemma {:induction false} BadSkipsBlock(crc: Checksum, file: seq<Byte>, pos: nat)
    requires pos <= |file|
    ensures var p := ReadPhysical(crc, file, pos);
      p.reports <= 1 && (p.reports == 1 ==> p.result.Bad? && (p.pos % 32768 == 0 || p.pos == |file|))
    decreases |file| - pos
  {
    if BlockEnd(file, pos) - pos < HEADER_SIZE && FullBlock(file, pos) {
      BadSkipsBlock(crc, file, BlockEnd(file, pos));
    }
  }
}
