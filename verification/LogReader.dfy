/** Reading a log back, complete or torn (log_reader.cc). */
module LogReader {
  import opened Coding
  import opened LogFormat
  import opened Options

  /** What ReadPhysicalRecord returns: kEof, kBadRecord, or a typed fragment. */
  datatype Piece = Eof | Bad | Fragment(kind: Byte, payload: seq<Byte>)

  /** The two results that are not record types have the numbers after the last one. */
  const EOF_CODE: Byte := LAST_TYPE + 1
  const BAD_CODE: Byte := LAST_TYPE + 2

  /** What a fragment's type byte says to the caller: a fragment that bears the number of a
      result is taken for that result. */
  function Typed(kind: Byte, payload: seq<Byte>): Piece {
    if kind == EOF_CODE then Eof else if kind == BAD_CODE then Bad else Fragment(kind, payload)
  }

  /** A step of reading: its result, the file position reached, and the corruption reports. */
  datatype Step<+T> = Step(result: T, pos: nat, reports: nat)

  // ----- one physical record -----

  function BlockStart(pos: nat): (r: nat)
    ensures r <= pos < r + BLOCK_SIZE
  {
    pos - pos % BLOCK_SIZE
  }

  /** The end of the part of `pos`'s block that the file has. */
  function BlockEnd(file: seq<Byte>, pos: nat): (r: nat)
    requires pos <= |file|
    ensures pos <= r <= |file|
  {
    if BlockStart(pos) + BLOCK_SIZE <= |file| then BlockStart(pos) + BLOCK_SIZE else |file|
  }

  predicate FullBlock(file: seq<Byte>, pos: nat) {
    BlockStart(pos) + BLOCK_SIZE <= |file|
  }

  function Length(low: nat, high: nat): nat {
    low + 256 * high
  }

  function ParseAt(crc: Checksum, file: seq<Byte>, pos: nat): Step<Piece>
    requires pos <= |file| && BlockEnd(file, pos) - pos >= HEADER_SIZE
  {
    var end := BlockEnd(file, pos);
    var length := Length(file[pos + 4], file[pos + 5]);
    var kind := file[pos + 6];
    if HEADER_SIZE + length > end - pos then
      if FullBlock(file, pos) then Step(Bad, end, 1) else Step(Eof, |file|, 0)
    else if kind == ZERO_TYPE && length == 0 then Step(Bad, end, 0)
    else
      var payload := file[pos + HEADER_SIZE..pos + HEADER_SIZE + length];
      if crc(kind, payload) != Unfixed(file[pos..pos + 4]) then Step(Bad, end, 1)
      else Step(Typed(kind, payload), pos + HEADER_SIZE + length, 0)
  }

  function ReadPhysical(crc: Checksum, file: seq<Byte>, pos: nat): (r: Step<Piece>)
    requires pos <= |file|
    ensures r.pos <= |file| && (!r.result.Eof? ==> r.pos > pos)
    decreases |file| - pos
  {
    if BlockEnd(file, pos) - pos >= HEADER_SIZE then ParseAt(crc, file, pos)
    else if FullBlock(file, pos) then ReadPhysical(crc, file, BlockEnd(file, pos))
    else Step(Eof, |file|, 0)
  }

  // ----- one logical record -----

  function ReadLogical(crc: Checksum, file: seq<Byte>, pos: nat, inFragmented: bool, scratch: seq<Byte>): (r: Step<Option<Record>>)
    requires pos <= |file|
    ensures r.pos <= |file| && (r.result.Some? ==> r.pos > pos)
    decreases |file| - pos
  {
    var p := ReadPhysical(crc, file, pos);
    var lost := if inFragmented && scratch != [] then 1 else 0;
    match p.result
    case Eof => Step(None, p.pos, p.reports)
    case Bad =>
      More(ReadLogical(crc, file, p.pos, false, if inFragmented then [] else scratch), p.reports + if inFragmented then 1 else 0)
    case Fragment(kind, payload) =>
      if kind == FULL_TYPE then Step(Some(payload), p.pos, p.reports + lost)
      else if kind == FIRST_TYPE then More(ReadLogical(crc, file, p.pos, true, payload), p.reports + lost)
      else if kind == MIDDLE_TYPE then
        if inFragmented then More(ReadLogical(crc, file, p.pos, true, scratch + payload), p.reports)
        else More(ReadLogical(crc, file, p.pos, false, scratch), p.reports + 1)
      else if kind == LAST_TYPE then
        if inFragmented then Step(Some(scratch + payload), p.pos, p.reports)
        else More(ReadLogical(crc, file, p.pos, false, scratch), p.reports + 1)
      else More(ReadLogical(crc, file, p.pos, false, []), p.reports + 1)
  }

  function More(r: Step<Option<Record>>, reports: nat): Step<Option<Record>> {
    Step(r.result, r.pos, reports + r.reports)
  }

  /** All records a reader gets until ReadRecord returns false, and the reports on the way. */
  function ReadAll(crc: Checksum, file: seq<Byte>, pos: nat): (seq<Record>, nat)
    requires pos <= |file|
    decreases |file| - pos
  {
    var r := ReadLogical(crc, file, pos, false, []);
    if r.result.None? then ([], r.reports)
    else
      var rest := ReadAll(crc, file, r.pos);
      ([r.result.value] + rest.0, r.reports + rest.1)
  }

  // ----- the reader -----

  class Reader {
    const crc: Checksum
    const file: seq<Byte>
    var filePos: nat
    var buffer: seq<Byte>
    var eof: bool
    var reports: nat

    /** The buffer is the unread rest of one block. */
    ghost predicate Valid()
      reads this
    {
      && |buffer| <= filePos <= |file|
      && buffer == file[filePos - |buffer|..filePos]
      && (!eof ==> filePos % BLOCK_SIZE == 0 && |buffer| <= BLOCK_SIZE)
      && (eof ==> filePos == |file| && |buffer| <= filePos % BLOCK_SIZE)
    }

    ghost function Pos(): (p: nat)
      requires Valid()
      reads this
      ensures p <= |file|
    {
      filePos - |buffer|
    }

    constructor (crc: Checksum, file: seq<Byte>)
      ensures Valid() && Pos() == 0 && reports == 0 && this.crc == crc && this.file == file
    {
      this.crc := crc;
      this.file := file;
      filePos, buffer, eof, reports := 0, [], false, 0;
    }

    /** Read the next block, or what the file still has of it. */
    method ReadBlock()
      requires Valid() && !eof
      modifies this
      ensures Valid() && reports == old(reports)
      ensures Pos() == old(filePos)
      ensures if eof then filePos == |file| else filePos == old(filePos) + BLOCK_SIZE
    {
      var n := if |file| - filePos < BLOCK_SIZE then |file| - filePos else BLOCK_SIZE;
      buffer := file[filePos..filePos + n];
      filePos := filePos + n;
      if n < BLOCK_SIZE {
        eof := true;
      }
    }

    method ReportCorruption()
      requires Valid()
      modifies `reports
      ensures Valid() && Pos() == old(Pos()) && reports == old(reports) + 1
    {
      reports := reports + 1;
    }

    method ReadPhysicalRecord() returns (r: Piece)
      requires Valid()
      modifies this
      ensures Valid()
      ensures Step(r, Pos(), reports) == (var p := old(ReadPhysical(crc, file, Pos())); Step(p.result, p.pos, old(reports) + p.reports))
    {
      while |buffer| < HEADER_SIZE
        invariant Valid() && reports == old(reports)
        invariant ReadPhysical(crc, file, Pos()) == old(ReadPhysical(crc, file, Pos()))
        decreases |file| - filePos, !eof
      {
        AtBlock();
        if !eof {
          ReadBlock();
        } else {
          buffer := [];
          return Eof;
        }
      }
      AtBlock();
      r := ParseBuffer();
    }

    /** The header and the fragment at the front of the buffer. */
    method ParseBuffer() returns (r: Piece)
      requires Valid() && |buffer| >= HEADER_SIZE
      requires BlockEnd(file, Pos()) == filePos && FullBlock(file, Pos()) == !eof
      modifies this
      ensures Valid()
      ensures Step(r, Pos(), reports) == (var p := old(ParseAt(crc, file, Pos())); Step(p.result, p.pos, old(reports) + p.reports))
    {
      hide BlockEnd, BlockStart, FullBlock, Unfixed, ReadPhysical;
      ghost var pos := Pos();
      SliceAt(file, pos, filePos);
      var length := Length(buffer[4], buffer[5]);
      var kind := buffer[6];
      if HEADER_SIZE + length > |buffer| {
        buffer := [];
        if !eof {
          reports := reports + 1;
          return Bad;
        }
        return Eof;
      }
      if kind == ZERO_TYPE && length == 0 {
        buffer := [];
        return Bad;
      }
      var payload := buffer[HEADER_SIZE..HEADER_SIZE + length];
      assert payload == file[pos + HEADER_SIZE..pos + HEADER_SIZE + length];
      assert buffer[..4] == file[pos..pos + 4];
      if crc(kind, payload) != Unfixed(buffer[..4]) {
        buffer := [];
        reports := reports + 1;
        return Bad;
      }
      buffer := buffer[HEADER_SIZE + length..];
      return Typed(kind, payload);
    }

    /** How the buffer relates to the block structure of the file. */
    lemma AtBlock()
      requires Valid()
      ensures eof ==> !FullBlock(file, Pos()) && BlockEnd(file, Pos()) == filePos
      ensures !eof && buffer != [] ==> FullBlock(file, Pos()) && BlockEnd(file, Pos()) == filePos
      ensures forall i :: 0 <= i < |buffer| ==> buffer[i] == file[Pos() + i]
    {
      SameBlock(filePos, |buffer|);
    }

    method ReadRecord() returns (r: Option<Record>)
      requires Valid()
      modifies this
      ensures Valid()
      ensures Step(r, Pos(), reports) == (var p := old(ReadLogical(crc, file, Pos(), false, [])); Step(p.result, p.pos, old(reports) + p.reports))
    {
      hide ReadPhysical, Reader.Valid, Reader.Pos;
      var scratch: seq<Byte> := [];
      var inFragmented := false;
      ghost var goal := More(ReadLogical(crc, file, Pos(), false, []), reports);
      var piece: Piece := Bad;
      while !piece.Eof?
        invariant Valid()
        invariant !piece.Eof? ==> More(ReadLogical(crc, file, Pos(), inFragmented, scratch), reports) == goal
        invariant piece.Eof? ==> Step(None, Pos(), reports) == goal
        decreases !piece.Eof?, |file| - Pos()
      {
        piece := ReadPhysicalRecord();
        match piece {
          case Fragment(kind, payload) =>
            if kind == FULL_TYPE {
              if inFragmented && scratch != [] {
                ReportCorruption();
              }
              return Some(payload);
            } else if kind == FIRST_TYPE {
              if inFragmented && scratch != [] {
                ReportCorruption();
              }
              scratch := payload;
              inFragmented := true;
            } else if kind == MIDDLE_TYPE {
              if !inFragmented {
                ReportCorruption();
              } else {
                scratch := scratch + payload;
              }
            } else if kind == LAST_TYPE {
              if !inFragmented {
                ReportCorruption();
              } else {
                return Some(scratch + payload);
              }
            } else {
              ReportCorruption();
              inFragmented := false;
              scratch := [];
            }
          case Eof =>
          case Bad =>
            if inFragmented {
              ReportCorruption();
              inFragmented := false;
              scratch := [];
            }
        }
      }
      return None;
    }
  }

  lemma SliceAt(file: seq<Byte>, lo: nat, hi: nat)
    requires lo <= hi <= |file|
    ensures forall i :: 0 <= i < hi - lo ==> file[lo..hi][i] == file[lo + i]
    ensures forall i, j :: 0 <= i <= j <= hi - lo ==> file[lo..hi][i..j] == file[lo + i..lo + j]
    ensures forall i :: 0 <= i <= hi - lo ==> file[lo..hi][i..] == file[lo + i..hi]
  {
  }

  lemma SameBlock(filePos: nat, n: nat)
    requires n <= filePos
    ensures n <= filePos % BLOCK_SIZE ==> BlockStart(filePos - n) == filePos - filePos % BLOCK_SIZE
    ensures filePos % BLOCK_SIZE == 0 && 0 < n <= BLOCK_SIZE ==> BlockStart(filePos - n) == filePos - BLOCK_SIZE
  {
    var q, m := filePos / BLOCK_SIZE, filePos % BLOCK_SIZE;
    if n <= m {
      assert (filePos - n) % BLOCK_SIZE == m - n;
    } else if m == 0 && n <= BLOCK_SIZE {
      assert filePos - n == (q - 1) * BLOCK_SIZE + (BLOCK_SIZE - n);
    }
  }
}
