/** The log: records cut into physical records that never cross a 32 KB block (log_format.h,
    log_writer.cc, log_reader.cc). */
module LogFormat {
  import opened Coding

  const BLOCK_SIZE: nat := 32768
  const HEADER_SIZE: nat := 7

  const ZERO_TYPE: Byte := 0
  const FULL_TYPE: Byte := 1
  const FIRST_TYPE: Byte := 2
  const MIDDLE_TYPE: Byte := 3
  const LAST_TYPE: Byte := 4

  /** The masked checksum of a type and a payload; which function it is does not matter. */
  type Checksum = (Byte, seq<Byte>) -> nat

  ghost predicate Is32Bit(crc: Checksum) {
    forall t, p :: crc(t, p) < TWO_32
  }

  type Record = seq<Byte>

  // ----- what the writer writes -----

  function Header(crc: Checksum, t: Byte, payload: seq<Byte>): (r: seq<Byte>)
    requires |payload| < 0x1_0000
    ensures |r| == HEADER_SIZE
  {
    Fixed(crc(t, payload), 4) + [|payload| % 256, |payload| / 256, t]
  }

  function Physical(crc: Checksum, t: Byte, payload: seq<Byte>): (r: seq<Byte>)
    requires |payload| < 0x1_0000
    ensures |r| == HEADER_SIZE + |payload|
  {
    Header(crc, t, payload) + payload
  }

  function Zeros(n: nat): (r: seq<Byte>)
    ensures |r| == n
  {
    seq(n, _ => 0)
  }

  function FragmentType(begin: bool, end: bool): Byte {
    if begin && end then FULL_TYPE else if begin then FIRST_TYPE else if end then LAST_TYPE else MIDDLE_TYPE
  }

  /** Bytes of trailer to fill at block offset `o`. */
  function Trailer(o: nat): nat
    requires o <= BLOCK_SIZE
  {
    if BLOCK_SIZE - o < HEADER_SIZE then BLOCK_SIZE - o else 0
  }

  /** Where the next header goes. */
  function HeaderAt(o: nat): (r: nat)
    requires o <= BLOCK_SIZE
    ensures r + HEADER_SIZE <= BLOCK_SIZE
  {
    if BLOCK_SIZE - o < HEADER_SIZE then 0 else o
  }

  /** The block has room for a header only. */
  predicate NoRoom(o: nat)
    requires o <= BLOCK_SIZE
  {
    HeaderAt(o) + HEADER_SIZE == BLOCK_SIZE
  }

  function FragmentLength(left: nat, o: nat): (n: nat)
    requires o <= BLOCK_SIZE
    ensures n <= left && HeaderAt(o) + HEADER_SIZE + n <= BLOCK_SIZE
  {
    var avail := BLOCK_SIZE - HeaderAt(o) - HEADER_SIZE;
    if left < avail then left else avail
  }

  /** The bytes AddRecord appends for `left`, the unwritten part of a record, at offset `o`. */
  function Encode(crc: Checksum, left: Record, o: nat, begin: bool): seq<Byte>
    requires o <= BLOCK_SIZE
    decreases |left|, if NoRoom(o) then 1 else 0
  {
    var n := FragmentLength(|left|, o);
    var end := n == |left|;
    Zeros(Trailer(o)) + Physical(crc, FragmentType(begin, end), left[..n])
    + if end then [] else Encode(crc, left[n..], HeaderAt(o) + HEADER_SIZE + n, false)
  }

  /** The block offset after that. */
  function OffsetAfter(left: Record, o: nat): (r: nat)
    requires o <= BLOCK_SIZE
    ensures r <= BLOCK_SIZE
    decreases |left|, if NoRoom(o) then 1 else 0
  {
    var n := FragmentLength(|left|, o);
    var o' := HeaderAt(o) + HEADER_SIZE + n;
    if n == |left| then o' else OffsetAfter(left[n..], o')
  }

  /** A log file with the given records, from offset `o` on. */
  function EncodeAll(crc: Checksum, rs: seq<Record>, o: nat): seq<Byte>
    requires o <= BLOCK_SIZE
  {
    if rs == [] then [] else Encode(crc, rs[0], o, true) + EncodeAll(crc, rs[1..], OffsetAfter(rs[0], o))
  }

  /** Where in its block the file ends after the given records. */
  function OffsetAfterAll(rs: seq<Record>, o: nat): (r: nat)
    requires o <= BLOCK_SIZE
    ensures r <= BLOCK_SIZE
    decreases |rs|
  {
    if rs == [] then o else OffsetAfterAll(rs[1..], OffsetAfter(rs[0], o))
  }

  /** A file is extended by the encoding of one more record at its end. */
  lemma {:induction false} EncodeAllExtend(crc: Checksum, rs: seq<Record>, r: Record, o: nat)
    requires o <= BLOCK_SIZE
    ensures EncodeAll(crc, rs + [r], o) == EncodeAll(crc, rs, o) + Encode(crc, r, OffsetAfterAll(rs, o), true)
    ensures OffsetAfterAll(rs + [r], o) == OffsetAfter(r, OffsetAfterAll(rs, o))
    decreases |rs|
  {
    hide Encode, OffsetAfter;
    if rs == [] {
      assert ([] + [r])[1..] == [];
    } else {
      EncodeAllExtend(crc, rs[1..], r, OffsetAfter(rs[0], o));
      assert (rs + [r])[1..] == rs[1..] + [r];
    }
  }

  class Writer {
    const crc: Checksum
    var dest: seq<Byte>
    var blockOffset: nat

    ghost predicate Valid()
      reads this
    {
      blockOffset <= BLOCK_SIZE && |dest| % BLOCK_SIZE == blockOffset % BLOCK_SIZE
    }

    /** The file consists of the records `rs`. */
    ghost predicate Wrote(rs: seq<Record>)
      reads this
    {
      dest == EncodeAll(crc, rs, 0) && blockOffset == OffsetAfterAll(rs, 0)
    }

    /** Writer(dest, dest_length): continue a file. */
    constructor (crc: Checksum, dest: seq<Byte>)
      ensures Valid() && this.crc == crc && this.dest == dest && blockOffset == |dest| % BLOCK_SIZE
    {
      this.crc := crc;
      this.dest := dest;
      blockOffset := |dest| % BLOCK_SIZE;
    }

    method AddRecord(slice: Record)
      requires Valid()
      modifies this
      ensures Valid()
      ensures dest == old(dest) + Encode(crc, slice, old(blockOffset), true)
      ensures blockOffset == OffsetAfter(slice, old(blockOffset))
    {
      hide Encode, OffsetAfter, Physical, Zeros;
      var left := slice;
      var begin := true;
      var more := true;
      ghost var written, last := dest + Encode(crc, slice, blockOffset, true), OffsetAfter(slice, blockOffset);
      while more
        invariant Valid()
        invariant more ==> dest + Encode(crc, left, blockOffset, begin) == written && OffsetAfter(left, blockOffset) == last
        invariant !more ==> dest == written && blockOffset == last
        decreases more, |left|, if NoRoom(blockOffset) then 1 else 0
      {
        ghost var before, o := dest, blockOffset;
        SwitchBlock();
        var avail := BLOCK_SIZE - blockOffset - HEADER_SIZE;
        var n := if |left| < avail then |left| else avail;
        var end := |left| == n;
        EncodeStep(crc, left, o, begin);
        EmitPhysicalRecord(FragmentType(begin, end), left[..n]);
        Regroup(before, Zeros(Trailer(o)), Physical(crc, FragmentType(begin, end), left[..n]),
                if end then [] else Encode(crc, left[n..], blockOffset, false));
        left := left[n..];
        begin := false;
        more := left != [];
      }
    }

    /** Without room for a header, fill the trailer with zeros and go to a new block. */
    method SwitchBlock()
      requires Valid()
      modifies this
      ensures Valid()
      ensures dest == old(dest) + Zeros(Trailer(old(blockOffset))) && blockOffset == HeaderAt(old(blockOffset))
    {
      var leftover := BLOCK_SIZE - blockOffset;
      if leftover < HEADER_SIZE {
        if leftover > 0 {
          dest := dest + Zeros(leftover);
        }
        blockOffset := 0;
      }
      assert dest == old(dest) + Zeros(Trailer(old(blockOffset)));
    }

    method EmitPhysicalRecord(t: Byte, payload: seq<Byte>)
      requires Valid() && blockOffset + HEADER_SIZE + |payload| <= BLOCK_SIZE
      modifies this
      ensures Valid()
      ensures dest == old(dest) + Physical(crc, t, payload)
      ensures blockOffset == old(blockOffset) + HEADER_SIZE + |payload|
    {
      dest := dest + Header(crc, t, payload);
      dest := dest + payload;
      blockOffset := blockOffset + HEADER_SIZE + |payload|;
    }
  }

  lemma Regroup(a: seq<Byte>, b: seq<Byte>, c: seq<Byte>, d: seq<Byte>)
    ensures a + (b + c + d) == ((a + b) + c) + d
  {
  }

  lemma EncodeStep(crc: Checksum, left: Record, o: nat, begin: bool)
    requires o <= BLOCK_SIZE
    ensures var n := FragmentLength(|left|, o);
      && Encode(crc, left, o, begin) == Zeros(Trailer(o)) + Physical(crc, FragmentType(begin, n == |left|), left[..n])
        + (if n == |left| then [] else Encode(crc, left[n..], HeaderAt(o) + HEADER_SIZE + n, false))
      && OffsetAfter(left, o) == if n == |left| then HeaderAt(o) + HEADER_SIZE + n else OffsetAfter(left[n..], HeaderAt(o) + HEADER_SIZE + n)
  {
  }
}
