/** What is written to a log is what is read from it, and a torn log loses only its tail. */
module LogRoundTrip {
  import opened Coding
  import opened LogFormat
  import opened LogReader
  import opened Options

  /** From `pos` on the file holds the first bytes of `stream`, as many as it has room for. */
  ghost predicate Holds(file: seq<Byte>, pos: nat, stream: seq<Byte>) {
    pos <= |file| && |file| - pos <= |stream| && file[pos..] == stream[..|file| - pos]
  }

  lemma HoldsStarts(file: seq<Byte>, pos: nat, stream: seq<Byte>)
    requires Holds(file, pos, stream)
    ensures pos <= |file|
  {
  }

  lemma HoldsSlice(file: seq<Byte>, pos: nat, a: seq<Byte>, b: seq<Byte>)
    requires Holds(file, pos, a + b) && pos + |a| <= |file|
    ensures file[pos..pos + |a|] == a
    ensures Holds(file, pos + |a|, b)
  {
    var m := |file| - pos;
    assert file[pos..pos + |a|] == file[pos..][..|a|];
    assert (a + b)[..m][..|a|] == a;
    assert file[pos + |a|..] == file[pos..][|a|..];
    assert (a + b)[..m][|a|..] == b[..m - |a|];
  }

  lemma HeaderBytes(crc: Checksum, t: Byte, payload: seq<Byte>)
    requires Is32Bit(crc) && |payload| < 0x1_0000
    ensures var h := Physical(crc, t, payload);
      && Unfixed(h[..4]) == crc(t, payload) && Length(h[4], h[5]) == |payload| && h[6] == t && h[HEADER_SIZE..] == payload
  {
    var h := Physical(crc, t, payload);
    assert h[..4] == Fixed(crc(t, payload), 4);
    Fixed32RoundTrip(crc(t, payload));
  }

  lemma Sliced(file: seq<Byte>, pos: nat, h: seq<Byte>)
    requires pos + |h| <= |file| && file[pos..pos + |h|] == h
    ensures forall i, j :: 0 <= i <= j <= |h| ==> file[pos + i..pos + j] == h[i..j]
    ensures forall i :: 0 <= i < |h| ==> file[pos + i] == h[i]
  {
    forall i | 0 <= i < |h|
      ensures file[pos + i] == h[i]
    {
      assert file[pos..pos + |h|][i] == file[pos + i];
    }
  }

  /** A whole physical record inside one block is read back. */
  lemma PhysicalWhole(crc: Checksum, file: seq<Byte>, pos: nat, t: Byte, payload: seq<Byte>, rest: seq<Byte>)
    requires Is32Bit(crc) && t != ZERO_TYPE && t <= LAST_TYPE
    requires pos % BLOCK_SIZE + HEADER_SIZE + |payload| <= BLOCK_SIZE
    requires Holds(file, pos, Physical(crc, t, payload) + rest)
    requires pos + HEADER_SIZE + |payload| <= |file|
    ensures ReadPhysical(crc, file, pos) == Step(Fragment(t, payload), pos + HEADER_SIZE + |payload|, 0)
    ensures Holds(file, pos + HEADER_SIZE + |payload|, rest)
  {
    var h := Physical(crc, t, payload);
    HoldsSlice(file, pos, h, rest);
    HeaderBytes(crc, t, payload);
    Sliced(file, pos, h);
    assert file[pos..pos + 4] == h[0..4];
    assert file[pos + HEADER_SIZE..pos + |h|] == h[HEADER_SIZE..|h|];
    assert BlockEnd(file, pos) - pos >= HEADER_SIZE + |payload|;
  }

  /** A physical record the file ends in is reported as the end of the file. */
  lemma PhysicalTorn(crc: Checksum, file: seq<Byte>, pos: nat, t: Byte, payload: seq<Byte>, rest: seq<Byte>)
    requires Is32Bit(crc)
    requires pos % BLOCK_SIZE + HEADER_SIZE + |payload| <= BLOCK_SIZE
    requires Holds(file, pos, Physical(crc, t, payload) + rest)
    requires pos + HEADER_SIZE + |payload| > |file|
    ensures ReadPhysical(crc, file, pos) == Step(Eof, |file|, 0)
  {
    var h, m := Physical(crc, t, payload), |file| - pos;
    HeaderBytes(crc, t, payload);
    assert !FullBlock(file, pos) && BlockEnd(file, pos) == |file|;
    if m >= HEADER_SIZE {
      assert file[pos + 4] == file[pos..][4] == h[4];
      assert file[pos + 5] == file[pos..][5] == h[5];
    }
  }

  /** One fragment, trailer included. */
  lemma FragmentRead(crc: Checksum, file: seq<Byte>, pos: nat, o: nat, t: Byte, payload: seq<Byte>, rest: seq<Byte>)
    requires Is32Bit(crc) && t != ZERO_TYPE && t <= LAST_TYPE
    requires o <= BLOCK_SIZE && pos % BLOCK_SIZE == o % BLOCK_SIZE
    requires HeaderAt(o) + HEADER_SIZE + |payload| <= BLOCK_SIZE
    requires Holds(file, pos, Zeros(Trailer(o)) + Physical(crc, t, payload) + rest)
    ensures var k := Trailer(o) + HEADER_SIZE + |payload|;
      if pos + k <= |file| then
        && ReadPhysical(crc, file, pos) == Step(Fragment(t, payload), pos + k, 0)
        && Holds(file, pos + k, rest)
        && (pos + k) % BLOCK_SIZE == (HeaderAt(o) + HEADER_SIZE + |payload|) % BLOCK_SIZE
      else ReadPhysical(crc, file, pos) == Step(Eof, |file|, 0)
  {
    hide Physical, Holds;
    var z, h := Zeros(Trailer(o)), Physical(crc, t, payload);
    OffsetOf(pos, o);
    assert z + h + rest == z + (h + rest);
    if pos + |z| <= |file| {
      HoldsSlice(file, pos, z, h + rest);
      if |z| > 0 {
        assert FullBlock(file, pos) && BlockEnd(file, pos) == pos + |z|;
      } else {
        assert pos + |z| == pos;
      }
      if pos + |z| + HEADER_SIZE + |payload| <= |file| {
        PhysicalWhole(crc, file, pos + |z|, t, payload, rest);
        ModAdd(pos + |z|, HeaderAt(o), HEADER_SIZE + |payload|);
      } else {
        PhysicalTorn(crc, file, pos + |z|, t, payload, rest);
      }
    }
  }

  lemma OffsetOf(pos: nat, o: nat)
    requires o <= BLOCK_SIZE && pos % BLOCK_SIZE == o % BLOCK_SIZE
    ensures (pos + Trailer(o)) % BLOCK_SIZE == HeaderAt(o)
    ensures Trailer(o) > 0 ==> BlockStart(pos) + BLOCK_SIZE == pos + Trailer(o)
  {
  }

  lemma ModAdd(a: nat, b: nat, n: nat)
    requires a % BLOCK_SIZE == b % BLOCK_SIZE
    ensures (a + n) % BLOCK_SIZE == (b + n) % BLOCK_SIZE
  {
  }

  /** What one fragment that was read means for the record. */
  lemma LastFragment(crc: Checksum, file: seq<Byte>, pos: nat, begin: bool, scratch: seq<Byte>, payload: seq<Byte>, pos': nat)
    requires pos <= |file| && (begin ==> scratch == [])
    requires ReadPhysical(crc, file, pos) == Step(Fragment(FragmentType(begin, true), payload), pos', 0)
    ensures ReadLogical(crc, file, pos, !begin, scratch) == Step(Some(scratch + payload), pos', 0)
  {
    hide ReadPhysical;
    assert begin ==> scratch + payload == payload;
  }

  lemma EarlierFragment(crc: Checksum, file: seq<Byte>, pos: nat, begin: bool, scratch: seq<Byte>, payload: seq<Byte>, pos': nat)
    requires pos <= |file| && pos' <= |file| && (begin ==> scratch == [])
    requires ReadPhysical(crc, file, pos) == Step(Fragment(FragmentType(begin, false), payload), pos', 0)
    ensures ReadLogical(crc, file, pos, !begin, scratch) == ReadLogical(crc, file, pos', true, scratch + payload)
  {
    hide ReadPhysical;
    assert begin ==> scratch + payload == payload;
  }

  lemma NoFragment(crc: Checksum, file: seq<Byte>, pos: nat, inFragmented: bool, scratch: seq<Byte>)
    requires pos <= |file| && ReadPhysical(crc, file, pos) == Step(Eof, |file|, 0)
    ensures ReadLogical(crc, file, pos, inFragmented, scratch) == Step(None, |file|, 0)
  {
    hide ReadPhysical;
  }

  /** A logical record: its fragments are put together, or the torn one is dropped in silence. */
  lemma {:induction false} LogicalRead(crc: Checksum, file: seq<Byte>, pos: nat, left: Record, o: nat, begin: bool, scratch: seq<Byte>, tail: seq<Byte>)
    requires Is32Bit(crc)
    requires o <= BLOCK_SIZE && pos % BLOCK_SIZE == o % BLOCK_SIZE
    requires Holds(file, pos, Encode(crc, left, o, begin) + tail)
    requires begin ==> scratch == []
    ensures var k := |Encode(crc, left, o, begin)|;
      if pos + k <= |file| then
        && ReadLogical(crc, file, pos, !begin, scratch) == Step(Some(scratch + left), pos + k, 0)
        && Holds(file, pos + k, tail)
        && (pos + k) % BLOCK_SIZE == OffsetAfter(left, o) % BLOCK_SIZE
      else ReadLogical(crc, file, pos, !begin, scratch) == Step(None, |file|, 0)
    decreases |left|, if NoRoom(o) then 1 else 0
  {
    hide Encode, OffsetAfter, ReadPhysical, ReadLogical, Holds, Physical;
    var n := FragmentLength(|left|, o);
    var end := n == |left|;
    var t := FragmentType(begin, end);
    var o' := HeaderAt(o) + HEADER_SIZE + n;
    var rest := if end then [] else Encode(crc, left[n..], o', false);
    EncodeStep(crc, left, o, begin);
    HoldsStarts(file, pos, Encode(crc, left, o, begin) + tail);
    var z, h := Zeros(Trailer(o)), Physical(crc, t, left[..n]);
    assert z + h + rest + tail == z + h + (rest + tail);
    FragmentRead(crc, file, pos, o, t, left[..n], rest + tail);
    var pos' := pos + |z| + |h|;
    if pos' > |file| {
      NoFragment(crc, file, pos, !begin, scratch);
    } else if end {
      assert rest + tail == tail && left[..n] == left;
      LastFragment(crc, file, pos, begin, scratch, left, pos');
    } else {
      LogicalRead(crc, file, pos', left[n..], o', false, scratch + left[..n], tail);
      EarlierFragment(crc, file, pos, begin, scratch, left[..n], pos');
      assert (scratch + left[..n]) + left[n..] == scratch + left;
    }
  }

  /** How many of the records lie wholly in the first `m` bytes. */
  function Complete(crc: Checksum, rs: seq<Record>, o: nat, m: nat): nat
    requires o <= BLOCK_SIZE
  {
    if rs == [] then 0
    else
      var k := |Encode(crc, rs[0], o, true)|;
      if k <= m then 1 + Complete(crc, rs[1..], OffsetAfter(rs[0], o), m - k) else 0
  }

  lemma AtEnd(crc: Checksum, file: seq<Byte>)
    ensures ReadLogical(crc, file, |file|, false, []) == Step(None, |file|, 0)
  {
    assert ReadPhysical(crc, file, |file|) == Step(Eof, |file|, 0);
  }

  lemma {:induction false} AllRead(crc: Checksum, file: seq<Byte>, pos: nat, rs: seq<Record>, o: nat)
    requires Is32Bit(crc)
    requires o <= BLOCK_SIZE && pos % BLOCK_SIZE == o % BLOCK_SIZE
    requires Holds(file, pos, EncodeAll(crc, rs, o))
    ensures Complete(crc, rs, o, |file| - pos) <= |rs|
    ensures ReadAll(crc, file, pos) == (rs[..Complete(crc, rs, o, |file| - pos)], 0)
    decreases |rs|
  {
    hide Encode, OffsetAfter, ReadLogical;
    if rs == [] {
      assert pos == |file|;
      AtEnd(crc, file);
      assert rs[..0] == [];
    } else {
      var k, o' := |Encode(crc, rs[0], o, true)|, OffsetAfter(rs[0], o);
      LogicalRead(crc, file, pos, rs[0], o, true, [], EncodeAll(crc, rs[1..], o'));
      assert [] + rs[0] == rs[0];
      if pos + k <= |file| {
        AllRead(crc, file, pos + k, rs[1..], o');
        var c := Complete(crc, rs[1..], o', |file| - pos - k);
        assert rs[..1 + c] == [rs[0]] + rs[1..][..c];
      } else {
        assert rs[..0] == [];
      }
    }
  }

  /** Reading any byte prefix of a log gives exactly the records that are complete in it, and
      reports no corruption. */
  lemma TornTail(crc: Checksum, rs: seq<Record>, n: nat)
    requires Is32Bit(crc)
    requires n <= |EncodeAll(crc, rs, 0)|
    ensures Complete(crc, rs, 0, n) <= |rs|
    ensures ReadAll(crc, EncodeAll(crc, rs, 0)[..n], 0) == (rs[..Complete(crc, rs, 0, n)], 0)
  {
    var full := EncodeAll(crc, rs, 0);
    var file := full[..n];
    assert file[0..] == file;
    AllRead(crc, file, 0, rs, 0);
  }

  lemma {:induction false} CompleteAll(crc: Checksum, rs: seq<Record>, o: nat)
    requires o <= BLOCK_SIZE
    ensures Complete(crc, rs, o, |EncodeAll(crc, rs, o)|) == |rs|
  {
    if rs != [] {
      CompleteAll(crc, rs[1..], OffsetAfter(rs[0], o));
    }
  }

  /** Reading a whole log gives back every record. */
  lemma RoundTrip(crc: Checksum, rs: seq<Record>)
    requires Is32Bit(crc)
    ensures ReadAll(crc, EncodeAll(crc, rs, 0), 0) == (rs, 0)
  {
    var full := EncodeAll(crc, rs, 0);
    assert full[..|full|] == full;
    TornTail(crc, rs, |full|);
    CompleteAll(crc, rs, 0);
    assert rs[..|rs|] == rs;
  }
}
