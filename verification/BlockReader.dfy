/** Iterating and searching a block (block.cc). */
module BlockReader {
  import opened Coding
  import opened BlockFormat
  import opened Options

  type KeyOrder = (seq<Byte>, seq<Byte>) -> bool

  ghost predicate IsOrder(less: KeyOrder) {
    && (forall a :: !less(a, a))
    && (forall a, b, c :: less(a, b) && less(b, c) ==> less(a, c))
    && forall a, b :: less(a, b) || less(b, a) || a == b
  }

  ghost predicate Increasing(less: KeyOrder, kvs: seq<Pair>) {
    forall i, j :: 0 <= i < j < |kvs| ==> less(kvs[i].key, kvs[j].key)
  }

  /** The three lengths in front of an entry, and where its key delta starts. */
  datatype Head = NoHead | Head(shared: nat, nonShared: nat, valueLength: nat, start: nat)

  /** What DecodeEntry finds at `p`, reading no further than `limit`. */
  function HeadAt(data: seq<Byte>, p: nat, limit: nat): (h: Head)
    requires limit <= |data|
    ensures h.Head? ==> p < h.start && h.start + h.nonShared + h.valueLength <= limit
  {
    if p + 3 > limit then NoHead
    else
      var a := GetVarint32(data[p..limit]);
      if a.Failed? then NoHead
      else
        var b := GetVarint32(a.rest);
        if b.Failed? then NoHead
        else
          var c := GetVarint32(b.rest);
          if c.Failed? || |c.rest| < b.value + c.value then NoHead
          else Head(a.value, b.value, c.value, limit - |c.rest|)
  }

  lemma OneByte(p: seq<Byte>)
    requires p != [] && p[0] < 128
    ensures GetVarint32(p) == Parsed(p[0], p[1..])
  {
  }

  /** DecodeEntry, with its fast path for three one-byte lengths. */
  method DecodeEntry(data: seq<Byte>, p: nat, limit: nat) returns (h: Head)
    requires limit <= |data|
    ensures h == HeadAt(data, p, limit)
  {
    if p + 3 > limit {
      return NoHead;
    }
    if data[p] < 128 && data[p + 1] < 128 && data[p + 2] < 128 {
      var d := data[p..limit];
      OneByte(d);
      OneByte(d[1..]);
      OneByte(d[1..][1..]);
      var nonShared: nat, valueLength: nat := data[p + 1], data[p + 2];
      if limit - (p + 3) < nonShared + valueLength {
        return NoHead;
      }
      return Head(data[p], nonShared, valueLength, p + 3);
    }
    var a := ReadVarint32(data[p..limit]);
    if a.Failed? {
      return NoHead;
    }
    var b := ReadVarint32(a.rest);
    if b.Failed? {
      return NoHead;
    }
    var c := ReadVarint32(b.rest);
    if c.Failed? || |c.rest| < b.value + c.value {
      return NoHead;
    }
    return Head(a.value, b.value, c.value, limit - |c.rest|);
  }

  // ----- what the builder's bytes decode to -----

  /** The block was built from `kvs`, sorted, and fits 32-bit offsets. */
  ghost predicate IsBlock(block: seq<Byte>, kvs: seq<Pair>, rs: seq<nat>) {
    GoodRestarts(kvs, rs) && block == BlockBytes(kvs, rs) && |block| < TWO_32
  }

  lemma {:induction false} DataGrows(kvs: seq<Pair>, rs: seq<nat>, i: nat, n: nat)
    requires i <= n <= |kvs|
    ensures Offset(kvs, rs, i) <= Offset(kvs, rs, n)
    ensures i < n ==> Offset(kvs, rs, i) < Offset(kvs, rs, n)
    ensures Data(kvs, rs, n)[..Offset(kvs, rs, i)] == Data(kvs, rs, i)
    decreases n
  {
    if i < n {
      DataGrows(kvs, rs, i, n - 1);
      assert Data(kvs, rs, n)[..Offset(kvs, rs, n - 1)] == Data(kvs, rs, n - 1);
      assert Data(kvs, rs, n)[..Offset(kvs, rs, i)] == Data(kvs, rs, n - 1)[..Offset(kvs, rs, i)];
    }
  }

  /** The bytes from entry `i` on begin with that entry. */
  lemma EntryFirst(kvs: seq<Pair>, rs: seq<nat>, i: nat) returns (tail: seq<Byte>)
    requires i < |kvs|
    ensures Offset(kvs, rs, i + 1) <= |Data(kvs, rs, |kvs|)|
    ensures Data(kvs, rs, |kvs|)[Offset(kvs, rs, i)..] == EntryBytes(kvs, rs, i) + tail
  {
    hide EntryBytes;
    var d, p, q := Data(kvs, rs, |kvs|), Offset(kvs, rs, i), Offset(kvs, rs, i + 1);
    DataGrows(kvs, rs, i + 1, |kvs|);
    tail := d[q..];
    assert d[..q] == Data(kvs, rs, i) + EntryBytes(kvs, rs, i);
    assert d == d[..q] + d[q..];
  }

  lemma HeadOf(kvs: seq<Pair>, rs: seq<nat>, i: nat, d: seq<Byte>, tail: seq<Byte>)
    requires i < |kvs|
    requires |kvs[i].key| < TWO_32 && |kvs[i].value| < TWO_32
    requires d == EntryBytes(kvs, rs, i) + tail
    ensures var n := Shared(kvs, rs, i); var delta := kvs[i].key[n..];
      && GetVarint32(d) == Parsed(n, Varint(|delta|) + (Varint(|kvs[i].value|) + (delta + kvs[i].value + tail)))
      && GetVarint32(Varint(|delta|) + (Varint(|kvs[i].value|) + (delta + kvs[i].value + tail)))
         == Parsed(|delta|, Varint(|kvs[i].value|) + (delta + kvs[i].value + tail))
      && GetVarint32(Varint(|kvs[i].value|) + (delta + kvs[i].value + tail)) == Parsed(|kvs[i].value|, delta + kvs[i].value + tail)
  {
    hide GetVarint32, Varint, Shared;
    var n := Shared(kvs, rs, i);
    var delta := kvs[i].key[n..];
    var c := delta + kvs[i].value + tail;
    var b := Varint(|kvs[i].value|) + c;
    var a := Varint(|delta|) + b;
    Varint32RoundTrip(|kvs[i].value|, c);
    Varint32RoundTrip(|delta|, b);
    Varint32RoundTrip(n, a);
    assert d == Varint(n) + a;
  }

  lemma {:induction false} KeyFits(kvs: seq<Pair>, rs: seq<nat>, i: nat)
    requires i < |kvs|
    ensures |kvs[i].key| <= Offset(kvs, rs, i + 1) && |kvs[i].value| <= Offset(kvs, rs, i + 1)
  {
    hide EntryHead;
    assert Offset(kvs, rs, i + 1) == Offset(kvs, rs, i) + |EntryBytes(kvs, rs, i)|;
    if i > 0 {
      KeyFits(kvs, rs, i - 1);
    }
  }

  /** Where the key delta of entry `i` starts. */
  function DeltaAt(kvs: seq<Pair>, rs: seq<nat>, i: nat): nat
    requires i < |kvs|
  {
    Offset(kvs, rs, i) + |EntryHead(kvs, rs, i)|
  }

  /** The bytes of entry `i` in a built block. */
  lemma EntryIn(block: seq<Byte>, kvs: seq<Pair>, rs: seq<nat>, i: nat) returns (tail: seq<Byte>)
    requires IsBlock(block, kvs, rs) && i < |kvs|
    ensures Offset(kvs, rs, i) < Offset(kvs, rs, i + 1) <= Offset(kvs, rs, |kvs|) <= |block|
    ensures block[Offset(kvs, rs, i)..Offset(kvs, rs, |kvs|)] == EntryBytes(kvs, rs, i) + tail
    ensures |kvs[i].key| < TWO_32 && |kvs[i].value| < TWO_32
  {
    hide EntryBytes, GoodRestarts, Fixed32s;
    var limit := Offset(kvs, rs, |kvs|);
    tail := EntryFirst(kvs, rs, i);
    DataGrows(kvs, rs, i, i + 1);
    DataGrows(kvs, rs, i + 1, |kvs|);
    KeyFits(kvs, rs, i);
    assert block[..limit] == Data(kvs, rs, |kvs|);
    assert block[Offset(kvs, rs, i)..limit] == Data(kvs, rs, |kvs|)[Offset(kvs, rs, i)..];
  }

  /** DecodeEntry at entry `i` of a built block. */
  lemma EntryDecodes(block: seq<Byte>, kvs: seq<Pair>, rs: seq<nat>, i: nat)
    requires IsBlock(block, kvs, rs) && i < |kvs|
    ensures Offset(kvs, rs, i) < Offset(kvs, rs, i + 1) <= Offset(kvs, rs, |kvs|) <= |block|
    ensures HeadAt(block, Offset(kvs, rs, i), Offset(kvs, rs, |kvs|))
      == Head(Shared(kvs, rs, i), |kvs[i].key| - Shared(kvs, rs, i), |kvs[i].value|, DeltaAt(kvs, rs, i))
  {
    hide IsBlock, GetVarint32, Shared;
    var limit, n, p := Offset(kvs, rs, |kvs|), Shared(kvs, rs, i), Offset(kvs, rs, i);
    var tail := EntryIn(block, kvs, rs, i);
    var d := block[p..limit];
    HeadOf(kvs, rs, i, d, tail);
    EntrySizes(kvs, rs, i);
  }

  /** The key delta and the value behind that head. */
  lemma EntryParts(block: seq<Byte>, kvs: seq<Pair>, rs: seq<nat>, i: nat)
    requires IsBlock(block, kvs, rs) && i < |kvs|
    ensures var start := DeltaAt(kvs, rs, i); var mid := start + |kvs[i].key| - Shared(kvs, rs, i);
      && Offset(kvs, rs, i + 1) == mid + |kvs[i].value| <= |block|
      && block[start..mid] == kvs[i].key[Shared(kvs, rs, i)..]
      && block[mid..mid + |kvs[i].value|] == kvs[i].value
  {
    hide IsBlock, EntryHead, Shared;
    var tail := EntryIn(block, kvs, rs, i);
    var p, limit := Offset(kvs, rs, i), Offset(kvs, rs, |kvs|);
    assert Offset(kvs, rs, i + 1) == p + |EntryBytes(kvs, rs, i)|;
    ThreeParts(block, p, limit, EntryHead(kvs, rs, i), kvs[i].key[Shared(kvs, rs, i)..], kvs[i].value, tail);
  }

  lemma ThreeParts(block: seq<Byte>, p: nat, limit: nat, a: seq<Byte>, b: seq<Byte>, c: seq<Byte>, tail: seq<Byte>)
    requires p <= limit <= |block| && block[p..limit] == a + (b + c) + tail
    ensures block[p + |a|..p + |a| + |b|] == b
    ensures block[p + |a| + |b|..p + |a| + |b| + |c|] == c
  {
    var d := block[p..limit];
    SliceOfSlice(block, p, limit, |a|, |a| + |b|);
    SliceOfSlice(block, p, limit, |a| + |b|, |a| + |b| + |c|);
    assert d[|a|..|a| + |b|] == b && d[|a| + |b|..|a| + |b| + |c|] == c;
  }

  lemma EntrySizes(kvs: seq<Pair>, rs: seq<nat>, i: nat)
    requires i < |kvs|
    ensures |EntryBytes(kvs, rs, i)| == |EntryHead(kvs, rs, i)| + (|kvs[i].key| - Shared(kvs, rs, i)) + |kvs[i].value|
    ensures |EntryHead(kvs, rs, i)| >= 3
  {
  }

  function RestartAt(block: seq<Byte>, restarts: nat, i: nat): nat
    requires restarts + 4 * i + 4 <= |block|
  {
    Unfixed(block[restarts + 4 * i..restarts + 4 * i + 4])
  }

  /** The restart array of a built block holds the offsets of the restart entries. */
  lemma RestartDecodes(block: seq<Byte>, kvs: seq<Pair>, rs: seq<nat>, i: nat)
    requires IsBlock(block, kvs, rs) && i < |rs|
    ensures |block| == Offset(kvs, rs, |kvs|) + 4 * |rs| + 4
    ensures RestartAt(block, Offset(kvs, rs, |kvs|), i) == Offset(kvs, rs, rs[i])
  {
    hide Fixed32s, Data;
    var xs, p := RestartOffsets(kvs, rs), Offset(kvs, rs, |kvs|);
    var f := Fixed32s(xs);
    assert block[p..p + |f|] == f;
    SliceOfSlice(block, p, p + |f|, 4 * i, 4 * i + 4);
    Fixed32At(xs, i);
    DataGrows(kvs, rs, rs[i], |kvs|);
    Fixed32RoundTrip(xs[i]);
  }

  lemma CountDecodes(block: seq<Byte>, kvs: seq<Pair>, rs: seq<nat>)
    requires IsBlock(block, kvs, rs)
    ensures |block| == Offset(kvs, rs, |kvs|) + 4 * |rs| + 4
    ensures Unfixed(block[|block| - 4..]) == |rs|
  {
    hide Fixed32s, Data;
    assert block[|block| - 4..] == Fixed(|rs|, 4);
    Fixed32RoundTrip(|rs|);
  }

  /** `r` is where a Seek to `target` lands. */
  ghost predicate LowerBound(less: KeyOrder, kvs: seq<Pair>, target: seq<Byte>, r: Option<nat>) {
    if r.None? then forall i :: 0 <= i < |kvs| ==> less(kvs[i].key, target)
    else
      && r.value < |kvs|
      && !less(kvs[r.value].key, target)
      && forall i :: 0 <= i < r.value ==> less(kvs[i].key, target)
  }

  /** A reader that holds the key before has the bytes an entry leaves out. */
  lemma SharedPrefix(kvs: seq<Pair>, rs: seq<nat>, j: nat, key: seq<Byte>)
    requires j < |kvs| && (j == 0 || j in rs || key == kvs[j - 1].key)
    ensures Shared(kvs, rs, j) <= |key|
    ensures key[..Shared(kvs, rs, j)] + kvs[j].key[Shared(kvs, rs, j)..] == kvs[j].key
  {
    var n := Shared(kvs, rs, j);
    assert key[..n] == kvs[j].key[..n];
    assert kvs[j].key == kvs[j].key[..n] + kvs[j].key[n..];
  }

  function At(n: nat, i: nat): Option<nat> {
    if i < n then Some(i) else None
  }

  function Behind(i: nat): Option<nat> {
    if i > 0 then Some(i - 1) else None
  }

  class BlockIter {
    const less: KeyOrder
    const data: seq<Byte>
    const restarts: nat
    const numRestarts: nat
    var current: nat
    var restartIndex: nat
    var key: seq<Byte>
    var valueOffset: nat
    var valueLength: nat
    var corrupt: bool

    /** What the block was built from, when it was built by a BlockBuilder. */
    ghost const kvs: seq<Pair>
    ghost const rs: seq<nat>
    ghost var pos: Option<nat>

    ghost predicate Built() {
      && IsBlock(data, kvs, rs)
      && restarts == Offset(kvs, rs, |kvs|)
      && numRestarts == |rs|
    }

    ghost predicate Layout() {
      numRestarts > 0 && |data| == restarts + 4 * numRestarts + 4
    }

    /** At entry `i` of a built block. */
    ghost predicate Shows(i: nat)
      reads this
    {
      && i < |kvs|
      && current == Offset(kvs, rs, i)
      && key == kvs[i].key
      && valueLength == |kvs[i].value|
      && valueOffset + valueLength == Offset(kvs, rs, i + 1) <= |data|
      && data[valueOffset..valueOffset + valueLength] == kvs[i].value
    }

    ghost predicate Valid()
      reads this
      ensures Valid() ==> Layout()
    {
      && Layout()
      && current <= restarts
      && (current < restarts ==> restartIndex < numRestarts && current < valueOffset + valueLength <= restarts)
      && (pos.Some? ==> current < restarts)
      && (Built() ==>
        && !corrupt
        && (pos.Some? <==> current < restarts)
        && (pos.Some? ==> Shows(pos.value)))
    }

    /** Block::Block and NewIterator on bytes that have room for their restart array. */
    constructor (less: KeyOrder, block: seq<Byte>, ghost kvs: seq<Pair>, ghost rs: seq<nat>)
      requires |block| >= 4
      requires var n := Unfixed(block[|block| - 4..]); n > 0 && 4 * n + 4 <= |block|
      ensures Valid() && !corrupt && pos == None && this.less == less && data == block && this.kvs == kvs && this.rs == rs
      ensures IsBlock(block, kvs, rs) ==> Built()
    {
      this.less := less;
      data := block;
      var n := Unfixed(block[|block| - 4..]);
      restarts := |block| - 4 * n - 4;
      numRestarts := n;
      current, restartIndex, key, valueOffset, valueLength, corrupt := |block| - 4 * n - 4, n, [], 0, 0, false;
      this.kvs, this.rs := kvs, rs;
      pos := None;
      if IsBlock(block, kvs, rs) {
        CountDecodes(block, kvs, rs);
      }
    }

    /** On a finished block the iterator is never corrupt, and shows the pair it stands at. */
    lemma ShowsPair()
      requires Valid() && Built()
      ensures !corrupt && (pos.Some? <==> current < restarts)
      ensures pos.Some? ==> pos.value < |kvs| && key == kvs[pos.value].key
    {
    }

    function Value(): seq<Byte>
      requires Valid() && current < restarts
      reads this
      ensures Built() ==> Value() == kvs[pos.value].value
    {
      data[valueOffset..valueOffset + valueLength]
    }

    function GetRestartPoint(i: nat): nat
      requires Layout() && i < numRestarts
    {
      RestartAt(data, restarts, i)
    }

    lemma RestartPoint(i: nat)
      requires Layout() && Built() && i < numRestarts
      ensures rs[i] <= |kvs| && GetRestartPoint(i) == Offset(kvs, rs, rs[i])
      ensures kvs != [] ==> rs[i] < |kvs|
    {
      RestartDecodes(data, kvs, rs, i);
      assert |rs| > 1 ==> rs[0] < rs[1];
    }

    /** Where ParseNextKey goes on. */
    function NextEntryOffset(): nat
      reads this
    {
      valueOffset + valueLength
    }

    /** ParseNextKey would find entry `j`. */
    ghost predicate Ready(j: nat)
      reads this
    {
      && j <= |kvs|
      && NextEntryOffset() == Offset(kvs, rs, j)
      && (j < |kvs| ==> j == 0 || j in rs || key == kvs[j - 1].key)
    }

    method CorruptionError()
      requires Layout() && !Built()
      modifies this
      ensures Valid() && pos == None && corrupt && current == restarts
    {
      current, restartIndex, key, corrupt, pos := restarts, numRestarts, [], true, None;
    }

    method SeekToRestartPoint(index: nat)
      requires Layout() && index < numRestarts
      modifies `key, `restartIndex, `valueOffset, `valueLength
      ensures restartIndex == index
      ensures Built() ==> index < |rs| && Ready(rs[index])
    {
      key := [];
      restartIndex := index;
      valueOffset, valueLength := GetRestartPoint(index), 0;
      if Built() {
        RestartPoint(index);
      }
    }

    /** The entry found at `j`, spelled out. */
    lemma ReadyDecodes(j: nat)
      requires Built() && Ready(j) && j < |kvs|
      ensures var h := HeadAt(data, NextEntryOffset(), restarts);
        && NextEntryOffset() < restarts
        && h.Head? && h.shared <= |key|
        && key[..h.shared] + data[h.start..h.start + h.nonShared] == kvs[j].key
        && data[h.start + h.nonShared..h.start + h.nonShared + h.valueLength] == kvs[j].value
        && h.valueLength == |kvs[j].value|
        && h.start + h.nonShared + h.valueLength == Offset(kvs, rs, j + 1)
    {
      hide Data, HeadAt, Shared, IsBlock, DeltaAt;
      EntryDecodes(data, kvs, rs, j);
      EntryParts(data, kvs, rs, j);
      SharedPrefix(kvs, rs, j, key);
    }

    method ParseNextKey(ghost j: nat) returns (ok: bool)
      requires Layout() && restartIndex < numRestarts
      requires Built() ==> !corrupt && Ready(j)
      modifies this
      ensures Valid()
      ensures ok == (current < restarts)
      ensures ok ==> current == old(NextEntryOffset()) < NextEntryOffset() && restartIndex < numRestarts
      ensures Built() ==> pos == At(|kvs|, j) && (ok ==> Ready(j + 1))
    {
      hide Data, HeadAt, GoodRestarts, IsBlock, CommonPrefix;
      current := NextEntryOffset();
      pos := None;
      if current >= restarts {
        current := restarts;
        restartIndex := numRestarts;
        if Built() {
          EndReached(j);
        }
        return false;
      }
      if Built() {
        DataGrows(kvs, rs, j, |kvs|);
        ReadyDecodes(j);
      }
      var h := DecodeEntry(data, current, restarts);
      if h.NoHead? || |key| < h.shared {
        CorruptionError();
        return false;
      }
      key := key[..h.shared] + data[h.start..h.start + h.nonShared];
      valueOffset, valueLength := h.start + h.nonShared, h.valueLength;
      if Built() {
        pos := Some(j);
      }
      AdvanceRestart();
      return true;
    }

    lemma EndReached(j: nat)
      requires Layout() && Built() && Ready(j) && NextEntryOffset() >= restarts
      ensures j == |kvs|
    {
      DataGrows(kvs, rs, j, |kvs|);
    }

    /** Move to the restart region the current entry lies in. */
    method AdvanceRestart()
      requires Layout() && restartIndex < numRestarts
      modifies `restartIndex
      ensures restartIndex < numRestarts
    {
      while restartIndex + 1 < numRestarts && GetRestartPoint(restartIndex + 1) < current
        invariant restartIndex < numRestarts
      {
        restartIndex := restartIndex + 1;
      }
    }

    method SeekToFirst()
      requires Valid() && !corrupt
      modifies this
      ensures Valid() && (Built() ==> pos == At(|kvs|, 0))
    {
      SeekToRestartPoint(0);
      var _ := ParseNextKey(0);
    }

    method Next()
      requires Valid() && current < restarts
      modifies this
      ensures Valid() && (Built() ==> pos == At(|kvs|, old(pos.value) + 1))
      ensures current > old(current)
    {
      var _ := ParseNextKey(if pos.Some? then pos.value + 1 else 0);
    }

    method NoMoreEntries()
      requires Valid()
      modifies `current, `restartIndex, `pos
      ensures Valid() && pos == None && current == restarts
    {
      current := restarts;
      restartIndex := numRestarts;
      pos := None;
    }

    /** Binary search over the restart keys, then linear search from the restart point found. */
    method Seek(target: seq<Byte>)
      requires Valid() && !corrupt
      requires IsOrder(less)
      modifies this
      ensures Valid()
      ensures Built() && Increasing(less, kvs) ==> LowerBound(less, kvs, target, pos)
    {
      hide Data, GoodRestarts, IsBlock, IsOrder, Increasing, HeadAt, LowerBound;
      var left, right := 0, numRestarts - 1;
      while left < right
        invariant 0 <= left <= right < numRestarts
        invariant Valid() && !corrupt
        invariant Built() && left > 0 ==> EntryOf(left) < |kvs| && less(kvs[EntryOf(left)].key, target)
      {
        var mid := (left + right + 1) / 2;
        var h := DecodeEntry(data, GetRestartPoint(mid), restarts);
        if Built() {
          RestartKey(mid);
        }
        if h.NoHead? || h.shared != 0 {
          CorruptionError();
          return;
        }
        if less(data[h.start..h.start + h.nonShared], target) {
          left := mid;
        } else {
          right := mid - 1;
        }
      }
      if Built() && Increasing(less, kvs) {
        BelowRestart(left, target);
      }
      SeekToRestartPoint(left);
      SearchFrom(target, if Built() then rs[left] else 0);
    }

    /** Everything before a restart key below the target is below the target. */
    lemma BelowRestart(left: nat, target: seq<Byte>)
      requires Built() && left < numRestarts && IsOrder(less) && Increasing(less, kvs)
      requires left > 0 ==> EntryOf(left) < |kvs| && less(kvs[EntryOf(left)].key, target)
      ensures forall i: nat :: i < rs[left] && i < |kvs| ==> less(kvs[i].key, target)
    {
    }

    ghost function EntryOf(restart: nat): nat
      requires Built() && restart < numRestarts
    {
      rs[restart]
    }

    lemma RestartKey(mid: nat)
      requires Layout() && Built() && 0 < mid < numRestarts
      ensures var h := HeadAt(data, GetRestartPoint(mid), restarts);
        && EntryOf(mid) < |kvs|
        && h.Head? && h.shared == 0 && data[h.start..h.start + h.nonShared] == kvs[EntryOf(mid)].key
    {
      hide Data, HeadAt;
      RestartPoint(mid);
      EntryDecodes(data, kvs, rs, rs[mid]);
      EntryParts(data, kvs, rs, rs[mid]);
    }

    /** Parse on from entry `j` up to the first key at or after the target. */
    method SearchFrom(target: seq<Byte>, ghost j: nat)
      requires Layout() && restartIndex < numRestarts
      requires IsOrder(less)
      requires Built() ==> !corrupt && Ready(j)
      requires Built() && Increasing(less, kvs) ==> forall i :: 0 <= i < j ==> less(kvs[i].key, target)
      modifies this
      ensures Valid()
      ensures Built() && Increasing(less, kvs) ==> LowerBound(less, kvs, target, pos)
    {
      hide Data, GoodRestarts, IsBlock, IsOrder, Increasing;
      ghost var i: nat := j;
      var searching := true;
      while searching
        invariant Layout()
        invariant searching ==> restartIndex < numRestarts && (Built() ==> !corrupt && Ready(i))
        invariant searching && Built() && Increasing(less, kvs) ==> forall k :: 0 <= k < i && k < |kvs| ==> less(kvs[k].key, target)
        invariant !searching ==> Valid() && (Built() && Increasing(less, kvs) ==> LowerBound(less, kvs, target, pos))
        decreases searching, if NextEntryOffset() < restarts then restarts - NextEntryOffset() else 0
      {
        var ok := ParseNextKey(i);
        if !ok || !less(key, target) {
          searching := false;
        } else {
          i := i + 1;
        }
      }
    }

    /** Walking a built block from the front yields the added pairs, in order. */
    method Scan() returns (out: seq<Pair>)
      requires Valid() && !corrupt
      modifies this
      ensures Built() ==> out == kvs
    {
      hide Data, GoodRestarts, IsBlock;
      out := [];
      SeekToFirst();
      while current < restarts
        invariant Valid()
        invariant Built() ==> |out| <= |kvs| && pos == At(|kvs|, |out|) && out == kvs[..|out|]
        decreases restarts - current
      {
        out := out + [Pair(key, Value())];
        ghost var n := |out|;
        Next();
        assert Built() ==> kvs[..n] == kvs[..n - 1] + [kvs[n - 1]];
      }
    }

    /** Parse on from entry `j` while the next entry starts before `limit`. */
    method ParseUntil(limit: nat, ghost j: nat, ghost last: nat)
      requires Layout() && restartIndex < numRestarts
      requires Built() ==> !corrupt && Ready(j)
      requires Built() ==> j <= last <= |kvs| && limit == Offset(kvs, rs, last) && (j == last ==> last == |kvs|)
      modifies this
      ensures Valid()
      ensures Built() ==> pos == if j == last then None else Some(last - 1)
    {
      hide Data;
      ghost var i: nat := j;
      var ok := ParseNextKey(i);
      while ok && NextEntryOffset() < limit
        invariant Valid() && ok == (current < restarts) && (ok ==> current < NextEntryOffset() && restartIndex < numRestarts)
        invariant Built() ==> j <= i
        invariant Built() && j == last ==> !ok
        invariant Built() && j < last ==> ok && i < last && pos == Some(i) && Ready(i + 1)
        decreases ok, restarts - current
      {
        if Built() {
          NotLast(i, last);
        }
        i := i + 1;
        ok := ParseNextKey(i);
      }
      if Built() && j < last {
        IsLast(i, last);
      }
    }

    lemma NotLast(i: nat, last: nat)
      requires i < last <= |kvs| && Offset(kvs, rs, i + 1) < Offset(kvs, rs, last)
      ensures i + 1 < last
    {
      hide Data;
    }

    lemma IsLast(i: nat, last: nat)
      requires i < last <= |kvs| && Offset(kvs, rs, i + 1) >= Offset(kvs, rs, last)
      ensures i + 1 == last
    {
      hide Data;
      DataGrows(kvs, rs, i + 1, last);
    }

    method SeekToLast()
      requires Valid() && !corrupt
      modifies this
      ensures Valid() && (Built() ==> pos == Behind(|kvs|))
    {
      hide Data, GoodRestarts;
      SeekToRestartPoint(numRestarts - 1);
      if Built() {
        RestartPoint(numRestarts - 1);
      }
      ParseUntil(restarts, if Built() then rs[numRestarts - 1] else 0, |kvs|);
    }

    /** Back up to a restart point before the current entry, then parse up to it. */
    method Prev()
      requires Valid() && current < restarts
      modifies this
      ensures Valid() && (Built() ==> pos == Behind(old(pos.value)))
    {
      hide Data, GoodRestarts, IsBlock;
      var original := current;
      ghost var i := if pos.Some? then pos.value else 0;
      while GetRestartPoint(restartIndex) >= original
        invariant Valid() && restartIndex < numRestarts && current == original < restarts
        invariant pos == old(pos)
        decreases restartIndex
      {
        if restartIndex == 0 {
          if Built() {
            RestartPoint(0);
            OffsetZero(i);
          }
          NoMoreEntries();
          return;
        }
        restartIndex := restartIndex - 1;
      }
      if Built() {
        RestartPoint(restartIndex);
        BeforeEntry(rs[restartIndex], i);
      }
      SeekToRestartPoint(restartIndex);
      ParseUntil(original, if Built() then rs[restartIndex] else 0, i);
    }

    lemma OffsetZero(i: nat)
      requires Built() && i <= |kvs| && Offset(kvs, rs, rs[0]) >= Offset(kvs, rs, i)
      ensures i == 0
    {
      DataGrows(kvs, rs, 0, i);
    }

    lemma BeforeEntry(r: nat, i: nat)
      requires i <= |kvs| && r <= |kvs| && Offset(kvs, rs, r) < Offset(kvs, rs, i)
      ensures r < i
    {
      if r > i {
        DataGrows(kvs, rs, i, r);
      }
    }
  }
}
