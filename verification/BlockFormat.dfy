/** Table blocks: prefix-compressed entries, restart points, restart array (block_builder.cc). */
module BlockFormat {
  import opened Coding

  datatype Pair = Pair(key: seq<Byte>, value: seq<Byte>)

  function CommonPrefix(a: seq<Byte>, b: seq<Byte>): (n: nat)
    ensures n <= |a| && n <= |b|
    ensures a[..n] == b[..n]
  {
    if a == [] || b == [] || a[0] != b[0] then 0 else 1 + CommonPrefix(a[1..], b[1..])
  }

  /** How many bytes entry `i` takes over from the key before it; none at a restart point. */
  function Shared(kvs: seq<Pair>, rs: seq<nat>, i: nat): (n: nat)
    requires i < |kvs|
    ensures n <= |kvs[i].key|
  {
    if i == 0 || i in rs then 0 else CommonPrefix(kvs[i - 1].key, kvs[i].key)
  }

  function EntryHead(kvs: seq<Pair>, rs: seq<nat>, i: nat): seq<Byte>
    requires i < |kvs|
  {
    var n := Shared(kvs, rs, i);
    Varint(n) + Varint(|kvs[i].key| - n) + Varint(|kvs[i].value|)
  }

  function EntryBytes(kvs: seq<Pair>, rs: seq<nat>, i: nat): seq<Byte>
    requires i < |kvs|
  {
    EntryHead(kvs, rs, i) + (kvs[i].key[Shared(kvs, rs, i)..] + kvs[i].value)
  }

  /** The first `n` entries. */
  function Data(kvs: seq<Pair>, rs: seq<nat>, n: nat): seq<Byte>
    requires n <= |kvs|
  {
    if n == 0 then [] else Data(kvs, rs, n - 1) + EntryBytes(kvs, rs, n - 1)
  }

  function Offset(kvs: seq<Pair>, rs: seq<nat>, i: nat): nat
    requires i <= |kvs|
  {
    |Data(kvs, rs, i)|
  }

  function Fixed32s(xs: seq<nat>): (r: seq<Byte>)
    ensures |r| == 4 * |xs|
  {
    if xs == [] then [] else Fixed32s(xs[..|xs| - 1]) + Fixed(xs[|xs| - 1], 4)
  }

  lemma Fixed32sNone()
    ensures Fixed32s([]) == []
  {
  }

  lemma Fixed32sStep(xs: seq<nat>, i: nat)
    requires i < |xs|
    ensures Fixed32s(xs[..i + 1]) == Fixed32s(xs[..i]) + Fixed(xs[i], 4)
  {
    assert xs[..i + 1][..i] == xs[..i];
  }

  lemma {:induction false} Fixed32At(xs: seq<nat>, i: nat)
    requires i < |xs|
    ensures Fixed32s(xs)[4 * i..4 * i + 4] == Fixed(xs[i], 4)
  {
    hide Fixed;
    var n := |xs| - 1;
    ConcatSlices(Fixed32s(xs[..n]), Fixed(xs[n], 4));
    if i < n {
      Fixed32At(xs[..n], i);
    }
  }

  lemma ConcatSlices(a: seq<Byte>, b: seq<Byte>)
    ensures (a + b)[|a|..|a| + |b|] == b
    ensures forall i, j :: 0 <= i <= j <= |a| ==> (a + b)[i..j] == a[i..j]
  {
  }

  /** The restart points are entry indices, in order, from 0. */
  ghost predicate GoodRestarts(kvs: seq<Pair>, rs: seq<nat>) {
    && rs != [] && rs[0] == 0
    && (forall j, k :: 0 <= j < k < |rs| ==> rs[j] < rs[k])
    && forall j :: 0 <= j < |rs| ==> rs[j] <= |kvs| && (rs[j] == |kvs| ==> j == 0)
  }

  function RestartOffsets(kvs: seq<Pair>, rs: seq<nat>): (r: seq<nat>)
    requires forall j :: 0 <= j < |rs| ==> rs[j] <= |kvs|
    ensures |r| == |rs|
  {
    seq(|rs|, j requires 0 <= j < |rs| => Offset(kvs, rs, rs[j]))
  }

  function BlockBytes(kvs: seq<Pair>, rs: seq<nat>): seq<Byte>
    requires forall j :: 0 <= j < |rs| ==> rs[j] <= |kvs|
  {
    Data(kvs, rs, |kvs|) + Fixed32s(RestartOffsets(kvs, rs)) + Fixed(|rs|, 4)
  }

  lemma {:induction false} DataSame(a: seq<Pair>, ra: seq<nat>, b: seq<Pair>, rb: seq<nat>, n: nat)
    requires n <= |a| && n <= |b| && a[..n] == b[..n]
    requires forall i :: 0 <= i < n ==> (i in ra <==> i in rb)
    ensures Data(a, ra, n) == Data(b, rb, n)
  {
    if n > 0 {
      assert a[..n - 1] == a[..n][..n - 1] && b[..n - 1] == b[..n][..n - 1];
      assert a[n - 1] == a[..n][n - 1] && b[n - 1] == b[..n][n - 1];
      assert n > 1 ==> a[n - 2] == a[..n][n - 2] && b[n - 2] == b[..n][n - 2];
      DataSame(a, ra, b, rb, n - 1);
    }
  }

  class BlockBuilder {
    const restartInterval: nat
    var buffer: seq<Byte>
    var restarts: seq<nat>
    var counter: nat
    var finished: bool
    var lastKey: seq<Byte>

    /** The entries added so far, and which of them are restart points. */
    ghost var kvs: seq<Pair>
    ghost var rs: seq<nat>

    ghost predicate Valid()
      reads this
    {
      && restartInterval >= 1
      && GoodRestarts(kvs, rs)
      && restarts == RestartOffsets(kvs, rs)
      && buffer == Data(kvs, rs, |kvs|) + (if finished then Fixed32s(restarts) + Fixed(|rs|, 4) else [])
      && (if kvs == [] then lastKey == [] else lastKey == kvs[|kvs| - 1].key)
      && counter == |kvs| - rs[|rs| - 1] <= restartInterval
      && forall j :: 0 < j < |rs| ==> rs[j] == rs[j - 1] + restartInterval
    }

    constructor (restartInterval: nat)
      requires restartInterval >= 1
      ensures Valid() && kvs == [] && !finished && this.restartInterval == restartInterval
    {
      this.restartInterval := restartInterval;
      buffer, restarts, counter, finished, lastKey := [], [0], 0, false, [];
      kvs, rs := [], [0];
    }

    function CurrentSizeEstimate(): nat
      reads this
    {
      |buffer| + 4 * |restarts| + 4
    }

    method Reset()
      requires Valid()
      modifies this
      ensures Valid() && kvs == [] && !finished
    {
      buffer, restarts, counter, finished, lastKey := [], [0], 0, false, [];
      kvs, rs := [], [0];
    }

    /** The length of the prefix the key shares with the last one. */
    method SharedWithLast(key: seq<Byte>) returns (shared: nat)
      ensures shared == CommonPrefix(lastKey, key)
    {
      var minLength := if |lastKey| < |key| then |lastKey| else |key|;
      shared := 0;
      while shared < minLength && lastKey[shared] == key[shared]
        invariant shared <= minLength
        invariant CommonPrefix(lastKey, key) == shared + CommonPrefix(lastKey[shared..], key[shared..])
      {
        assert lastKey[shared..][1..] == lastKey[shared + 1..] && key[shared..][1..] == key[shared + 1..];
        shared := shared + 1;
      }
    }

    method AppendRestarts()
      modifies `buffer
      ensures buffer == old(buffer) + Fixed32s(restarts)
    {
      hide Fixed, Fixed32s;
      Fixed32sNone();
      for i := 0 to |restarts|
        invariant buffer == old(buffer) + Fixed32s(restarts[..i])
      {
        Fixed32sStep(restarts, i);
        Associate(old(buffer), Fixed32s(restarts[..i]), Fixed(restarts[i], 4));
        buffer := buffer + Fixed(restarts[i], 4);
      }
      assert restarts[..|restarts|] == restarts;
    }

    /** Append the restart array and its length. */
    method Finish() returns (block: seq<Byte>)
      requires Valid() && !finished
      modifies this
      ensures Valid() && finished && kvs == old(kvs) && rs == old(rs)
      ensures GoodRestarts(kvs, rs) && block == BlockBytes(kvs, rs) && buffer == block && |block| == old(CurrentSizeEstimate())
    {
      hide Data, Fixed32s, RestartOffsets, Fixed;
      ghost var data := buffer;
      AppendRestarts();
      Associate(data, Fixed32s(restarts), Fixed(|restarts|, 4));
      buffer := buffer + Fixed(|restarts|, 4);
      finished := true;
      block := buffer;
    }

    /** The entry `kv` is about to be appended, `shared` bytes of its key left out. */
    ghost predicate Pending(kv: Pair, shared: nat)
      reads this
    {
      && GoodRestarts(kvs + [kv], rs)
      && (forall j :: 0 <= j < |rs| ==> rs[j] <= |kvs|)
      && restarts == RestartOffsets(kvs, rs)
      && buffer == Data(kvs, rs, |kvs|)
      && !finished
      && counter == |kvs| - rs[|rs| - 1] < restartInterval
      && (forall j :: 0 < j < |rs| ==> rs[j] == rs[j - 1] + restartInterval)
      && shared == Shared(kvs + [kv], rs, |kvs|)
      && shared <= |lastKey| && lastKey[..shared] == kv.key[..shared]
    }

    /** Share a prefix with the last key, or start a new restart point. */
    method BeginEntry(key: seq<Byte>, ghost value: seq<Byte>) returns (shared: nat)
      requires Valid() && !finished
      modifies `restarts, `rs, `counter
      ensures shared <= |lastKey| && shared <= |key|
      ensures Pending(Pair(key, value), shared)
    {
      hide Data, CommonPrefix, RestartOffsets, GoodRestarts, Fixed32s, Fixed;
      AtRestart(kvs, rs);
      if counter < restartInterval {
        shared := SharedWithLast(key);
        KeepRestarts(kvs, rs, Pair(key, value));
      } else {
        shared := 0;
        BeginRestart(key, value);
      }
    }

    /** A new restart point, where keys are whole. */
    method BeginRestart(key: seq<Byte>, ghost value: seq<Byte>)
      requires Valid() && !finished && counter == restartInterval
      modifies `restarts, `rs, `counter
      ensures Pending(Pair(key, value), 0)
    {
      hide Data, CommonPrefix, RestartOffsets, GoodRestarts, Fixed32s, Fixed;
      AtRestart(kvs, rs);
      NewRestart(kvs, rs, Pair(key, value));
      restarts := restarts + [|buffer|];
      rs := rs + [|kvs|];
      counter := 0;
    }

    method Add(key: seq<Byte>, value: seq<Byte>)
      requires Valid() && !finished
      requires |key| < TWO_32 && |value| < TWO_32
      modifies this
      ensures Valid() && !finished
      ensures kvs == old(kvs) + [Pair(key, value)]
    {
      hide Data, Shared, RestartOffsets, CommonPrefix, Fixed32s, Fixed;
      var shared := BeginEntry(key, value);
      AppendEntry(key, value, shared);
      counter := counter + 1;
    }

    /** The lengths, the rest of the key, the value. */
    method AppendEntry(key: seq<Byte>, value: seq<Byte>, shared: nat)
      requires Pending(Pair(key, value), shared)
      requires shared <= |key| < TWO_32 && |value| < TWO_32
      modifies `buffer, `lastKey, `kvs
      ensures kvs == old(kvs) + [Pair(key, value)] && lastKey == key
      ensures forall j :: 0 <= j < |rs| ==> rs[j] <= |kvs|
      ensures restarts == RestartOffsets(kvs, rs) && buffer == Data(kvs, rs, |kvs|) + []
    {
      hide Data, EntryHead, EntryBytes, Shared, Varint, GoodRestarts, RestartOffsets, CommonPrefix;
      var nonShared := |key| - shared;
      NewEntry(kvs, rs, Pair(key, value));
      ghost var kvs' := kvs + [Pair(key, value)];
      var head := PutVarint32(buffer, shared);
      head := PutVarint32(head, nonShared);
      head := PutVarint32(head, |value|);
      HeadIs(kvs', rs, |kvs|, buffer, head);
      kvs := kvs';
      buffer := head + key[shared..] + value;
      assert key[..shared] + key[shared..] == key;
      lastKey := lastKey[..shared] + key[shared..];
    }
  }

  lemma Associate(a: seq<Byte>, b: seq<Byte>, c: seq<Byte>)
    ensures a + b + c == a + (b + c)
    ensures a + [] == a
  {
  }

  lemma HeadIs(kvs: seq<Pair>, rs: seq<nat>, i: nat, buffer: seq<Byte>, head: seq<Byte>)
    requires i < |kvs|
    requires head == buffer + Varint(Shared(kvs, rs, i)) + Varint(|kvs[i].key| - Shared(kvs, rs, i)) + Varint(|kvs[i].value|)
    ensures head + kvs[i].key[Shared(kvs, rs, i)..] + kvs[i].value == buffer + EntryBytes(kvs, rs, i)
  {
    hide Varint, Shared;
    assert head == buffer + EntryHead(kvs, rs, i);
  }

  /** The next entry is no restart point yet, unless it is the first. */
  lemma AtRestart(kvs: seq<Pair>, rs: seq<nat>)
    requires GoodRestarts(kvs, rs)
    ensures |kvs| > 0 ==> |kvs| !in rs
    ensures rs != [] && (|kvs| == 0 ==> rs == [0])
    ensures forall j :: 0 <= j < |rs| ==> rs[j] <= |kvs|
  {
    assert |rs| > 1 ==> rs[0] < rs[1];
  }

  lemma KeepRestarts(kvs: seq<Pair>, rs: seq<nat>, kv: Pair)
    requires GoodRestarts(kvs, rs)
    ensures GoodRestarts(kvs + [kv], rs)
  {
  }

  lemma NewRestart(kvs: seq<Pair>, rs: seq<nat>, kv: Pair)
    requires GoodRestarts(kvs, rs) && kvs != []
    ensures Data(kvs, rs + [|kvs|], |kvs|) == Data(kvs, rs, |kvs|)
    ensures forall j :: 0 <= j < |rs + [|kvs|]| ==> (rs + [|kvs|])[j] <= |kvs|
    ensures RestartOffsets(kvs, rs + [|kvs|]) == RestartOffsets(kvs, rs) + [Offset(kvs, rs, |kvs|)]
    ensures GoodRestarts(kvs + [kv], rs + [|kvs|])
  {
    hide Data;
    forall n | 0 <= n <= |kvs|
      ensures Data(kvs, rs + [|kvs|], n) == Data(kvs, rs, n)
    {
      DataSame(kvs, rs, kvs, rs + [|kvs|], n);
    }
  }

  lemma NewEntry(kvs: seq<Pair>, rs: seq<nat>, kv: Pair)
    requires forall j :: 0 <= j < |rs| ==> rs[j] <= |kvs|
    ensures var kvs' := kvs + [kv];
      && Data(kvs', rs, |kvs'|) == Data(kvs, rs, |kvs|) + EntryBytes(kvs', rs, |kvs|)
      && RestartOffsets(kvs', rs) == RestartOffsets(kvs, rs)
  {
    var kvs' := kvs + [kv];
    hide EntryBytes;
    forall n | 0 <= n <= |kvs|
      ensures Data(kvs', rs, n) == Data(kvs, rs, n)
    {
      assert kvs'[..n] == kvs[..n];
      DataSame(kvs', rs, kvs, rs, n);
    }
    assert Data(kvs', rs, |kvs'|) == Data(kvs', rs, |kvs|) + EntryBytes(kvs', rs, |kvs|);
    forall j | 0 <= j < |rs|
      ensures RestartOffsets(kvs', rs)[j] == RestartOffsets(kvs, rs)[j]
    {
    }
  }
}
