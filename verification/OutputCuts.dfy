/** Where a compaction ends an output early: before it meets too many bytes two levels down
    (ShouldStopBefore in version_set.cc). */
module OutputCuts {
  import opened Keys
  import opened Entries
  import opened Versions
  import opened Selection

  /** How many files at the front end before `key`. */
  function EndedBefore(files: seq<FileMeta>, key: InternalKey): (n: nat)
    ensures n <= |files|
    ensures forall i :: 0 <= i < n ==> Less(files[i].largest, key)
    ensures n < |files| ==> !Less(files[n].largest, key)
  {
    if files == [] || !Less(files[0].largest, key) then 0
    else
      var n := EndedBefore(files[1..], key);
      assert forall i :: 1 <= i < n + 1 ==> files[i] == files[1..][i - 1];
      n + 1
  }

  function BytesIn(files: seq<FileMeta>, from: nat, to: nat): nat
    requires from <= to <= |files|
  {
    TotalFileSize(files[from..to])
  }

  /** For each of the first `n` entries whether to stop before it, and the file the count goes on from:
      stop when the files that ended since the last stop, or since the first entry, have too many bytes. */
  function Marks(files: seq<FileMeta>, limit: nat, input: seq<Entry>, n: nat): (r: (seq<bool>, nat))
    requires n <= |input|
    ensures |r.0| == n && (n == 0 ==> r.1 == 0) && r.1 <= |files|
  {
    if n == 0 then ([], 0)
    else
      var p := Marks(files, limit, input, n - 1);
      var at := EndedBefore(files, input[n - 1].key);
      var from := if n == 1 then at else p.1;
      var stop := from <= at && BytesIn(files, from, at) > limit;
      (p.0 + [stop], if stop then at else from)
  }

  lemma MarksPrefix(files: seq<FileMeta>, limit: nat, input: seq<Entry>, n: nat)
    requires 0 < n <= |input|
    ensures Marks(files, limit, input, n).0[..n - 1] == Marks(files, limit, input, n - 1).0
  {
    hide BytesIn, EndedBefore;
  }

  lemma {:induction false} MarkStays(files: seq<FileMeta>, limit: nat, input: seq<Entry>, i: nat, n: nat)
    requires i < n <= |input|
    ensures Marks(files, limit, input, n).0[i] == Marks(files, limit, input, i + 1).0[i]
  {
    hide Marks;
    if i + 1 < n {
      MarkStays(files, limit, input, i, n - 1);
      MarksPrefix(files, limit, input, n);
      assert Marks(files, limit, input, n).0[..n - 1][i] == Marks(files, limit, input, n).0[i];
    }
  }

  lemma {:induction false} EndedGrows(files: seq<FileMeta>, a: InternalKey, b: InternalKey)
    requires a == b || Less(a, b)
    ensures EndedBefore(files, a) <= EndedBefore(files, b)
  {
    if files != [] && Less(files[0].largest, a) {
      EndedGrows(files[1..], a, b);
    }
  }

  /** The count never starts behind the file that is current. */
  lemma {:induction false} FromBehind(files: seq<FileMeta>, limit: nat, input: seq<Entry>, n: nat)
    requires Sorted(input) && 0 < n <= |input|
    ensures Marks(files, limit, input, n).1 <= EndedBefore(files, input[n - 1].key)
  {
    if n > 1 {
      FromBehind(files, limit, input, n - 1);
      EndedGrows(files, input[n - 2].key, input[n - 1].key);
    }
  }

  lemma {:induction false} BytesInMore(files: seq<FileMeta>, from: nat, to: nat)
    requires from <= to < |files|
    ensures BytesIn(files, from, to + 1) == BytesIn(files, from, to) + files[to].size
  {
    assert files[from..to + 1] == files[from..to] + [files[to]];
    TotalAppend(files[from..to], files[to]);
  }

  /** Between two stops at most `limit` bytes end: an output meets few files two levels down. */
  lemma StopsInTime(files: seq<FileMeta>, limit: nat, input: seq<Entry>, n: nat)
    requires Sorted(input) && n < |input|
    ensures var from, at := Marks(files, limit, input, n + 1).1, EndedBefore(files, input[n].key);
      && from <= at && BytesIn(files, from, at) <= limit
      && (Marks(files, limit, input, n + 1).0[n] ==> from == at)
  {
    FromBehind(files, limit, input, n + 1);
    var at := EndedBefore(files, input[n].key);
    assert files[at..at] == [];
  }

  lemma Earlier(input: seq<Entry>, n: nat)
    requires Sorted(input) && 0 < n < |input|
    ensures Less(input[n - 1].key, input[n].key)
  {
  }

  lemma NoBytes(files: seq<FileMeta>, at: nat)
    requires at <= |files|
    ensures BytesIn(files, at, at) == 0
  {
    assert files[at..at] == [];
  }

  lemma MarksMore(files: seq<FileMeta>, limit: nat, input: seq<Entry>, n: nat)
    requires Sorted(input) && n < |input|
    ensures var p, q := Marks(files, limit, input, n), Marks(files, limit, input, n + 1);
      var at := EndedBefore(files, input[n].key);
      var from := if n == 0 then at else p.1;
      && from <= at
      && q.0[n] == (BytesIn(files, from, at) > limit)
      && q.1 == if q.0[n] then at else from
  {
    if n > 0 {
      FromBehind(files, limit, input, n);
      EndedGrows(files, input[n - 1].key, input[n].key);
    }
  }

  /** grandparents_, grandparent_index_, seen_key_ and overlapped_bytes_ of a Compaction. */
  class StopProbe {
    const grandparents: seq<FileMeta>
    const limit: nat
    var index: nat
    var seenKey: bool
    var overlappedBytes: nat

    /** The keys of the first `n` entries have been asked about. */
    ghost predicate Asked(input: seq<Entry>, n: nat)
      reads this
    {
      && n <= |input|
      && seenKey == (n > 0)
      && index == (if n == 0 then 0 else EndedBefore(grandparents, input[n - 1].key))
      && var from := Marks(grandparents, limit, input, n).1;
        from <= index && overlappedBytes == BytesIn(grandparents, from, index)
    }

    constructor (grandparents: seq<FileMeta>, limit: nat)
      ensures this.grandparents == grandparents && this.limit == limit
      ensures forall input :: Asked(input, 0)
    {
      this.grandparents, this.limit := grandparents, limit;
      index, seenKey, overlappedBytes := 0, false, 0;
      new;
      assert grandparents[0..0] == [];
    }

    method ShouldStopBefore(key: InternalKey, ghost input: seq<Entry>, ghost n: nat) returns (stop: bool)
      requires Sorted(input) && n < |input| && Asked(input, n) && key == input[n].key
      modifies this
      ensures Asked(input, n + 1) && stop == Marks(grandparents, limit, input, n + 1).0[n]
    {
      ghost var at := EndedBefore(grandparents, key);
      hide Less, Sorted, BytesIn, Marks, EndedBefore;
      if n > 0 {
        Earlier(input, n);
        EndedGrows(grandparents, input[n - 1].key, key);
      }
      ghost var from := if n == 0 then at else Marks(grandparents, limit, input, n).1;
      MarksMore(grandparents, limit, input, n);
      NoBytes(grandparents, at);
      NoBytes(grandparents, 0);
      while index < |grandparents| && Less(grandparents[index].largest, key)
        invariant seenKey == (n > 0) && index <= at && (n > 0 ==> from <= index)
        invariant overlappedBytes == if n > 0 then BytesIn(grandparents, from, index) else 0
        decreases |grandparents| - index
      {
        if seenKey {
          BytesInMore(grandparents, from, index);
          overlappedBytes := overlappedBytes + grandparents[index].size;
        }
        index := index + 1;
      }
      seenKey := true;
      stop := overlappedBytes > limit;
      if stop {
        overlappedBytes := 0;
      }
    }
  }
}
