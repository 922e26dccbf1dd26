/** Reading the logs of a crashed database back into level-0 tables (Recover and RecoverLogFile in
    db_impl.cc). */
module LogRecovery {
  import opened Keys
  import opened Options
  import opened Entries
  import opened Versions
  import opened Store
  import opened Engine
  import opened EngineReads
  import opened EngineDurable
  import EngineRuns
  import GroupCommit

  // ----- one more table -----

  lemma RecoveredExtend(log: seq<Entry>, segments: seq<Batch>, files: seq<FileMeta>, lo: nat, hi: nat, segment: Batch, f: FileMeta)
    requires RecoveredFiles(log, segments, files, lo, hi) && lo < hi
    requires TableOf(f, segment) && f.number == hi
    ensures RecoveredFiles(log + segment, segments + [segment], files + [f], lo, hi + 1)
  {
    var ss := segments + [segment];
    assert ss[..|ss| - 1] == segments && ss[|ss| - 1] == segment;
  }

  lemma RecoveredLater(log: seq<Entry>, segments: seq<Batch>, files: seq<FileMeta>, lo: nat, hi: nat, hi': nat)
    requires RecoveredFiles(log, segments, files, lo, hi) && hi <= hi'
    ensures RecoveredFiles(log, segments, files, lo, hi')
  {
  }

  lemma {:induction false} FlattenPrefix(bs: seq<Batch>, j: nat)
    requires j < |bs|
    ensures Flatten(bs[..j + 1]) == Flatten(bs[..j]) + bs[j]
  {
    assert bs[..j + 1][..j] == bs[..j];
  }

  lemma {:induction false} FlattenIsPrefix(bs: seq<Batch>, j: nat)
    requires j <= |bs|
    ensures Flatten(bs[..j]) <= Flatten(bs)
    decreases |bs|
  {
    if j == |bs| {
      assert bs[..j] == bs;
    } else {
      var n := |bs| - 1;
      FlattenIsPrefix(bs[..n], j);
      assert bs[..n][..j] == bs[..j];
    }
  }

  lemma {:induction false} ReplayIsPrefix(logs: map<nat, seq<Batch>>, lo: nat, mid: nat, hi: nat)
    requires mid <= hi
    ensures Replay(logs, lo, mid) <= Replay(logs, lo, hi)
    decreases hi
  {
    if mid < hi {
      ReplayIsPrefix(logs, lo, mid, hi - 1);
    }
  }

  lemma IncreasingPart(was: seq<Entry>, i: nat, j: nat)
    requires Increasing(was) && i <= j <= |was|
    ensures Increasing(was[i..j])
  {
  }

  lemma {:induction false} InsertAllLength(mem: seq<Entry>, es: seq<Entry>)
    ensures |InsertAll(mem, es)| == |mem| + |es|
    decreases |es|
  {
    if es != [] {
      InsertAllLength(Insert(mem, es[0]), es[1..]);
    }
  }

  /** The largest sequence number, `max` being the largest in the log or 0. */
  ghost predicate IsMaxSequence(log: seq<Entry>, max: SequenceNumber) {
    forall last: SequenceNumber :: MaxSequence(log, last) == if last < max then max else last
  }

  lemma {:induction false} MaxSequenceOfMore(log: seq<Entry>, es: seq<Entry>, last: SequenceNumber)
    requires Increasing(log + es) && es != []
    ensures MaxSequence(log + es, last)
         == var top := es[|es| - 1].key.sequence; var m := MaxSequence(log, last); if top > m then top else m
  {
    var all := log + es;
    var top := es[|es| - 1].key.sequence;
    var m := MaxSequence(log, last);
    MaxSequenceFacts(log, last);
    forall e | e in all
      ensures e.key.sequence <= top
    {
      var i :| 0 <= i < |all| && all[i] == e;
      assert all[|all| - 1] == es[|es| - 1];
    }
    assert es[|es| - 1] in all && forall e :: e in log ==> e in all;
    MaxSequenceIs(all, last, if top > m then top else m);
  }

  // ----- one log -----

  /** The memtables a log fills, in order, and the one left at its end. */
  function Memtables(batches: seq<Batch>, full: seq<Entry> -> bool): (seq<Batch>, Option<Batch>) {
    if batches == [] then ([], None)
    else
      var p := Memtables(batches[..|batches| - 1], full);
      var t := (if p.1.Some? then p.1.value else []) + batches[|batches| - 1];
      if full(InsertAll([], t)) then (p.0 + [t], None) else (p.0, Some(t))
  }

  function NonEmpty(parts: seq<Batch>): seq<Batch> {
    if parts == [] then []
    else
      var n := |parts| - 1;
      NonEmpty(parts[..n]) + if parts[n] == [] then [] else [parts[n]]
  }

  /** What the tables of a log hold: one for each memtable that is not empty. */
  function LogSegments(batches: seq<Batch>, full: seq<Entry> -> bool): seq<Batch> {
    var m := Memtables(batches, full);
    NonEmpty(m.0) + if m.1.Some? && m.1.value != [] then [m.1.value] else []
  }

  /** After `j` batches of a log: the tables so far, and the memtable. */
  ghost predicate Replaying(batches: seq<Batch>, j: nat, full: seq<Entry> -> bool, was: seq<Batch>, segments: seq<Batch>, pending: Option<Batch>) {
    && j <= |batches|
    && Memtables(batches[..j], full).1 == pending
    && segments == was + NonEmpty(Memtables(batches[..j], full).0)
  }

  lemma ReplayStart(batches: seq<Batch>, full: seq<Entry> -> bool, was: seq<Batch>)
    ensures Replaying(batches, 0, full, was, was, None)
  {
  }

  lemma ReplayStep(batches: seq<Batch>, j: nat, full: seq<Entry> -> bool, was: seq<Batch>, segments: seq<Batch>, pending: Option<Batch>)
    requires j < |batches| && Replaying(batches, j, full, was, segments, pending)
    ensures var t := (if pending.Some? then pending.value else []) + batches[j];
      if full(InsertAll([], t)) then Replaying(batches, j + 1, full, was, segments + (if t == [] then [] else [t]), None)
      else Replaying(batches, j + 1, full, was, segments, Some(t))
  {
    hide InsertAll;
    MemtablesMore(batches, j, full);
    var p := Memtables(batches[..j], full);
    NonEmptyMore(p.0, (if pending.Some? then pending.value else []) + batches[j]);
  }

  lemma ReplayEnd(batches: seq<Batch>, full: seq<Entry> -> bool, was: seq<Batch>, segments: seq<Batch>, pending: Option<Batch>)
    requires Replaying(batches, |batches|, full, was, segments, pending)
    ensures segments + (if pending.Some? && pending.value != [] then [pending.value] else []) == was + LogSegments(batches, full)
  {
    assert batches[..|batches|] == batches;
  }

  lemma NonEmptyMore(parts: seq<Batch>, part: Batch)
    ensures NonEmpty(parts + [part]) == NonEmpty(parts) + if part == [] then [] else [part]
  {
    assert (parts + [part])[..|parts|] == parts;
  }

  lemma MemtablesMore(batches: seq<Batch>, j: nat, full: seq<Entry> -> bool)
    requires j < |batches|
    ensures var p := Memtables(batches[..j], full);
      var t := (if p.1.Some? then p.1.value else []) + batches[j];
      Memtables(batches[..j + 1], full) == if full(InsertAll([], t)) then (p.0 + [t], None) else (p.0, Some(t))
  {
    assert batches[..j + 1][..j] == batches[..j];
  }

  /** The new tables have the sizes of their files. */
  ghost predicate StaySized(files: seq<FileMeta>, files': seq<FileMeta>, sizeOf: seq<Entry> -> nat) {
    forall n: nat :: n <= |files| && Sized(files, n, sizeOf) ==> n <= |files'| && Sized(files', n, sizeOf)
  }

  predicate Sized(files: seq<FileMeta>, from: nat, sizeOf: seq<Entry> -> nat) {
    forall i :: from <= i < |files| ==> files[i].size == sizeOf(files[i].entries)
  }

  /** WriteLevel0Table without a base version: a table at level 0, and none for an empty memtable. */
  method FlushRecovered(mem: seq<Entry>, number: nat, files: seq<FileMeta>, sizeOf: seq<Entry> -> nat,
                        ghost log: seq<Entry>, ghost segments: seq<Batch>, ghost segment: Batch, ghost lo: nat)
    returns (files': seq<FileMeta>, ghost segments': seq<Batch>)
    requires RecoveredFiles(log, segments, files, lo, number) && lo < number
    requires Increasing(segment) && mem == InsertAll([], segment)
    ensures RecoveredFiles(log + segment, segments', files', lo, number + 1)
    ensures segments' == segments + if segment == [] then [] else [segment]
    ensures StaySized(files, files', sizeOf)
  {
    hide RecoveredFiles, Increasing, Sorted;
    InsertAllLength([], segment);
    if mem == [] {
      assert log + segment == log;
      RecoveredLater(log, segments, files, lo, number, number + 1);
      return files, segments;
    }
    EngineRuns.SortedFromLog(segment);
    EmptyElements(segment);
    var f := FileMeta(number, sizeOf(mem), mem[0].key, mem[|mem| - 1].key, mem);
    RecoveredExtend(log, segments, files, lo, number, segment, f);
    return files + [f], segments + [segment];
  }

  /** RecoverLogFile: replay the batches into a memtable, and write a table whenever it is full and
      at the end of the log. `before` is what the earlier logs held. */
  method RecoverLogFile(batches: seq<Batch>, number: nat, files: seq<FileMeta>, maxSequence: SequenceNumber,
                        full: seq<Entry> -> bool, sizeOf: seq<Entry> -> nat,
                        ghost before: seq<Entry>, ghost segments: seq<Batch>, ghost lo: nat)
    returns (number': nat, files': seq<FileMeta>, maxSequence': SequenceNumber, ghost segments': seq<Batch>)
    requires RecoveredFiles(before, segments, files, lo, number) && lo < number
    requires Increasing(before + Flatten(batches)) && IsMaxSequence(before, maxSequence)
    ensures number <= number' && RecoveredFiles(before + Flatten(batches), segments', files', lo, number')
    ensures IsMaxSequence(before + Flatten(batches), maxSequence')
    ensures segments' == segments + LogSegments(batches, full)
    ensures StaySized(files, files', sizeOf)
  {
    hide RecoveredFiles, Increasing, IsMaxSequence, InsertAll, Sized, Replaying, LogSegments;
    ReplayStart(batches, full, segments);
    number', files', maxSequence', segments' := number, files, maxSequence, segments;
    var mem: Option<seq<Entry>> := None;
    ghost var done, pending: seq<Entry> := before, [];
    NothingRead(batches, before);
    for j := 0 to |batches|
      invariant number <= number' && RecoveredFiles(done, segments', files', lo, number')
      invariant done + pending == before + Flatten(batches[..j])
      invariant if mem.None? then pending == [] else mem.value == InsertAll([], pending)
      invariant IsMaxSequence(before + Flatten(batches[..j]), maxSequence')
      invariant Replaying(batches, j, full, segments, segments', if mem.None? then None else Some(pending))
      invariant StaySized(files, files', sizeOf)
    {
      var batch := batches[j];
      FlattenPrefix(batches, j);
      ReplayStep(batches, j, full, segments, segments', if mem.None? then None else Some(pending));
      FlattenIsPrefix(batches, j + 1);
      IncreasingPrefix(before + Flatten(batches), before + Flatten(batches[..j + 1]));
      var table := if mem.Some? then mem.value else [];
      NoInserts();
      GroupCommit.InsertAllConcat([], pending, batch);
      table := InsertInto(table, batch);
      assert before + Flatten(batches[..j]) + batch == before + Flatten(batches[..j + 1]);
      maxSequence' := TrackMax(maxSequence', batch, before + Flatten(batches[..j]));
      pending := pending + batch;
      mem := Some(table);
      assert done + pending == before + Flatten(batches[..j + 1]);
      if full(table) {
        IncreasingTail(done, pending);
        files', segments' := FlushRecovered(table, number', files', sizeOf, done, segments', pending, lo);
        number' := number' + 1;
        done, pending, mem := done + pending, [], None;
        assert done + pending == done;
      }
    }
    assert batches[..|batches|] == batches;
    ReplayEnd(batches, full, segments, segments', if mem.None? then None else Some(pending));
    if mem.Some? {
      IncreasingTail(done, pending);
      files', segments' := FlushRecovered(mem.value, number', files', sizeOf, done, segments', pending, lo);
      number' := number' + 1;
    } else {
      assert done + pending == done;
    }
  }

  lemma NothingRead(batches: seq<Batch>, before: seq<Entry>)
    ensures before + [] == before + Flatten(batches[..0]) == before
  {
    assert batches[..0] == [];
  }

  lemma NoInserts()
    ensures InsertAll([], []) == []
  {
  }

  lemma IncreasingPrefix(was: seq<Entry>, now: seq<Entry>)
    requires Increasing(was) && now <= was
    ensures Increasing(now)
  {
  }

  lemma IncreasingTail(a: seq<Entry>, b: seq<Entry>)
    requires Increasing(a + b)
    ensures Increasing(b)
  {
    assert (a + b)[|a|..] == b;
    IncreasingPart(a + b, |a|, |a + b|);
  }

  /** The batch's last sequence number may be a new maximum. */
  method TrackMax(max: SequenceNumber, batch: Batch, ghost log: seq<Entry>) returns (r: SequenceNumber)
    requires IsMaxSequence(log, max) && Increasing(log + batch)
    ensures IsMaxSequence(log + batch, r)
  {
    if batch == [] {
      assert log + batch == log;
      return max;
    }
    var lastSeq := batch[|batch| - 1].key.sequence;
    forall last: SequenceNumber
      ensures MaxSequence(log + batch, last) == var m := if last < max then max else last; if lastSeq > m then lastSeq else m
    {
      MaxSequenceOfMore(log, batch, last);
    }
    return if lastSeq > max then lastSeq else max;
  }

  /** WriteBatchInternal::InsertInto on a batch whose entries are numbered. */
  method InsertInto(mem: seq<Entry>, es: seq<Entry>) returns (table: seq<Entry>)
    ensures table == InsertAll(mem, es)
  {
    table := mem;
    assert es[0..] == es;
    for i := 0 to |es|
      invariant InsertAll(table, es[i..]) == InsertAll(mem, es)
    {
      assert es[i..][0] == es[i] && es[i..][1..] == es[i + 1..];
      table := Insert(table, es[i]);
    }
  }

  // ----- all logs -----

  /** One more than the largest log number. */
  method LogBound(logs: map<nat, seq<Batch>>) returns (bound: nat)
    ensures forall n :: n in logs ==> n < bound
  {
    var keys := logs.Keys;
    bound := 0;
    while keys != {}
      invariant forall n :: n in logs ==> n in keys || n < bound
      decreases |keys|
    {
      var n :| n in keys;
      keys := keys - {n};
      bound := if n < bound then bound else n + 1;
    }
  }

  /** What the tables of all logs hold. */
  function AllSegments(logs: map<nat, seq<Batch>>, lo: nat, hi: nat, full: seq<Entry> -> bool): seq<Batch>
    decreases hi
  {
    if hi <= lo then []
    else AllSegments(logs, lo, hi - 1, full) + if hi - 1 in logs then LogSegments(logs[hi - 1], full) else []
  }

  /** The log loop of DBImpl::Recover, in increasing order of the numbers from `minLog` on. */
  method RecoverLogs(logs: map<nat, seq<Batch>>, minLog: nat, bound: nat, firstNumber: nat,
                     full: seq<Entry> -> bool, sizeOf: seq<Entry> -> nat)
    returns (number: nat, files: seq<FileMeta>, maxSequence: SequenceNumber, ghost segments: seq<Batch>)
    requires firstNumber > 0 && Increasing(Replay(logs, minLog, bound))
    ensures number >= firstNumber
    ensures RecoveredFiles(Replay(logs, minLog, bound), segments, files, firstNumber - 1, number)
    ensures IsMaxSequence(Replay(logs, minLog, bound), maxSequence)
    ensures segments == AllSegments(logs, minLog, bound, full) && Sized(files, 0, sizeOf)
  {
    hide RecoveredFiles, Increasing, IsMaxSequence, Flatten, Replay, LogSegments;
    ghost var lo := firstNumber - 1;
    number, files, maxSequence, segments := firstNumber, [], 0, [];
    NothingReplayed(logs, minLog, minLog, lo, number);
    if bound <= minLog {
      NothingReplayed(logs, minLog, bound, lo, number);
    }
    var n := minLog;
    while n < bound
      invariant minLog <= n && (n <= bound || n == minLog) && number >= firstNumber
      invariant RecoveredFiles(Replay(logs, minLog, n), segments, files, lo, number)
      invariant IsMaxSequence(Replay(logs, minLog, n), maxSequence)
      invariant segments == AllSegments(logs, minLog, n, full) && Sized(files, 0, sizeOf)
    {
      ReplayOne(logs, minLog, n);
      if n in logs {
        ReplayIsPrefix(logs, minLog, n + 1, bound);
        IncreasingPrefix(Replay(logs, minLog, bound), Replay(logs, minLog, n + 1));
        number, files, maxSequence, segments :=
          RecoverLogFile(logs[n], number, files, maxSequence, full, sizeOf, Replay(logs, minLog, n), segments, lo);
        var used := if number <= n then n + 1 else number;
        RecoveredLater(Replay(logs, minLog, n + 1), segments, files, lo, number, used);
        number := used;
      } else {
        assert Replay(logs, minLog, n) + [] == Replay(logs, minLog, n);
      }
      n := n + 1;
    }
  }

  lemma NothingReplayed(logs: map<nat, seq<Batch>>, lo: nat, hi: nat, first: nat, number: nat)
    requires hi <= lo
    ensures Replay(logs, lo, hi) == [] && RecoveredFiles([], [], [], first, number) && IsMaxSequence([], 0)
  {
  }
}
