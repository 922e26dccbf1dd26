/** Theorems about every run of the database. */
module EngineRuns {
  import opened Keys
  import opened Entries
  import opened Versions
  import opened VersionBuilder
  import opened Store
  import opened CompactionViews
  import opened Install
  import opened Manifest
  import opened Engine
  import opened EngineReads
  import opened EngineDurable
  import opened EngineSafety
  import opened EngineRecovery
  import opened Options

  /** What holds in every reachable state. */
  ghost predicate Inv(s: Db) {
    LayersOk(s) && HistoryOk(s) && SnapshotsOk(s) && Durable(s)
  }

  lemma InitialManifest()
    ensures Folds(INITIAL.disk.manifest, EMPTY_VERSION) && AddedOnce(INITIAL.disk.manifest)
    ensures AddsOk(INITIAL.disk.manifest, EMPTY_VERSION, 4, {})
  {
    var e := Filled(EMPTY_EDIT, 3, 4, 0);
    EmptyEditIsIdentity(EMPTY_VERSION);
    assert Folds([], EMPTY_VERSION);
    FoldsExtend([], EMPTY_VERSION, EMPTY_EDIT, EMPTY_VERSION);
    assert [] + [EMPTY_EDIT] == [EMPTY_EDIT] && [EMPTY_EDIT] + [e] == [EMPTY_EDIT, e];
    SameAdded(EMPTY_VERSION, e, EMPTY_EDIT, EMPTY_VERSION);
    FoldsExtend([EMPTY_EDIT], EMPTY_VERSION, e, EMPTY_VERSION);
    SameAdds(EMPTY_EDIT, e);
    EverAddsPair(EMPTY_EDIT, e);
  }

  lemma EmptyVersionValid()
    ensures ValidVersion(EMPTY_VERSION) && SortedVersion(EMPTY_VERSION) && DistinctNumbers(EMPTY_VERSION)
    ensures VersionEntries(EMPTY_VERSION) == {}
  {
    forall l: nat | l < NUM_LEVELS
      ensures EMPTY_VERSION[l] == [] && LevelEntries(EMPTY_VERSION[l]) == {}
    {
    }
  }

  lemma InitialOk()
    ensures Inv(INITIAL) && ReadsOk(INITIAL)
  {
    hide ValidVersion, SortedVersion, DistinctNumbers, VersionEntries, LogState, AddsOk, AddedOnce, Folds, ValidLayers, Stored, View;
    EmptyVersionValid();
    OnlyVersionLayers(EMPTY_VERSION);
    InitialManifest();
    FreshLog(map[], 3, 0);
    EmptyElements([]);
    assert map[][3 := []] == INITIAL.disk.logs;
    assert HasTables(INITIAL.disk.tables, EMPTY_VERSION) by {
      forall l: nat | l < NUM_LEVELS
        ensures EMPTY_VERSION[l] == []
      {
      }
    }
  }

  lemma DurableNext(s: Db, step: Step, s': Db)
    requires LayersOk(s) && HistoryOk(s) && Durable(s) && Next(s, step, s')
    requires !step.CrashAndRecover?
    ensures Durable(s')
  {
    hide LayersOk, HistoryOk, Durable;
    match step
    case Write(ops) =>
      WriteKeepsStore(s, ops, s');
      WriteKeepsDurable(s, ops, s');
    case Switch =>
      SwitchKeepsDurable(s, s');
    case Flush(level, f, v') =>
      FlushKeepsDurable(s, level, f, v', s');
    case FlushEmpty =>
      FlushEmptyKeepsDurable(s, s');
    case BeginTable(es) =>
      BeginTableKeepsDurable(s, es, s');
    case Compact(c, outs, v') =>
      CompactKeepsDurable(s, c, outs, v', s');
    case Move(c, v') =>
      MoveKeepsDurable(s, c, v', s');
    case Collect =>
      CollectKeepsDurable(s, s');
    case Abandon(n) =>
      AbandonKeepsDurable(s, n, s');
    case Pin =>
      PinKeepsDurable(s, s');
    case TakeSnapshot =>
      SnapshotKeepsDurable(s, s');
    case ReleaseSnapshot(i) =>
      ReleaseKeepsDurable(s, i, s');
    case Unpin(i) =>
      UnpinKeepsDurable(s, i, s');
  }

  lemma AbandonKeepsDurable(s: Db, n: nat, s': Db)
    requires Durable(s) && AbandonStep(s, n, s')
    ensures Durable(s')
  {
    hide Folds, AddedOnce, LogState, HasTables;
  }

  lemma PinKeepsDurable(s: Db, s': Db)
    requires Durable(s) && PinStep(s, s')
    ensures Durable(s')
  {
    VersionIsAdded(s);
  }

  lemma SnapshotKeepsDurable(s: Db, s': Db)
    requires Durable(s) && SnapshotStep(s, s')
    ensures Durable(s')
  {
  }

  lemma ReleaseKeepsDurable(s: Db, i: nat, s': Db)
    requires Durable(s) && ReleaseStep(s, i, s')
    ensures Durable(s')
  {
  }

  lemma UnpinKeepsDurable(s: Db, i: nat, s': Db)
    requires Durable(s) && UnpinStep(s, i, s')
    ensures Durable(s')
  {
  }

  /** Every step keeps the invariant, a crash with recovery included. */
  lemma InvNext(s: Db, step: Step, s': Db)
    requires Inv(s) && Next(s, step, s')
    ensures Inv(s')
  {
    hide LayersOk, HistoryOk, Durable, SnapshotsOk;
    SnapshotsNext(s, step, s');
    if step.CrashAndRecover? {
      RecoverKeeps(s, step.base, step.segments, step.files, step.snapshotEdit, step.version, step.newLog, s');
    } else {
      assert PendingFresh(s) by { DurableIsFresh(s); }
      StoreNext(s, step, s');
      DurableNext(s, step, s');
    }
  }

  lemma DurableIsFresh(s: Db)
    requires Durable(s)
    ensures PendingFresh(s)
  {
    VersionIsAdded(s);
  }

  lemma {:induction false} RunKeepsInv(states: seq<Db>, steps: seq<Step>, i: nat)
    requires Run(states, steps) && i < |states|
    ensures Inv(states[i])
  {
    hide Inv, Next, ReadsOk, Careful;
    if i == 0 {
      InitialOk();
    } else {
      RunKeepsInv(states, steps, i - 1);
      InvNext(states[i - 1], steps[i - 1], states[i]);
    }
  }

  /** A careful step keeps every live reader's view equal to the written history. */
  lemma CarefulNext(s: Db, step: Step, s': Db)
    requires Inv(s) && ReadsOk(s) && Next(s, step, s') && Careful(s, step)
    ensures ReadsOk(s')
  {
    hide LayersOk, HistoryOk, Durable, View;
    if step.CrashAndRecover? {
      RecoverKeeps(s, step.base, step.segments, step.files, step.snapshotEdit, step.version, step.newLog, s');
      SameViewsLater(Stored(s.layers), s.history, SmallestSnapshot(s), s.lastSequence);
    } else {
      DurableIsFresh(s);
      ReadsNext(s, step, s');
    }
  }

  /** In every state of a careful run, whatever mixture of writes, switches, flushes, moves,
      compactions, collections and crashes led there, a reader at a live snapshot or at the
      last sequence number sees exactly the newest value ever written that it may see. */
  lemma {:induction false} RunReads(states: seq<Db>, steps: seq<Step>, i: nat)
    requires CarefulRun(states, steps) && i < |states|
    ensures Inv(states[i]) && ReadsOk(states[i])
  {
    hide Inv, Next, ReadsOk, Careful;
    if i == 0 {
      InitialOk();
    } else {
      RunReads(states, steps, i - 1);
      InvNext(states[i - 1], steps[i - 1], states[i]);
      CarefulNext(states[i - 1], steps[i - 1], states[i]);
    }
  }

  /** Carefulness is necessary at each compaction: from a state whose reads are right, the
      compaction keeps them right for every reader at or after the smallest snapshot exactly
      when it resurrects nothing. */
  lemma CarefulIsExact(states: seq<Db>, steps: seq<Step>, i: nat)
    requires Run(states, steps) && i < |steps| && steps[i].Compact?
    requires ReadsOk(states[i])
    ensures SameViews(Stored(states[i + 1].layers), states[i + 1].history, SmallestSnapshot(states[i])) <==> Careful(states[i], steps[i])
  {
    hide LayersOk, HistoryOk, Durable, SameViews, Stored;
    RunKeepsInv(states, steps, i);
    DurableIsFresh(states[i]);
    CarelessBreaksReads(states[i], steps[i].c, steps[i].outs, steps[i].version, states[i + 1]);
  }

  /** DBImpl::Get in a state of a careful run, at a live snapshot or without one. */
  method ReadAt(s: Db, k: UserKey, snapshot: Option<SequenceNumber>) returns (r: Option<Bytes>)
    requires Inv(s) && ReadsOk(s)
    requires snapshot.Some? ==> snapshot.value in s.snapshots
    ensures r == View(s.history, k, if snapshot.Some? then snapshot.value else s.lastSequence)
  {
    var at := if snapshot.Some? then snapshot.value else s.lastSequence;
    r := LayeredGet(s.layers, k, at);
    assert at >= SmallestSnapshot(s);
  }

  // ----- snapshots -----

  /** A sequence number a reader of state `s` can read at. */
  ghost predicate ReadableAt(s: Db, q: nat) {
    q == s.lastSequence || exists i: nat :: i < |s.snapshots| && q == s.snapshots[i]
  }

  /** A step takes the last sequence number no further back, and readers get no other new ones. */
  lemma ReadableNext(s: Db, step: Step, s': Db)
    requires Inv(s) && Next(s, step, s')
    ensures s.lastSequence <= s'.lastSequence
    ensures forall q: nat :: ReadableAt(s', q) ==> ReadableAt(s, q) || q == s'.lastSequence
  {
    hide LayersOk, HistoryOk, Durable;
    if step.CrashAndRecover? {
      RecoverKeeps(s, step.base, step.segments, step.files, step.snapshotEdit, step.version, step.newLog, s');
    }
    forall q: nat | ReadableAt(s', q)
      ensures ReadableAt(s, q) || q == s'.lastSequence
    {
      if q != s'.lastSequence {
        var i: nat :| i < |s'.snapshots| && q == s'.snapshots[i];
        var j := if step.ReleaseSnapshot? && i >= step.index then i + 1 else i;
        assert j < |s.snapshots| ==> q == s.snapshots[j];
      }
    }
  }

  /** Before a state, readers read at or before its last sequence number; after it, what they did
      not read at before is at or after that number. */
  lemma {:induction false} ReadableSplit(states: seq<Db>, steps: seq<Step>, i: nat, j: nat, q: nat)
    requires Run(states, steps) && i <= j < |states| && ReadableAt(states[j], q)
    ensures states[i].lastSequence <= states[j].lastSequence
    ensures q <= states[j].lastSequence && (ReadableAt(states[i], q) || states[i].lastSequence <= q)
    decreases j - i
  {
    hide Next, Inv, ReadableAt;
    RunKeepsInv(states, steps, j);
    ReadableBelow(states[j], q);
    if i < j {
      RunKeepsInv(states, steps, j - 1);
      ReadableNext(states[j - 1], steps[j - 1], states[j]);
      LastReadable(states[j - 1]);
      if ReadableAt(states[j - 1], q) {
        ReadableSplit(states, steps, i, j - 1, q);
      } else {
        ReadableSplit(states, steps, i, j - 1, states[j - 1].lastSequence);
      }
    }
  }

  lemma ReadableBelow(s: Db, q: nat)
    requires Inv(s) && ReadableAt(s, q)
    ensures q <= s.lastSequence
  {
    hide LayersOk, HistoryOk, Durable;
  }

  lemma LastReadable(s: Db)
    ensures ReadableAt(s, s.lastSequence)
  {
  }

  /** No reader in any state of any run sees a part of a write: it reads before the first of the
      write's sequence numbers, or at or after the last. */
  lemma SnapshotsSplitNoWrite(states: seq<Db>, steps: seq<Step>, i: nat, j: nat, q: nat)
    requires Run(states, steps) && i < |steps| && steps[i].Write? && j < |states| && ReadableAt(states[j], q)
    ensures states[i + 1].lastSequence == states[i].lastSequence + |steps[i].ops|
    ensures q <= states[i].lastSequence || states[i].lastSequence + |steps[i].ops| <= q
  {
    hide Inv, ReadableAt;
    assert Next(states[i], steps[i], states[i + 1]);
    if j <= i {
      RunKeepsInv(states, steps, j);
      LastReadable(states[i]);
      ReadableSplit(states, steps, j, i, states[i].lastSequence);
      ReadableBelow(states[j], q);
    } else {
      ReadableSplit(states, steps, i + 1, j, q);
      if ReadableAt(states[i + 1], q) {
        RunKeepsInv(states, steps, i);
        ReadableNext(states[i], steps[i], states[i + 1]);
        if ReadableAt(states[i], q) {
          ReadableBelow(states[i], q);
        }
      }
    }
  }

  /** What is written later has a larger sequence number, and nothing written is forgotten. */
  ghost predicate Later(s: Db, t: Db) {
    && s.lastSequence <= t.lastSequence
    && s.history <= t.history
    && forall e :: e in t.history && e !in s.history ==> e.key.sequence > s.lastSequence
  }

  lemma LaterNext(s: Db, step: Step, s': Db)
    requires Inv(s) && Next(s, step, s')
    ensures Later(s, s')
  {
    hide LayersOk, HistoryOk, Durable;
    ReadableNext(s, step, s');
    if step.Write? {
      StampFacts(step.ops, s.lastSequence + 1);
    } else {
      SameHistory(s, step, s');
    }
  }

  lemma SameHistory(s: Db, step: Step, s': Db)
    requires Next(s, step, s') && !step.Write?
    ensures s'.history == s.history
  {
  }

  lemma {:induction false} RunLater(states: seq<Db>, steps: seq<Step>, i: nat, j: nat)
    requires Run(states, steps) && i <= j < |states|
    ensures Later(states[i], states[j])
    decreases j - i
  {
    hide Next, Inv;
    if i < j {
      RunLater(states, steps, i, j - 1);
      RunKeepsInv(states, steps, j - 1);
      LaterNext(states[j - 1], steps[j - 1], states[j]);
    }
  }

  /** What a reader could see at a sequence number, it sees there in every later state. */
  lemma ViewStays(states: seq<Db>, steps: seq<Step>, i: nat, j: nat, k: UserKey, q: SequenceNumber)
    requires Run(states, steps) && i <= j < |states| && q <= states[i].lastSequence
    ensures View(states[j].history, k, q) == View(states[i].history, k, q)
  {
    hide Run, View;
    RunLater(states, steps, i, j);
    SameVisible(states[j].history, states[i].history, k, q, q);
  }

  // ----- reachable states -----

  /** The last state of some run. */
  ghost predicate Reached(s: Db) {
    exists states, steps :: Run(states, steps) && states[|steps|] == s
  }

  lemma ReachedNext(s: Db, step: Step, s': Db)
    requires Reached(s) && Next(s, step, s')
    ensures Reached(s')
  {
    hide Next;
    var states, steps :| Run(states, steps) && states[|steps|] == s;
    var longer, more := states + [s'], steps + [step];
    forall i | 0 <= i < |more|
      ensures Next(longer[i], more[i], longer[i + 1])
    {
      if i < |steps| {
        assert Next(states[i], steps[i], states[i + 1]);
      }
    }
    assert Run(longer, more) && longer[|more|] == s';
  }

  lemma ReachedInitial()
    ensures Reached(INITIAL)
  {
    assert Run([INITIAL], []);
  }

  lemma ReachedInv(s: Db)
    requires Reached(s)
    ensures Inv(s)
  {
    var states, steps :| Run(states, steps) && states[|steps|] == s;
    RunKeepsInv(states, steps, |steps|);
  }

  lemma LogOpen(s: Db)
    requires Reached(s)
    ensures s.logfileNumber in s.disk.logs
  {
    ReachedInv(s);
    hide LayersOk, HistoryOk, SnapshotsOk, TablesOk, ManifestOk, LogsOk, Reached;
  }

  // ----- crashes -----

  /** Whatever a recovery may do, it rebuilds the stored entries of the crashed state, and with
      them every read at the last acknowledged sequence number. */
  lemma CrashLosesNothing(states: seq<Db>, steps: seq<Step>, i: nat)
    requires Run(states, steps) && i < |steps| && steps[i].CrashAndRecover?
    ensures Stored(states[i + 1].layers) == Stored(states[i].layers)
    ensures states[i + 1].lastSequence == states[i].lastSequence
  {
    hide LayersOk, HistoryOk, Durable;
    RunKeepsInv(states, steps, i);
    var t := steps[i];
    RecoverKeeps(states[i], t.base, t.segments, t.files, t.snapshotEdit, t.version, t.newLog, states[i + 1]);
  }

  function AllFiles(v: Version, l: nat): seq<(nat, FileMeta)>
    requires l <= |v|
  {
    if l == 0 then [] else AllFiles(v, l - 1) + Placed(l - 1, v[l - 1])
  }

  lemma {:induction false} AllFilesMembers(v: Version, n: nat)
    requires n <= |v|
    ensures forall p :: p in AllFiles(v, n) <==> p.0 < n && p.1 in v[p.0]
  {
    if n > 0 {
      AllFilesMembers(v, n - 1);
      PlacedMembers(n - 1, v[n - 1]);
      forall p
        ensures p in AllFiles(v, n) <==> p.0 < n && p.1 in v[p.0]
      {
        assert p in Placed(n - 1, v[n - 1]) <==> (p.0, p.1) in Placed(n - 1, v[n - 1]);
      }
    }
  }

  /** A log can be turned into one table. */
  lemma TableFromLog(log: seq<Entry>, number: nat) returns (f: FileMeta)
    requires Increasing(log) && log != []
    ensures TableOf(f, log) && f.number == number
  {
    var es := InsertAll([], log);
    SortedFromLog(log);
    EmptyElements(log);
    EmptyElements(es);
    f := FileMeta(number, 0, es[0].key, es[|es| - 1].key, es);
  }

  lemma {:induction false} SortedFromLog(log: seq<Entry>)
    requires Increasing(log) && log != []
    ensures Sorted(InsertAll([], log)) && Elements(InsertAll([], log)) == Elements(log)
  {
    var first := Insert([], log[0]);
    assert first == [log[0]];
    forall e | e in log[1..]
      ensures e.key.sequence > log[0].key.sequence
    {
      var i :| 0 <= i < |log[1..]| && log[1..][i] == e;
      assert log[i + 1] == e;
    }
    IncreasingSuffix(log, 1, log[1..]);
    InsertAllFacts(first, log[1..], log[0].key.sequence);
    assert log == [log[0]] + log[1..];
  }

  lemma OneSegment(log: seq<Entry>, lo: nat, hi: nat) returns (segments: seq<Batch>, files: seq<FileMeta>)
    requires Increasing(log) && lo + 1 < hi
    ensures RecoveredFiles(log, segments, files, lo, hi)
  {
    if log == [] {
      segments, files := [], [];
    } else {
      var f := TableFromLog(log, lo + 1);
      segments, files := [log], [f];
      assert [log][..0] == [];
      assert Flatten([log]) == Flatten([log][..0]) + [log][0];
    }
  }

  lemma FullSnapshotEdit(v: Version) returns (e: Edit)
    requires |v| == NUM_LEVELS
    ensures SnapshotEdit(v, e)
  {
    AllFilesMembers(v, NUM_LEVELS);
    e := EMPTY_EDIT.(added := AllFiles(v, NUM_LEVELS));
  }

  /** The database can always be reopened. */
  lemma RecoveryPossible(s: Db) returns (step: Step, s': Db)
    requires Inv(s)
    ensures step.CrashAndRecover? && Next(s, step, s')
  {
    hide ValidVersion, DistinctNumbers, Newer, Folds, AddedOnce, AddsOk, LogState, HasTables, RecoveredFiles, Edited, Increasing,
         Numbered, ValidLayers, Stored, TablesWith, SnapshotEdit, Placed, MaxSequence, Replay, SnapshotsOk, HistoryOk;
    var m := s.disk.manifest;
    var lo := LastNextFile(m).value;
    var newLog := if lo + 2 > s.logfileNumber + 1 then lo + 2 else s.logfileNumber + 1;
    var log := Replay(s.disk.logs, s.logNumber, newLog);
    LogHoldsMemory(s, newLog);
    var segments, files := OneSegment(log, lo, newLog);
    var v' := RecoverRebuilds(s, segments, files, newLog);
    FoldsShape(m, s.layers.version);
    var se := FullSnapshotEdit(s.layers.version);
    var last := MaxSequence(log, LastLastSequence(m).value);
    s' := Db(
      Layers([], None, v'), last, [],
      Disk([se, Filled(EMPTY_EDIT.(added := Placed(0, files)), newLog, newLog + 1, last)],
           s.disk.logs[newLog := []], TablesWith(s.disk.tables, files)),
      newLog, newLog, newLog + 1, {}, [], s.history);
    step := CrashAndRecover(s.layers.version, segments, files, se, v', newLog);
  }
}
