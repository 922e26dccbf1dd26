/** A crash that also loses the unsynced end of the current log: recovery loses just the batches of
    that end (DBImpl::Recover, RecoverLogFile in db_impl.cc). */
module EngineTorn {
  import opened Keys
  import opened Entries
  import opened Versions
  import opened VersionBuilder
  import opened Picking
  import opened Store
  import opened CompactionViews
  import opened Install
  import opened StoreSteps
  import opened Manifest
  import opened Engine
  import opened EngineReads
  import opened EngineDurable
  import opened EngineRecovery
  import opened EngineRuns
  import opened Options

  // ----- an invariant about what the manifest has seen -----

  /** The rest of `S` is older than `newest`. */
  ghost predicate Ends(S: set<Entry>, newest: set<Entry>) {
    forall e, x :: e in S && x in newest && e !in newest ==> e.key.sequence < x.key.sequence
  }

  /** What was written after the last manifest record is still in memory, and the memtable has the
      newest part of what was written. */
  ghost predicate Covered(s: Db) {
    && Ends(s.history, Elements(s.layers.mem))
    && LastLastSequence(s.disk.manifest).Some?
    && forall e :: e in s.history && e !in Elements(s.layers.mem) + ImmEntries(s.layers)
        ==> e.key.sequence <= LastLastSequence(s.disk.manifest).value
  }

  lemma CoveredNext(s: Db, step: Step, s': Db)
    requires Inv(s) && Covered(s) && Next(s, step, s')
    ensures Covered(s')
  {
    hide LayersOk, Durable, SnapshotsOk, HistoryOk, Next, Covered;
    if step.Write? {
      assert WriteStep(s, step.ops, s') by { StepOf(s, step, s'); }
      WriteCovers(s, step.ops, s');
    } else if step.CrashAndRecover? {
      RecoverCovers(s, step, s');
    } else {
      OtherCovers(s, step, s');
    }
  }

  lemma StepOf(s: Db, step: Step, s': Db)
    requires Next(s, step, s') && step.Write?
    ensures WriteStep(s, step.ops, s')
  {
    hide WriteStep;
  }

  lemma RecoverCovers(s: Db, step: Step, s': Db)
    requires Inv(s) && Next(s, step, s') && step.CrashAndRecover?
    ensures Covered(s')
  {
    hide LayersOk, Durable, SnapshotsOk;
    RecoverKeeps(s, step.base, step.segments, step.files, step.snapshotEdit, step.version, step.newLog, s');
    assert s'.disk.manifest[..1] == [step.snapshotEdit];
  }

  lemma OtherCovers(s: Db, step: Step, s': Db)
    requires HistoryOk(s) && Covered(s) && Next(s, step, s') && !step.Write? && !step.CrashAndRecover?
    ensures Covered(s')
  {
    hide WellChosen, Edited, LevelEntries, ValidFile, Survivors, MayAddAt, Stored;
    if step.Flush? || step.FlushEmpty? || step.Compact? || step.Move? {
      assert s'.disk.manifest[..|s.disk.manifest|] == s.disk.manifest;
    }
  }

  lemma WriteCovers(s: Db, ops: seq<Op>, s': Db)
    requires LayersOk(s) && HistoryOk(s) && Covered(s) && WriteStep(s, ops, s')
    ensures Covered(s')
  {
    hide ValidLayers, Stored, InsertAll, Stamp, Increasing, Elements, Ends;
    var es, mem := Stamp(ops, s.lastSequence + 1), s.layers.mem;
    StampFacts(ops, s.lastSequence + 1);
    MemoryOf(s, es);
    EndsGrows(s.history, Elements(mem), Elements(es), s.lastSequence);
  }

  /** Inserting the entries of a write. */
  lemma MemoryOf(s: Db, es: seq<Entry>)
    requires LayersOk(s) && HistoryOk(s) && Increasing(es) && forall e :: e in es ==> e.key.sequence > s.lastSequence
    ensures Elements(InsertAll(s.layers.mem, es)) == Elements(s.layers.mem) + Elements(es)
    ensures forall e :: e in Elements(es) ==> e.key.sequence > s.lastSequence
    ensures Elements(s.layers.mem) <= s.history
  {
    hide ValidVersion, SortedVersion, DistinctNumbers, Newer, InsertAll, SequenceUnique;
    InsertAllFacts(s.layers.mem, es, s.lastSequence);
  }

  lemma EndsGrows(S: set<Entry>, newest: set<Entry>, more: set<Entry>, bound: nat)
    requires Ends(S, newest) && newest <= S
    requires forall e :: e in S ==> e.key.sequence <= bound
    requires forall e :: e in more ==> e.key.sequence > bound
    ensures Ends(S + more, newest + more)
  {
  }

  lemma {:induction false} RunCovered(states: seq<Db>, steps: seq<Step>, i: nat)
    requires Run(states, steps) && i < |states|
    ensures Covered(states[i])
  {
    hide Inv, Next, Covered;
    if i == 0 {
      InitialCovered();
    } else {
      RunCovered(states, steps, i - 1);
      RunKeepsInv(states, steps, i - 1);
      CoveredNext(states[i - 1], steps[i - 1], states[i]);
    }
  }

  lemma InitialCovered()
    ensures Covered(INITIAL)
  {
    assert INITIAL.disk.manifest[..1] == [EMPTY_EDIT];
  }

  // ----- the torn state -----

  ghost predicate TearsAt(s: Db, n: nat) {
    s.logfileNumber in s.disk.logs && n <= |s.disk.logs[s.logfileNumber]|
  }

  /** The batches of the current log from the `n`-th on. */
  function LostLog(s: Db, n: nat): seq<Entry>
    requires TearsAt(s, n)
  {
    Flatten(s.disk.logs[s.logfileNumber][n..])
  }

  function TornLogs(s: Db, n: nat): map<nat, seq<Batch>>
    requires TearsAt(s, n)
  {
    s.disk.logs[s.logfileNumber := s.disk.logs[s.logfileNumber][..n]]
  }

  /** The state as the crash leaves it: the current log ends after `n` batches, and the
      history is what was written and not lost. */
  function Torn(s: Db, n: nat): Db
    requires TearsAt(s, n)
  {
    s.(disk := s.disk.(logs := TornLogs(s, n)), history := s.history - Elements(LostLog(s, n)))
  }

  // ----- a memory that agrees with the torn log -----

  function Without(es: seq<Entry>, lost: set<Entry>): seq<Entry> {
    if es == [] then [] else Without(es[..|es| - 1], lost) + if es[|es| - 1] in lost then [] else [es[|es| - 1]]
  }

  lemma {:induction false} WithoutFacts(es: seq<Entry>, lost: set<Entry>)
    requires Sorted(es)
    ensures Sorted(Without(es, lost)) && Elements(Without(es, lost)) == Elements(es) - lost
  {
    if es != [] {
      var n := |es| - 1;
      var r := Without(es[..n], lost);
      WithoutFacts(es[..n], lost);
      forall i | 0 <= i < |r|
        ensures Less(r[i].key, es[n].key)
      {
        assert r[i] in Elements(r);
        var j :| 0 <= j < n && es[..n][j] == r[i];
        assert es[j] == r[i];
      }
      assert es == es[..n] + [es[n]];
      assert Elements(es) == Elements(es[..n]) + {es[n]};
      assert Elements(Without(es, lost)) == Elements(r) + if es[n] in lost then {} else {es[n]};
    }
  }

  /** The state with the memtable and the last sequence number that the torn log accounts for. */
  function Shrunk(s: Db, n: nat): Db
    requires TearsAt(s, n) && LastLastSequence(s.disk.manifest).Some?
  {
    var lost := Elements(LostLog(s, n));
    Torn(s, n).(
      layers := s.layers.(mem := Without(s.layers.mem, lost)),
      lastSequence := MaxSequence(Replay(TornLogs(s, n), s.logNumber, s.logfileNumber + 1), LastLastSequence(s.disk.manifest).value))
  }

  lemma {:induction false} FlattenConcat(a: seq<Batch>, b: seq<Batch>)
    ensures Flatten(a + b) == Flatten(a) + Flatten(b)
    decreases |b|
  {
    if b == [] {
      assert a + b == a;
    } else {
      var n := |b| - 1;
      FlattenConcat(a, b[..n]);
      assert (a + b)[..|a + b| - 1] == a + b[..n];
    }
  }

  /** The retained log is the torn one followed by what was lost. */
  lemma ReplaySplits(s: Db, n: nat)
    requires TearsAt(s, n) && s.logNumber <= s.logfileNumber
    ensures var L := s.logfileNumber; var torn := TornLogs(s, n);
      && Replay(torn, s.logNumber, L) == Replay(s.disk.logs, s.logNumber, L)
      && LogAt(s.disk.logs, L) == LogAt(torn, L) + LostLog(s, n)
      && Replay(s.disk.logs, s.logNumber, L + 1) == Replay(torn, s.logNumber, L + 1) + LostLog(s, n)
  {
    hide Flatten, Replay;
    var L, logs, torn := s.logfileNumber, s.disk.logs, TornLogs(s, n);
    ReplaySame(logs, torn, s.logNumber, L);
    assert logs[L] == logs[L][..n] + logs[L][n..];
    FlattenConcat(logs[L][..n], logs[L][n..]);
    ReplayOne(logs, s.logNumber, L);
    ReplayOne(torn, s.logNumber, L);
    var before := Replay(logs, s.logNumber, L);
    assert before + (LogAt(torn, L) + LostLog(s, n)) == before + LogAt(torn, L) + LostLog(s, n);
  }

  /** The end of an increasing log is newer than the rest, and no part of it. */
  lemma EndIsNewer(log: seq<Entry>, kept: seq<Entry>, lost: seq<Entry>)
    requires Increasing(log) && log == kept + lost
    ensures Increasing(kept)
    ensures forall e, x :: e in kept && x in lost ==> e.key.sequence < x.key.sequence
    ensures Elements(kept) == Elements(log) - Elements(lost)
  {
    forall e, x | e in kept && x in lost
      ensures e.key.sequence < x.key.sequence
    {
      var i :| 0 <= i < |kept| && kept[i] == e;
      var j :| 0 <= j < |lost| && lost[j] == x;
      assert log[i] == e && log[|kept| + j] == x;
    }
    assert forall i :: 0 <= i < |kept| ==> log[i] == kept[i];
    forall e | e in kept
      ensures e in log && e !in lost
    {
    }
    forall e | e in Elements(log) - Elements(lost)
      ensures e in kept
    {
    }
  }

  // ----- the shrunk state is a good one -----

  lemma ShrunkLayers(s: Db, n: nat)
    requires LayersOk(s) && Durable(s) && TearsAt(s, n)
    ensures var t := Shrunk(s, n);
      && LayersOk(t)
      && Elements(t.layers.mem) == Elements(s.layers.mem) - Elements(LostLog(s, n))
      && Stored(t.layers) == Stored(s.layers) - Elements(LostLog(s, n))
  {
    hide ValidVersion, SortedVersion, DistinctNumbers, Sorted, Newer, Folds, AddedOnce, AddsOk, HasTables, Flatten, Replay, MaxSequence, Increasing;
    var t, lost := Shrunk(s, n), LostLog(s, n);
    WithoutFacts(s.layers.mem, Elements(lost));
    LostInMemory(s, n);
    var older := ImmEntries(s.layers) + VersionEntries(s.layers.version);
    NewerSubset(Elements(s.layers.mem), older, Elements(t.layers.mem), older);
    ApartIfNewer(Elements(s.layers.mem), older);
  }

  lemma ApartIfNewer(A: set<Entry>, B: set<Entry>)
    requires Newer(A, B)
    ensures A !! B
  {
    forall x | x in A && x in B
      ensures Less(x.key, x.key)
    {
    }
  }

  lemma LostInMemory(s: Db, n: nat)
    requires Durable(s) && TearsAt(s, n)
    ensures Elements(LostLog(s, n)) <= Elements(s.layers.mem)
  {
    ReplaySplits(s, n);
  }

  lemma ShrunkDurable(s: Db, n: nat)
    requires LayersOk(s) && Durable(s) && TearsAt(s, n)
    ensures Durable(Shrunk(s, n))
  {
    hide Folds, AddedOnce, AddsOk, HasTables, Flatten, Replay, MaxSequence, Increasing, LogAt, Without, Sorted;
    var t, lost, L := Shrunk(s, n), LostLog(s, n), s.logfileNumber;
    var torn, manifestLast := TornLogs(s, n), LastLastSequence(s.disk.manifest).value;
    ReplaySplits(s, n);
    var log, kept := Replay(s.disk.logs, s.logNumber, L + 1), Replay(torn, s.logNumber, L + 1);
    EndIsNewer(log, kept, lost);
    MaxSequenceFacts(kept, manifestLast);
    MaxSequenceFacts(log, manifestLast);
    ShrunkBelow(kept, log, manifestLast);
    ShrunkLayers(s, n);
    LogEndIsNewer(s, n);
    assert TablesOk(t);
    assert ManifestOk(t);
    assert NumbersOk(t);
    assert LogsOk(t);
  }

  lemma ShrunkBelow(kept: seq<Entry>, log: seq<Entry>, last: SequenceNumber)
    requires kept <= log
    ensures MaxSequence(kept, last) <= MaxSequence(log, last)
  {
    MaxSequenceFacts(kept, last);
    MaxSequenceFacts(log, last);
  }

  /** The current log without its lost end. */
  lemma LogEndIsNewer(s: Db, n: nat)
    requires Durable(s) && TearsAt(s, n)
    ensures Elements(LogAt(TornLogs(s, n), s.logfileNumber)) == Elements(s.layers.mem) - Elements(LostLog(s, n))
  {
    ReplaySplits(s, n);
    var L := s.logfileNumber;
    var all := LogAt(s.disk.logs, L);
    ReplayOne(s.disk.logs, s.logNumber, L);
    IncreasingSuffix(Replay(s.disk.logs, s.logNumber, L + 1), |Replay(s.disk.logs, s.logNumber, L)|, all);
    EndIsNewer(all, LogAt(TornLogs(s, n), L), LostLog(s, n));
  }

  /** Everything written and not lost is older than everything lost, and no newer than the torn
      log and the manifest say. */
  lemma LostIsNewest(s: Db, n: nat)
    requires HistoryOk(s) && Durable(s) && Covered(s) && TearsAt(s, n)
    ensures forall e :: e in Torn(s, n).history ==> e.key.sequence <= Shrunk(s, n).lastSequence
    ensures forall e, x :: e in Torn(s, n).history && x in LostLog(s, n) ==> e.key.sequence < x.key.sequence
    ensures Shrunk(s, n).lastSequence <= s.lastSequence
  {
    hide Folds, AddedOnce, AddsOk, HasTables, Flatten, MaxSequence, Increasing, LogAt, Without, TablesOk, Stored;
    ReplaySplits(s, n);
    var L, manifestLast, lost := s.logfileNumber, LastLastSequence(s.disk.manifest).value, LostLog(s, n);
    var log, kept := Replay(s.disk.logs, s.logNumber, L + 1), Replay(TornLogs(s, n), s.logNumber, L + 1);
    EndIsNewer(log, kept, lost);
    MaxSequenceFacts(kept, manifestLast);
    ShrunkBelow(kept, log, manifestLast);
    ReplayOne(s.disk.logs, s.logNumber, L);
    ElementsConcat(Replay(s.disk.logs, s.logNumber, L), LogAt(s.disk.logs, L));
    forall e | e in Torn(s, n).history
      ensures e.key.sequence <= MaxSequence(kept, manifestLast)
    {
      if e.key.sequence > manifestLast {
        assert e in Elements(log) && e in Elements(kept);
      }
    }
    forall e, x | e in Torn(s, n).history && x in lost
      ensures e.key.sequence < x.key.sequence
    {
      assert x in Elements(LogAt(s.disk.logs, L));
      if e in Elements(s.layers.mem) {
        assert e in Elements(log) && e in Elements(kept);
      }
    }
  }

  lemma ShrunkHistory(s: Db, n: nat)
    requires LayersOk(s) && HistoryOk(s) && Durable(s) && Covered(s) && TearsAt(s, n)
    ensures HistoryOk(Shrunk(s, n))
  {
    hide LayersOk, Durable, Stored, Covered, MaxSequence, Replay, LostLog, TornLogs, Without;
    ShrunkLayers(s, n);
    LostIsNewest(s, n);
  }

  // ----- the theorem -----

  /** If the end of the current log is lost in a crash, whatever a recovery may then do, it rebuilds
      all that was stored but for the batches of that end, in a state as good as any. */
  lemma TornRecovery(states: seq<Db>, steps: seq<Step>, n: nat, v0: Version, segments: seq<Batch>, files: seq<FileMeta>,
                     se: Edit, v': Version, newLog: nat, s': Db)
    requires Run(states, steps)
    requires var s := states[|steps|]; TearsAt(s, n) && RecoverStep(Torn(s, n), v0, segments, files, se, v', newLog, s')
    ensures var s := states[|steps|]; var lost := Elements(LostLog(s, n));
      && Stored(s'.layers) == Stored(s.layers) - lost
      && s'.history == s.history - lost
      && (forall e, x :: e in s'.history && x in lost ==> e.key.sequence < x.key.sequence)
      && Inv(s') && s'.lastSequence <= s.lastSequence
  {
    hide Folds, AddedOnce, AddsOk, HasTables, Durable, LayersOk, HistoryOk, Stored, Covered, MaxSequence, Replay, LostLog, TornLogs, Without, RecoveredFiles, TablesWith, SnapshotEdit;
    var s := states[|steps|];
    RunKeepsInv(states, steps, |steps|);
    RunCovered(states, steps, |steps|);
    var t := Shrunken(s, n);
    assert RecoverStep(t, v0, segments, files, se, v', newLog, s');
    RecoverKeeps(t, v0, segments, files, se, v', newLog, s');
  }

  lemma Shrunken(s: Db, n: nat) returns (t: Db)
    requires LayersOk(s) && HistoryOk(s) && Durable(s) && Covered(s) && TearsAt(s, n)
    ensures LayersOk(t) && HistoryOk(t) && Durable(t)
    ensures t.disk == Torn(s, n).disk && t.history == Torn(s, n).history && t.lastSequence <= s.lastSequence
    ensures Stored(t.layers) == Stored(s.layers) - Elements(LostLog(s, n))
    ensures forall e, x :: e in t.history && x in Elements(LostLog(s, n)) ==> e.key.sequence < x.key.sequence
  {
    hide Folds, AddedOnce, AddsOk, HasTables, LayersOk, HistoryOk, Stored, Covered, MaxSequence, Replay, LostLog, TornLogs, Without;
    t := Shrunk(s, n);
    ShrunkLayers(s, n);
    ShrunkHistory(s, n);
    ShrunkDurable(s, n);
    LostIsNewest(s, n);
  }

  /** After such a recovery a lookup reads what the crashed database held as of any sequence number
      between the last batch kept and the first one lost. */
  lemma TornReads(states: seq<Db>, steps: seq<Step>, n: nat, v0: Version, segments: seq<Batch>, files: seq<FileMeta>,
                  se: Edit, v': Version, newLog: nat, s': Db, k: UserKey, q: SequenceNumber)
    requires Run(states, steps)
    requires var s := states[|steps|]; TearsAt(s, n) && RecoverStep(Torn(s, n), v0, segments, files, se, v', newLog, s')
    requires forall e :: e in s'.history ==> e.key.sequence <= q
    requires forall x :: x in LostLog(states[|steps|], n) ==> q < x.key.sequence
    ensures View(Stored(s'.layers), k, s'.lastSequence) == View(Stored(states[|steps|].layers), k, q)
  {
    hide RecoverStep, Next, LayersOk, Durable, SnapshotsOk, Stored, View, Newest, LostLog;
    TornRecovery(states, steps, n, v0, segments, files, se, v', newLog, s');
    SameVisible(Stored(s'.layers), Stored(states[|steps|].layers), k, s'.lastSequence, q);
  }
}
