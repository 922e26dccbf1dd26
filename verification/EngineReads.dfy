/** Reads over whole runs: which steps keep every live snapshot's view equal to the history. */
module EngineReads {
  import opened Keys
  import opened Entries
  import opened Versions
  import opened Picking
  import opened Store
  import opened CompactionViews
  import opened Install
  import opened StoreSteps
  import opened Engine

  ghost predicate LayersOk(s: Db) {
    ValidLayers(s.layers) && DistinctNumbers(s.layers.version)
  }

  ghost predicate SequenceUnique(S: set<Entry>) {
    forall x, y :: x in S && y in S && x.key.sequence == y.key.sequence ==> x == y
  }

  ghost predicate HistoryOk(s: Db) {
    && s.lastSequence < MAX_SEQUENCE
    && (forall e :: e in s.history ==> e.key.sequence <= s.lastSequence)
    && SequenceUnique(s.history)
    && Stored(s.layers) <= s.history
  }

  ghost predicate SnapshotsOk(s: Db) {
    && (forall i, j :: 0 <= i < j < |s.snapshots| ==> s.snapshots[i] <= s.snapshots[j])
    && forall i :: 0 <= i < |s.snapshots| ==> s.snapshots[i] <= s.lastSequence
  }

  /** Every reader a live snapshot allows sees what the whole history says. */
  ghost predicate ReadsOk(s: Db) {
    SameViews(Stored(s.layers), s.history, SmallestSnapshot(s))
  }

  // ----- writes -----

  ghost predicate Increasing(es: seq<Entry>) {
    forall i, j :: 0 <= i < j < |es| ==> es[i].key.sequence < es[j].key.sequence
  }

  lemma StampFacts(ops: seq<Op>, first: nat)
    requires first + |ops| <= MAX_SEQUENCE
    ensures Increasing(Stamp(ops, first))
    ensures forall e :: e in Stamp(ops, first) ==> first <= e.key.sequence < first + |ops|
  {
  }

  /** Larger sequence numbers make newer entries. */
  lemma LaterIsNewer(N: set<Entry>, A: set<Entry>, bound: nat)
    requires forall e :: e in N ==> e.key.sequence > bound
    requires forall e :: e in A ==> e.key.sequence <= bound
    ensures Newer(N, A)
  {
  }

  lemma {:induction false} InsertAllFacts(mem: seq<Entry>, es: seq<Entry>, bound: nat)
    requires Sorted(mem) && Increasing(es)
    requires forall e :: e in mem ==> e.key.sequence <= bound
    requires forall e :: e in es ==> e.key.sequence > bound
    ensures Sorted(InsertAll(mem, es))
    ensures Elements(InsertAll(mem, es)) == Elements(mem) + Elements(es)
    decreases |es|
  {
    if es != [] {
      var mem' := Insert(mem, es[0]);
      InsertSorted(mem, es[0]);
      var b := es[0].key.sequence;
      forall e | e in mem'
        ensures e.key.sequence <= b
      {
        assert e in Elements(mem');
      }
      forall e | e in es[1..]
        ensures e.key.sequence > b
      {
        var i :| 0 <= i < |es[1..]| && es[1..][i] == e;
        assert es[i + 1] == e;
      }
      InsertAllFacts(mem', es[1..], b);
      assert es == [es[0]] + es[1..];
    } else {
      assert Elements(es) == {};
    }
  }

  /** A write keeps the layers ordered; its batch is newer than everything before it. */
  lemma WriteKeepsStore(s: Db, ops: seq<Op>, s': Db)
    requires LayersOk(s) && HistoryOk(s) && WriteStep(s, ops, s')
    ensures LayersOk(s')
    ensures Stored(s'.layers) == Stored(s.layers) + Elements(Stamp(ops, s.lastSequence + 1))
    ensures Elements(s'.layers.mem) == Elements(s.layers.mem) + Elements(Stamp(ops, s.lastSequence + 1))
  {
    var es := Stamp(ops, s.lastSequence + 1);
    StampFacts(ops, s.lastSequence + 1);
    LaterIsNewer(Elements(es), Stored(s.layers), s.lastSequence);
    forall e | e in s.layers.mem
      ensures e.key.sequence <= s.lastSequence
    {
      assert e in Stored(s.layers);
    }
    InsertAllFacts(s.layers.mem, es, s.lastSequence);
    WriteKeepsLayers(s.layers, s'.layers.mem, Elements(es));
  }

  lemma UniqueWithLater(H: set<Entry>, es: seq<Entry>, bound: nat)
    requires SequenceUnique(H) && Increasing(es)
    requires forall e :: e in H ==> e.key.sequence <= bound
    requires forall e :: e in es ==> e.key.sequence > bound
    ensures SequenceUnique(H + Elements(es))
  {
    forall x, y | x in H + Elements(es) && y in H + Elements(es) && x.key.sequence == y.key.sequence
      ensures x == y
    {
      if x in Elements(es) && y in Elements(es) {
        var i :| 0 <= i < |es| && es[i] == x;
        var j :| 0 <= j < |es| && es[j] == y;
      }
    }
  }

  lemma WriteKeepsHistory(s: Db, ops: seq<Op>, s': Db)
    requires LayersOk(s) && HistoryOk(s) && WriteStep(s, ops, s')
    ensures HistoryOk(s')
  {
    hide ValidLayers, Stored, SequenceUnique, Increasing, DistinctNumbers, InsertAll, Elements;
    var es := Stamp(ops, s.lastSequence + 1);
    StampFacts(ops, s.lastSequence + 1);
    WriteKeepsStore(s, ops, s');
    UniqueWithLater(s.history, es, s.lastSequence);
    HistoryGrows(s.history, Stored(s.layers), es, s.lastSequence, s'.lastSequence);
  }

  lemma HistoryGrows(H: set<Entry>, S: set<Entry>, es: seq<Entry>, last: nat, last': nat)
    requires S <= H && last <= last'
    requires forall e :: e in H ==> e.key.sequence <= last
    requires forall e :: e in es ==> e.key.sequence <= last'
    ensures S + Elements(es) <= H + Elements(es)
    ensures forall e :: e in H + Elements(es) ==> e.key.sequence <= last'
  {
  }

  lemma SequenceUniqueKeys(S: set<Entry>)
    requires SequenceUnique(S)
    ensures forall T :: T <= S ==> UniqueKeys(T)
  {
  }

  lemma WriteKeepsReads(s: Db, ops: seq<Op>, s': Db)
    requires LayersOk(s) && HistoryOk(s) && WriteStep(s, ops, s')
    requires ReadsOk(s)
    ensures ReadsOk(s')
  {
    var es := Stamp(ops, s.lastSequence + 1);
    var N := Elements(es);
    StampFacts(ops, s.lastSequence + 1);
    WriteKeepsStore(s, ops, s');
    WriteKeepsHistory(s, ops, s');
    LaterIsNewer(N, s.history, s.lastSequence);
    NewerSubset(N, s.history, N, Stored(s.layers));
    SequenceUniqueKeys(s'.history);
    SameViewsWithNewer(Stored(s.layers), s.history, N, SmallestSnapshot(s), SmallestSnapshot(s'));
  }

  lemma SameViewsWithNewer(A: set<Entry>, B: set<Entry>, N: set<Entry>, ss: SequenceNumber, ss': SequenceNumber)
    requires SameViews(A, B, ss) && ss <= ss'
    requires Newer(N, A) && Newer(N, B) && UniqueKeys(N)
    ensures SameViews(A + N, B + N, ss')
  {
    forall k: UserKey, s: SequenceNumber | s >= ss'
      ensures View(A + N, k, s) == View(B + N, k, s)
    {
      assert View(A, k, s) == View(B, k, s);
      ViewWithNewer(A, B, N, k, s);
    }
  }

  // ----- all steps but recovery -----

  lemma SnapshotsNext(s: Db, step: Step, s': Db)
    requires SnapshotsOk(s) && Next(s, step, s')
    ensures SnapshotsOk(s')
    ensures !step.CrashAndRecover? ==> SmallestSnapshot(s) <= SmallestSnapshot(s')
  {
    hide WellChosen, ValidFile, Disjoint, LevelEntries, Survivors, MayAddAt, RecoveredFiles, SnapshotEdit, Replay, MaxSequence,
         Stamp, InsertAll, Filled, LiveNumbers, TablesWith;
  }

  /** A compaction step has outputs the install lemmas accept. */
  lemma CompactOutputsGood(s: Db, c: Compaction, outs: seq<FileMeta>, v': Version, s': Db)
    requires CompactStep(s, c, outs, v', s')
    requires forall l: nat, f :: 0 <= l < |s.layers.version| && f in s.layers.version[l] ==> f.number !in s.pending
    ensures GoodOutputs(s.layers.version, c, outs)
  {
  }

  lemma MoveOutputsGood(v: Version, c: Compaction)
    requires ValidVersion(v) && DistinctNumbers(v) && WellChosen(v, c)
    requires |c.inputs0| == 1 && c.inputs1 == []
    ensures GoodOutputs(v, c, c.inputs0)
    ensures LevelEntries(c.inputs0) == InputEntries(c)
  {
    SingleFileGood(v, c, c.inputs0[0]);
    assert LevelEntries(c.inputs1) == {};
  }

  lemma SingleFileGood(v: Version, c: Compaction, f: FileMeta)
    requires c.inputs0 == [f] && c.level < |v| && f in v[c.level]
    requires DistinctNumbers(v)
    ensures forall o, l: nat, g :: o in c.inputs0 && 0 <= l < |v| && g in v[l] && g.number == o.number ==> IsInput(c, l, g)
  {
  }

  /** No file of the current version is pending. */
  ghost predicate PendingFresh(s: Db) {
    && (forall l: nat, f :: 0 <= l < |s.layers.version| && f in s.layers.version[l] ==> f.number !in s.pending)
    && (forall l: nat, f :: 0 <= l < |s.layers.version| && f in s.layers.version[l] ==> f.number < s.nextFile)
  }

  lemma StoreNext(s: Db, step: Step, s': Db)
    requires LayersOk(s) && HistoryOk(s) && PendingFresh(s) && Next(s, step, s')
    requires !step.CrashAndRecover?
    ensures LayersOk(s')
    ensures HistoryOk(s')
    ensures !step.Write? && !step.Compact? ==> Stored(s'.layers) == Stored(s.layers)
    ensures !step.Write? ==> s'.history == s.history
  {
    match step
    case Write(ops) =>
      WriteKeepsStore(s, ops, s');
      WriteKeepsHistory(s, ops, s');
    case Switch =>
      SwitchKeepsLayers(s.layers);
    case Flush(level, f, v') =>
      FlushKeepsLayers(s.layers, level, f, v');
    case FlushEmpty =>
      FlushEmptyKeepsLayers(s.layers);
    case Compact(c, outs, v') =>
      CompactOutputsGood(s, c, outs, v', s');
      InstallKeepsLayers(s.layers, c, outs, v');
    case Move(c, v') =>
      MoveOutputsGood(s.layers.version, c);
      InstallKeepsLayers(s.layers, c, c.inputs0, v');
    case _ =>
  }

  lemma SameViewsTrans(A: set<Entry>, B: set<Entry>, C: set<Entry>, ss: SequenceNumber)
    requires SameViews(A, B, ss) && SameViews(A, C, ss)
    ensures SameViews(B, C, ss)
  {
    forall k: UserKey, s: SequenceNumber | s >= ss
      ensures View(B, k, s) == View(C, k, s)
    {
      assert View(A, k, s) == View(B, k, s) && View(A, k, s) == View(C, k, s);
    }
  }

  lemma SameViewsLater(A: set<Entry>, B: set<Entry>, ss: SequenceNumber, ss': SequenceNumber)
    requires SameViews(A, B, ss) && ss <= ss'
    ensures SameViews(A, B, ss')
  {
  }

  /** Every step but recovery keeps the readers' views, compactions when they resurrect nothing. */
  lemma ReadsNext(s: Db, step: Step, s': Db)
    requires LayersOk(s) && HistoryOk(s) && PendingFresh(s) && SnapshotsOk(s) && Next(s, step, s')
    requires !step.CrashAndRecover?
    requires ReadsOk(s) && Careful(s, step)
    ensures ReadsOk(s')
  {
    SnapshotsNext(s, step, s');
    StoreNext(s, step, s');
    if step.Write? {
      WriteKeepsReads(s, step.ops, s');
    } else {
      if step.Compact? {
        CompactOutputsGood(s, step.c, step.outs, step.version, s');
        SequenceUniqueKeys(s.history);
        CompactionExact(s.layers, step.c, SmallestSnapshot(s), step.outs, step.version);
        SameViewsTrans(Stored(s.layers), Stored(s'.layers), s.history, SmallestSnapshot(s));
      }
      SameViewsLater(Stored(s'.layers), s'.history, SmallestSnapshot(s), SmallestSnapshot(s'));
    }
  }

  /** A careless compaction breaks a read at once: the condition of ReadsNext is exact. */
  lemma CarelessBreaksReads(s: Db, c: Compaction, outs: seq<FileMeta>, v': Version, s': Db)
    requires LayersOk(s) && HistoryOk(s) && PendingFresh(s) && CompactStep(s, c, outs, v', s')
    requires ReadsOk(s)
    ensures SameViews(Stored(s'.layers), s'.history, SmallestSnapshot(s)) <==> NothingResurrected(s.layers, c, SmallestSnapshot(s))
  {
    CompactOutputsGood(s, c, outs, v', s');
    SequenceUniqueKeys(s.history);
    CompactionExact(s.layers, c, SmallestSnapshot(s), outs, v');
    var A, B, H, ss := Stored(s.layers), Stored(s'.layers), s.history, SmallestSnapshot(s);
    if SameViews(A, B, ss) {
      SameViewsTrans(A, B, H, ss);
    }
    if SameViews(B, H, ss) {
      SameViewsSym(A, H, ss);
      SameViewsSym(B, H, ss);
      SameViewsTrans(H, A, B, ss);
    }
  }

  lemma SameViewsSym(A: set<Entry>, B: set<Entry>, ss: SequenceNumber)
    requires SameViews(A, B, ss)
    ensures SameViews(B, A, ss)
  {
    forall k: UserKey, s: SequenceNumber | s >= ss
      ensures View(B, k, s) == View(A, k, s)
    {
      assert View(A, k, s) == View(B, k, s);
    }
  }
}
