/** The database object: its methods change the fields in place, and each call is a step, or a
    short run of steps, of the engine (db_impl.cc). */
module DbImpls {
  import opened Keys
  import opened Options
  import opened Entries
  import opened Versions
  import opened Overlap
  import opened Selection
  import opened Picking
  import opened VersionBuilder
  import opened Store
  import opened CompactionViews
  import opened Install
  import opened CompactionWork
  import opened OutputCuts
  import opened StoreSteps
  import opened Engine
  import opened EngineReads
  import opened EngineDurable
  import EngineSafety
  import EngineRecovery
  import EngineRuns
  import CompactionRules
  import ChoiceUnique
  import Manifest
  import opened LogRecovery

  const L0_STOP_WRITES_TRIGGER: nat := 12

  /** The steps lead from `s` to `s'`. */
  ghost predicate Leads(s: Db, steps: seq<Step>, s': Db) {
    if steps == [] then s' == s
    else exists m :: Leads(s, steps[..|steps| - 1], m) && Next(m, LastStep(steps), s')
  }

  function LastStep(steps: seq<Step>): Step
    requires steps != []
  {
    steps[|steps| - 1]
  }

  lemma LeadsMore(s: Db, steps: seq<Step>, m: Db, step: Step, s': Db)
    requires Leads(s, steps, m) && Next(m, step, s')
    ensures Leads(s, steps + [step], s')
  {
    hide Next;
    assert (steps + [step])[..|steps|] == steps && LastStep(steps + [step]) == step;
  }

  lemma {:induction false} LeadsReached(s: Db, steps: seq<Step>, s': Db)
    requires EngineRuns.Reached(s) && Leads(s, steps, s')
    ensures EngineRuns.Reached(s')
  {
    hide Next, EngineRuns.Reached;
    if steps != [] {
      var n := |steps| - 1;
      var m :| Leads(s, steps[..n], m) && Next(m, LastStep(steps), s');
      LeadsReached(s, steps[..n], m);
      EngineRuns.ReachedNext(m, LastStep(steps), s');
    }
  }

  // ----- single steps -----

  lemma Wrote(s: Db, ops: seq<Op>, s': Db)
    requires EngineRuns.Reached(s) && WriteStep(s, ops, s')
    ensures Next(s, Step.Write(ops), s') && EngineRuns.Reached(s')
  {
    EngineRuns.ReachedNext(s, Step.Write(ops), s');
  }

  lemma Switched(s: Db, s': Db)
    requires EngineRuns.Reached(s) && SwitchStep(s, s')
    ensures Next(s, Switch, s') && EngineRuns.Reached(s')
  {
    EngineRuns.ReachedNext(s, Switch, s');
  }

  lemma Flushed(s: Db, level: nat, f: FileMeta, v': Version, s': Db)
    requires EngineRuns.Reached(s) && FlushStep(s, level, f, v', s')
    ensures Next(s, Flush(level, f, v'), s') && EngineRuns.Reached(s')
  {
    EngineRuns.ReachedNext(s, Flush(level, f, v'), s');
  }

  lemma FlushedNothing(s: Db, s': Db)
    requires EngineRuns.Reached(s) && FlushEmptyStep(s, s')
    ensures Next(s, FlushEmpty, s') && EngineRuns.Reached(s')
  {
    EngineRuns.ReachedNext(s, FlushEmpty, s');
  }

  lemma Began(s: Db, es: seq<Entry>, s': Db)
    requires EngineRuns.Reached(s) && BeginTableStep(s, es, s')
    ensures Next(s, BeginTable(es), s') && EngineRuns.Reached(s')
  {
    EngineRuns.ReachedNext(s, BeginTable(es), s');
  }

  lemma Compacted(s: Db, c: Compaction, outs: seq<FileMeta>, v': Version, s': Db)
    requires EngineRuns.Reached(s) && CompactStep(s, c, outs, v', s')
    ensures Next(s, Compact(c, outs, v'), s') && EngineRuns.Reached(s')
  {
    EngineRuns.ReachedNext(s, Compact(c, outs, v'), s');
  }

  lemma Moved(s: Db, c: Compaction, v': Version, s': Db)
    requires EngineRuns.Reached(s) && MoveStep(s, c, v', s')
    ensures Next(s, Move(c, v'), s') && EngineRuns.Reached(s')
  {
    EngineRuns.ReachedNext(s, Move(c, v'), s');
  }

  lemma Snapped(s: Db, s': Db)
    requires EngineRuns.Reached(s) && SnapshotStep(s, s')
    ensures Next(s, TakeSnapshot, s') && EngineRuns.Reached(s')
  {
    EngineRuns.ReachedNext(s, TakeSnapshot, s');
  }

  lemma Released(s: Db, i: nat, s': Db)
    requires EngineRuns.Reached(s) && ReleaseStep(s, i, s')
    ensures Next(s, ReleaseSnapshot(i), s') && EngineRuns.Reached(s')
  {
    EngineRuns.ReachedNext(s, ReleaseSnapshot(i), s');
  }

  lemma Pinned(s: Db, s': Db)
    requires EngineRuns.Reached(s) && PinStep(s, s')
    ensures Next(s, Pin, s') && EngineRuns.Reached(s')
  {
    EngineRuns.ReachedNext(s, Pin, s');
  }

  lemma Unpinned(s: Db, i: nat, s': Db)
    requires EngineRuns.Reached(s) && UnpinStep(s, i, s')
    ensures Next(s, Unpin(i), s') && EngineRuns.Reached(s')
  {
    EngineRuns.ReachedNext(s, Unpin(i), s');
  }

  lemma Collected(s: Db, s': Db)
    requires EngineRuns.Reached(s) && CollectStep(s, s')
    ensures Next(s, Collect, s') && EngineRuns.Reached(s')
  {
    EngineRuns.ReachedNext(s, Collect, s');
  }

  lemma LeadsNowhere(s: Db)
    ensures Leads(s, [], s)
  {
  }

  lemma ChosenLevel(v: Version, c: Compaction)
    requires WellChosen(v, c)
    ensures |v| == NUM_LEVELS && c.level + 1 < NUM_LEVELS
  {
  }

  lemma VersionIsValid(s: Db)
    requires EngineRuns.Reached(s)
    ensures ValidVersion(s.layers.version) && |s.layers.version| == NUM_LEVELS
  {
    EngineRuns.ReachedInv(s);
  }

  lemma MovedFileIsFresh(s: Db, c: Compaction)
    requires EngineRuns.Reached(s) && WellChosen(s.layers.version, c) && |c.inputs0| == 1
    ensures FreshAdds(s.layers.version, InstallEdit(c, c.inputs0))
  {
    EngineRuns.ReachedInv(s);
    var f := c.inputs0[0];
    assert f in s.layers.version[c.level];
    FreshInstall(s.layers.version, c, c.inputs0);
  }

  lemma ReadyToCompact(s: Db, c: Compaction)
    requires EngineRuns.Reached(s) && WellChosen(s.layers.version, c)
    ensures ValidVersion(s.layers.version)
    ensures ValidFiles(c.inputs0 + c.inputs1) && UniqueKeys(LevelEntries(c.inputs0 + c.inputs1))
    ensures LevelEntries(c.inputs0 + c.inputs1) == InputEntries(c) && SequenceUnique(InputEntries(c))
    ensures SmallestSnapshot(s) < MAX_SEQUENCE
  {
    EngineRuns.ReachedInv(s);
    hide Durable, WellChosen, LevelEntries, InputEntries, Stored, DistinctNumbers;
    InputsInVersion(s.layers.version, c);
    InputsStored(s.layers, c);
    SequenceUniqueKeys(s.history);
  }

  lemma InputsInVersion(v: Version, c: Compaction)
    requires ValidVersion(v) && WellChosen(v, c)
    ensures Subset(c.inputs0, v[c.level]) && Subset(c.inputs1, v[c.level + 1])
    ensures ValidFiles(c.inputs0 + c.inputs1)
  {
    var _, _ := ParentsFacts(v[c.level + 1], c.inputs0, c.inputs1);
  }

  lemma InputsStored(st: Layers, c: Compaction)
    requires |st.version| == NUM_LEVELS && c.level + 1 < NUM_LEVELS
    requires Subset(c.inputs0, st.version[c.level]) && Subset(c.inputs1, st.version[c.level + 1])
    ensures LevelEntries(c.inputs0 + c.inputs1) == InputEntries(c) <= Stored(st)
  {
    forall e | e in LevelEntries(c.inputs0 + c.inputs1)
      ensures e in InputEntries(c) && e in Stored(st)
    {
      var f :| f in c.inputs0 + c.inputs1 && e in FileEntries(f);
      var l := if f in c.inputs0 then c.level else c.level + 1;
      assert f in st.version[l];
      assert e in LevelEntries(st.version[l]);
      assert e in VersionEntries(st.version);
    }
    forall e | e in InputEntries(c)
      ensures e in LevelEntries(c.inputs0 + c.inputs1)
    {
      var f :| (f in c.inputs0 || f in c.inputs1) && e in FileEntries(f);
      assert f in c.inputs0 + c.inputs1;
    }
  }

  lemma Reopened(s: Db, v0: Version, segments: seq<Batch>, files: seq<FileMeta>, e: Edit, v': Version, newLog: nat, s': Db)
    requires EngineRuns.Reached(s) && RecoverStep(s, v0, segments, files, e, v', newLog, s')
    ensures Next(s, CrashAndRecover(v0, segments, files, e, v', newLog), s') && EngineRuns.Reached(s')
    ensures Stored(s'.layers) == Stored(s.layers) && s'.lastSequence == s.lastSequence
  {
    hide RecoverStep, Stored, LayersOk, HistoryOk, Durable;
    EngineRuns.ReachedNext(s, CrashAndRecover(v0, segments, files, e, v', newLog), s');
    EngineRuns.ReachedInv(s);
    EngineRecovery.RecoverKeeps(s, v0, segments, files, e, v', newLog, s');
  }

  /** What the manifest of a reachable state replays to. */
  lemma Recoverable(s: Db)
    requires EngineRuns.Reached(s)
    ensures var m := s.disk.manifest;
      && Manifest.Folds(m, s.layers.version) && Manifest.AddedOnce(m) && SortedVersion(s.layers.version)
      && Manifest.LastLogNumber(m) == Some(s.logNumber) && Manifest.LastLastSequence(m).Some?
      && Manifest.LastNextFile(m).Some? && NumbersBelow(s.layers.version, Manifest.LastNextFile(m).value)
      && |s.layers.version| == NUM_LEVELS
  {
    EngineRuns.ReachedInv(s);
    EngineSafety.VersionIsAdded(s);
    Manifest.FoldsShape(s.disk.manifest, s.layers.version);
  }

  lemma LogIncreasing(s: Db, bound: nat)
    requires EngineRuns.Reached(s) && forall n :: n in s.disk.logs ==> n < bound
    ensures Increasing(Replay(s.disk.logs, s.logNumber, bound))
  {
    EngineRuns.ReachedInv(s);
    EngineRecovery.LogHoldsMemory(s, bound);
  }

  lemma LogsBelow(s: Db, lo: nat, bound: nat, newLog: nat)
    requires (forall n :: n in s.disk.logs ==> n < bound) && bound <= newLog
    ensures Replay(s.disk.logs, lo, newLog) == Replay(s.disk.logs, lo, bound)
    decreases newLog
  {
    if bound < newLog {
      LogsBelow(s, lo, bound, newLog - 1);
      assert newLog - 1 !in s.disk.logs;
      if lo < newLog {
        assert Replay(s.disk.logs, lo, newLog - 1) + [] == Replay(s.disk.logs, lo, newLog - 1);
      }
    }
  }

  // ----- the numbers an edit may add -----

  /** The file to be written next is newer than every file of the version. */
  lemma NextIsFresh(s: Db)
    requires EngineRuns.Reached(s)
    ensures |s.layers.version| == NUM_LEVELS && SortedVersion(s.layers.version)
    ensures NumbersBelow(s.layers.version, s.nextFile) && PendingFresh(s)
  {
    EngineRuns.ReachedInv(s);
    EngineSafety.VersionIsAdded(s);
  }

  lemma FreshFile(v: Version, level: nat, f: FileMeta)
    requires |v| == NUM_LEVELS && level < NUM_LEVELS && NumbersBelow(v, f.number)
    ensures FreshAdds(v, AddEdit(level, f))
  {
    forall p, g | p in AddEdit(level, f).added && g in v[p.0]
      ensures g.number != p.1.number
    {
      assert p == (level, f);
    }
  }

  lemma FreshInstall(v: Version, c: Compaction, outs: seq<FileMeta>)
    requires |v| == NUM_LEVELS && c.level + 1 < NUM_LEVELS
    requires forall o, g :: o in outs && g in v[c.level + 1] ==> g.number != o.number
    requires forall i, j :: 0 <= i < j < |outs| ==> outs[i].number != outs[j].number
    ensures FreshAdds(v, InstallEdit(c, outs))
  {
    var e := InstallEdit(c, outs);
    PlacedMembers(c.level + 1, outs);
    forall p, q | p in e.added && q in e.added && p.0 == q.0 && p.1.number == q.1.number
      ensures p == q
    {
      var i :| 0 <= i < |outs| && (c.level + 1, outs[i]) == p;
      var j :| 0 <= j < |outs| && (c.level + 1, outs[j]) == q;
    }
    forall p, g | p in e.added && g in v[p.0]
      ensures g.number != p.1.number
    {
      var i :| 0 <= i < |outs| && (c.level + 1, outs[i]) == p;
      assert outs[i] in outs;
    }
  }

  /** A table of the immutable memtable. */
  lemma TableFits(v: Version, level: nat, f: FileMeta)
    requires ValidFile(f) && |v| == NUM_LEVELS && level <= MAX_MEM_COMPACT_LEVEL && NumbersBelow(v, f.number)
    requires level > 0 ==> forall l :: 0 <= l <= level ==> NoFileMeets(v[l], f.smallest.user, f.largest.user)
    ensures MayAddAt(v, level, f)
  {
  }

  /** The entries of the input files in order, as the merging iterator over them yields. */
  method MakeInput(files: seq<FileMeta>) returns (input: seq<Entry>)
    requires ValidFiles(files) && UniqueKeys(LevelEntries(files))
    ensures Sorted(input) && Elements(input) == LevelEntries(files)
  {
    hide Sorted, Insert, ValidFile;
    input := [];
    NoEntries();
    for i := 0 to |files|
      invariant Sorted(input) && Elements(input) == LevelEntries(files[..i])
    {
      var es := files[i].entries;
      ghost var before := LevelEntries(files[..i]);
      for j := 0 to |es|
        invariant Sorted(input) && Elements(input) == before + Elements(es[..j])
      {
        FileEntry(files, i, j);
        input := AddOnce(input, es[j], LevelEntries(files));
      }
      MoreEntries(files, i);
    }
    assert files[..|files|] == files;
  }

  method AddOnce(input: seq<Entry>, e: Entry, ghost all: set<Entry>) returns (r: seq<Entry>)
    requires Sorted(input) && UniqueKeys(all) && Elements(input) <= all && e in all
    ensures Sorted(r) && Elements(r) == Elements(input) + {e}
  {
    r := input;
    assert forall x :: x in input <==> x in Elements(input);
    if e !in input {
      InsertSorted(input, e);
      r := Insert(input, e);
    }
  }

  /** The step of a background compaction: the one its trigger leads to, with the file it points at
      among the inputs. It is a move exactly if one file meets nothing in the next level and few
      enough bytes in the level after that. */
  ghost predicate Background(v: Version, t: Trigger, maxFileSize: nat, step: Step)
    requires |v| == NUM_LEVELS && t.level + 1 < NUM_LEVELS
  {
    && (step.Compact? || step.Move?)
    && step.c.level == t.level
    && Picks(v, t, maxFileSize, step.c)
    && WellChosen(v, step.c) && Completed(v, step.c)
    && (t.SeekTrigger? ==> t.file in step.c.inputs0)
    && (t.SizeTrigger? ==> exists i: nat :: StartsAt(v[t.level], t.pointer, i) && v[t.level][i] in step.c.inputs0)
    && (step.Move? <==> |step.c.inputs0| == 1 && step.c.inputs1 == [] && TotalFileSize(step.c.grandparents) <= 10 * maxFileSize)
  }

  lemma BackgroundIntro(v: Version, t: Trigger, maxFileSize: nat, c: Compaction)
    requires |v| == NUM_LEVELS && t.level + 1 < NUM_LEVELS && c.level == t.level
    requires Picks(v, t, maxFileSize, c) && WellChosen(v, c) && Completed(v, c)
    requires t.SeekTrigger? ==> t.file in c.inputs0
    requires t.SizeTrigger? ==> exists i: nat :: StartsAt(v[t.level], t.pointer, i) && v[t.level][i] in c.inputs0
    ensures IsTrivialMove(c, maxFileSize) ==> forall v' :: Background(v, t, maxFileSize, Move(c, v'))
    ensures !IsTrivialMove(c, maxFileSize) ==> forall outs, v' :: Background(v, t, maxFileSize, Compact(c, outs, v'))
  {
    hide Picks, WellChosen, Completed, StartsAt;
  }

  /** What a manual compaction goes on with: `rest` is the end of its last input, and every file that
      meets the range was compacted or meets what is left of the range. */
  ghost predicate Leaves(files: seq<FileMeta>, b: Bound, e: Bound, c: Compaction, rest: Bound) {
    && c.inputs0 != [] && rest == Some(c.inputs0[|c.inputs0| - 1].largest.user)
    && forall g :: g in files && Meets(g, b, e) && g !in c.inputs0 ==> Meets(g, rest, e)
  }

  /** The step of a manual compaction. */
  ghost predicate Manual(v: Version, level: nat, b: Bound, e: Bound, maxFileSize: nat, step: Step, rest: Bound)
    requires level + 1 < |v|
  {
    && step.Compact?
    && RangeChoice(v, level, b, e, maxFileSize, Some(step.c))
    && Leaves(v[level], b, e, step.c, rest)
  }

  lemma ManualIntro(v: Version, level: nat, b: Bound, e: Bound, maxFileSize: nat, c: Compaction, rest: Bound)
    requires ValidVersion(v) && level + 1 < NUM_LEVELS && RangeChoice(v, level, b, e, maxFileSize, Some(c))
    requires c.inputs0 != [] && rest == Some(c.inputs0[|c.inputs0| - 1].largest.user)
    ensures |v| == NUM_LEVELS && forall outs, v' :: Manual(v, level, b, e, maxFileSize, Compact(c, outs, v'), rest)
  {
    RangeIsChosen(v, level, b, e, maxFileSize, c);
    LeavesRest(v, level, b, e, c, rest);
    hide RangeChoice, Leaves;
  }

  /** The files to compact in a range, and where the range goes on. */
  method ChooseRange(v: Version, level: nat, b: Bound, e: Bound, maxFileSize: nat) returns (c: Option<Compaction>, rest: Bound)
    requires ValidVersion(v) && level + 1 < NUM_LEVELS
    ensures |v| == NUM_LEVELS && (c.None? <==> forall f :: f in v[level] ==> !Meets(f, b, e))
    ensures c.Some? ==> WellChosen(v, c.value)
    ensures c.Some? ==> forall outs, v' :: Manual(v, level, b, e, maxFileSize, Compact(c.value, outs, v'), rest)
  {
    hide ValidVersion, Manual, RangeChoice, WellChosen, Meets;
    c := CompactRange(v, level, b, e, maxFileSize);
    rest := b;
    VersionLevels(v);
    ChoiceUnique.RangeNoneIff(v, level, b, e, maxFileSize, c);
    if c.Some? {
      RangeIsChosen(v, level, b, e, maxFileSize, c.value);
      rest := Some(c.value.inputs0[|c.value.inputs0| - 1].largest.user);
      ManualIntro(v, level, b, e, maxFileSize, c.value, rest);
    }
  }

  lemma VersionLevels(v: Version)
    requires ValidVersion(v)
    ensures |v| == NUM_LEVELS
  {
  }

  /** The outputs are those of the sorted inputs, cut in front of the entries before which ten times
      the file size in bytes have ended two levels down, and behind those that fill a file. */
  ghost predicate CutAsMarked(c: Compaction, outs: seq<FileMeta>, ss: SequenceNumber, v: Version, firstNumber: nat, maxFileSize: nat,
                              fullAt: nat -> bool, sizeOf: seq<Entry> -> nat) {
    exists input :: Sorted(input) && Elements(input) == InputEntries(c)
      && var cuts := Cuts(Marks(c.grandparents, 10 * maxFileSize, input, |input|).0, seq(|input|, i requires 0 <= i => fullAt(i)), firstNumber, sizeOf);
        var p := Outputs(input, |input|, ss, v, c.level, cuts); outs == Finished(p.0, p.1, cuts)
  }

  lemma RangeIsChosen(v: Version, level: nat, b: Bound, e: Bound, maxFileSize: nat, c: Compaction)
    requires level + 1 < |v| && RangeChoice(v, level, b, e, maxFileSize, Some(c))
    ensures WellChosen(v, c) && c.level == level && c.inputs0 != []
    ensures level == 0 ==> forall f :: f in v[0] && Meets(f, b, e) ==> f in c.inputs0
    ensures level > 0 ==> exists n: nat :: 0 < n <= |Filter(v[level], b, e)| && Subset(Filter(v[level], b, e)[..n], c.inputs0)
  {
    hide ParentsOf, LeftBehindNewer, SetUp, Contiguous, TouchClosed, Completed, Meets;
  }

  lemma LeavesRest(v: Version, level: nat, b: Bound, e: Bound, c: Compaction, rest: Bound)
    requires ValidVersion(v) && level + 1 < NUM_LEVELS && WellChosen(v, c) && c.level == level && c.inputs0 != []
    requires level == 0 ==> forall f :: f in v[0] && Meets(f, b, e) ==> f in c.inputs0
    requires level > 0 ==> exists n: nat :: 0 < n <= |Filter(v[level], b, e)| && Subset(Filter(v[level], b, e)[..n], c.inputs0)
    requires rest == Some(c.inputs0[|c.inputs0| - 1].largest.user)
    ensures Leaves(v[level], b, e, c, rest)
  {
    if level > 0 {
      var files, h := v[level], c.inputs0[|c.inputs0| - 1];
      var n: nat :| 0 < n <= |Filter(files, b, e)| && Subset(Filter(files, b, e)[..n], c.inputs0);
      forall g | g in files && Meets(g, b, e) && g !in c.inputs0
        ensures Meets(g, rest, e)
      {
        BeyondInputs(files, b, e, c.inputs0, n, g, h);
      }
    }
  }

  /** A file past the selected prefix starts after every input ends. */
  lemma BeyondInputs(files: seq<FileMeta>, b: Bound, e: Bound, inputs: seq<FileMeta>, n: nat, g: FileMeta, h: FileMeta)
    requires ValidFiles(files) && Disjoint(files) && Subset(inputs, files) && Contiguous(files, inputs)
    requires 0 < n <= |Filter(files, b, e)| && Subset(Filter(files, b, e)[..n], inputs)
    requires g in files && Meets(g, b, e) && g !in inputs && h in inputs
    ensures h.largest.user <= g.smallest.user <= g.largest.user
  {
    var r := Filter(files, b, e);
    FilterMembers(files, b, e);
    FilterDisjoint(files, b, e);
    var f, j := r[0], 0;
    assert f in r[..n] && f in inputs;
    var q :| 0 <= q < |r| && r[q] == g;
    assert Less(f.largest, g.smallest);
    FileIsRange(g);
    DisjointApart(files, g, h);
  }

  class DBImpl {
    const maxFileSize: nat
    var mem: seq<Entry>
    var imm: Option<seq<Entry>>
    var version: Version
    var lastSequence: SequenceNumber
    var snapshots: seq<SequenceNumber>
    var manifest: seq<Edit>
    var logs: map<nat, seq<Batch>>
    var tables: map<nat, seq<Entry>>
    var logfileNumber: nat
    var logNumber: nat
    var nextFile: nat
    var pendingOutputs: set<nat>
    var pinned: seq<Version>
    ghost var history: set<Entry>

    ghost function State(): Db
      reads this
    {
      Db(Layers(mem, imm, version), lastSequence, snapshots, Disk(manifest, logs, tables),
         logfileNumber, logNumber, nextFile, pendingOutputs, pinned, history)
    }

    ghost predicate Valid()
      reads this
    {
      EngineRuns.Reached(State())
    }

    function NumLevelFiles(level: nat): nat
      reads this
    {
      if level < |version| then |version[level]| else 0
    }

    /** A new database, as NewDB and the first open leave it. */
    constructor (maxFileSize: nat)
      ensures State() == INITIAL && Valid() && this.maxFileSize == maxFileSize
    {
      this.maxFileSize := maxFileSize;
      mem, imm, version, lastSequence, snapshots := [], None, Manifest.EMPTY_VERSION, 0, [];
      manifest, logs, tables := [EMPTY_EDIT, Filled(EMPTY_EDIT, 3, 4, 0)], map[3 := []], map[];
      logfileNumber, logNumber, nextFile := 3, 3, 4;
      pendingOutputs, pinned, history := {}, [], {};
      new;
      EngineRuns.ReachedInitial();
    }

    // ----- reads -----

    /** DBImpl::Get. */
    method Get(k: UserKey, snapshot: Option<SequenceNumber>) returns (r: Option<Bytes>)
      requires Valid()
      ensures var at := if snapshot.Some? then snapshot.value else lastSequence;
        && r == View(Stored(State().layers), k, at)
        && (ReadsOk(State()) && (snapshot.Some? ==> snapshot.value in snapshots) ==> r == View(history, k, at))
    {
      EngineRuns.ReachedInv(State());
      var at := if snapshot.Some? then snapshot.value else lastSequence;
      r := LayeredGet(Layers(mem, imm, version), k, at);
      assert (snapshot.Some? ==> snapshot.value in snapshots) ==> at >= SmallestSnapshot(State());
    }

    // ----- writes -----

    /** The part of Write under the lock of the front writer: log record, memtable, sequence. */
    method Write(ops: seq<Op>)
      requires Valid() && lastSequence + |ops| < MAX_SEQUENCE
      modifies this
      ensures Next(old(State()), Step.Write(ops), State()) && Valid()
    {
      hide EngineRuns.Reached, Stamp, Next, InsertAll, Elements;
      assert logfileNumber in logs by {
        LogIsOpen(State());
      }
      var es := Stamp(ops, lastSequence + 1);
      logs := logs[logfileNumber := logs[logfileNumber] + [es]];
      mem := InsertInto(mem, es);
      lastSequence := lastSequence + |ops|;
      history := history + Elements(es);
      Wrote(old(State()), ops, State());
    }

    lemma LogIsOpen(s: Db)
      requires EngineRuns.Reached(s)
      ensures s.logfileNumber in s.disk.logs
    {
      EngineRuns.ReachedInv(s);
    }

    /** MakeRoomForWrite, one turn of its loop after the slowdown: true when the write may go on.
        Otherwise it has switched memtables, or it has to wait for a compaction. */
    method MakeRoomForWrite(force: bool, memtableFull: bool) returns (room: bool)
      requires Valid()
      modifies this
      ensures Valid() && room == (!force && !memtableFull)
      ensures room || old(imm).Some? || old(NumLevelFiles(0)) >= 12 ==> unchanged(this)
      ensures !room && old(imm).None? && old(NumLevelFiles(0)) < 12 ==> Next(old(State()), Switch, State())
    {
      hide DBImpl.Valid, Next;
      if !force && !memtableFull {
        return true;
      } else if imm.Some? {
        return false;
      } else if NumLevelFiles(0) >= L0_STOP_WRITES_TRIGGER {
        return false;
      }
      SwitchMemTable();
      return false;
    }

    /** A new log and a new memtable; the old memtable waits to be compacted. */
    method SwitchMemTable()
      requires Valid() && imm.None?
      modifies this
      ensures Valid() && Next(old(State()), Switch, State())
    {
      hide EngineRuns.Reached, Next;
      var newLogNumber := nextFile;
      nextFile := nextFile + 1;
      logs := logs[newLogNumber := []];
      logfileNumber := newLogNumber;
      imm := Some(mem);
      mem := [];
      Switched(old(State()), State());
    }

    // ----- version changes -----

    /** LogAndApply: a Builder makes the next version, the manifest gets the edit. */
    method LogAndApply(e: Edit, newLogNumber: nat)
      requires FreshAdds(version, e) && SortedVersion(version)
      modifies `version, `manifest, `logNumber
      ensures Edited(old(version), e, version)
      ensures manifest == old(manifest) + [Filled(e, newLogNumber, nextFile, lastSequence)]
      ensures logNumber == newLogNumber
    {
      var builder := new Builder(version);
      builder.Apply(e);
      var v := builder.SaveTo();
      manifest := manifest + [Filled(e, newLogNumber, nextFile, lastSequence)];
      version := v;
      logNumber := newLogNumber;
    }

    /** WriteLevel0Table against the current version: a table under a new number, unless there is
        nothing to write, and the level it may go to. */
    method WriteLevel0Table(es: seq<Entry>, sizeOf: seq<Entry> -> nat) returns (level: nat, f: Option<FileMeta>)
      requires Sorted(es) && ValidVersion(version) && NumbersBelow(version, nextFile)
      modifies `nextFile, `tables
      ensures nextFile == old(nextFile) + 1 && (f.None? <==> es == [])
      ensures f.None? ==> tables == old(tables)
      ensures f.Some? ==>
        && ValidFile(f.value) && f.value.number == old(nextFile) && f.value.entries == es && f.value.size == sizeOf(es)
        && tables == old(tables)[f.value.number := es] && MayAddAt(version, level, f.value) && level < NUM_LEVELS
        && LevelChoice(version, es[0].key.user, es[|es| - 1].key.user, maxFileSize, level)
    {
      var number := nextFile;
      nextFile := nextFile + 1;
      level := 0;
      if es == [] {
        return level, None;
      }
      var meta := FileMeta(number, sizeOf(es), es[0].key, es[|es| - 1].key, es);
      tables := tables[number := es];
      level := PickLevelForMemTableOutput(version, meta.smallest.user, meta.largest.user, maxFileSize);
      if level > 0 {
        ChosenMeetsNothing(version, meta.smallest.user, meta.largest.user, maxFileSize, level);
      }
      TableFits(version, level, meta);
      return level, Some(meta);
    }

    /** CompactMemTable. */
    method CompactMemTable(sizeOf: seq<Entry> -> nat) returns (ghost step: Step)
      requires Valid() && imm.Some?
      modifies this
      ensures Valid() && imm.None? && Next(old(State()), step, State())
      ensures if old(imm) == Some([]) then step == FlushEmpty else step.Flush? && step.file.entries == old(imm).value && step.file.size == sizeOf(old(imm).value)
      ensures |old(version)| == NUM_LEVELS
      ensures var es := old(imm).value; es != [] ==>
        LevelChoice(old(version), es[0].key.user, es[|es| - 1].key.user, maxFileSize, step.level)
    {
      NextIsFresh(State());
      ImmIsSorted(State());
      hide EngineRuns.Reached, Next, MayAddAt, ValidFile, ValidVersion, SortedVersion, NumbersBelow, Sorted;
      var level, f := WriteLevel0Table(imm.value, sizeOf);
      if f.None? {
        CommitNothing(old(State()));
        step := FlushEmpty;
      } else {
        CommitTable(level, f.value, old(State()));
        step := Flush(level, f.value, version);
      }
    }

    method CommitNothing(ghost s: Db)
      requires EngineRuns.Reached(s) && s.layers.imm == Some([]) && State() == s.(nextFile := s.nextFile + 1)
      modifies this
      ensures Valid() && imm.None? && Next(s, FlushEmpty, State())
    {
      NextIsFresh(s);
      hide EngineRuns.Reached, Next, Edited, FreshAdds, SortedVersion;
      NothingToAdd(version);
      Commit(EMPTY_EDIT);
      SameVersion(old(version), version);
      FlushedNothing(s, State());
    }

    method CommitTable(level: nat, f: FileMeta, ghost s: Db)
      requires EngineRuns.Reached(s) && s.layers.imm == Some(f.entries)
      requires ValidFile(f) && f.number == s.nextFile && MayAddAt(s.layers.version, level, f) && level < NUM_LEVELS
      requires State() == s.(nextFile := s.nextFile + 1, disk := s.disk.(tables := s.disk.tables[f.number := f.entries]))
      modifies this
      ensures Valid() && imm.None? && Next(s, Flush(level, f, version), State())
    {
      NextIsFresh(s);
      hide EngineRuns.Reached, Next, Edited, FreshAdds, MayAddAt, ValidFile, SortedVersion;
      FreshFile(version, level, f);
      Commit(AddEdit(level, f));
      Flushed(s, level, f, version, State());
    }

    /** Install the version without the immutable memtable; earlier logs are no longer needed. */
    method Commit(e: Edit)
      requires FreshAdds(version, e) && SortedVersion(version)
      modifies `version, `manifest, `logNumber, `imm
      ensures Edited(old(version), e, version) && imm == None && logNumber == logfileNumber
      ensures manifest == old(manifest) + [Filled(e, logfileNumber, nextFile, lastSequence)]
    {
      LogAndApply(e, logfileNumber);
      imm := None;
    }

    // ----- compactions -----

    /** OpenCompactionOutputFile to FinishCompactionOutputFile, for one output. */
    method BuildOutput(es: seq<Entry>) returns (number: nat)
      requires Valid()
      modifies `nextFile, `tables, `pendingOutputs
      ensures Valid() && Next(old(State()), BeginTable(es), State())
      ensures number == old(nextFile) && nextFile == number + 1
      ensures tables == old(tables)[number := es] && pendingOutputs == old(pendingOutputs) + {number}
    {
      hide EngineRuns.Reached, Next;
      number := nextFile;
      nextFile := nextFile + 1;
      pendingOutputs := pendingOutputs + {number};
      tables := tables[number := es];
      Began(old(State()), es, State());
    }

    method BuildOutputs(outs: seq<FileMeta>) returns (ghost steps: seq<Step>)
      requires Valid() && forall i :: 0 <= i < |outs| ==> outs[i].number == nextFile + i
      modifies `nextFile, `tables, `pendingOutputs
      ensures Valid() && Leads(old(State()), steps, State())
      ensures forall i :: 0 <= i < |outs| ==>
        outs[i].number in pendingOutputs && outs[i].number in tables && tables[outs[i].number] == outs[i].entries
    {
      hide DBImpl.Valid, Next, Leads;
      steps := [];
      LeadsNowhere(State());
      for i := 0 to |outs|
        invariant Valid() && Leads(old(State()), steps, State()) && nextFile == old(nextFile) + i
        invariant forall j :: 0 <= j < i ==>
          outs[j].number in pendingOutputs && outs[j].number in tables && tables[outs[j].number] == outs[j].entries
      {
        ghost var m := State();
        var n := BuildOutput(outs[i].entries);
        LeadsMore(old(State()), steps, m, BeginTable(outs[i].entries), State());
        steps := steps + [BeginTable(outs[i].entries)];
      }
    }

    /** InstallCompactionResults. */
    method InstallCompactionResults(c: Compaction, outs: seq<FileMeta>)
      requires Valid() && WellChosen(version, c)
      requires ValidFiles(outs) && Disjoint(outs)
      requires LevelEntries(outs) == Survivors(InputEntries(c), SmallestSnapshot(State()), BaseOf(version, c.level))
      requires forall i, j :: 0 <= i < j < |outs| ==> outs[i].number != outs[j].number
      requires forall o :: o in outs ==> o.number in pendingOutputs && o.number in tables && tables[o.number] == o.entries
      modifies `version, `manifest, `logNumber, `pendingOutputs
      ensures Valid() && Next(old(State()), Compact(c, outs, version), State())
    {
      NextIsFresh(State());
      hide EngineRuns.Reached, Next, Edited, FreshAdds, WellChosen, ValidFiles, Disjoint, LevelEntries, Survivors, BaseOf,
           SortedVersion, NumbersBelow;
      ChosenLevel(version, c);
      FreshInstall(version, c, outs);
      LogAndApply(InstallEdit(c, outs), logNumber);
      pendingOutputs := pendingOutputs - set o | o in outs :: o.number;
      Compacted(old(State()), c, outs, version, State());
    }

    /** A trivial move: the file changes its level, nothing is rewritten. */
    method MoveFile(c: Compaction)
      requires Valid() && WellChosen(version, c) && |c.inputs0| == 1 && c.inputs1 == []
      modifies `version, `manifest, `logNumber
      ensures Valid() && Next(old(State()), Move(c, version), State())
    {
      NextIsFresh(State());
      MovedFileIsFresh(State(), c);
      hide EngineRuns.Reached, Next, Edited, FreshAdds, WellChosen, SortedVersion, NumbersBelow;
      LogAndApply(InstallEdit(c, c.inputs0), logNumber);
      Moved(old(State()), c, version, State());
    }

    /** The output tables, as DoCompactionWork cuts and fills them. */
    method WriteOutputs(c: Compaction, fullAt: nat -> bool, sizeOf: seq<Entry> -> nat) returns (outs: seq<FileMeta>)
      requires Valid() && WellChosen(version, c)
      ensures ValidFiles(outs) && Disjoint(outs) && forall i :: 0 <= i < |outs| ==> outs[i].number == nextFile + i
      ensures LevelEntries(outs) == Survivors(InputEntries(c), SmallestSnapshot(State()), BaseOf(version, c.level))
      ensures var ss := if snapshots == [] then lastSequence else snapshots[0];
        && CompactionRules.KeptByNumbers(InputEntries(c), LevelEntries(outs), ss, version, c.level)
        && CutAsMarked(c, outs, ss, version, nextFile, maxFileSize, fullAt, sizeOf)
    {
      ReadyToCompact(State(), c);
      hide DBImpl.Valid, WellChosen, ValidFiles, Disjoint, LevelEntries, Survivors, BaseOf, ValidVersion, Sorted, InputEntries,
           CompactionRules.KeptByNumbers, KeptByRule, Outputs, Marks;
      var input := MakeInput(c.inputs0 + c.inputs1);
      var probe := new BaseLevelProbe(version, c.level);
      var smallestSnapshot := if snapshots == [] then lastSequence else snapshots[0];
      var stopper := new StopProbe(c.grandparents, MaxGrandParentOverlapBytes(maxFileSize));
      outs := DoCompactionWork(probe, stopper, input, smallestSnapshot, seq(|input|, i requires 0 <= i => fullAt(i)), nextFile, sizeOf);
      CompactionRules.AllByNumbers(InputEntries(c), smallestSnapshot, version, c.level);
    }

    /** DoCompactionWork: `fullAt` says where an output file has its full size. */
    method DoCompaction(c: Compaction, fullAt: nat -> bool, sizeOf: seq<Entry> -> nat)
      returns (ghost steps: seq<Step>)
      requires Valid() && WellChosen(version, c)
      modifies this
      ensures Valid() && Leads(old(State()), steps, State())
      ensures steps != [] && LastStep(steps).Compact? && LastStep(steps).c == c
      ensures var ss := if old(snapshots) == [] then old(lastSequence) else old(snapshots)[0];
        && CompactionRules.KeptByNumbers(InputEntries(c), LevelEntries(LastStep(steps).outs), ss, old(version), c.level)
        && CutAsMarked(c, LastStep(steps).outs, ss, old(version), old(nextFile), maxFileSize, fullAt, sizeOf)
    {
      hide DBImpl.Valid, Next, Leads, WellChosen, ValidFiles, Disjoint, LevelEntries, Survivors, BaseOf, InputEntries,
           CompactionRules.KeptByNumbers, CutAsMarked;
      var outs := WriteOutputs(c, fullAt, sizeOf);
      steps := BuildOutputs(outs);
      ghost var m := State();
      InstallCompactionResults(c, outs);
      LeadsMore(old(State()), steps, m, Compact(c, outs, version), State());
      steps := steps + [Compact(c, outs, version)];
    }

    /** BackgroundCompaction: the immutable memtable first, then the compaction that is due. */
    method BackgroundCompaction(t: Trigger, fullAt: nat -> bool, sizeOf: seq<Entry> -> nat)
      returns (ghost steps: seq<Step>)
      requires Valid()
      requires imm.None? ==> t.level + 1 < NUM_LEVELS && NumLevelFiles(t.level) > 0
      requires imm.None? && t.SeekTrigger? ==> t.file in version[t.level]
      modifies this
      ensures Valid() && Leads(old(State()), steps, State())
      ensures steps != [] && (old(imm).Some? ==> LastStep(steps).Flush? || LastStep(steps).FlushEmpty?)
      ensures old(imm).None? ==> |old(version)| == NUM_LEVELS && Background(old(version), t, maxFileSize, LastStep(steps))
    {
      VersionIsValid(State());
      hide DBImpl.Valid, Next, Leads, WellChosen, ValidVersion;
      LeadsNowhere(State());
      if imm.Some? {
        ghost var step := CompactMemTable(sizeOf);
        LeadsMore(old(State()), [], old(State()), step, State());
        return [] + [step];
      }
      var c := PickCompaction(version, t, maxFileSize);
      BackgroundIntro(version, t, maxFileSize, c);
      hide Background, Picks, Completed, CutAsMarked, CompactionRules.KeptByNumbers;
      if IsTrivialMove(c, maxFileSize) {
        MoveFile(c);
        LeadsMore(old(State()), [], old(State()), Move(c, version), State());
        return [] + [Move(c, version)];
      }
      steps := DoCompaction(c, fullAt, sizeOf);
    }

    /** BackgroundCompaction of a manual range: no trivial move; done when no file meets the range. */
    method BackgroundManualCompaction(level: nat, b: Bound, e: Bound, fullAt: nat -> bool, sizeOf: seq<Entry> -> nat)
      returns (done: bool, rest: Bound, ghost steps: seq<Step>)
      requires Valid() && level + 1 < NUM_LEVELS
      modifies this
      ensures Valid() && Leads(old(State()), steps, State()) && |old(version)| == NUM_LEVELS
      ensures done <==> old(imm).None? && forall f :: f in old(version)[level] ==> !Meets(f, b, e)
      ensures done ==> unchanged(this)
      ensures !done && old(imm).None? ==> steps != [] && Manual(old(version), level, b, e, maxFileSize, LastStep(steps), rest)
    {
      VersionIsValid(State());
      hide DBImpl.Valid, Next, Leads, WellChosen, ValidVersion, Manual, RangeChoice, Leaves, Meets, LevelChoice, CompactionRules.KeptByNumbers, CutAsMarked;
      LeadsNowhere(State());
      if imm.Some? {
        ghost var step := CompactMemTable(sizeOf);
        LeadsMore(old(State()), [], old(State()), step, State());
        return false, b, [] + [step];
      }
      var c;
      c, rest := ChooseRange(version, level, b, e, maxFileSize);
      if c.None? {
        return true, b, [];
      }
      steps := DoCompaction(c.value, fullAt, sizeOf);
      return false, rest, steps;
    }

    // ----- readers -----

    method GetSnapshot() returns (sequence: SequenceNumber)
      requires Valid()
      modifies this
      ensures Valid() && Next(old(State()), TakeSnapshot, State()) && sequence == lastSequence
    {
      hide EngineRuns.Reached, Next;
      sequence := lastSequence;
      snapshots := snapshots + [sequence];
      Snapped(old(State()), State());
    }

    method ReleaseSnapshot(i: nat)
      requires Valid() && i < |snapshots|
      modifies this
      ensures Valid() && Next(old(State()), Step.ReleaseSnapshot(i), State())
    {
      hide EngineRuns.Reached, Next;
      snapshots := snapshots[..i] + snapshots[i + 1..];
      Released(old(State()), i, State());
    }

    /** An iterator keeps the current version referenced. */
    method RefVersion()
      requires Valid()
      modifies this
      ensures Valid() && Next(old(State()), Pin, State())
    {
      hide EngineRuns.Reached, Next;
      pinned := pinned + [version];
      Pinned(old(State()), State());
    }

    method UnrefVersion(i: nat)
      requires Valid() && i < |pinned|
      modifies this
      ensures Valid() && Next(old(State()), Unpin(i), State())
    {
      hide EngineRuns.Reached, Next;
      pinned := pinned[..i] + pinned[i + 1..];
      Unpinned(old(State()), i, State());
    }

    // ----- garbage -----

    /** VersionSet::AddLiveFiles. */
    method AddLiveFiles(live: set<nat>) returns (r: set<nat>)
      ensures r == live + VersionNumbers(version) + set v, n | v in pinned && n in VersionNumbers(v) :: n
    {
      hide VersionNumbers;
      r := NumbersOf(version);
      r := r + live;
      ghost var from := r;
      for i := 0 to |pinned|
        invariant r == from + set v, n | v in pinned[..i] && n in VersionNumbers(v) :: n
      {
        assert pinned[..i + 1] == pinned[..i] + [pinned[i]];
        var more := NumbersOf(pinned[i]);
        r := r + more;
      }
      assert pinned[..|pinned|] == pinned;
    }

    /** RemoveObsoleteFiles: logs from the log number on and live tables stay. */
    method RemoveObsoleteFiles()
      requires Valid()
      modifies this
      ensures Valid() && Next(old(State()), Collect, State())
    {
      hide EngineRuns.Reached, Next, VersionNumbers;
      var live := AddLiveFiles(pendingOutputs);
      assert live == LiveNumbers(State());
      logs := map n | n in logs && n >= logNumber :: logs[n];
      tables := map n | n in tables && n in live :: tables[n];
      Collected(old(State()), State());
    }

    // ----- crash and open -----

    /** A crash, and DB::Open on what is on disk: only the manifest, the logs and the tables are
        read. Everything that was stored is stored again. */
    method Reopen(full: seq<Entry> -> bool, sizeOf: seq<Entry> -> nat) returns (ghost step: Step)
      requires Valid()
      modifies this
      ensures Valid() && step.CrashAndRecover? && Next(old(State()), step, State())
      ensures Stored(State().layers) == old(Stored(State().layers)) && lastSequence == old(lastSequence)
      ensures FromLogs(old(State()), step.files, step.segments, full, sizeOf)
    {
      ghost var s := State();
      hide FromLogs, EngineRuns.Reached, Next, RecoverStep, Stored, TablesWith, Filled;
      var p, segments := RecoverPlan(manifest, logs, full, sizeOf, s);
      mem, imm, version, lastSequence, snapshots := [], None, p.version, p.last, [];
      manifest := [p.snapshotEdit, Filled(EMPTY_EDIT.(added := Placed(0, p.files)), p.newLog, p.newLog + 1, p.last)];
      logs := logs[p.newLog := []];
      tables := TablesWith(tables, p.files);
      logfileNumber, logNumber, nextFile, pendingOutputs, pinned := p.newLog, p.newLog, p.newLog + 1, {}, [];
      step := CrashAndRecover(p.base, segments, p.files, p.snapshotEdit, p.version, p.newLog);
      Reopened(s, p.base, segments, p.files, p.snapshotEdit, p.version, p.newLog, State());
    }

    lemma ImmIsSorted(s: Db)
      requires EngineRuns.Reached(s) && s.layers.imm.Some?
      ensures Sorted(s.layers.imm.value) && ValidVersion(s.layers.version)
    {
      EngineRuns.ReachedInv(s);
    }
  }

  /** What opening makes of the disk. */
  datatype Plan = Plan(base: Version, files: seq<FileMeta>, snapshotEdit: Edit, version: Version, newLog: nat, last: SequenceNumber)

  ghost function RecoveredDb(s: Db, p: Plan): Db {
    Db(Layers([], None, p.version), p.last, [],
       Disk([p.snapshotEdit, Filled(EMPTY_EDIT.(added := Placed(0, p.files)), p.newLog, p.newLog + 1, p.last)],
            s.disk.logs[p.newLog := []], TablesWith(s.disk.tables, p.files)),
       p.newLog, p.newLog, p.newLog + 1, {}, [], s.history)
  }

  /** The recovered tables hold what the logs from the log number on fill memtables with. */
  ghost predicate FromLogs(s: Db, files: seq<FileMeta>, segments: seq<Batch>, full: seq<Entry> -> bool, sizeOf: seq<Entry> -> nat) {
    && Sized(files, 0, sizeOf)
    && exists bound: nat :: (forall n :: n in s.disk.logs ==> n < bound) && segments == AllSegments(s.disk.logs, s.logNumber, bound, full)
  }

  /** DBImpl::Recover, and the version DB::Open installs. */
  method RecoverPlan(manifest: seq<Edit>, logs: map<nat, seq<Batch>>, full: seq<Entry> -> bool, sizeOf: seq<Entry> -> nat, ghost s: Db)
    returns (p: Plan, ghost segments: seq<Batch>)
    requires EngineRuns.Reached(s) && manifest == s.disk.manifest && logs == s.disk.logs
    ensures RecoverStep(s, p.base, segments, p.files, p.snapshotEdit, p.version, p.newLog, RecoveredDb(s, p))
    ensures FromLogs(s, p.files, segments, full, sizeOf)
  {
    Recoverable(s);
    hide EngineRuns.Reached, Manifest.Folds, Manifest.AddedOnce, RecoveredFiles, Edited, SnapshotEdit,
         Increasing, SortedVersion, NumbersBelow, Replay, RecoverStep, RecoveredDb, AllSegments, Sized;
    var r := Manifest.Recover(manifest, s.layers.version);
    var bound := LogBound(logs);
    LogIncreasing(s, bound);
    var number, files, maxSequence;
    number, files, maxSequence, segments := RecoverLogs(logs, r.logNumber, bound, r.nextFile + 1, full, sizeOf);
    var newLog := if number < bound then bound else number;
    ghost var log := Replay(logs, r.logNumber, newLog);
    LogsBelow(s, r.logNumber, bound, newLog);
    RecoveredLater(log, segments, files, r.nextFile, number, newLog);
    var v := AddRecovered(r.version, files, r.nextFile, log, segments, newLog);
    var snapshotEdit := WriteSnapshot(r.version);
    p := Plan(r.version, files, snapshotEdit, v, newLog, if r.lastSequence < maxSequence then maxSequence else r.lastSequence);
    PlanRecovers(s, p, segments);
  }

  lemma PlanRecovers(s: Db, p: Plan, segments: seq<Batch>)
    requires var m := s.disk.manifest;
      && Manifest.Folds(m, p.base)
      && Manifest.LastLogNumber(m).Some? && Manifest.LastNextFile(m).Some? && Manifest.LastLastSequence(m).Some?
      && p.newLog > Manifest.LastNextFile(m).value
      && (forall n :: n in s.disk.logs ==> n < p.newLog)
      && (var log := Replay(s.disk.logs, Manifest.LastLogNumber(m).value, p.newLog);
        && RecoveredFiles(log, segments, p.files, Manifest.LastNextFile(m).value, p.newLog)
        && p.last == MaxSequence(log, Manifest.LastLastSequence(m).value))
      && SnapshotEdit(p.base, p.snapshotEdit)
      && Edited(p.base, EMPTY_EDIT.(added := Placed(0, p.files)), p.version)
    ensures RecoverStep(s, p.base, segments, p.files, p.snapshotEdit, p.version, p.newLog, RecoveredDb(s, p))
  {
    hide Manifest.Folds, RecoveredFiles, Edited, SnapshotEdit, Replay, MaxSequence, Filled, TablesWith;
  }

  /** LogAndApply of the recovered tables to the version of the manifest. */
  method AddRecovered(v0: Version, files: seq<FileMeta>, ghost lo: nat, ghost log: seq<Entry>, ghost segments: seq<Batch>, ghost hi: nat)
    returns (v: Version)
    requires |v0| == NUM_LEVELS && SortedVersion(v0) && NumbersBelow(v0, lo)
    requires RecoveredFiles(log, segments, files, lo, hi)
    ensures Edited(v0, EMPTY_EDIT.(added := Placed(0, files)), v)
  {
    var e := EMPTY_EDIT.(added := Placed(0, files));
    FreshRecovered(v0, files, lo, log, segments, hi);
    hide RecoveredFiles, NumbersBelow;
    var builder := new Builder(v0);
    builder.Apply(e);
    v := builder.SaveTo();
  }

  lemma FreshRecovered(v0: Version, files: seq<FileMeta>, lo: nat, log: seq<Entry>, segments: seq<Batch>, hi: nat)
    requires |v0| == NUM_LEVELS && NumbersBelow(v0, lo)
    requires RecoveredFiles(log, segments, files, lo, hi)
    ensures FreshAdds(v0, EMPTY_EDIT.(added := Placed(0, files)))
  {
    hide TableOf;
    var e := EMPTY_EDIT.(added := Placed(0, files));
    forall p | p in e.added
      ensures p.0 == 0 && lo < p.1.number
    {
      var i :| 0 <= i < |files| && (0, files[i]) == p;
    }
    forall p, q | p in e.added && q in e.added && p.1.number == q.1.number
      ensures p == q
    {
      var i :| 0 <= i < |files| && (0, files[i]) == p;
      var j :| 0 <= j < |files| && (0, files[j]) == q;
    }
  }

  /** VersionSet::WriteSnapshot. */
  method WriteSnapshot(v: Version) returns (e: Edit)
    requires |v| == NUM_LEVELS
    ensures SnapshotEdit(v, e)
  {
    EngineRuns.AllFilesMembers(v, NUM_LEVELS);
    e := EMPTY_EDIT.(added := EngineRuns.AllFiles(v, NUM_LEVELS));
  }

  /** The file numbers of one version. */
  method NumbersOf(v: Version) returns (r: set<nat>)
    ensures r == VersionNumbers(v)
  {
    r := {};
    for l := 0 to |v|
      invariant r == set k, f | 0 <= k < l && f in v[k] :: f.number
    {
      r := r + set f | f in v[l] :: f.number;
    }
  }

  lemma NoEntries()
    ensures Sorted([]) && Elements([]) == {} && LevelEntries([]) == {}
  {
  }

  lemma FileEntry(files: seq<FileMeta>, i: nat, j: nat)
    requires i < |files| && j < |files[i].entries|
    ensures files[i].entries[j] in LevelEntries(files)
    ensures Elements(files[i].entries[..j + 1]) == Elements(files[i].entries[..j]) + {files[i].entries[j]}
    ensures LevelEntries(files[..i]) + Elements(files[i].entries[..j]) <= LevelEntries(files)
  {
    var es := files[i].entries;
    assert es[..j + 1] == es[..j] + [es[j]];
    assert files[i] in files && es[j] in FileEntries(files[i]);
    forall e | e in Elements(es[..j])
      ensures e in LevelEntries(files)
    {
      assert e in FileEntries(files[i]);
    }
  }

  lemma MoreEntries(files: seq<FileMeta>, i: nat)
    requires i < |files|
    ensures LevelEntries(files[..i + 1]) == LevelEntries(files[..i]) + Elements(files[i].entries)
    ensures files[i].entries[..|files[i].entries|] == files[i].entries
  {
    assert files[..i + 1] == files[..i] + [files[i]];
    assert Elements(files[i].entries) == FileEntries(files[i]);
  }

  lemma NothingToAdd(v: Version)
    requires |v| == NUM_LEVELS
    ensures FreshAdds(v, EMPTY_EDIT)
  {
  }

  lemma SameVersion(v: Version, v': Version)
    requires SortedVersion(v) && Edited(v, EMPTY_EDIT, v')
    ensures v' == v
  {
    EngineSafety.EmptyEditIsIdentity(v);
    EditedUnique(v, EMPTY_EDIT, v, v');
  }
}
