/** A run in which a deleted value comes back: SetupOtherInputs closes only the inputs of the
    compacted level under boundary files (version_set.cc), so a deletion marker can be merged
    while an older value of its key stays behind in the next level. */
module Resurrection {
  import opened Keys
  import opened Entries
  import opened Versions
  import opened Overlap
  import opened Selection
  import opened Picking
  import opened VersionBuilder
  import opened Store
  import opened CompactionViews
  import opened Install
  import opened CompactionWork
  import opened StoreSteps
  import opened Manifest
  import opened Engine
  import opened EngineReads
  import opened EngineRuns
  import opened Options

  // ----- the cast -----

  const A: UserKey := 1.0
  const B: UserKey := 2.0

  const A1 := Entry(InternalKey(A, 1, TypeValue), "a1")
  const B2 := Entry(InternalKey(B, 2, TypeValue), "old")
  const B3 := Entry(InternalKey(B, 3, TypeDeletion), "")
  const A4 := Entry(InternalKey(A, 4, TypeValue), "a4")
  const A5 := Entry(InternalKey(A, 5, TypeValue), "a5")

  /** The first flush, which finds nothing below and goes to level 2. */
  const FIRST := FileMeta(5, 1, A1.key, A1.key, [A1])
  /** The second flush, which meets FIRST and stays at level 1. */
  const SECOND := FileMeta(7, 1, A4.key, B2.key, [A4, B3, B2])
  /** The two outputs of the first compaction: user key B is split between them. */
  const LEFT := FileMeta(8, 1, A4.key, B3.key, [A4, A1, B3])
  const RIGHT := FileMeta(9, 1, B2.key, B2.key, [B2])
  /** The third flush: only key A, so it meets LEFT but not RIGHT. */
  const THIRD := FileMeta(11, 1, A5.key, A5.key, [A5])
  const MERGED := FileMeta(12, 1, A5.key, A5.key, [A5])

  function At12(one: seq<FileMeta>, two: seq<FileMeta>): Version {
    [[], one, two, [], [], [], []]
  }

  // ----- steps -----

  /** The parts of a state the run depends on. */
  ghost predicate Scene(s: Db, mem: seq<Entry>, v: Version, last: nat, snapshots: seq<SequenceNumber>, next: nat) {
    && Reached(s)
    && s.layers == Layers(mem, None, v)
    && s.lastSequence == last
    && s.snapshots == snapshots
    && s.nextFile == next
  }

  lemma DoWrite(s: Db, ops: seq<Op>) returns (s': Db)
    requires Reached(s) && s.lastSequence + |ops| < MAX_SEQUENCE
    ensures Reached(s')
    ensures s'.layers == s.layers.(mem := InsertAll(s.layers.mem, Stamp(ops, s.lastSequence + 1)))
    ensures s'.lastSequence == s.lastSequence + |ops| && s'.snapshots == s.snapshots && s'.nextFile == s.nextFile
    ensures s'.history == s.history + Elements(Stamp(ops, s.lastSequence + 1))
  {
    LogOpen(s);
    hide Reached, Stamp, InsertAll, Elements;
    var es := Stamp(ops, s.lastSequence + 1);
    s' := s.(
      layers := s.layers.(mem := InsertAll(s.layers.mem, es)),
      lastSequence := s.lastSequence + |ops|,
      disk := s.disk.(logs := s.disk.logs[s.logfileNumber := s.disk.logs[s.logfileNumber] + [es]]),
      history := s.history + Elements(es));
    ReachedNext(s, Write(ops), s');
  }

  /** Switch memtables, then flush the full one. */
  lemma DoFlush(s: Db, level: nat, f: FileMeta, v': Version) returns (s': Db)
    requires Reached(s) && s.layers.imm.None? && s.layers.mem == f.entries
    requires ValidFile(f) && f.number == s.nextFile + 1
    requires MayAddAt(s.layers.version, level, f) && Edited(s.layers.version, AddEdit(level, f), v')
    ensures Scene(s', [], v', s.lastSequence, s.snapshots, s.nextFile + 2) && s'.history == s.history
  {
    var t := s.(
      layers := Layers([], Some(s.layers.mem), s.layers.version),
      disk := s.disk.(logs := s.disk.logs[s.nextFile := []]),
      logfileNumber := s.nextFile,
      nextFile := s.nextFile + 1);
    ReachedNext(s, Switch, t);
    s' := t.(
      layers := Layers(t.layers.mem, None, v'),
      disk := t.disk.(
        manifest := t.disk.manifest + [Filled(AddEdit(level, f), t.logfileNumber, t.nextFile + 1, t.lastSequence)],
        tables := t.disk.tables[f.number := f.entries]),
      logNumber := t.logfileNumber,
      nextFile := t.nextFile + 1);
    ReachedNext(t, Flush(level, f, v'), s');
  }

  lemma DoSnapshot(s: Db) returns (s': Db)
    requires Reached(s)
    ensures Reached(s') && s' == s.(snapshots := s.snapshots + [s.lastSequence])
  {
    s' := s.(snapshots := s.snapshots + [s.lastSequence]);
    ReachedNext(s, TakeSnapshot, s');
  }

  lemma DoRelease(s: Db) returns (s': Db)
    requires Reached(s) && |s.snapshots| == 1
    ensures Reached(s') && s' == s.(snapshots := [])
  {
    s' := s.(snapshots := s.snapshots[..0] + s.snapshots[1..]);
    ReachedNext(s, ReleaseSnapshot(0), s');
  }

  lemma DoTable(s: Db, es: seq<Entry>) returns (s': Db)
    requires Reached(s)
    ensures Reached(s') && s'.layers == s.layers && s'.lastSequence == s.lastSequence && s'.snapshots == s.snapshots
    ensures s'.nextFile == s.nextFile + 1 && s'.history == s.history
    ensures s'.pending == s.pending + {s.nextFile} && s'.disk.tables == s.disk.tables[s.nextFile := es]
  {
    s' := s.(
      disk := s.disk.(tables := s.disk.tables[s.nextFile := es]),
      nextFile := s.nextFile + 1,
      pending := s.pending + {s.nextFile});
    ReachedNext(s, BeginTable(es), s');
  }

  lemma DoCompact(s: Db, c: Compaction, outs: seq<FileMeta>, v': Version) returns (s': Db)
    requires Reached(s) && s.layers.imm.None?
    requires WellChosen(s.layers.version, c)
    requires ValidFiles(outs) && Disjoint(outs)
    requires LevelEntries(outs) == Survivors(InputEntries(c), SmallestSnapshot(s), BaseOf(s.layers.version, c.level))
    requires forall i, j :: 0 <= i < j < |outs| ==> outs[i].number != outs[j].number
    requires forall o :: o in outs ==> o.number in s.pending && o.number in s.disk.tables && s.disk.tables[o.number] == o.entries
    requires Edited(s.layers.version, InstallEdit(c, outs), v')
    ensures Scene(s', s.layers.mem, v', s.lastSequence, s.snapshots, s.nextFile) && s'.history == s.history
  {
    hide Reached, WellChosen, ValidFiles, Disjoint, LevelEntries, Survivors, InputEntries, SmallestSnapshot, BaseOf, Edited, InstallEdit, Filled;
    s' := s.(
      layers := s.layers.(version := v'),
      disk := s.disk.(manifest := s.disk.manifest + [Filled(InstallEdit(c, outs), s.logNumber, s.nextFile, s.lastSequence)]),
      pending := s.pending - set o | o in outs :: o.number);
    ReachedNext(s, Compact(c, outs, v'), s');
  }

  // ----- versions -----

  lemma EditedAt12(one: seq<FileMeta>, two: seq<FileMeta>, e: Edit, one': seq<FileMeta>, two': seq<FileMeta>)
    requires SortedFiles(one') && SortedFiles(two')
    requires forall p :: p in e.added ==> p.0 == 1 || p.0 == 2
    requires forall f :: f in one' <==> (f in one && (1, f.number) !in e.deleted) || (1, f) in e.added
    requires forall f :: f in two' <==> (f in two && (2, f.number) !in e.deleted) || (2, f) in e.added
    ensures Edited(At12(one, two), e, At12(one', two'))
  {
    forall l: nat, f | l < NUM_LEVELS
      ensures f in At12(one', two')[l] <==> (f in At12(one, two)[l] && (l, f.number) !in e.deleted) || (l, f) in e.added
    {
      if l != 1 && l != 2 {
        assert At12(one', two')[l] == [] && At12(one, two)[l] == [];
      }
    }
  }

  lemma Level1Chosen(f: FileMeta, two: seq<FileMeta>, inputs1: seq<FileMeta>, pointer: InternalKey) returns (c: Compaction)
    requires inputs1 == Filter(two, Some(f.smallest.user), Some(f.largest.user))
    ensures c == Compaction(1, [f], inputs1, [], pointer) && WellChosen(At12([f], two), c)
  {
    hide Filter;
    c := Compaction(1, [f], inputs1, [], pointer);
    assert f in [f];
    ParentsIntro(two, [f], inputs1, f.smallest, f.largest);
  }

  /** What CompactRange returns for level 1 and an open range leaves no choice. */
  lemma RangeForced(f: FileMeta, two: seq<FileMeta>, inputs1: seq<FileMeta>, maxFileSize: nat, r: Option<Compaction>)
    requires RangeChoice(At12([f], two), 1, None, None, maxFileSize, r)
    requires inputs1 == Filter(two, Some(f.smallest.user), Some(f.largest.user))
    ensures r == Some(Compaction(1, [f], inputs1, [], f.largest))
  {
    var v := At12([f], two);
    assert f in v[1] && Meets(f, None, None);
    hide RangeChoice, Filter, ParentsOf, LeftBehindNewer, Contiguous;
    RangeGives(v, 1, None, None, maxFileSize, r, f);
    assert f in [f];
    var c := r.value;
    assert v[1] == [f] && v[2] == two && v[3] == [];
    OnlyFile(f, c.inputs0);
    assert IsSmallest([f], f.smallest) && IsLargest([f], f.largest);
    LargestUnique([f], f.largest, c.pointer);
    NoGrandparents([f] + c.inputs1, c.grandparents);
  }

  lemma RangeGives(v: Version, level: nat, b: Bound, e: Bound, maxFileSize: nat, r: Option<Compaction>, f: FileMeta)
    requires level + 1 < |v| && RangeChoice(v, level, b, e, maxFileSize, r) && f in v[level] && Meets(f, b, e)
    ensures r.Some? && WellChosen(v, r.value) && Completed(v, r.value) && r.value.level == level
  {
    hide WellChosen, Completed, RangeSeeds, SetUp, Meets;
  }

  lemma NoGrandparents(all: seq<FileMeta>, grandparents: seq<FileMeta>)
    requires all != [] && ParentsOf([], all, grandparents)
    ensures grandparents == []
  {
    var lo := SomeSmallest(all);
    var hi := SomeLargest(all);
    assert Filter([], Some(lo.user), Some(hi.user)) == [];
  }

  lemma OnlyFile(f: FileMeta, inputs: seq<FileMeta>)
    requires inputs != [] && Subset(inputs, [f]) && NoRepeats(inputs)
    ensures inputs == [f]
  {
    var n := |inputs| - 1;
    assert inputs[0] in inputs && inputs[n] in inputs;
    assert inputs[0] == f && inputs[n] == f;
  }

  /** The two compactions of the run are the ones CompactRange returns on an open range. */
  lemma CompactionsForced(maxFileSize: nat, r1: Option<Compaction>, r2: Option<Compaction>)
    requires RangeChoice(At12([SECOND], [FIRST]), 1, None, None, maxFileSize, r1)
    requires RangeChoice(At12([THIRD], [LEFT, RIGHT]), 1, None, None, maxFileSize, r2)
    ensures r1 == Some(Compaction(1, [SECOND], [FIRST], [], SECOND.largest))
    ensures r2 == Some(Compaction(1, [THIRD], [LEFT], [], THIRD.largest))
  {
    hide RangeChoice;
    FilterOne(FIRST, Some(A), Some(B));
    FilterOne(LEFT, Some(A), Some(A));
    FilterTwo(LEFT, RIGHT, Some(A), Some(A));
    RangeForced(SECOND, [FIRST], [FIRST], maxFileSize, r1);
    RangeForced(THIRD, [LEFT, RIGHT], [LEFT], maxFileSize, r2);
  }

  /** The three flushes of the run go to the levels PickLevelForMemTableOutput picks. */
  lemma FlushLevelsForced(maxFileSize: nat, l1: nat, l2: nat, l3: nat)
    requires maxFileSize > 0
    requires LevelChoice(EMPTY_VERSION, A, A, maxFileSize, l1)
    requires LevelChoice(At12([], [FIRST]), A, B, maxFileSize, l2)
    requires LevelChoice(At12([], [LEFT, RIGHT]), A, A, maxFileSize, l3)
    ensures l1 == 2 && l2 == 1 && l3 == 1
  {
    AloneGoesDeep(EMPTY_VERSION, A, A, maxFileSize, l1);
    assert Meets(FIRST, Some(A), Some(B)) && Meets(LEFT, Some(A), Some(A));
    SmallOverlap(At12([], [FIRST]), A, B, maxFileSize);
    SmallOverlap(At12([], [LEFT, RIGHT]), A, A, maxFileSize);
    StopsAtOne(At12([], [FIRST]), A, B, maxFileSize, FIRST, l2);
    StopsAtOne(At12([], [LEFT, RIGHT]), A, A, maxFileSize, LEFT, l3);
  }

  lemma StopsAtOne(v: Version, lo: UserKey, hi: UserKey, maxFileSize: nat, f: FileMeta, level: nat)
    requires |v| == NUM_LEVELS && v[0] == [] && v[1] == [] && f in v[2] && Meets(f, Some(lo), Some(hi))
    requires TotalFileSize(Filter(v[2], Some(lo), Some(hi))) <= MaxGrandParentOverlapBytes(maxFileSize)
    requires LevelChoice(v, lo, hi, maxFileSize, level)
    ensures level == 1
  {
    hide Meets;
    assert MayPass(v, lo, hi, maxFileSize, 0) && !MayPass(v, lo, hi, maxFileSize, 1);
  }

  /** With nothing above level 2 and at most two small files there, only a file in the way stops
      a flush. */
  lemma SmallOverlap(v: Version, lo: UserKey, hi: UserKey, maxFileSize: nat)
    requires |v| == NUM_LEVELS && maxFileSize > 0
    requires v[0] == [] && v[1] == [] && v[3] == [] && v[4] == []
    requires v[2] == [] || v[2] == [FIRST] || v[2] == [LEFT, RIGHT]
    ensures forall l :: 2 <= l <= 4 ==> TotalFileSize(Filter(v[l], Some(lo), Some(hi))) <= MaxGrandParentOverlapBytes(maxFileSize)
  {
    hide Filter, TotalFileSize, Meets;
    forall l | 2 <= l <= 4
      ensures TotalFileSize(Filter(v[l], Some(lo), Some(hi))) <= MaxGrandParentOverlapBytes(maxFileSize)
    {
      SmallLevel(v[l], Some(lo), Some(hi));
    }
  }

  lemma SmallLevel(files: seq<FileMeta>, b: Bound, e: Bound)
    requires files == [] || files == [FIRST] || files == [LEFT, RIGHT]
    ensures TotalFileSize(Filter(files, b, e)) <= 2
  {
    hide Meets;
    assert Filter([], b, e) == [];
    FilterOne(FIRST, b, e);
    FilterOne(LEFT, b, e);
    FilterTwo(LEFT, RIGHT, b, e);
    hide Filter;
    Sizes(FIRST, RIGHT);
    Sizes(LEFT, RIGHT);
    Sizes(RIGHT, RIGHT);
  }

  lemma Sizes(f: FileMeta, g: FileMeta)
    ensures TotalFileSize([]) == 0 && TotalFileSize([f]) == f.size && TotalFileSize([f, g]) == f.size + g.size
    ensures [] + [g] == [g]
  {
    assert [f, g][..1] == [f] && [f][..0] == [] && [f, g][1..] == [g] && [f][1..] == [] && [g][1..] == [];
  }

  lemma BaseAt12(one: seq<FileMeta>, two: seq<FileMeta>, k: UserKey)
    ensures BaseOf(At12(one, two), 1)(k)
  {
    forall l: nat | 3 <= l < NUM_LEVELS
      ensures At12(one, two)[l] == []
    {
    }
  }

  lemma OneFile(f: FileMeta)
    ensures LevelEntries([f]) == Elements(f.entries)
  {
    forall e
      ensures e in LevelEntries([f]) <==> e in FileEntries(f)
    {
      assert f in [f];
    }
  }

  lemma TwoFiles(f: FileMeta, g: FileMeta)
    ensures LevelEntries([f, g]) == Elements(f.entries) + Elements(g.entries)
  {
    forall e
      ensures e in LevelEntries([f, g]) <==> e in FileEntries(f) || e in FileEntries(g)
    {
      assert f in [f, g] && g in [f, g];
    }
  }

  lemma ThreeElements(x: Entry, y: Entry, z: Entry)
    ensures Elements([x, y, z]) == {x, y, z}
  {
  }

  lemma FilterOne(f: FileMeta, b: Bound, e: Bound)
    ensures Filter([f], b, e) == if Meets(f, b, e) then [f] else []
  {
    assert [f][..0] == [] && Filter([], b, e) == [];
  }

  lemma FilterTwo(f: FileMeta, g: FileMeta, b: Bound, e: Bound)
    ensures Filter([f, g], b, e) == Filter([f], b, e) + if Meets(g, b, e) then [g] else []
  {
    assert [f, g][..1] == [f];
  }

  // ----- the run -----

  lemma FirstInsert(e: Entry)
    ensures InsertAll([], [e]) == [e]
  {
    assert [e][1..] == [];
    assert Insert([], e) == [e];
  }

  lemma InsertFront(es: seq<Entry>, e: Entry)
    requires es != [] && Less(e.key, es[0].key)
    ensures Insert(es, e) == [e] + es
  {
    assert SeekIndex(es, e.key) == 0;
  }

  lemma InsertAllHead(mem: seq<Entry>, e: Entry, rest: seq<Entry>)
    ensures InsertAll(mem, [e] + rest) == InsertAll(Insert(mem, e), rest)
  {
    assert ([e] + rest)[1..] == rest;
  }

  lemma InsertSecond()
    ensures InsertAll([B2], [B3, A4]) == SECOND.entries
  {
    InsertFront([B2], B3);
    assert [B3] + [B2] == [B3, B2];
    InsertFront([B3, B2], A4);
    assert [A4] + [B3, B2] == [A4, B3, B2];
    assert [B3] + [A4] == [B3, A4] && [A4] + [] == [A4];
    InsertAllHead([B2], B3, [A4]);
    InsertAllHead([B3, B2], A4, []);
  }

  /** A first value of A, flushed to level 2. */
  lemma Scene1() returns (s: Db)
    ensures Scene(s, [], At12([], [FIRST]), 1, [], 6)
    ensures s.history == {A1}
  {
    hide Reached, InsertAll, Edited, MayAddAt;
    ReachedInitial();
    var s1 := DoWrite(INITIAL, [Op(A, TypeValue, "a1")]);
    assert Stamp([Op(A, TypeValue, "a1")], 1) == [A1];
    FirstInsert(A1);
    FirstFits();
    s := DoFlush(s1, 2, FIRST, At12([], [FIRST]));
    assert s1.history == {A1};
  }

  lemma FirstFits()
    ensures MayAddAt(EMPTY_VERSION, 2, FIRST)
    ensures Edited(EMPTY_VERSION, AddEdit(2, FIRST), At12([], [FIRST]))
  {
    assert At12([], []) == EMPTY_VERSION;
    EditedAt12([], [], AddEdit(2, FIRST), [], [FIRST]);
    forall l | 0 <= l <= 2
      ensures NoFileMeets(EMPTY_VERSION[l], A, A)
    {
      assert EMPTY_VERSION[l] == [];
    }
  }

  /** The writes of the second memtable: a value of B, a snapshot that sees it, its deletion. */
  lemma Memory2(s0: Db) returns (s: Db)
    requires Scene(s0, [], At12([], [FIRST]), 1, [], 6) && s0.history == {A1}
    ensures Scene(s, SECOND.entries, At12([], [FIRST]), 4, [2], 6)
    ensures s.history == {A1, B2, B3, A4}
  {
    hide Reached, InsertAll;
    var s1 := DoWrite(s0, [Op(B, TypeValue, "old")]);
    assert Stamp([Op(B, TypeValue, "old")], 2) == [B2];
    FirstInsert(B2);
    var s2 := DoSnapshot(s1);
    var ops := [Op(B, TypeDeletion, ""), Op(A, TypeValue, "a4")];
    s := DoWrite(s2, ops);
    assert Stamp(ops, 3) == [B3, A4];
    InsertSecond();
    assert Elements([B3, A4]) == {B3, A4};
    assert s.history == {A1, B2, B3, A4};
  }

  lemma Scene2() returns (s: Db)
    ensures Scene(s, [], At12([SECOND], [FIRST]), 4, [2], 8)
    ensures s.history == {A1, B2, B3, A4}
  {
    hide Reached, Edited, MayAddAt;
    var s0 := Scene1();
    var s1 := Memory2(s0);
    SecondFits();
    s := DoFlush(s1, 1, SECOND, At12([SECOND], [FIRST]));
  }

  lemma SecondFits()
    ensures MayAddAt(At12([], [FIRST]), 1, SECOND)
    ensures Edited(At12([], [FIRST]), AddEdit(1, SECOND), At12([SECOND], [FIRST]))
  {
    EditedAt12([], [FIRST], AddEdit(1, SECOND), [SECOND], [FIRST]);
    forall l | 0 <= l <= 1
      ensures NoFileMeets(At12([], [FIRST])[l], A, B)
    {
      assert At12([], [FIRST])[l] == [];
    }
  }

  /** Level 1 is compacted into level 2. The snapshot keeps both entries of B, and the
      outputs are cut between them. Where outputs are cut is open in the model; the code cuts
      there once values of A fill the output file up to B's deletion, which the short ones
      here stand for. */
  lemma Scene3() returns (s: Db)
    ensures Scene(s, [], At12([], [LEFT, RIGHT]), 4, [2], 10)
    ensures s.history == {A1, B2, B3, A4}
  {
    hide Reached, WellChosen, Edited, Survivors, LevelEntries, BaseOf;
    var s0 := Scene2();
    var s1 := DoTable(s0, LEFT.entries);
    var s2 := DoTable(s1, RIGHT.entries);
    var c := FirstCompaction();
    s := DoCompact(s2, c, [LEFT, RIGHT], At12([], [LEFT, RIGHT]));
  }

  lemma FirstCompaction() returns (c: Compaction)
    ensures c.level == 1 && WellChosen(At12([SECOND], [FIRST]), c)
    ensures LevelEntries([LEFT, RIGHT]) == Survivors(InputEntries(c), 2, BaseOf(At12([SECOND], [FIRST]), 1))
    ensures Edited(At12([SECOND], [FIRST]), InstallEdit(c, [LEFT, RIGHT]), At12([], [LEFT, RIGHT]))
  {
    hide WellChosen, Edited, Survivors, LevelEntries, BaseOf;
    FilterOne(FIRST, Some(A), Some(B));
    c := Level1Chosen(SECOND, [FIRST], [FIRST], SECOND.largest);
    SurvivorsFirst(c);
    FirstInstalled(c);
  }

  lemma FirstInstalled(c: Compaction)
    requires c.level == 1 && c.inputs0 == [SECOND] && c.inputs1 == [FIRST]
    ensures Edited(At12([SECOND], [FIRST]), InstallEdit(c, [LEFT, RIGHT]), At12([], [LEFT, RIGHT]))
  {
    PlacedMembers(2, [LEFT, RIGHT]);
    EditedAt12([SECOND], [FIRST], InstallEdit(c, [LEFT, RIGHT]), [], [LEFT, RIGHT]);
  }

  lemma SurvivorsFirst(c: Compaction)
    requires c.inputs0 == [SECOND] && c.inputs1 == [FIRST]
    ensures LevelEntries([LEFT, RIGHT]) == Survivors(InputEntries(c), 2, BaseOf(At12([SECOND], [FIRST]), 1))
  {
    OneFile(SECOND);
    OneFile(FIRST);
    TwoFiles(LEFT, RIGHT);
    ThreeElements(A4, B3, B2);
    ThreeElements(A4, A1, B3);
    assert Elements([A1]) == {A1} && Elements([B2]) == {B2};
    AllSurvive(InputEntries(c), 2, BaseOf(At12([SECOND], [FIRST]), 1));
  }

  /** Entries above the snapshot are neither shadowing nor obsolete. */
  lemma AllSurvive(I: set<Entry>, ss: SequenceNumber, isBase: UserKey -> bool)
    requires I == {A4, B3, B2, A1} && ss == 2
    ensures Survivors(I, ss, isBase) == I
  {
    forall x | x in I
      ensures !Shadowed(I, x, ss) && !Obsolete(x, ss, isBase)
    {
    }
  }

  /** The snapshot is released; a new value of A alone is flushed to level 1. */
  lemma Scene4() returns (s: Db)
    ensures Scene(s, [], At12([THIRD], [LEFT, RIGHT]), 5, [], 12)
    ensures s.history == {A1, B2, B3, A4, A5}
  {
    hide Reached, InsertAll, Edited, MayAddAt;
    var s0 := Scene3();
    var s1 := DoRelease(s0);
    var s2 := DoWrite(s1, [Op(A, TypeValue, "a5")]);
    assert Stamp([Op(A, TypeValue, "a5")], 5) == [A5];
    FirstInsert(A5);
    ThirdFits();
    s := DoFlush(s2, 1, THIRD, At12([THIRD], [LEFT, RIGHT]));
    assert s2.history == {A1, B2, B3, A4, A5};
  }

  lemma ThirdFits()
    ensures MayAddAt(At12([], [LEFT, RIGHT]), 1, THIRD)
    ensures Edited(At12([], [LEFT, RIGHT]), AddEdit(1, THIRD), At12([THIRD], [LEFT, RIGHT]))
  {
    EditedAt12([], [LEFT, RIGHT], AddEdit(1, THIRD), [THIRD], [LEFT, RIGHT]);
    forall l | 0 <= l <= 1
      ensures NoFileMeets(At12([], [LEFT, RIGHT])[l], A, A)
    {
      assert At12([], [LEFT, RIGHT])[l] == [];
    }
  }

  /** Compacting level 1 merges THIRD with LEFT only, and drops the deletion of B. */
  lemma Scene5() returns (s: Db)
    ensures Scene(s, [], At12([], [MERGED, RIGHT]), 5, [], 13)
    ensures s.history == {A1, B2, B3, A4, A5}
  {
    hide Reached, WellChosen, Edited, Survivors, LevelEntries, BaseOf;
    var s0 := Scene4();
    var s1 := DoTable(s0, MERGED.entries);
    FilterOne(LEFT, Some(A), Some(A));
    FilterTwo(LEFT, RIGHT, Some(A), Some(A));
    var c := Level1Chosen(THIRD, [LEFT, RIGHT], [LEFT], THIRD.largest);
    SurvivorsSecond(c);
    SecondInstalled(c);
    s := DoCompact(s1, c, [MERGED], At12([], [MERGED, RIGHT]));
  }

  lemma SecondInstalled(c: Compaction)
    requires c.level == 1 && c.inputs0 == [THIRD] && c.inputs1 == [LEFT]
    ensures Edited(At12([THIRD], [LEFT, RIGHT]), InstallEdit(c, [MERGED]), At12([], [MERGED, RIGHT]))
  {
    PlacedMembers(2, [MERGED]);
    EditedAt12([THIRD], [LEFT, RIGHT], InstallEdit(c, [MERGED]), [], [MERGED, RIGHT]);
  }

  lemma SurvivorsSecond(c: Compaction)
    requires c.inputs0 == [THIRD] && c.inputs1 == [LEFT]
    ensures LevelEntries([MERGED]) == Survivors(InputEntries(c), 5, BaseOf(At12([THIRD], [LEFT, RIGHT]), 1))
  {
    OneFile(THIRD);
    OneFile(LEFT);
    OneFile(MERGED);
    ThreeElements(A4, A1, B3);
    assert Elements([A5]) == {A5};
    BaseAt12([THIRD], [LEFT, RIGHT], B);
    OneSurvives(InputEntries(c), BaseOf(At12([THIRD], [LEFT, RIGHT]), 1));
  }

  lemma OneSurvives(I: set<Entry>, isBase: UserKey -> bool)
    requires I == {A5, A4, A1, B3} && isBase(B)
    ensures Survivors(I, 5, isBase) == {A5}
  {
    assert Shadowed(I, A4, 5) && Shadowed(I, A1, 5);
    assert Obsolete(B3, 5, isBase);
    assert !Shadowed(I, A5, 5);
  }

  /** The history says B is deleted; the database answers "old". */
  lemma DeletedValueComesBack() returns (states: seq<Db>, steps: seq<Step>)
    ensures Run(states, steps)
    ensures var s := states[|steps|];
      && View(s.history, B, s.lastSequence) == None
      && View(Stored(s.layers), B, s.lastSequence) == Some("old")
      && !ReadsOk(s)
  {
    var s := Scene5();
    states, steps :| Run(states, steps) && states[|steps|] == s;
    assert Newest(s.history, B, 5, B3);
    ViewOfNewest(s.history, B, 5, B3);
    StoredAtEnd(s);
    assert Newest(Stored(s.layers), B, 5, B2);
    ViewOfNewest(Stored(s.layers), B, 5, B2);
  }

  lemma StoredAtEnd(s: Db)
    requires s.layers == Layers([], None, At12([], [MERGED, RIGHT]))
    ensures Stored(s.layers) == {A5, B2}
  {
    var v := At12([], [MERGED, RIGHT]);
    forall l: nat | l < NUM_LEVELS
      ensures LevelEntries(v[l]) == if l == 2 then {A5, B2} else {}
    {
      if l == 2 {
        TwoFiles(MERGED, RIGHT);
      }
    }
    EmptyElements([]);
    forall e
      ensures e in VersionEntries(v) <==> e in {A5, B2}
    {
      assert e in LevelEntries(v[2]) <==> e in {A5, B2};
    }
  }
}
