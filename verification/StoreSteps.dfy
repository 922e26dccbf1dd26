/** The background steps on the readable contents: flush, trivial move, compaction install. */
module StoreSteps {
  import opened Keys
  import opened Entries
  import opened Versions
  import opened Overlap
  import opened Selection
  import opened Picking
  import opened VersionBuilder
  import opened Store
  import opened CompactionViews
  import opened Install
  import opened CompactionWork
  import opened Options

  // ----- adding one file -----

  function AddEdit(level: nat, f: FileMeta): Edit {
    EMPTY_EDIT.(added := [(level, f)])
  }

  /** The file may go to `level`: at level 0 under a new highest number, deeper only when no
      level passed or entered meets its user-key range. */
  ghost predicate MayAddAt(v: Version, level: nat, f: FileMeta) {
    && level < |v|
    && if level == 0 then forall g :: g in v[0] ==> g.number < f.number
       else forall l :: 0 <= l <= level ==> NoFileMeets(v[l], f.smallest.user, f.largest.user)
  }

  lemma AddMembers(v: Version, level: nat, f: FileMeta, v': Version, l: nat)
    requires Edited(v, AddEdit(level, f), v') && l < NUM_LEVELS
    ensures SortedFiles(v'[l])
    ensures forall g :: g in v'[l] <==> g in v[l] || (l == level && g == f)
  {
    forall g
      ensures g in v'[l] <==> g in v[l] || (l == level && g == f)
    {
      assert (l, g) in AddEdit(level, f).added <==> l == level && g == f;
    }
  }

  lemma AddLevelEntries(v: Version, level: nat, f: FileMeta, v': Version, l: nat)
    requires Edited(v, AddEdit(level, f), v') && l < NUM_LEVELS
    ensures LevelEntries(v'[l]) == LevelEntries(v[l]) + if l == level then FileEntries(f) else {}
  {
    AddMembers(v, level, f, v', l);
  }

  /** Files whose user-key range misses that of `f` share no key with it. */
  lemma NoSharedKeys(files: seq<FileMeta>, f: FileMeta)
    requires ValidFiles(files) && ValidFile(f)
    requires NoFileMeets(files, f.smallest.user, f.largest.user)
    ensures Newer(LevelEntries(files), FileEntries(f)) && Newer(FileEntries(f), LevelEntries(files))
  {
    forall a, b | a in LevelEntries(files) && b in FileEntries(f)
      ensures a.key.user != b.key.user
    {
      var g :| g in files && a in FileEntries(g);
      FileBounds(g, a);
      FileBounds(f, b);
      assert !Meets(g, Some(f.smallest.user), Some(f.largest.user));
    }
  }

  lemma AddByAge(v: Version, level: nat, f: FileMeta, v': Version)
    requires |v| == NUM_LEVELS && LevelsByAge(v)
    requires forall l: nat, g :: 0 <= l < |v| && g in v[l] ==> ValidFile(g)
    requires ValidFile(f) && MayAddAt(v, level, f)
    requires Newer(FileEntries(f), VersionEntries(v))
    requires Edited(v, AddEdit(level, f), v')
    ensures LevelsByAge(v')
  {
    forall i, j | 0 <= i < j < NUM_LEVELS
      ensures Newer(LevelEntries(v'[i]), LevelEntries(v'[j]))
    {
      AddLevelEntries(v, level, f, v', i);
      AddLevelEntries(v, level, f, v', j);
      assert Newer(LevelEntries(v[i]), LevelEntries(v[j]));
      if j == level {
        NoSharedKeys(v[i], f);
        NewerUnion(LevelEntries(v[i]), LevelEntries(v[j]), FileEntries(f));
      } else if i == level {
        LevelWithin(v, j);
        NewerSubset(FileEntries(f), VersionEntries(v), FileEntries(f), LevelEntries(v[j]));
        NewerUnion(LevelEntries(v[j]), LevelEntries(v[i]), FileEntries(f));
      }
    }
  }

  lemma LevelWithin(v: Version, l: nat)
    requires l < |v|
    ensures LevelEntries(v[l]) <= VersionEntries(v)
  {
  }

  lemma AddLevel0(files: seq<FileMeta>, f: FileMeta, files': seq<FileMeta>)
    requires NumberedByAge(files) && SortedFiles(files')
    requires forall g :: g in files ==> g.number < f.number
    requires Newer(FileEntries(f), LevelEntries(files))
    requires forall g :: g in files' <==> g in files || g == f
    ensures NumberedByAge(files')
  {
    forall i, j | 0 <= i < j < |files'|
      ensures files'[i].number != files'[j].number
    {
      var a, b := files'[i], files'[j];
      assert a in files' && b in files' && BySmallest(a, b);
      if a in files && b in files {
        var p :| 0 <= p < |files| && files[p] == a;
        var q :| 0 <= q < |files| && files[q] == b;
      }
    }
    forall a, b | a in files' && b in files' && a.number > b.number
      ensures Newer(FileEntries(a), FileEntries(b))
    {
      if a == f {
        assert FileEntries(b) <= LevelEntries(files);
        NewerSubset(FileEntries(f), LevelEntries(files), FileEntries(a), FileEntries(b));
      }
    }
  }

  lemma AddSortedLevel(files: seq<FileMeta>, f: FileMeta, files': seq<FileMeta>)
    requires ValidFiles(files) && Disjoint(files) && ValidFile(f) && SortedFiles(files')
    requires NoFileMeets(files, f.smallest.user, f.largest.user)
    requires forall g :: g in files' <==> g in files || g == f
    ensures Disjoint(files')
  {
    DisjointIsApart(files);
    forall g | g in files
      ensures Less(f.largest, g.smallest) || Less(g.largest, f.smallest)
    {
      assert !Meets(g, Some(f.smallest.user), Some(f.largest.user));
    }
    ApartIsDisjoint(files');
  }

  lemma AddRuns(v: Version, level: nat, f: FileMeta, v': Version)
    requires forall l: nat, g :: 0 <= l < |v| && g in v[l] ==> ValidFile(g)
    requires |v| == NUM_LEVELS && forall l :: 1 <= l < |v| ==> Disjoint(v[l])
    requires NumberedByAge(v[0])
    requires ValidFile(f) && MayAddAt(v, level, f)
    requires Newer(FileEntries(f), LevelEntries(v[0]))
    requires Edited(v, AddEdit(level, f), v')
    ensures forall l: nat, g :: 0 <= l < |v'| && g in v'[l] ==> ValidFile(g)
    ensures forall l :: 1 <= l < |v'| ==> Disjoint(v'[l])
    ensures NumberedByAge(v'[0])
  {
    forall l: nat | 0 <= l < NUM_LEVELS
      ensures ValidFiles(v'[l])
      ensures if l == 0 then NumberedByAge(v'[l]) else Disjoint(v'[l])
    {
      AddMembers(v, level, f, v', l);
      if l == 0 && level == 0 {
        AddLevel0(v[0], f, v'[0]);
      } else if l == level {
        AddSortedLevel(v[l], f, v'[l]);
      } else if l == 0 {
        SubLevel0Same(v[0], v'[0]);
      } else {
        SubLevelDisjoint(v[l], v'[l]);
      }
    }
  }

  lemma SubLevel0Same(files: seq<FileMeta>, files': seq<FileMeta>)
    requires NumberedByAge(files) && SortedFiles(files') && Subset(files', files)
    ensures NumberedByAge(files')
  {
    forall f, g | f in files && g in files && f.number == g.number
      ensures f == g
    {
      var p :| 0 <= p < |files| && files[p] == f;
      var q :| 0 <= q < |files| && files[q] == g;
    }
    SubLevel0(files, files');
  }

  lemma AddNumbers(v: Version, level: nat, f: FileMeta, v': Version)
    requires DistinctNumbers(v) && |v| == NUM_LEVELS
    requires forall l: nat, g :: 0 <= l < |v| && g in v[l] ==> g.number != f.number
    requires Edited(v, AddEdit(level, f), v')
    ensures DistinctNumbers(v')
  {
    forall l: nat, m: nat, a, b | 0 <= l < |v'| && 0 <= m < |v'| && a in v'[l] && b in v'[m] && a.number == b.number
      ensures l == m && a == b
    {
      AddMembers(v, level, f, v', l);
      AddMembers(v, level, f, v', m);
    }
  }

  /** A table of entries newer than the version may be added where MayAddAt allows. */
  lemma AddKeepsVersion(v: Version, level: nat, f: FileMeta, v': Version)
    requires ValidVersion(v) && DistinctNumbers(v)
    requires ValidFile(f) && MayAddAt(v, level, f)
    requires forall l: nat, g :: 0 <= l < |v| && g in v[l] ==> g.number != f.number
    requires Newer(FileEntries(f), VersionEntries(v))
    requires Edited(v, AddEdit(level, f), v')
    ensures ValidVersion(v') && DistinctNumbers(v')
    ensures VersionEntries(v') == VersionEntries(v) + FileEntries(f)
  {
    LevelWithin(v, 0);
    NewerSubset(FileEntries(f), VersionEntries(v), FileEntries(f), LevelEntries(v[0]));
    AddRuns(v, level, f, v');
    AddByAge(v, level, f, v');
    AddNumbers(v, level, f, v');
    AddEntries(v, level, f, v');
  }

  lemma AddEntries(v: Version, level: nat, f: FileMeta, v': Version)
    requires Edited(v, AddEdit(level, f), v') && level < NUM_LEVELS
    ensures VersionEntries(v') == VersionEntries(v) + FileEntries(f)
  {
    forall x
      ensures x in VersionEntries(v') <==> x in VersionEntries(v) || x in FileEntries(f)
    {
      forall l: nat | l < NUM_LEVELS
        ensures LevelEntries(v'[l]) == LevelEntries(v[l]) + if l == level then FileEntries(f) else {}
      {
        AddLevelEntries(v, level, f, v', l);
      }
      if x in FileEntries(f) {
        assert x in LevelEntries(v'[level]);
      }
      if x in VersionEntries(v) {
        var l :| 0 <= l < NUM_LEVELS && x in LevelEntries(v[l]);
        assert x in LevelEntries(v'[l]);
      }
    }
  }

  lemma LayersWithoutImm(mem: seq<Entry>, v: Version)
    requires Sorted(mem) && ValidVersion(v) && SortedVersion(v)
    requires Newer(Elements(mem), VersionEntries(v))
    ensures ValidLayers(Layers(mem, None, v))
    ensures Stored(Layers(mem, None, v)) == Elements(mem) + VersionEntries(v)
  {
    assert {} + VersionEntries(v) == VersionEntries(v);
  }

  lemma LayersParts(st: Layers)
    requires ValidLayers(st)
    ensures Sorted(st.mem) && ValidVersion(st.version) && SortedVersion(st.version)
    ensures Newer(Elements(st.mem), ImmEntries(st)) && Newer(Elements(st.mem), VersionEntries(st.version))
    ensures Newer(ImmEntries(st), VersionEntries(st.version))
  {
    NewerUnion(Elements(st.mem), ImmEntries(st), VersionEntries(st.version));
  }

  /** CompactMemTable: the immutable memtable becomes a table; readers see the same entries. */
  lemma FlushKeepsLayers(st: Layers, level: nat, f: FileMeta, v': Version)
    requires ValidLayers(st) && DistinctNumbers(st.version)
    requires st.imm == Some(f.entries) && ValidFile(f)
    requires MayAddAt(st.version, level, f)
    requires forall l: nat, g :: 0 <= l < |st.version| && g in st.version[l] ==> g.number != f.number
    requires Edited(st.version, AddEdit(level, f), v')
    ensures ValidLayers(Layers(st.mem, None, v')) && DistinctNumbers(v')
    ensures Stored(Layers(st.mem, None, v')) == Stored(st)
  {
    LayersParts(st);
    AddKeepsVersion(st.version, level, f, v');
    AfterFlush(st.mem, f, st.version, v');
  }

  lemma AfterFlush(mem: seq<Entry>, f: FileMeta, v: Version, v': Version)
    requires Newer(Elements(mem), FileEntries(f)) && Newer(Elements(mem), VersionEntries(v))
    requires Sorted(mem) && ValidVersion(v') && SortedVersion(v')
    requires VersionEntries(v') == VersionEntries(v) + FileEntries(f)
    ensures ValidLayers(Layers(mem, None, v'))
    ensures Stored(Layers(mem, None, v')) == Elements(mem) + (FileEntries(f) + VersionEntries(v))
  {
    NewerUnion(Elements(mem), VersionEntries(v), FileEntries(f));
    LayersWithoutImm(mem, v');
  }

  /** An empty immutable memtable leaves no table behind. */
  lemma FlushEmptyKeepsLayers(st: Layers)
    requires ValidLayers(st) && st.imm == Some([])
    ensures ValidLayers(Layers(st.mem, None, st.version))
    ensures Stored(Layers(st.mem, None, st.version)) == Stored(st)
  {
  }

  // ----- installing a compaction -----

  ghost function LeftBehind(files: seq<FileMeta>, inputs: seq<FileMeta>): set<Entry> {
    set f, e | f in files && f !in inputs && e in FileEntries(f) :: e
  }

  ghost function EntriesAbove(v: Version, hi: nat): set<Entry> {
    set l, e | 0 <= l < |v| && l < hi && e in LevelEntries(v[l]) :: e
  }

  /** What lies around the inputs of a compaction. */
  ghost function Surround(st: Layers, c: Compaction): Surroundings
    requires |st.version| == NUM_LEVELS && c.level + 1 < NUM_LEVELS
  {
    Surroundings(
      Elements(st.mem) + ImmEntries(st) + EntriesAbove(st.version, c.level) + LeftBehind(st.version[c.level], c.inputs0),
      LeftBehind(st.version[c.level + 1], c.inputs1),
      EntriesFrom(st.version, c.level + 2))
  }

  lemma LevelIsInputsAndRest(files: seq<FileMeta>, inputs: seq<FileMeta>)
    requires Subset(inputs, files)
    ensures LevelEntries(files) == LeftBehind(files, inputs) + LevelEntries(inputs)
  {
  }

  lemma SplitVersion(v: Version, l: nat)
    requires |v| == NUM_LEVELS && l + 1 < NUM_LEVELS
    ensures VersionEntries(v) == EntriesAbove(v, l) + (LevelEntries(v[l]) + (LevelEntries(v[l + 1]) + EntriesFrom(v, l + 2)))
  {
    forall x
      ensures x in VersionEntries(v) <==> x in EntriesAbove(v, l) + (LevelEntries(v[l]) + (LevelEntries(v[l + 1]) + EntriesFrom(v, l + 2)))
    {
      if x in VersionEntries(v) {
        var m :| 0 <= m < |v| && x in LevelEntries(v[m]);
        assert m < l || m == l || m == l + 1 || l + 2 <= m;
      }
    }
  }

  /** The stored entries are the inputs and their surroundings. */
  lemma StoredSplit(st: Layers, c: Compaction)
    requires |st.version| == NUM_LEVELS && c.level + 1 < NUM_LEVELS
    requires Subset(c.inputs0, st.version[c.level]) && Subset(c.inputs1, st.version[c.level + 1])
    ensures Stored(st) == Surround(st, c).All() + InputEntries(c)
  {
    SplitVersion(st.version, c.level);
    LevelIsInputsAndRest(st.version[c.level], c.inputs0);
    LevelIsInputsAndRest(st.version[c.level + 1], c.inputs1);
  }

  /** After the install the outputs have taken the place of the inputs. */
  lemma StoredAfterInstall(st: Layers, c: Compaction, outs: seq<FileMeta>, v': Version)
    requires Replaced(st.version, c, outs, v')
    ensures Stored(st.(version := v')) == Surround(st, c).All() + LevelEntries(outs)
  {
    hide Replaced, LevelEntries, LeftBehind, EntriesAbove, EntriesFrom, Elements, VersionEntries;
    ReplacedShape(st.version, c, outs, v');
    SplitVersion(v', c.level);
    ReplacedLevels(st.version, c, outs, v');
  }

  lemma ReplacedShape(v: Version, c: Compaction, outs: seq<FileMeta>, v': Version)
    requires Replaced(v, c, outs, v')
    ensures |v| == |v'| == NUM_LEVELS && c.level + 1 < NUM_LEVELS
  {
  }

  lemma ReplacedLevels(v: Version, c: Compaction, outs: seq<FileMeta>, v': Version)
    requires Replaced(v, c, outs, v')
    ensures LevelEntries(v'[c.level]) == LeftBehind(v[c.level], c.inputs0)
    ensures LevelEntries(v'[c.level + 1]) == LeftBehind(v[c.level + 1], c.inputs1) + LevelEntries(outs)
    ensures EntriesAbove(v', c.level) == EntriesAbove(v, c.level)
    ensures EntriesFrom(v', c.level + 2) == EntriesFrom(v, c.level + 2)
  {
    var l := c.level;
    forall m: nat | m < NUM_LEVELS && m != l && m != l + 1
      ensures LevelEntries(v'[m]) == LevelEntries(v[m])
    {
      assert forall f :: !IsInput(c, m, f);
      assert forall f :: f in v'[m] <==> f in v[m];
    }
    forall f
      ensures f in v'[l] <==> f in v[l] && f !in c.inputs0
      ensures f in v'[l + 1] <==> (f in v[l + 1] && f !in c.inputs1) || f in outs
    {
      assert IsInput(c, l, f) <==> f in c.inputs0;
      assert IsInput(c, l + 1, f) <==> f in c.inputs1;
    }
  }

  /** Surrounding entries above are newer, entries below are older, than every input. */
  lemma SurroundByAge(st: Layers, c: Compaction)
    requires |st.version| == NUM_LEVELS && c.level + 1 < NUM_LEVELS
    requires LevelsByAge(st.version)
    requires Newer(Elements(st.mem), VersionEntries(st.version)) && Newer(ImmEntries(st), VersionEntries(st.version))
    requires Subset(c.inputs0, st.version[c.level]) && Subset(c.inputs1, st.version[c.level + 1])
    requires LeftBehindNewer(st.version[c.level], c.inputs0)
    ensures Newer(Surround(st, c).up, InputEntries(c))
    ensures Newer(InputEntries(c), Surround(st, c).down)
  {
    var v, l, I := st.version, c.level, InputEntries(c);
    LevelEntriesSubset(c.inputs0, v[l]);
    LevelEntriesSubset(c.inputs1, v[l + 1]);
    var both := LevelEntries(v[l]) + LevelEntries(v[l + 1]);
    LevelWithin(v, l);
    LevelWithin(v, l + 1);
    NewerSubset(Elements(st.mem), VersionEntries(v), Elements(st.mem), I);
    NewerSubset(ImmEntries(st), VersionEntries(v), ImmEntries(st), I);
    forall a, b | a in EntriesAbove(v, l) && b in I && a.key.user == b.key.user
      ensures Less(a.key, b.key)
    {
      var m :| 0 <= m < l && a in LevelEntries(v[m]);
      assert Newer(LevelEntries(v[m]), LevelEntries(v[l])) && Newer(LevelEntries(v[m]), LevelEntries(v[l + 1]));
      assert b in LevelEntries(v[l]) || b in LevelEntries(v[l + 1]);
    }
    forall a, b | a in LeftBehind(v[l], c.inputs0) && b in I && a.key.user == b.key.user
      ensures Less(a.key, b.key)
    {
      assert Newer(LevelEntries(v[l]), LevelEntries(v[l + 1]));
      var g :| g in v[l] && g !in c.inputs0 && a in FileEntries(g);
      if b in LevelEntries(c.inputs0) {
        var f :| f in c.inputs0 && b in FileEntries(f);
        assert Newer(FileEntries(g), FileEntries(f));
      } else {
        assert a in LevelEntries(v[l]);
      }
    }
    forall a, b | a in I && b in EntriesFrom(v, l + 2) && a.key.user == b.key.user
      ensures Less(a.key, b.key)
    {
      var m :| l + 2 <= m < |v| && b in LevelEntries(v[m]);
      assert Newer(LevelEntries(v[l]), LevelEntries(v[m])) && Newer(LevelEntries(v[l + 1]), LevelEntries(v[m]));
      assert a in LevelEntries(v[l]) || a in LevelEntries(v[l + 1]);
    }
  }

  /** No entry is both an input and in a next-level file left alone. */
  lemma ParentsApart(v: Version, c: Compaction)
    requires |v| == NUM_LEVELS && c.level + 1 < NUM_LEVELS
    requires ValidFiles(v[c.level + 1]) && Disjoint(v[c.level + 1])
    requires Newer(LevelEntries(v[c.level]), LevelEntries(v[c.level + 1]))
    requires Subset(c.inputs0, v[c.level]) && Subset(c.inputs1, v[c.level + 1])
    ensures LeftBehind(v[c.level + 1], c.inputs1) !! InputEntries(c)
  {
    var l := c.level;
    LevelEntriesSubset(c.inputs0, v[l]);
    forall x | x in LeftBehind(v[l + 1], c.inputs1)
      ensures x !in InputEntries(c)
    {
      var g :| g in v[l + 1] && g !in c.inputs1 && x in FileEntries(g);
      assert x in LevelEntries(v[l + 1]);
      forall f | f in c.inputs1
        ensures x !in FileEntries(f)
      {
        DisjointApart(v[l + 1], f, g);
        FileBounds(g, x);
        if x in FileEntries(f) {
          FileBounds(f, x);
        }
      }
    }
  }

  lemma SurroundIsAround(st: Layers, c: Compaction)
    requires ValidLayers(st) && WellChosen(st.version, c) && UniqueKeys(Stored(st))
    ensures Around(Surround(st, c), InputEntries(c))
    ensures Subset(c.inputs1, st.version[c.level + 1])
  {
    LayersParts(st);
    var _, _ := ParentsFacts(st.version[c.level + 1], c.inputs0, c.inputs1);
    SurroundByAge(st, c);
    ParentsApart(st.version, c);
    StoredSplit(st, c);
  }

  lemma BaseLevelIsSafe(st: Layers, c: Compaction)
    requires |st.version| == NUM_LEVELS && c.level + 1 < NUM_LEVELS
    requires forall l: nat, f :: 0 <= l < |st.version| && f in st.version[l] ==> ValidFile(f)
    ensures BaseIsSafe(Surround(st, c), BaseOf(st.version, c.level))
  {
    forall x | x in Surround(st, c).down
      ensures !BaseLevel(st.version, c.level, x.key.user)
    {
      var m :| c.level + 2 <= m < |st.version| && x in LevelEntries(st.version[m]);
      var f :| f in st.version[m] && x in FileEntries(f);
      FileBounds(f, x);
      assert Spans(f, x.key.user);
    }
  }

  /** No deleted value comes back when `c` is carried out. */
  ghost predicate NothingResurrected(st: Layers, c: Compaction, smallestSnapshot: SequenceNumber)
    requires |st.version| == NUM_LEVELS && c.level + 1 < NUM_LEVELS
  {
    ResurrectsNothing(Surround(st, c), InputEntries(c), smallestSnapshot, BaseOf(st.version, c.level))
  }

  /** Carrying out a compaction keeps the LSM invariant, and keeps every view at or after the
      smallest snapshot exactly when it resurrects no key. */
  lemma CompactionExact(st: Layers, c: Compaction, smallestSnapshot: SequenceNumber, outs: seq<FileMeta>, v': Version)
    requires ValidLayers(st) && DistinctNumbers(st.version) && UniqueKeys(Stored(st))
    requires WellChosen(st.version, c) && GoodOutputs(st.version, c, outs)
    requires LevelEntries(outs) == Survivors(InputEntries(c), smallestSnapshot, BaseOf(st.version, c.level))
    requires Edited(st.version, InstallEdit(c, outs), v')
    ensures SameViews(Stored(st), Stored(st.(version := v')), smallestSnapshot) <==> NothingResurrected(st, c, smallestSnapshot)
  {
    SurroundIsAround(st, c);
    LayersParts(st);
    BaseLevelIsSafe(st, c);
    InstallMembers(st.version, c, outs, v');
    ExactWithin(st, c, smallestSnapshot, outs, v');
  }

  lemma ExactWithin(st: Layers, c: Compaction, smallestSnapshot: SequenceNumber, outs: seq<FileMeta>, v': Version)
    requires Replaced(st.version, c, outs, v')
    requires Subset(c.inputs0, st.version[c.level]) && Subset(c.inputs1, st.version[c.level + 1])
    requires Around(Surround(st, c), InputEntries(c)) && BaseIsSafe(Surround(st, c), BaseOf(st.version, c.level))
    requires LevelEntries(outs) == Survivors(InputEntries(c), smallestSnapshot, BaseOf(st.version, c.level))
    ensures SameViews(Stored(st), Stored(st.(version := v')), smallestSnapshot) <==> NothingResurrected(st, c, smallestSnapshot)
  {
    StoredSplit(st, c);
    StoredAfterInstall(st, c, outs, v');
    CompactionKeepsViewsIff(Surround(st, c), InputEntries(c), smallestSnapshot, BaseOf(st.version, c.level));
  }

  lemma InstallKeepsLayers(st: Layers, c: Compaction, outs: seq<FileMeta>, v': Version)
    requires ValidLayers(st) && DistinctNumbers(st.version)
    requires WellChosen(st.version, c) && GoodOutputs(st.version, c, outs)
    requires Edited(st.version, InstallEdit(c, outs), v')
    ensures ValidLayers(st.(version := v')) && DistinctNumbers(v')
    ensures Stored(st.(version := v')) <= Stored(st)
    ensures LevelEntries(outs) == InputEntries(c) ==> Stored(st.(version := v')) == Stored(st)
  {
    LayersParts(st);
    InstallMembers(st.version, c, outs, v');
    InstallKeepsVersion(st.version, c, outs, v');
    StoredSplit(st, c);
    StoredAfterInstall(st, c, outs, v');
    InstallShrinks(st, c, outs, v');
    LayersKeepUnderShrink(st, v');
  }

  lemma InstallShrinks(st: Layers, c: Compaction, outs: seq<FileMeta>, v': Version)
    requires |st.version| == NUM_LEVELS && Replaced(st.version, c, outs, v')
    requires Subset(c.inputs0, st.version[c.level]) && Subset(c.inputs1, st.version[c.level + 1])
    requires LevelEntries(outs) <= InputEntries(c)
    ensures VersionEntries(v') <= VersionEntries(st.version)
  {
    SplitVersion(st.version, c.level);
    SplitVersion(v', c.level);
    ReplacedLevels(st.version, c, outs, v');
    LevelIsInputsAndRest(st.version[c.level], c.inputs0);
    LevelIsInputsAndRest(st.version[c.level + 1], c.inputs1);
  }

  lemma LayersKeepUnderShrink(st: Layers, v': Version)
    requires Sorted(st.mem) && (st.imm.Some? ==> Sorted(st.imm.value))
    requires Newer(Elements(st.mem), ImmEntries(st)) && Newer(Elements(st.mem), VersionEntries(st.version))
    requires Newer(ImmEntries(st), VersionEntries(st.version))
    requires ValidVersion(v') && SortedVersion(v')
    requires VersionEntries(v') <= VersionEntries(st.version)
    ensures ValidLayers(st.(version := v'))
  {
    NewerSubset(Elements(st.mem), VersionEntries(st.version), Elements(st.mem), VersionEntries(v'));
    NewerSubset(ImmEntries(st), VersionEntries(st.version), ImmEntries(st), VersionEntries(v'));
    NewerUnion(Elements(st.mem), ImmEntries(st), VersionEntries(v'));
  }

  // ----- when nothing can be resurrected -----

  /** If the next-level inputs end in a clean cut (what a further AddBoundaryInputs on that
      level would establish), no key is resurrected. */
  lemma CleanParentsResurrectNothing(st: Layers, c: Compaction, smallestSnapshot: SequenceNumber)
    requires ValidLayers(st) && WellChosen(st.version, c)
    requires c.inputs1 != [] ==> CleanCut(st.version[c.level + 1], c.inputs1)
    ensures NothingResurrected(st, c, smallestSnapshot)
  {
    LayersParts(st);
    LevelsOfInputs(st.version, c);
    LevelBounds(st.version, c);
    hide ValidLayers, WellChosen, ValidVersion, ValidFiles, Disjoint, CleanCut, ParentsOf, Less, InputEntries, LeftBehind, NothingResurrected;
    var next := st.version[c.level + 1];
    var lo, hi := ParentsFacts(next, c.inputs0, c.inputs1);
    forall e, r | e in InputEntries(c) && r in LeftBehind(next, c.inputs1)
      ensures !(e.key.user == r.key.user && Less(e.key, r.key))
    {
      CleanCutParents(next, c, lo, hi, e, r);
    }
    NoneOlderLeft(st, c, smallestSnapshot);
  }

  lemma NoneOlderLeft(st: Layers, c: Compaction, smallestSnapshot: SequenceNumber)
    requires |st.version| == NUM_LEVELS && c.level + 1 < NUM_LEVELS
    requires forall e, r :: e in InputEntries(c) && r in LeftBehind(st.version[c.level + 1], c.inputs1) ==>
      !(e.key.user == r.key.user && Less(e.key, r.key))
    ensures NothingResurrected(st, c, smallestSnapshot)
  {
    hide InputEntries, LeftBehind, Less, Obsolete, Newest;
  }

  lemma LevelBounds(v: Version, c: Compaction)
    requires WellChosen(v, c)
    ensures |v| == NUM_LEVELS && c.level + 1 < NUM_LEVELS
  {
  }

  lemma LevelsOfInputs(v: Version, c: Compaction)
    requires ValidVersion(v) && WellChosen(v, c)
    ensures ValidFiles(v[c.level + 1]) && Disjoint(v[c.level + 1]) && ValidFiles(c.inputs0)
    ensures c.inputs0 != [] && ParentsOf(v[c.level + 1], c.inputs0, c.inputs1)
  {
    hide ParentsOf, Disjoint, LeftBehindNewer;
  }

  lemma CleanCutParents(next: seq<FileMeta>, c: Compaction, lo: InternalKey, hi: InternalKey, e: Entry, r: Entry)
    requires ValidFiles(next) && Disjoint(next) && ValidFiles(c.inputs0)
    requires IsSmallest(c.inputs0, lo) && IsLargest(c.inputs0, hi)
    requires forall f :: f in c.inputs1 <==> f in next && Meets(f, Some(lo.user), Some(hi.user))
    requires c.inputs1 != [] ==> CleanCut(next, c.inputs1)
    requires e in InputEntries(c) && r in LeftBehind(next, c.inputs1)
    ensures !(e.key.user == r.key.user && Less(e.key, r.key))
  {
    hide Less, CleanCut;
    var g :| g in next && g !in c.inputs1 && r in FileEntries(g);
    if e in LevelEntries(c.inputs0) {
      var f :| f in c.inputs0 && e in FileEntries(f);
      OutsideRange(c.inputs0, lo, hi, f, g, e, r);
    } else {
      var f :| f in c.inputs1 && e in FileEntries(f);
      BesideCut(next, c.inputs1, lo.user, hi.user, f, g, e, r);
    }
  }

  /** A file that misses the range of the inputs shares no user key with them. */
  lemma OutsideRange(inputs0: seq<FileMeta>, lo: InternalKey, hi: InternalKey, f: FileMeta, g: FileMeta, e: Entry, r: Entry)
    requires ValidFiles(inputs0) && f in inputs0 && ValidFile(g) && !Meets(g, Some(lo.user), Some(hi.user))
    requires IsSmallest(inputs0, lo) && IsLargest(inputs0, hi)
    requires e in FileEntries(f) && r in FileEntries(g)
    ensures e.key.user != r.key.user
  {
    FileBounds(g, r);
    FileBounds(f, e);
    InRange(inputs0, lo, hi, f);
  }

  /** A file beside inputs that end in a clean cut has only newer entries of their user keys. */
  lemma BesideCut(next: seq<FileMeta>, inputs1: seq<FileMeta>, lo: UserKey, hi: UserKey, f: FileMeta, g: FileMeta, e: Entry, r: Entry)
    requires ValidFiles(next) && Disjoint(next) && CleanCut(next, inputs1) && Subset(inputs1, next)
    requires f in inputs1 && g in next && g !in inputs1 && e in FileEntries(f) && r in FileEntries(g)
    requires (forall a :: a in inputs1 ==> Meets(a, Some(lo), Some(hi))) && !Meets(g, Some(lo), Some(hi))
    ensures !(e.key.user == r.key.user && Less(e.key, r.key))
  {
    FileBounds(g, r);
    FileIsRange(g);
    FileBounds(f, e);
    var k := SomeLargest(inputs1);
    var last :| last in inputs1 && last.largest == k;
    DisjointApart(next, f, g);
    DisjointApart(next, last, g);
    FileIsRange(last);
    FileIsRange(f);
    assert !IsBoundary(g, k);
  }
}
