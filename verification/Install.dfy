/** Installing the result of a compaction or a trivial move keeps the LSM invariant
    (InstallCompactionResults and BackgroundCompaction in db_impl.cc). */
module Install {
  import opened Keys
  import opened Entries
  import opened Versions
  import opened Overlap
  import opened Selection
  import opened Picking
  import opened VersionBuilder
  import opened Store
  import opened Options

  ghost predicate DistinctNumbers(v: Version) {
    forall l: nat, m: nat, f, g :: 0 <= l < |v| && 0 <= m < |v| && f in v[l] && g in v[m] && f.number == g.number ==> l == m && f == g
  }

  ghost function InputEntries(c: Compaction): set<Entry> {
    LevelEntries(c.inputs0) + LevelEntries(c.inputs1)
  }

  function Placed(level: nat, files: seq<FileMeta>): seq<(nat, FileMeta)> {
    seq(|files|, i requires 0 <= i < |files| => (level, files[i]))
  }

  lemma PlacedMembers(level: nat, files: seq<FileMeta>)
    ensures forall l: nat, f :: (l, f) in Placed(level, files) <==> l == level && f in files
  {
    forall l, f
      ensures (l, f) in Placed(level, files) <==> l == level && f in files
    {
      if f in files {
        var i :| 0 <= i < |files| && files[i] == f;
        assert Placed(level, files)[i] == (level, f);
      }
    }
  }

  /** AddInputDeletions, then one AddFile at the next level per output. */
  function InstallEdit(c: Compaction, outs: seq<FileMeta>): Edit {
    EMPTY_EDIT.(
      deleted := (set f | f in c.inputs0 :: (c.level, f.number)) + (set f | f in c.inputs1 :: (c.level + 1, f.number)),
      added := Placed(c.level + 1, outs))
  }

  ghost predicate IsInput(c: Compaction, l: nat, f: FileMeta) {
    (l == c.level && f in c.inputs0) || (l == c.level + 1 && f in c.inputs1)
  }

  /** Outputs in key order, made of input entries, under numbers nothing else uses. */
  ghost predicate GoodOutputs(v: Version, c: Compaction, outs: seq<FileMeta>) {
    && ValidFiles(outs)
    && Disjoint(outs)
    && LevelEntries(outs) <= InputEntries(c)
    && (forall i, j :: 0 <= i < j < |outs| ==> outs[i].number != outs[j].number)
    && forall o, l: nat, f :: o in outs && 0 <= l < |v| && f in v[l] && f.number == o.number ==> IsInput(c, l, f)
  }

  lemma {:induction false} SomeRange(files: seq<FileMeta>) returns (lo: InternalKey, hi: InternalKey)
    requires files != []
    ensures IsSmallest(files, lo) && IsLargest(files, hi)
  {
    hi := SomeLargest(files);
    lo := SomeSmallest(files);
  }

  /** The next-level inputs, read off the definition. */
  lemma ParentsFacts(next: seq<FileMeta>, inputs0: seq<FileMeta>, inputs1: seq<FileMeta>) returns (lo: InternalKey, hi: InternalKey)
    requires inputs0 != [] && ParentsOf(next, inputs0, inputs1)
    ensures IsSmallest(inputs0, lo) && IsLargest(inputs0, hi)
    ensures forall f :: f in inputs1 <==> f in next && Meets(f, Some(lo.user), Some(hi.user))
  {
    lo, hi := SomeRange(inputs0);
    FilterMembers(next, Some(lo.user), Some(hi.user));
  }

  /** `v'` has the inputs replaced by the outputs. */
  ghost predicate Replaced(v: Version, c: Compaction, outs: seq<FileMeta>, v': Version) {
    && |v| == |v'| == NUM_LEVELS
    && c.level + 1 < NUM_LEVELS
    && SortedVersion(v')
    && forall l: nat, f {:trigger f in v'[l]} {:trigger f in v[l]} {:trigger IsInput(c, l, f)} :: 0 <= l < NUM_LEVELS ==>
      (f in v'[l] <==> (f in v[l] && !IsInput(c, l, f)) || (l == c.level + 1 && f in outs))
  }

  lemma DeletedAreInputs(v: Version, c: Compaction, outs: seq<FileMeta>, l: nat, f: FileMeta)
    requires DistinctNumbers(v)
    requires c.level + 1 < |v| && Subset(c.inputs0, v[c.level]) && Subset(c.inputs1, v[c.level + 1])
    requires l < |v| && f in v[l]
    ensures (l, f.number) in InstallEdit(c, outs).deleted <==> IsInput(c, l, f)
  {
    if (l, f.number) in InstallEdit(c, outs).deleted {
      var g :| (g in c.inputs0 && l == c.level && g.number == f.number) || (g in c.inputs1 && l == c.level + 1 && g.number == f.number);
      assert g in v[l];
    }
  }

  /** The edit removes the input files and nothing else. */
  lemma InstallMembers(v: Version, c: Compaction, outs: seq<FileMeta>, v': Version)
    requires WellChosen(v, c) && DistinctNumbers(v)
    requires Edited(v, InstallEdit(c, outs), v')
    ensures Subset(c.inputs1, v[c.level + 1])
    ensures Replaced(v, c, outs, v')
  {
    var _, _ := ParentsFacts(v[c.level + 1], c.inputs0, c.inputs1);
    ReplacedIntro(v, c, outs, v');
  }

  lemma ReplacedIntro(v: Version, c: Compaction, outs: seq<FileMeta>, v': Version)
    requires |v| == NUM_LEVELS && c.level + 1 < NUM_LEVELS && DistinctNumbers(v)
    requires Subset(c.inputs0, v[c.level]) && Subset(c.inputs1, v[c.level + 1])
    requires Edited(v, InstallEdit(c, outs), v')
    ensures Replaced(v, c, outs, v')
  {
    PlacedMembers(c.level + 1, outs);
    var e := InstallEdit(c, outs);
    forall l: nat, f | 0 <= l < NUM_LEVELS
      ensures f in v'[l] <==> (f in v[l] && !IsInput(c, l, f)) || (l == c.level + 1 && f in outs)
    {
      assert (l, f) in e.added <==> l == c.level + 1 && f in outs;
      if f in v[l] {
        DeletedAreInputs(v, c, outs, l, f);
      }
    }
  }

  /** A next-level file outside the inputs lies wholly before or wholly after all of them. */
  lemma OutsideInputs(next: seq<FileMeta>, c: Compaction, lo: InternalKey, hi: InternalKey, r: FileMeta)
    requires ValidFiles(next) && Disjoint(next) && ValidFiles(c.inputs0)
    requires IsSmallest(c.inputs0, lo) && IsLargest(c.inputs0, hi)
    requires forall f :: f in c.inputs1 <==> f in next && Meets(f, Some(lo.user), Some(hi.user))
    requires r in next && r !in c.inputs1
    ensures || (forall x :: x in InputEntries(c) ==> Less(r.largest, x.key))
            || (forall x :: x in InputEntries(c) ==> Less(x.key, r.smallest))
  {
    FileIsRange(r);
    forall x | x in InputEntries(c)
      ensures if r.largest.user < lo.user then Less(r.largest, x.key) else Less(x.key, r.smallest)
    {
      if x in LevelEntries(c.inputs0) {
        var f :| f in c.inputs0 && x in FileEntries(f);
        FileBounds(f, x);
        InRange(c.inputs0, lo, hi, f);
      } else {
        var f :| f in c.inputs1 && x in FileEntries(f);
        FileBounds(f, x);
        DisjointApart(next, f, r);
      }
    }
  }

  lemma OutputApart(c: Compaction, outs: seq<FileMeta>, o: FileMeta, r: FileMeta)
    requires ValidFiles(outs) && LevelEntries(outs) <= InputEntries(c)
    requires || (forall x :: x in InputEntries(c) ==> Less(r.largest, x.key))
             || (forall x :: x in InputEntries(c) ==> Less(x.key, r.smallest))
    requires o in outs
    ensures Less(o.largest, r.smallest) || Less(r.largest, o.smallest)
  {
    var a, b := o.entries[0], o.entries[|o.entries| - 1];
    assert a in FileEntries(o) && b in FileEntries(o);
    assert a in LevelEntries(outs) && b in LevelEntries(outs);
  }

  /** The next level stays a run of disjoint files. */
  lemma NextLevelDisjoint(next: seq<FileMeta>, c: Compaction, outs: seq<FileMeta>, next': seq<FileMeta>)
    requires ValidFiles(next) && Disjoint(next)
    requires c.inputs0 != [] && ValidFiles(c.inputs0) && ParentsOf(next, c.inputs0, c.inputs1)
    requires ValidFiles(outs) && Disjoint(outs) && LevelEntries(outs) <= InputEntries(c)
    requires SortedFiles(next')
    requires forall f :: f in next' <==> (f in next && f !in c.inputs1) || f in outs
    ensures ValidFiles(next') && Disjoint(next')
  {
    var lo, hi := ParentsFacts(next, c.inputs0, c.inputs1);
    DisjointIsApart(next);
    DisjointIsApart(outs);
    forall r, o | r in next && r !in c.inputs1 && o in outs
      ensures Less(o.largest, r.smallest) || Less(r.largest, o.smallest)
    {
      OutsideInputs(next, c, lo, hi, r);
      OutputApart(c, outs, o, r);
    }
    ApartIsDisjoint(next');
  }

  lemma LevelEntriesSubset(a: seq<FileMeta>, b: seq<FileMeta>)
    requires Subset(a, b)
    ensures LevelEntries(a) <= LevelEntries(b)
  {
  }

  /** Entries of the levels after the install, bounded by those before it. */
  lemma EntriesAfter(v: Version, c: Compaction, outs: seq<FileMeta>, v': Version, l: nat)
    requires Replaced(v, c, outs, v')
    requires Subset(c.inputs1, v[c.level + 1])
    requires LevelEntries(outs) <= InputEntries(c)
    requires l < NUM_LEVELS
    ensures LevelEntries(v'[l]) <= LevelEntries(v[l]) + if l == c.level + 1 then LevelEntries(c.inputs0) else {}
  {
    LevelEntriesSubset(c.inputs1, v[c.level + 1]);
    forall x | x in LevelEntries(v'[l])
      ensures x in LevelEntries(v[l]) || (l == c.level + 1 && x in LevelEntries(c.inputs0))
    {
      var f :| f in v'[l] && x in FileEntries(f);
      if !(f in v[l]) {
        assert x in LevelEntries(outs);
      }
    }
  }

  /** What stays in the compaction's level is newer than what moves below it. */
  lemma StaysAbove(cur: seq<FileMeta>, inputs0: seq<FileMeta>, cur': seq<FileMeta>, A: set<Entry>)
    requires LeftBehindNewer(cur, inputs0)
    requires forall f :: f in cur' ==> f in cur && f !in inputs0
    requires Newer(LevelEntries(cur), A)
    ensures Newer(LevelEntries(cur'), A + LevelEntries(inputs0))
  {
    forall a, b | a in LevelEntries(cur') && b in A + LevelEntries(inputs0) && a.key.user == b.key.user
      ensures Less(a.key, b.key)
    {
      var g :| g in cur' && a in FileEntries(g);
      if b in LevelEntries(inputs0) {
        var f :| f in inputs0 && b in FileEntries(f);
        assert Newer(FileEntries(g), FileEntries(f));
      } else {
        assert a in LevelEntries(cur);
      }
    }
  }

  /** One pair of levels keeps its age order; stated on entry sets. */
  lemma PairByAge(v: Version, c: Compaction, outs: seq<FileMeta>, v': Version, i: nat, j: nat)
    requires |v| == NUM_LEVELS && LevelsByAge(v)
    requires Replaced(v, c, outs, v')
    requires Subset(c.inputs0, v[c.level]) && Subset(c.inputs1, v[c.level + 1])
    requires LeftBehindNewer(v[c.level], c.inputs0)
    requires LevelEntries(outs) <= InputEntries(c)
    requires i < j < NUM_LEVELS
    ensures Newer(LevelEntries(v'[i]), LevelEntries(v'[j]))
  {
    var l := c.level;
    EntriesAfter(v, c, outs, v', i);
    EntriesAfter(v, c, outs, v', j);
    LevelEntriesSubset(c.inputs0, v[l]);
    var I0 := LevelEntries(c.inputs0);
    assert Newer(LevelEntries(v[i]), LevelEntries(v[j]));
    if i == l && j == l + 1 {
      forall f | f in v'[l]
        ensures f in v[l] && f !in c.inputs0
      {
        assert !IsInput(c, l, f);
      }
      StaysAbove(v[l], c.inputs0, v'[l], LevelEntries(v[j]));
      NewerSubset(LevelEntries(v'[l]), LevelEntries(v[j]) + I0, LevelEntries(v'[i]), LevelEntries(v'[j]));
    } else if j == l + 1 {
      assert Newer(LevelEntries(v[i]), LevelEntries(v[l]));
      NewerUnion(LevelEntries(v[i]), LevelEntries(v[j]), LevelEntries(v[l]));
      NewerSubset(LevelEntries(v[i]), LevelEntries(v[j]) + LevelEntries(v[l]), LevelEntries(v'[i]), LevelEntries(v'[j]));
    } else if i == l + 1 {
      assert Newer(LevelEntries(v[l]), LevelEntries(v[j]));
      NewerUnion(LevelEntries(v[j]), LevelEntries(v[i]), LevelEntries(v[l]));
      NewerSubset(LevelEntries(v[i]) + LevelEntries(v[l]), LevelEntries(v[j]), LevelEntries(v'[i]), LevelEntries(v'[j]));
    } else {
      NewerSubset(LevelEntries(v[i]), LevelEntries(v[j]), LevelEntries(v'[i]), LevelEntries(v'[j]));
    }
  }

  lemma NumbersAfter(v: Version, c: Compaction, outs: seq<FileMeta>, v': Version)
    requires DistinctNumbers(v)
    requires Replaced(v, c, outs, v')
    requires forall i, j :: 0 <= i < j < |outs| ==> outs[i].number != outs[j].number
    requires forall o, l: nat, f :: o in outs && 0 <= l < |v| && f in v[l] && f.number == o.number ==> IsInput(c, l, f)
    ensures DistinctNumbers(v')
  {
    forall l: nat, m: nat, f, g | 0 <= l < |v'| && 0 <= m < |v'| && f in v'[l] && g in v'[m] && f.number == g.number
      ensures l == m && f == g
    {
      var fOut := l == c.level + 1 && f in outs;
      var gOut := m == c.level + 1 && g in outs;
      if fOut && gOut {
        var i :| 0 <= i < |outs| && outs[i] == f;
        var j :| 0 <= j < |outs| && outs[j] == g;
      } else {
        assert fOut || (f in v[l] && !IsInput(c, l, f));
        assert gOut || (g in v[m] && !IsInput(c, m, g));
      }
    }
  }

  lemma SubLevelDisjoint(files: seq<FileMeta>, files': seq<FileMeta>)
    requires ValidFiles(files) && Disjoint(files) && SortedFiles(files')
    requires Subset(files', files)
    ensures Disjoint(files')
  {
    DisjointIsApart(files);
    ApartIsDisjoint(files');
  }

  lemma SubLevel0(files: seq<FileMeta>, files': seq<FileMeta>)
    requires NumberedByAge(files) && SortedFiles(files') && Subset(files', files)
    requires forall f, g :: f in files && g in files && f.number == g.number ==> f == g
    ensures NumberedByAge(files')
  {
    forall i, j | 0 <= i < j < |files'|
      ensures files'[i].number != files'[j].number
    {
      assert files'[i] in files' && files'[j] in files';
      assert BySmallest(files'[i], files'[j]);
    }
  }

  lemma AgeAfter(v: Version, c: Compaction, outs: seq<FileMeta>, v': Version)
    requires |v| == NUM_LEVELS && LevelsByAge(v)
    requires Replaced(v, c, outs, v')
    requires Subset(c.inputs0, v[c.level]) && Subset(c.inputs1, v[c.level + 1])
    requires LeftBehindNewer(v[c.level], c.inputs0)
    requires LevelEntries(outs) <= InputEntries(c)
    ensures LevelsByAge(v')
  {
    forall i, j | 0 <= i < j < NUM_LEVELS
      ensures Newer(LevelEntries(v'[i]), LevelEntries(v'[j]))
    {
      PairByAge(v, c, outs, v', i, j);
    }
  }

  lemma LevelAfter(v: Version, c: Compaction, outs: seq<FileMeta>, v': Version, l: nat)
    requires Replaced(v, c, outs, v')
    requires l < NUM_LEVELS
    ensures SortedFiles(v'[l])
    ensures l != c.level + 1 ==> Subset(v'[l], v[l])
    ensures l == c.level + 1 ==> forall f :: f in v'[l] <==> (f in v[l] && f !in c.inputs1) || f in outs
  {
    forall f: FileMeta
      ensures f in v'[l] <==> (f in v[l] && !IsInput(c, l, f)) || (l == c.level + 1 && f in outs)
    {
    }
  }

  /** Installing good outputs of well-chosen inputs keeps the LSM invariant. */
  lemma InstallKeepsVersion(v: Version, c: Compaction, outs: seq<FileMeta>, v': Version)
    requires ValidVersion(v) && WellChosen(v, c) && DistinctNumbers(v)
    requires GoodOutputs(v, c, outs)
    requires Edited(v, InstallEdit(c, outs), v')
    ensures ValidVersion(v') && SortedVersion(v') && DistinctNumbers(v')
  {
    InstallMembers(v, c, outs, v');
    NumbersAfter(v, c, outs, v');
    AgeAfter(v, c, outs, v');
    FilesAfterValid(v, c, outs, v');
    SortedRunsAfter(v, c, outs, v');
  }

  lemma SortedRunsAfter(v: Version, c: Compaction, outs: seq<FileMeta>, v': Version)
    requires Replaced(v, c, outs, v')
    requires forall l: nat, f :: 0 <= l < |v| && f in v[l] ==> ValidFile(f)
    requires forall l :: 1 <= l < |v| ==> Disjoint(v[l])
    requires NumberedByAge(v[0]) && DistinctNumbers(v)
    requires c.inputs0 != [] && Subset(c.inputs0, v[c.level]) && ParentsOf(v[c.level + 1], c.inputs0, c.inputs1)
    requires ValidFiles(outs) && Disjoint(outs) && LevelEntries(outs) <= InputEntries(c)
    ensures forall l :: 1 <= l < |v'| ==> Disjoint(v'[l])
    ensures NumberedByAge(v'[0])
  {
    hide NumberedByAge, Disjoint, ValidFile, SortedFiles, LevelEntries, ParentsOf, IsInput;
    forall l: nat | 0 <= l < NUM_LEVELS
      ensures if l == 0 then NumberedByAge(v'[l]) else Disjoint(v'[l])
    {
      LevelAfter(v, c, outs, v', l);
      if l == 0 {
        SubLevel0(v[0], v'[0]);
      } else if l == c.level + 1 {
        NextLevelDisjoint(v[l], c, outs, v'[l]);
      } else {
        SubLevelDisjoint(v[l], v'[l]);
      }
    }
  }

  lemma FilesAfterValid(v: Version, c: Compaction, outs: seq<FileMeta>, v': Version)
    requires Replaced(v, c, outs, v')
    requires forall l: nat, f :: 0 <= l < |v| && f in v[l] ==> ValidFile(f)
    requires ValidFiles(outs)
    ensures forall l: nat, f :: 0 <= l < |v'| && f in v'[l] ==> ValidFile(f)
  {
  }
}
