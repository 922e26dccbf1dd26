/** Setting up a compaction: PickCompaction, CompactRange, SetupOtherInputs, and the level a
    flushed memtable goes to (version_set.cc). */
module Picking {
  import opened Keys
  import opened Versions
  import opened Overlap
  import opened Selection
  import opened Options

  datatype Compaction = Compaction(
    level: nat, inputs0: seq<FileMeta>, inputs1: seq<FileMeta>, grandparents: seq<FileMeta>, pointer: InternalKey)

  /** Exactly the files of the next level whose user-key range meets that of `inputs`. */
  ghost predicate ParentsOf(next: seq<FileMeta>, inputs: seq<FileMeta>, parents: seq<FileMeta>) {
    forall lo, hi :: IsSmallest(inputs, lo) && IsLargest(inputs, hi)
      ==> parents == Filter(next, Some(lo.user), Some(hi.user))
  }

  /** What SetupOtherInputs guarantees of the compaction it returns. */
  ghost predicate WellChosen(v: Version, c: Compaction) {
    && |v| == NUM_LEVELS
    && c.level + 1 < NUM_LEVELS
    && Selectable(c.level, v[c.level], c.inputs0)
    && LeftBehindNewer(v[c.level], c.inputs0)
    && ParentsOf(v[c.level + 1], c.inputs0, c.inputs1)
  }

  /** The pointer is the end of the level's inputs; the grandparents are the files two levels down
      that meet the range of all inputs. */
  ghost predicate Completed(v: Version, c: Compaction) {
    && |v| == NUM_LEVELS
    && IsLargest(c.inputs0, c.pointer)
    && if c.level + 2 < NUM_LEVELS then ParentsOf(v[c.level + 2], c.inputs0 + c.inputs1, c.grandparents) else c.grandparents == []
  }

  /** `r` is `inputs` with boundary files added until none is left. */
  ghost predicate Closure(files: seq<FileMeta>, inputs: seq<FileMeta>, r: seq<FileMeta>) {
    BoundaryChain(files, inputs, r) && CleanCut(files, r)
  }

  /** The files of the level in the range of all inputs, closed under boundary files. */
  ghost predicate Candidate(v: Version, level: nat, all: seq<FileMeta>, wider: seq<FileMeta>)
    requires level < |v|
  {
    exists lo, hi, inside ::
      && IsSmallest(all, lo) && IsLargest(all, hi)
      && Queried(level, v[level], Some(lo.user), Some(hi.user), inside)
      && Closure(v[level], inside, wider)
  }

  /** There are more of them, within the size limit, and they meet as many next-level files. */
  ghost predicate Accepted(v: Version, level: nat, in0: seq<FileMeta>, in1: seq<FileMeta>, wider: seq<FileMeta>, maxFileSize: nat)
    requires level + 1 < |v|
  {
    && |wider| > |in0|
    && TotalFileSize(in1) + TotalFileSize(wider) < 25 * maxFileSize
    && exists parents :: ParentsOf(v[level + 1], wider, parents) && |parents| == |in1|
  }

  /** The inputs of the level after the attempt to grow them. */
  ghost predicate Expanded(v: Version, level: nat, base: seq<FileMeta>, in1: seq<FileMeta>, maxFileSize: nat, in0: seq<FileMeta>)
    requires level + 1 < |v|
  {
    if in1 == [] then in0 == base
    else exists wider ::
      && Candidate(v, level, base + in1, wider)
      && in0 == if Accepted(v, level, base, in1, wider, maxFileSize) then wider else base
  }

  /** Everything SetupOtherInputs decides, from the files it is given. */
  ghost predicate SetUp(v: Version, level: nat, inputs: seq<FileMeta>, maxFileSize: nat, c: Compaction)
    requires level + 1 < |v|
  {
    && c.level == level
    && Completed(v, c)
    && exists base ::
      && Closure(v[level], inputs, base)
      && ParentsOf(v[level + 1], base, c.inputs1)
      && Expanded(v, level, base, c.inputs1, maxFileSize, c.inputs0)
  }

  lemma SmallestUnique(files: seq<FileMeta>, a: InternalKey, b: InternalKey)
    requires IsSmallest(files, a) && IsSmallest(files, b)
    ensures a == b
  {
    LessTotal(a, b);
  }

  lemma ParentsIntro(next: seq<FileMeta>, inputs: seq<FileMeta>, parents: seq<FileMeta>, lo: InternalKey, hi: InternalKey)
    requires IsSmallest(inputs, lo) && IsLargest(inputs, hi)
    requires parents == Filter(next, Some(lo.user), Some(hi.user))
    ensures ParentsOf(next, inputs, parents)
  {
    forall lo', hi' | IsSmallest(inputs, lo') && IsLargest(inputs, hi')
      ensures parents == Filter(next, Some(lo'.user), Some(hi'.user))
    {
      SmallestUnique(inputs, lo, lo');
      LargestUnique(inputs, hi, hi');
    }
  }

  lemma LevelNoRepeats(v: Version, level: nat)
    requires ValidVersion(v) && level < NUM_LEVELS
    ensures NoRepeats(v[level])
  {
    forall i, j | 0 <= i < j < |v[level]|
      ensures v[level][i] != v[level][j]
    {
      if level > 0 {
        FileIsRange(v[level][i]);
        assert Less(v[level][i].largest, v[level][j].smallest);
      }
    }
  }

  lemma {:induction false} FilterNoRepeats(files: seq<FileMeta>, b: Bound, e: Bound)
    requires NoRepeats(files)
    ensures NoRepeats(Filter(files, b, e))
  {
    if files != [] {
      var n := |files| - 1;
      FilterNoRepeats(files[..n], b, e);
      FilterMembers(files[..n], b, e);
      assert files[n] !in files[..n];
      var r := Filter(files[..n], b, e);
      assert forall i :: 0 <= i < |r| ==> r[i] in r;
    }
  }

  /** A range query over a level selects a set AddBoundaryInputs can start from. */
  lemma FilterSelectable(level: nat, files: seq<FileMeta>, b: Bound, e: Bound, inputs: seq<FileMeta>, lo: Bound, hi: Bound)
    requires ValidFiles(files) && NoRepeats(files)
    requires inputs == Filter(files, lo, hi)
    requires level == 0 ==> Grown(inputs, b, e, lo, hi)
    requires inputs != []
    ensures Selectable(level, files, inputs)
  {
    FilterMembers(files, lo, hi);
    FilterNoRepeats(files, lo, hi);
    forall f | f in files
      ensures f.smallest.user <= f.largest.user
    {
      FileIsRange(f);
    }
  }

  /** A wider range selects at least as many files, and equally many only if the same ones. */
  lemma {:induction false} WiderFilter(files: seq<FileMeta>, b: Bound, e: Bound, b': Bound, e': Bound)
    requires forall f :: f in files && Meets(f, b, e) ==> Meets(f, b', e')
    ensures |Filter(files, b, e)| <= |Filter(files, b', e')|
    ensures |Filter(files, b, e)| == |Filter(files, b', e')| ==> Filter(files, b, e) == Filter(files, b', e')
  {
    if files != [] {
      WiderFilter(files[..|files| - 1], b, e, b', e');
    }
  }

  lemma InRange(inputs: seq<FileMeta>, lo: InternalKey, hi: InternalKey, f: FileMeta)
    requires IsSmallest(inputs, lo) && IsLargest(inputs, hi)
    requires f in inputs
    ensures lo.user <= f.smallest.user && f.largest.user <= hi.user
  {
  }

  /** The files of the level that meet [lo, hi] include every input inside that range. */
  lemma ExpansionKeepsInputs(files: seq<FileMeta>, inputs: seq<FileMeta>, all: seq<FileMeta>, lo: InternalKey, hi: InternalKey,
                             expanded: seq<FileMeta>, b: Bound, e: Bound)
    requires ValidFiles(files) && Subset(inputs, files)
    requires IsSmallest(all, lo) && IsLargest(all, hi) && inputs <= all
    requires expanded == Filter(files, b, e)
    requires b.Some? && e.Some? && b.value <= lo.user && hi.user <= e.value
    ensures Subset(inputs, expanded)
  {
    FilterMembers(files, b, e);
    forall f | f in inputs
      ensures f in expanded
    {
      assert f in all;
      InRange(all, lo, hi, f);
      FileIsRange(f);
    }
  }

  lemma SubsetRange(inputs: seq<FileMeta>, wider: seq<FileMeta>, lo: InternalKey, hi: InternalKey, lo': InternalKey, hi': InternalKey)
    requires Subset(inputs, wider)
    requires IsSmallest(inputs, lo) && IsLargest(inputs, hi)
    requires IsSmallest(wider, lo') && IsLargest(wider, hi')
    ensures lo'.user <= lo.user && hi.user <= hi'.user
  {
  }

  lemma SubsetTrans(a: seq<FileMeta>, b: seq<FileMeta>, c: seq<FileMeta>)
    requires Subset(a, b) && Subset(b, c)
    ensures Subset(a, c)
  {
  }

  /** Inputs that AddBoundaryInputs has closed, with their next-level files. */
  ghost predicate Cut(v: Version, level: nat, in0: seq<FileMeta>, in1: seq<FileMeta>) {
    && |v| == NUM_LEVELS
    && level + 1 < NUM_LEVELS
    && Selectable(level, v[level], in0)
    && LeftBehindNewer(v[level], in0)
    && ParentsOf(v[level + 1], in0, in1)
  }

  /** The files of the level inside the range of all inputs, closed by AddBoundaryInputs. */
  method ExpandLevel(v: Version, level: nat, in0: seq<FileMeta>, all: seq<FileMeta>) returns (expanded0: seq<FileMeta>)
    requires ValidVersion(v)
    requires level + 1 < NUM_LEVELS
    requires Selectable(level, v[level], in0)
    requires in0 <= all
    ensures Selectable(level, v[level], expanded0)
    ensures LeftBehindNewer(v[level], expanded0)
    ensures Subset(in0, expanded0)
    ensures Candidate(v, level, all, expanded0)
  {
    LevelNoRepeats(v, level);
    ghost var files := v[level];
    hide Selectable, LeftBehindNewer, Candidate, BoundaryChain, CleanCut, Queried, IsLeastCover, Grown, OnlyForced, IsSmallest, IsLargest,
         Disjoint, ValidFile, NumberedByAge, LevelsByAge, NoRepeats;
    SelectableFacts(level, files, in0);
    var allStart, allLimit := GetRange(all);
    var expanded, lo, hi := GetOverlappingInputs(level, v[level], Some(allStart.user), Some(allLimit.user));
    WiderRange(level, allStart, allLimit, expanded, lo, hi);
    ExpansionKeepsInputs(files, in0, all, allStart, allLimit, expanded, lo, hi);
    assert in0[0] in expanded;
    FilterSelectable(level, files, Some(allStart.user), Some(allLimit.user), expanded, lo, hi);
    expanded0 := AddBoundaryInputs(v[level], expanded);
    ChainSelectable(level, files, expanded, expanded0);
    ChainStarts(files, expanded, expanded0);
    SubsetTrans(in0, expanded, expanded0);
    CandidateIntro(v, level, all, allStart, allLimit, expanded, expanded0);
  }

  lemma SelectableFacts(level: nat, files: seq<FileMeta>, inputs: seq<FileMeta>)
    requires Selectable(level, files, inputs)
    ensures inputs != [] && Subset(inputs, files)
  {
  }

  lemma ChainStarts(files: seq<FileMeta>, inputs: seq<FileMeta>, r: seq<FileMeta>)
    requires BoundaryChain(files, inputs, r)
    ensures Subset(inputs, r)
  {
  }

  lemma WiderRange(level: nat, a: InternalKey, z: InternalKey, inputs: seq<FileMeta>, lo: Bound, hi: Bound)
    requires level > 0 ==> lo == Some(a.user) && hi == Some(z.user)
    requires level == 0 ==> Grown(inputs, Some(a.user), Some(z.user), lo, hi)
    ensures lo.Some? && hi.Some? && lo.value <= a.user && z.user <= hi.value
  {
  }

  lemma CandidateIntro(v: Version, level: nat, all: seq<FileMeta>, lo: InternalKey, hi: InternalKey, inside: seq<FileMeta>, wider: seq<FileMeta>)
    requires level < |v| && IsSmallest(all, lo) && IsLargest(all, hi)
    requires Queried(level, v[level], Some(lo.user), Some(hi.user), inside) && Closure(v[level], inside, wider)
    ensures Candidate(v, level, all, wider)
  {
    hide Queried, Closure, IsSmallest, IsLargest;
  }

  lemma ParentsUnique(next: seq<FileMeta>, inputs: seq<FileMeta>, a: seq<FileMeta>, b: seq<FileMeta>)
    requires inputs != [] && ParentsOf(next, inputs, a) && ParentsOf(next, inputs, b)
    ensures a == b
  {
    var lo := SomeSmallest(inputs);
    var hi := SomeLargest(inputs);
  }

  lemma AcceptedIff(v: Version, level: nat, in0: seq<FileMeta>, in1: seq<FileMeta>, wider: seq<FileMeta>, parents: seq<FileMeta>,
                    maxFileSize: nat)
    requires level + 1 < |v| && wider != [] && ParentsOf(v[level + 1], wider, parents)
    requires |wider| > |in0| && TotalFileSize(in1) + TotalFileSize(wider) < 25 * maxFileSize
    ensures Accepted(v, level, in0, in1, wider, maxFileSize) <==> |parents| == |in1|
  {
    hide ParentsOf;
    if Accepted(v, level, in0, in1, wider, maxFileSize) {
      var others :| ParentsOf(v[level + 1], wider, others) && |others| == |in1|;
      ParentsUnique(v[level + 1], wider, parents, others);
    }
  }

  lemma ExpandedIntro(v: Version, level: nat, base: seq<FileMeta>, in1: seq<FileMeta>, wider: seq<FileMeta>, maxFileSize: nat, in0: seq<FileMeta>)
    requires level + 1 < |v| && in1 != [] && Candidate(v, level, base + in1, wider)
    requires in0 == if Accepted(v, level, base, in1, wider, maxFileSize) then wider else base
    ensures Expanded(v, level, base, in1, maxFileSize, in0)
  {
    hide Candidate, Accepted;
  }

  lemma SetUpIntro(v: Version, inputs: seq<FileMeta>, base: seq<FileMeta>, maxFileSize: nat, c: Compaction)
    requires c.level + 1 < |v| && Completed(v, c) && Closure(v[c.level], inputs, base)
    requires ParentsOf(v[c.level + 1], base, c.inputs1) && Expanded(v, c.level, base, c.inputs1, maxFileSize, c.inputs0)
    ensures SetUp(v, c.level, inputs, maxFileSize, c)
  {
    hide Completed, Closure, ParentsOf, Expanded;
  }

  /** Next-level files of a wider input set: as many as before only if the same ones. */
  method ParentsOfWider(v: Version, level: nat, in0: seq<FileMeta>, in1: seq<FileMeta>, wider: seq<FileMeta>)
    returns (parents: seq<FileMeta>, newLimit: InternalKey)
    requires ValidVersion(v)
    requires Cut(v, level, in0, in1)
    requires Subset(in0, wider)
    ensures ParentsOf(v[level + 1], wider, parents)
    ensures IsLargest(wider, newLimit)
    ensures |parents| == |in1| ==> parents == in1
  {
    assert in0[0] in wider;
    var newStart;
    newStart, newLimit := GetRange(wider);
    var overlapping, _, _ := GetOverlappingInputs(level + 1, v[level + 1], Some(newStart.user), Some(newLimit.user));
    parents := overlapping;
    ParentsIntro(v[level + 1], wider, parents, newStart, newLimit);
    var smallest, largest := GetRange(in0);
    SubsetRange(in0, wider, smallest, largest, newStart, newLimit);
    WiderFilter(v[level + 1], Some(smallest.user), Some(largest.user), Some(newStart.user), Some(newLimit.user));
  }

  /** The chosen files closed under boundary files, and the next-level files they meet. */
  method BaseInputs(v: Version, level: nat, inputs0: seq<FileMeta>)
    returns (in0: seq<FileMeta>, in1: seq<FileMeta>, largest: InternalKey)
    requires ValidVersion(v)
    requires level + 1 < NUM_LEVELS
    requires Selectable(level, v[level], inputs0)
    ensures Cut(v, level, in0, in1)
    ensures Closure(v[level], inputs0, in0)
    ensures IsLargest(in0, largest)
  {
    in0 := AddBoundaryInputs(v[level], inputs0);
    ChainSelectable(level, v[level], inputs0, in0);
    var smallest;
    smallest, largest := GetRange(in0);
    var overlapping, _, _ := GetOverlappingInputs(level + 1, v[level + 1], Some(smallest.user), Some(largest.user));
    in1 := overlapping;
    ParentsIntro(v[level + 1], in0, in1, smallest, largest);
  }

  /** Grow the inputs of `level` when that leaves the next-level files as they are. */
  method TryExpand(v: Version, level: nat, base0: seq<FileMeta>, base1: seq<FileMeta>, base: InternalKey, maxFileSize: nat)
    returns (in0: seq<FileMeta>, largest: InternalKey)
    requires ValidVersion(v)
    requires Cut(v, level, base0, base1)
    requires IsLargest(base0, base)
    ensures Cut(v, level, in0, base1)
    ensures Subset(base0, in0)
    ensures IsLargest(in0, largest)
    ensures Expanded(v, level, base0, base1, maxFileSize, in0)
  {
    hide ValidVersion, Selectable, LeftBehindNewer, Candidate, Accepted, ParentsOf, Expanded, IsLargest;
    in0, largest := base0, base;
    NotExpanded(v, level, base0, maxFileSize);
    if base1 != [] {
      var expanded0 := ExpandLevel(v, level, base0, base0 + base1);
      NotAccepted(v, level, base0, base1, expanded0, maxFileSize);
      if |expanded0| > |base0| && TotalFileSize(base1) + TotalFileSize(expanded0) < ExpandedCompactionByteSizeLimit(maxFileSize) {
        var expanded1, newLimit := ParentsOfWider(v, level, base0, base1, expanded0);
        AcceptedIff(v, level, base0, base1, expanded0, expanded1, maxFileSize);
        if |expanded1| == |base1| {
          in0, largest := expanded0, newLimit;
        }
      }
      ExpandedIntro(v, level, base0, base1, expanded0, maxFileSize, in0);
    }
  }

  lemma NotExpanded(v: Version, level: nat, base: seq<FileMeta>, maxFileSize: nat)
    requires level + 1 < |v|
    ensures Expanded(v, level, base, [], maxFileSize, base)
  {
  }

  lemma NotAccepted(v: Version, level: nat, in0: seq<FileMeta>, in1: seq<FileMeta>, wider: seq<FileMeta>, maxFileSize: nat)
    requires level + 1 < |v|
    ensures Accepted(v, level, in0, in1, wider, maxFileSize)
      ==> |wider| > |in0| && TotalFileSize(in1) + TotalFileSize(wider) < 25 * maxFileSize
  {
  }

  /** SetupOtherInputs. `base` is the input set after AddBoundaryInputs; an accepted
      expansion grows it without changing the set of next-level files. */
  method SetupOtherInputs(v: Version, level: nat, inputs0: seq<FileMeta>, maxFileSize: nat)
    returns (c: Compaction, ghost base: seq<FileMeta>)
    requires ValidVersion(v)
    requires level + 1 < NUM_LEVELS
    requires Selectable(level, v[level], inputs0)
    ensures WellChosen(v, c) && c.level == level
    ensures BoundaryChain(v[level], inputs0, base)
    ensures Subset(base, c.inputs0)
    ensures ParentsOf(v[level + 1], base, c.inputs1)
    ensures Completed(v, c)
    ensures SetUp(v, level, inputs0, maxFileSize, c)
  {
    hide ValidVersion, LeftBehindNewer, Selectable, ParentsOf, Closure, Subset, Expanded, SetUp;
    hide IsLargest, IsSmallest;
    var base0, in1, base1 := BaseInputs(v, level, inputs0);
    base := base0;
    var in0, largest := TryExpand(v, level, base0, in1, base1, maxFileSize);
    SelectableFacts(level, v[level], in0);
    var grandparents := Grandparents(v, level, in0 + in1);
    c := Compaction(level, in0, in1, grandparents, largest);
    ClosureChain(v[level], inputs0, base);
    SetUpIntro(v, inputs0, base, maxFileSize, c);
  }

  lemma ClosureChain(files: seq<FileMeta>, inputs: seq<FileMeta>, r: seq<FileMeta>)
    requires Closure(files, inputs, r)
    ensures BoundaryChain(files, inputs, r)
  {
  }

  method Grandparents(v: Version, level: nat, all: seq<FileMeta>) returns (grandparents: seq<FileMeta>)
    requires ValidVersion(v) && level + 1 < NUM_LEVELS && all != []
    ensures level + 2 < NUM_LEVELS ==> ParentsOf(v[level + 2], all, grandparents)
    ensures level + 2 >= NUM_LEVELS ==> grandparents == []
  {
    grandparents := [];
    if level + 2 < NUM_LEVELS {
      var allStart, allLimit := GetRange(all);
      var overlapping, _, _ := GetOverlappingInputs(level + 2, v[level + 2], Some(allStart.user), Some(allLimit.user));
      ParentsIntro(v[level + 2], all, overlapping, allStart, allLimit);
      grandparents := overlapping;
    }
  }

  // ----- the two ways a compaction starts -----

  /** What triggered an automatic compaction: the size of a level, or too many seeks in a file. */
  datatype Trigger = SizeTrigger(level: nat, pointer: Option<InternalKey>) | SeekTrigger(level: nat, file: FileMeta)

  const L0_COMPACTION_TRIGGER: nat := 4

  function MaxBytesForLevel(level: nat): (r: real)
    ensures r > 0.0
  {
    if level <= 1 then 10485760.0 else 10.0 * MaxBytesForLevel(level - 1)
  }

  /** How far a level is past its limit: a number of files for level 0, of bytes below it. */
  function Score(v: Version, level: nat): real
    requires level < |v|
  {
    if level == 0 then |v[0]| as real / L0_COMPACTION_TRIGGER as real
    else TotalFileSize(v[level]) as real / MaxBytesForLevel(level)
  }

  /** Four files at level 0; ten megabytes at level 1 and ten times more at each level below it. */
  lemma ScoreByNumbers(v: Version)
    requires |v| == NUM_LEVELS
    ensures Score(v, 0) == |v[0]| as real / 4.0
    ensures Score(v, 1) == TotalFileSize(v[1]) as real / 10485760.0
    ensures Score(v, 2) == TotalFileSize(v[2]) as real / 104857600.0
    ensures Score(v, 3) == TotalFileSize(v[3]) as real / 1048576000.0
    ensures Score(v, 4) == TotalFileSize(v[4]) as real / 10485760000.0
    ensures Score(v, 5) == TotalFileSize(v[5]) as real / 104857600000.0
  {
    assert MaxBytesForLevel(1) == 10485760.0 && MaxBytesForLevel(2) == 104857600.0 && MaxBytesForLevel(3) == 1048576000.0;
    assert MaxBytesForLevel(4) == 10485760000.0 && MaxBytesForLevel(5) == 104857600000.0;
  }

  lemma ScoreOfNone(v: Version, level: nat)
    requires level < |v|
    ensures 0.0 <= Score(v, level)
    ensures v[level] == [] ==> Score(v, level) == 0.0
  {
  }

  /** The shallowest of the levels with the highest score; the last level is never due. */
  ghost predicate MostDue(v: Version, level: nat, upTo: nat)
    requires |v| == NUM_LEVELS && upTo <= NUM_LEVELS
  {
    && level < upTo
    && forall l :: 0 <= l < upTo ==> if l < level then Score(v, l) < Score(v, level) else Score(v, l) <= Score(v, level)
  }

  method Finalize(v: Version) returns (level: nat, score: real)
    requires |v| == NUM_LEVELS
    ensures MostDue(v, level, NUM_LEVELS - 1) && score == Score(v, level)
  {
    hide Score;
    ScoreOfNone(v, 0);
    level, score := 0, -1.0;
    for l := 0 to NUM_LEVELS - 1
      invariant if l == 0 then score == -1.0 else MostDue(v, level, l) && score == Score(v, level)
    {
      if Score(v, l) > score {
        level, score := l, Score(v, l);
      }
    }
  }

  /** What PickCompaction starts from: a level past its limit before a file with too many seeks. */
  method DueTrigger(v: Version, pointers: seq<Option<InternalKey>>, seek: Option<(nat, FileMeta)>) returns (t: Option<Trigger>)
    requires |v| == |pointers| == NUM_LEVELS
    requires seek.Some? ==> seek.value.0 + 1 < NUM_LEVELS && seek.value.1 in v[seek.value.0]
    ensures t.None? <==> seek.None? && forall l :: 0 <= l < NUM_LEVELS - 1 ==> Score(v, l) < 1.0
    ensures t.Some? ==> t.value.level + 1 < NUM_LEVELS && v[t.value.level] != []
    ensures t.Some? && t.value.SizeTrigger? ==> MostDue(v, t.value.level, NUM_LEVELS - 1) && Score(v, t.value.level) >= 1.0
    ensures t.Some? && t.value.SizeTrigger? ==> t.value.pointer == pointers[t.value.level]
    ensures t.Some? && t.value.SeekTrigger? ==> seek == Some((t.value.level, t.value.file))
    ensures t.Some? && t.value.SeekTrigger? ==> forall l :: 0 <= l < NUM_LEVELS - 1 ==> Score(v, l) < 1.0
  {
    hide Score;
    var level, score := Finalize(v);
    if score >= 1.0 {
      ScoreOfNone(v, level);
      t := Some(SizeTrigger(level, pointers[level]));
    } else if seek.Some? {
      t := Some(SeekTrigger(seek.value.0, seek.value.1));
    } else {
      t := None;
    }
  }

  lemma SingleSelectable(files: seq<FileMeta>, f: FileMeta)
    requires ValidFiles(files)
    requires f in files
    ensures Contiguous(files, [f])
  {
    FileIsRange(f);
  }

  predicate Past(pointer: Option<InternalKey>, f: FileMeta) {
    pointer.None? || Less(pointer.value, f.largest)
  }

  /** The file a size compaction starts from: the first one past the pointer, else the first. */
  predicate StartsAt(files: seq<FileMeta>, pointer: Option<InternalKey>, i: nat) {
    && i < |files|
    && if exists j :: 0 <= j < |files| && Past(pointer, files[j])
       then Past(pointer, files[i]) && forall j :: 0 <= j < i ==> !Past(pointer, files[j])
       else i == 0
  }

  lemma ChainKeeps(files: seq<FileMeta>, inputs: seq<FileMeta>, base: seq<FileMeta>, r: seq<FileMeta>)
    requires BoundaryChain(files, inputs, base) && Subset(base, r)
    ensures Subset(inputs, r)
  {
    forall f | f in inputs
      ensures f in r
    {
      assert f in base;
    }
  }

  /** The file a trigger points at: the sought file, or the first one past the pointer. */
  ghost predicate Triggers(files: seq<FileMeta>, t: Trigger, f: FileMeta) {
    if t.SeekTrigger? then f == t.file
    else exists i: nat :: StartsAt(files, t.pointer, i) && files[i] == f
  }

  /** What the inputs grow from: at level 0 the files that meet each other around the first. */
  ghost predicate Seeds(level: nat, files: seq<FileMeta>, f: FileMeta, inputs: seq<FileMeta>) {
    if level == 0 then Queried(0, files, Some(f.smallest.user), Some(f.largest.user), inputs) else inputs == [f]
  }

  /** The compaction a trigger leads to. */
  ghost predicate Picks(v: Version, t: Trigger, maxFileSize: nat, c: Compaction)
    requires t.level + 1 < |v|
  {
    exists f, inputs ::
      Triggers(v[t.level], t, f) && Seeds(t.level, v[t.level], f, inputs) && SetUp(v, t.level, inputs, maxFileSize, c)
  }

  method PickCompaction(v: Version, t: Trigger, maxFileSize: nat) returns (c: Compaction)
    requires ValidVersion(v)
    requires t.level + 1 < NUM_LEVELS && v[t.level] != []
    requires t.SeekTrigger? ==> t.file in v[t.level]
    ensures WellChosen(v, c) && Completed(v, c) && c.level == t.level
    ensures t.SeekTrigger? ==> t.file in c.inputs0
    ensures t.SizeTrigger? ==> exists i: nat :: StartsAt(v[t.level], t.pointer, i) && v[t.level][i] in c.inputs0
    ensures Picks(v, t, maxFileSize, c)
  {
    assert |v| == NUM_LEVELS;
    hide ValidVersion, Picks, SetUp, Seeds, WellChosen, Completed, Selectable, BoundaryChain, Subset, ParentsOf;
    var picked;
    if t.SizeTrigger? {
      picked := StartFile(v[t.level], t.pointer);
    } else {
      picked := t.file;
    }
    assert picked in v[t.level];
    var inputs := SeedInputs(v, t.level, picked);
    ghost var base;
    c, base := SetupOtherInputs(v, t.level, inputs, maxFileSize);
    ChainKeeps(v[t.level], inputs, base, c.inputs0);
    PicksIntro(v, t, maxFileSize, picked, inputs, c);
  }

  method SeedInputs(v: Version, level: nat, picked: FileMeta) returns (inputs: seq<FileMeta>)
    requires ValidVersion(v) && level + 1 < NUM_LEVELS && picked in v[level]
    ensures Selectable(level, v[level], inputs) && picked in inputs && Seeds(level, v[level], picked, inputs)
  {
    inputs := [picked];
    SingleSelectable(v[level], picked);
    if level == 0 {
      var smallest, largest := GetRange(inputs);
      ghost var lo, hi;
      inputs, lo, hi := GetOverlappingInputs(0, v[0], Some(smallest.user), Some(largest.user));
      hide Queried, IsLeastCover, OnlyForced;
      FilterMembers(v[0], lo, hi);
      FileIsRange(picked);
      assert picked in inputs;
      LevelNoRepeats(v, 0);
      FilterSelectable(0, v[0], Some(smallest.user), Some(largest.user), inputs, lo, hi);
    }
  }

  lemma PicksIntro(v: Version, t: Trigger, maxFileSize: nat, f: FileMeta, inputs: seq<FileMeta>, c: Compaction)
    requires t.level + 1 < |v| && Triggers(v[t.level], t, f) && Seeds(t.level, v[t.level], f, inputs)
    requires SetUp(v, t.level, inputs, maxFileSize, c)
    ensures Picks(v, t, maxFileSize, c)
  {
    hide Triggers, Seeds, SetUp;
  }

  method StartFile(files: seq<FileMeta>, pointer: Option<InternalKey>) returns (f: FileMeta)
    requires files != []
    ensures exists i: nat :: StartsAt(files, pointer, i) && files[i] == f
  {
    var i := 0;
    while i < |files|
      invariant 0 <= i <= |files|
      invariant forall j :: 0 <= j < i ==> !Past(pointer, files[j])
    {
      if pointer.None? || Less(pointer.value, files[i].largest) {
        assert Past(pointer, files[i]) && StartsAt(files, pointer, i);
        return files[i];
      }
      i := i + 1;
    }
    assert StartsAt(files, pointer, 0);
    return files[0];
  }

  lemma {:induction false} FilterDisjoint(files: seq<FileMeta>, b: Bound, e: Bound)
    requires Disjoint(files)
    ensures Disjoint(Filter(files, b, e))
  {
    hide Meets, Less;
    if files != [] {
      var n := |files| - 1;
      FilterDisjoint(files[..n], b, e);
      FilterMembers(files[..n], b, e);
      forall f | f in files[..n]
        ensures Less(f.largest, files[n].smallest)
      {
        var i :| 0 <= i < n && files[..n][i] == f;
        assert files[i] == f;
      }
      DisjointMore(Filter(files[..n], b, e), files[n]);
    }
  }

  lemma DisjointMore(r: seq<FileMeta>, f: FileMeta)
    requires Disjoint(r) && forall g :: g in r ==> Less(g.largest, f.smallest)
    ensures Disjoint(r + [f])
  {
    hide Less;
    assert forall i :: 0 <= i < |r| ==> r[i] in r;
  }

  lemma PrefixContiguous(files: seq<FileMeta>, b: Bound, e: Bound, n: nat)
    requires ValidFiles(files) && Disjoint(files)
    requires n <= |Filter(files, b, e)|
    ensures Contiguous(files, Filter(files, b, e)[..n])
  {
    var r := Filter(files, b, e);
    FilterMembers(files, b, e);
    FilterDisjoint(files, b, e);
    forall f, g, h | f in r[..n] && h in r[..n] && g in files && Less(f.largest, g.smallest) && Less(g.largest, h.smallest)
      ensures g in r[..n]
    {
      assert f in r && h in r;
      BetweenInPrefix(files, b, e, r, n, f, g, h);
    }
  }

  lemma BetweenInPrefix(files: seq<FileMeta>, b: Bound, e: Bound, r: seq<FileMeta>, n: nat, f: FileMeta, g: FileMeta, h: FileMeta)
    requires ValidFiles(files) && n <= |r|
    requires forall x :: x in r <==> x in files && Meets(x, b, e)
    requires Disjoint(r)
    requires f in r && h in r[..n] && g in files && Less(f.largest, g.smallest) && Less(g.largest, h.smallest)
    ensures g in r[..n]
  {
    assert h in r;
    FileIsRange(f);
    FileIsRange(g);
    FileIsRange(h);
    var p :| 0 <= p < |r| && r[p] == g;
    var q :| 0 <= q < n && r[..n][q] == h;
    EarlierFile(r, p, q);
    assert r[..n][p] == g;
  }

  lemma EarlierFile(files: seq<FileMeta>, p: nat, q: nat)
    requires Disjoint(files) && p < |files| && q < |files| && Less(files[p].largest, files[q].smallest)
    requires !Less(files[p].largest, files[p].smallest) && !Less(files[q].largest, files[q].smallest)
    ensures p < q
  {
  }

  /** No compaction only if no file meets the range. Otherwise a well-chosen one with the files of
      level 0 that meet the range, or with the first of a deeper level up to the size limit. */
  ghost predicate RangeChoice(v: Version, level: nat, b: Bound, e: Bound, maxFileSize: nat, c: Option<Compaction>)
    requires level + 1 < |v|
  {
    match c
    case None => forall f :: f in v[level] ==> !Meets(f, b, e)
    case Some(r) =>
      && WellChosen(v, r) && Completed(v, r) && r.level == level
      && (level == 0 ==> forall f :: f in v[0] && Meets(f, b, e) ==> f in r.inputs0)
      && exists inputs :: RangeSeeds(v[level], level, b, e, maxFileSize, inputs) && Subset(inputs, r.inputs0)
           && SetUp(v, level, inputs, maxFileSize, r)
  }

  /** The files a manual compaction starts from. */
  ghost predicate RangeSeeds(files: seq<FileMeta>, level: nat, b: Bound, e: Bound, maxFileSize: nat, inputs: seq<FileMeta>) {
    if level == 0 then Queried(0, files, b, e, inputs) && inputs != []
    else exists n: nat :: FirstUpTo(Filter(files, b, e), maxFileSize, n) && inputs == Filter(files, b, e)[..n]
  }

  /** CompactRange (manual compaction): below level 0 the files are cut off once their sizes reach the limit. */
  method CompactRange(v: Version, level: nat, b: Bound, e: Bound, maxFileSize: nat) returns (c: Option<Compaction>)
    requires ValidVersion(v)
    requires level + 1 < NUM_LEVELS
    ensures RangeChoice(v, level, b, e, maxFileSize, c)
  {
    hide RangeChoice, SetUp, WellChosen, Completed, Selectable, BoundaryChain, Subset, ParentsOf, RangeSeeds, Queried, IsLeastCover, OnlyForced;
    var inputs, lo, hi := GetOverlappingInputs(level, v[level], b, e);
    if inputs == [] {
      NothingInRange(v, level, b, e, lo, hi, maxFileSize);
      return None;
    }
    LevelNoRepeats(v, level);
    FilterSelectable(level, v[level], b, e, inputs, lo, hi);
    ghost var all := inputs;
    if level > 0 {
      var n := SizePrefix(inputs, maxFileSize);
      inputs := inputs[..n];
      PrefixSelectable(v[level], level, lo, hi, n);
    }
    RangeSeedsIntro(v[level], level, b, e, maxFileSize, all, inputs);
    var r, base := SetupOtherInputs(v, level, inputs, maxFileSize);
    ChainKeeps(v[level], inputs, base, r.inputs0);
    CoveredInputs(v, level, b, e, all, inputs, r);
    RangeChoiceIntro(v, level, b, e, maxFileSize, inputs, r);
    return Some(r);
  }

  lemma NothingInRange(v: Version, level: nat, b: Bound, e: Bound, lo: Bound, hi: Bound, maxFileSize: nat)
    requires level + 1 < |v| && Filter(v[level], lo, hi) == []
    requires level > 0 ==> lo == b && hi == e
    requires level == 0 ==> IsLeastCover(v[level], b, e, [])
    ensures RangeChoice(v, level, b, e, maxFileSize, None)
  {
    FilterMembers(v[level], lo, hi);
  }

  lemma PrefixSelectable(files: seq<FileMeta>, level: nat, b: Bound, e: Bound, n: nat)
    requires level > 0 && ValidFiles(files) && Disjoint(files)
    requires 0 < n <= |Filter(files, b, e)| && Selectable(level, files, Filter(files, b, e))
    ensures Selectable(level, files, Filter(files, b, e)[..n])
  {
    hide Contiguous;
    PrefixContiguous(files, b, e, n);
  }

  lemma RangeSeedsIntro(files: seq<FileMeta>, level: nat, b: Bound, e: Bound, maxFileSize: nat, all: seq<FileMeta>, inputs: seq<FileMeta>)
    requires Queried(level, files, b, e, all) && all != []
    requires if level == 0 then inputs == all else exists n: nat :: FirstUpTo(all, maxFileSize, n) && inputs == all[..n]
    ensures RangeSeeds(files, level, b, e, maxFileSize, inputs)
  {
  }

  lemma RangeChoiceIntro(v: Version, level: nat, b: Bound, e: Bound, maxFileSize: nat, inputs: seq<FileMeta>, r: Compaction)
    requires level + 1 < |v| && WellChosen(v, r) && Completed(v, r) && r.level == level
    requires level == 0 ==> forall f :: f in v[0] && Meets(f, b, e) ==> f in r.inputs0
    requires RangeSeeds(v[level], level, b, e, maxFileSize, inputs) && Subset(inputs, r.inputs0)
    requires SetUp(v, level, inputs, maxFileSize, r)
    ensures RangeChoice(v, level, b, e, maxFileSize, Some(r))
  {
    hide WellChosen, Completed, RangeSeeds, Subset, SetUp;
  }

  lemma CoveredInputs(v: Version, level: nat, b: Bound, e: Bound, all: seq<FileMeta>, inputs: seq<FileMeta>, r: Compaction)
    requires Subset(inputs, r.inputs0) && level < |v|
    requires level == 0 ==> inputs == all && IsLeastCover(v[0], b, e, all)
    ensures level == 0 ==> forall f :: f in v[0] && Meets(f, b, e) ==> f in r.inputs0
  {
  }

  /** The shortest prefix whose sizes reach the limit, or everything. */
  predicate FirstUpTo(files: seq<FileMeta>, maxFileSize: nat, n: nat) {
    && 0 < n <= |files|
    && (n < |files| ==> TotalFileSize(files[..n]) >= maxFileSize)
    && forall m :: 0 < m < n ==> TotalFileSize(files[..m]) < maxFileSize
  }

  method SizePrefix(files: seq<FileMeta>, maxFileSize: nat) returns (n: nat)
    requires files != []
    ensures FirstUpTo(files, maxFileSize, n)
  {
    var total := 0;
    assert TotalFileSize(files[..0]) == 0;
    for i := 0 to |files|
      invariant total == TotalFileSize(files[..i])
      invariant forall m :: 0 < m <= i ==> TotalFileSize(files[..m]) < maxFileSize
    {
      assert files[..i + 1] == files[..i] + [files[i]];
      TotalAppend(files[..i], files[i]);
      total := total + files[i].size;
      if total >= maxFileSize {
        return i + 1;
      }
    }
    return |files|;
  }

  predicate IsTrivialMove(c: Compaction, maxFileSize: nat) {
    |c.inputs0| == 1 && |c.inputs1| == 0 && TotalFileSize(c.grandparents) <= MaxGrandParentOverlapBytes(maxFileSize)
  }

  // ----- the level of a flushed memtable -----

  ghost predicate NoFileMeets(files: seq<FileMeta>, lo: UserKey, hi: UserKey) {
    forall f :: f in files ==> !Meets(f, Some(lo), Some(hi))
  }

  method OverlapInLevel(v: Version, level: nat, lo: UserKey, hi: UserKey) returns (r: bool)
    requires ValidVersion(v) && level < NUM_LEVELS
    ensures r <==> !NoFileMeets(v[level], lo, hi)
  {
    r := SomeFileOverlapsRange(level > 0, v[level], Some(lo), Some(hi));
  }

  /** A table may pass level `l`: it meets nothing in the next level and little in the one after it. */
  ghost predicate MayPass(v: Version, lo: UserKey, hi: UserKey, maxFileSize: nat, l: nat)
    requires l + 2 < |v|
  {
    NoFileMeets(v[l + 1], lo, hi) && TotalFileSize(Filter(v[l + 2], Some(lo), Some(hi))) <= 10 * maxFileSize
  }

  /** A table that meets level 0 stays there. Any other goes down to level 2 or to the first level it
      may not pass. */
  ghost predicate LevelChoice(v: Version, lo: UserKey, hi: UserKey, maxFileSize: nat, level: nat)
    requires |v| == NUM_LEVELS
  {
    && level <= 2
    && if !NoFileMeets(v[0], lo, hi) then level == 0
       else (forall l :: 0 <= l < level ==> MayPass(v, lo, hi, maxFileSize, l)) && (level < 2 ==> !MayPass(v, lo, hi, maxFileSize, level))
  }

  lemma LevelChoiceUnique(v: Version, lo: UserKey, hi: UserKey, maxFileSize: nat, a: nat, b: nat)
    requires |v| == NUM_LEVELS && LevelChoice(v, lo, hi, maxFileSize, a) && LevelChoice(v, lo, hi, maxFileSize, b)
    ensures a == b
  {
    hide MayPass, NoFileMeets;
  }

  /** Below level 0 a table meets no file of its level or of one above it. */
  lemma ChosenMeetsNothing(v: Version, lo: UserKey, hi: UserKey, maxFileSize: nat, level: nat)
    requires |v| == NUM_LEVELS && LevelChoice(v, lo, hi, maxFileSize, level) && level > 0
    ensures forall l :: 0 <= l <= level ==> NoFileMeets(v[l], lo, hi)
  {
    assert MayPass(v, lo, hi, maxFileSize, 0) && MayPass(v, lo, hi, maxFileSize, level - 1);
  }

  lemma {:induction false} NothingFiltered(files: seq<FileMeta>, lo: UserKey, hi: UserKey)
    requires NoFileMeets(files, lo, hi)
    ensures Filter(files, Some(lo), Some(hi)) == []
  {
    if files != [] {
      NothingFiltered(files[..|files| - 1], lo, hi);
    }
  }

  /** A table that meets no file of the version goes to level 2. */
  lemma AloneGoesDeep(v: Version, lo: UserKey, hi: UserKey, maxFileSize: nat, level: nat)
    requires |v| == NUM_LEVELS && LevelChoice(v, lo, hi, maxFileSize, level)
    requires forall l :: 0 <= l < NUM_LEVELS ==> NoFileMeets(v[l], lo, hi)
    ensures level == 2
  {
    forall l | 0 <= l < 2
      ensures MayPass(v, lo, hi, maxFileSize, l)
    {
      NothingFiltered(v[l + 2], lo, hi);
    }
  }

  /** PickLevelForMemTableOutput: as deep as level 2, while no level passed or entered meets the range. */
  method PickLevelForMemTableOutput(v: Version, lo: UserKey, hi: UserKey, maxFileSize: nat) returns (level: nat)
    requires ValidVersion(v)
    ensures LevelChoice(v, lo, hi, maxFileSize, level)
  {
    level := 0;
    var overlap := OverlapInLevel(v, 0, lo, hi);
    if !overlap {
      while level < MAX_MEM_COMPACT_LEVEL
        invariant level <= MAX_MEM_COMPACT_LEVEL
        invariant forall l :: 0 <= l < level ==> MayPass(v, lo, hi, maxFileSize, l)
      {
        overlap := OverlapInLevel(v, level + 1, lo, hi);
        if overlap {
          break;
        }
        if level + 2 < NUM_LEVELS {
          var overlaps, _, _ := GetOverlappingInputs(level + 2, v[level + 2], Some(lo), Some(hi));
          if TotalFileSize(overlaps) > MaxGrandParentOverlapBytes(maxFileSize) {
            break;
          }
        }
        level := level + 1;
      }
    }
  }
}
