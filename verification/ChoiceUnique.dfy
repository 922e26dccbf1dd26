/** What triggers a compaction decides the whole of it: PickCompaction and CompactRange leave
    nothing open (version_set.cc). */
module ChoiceUnique {
  import opened Keys
  import opened Versions
  import opened Overlap
  import opened Selection
  import opened Picking
  import opened Options

  // ----- range queries -----

  lemma {:induction false} FilterSame(files: seq<FileMeta>, b: Bound, e: Bound, b': Bound, e': Bound)
    requires forall f :: f in files ==> (Meets(f, b, e) <==> Meets(f, b', e'))
    ensures Filter(files, b, e) == Filter(files, b', e')
  {
    if files != [] {
      FilterSame(files[..|files| - 1], b, e, b', e');
    }
  }

  lemma QueriedUnique(level: nat, files: seq<FileMeta>, b: Bound, e: Bound, x: seq<FileMeta>, y: seq<FileMeta>)
    requires Queried(level, files, b, e, x) && Queried(level, files, b, e, y)
    ensures x == y
  {
    if level == 0 {
      CoverUnique(files, b, e, x, y);
      var lo, hi :| x == Filter(files, lo, hi);
      var lo', hi' :| y == Filter(files, lo', hi');
      FilterMembers(files, lo, hi);
      FilterMembers(files, lo', hi');
      FilterSame(files, lo, hi, lo', hi');
    }
  }

  lemma CoverUnique(files: seq<FileMeta>, b: Bound, e: Bound, x: seq<FileMeta>, y: seq<FileMeta>)
    requires IsLeastCover(files, b, e, x) && IsLeastCover(files, b, e, y)
    ensures forall f :: f in x <==> f in y
  {
    hide Closed, Covers;
    var X, Y := set f | f in x, set f | f in y;
    assert X <= Y <= X;
    assert forall f :: f in x <==> f in X;
    assert forall f :: f in y <==> f in Y;
  }

  /** A query around a file of the level finds that file. */
  lemma QueryFinds(level: nat, files: seq<FileMeta>, b: UserKey, e: UserKey, inputs: seq<FileMeta>, f: FileMeta)
    requires ValidFiles(files) && Queried(level, files, Some(b), Some(e), inputs)
    requires f in files && b <= f.largest.user && f.smallest.user <= e
    ensures f in inputs && Subset(inputs, files)
    ensures level == 0 ==> TouchClosed(files, inputs)
  {
    assert Meets(f, Some(b), Some(e));
    if level > 0 {
      FilterMembers(files, Some(b), Some(e));
    } else {
      var lo, hi :| inputs == Filter(files, lo, hi);
      FilterMembers(files, lo, hi);
      assert f in (set g | g in inputs);
      assert forall g :: g in inputs <==> g in (set h | h in inputs);
    }
  }

  // ----- closing under boundary files -----

  lemma SmallestBoundaryUnique(files: seq<FileMeta>, k: InternalKey, f: FileMeta, g: FileMeta)
    requires ValidFiles(files) && Disjoint(files)
    requires IsSmallestBoundary(files, k, f) && IsSmallestBoundary(files, k, g)
    ensures f == g
  {
    FileIsRange(f);
    FileIsRange(g);
    LessTotal(f.smallest, g.smallest);
    if f != g {
      DisjointApart(files, f, g);
    }
  }

  lemma {:induction false} ChainsAgree(files: seq<FileMeta>, inputs: seq<FileMeta>, a: seq<FileMeta>, b: seq<FileMeta>, n: nat)
    requires ValidFiles(files) && Disjoint(files) && inputs != []
    requires BoundaryChain(files, inputs, a) && BoundaryChain(files, inputs, b)
    requires |inputs| <= n && n <= |a| && n <= |b|
    ensures a[..n] == b[..n]
    decreases n
  {
    if n > |inputs| {
      ChainsAgree(files, inputs, a, b, n - 1);
      var k := SomeLargest(a[..n - 1]);
      SmallestBoundaryUnique(files, k, a[n - 1], b[n - 1]);
      assert a[..n] == a[..n - 1] + [a[n - 1]] && b[..n] == b[..n - 1] + [b[n - 1]];
    } else {
      assert a[..n] == inputs && b[..n] == inputs;
    }
  }

  lemma NextInChain(files: seq<FileMeta>, inputs: seq<FileMeta>, r: seq<FileMeta>, n: nat) returns (k: InternalKey)
    requires inputs != [] && BoundaryChain(files, inputs, r) && |inputs| <= n < |r|
    ensures IsLargest(r[..n], k) && r[n] in files && IsBoundary(r[n], k)
  {
    k := SomeLargest(r[..n]);
    assert IsSmallestBoundary(files, k, r[n]);
  }

  lemma ChainStops(files: seq<FileMeta>, inputs: seq<FileMeta>, a: seq<FileMeta>, b: seq<FileMeta>)
    requires ValidFiles(files) && Disjoint(files) && inputs != []
    requires Closure(files, inputs, a) && BoundaryChain(files, inputs, b)
    ensures |b| <= |a|
  {
    if |b| > |a| {
      ChainsAgree(files, inputs, a, b, |a|);
      assert a[..|a|] == a;
      var _ := NextInChain(files, inputs, b, |a|);
    }
  }

  lemma ClosureUnique(level: nat, files: seq<FileMeta>, inputs: seq<FileMeta>, a: seq<FileMeta>, b: seq<FileMeta>)
    requires ValidFiles(files) && (level > 0 ==> Disjoint(files)) && inputs != [] && Subset(inputs, files)
    requires level == 0 ==> TouchClosed(files, inputs)
    requires Closure(files, inputs, a) && Closure(files, inputs, b)
    ensures a == b
  {
    if level == 0 {
      ChainAtLevel0(files, inputs, a);
      ChainAtLevel0(files, inputs, b);
    } else {
      ChainStops(files, inputs, a, b);
      ChainStops(files, inputs, b, a);
      ChainsAgree(files, inputs, a, b, |a|);
      assert a[..|a|] == a && b[..|b|] == b;
    }
  }

  // ----- setting up -----

  lemma LevelFacts(v: Version, level: nat)
    requires ValidVersion(v) && level < NUM_LEVELS
    ensures |v| == NUM_LEVELS && ValidFiles(v[level]) && (level > 0 ==> Disjoint(v[level]))
  {
  }

  lemma CandidateParts(v: Version, level: nat, all: seq<FileMeta>, x: seq<FileMeta>)
    returns (lo: InternalKey, hi: InternalKey, inside: seq<FileMeta>)
    requires level < |v| && Candidate(v, level, all, x)
    ensures IsSmallest(all, lo) && IsLargest(all, hi)
    ensures Queried(level, v[level], Some(lo.user), Some(hi.user), inside) && Closure(v[level], inside, x)
  {
    hide IsSmallest, IsLargest, Queried, Closure;
    lo, hi, inside :| IsSmallest(all, lo) && IsLargest(all, hi) && Queried(level, v[level], Some(lo.user), Some(hi.user), inside)
      && Closure(v[level], inside, x);
  }

  lemma CandidateUnique(v: Version, level: nat, base: seq<FileMeta>, in1: seq<FileMeta>, x: seq<FileMeta>, y: seq<FileMeta>)
    requires ValidVersion(v) && level + 1 < NUM_LEVELS && base != [] && Subset(base, v[level])
    requires Candidate(v, level, base + in1, x) && Candidate(v, level, base + in1, y)
    ensures x == y && x != []
  {
    LevelFacts(v, level);
    var all, files, f := base + in1, v[level], base[0];
    hide ValidVersion, Candidate, Queried, Closure, Disjoint, ValidFile, TouchClosed, IsSmallest, IsLargest;
    assert f in all && f in files;
    var lo, hi, q := CandidateParts(v, level, all, x);
    var lo', hi', q' := CandidateParts(v, level, all, y);
    SmallestUnique(all, lo, lo');
    LargestUnique(all, hi, hi');
    QueriedUnique(level, files, Some(lo.user), Some(hi.user), q, q');
    FileIsRange(f);
    InRange(all, lo, hi, f);
    QueryFinds(level, files, lo.user, hi.user, q, f);
    ClosureUnique(level, files, q, x, y);
    ClosureChain(files, q, x);
  }

  lemma ExpandedUnique(v: Version, level: nat, base: seq<FileMeta>, in1: seq<FileMeta>, maxFileSize: nat, x: seq<FileMeta>, y: seq<FileMeta>)
    requires ValidVersion(v) && level + 1 < NUM_LEVELS && base != [] && Subset(base, v[level])
    requires Expanded(v, level, base, in1, maxFileSize, x) && Expanded(v, level, base, in1, maxFileSize, y)
    ensures x == y
  {
    LevelFacts(v, level);
    hide ValidVersion, Candidate, Accepted, Expanded;
    if in1 != [] {
      var w := ExpandedFrom(v, level, base, in1, maxFileSize, x);
      var w' := ExpandedFrom(v, level, base, in1, maxFileSize, y);
      CandidateUnique(v, level, base, in1, w, w');
    } else {
      NoExpansion(v, level, base, maxFileSize, x);
      NoExpansion(v, level, base, maxFileSize, y);
    }
  }

  lemma NoExpansion(v: Version, level: nat, base: seq<FileMeta>, maxFileSize: nat, x: seq<FileMeta>)
    requires level + 1 < |v| && Expanded(v, level, base, [], maxFileSize, x)
    ensures x == base
  {
  }

  lemma ExpandedFrom(v: Version, level: nat, base: seq<FileMeta>, in1: seq<FileMeta>, maxFileSize: nat, x: seq<FileMeta>)
    returns (w: seq<FileMeta>)
    requires level + 1 < |v| && in1 != [] && Expanded(v, level, base, in1, maxFileSize, x)
    ensures Candidate(v, level, base + in1, w) && x == if Accepted(v, level, base, in1, w, maxFileSize) then w else base
  {
    hide Candidate, Accepted;
    w :| Candidate(v, level, base + in1, w) && x == if Accepted(v, level, base, in1, w, maxFileSize) then w else base;
  }

  /** The inputs never shrink. */
  lemma ExpandedNonEmpty(v: Version, level: nat, base: seq<FileMeta>, in1: seq<FileMeta>, maxFileSize: nat, x: seq<FileMeta>)
    requires level + 1 < |v| && base != [] && Expanded(v, level, base, in1, maxFileSize, x)
    ensures x != []
  {
    hide Candidate;
  }

  lemma CompletedUnique(v: Version, c: Compaction, d: Compaction)
    requires Completed(v, c) && Completed(v, d) && c.level == d.level && c.inputs0 == d.inputs0 && c.inputs1 == d.inputs1
    requires c.inputs0 != []
    ensures c == d
  {
    hide ParentsOf;
    LargestUnique(c.inputs0, c.pointer, d.pointer);
    if c.level + 2 < NUM_LEVELS {
      ParentsUnique(v[c.level + 2], c.inputs0 + c.inputs1, c.grandparents, d.grandparents);
    }
  }

  lemma SetUpUnique(v: Version, level: nat, inputs: seq<FileMeta>, maxFileSize: nat, c: Compaction, d: Compaction)
    requires ValidVersion(v) && level + 1 < NUM_LEVELS && Selectable(level, v[level], inputs)
    requires SetUp(v, level, inputs, maxFileSize, c) && SetUp(v, level, inputs, maxFileSize, d)
    ensures c == d
  {
    LevelFacts(v, level);
    var files := v[level];
    var base :| Closure(files, inputs, base) && ParentsOf(v[level + 1], base, c.inputs1)
      && Expanded(v, level, base, c.inputs1, maxFileSize, c.inputs0);
    var base' :| Closure(files, inputs, base') && ParentsOf(v[level + 1], base', d.inputs1)
      && Expanded(v, level, base', d.inputs1, maxFileSize, d.inputs0);
    ClosureSelectable(level, files, inputs, base);
    hide ValidVersion, Closure, Expanded, ParentsOf, Completed, Disjoint, ValidFile;
    ClosureUnique(level, files, inputs, base, base');
    ParentsUnique(v[level + 1], base, c.inputs1, d.inputs1);
    ExpandedUnique(v, level, base, c.inputs1, maxFileSize, c.inputs0, d.inputs0);
    ExpandedNonEmpty(v, level, base, c.inputs1, maxFileSize, c.inputs0);
    CompletedUnique(v, c, d);
  }

  lemma ClosureSelectable(level: nat, files: seq<FileMeta>, inputs: seq<FileMeta>, base: seq<FileMeta>)
    requires ValidFiles(files) && (level > 0 ==> Disjoint(files))
    requires Selectable(level, files, inputs) && Closure(files, inputs, base)
    ensures inputs != [] && Subset(inputs, files) && (level == 0 ==> TouchClosed(files, inputs))
    ensures base != [] && Subset(base, files)
  {
    hide Disjoint, BoundaryChain, CleanCut;
    ChainSelectable(level, files, inputs, base);
  }

  // ----- the two ways to choose -----

  lemma SeedsSelectable(v: Version, level: nat, f: FileMeta, inputs: seq<FileMeta>)
    requires ValidVersion(v) && level + 1 < NUM_LEVELS && f in v[level] && Seeds(level, v[level], f, inputs)
    ensures Selectable(level, v[level], inputs)
  {
    LevelFacts(v, level);
    FileIsRange(f);
    SingleSelectable(v[level], f);
    if level == 0 {
      LevelNoRepeats(v, 0);
      QueryFinds(0, v[0], f.smallest.user, f.largest.user, inputs, f);
      var lo, hi :| inputs == Filter(v[0], lo, hi);
      FilterNoRepeats(v[0], lo, hi);
    }
  }

  lemma TriggerFile(v: Version, t: Trigger, f: FileMeta, g: FileMeta)
    requires t.level < |v| && Triggers(v[t.level], t, f) && Triggers(v[t.level], t, g)
    requires t.SeekTrigger? ==> t.file in v[t.level]
    ensures f == g && f in v[t.level]
  {
    hide Past;
    if t.SizeTrigger? {
      var i: nat :| StartsAt(v[t.level], t.pointer, i) && v[t.level][i] == f;
      var j: nat :| StartsAt(v[t.level], t.pointer, j) && v[t.level][j] == g;
      assert i == j;
    }
  }

  /** A trigger leads to one compaction only. */
  lemma PicksUnique(v: Version, t: Trigger, maxFileSize: nat, c: Compaction, d: Compaction)
    requires ValidVersion(v) && t.level + 1 < NUM_LEVELS && (t.SeekTrigger? ==> t.file in v[t.level])
    requires Picks(v, t, maxFileSize, c) && Picks(v, t, maxFileSize, d)
    ensures c == d
  {
    LevelFacts(v, t.level);
    hide ValidVersion, Triggers, Queried, SetUp, Selectable, ValidFile, Disjoint;
    var files := v[t.level];
    var f, x :| Triggers(files, t, f) && Seeds(t.level, files, f, x) && SetUp(v, t.level, x, maxFileSize, c);
    var g, y :| Triggers(files, t, g) && Seeds(t.level, files, g, y) && SetUp(v, t.level, y, maxFileSize, d);
    TriggerFile(v, t, f, g);
    if t.level == 0 {
      QueriedUnique(0, files, Some(f.smallest.user), Some(f.largest.user), x, y);
    }
    SeedsSelectable(v, t.level, f, x);
    SetUpUnique(v, t.level, x, maxFileSize, c, d);
  }

  /** A manual compaction has nothing to do exactly when no file meets its range. */
  lemma RangeNoneIff(v: Version, level: nat, b: Bound, e: Bound, maxFileSize: nat, c: Option<Compaction>)
    requires level + 1 < |v| && RangeChoice(v, level, b, e, maxFileSize, c)
    ensures c.None? <==> forall f :: f in v[level] ==> !Meets(f, b, e)
  {
    hide WellChosen, Completed, RangeSeeds, SetUp, Meets;
    if c.Some? {
      var inputs :| RangeSeeds(v[level], level, b, e, maxFileSize, inputs);
      SeedMeets(v[level], level, b, e, maxFileSize, inputs);
    }
  }

  lemma SeedMeets(files: seq<FileMeta>, level: nat, b: Bound, e: Bound, maxFileSize: nat, inputs: seq<FileMeta>)
    requires RangeSeeds(files, level, b, e, maxFileSize, inputs)
    ensures exists f :: f in files && Meets(f, b, e)
  {
    hide Meets;
    FilterMembers(files, b, e);
    if level == 0 {
      assert inputs[0] in inputs;
      if forall f :: f in files ==> !Meets(f, b, e) {
        NothingCovered(files, b, e, inputs);
      }
    } else {
      assert Filter(files, b, e)[0] in Filter(files, b, e);
    }
  }

  lemma NothingCovered(files: seq<FileMeta>, b: Bound, e: Bound, inputs: seq<FileMeta>)
    requires IsLeastCover(files, b, e, inputs) && forall f :: f in files ==> !Meets(f, b, e)
    ensures forall f :: f !in inputs
  {
    hide Meets;
    var none: set<FileMeta> := {};
    assert Closed(files, none) && Covers(files, none, b, e);
    var R := set f | f in inputs;
    assert R <= none;
    assert forall f :: f in inputs ==> f in R;
  }

  /** A manual compaction is decided by its range. */
  lemma RangeUnique(v: Version, level: nat, b: Bound, e: Bound, maxFileSize: nat, c: Option<Compaction>, d: Option<Compaction>)
    requires ValidVersion(v) && level + 1 < NUM_LEVELS
    requires RangeChoice(v, level, b, e, maxFileSize, c) && RangeChoice(v, level, b, e, maxFileSize, d)
    ensures c == d
  {
    LevelFacts(v, level);
    RangeNoneIff(v, level, b, e, maxFileSize, c);
    RangeNoneIff(v, level, b, e, maxFileSize, d);
    hide ValidVersion, WellChosen, Completed, RangeSeeds, SetUp, Meets, Selectable, Disjoint, ValidFile;
    if c.Some? {
      var x :| RangeSeeds(v[level], level, b, e, maxFileSize, x) && SetUp(v, level, x, maxFileSize, c.value);
      var y :| RangeSeeds(v[level], level, b, e, maxFileSize, y) && SetUp(v, level, y, maxFileSize, d.value);
      RangeSeedsUnique(v[level], level, b, e, maxFileSize, x, y);
      RangeSeedsSelectable(v, level, b, e, maxFileSize, x);
      SetUpUnique(v, level, x, maxFileSize, c.value, d.value);
    }
  }

  lemma RangeSeedsUnique(files: seq<FileMeta>, level: nat, b: Bound, e: Bound, maxFileSize: nat, x: seq<FileMeta>, y: seq<FileMeta>)
    requires RangeSeeds(files, level, b, e, maxFileSize, x) && RangeSeeds(files, level, b, e, maxFileSize, y)
    ensures x == y
  {
    hide Queried;
    if level == 0 {
      QueriedUnique(0, files, b, e, x, y);
    } else {
      var m: nat :| FirstUpTo(Filter(files, b, e), maxFileSize, m) && x == Filter(files, b, e)[..m];
      var n: nat :| FirstUpTo(Filter(files, b, e), maxFileSize, n) && y == Filter(files, b, e)[..n];
      assert m == n;
    }
  }

  lemma RangeSeedsSelectable(v: Version, level: nat, b: Bound, e: Bound, maxFileSize: nat, inputs: seq<FileMeta>)
    requires ValidVersion(v) && level + 1 < NUM_LEVELS && RangeSeeds(v[level], level, b, e, maxFileSize, inputs)
    ensures Selectable(level, v[level], inputs)
  {
    LevelFacts(v, level);
    LevelNoRepeats(v, level);
    hide ValidVersion, Disjoint, ValidFile, NoRepeats, Contiguous;
    if level == 0 {
      CoverSelectable(v[0], b, e, inputs);
    } else {
      FilterSelectable(level, v[level], b, e, Filter(v[level], b, e), b, e);
      var n: nat :| FirstUpTo(Filter(v[level], b, e), maxFileSize, n) && inputs == Filter(v[level], b, e)[..n];
      PrefixSelectable(v[level], level, b, e, n);
    }
  }

  lemma CoverSelectable(files: seq<FileMeta>, b: Bound, e: Bound, inputs: seq<FileMeta>)
    requires NoRepeats(files) && Queried(0, files, b, e, inputs) && inputs != []
    ensures Selectable(0, files, inputs)
  {
    var lo, hi :| inputs == Filter(files, lo, hi);
    FilterMembers(files, lo, hi);
    FilterNoRepeats(files, lo, hi);
    assert forall f :: f in inputs <==> f in (set g | g in inputs);
  }
}
