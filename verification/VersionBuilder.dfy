/** Version edits, the Builder that applies them, and manifest replay (version_edit.h,
    VersionSet::Builder, LogAndApply and Recover in version_set.cc). */
module VersionBuilder {
  import opened Keys
  import opened Versions
  import opened Options

  datatype Edit = Edit(
    deleted: set<(nat, nat)>,
    added: seq<(nat, FileMeta)>,
    logNumber: Option<nat>,
    nextFile: Option<nat>,
    lastSequence: Option<SequenceNumber>)

  const EMPTY_EDIT := Edit({}, [], None, None, None)

  // ----- the order of files within a level -----

  predicate BySmallest(f: FileMeta, g: FileMeta) {
    Less(f.smallest, g.smallest) || (f.smallest == g.smallest && f.number < g.number)
  }

  ghost predicate SortedFiles(files: seq<FileMeta>) {
    forall i, j :: 0 <= i < j < |files| ==> BySmallest(files[i], files[j])
  }

  ghost predicate SortedVersion(v: Version) {
    forall l :: 0 <= l < |v| ==> SortedFiles(v[l])
  }

  /** A level is determined by its set of files. */
  lemma {:induction false} SortedFilesUnique(a: seq<FileMeta>, b: seq<FileMeta>)
    requires SortedFiles(a) && SortedFiles(b)
    requires forall f :: f in a <==> f in b
    ensures a == b
  {
    assert |b| > 0 ==> b[0] in b;
    if a != [] {
      assert a[0] in b;
      assert b[0] in a;
      assert a[0] == b[0];
      forall f
        ensures f in a[1..] <==> f in b[1..]
      {
        assert f in a[1..] ==> f in a && f != a[0];
        assert f in b[1..] ==> f in b && f != b[0];
      }
      SortedFilesUnique(a[1..], b[1..]);
    }
  }

  // ----- what an edit means -----

  /** `v'` is `v` with the edit's files removed and added. */
  ghost predicate Edited(v: Version, e: Edit, v': Version) {
    && |v| == |v'| == NUM_LEVELS
    && SortedVersion(v')
    && forall l: nat, f {:trigger f in v'[l]} {:trigger f in v[l]} {:trigger (l, f) in e.added} :: 0 <= l < NUM_LEVELS ==>
      (f in v'[l] <==> (f in v[l] && (l, f.number) !in e.deleted) || (l, f) in e.added)
  }

  lemma EditedUnique(v: Version, e: Edit, a: Version, b: Version)
    requires Edited(v, e, a) && Edited(v, e, b)
    ensures a == b
  {
    forall l | 0 <= l < NUM_LEVELS
      ensures a[l] == b[l]
    {
      forall f
        ensures f in a[l] <==> f in b[l]
      {
        assert f in a[l] <==> (f in v[l] && (l, f.number) !in e.deleted) || (l, f) in e.added;
      }
      SortedFilesUnique(a[l], b[l]);
    }
  }

  ghost predicate ValidLevels(e: Edit) {
    forall p :: p in e.added ==> p.0 < NUM_LEVELS
  }

  /** No file is added to a level that already has its number. */
  ghost predicate FreshAdds(v: Version, e: Edit) {
    && |v| == NUM_LEVELS
    && ValidLevels(e)
    && (forall p, f :: p in e.added && f in v[p.0] ==> f.number != p.1.number)
    && forall p, q :: p in e.added && q in e.added && p.0 == q.0 && p.1.number == q.1.number ==> p == q
  }

  // ----- the Builder -----

  /** One LevelState: the numbers deleted so far and the added files in BySmallest order. */
  datatype LevelState = LevelState(deletedFiles: set<nat>, addedFiles: seq<FileMeta>)

  /** std::set insertion: an equivalent element is not inserted again. */
  function InsertFile(files: seq<FileMeta>, f: FileMeta): (r: seq<FileMeta>) {
    if files == [] || BySmallest(f, files[0]) then [f] + files
    else if BySmallest(files[0], f) then [files[0]] + InsertFile(files[1..], f)
    else files
  }

  lemma {:induction false} InsertFileMembers(files: seq<FileMeta>, f: FileMeta)
    requires SortedFiles(files)
    requires forall g :: g in files && g.number == f.number ==> g == f
    ensures SortedFiles(InsertFile(files, f))
    ensures forall g :: g in InsertFile(files, f) <==> g in files || g == f
  {
    if files == [] || BySmallest(f, files[0]) {
    } else if BySmallest(files[0], f) {
      InsertFileMembers(files[1..], f);
      var r := InsertFile(files[1..], f);
      forall i | 0 <= i < |r|
        ensures BySmallest(files[0], r[i])
      {
        assert r[i] in r;
      }
      assert forall g :: g in files <==> g == files[0] || g in files[1..];
    } else {
      LessTotal(f.smallest, files[0].smallest);
      assert files[0] in files;
    }
  }

  class Builder {
    var base: Version
    var levels: seq<LevelState>

    ghost predicate Valid()
      reads this
    {
      && |base| == |levels| == NUM_LEVELS
      && SortedVersion(base)
      && forall l :: 0 <= l < NUM_LEVELS ==> SortedFiles(levels[l].addedFiles)
    }

    /** The version SaveTo would produce has `f` at level `l`. */
    ghost predicate Has(l: nat, f: FileMeta)
      reads this
      requires |base| == |levels| == NUM_LEVELS && l < NUM_LEVELS
    {
      (f in base[l] || f in levels[l].addedFiles) && f.number !in levels[l].deletedFiles
    }

    constructor (base: Version)
      requires |base| == NUM_LEVELS && SortedVersion(base)
      ensures Valid() && this.base == base
      ensures forall l :: 0 <= l < NUM_LEVELS ==> levels[l] == LevelState({}, [])
    {
      this.base := base;
      levels := seq(NUM_LEVELS, _ => LevelState({}, []));
    }

    /** Apply: first the deletions, then the additions; adding a number undoes its deletion. */
    method Apply(e: Edit)
      requires Valid()
      requires ValidLevels(e)
      requires forall p, q :: p in e.added && q in e.added && p.0 == q.0 && p.1.number == q.1.number ==> p == q
      requires forall p, f :: p in e.added && (f in base[p.0] || f in levels[p.0].addedFiles) ==> f.number != p.1.number
      modifies this
      ensures Valid() && base == old(base)
      ensures forall l: nat, f :: 0 <= l < NUM_LEVELS ==> (f in levels[l].addedFiles <==> f in old(levels)[l].addedFiles || (l, f) in e.added)
      ensures forall l: nat, f :: 0 <= l < NUM_LEVELS ==> (Has(l, f) <==> (old(Has(l, f)) && (l, f.number) !in e.deleted) || (l, f) in e.added)
    {
      ghost var before := levels;
      var l := 0;
      while l < NUM_LEVELS
        invariant 0 <= l <= NUM_LEVELS == |levels|
        invariant base == old(base)
        invariant forall k :: 0 <= k < NUM_LEVELS ==> levels[k].addedFiles == before[k].addedFiles
        invariant forall k, n :: 0 <= k < l ==> (n in levels[k].deletedFiles <==> n in before[k].deletedFiles || (k, n) in e.deleted)
        invariant forall k :: l <= k < NUM_LEVELS ==> levels[k] == before[k]
      {
        var more := set p | p in e.deleted && p.0 == l :: p.1;
        assert forall n :: n in more <==> (l, n) in e.deleted;
        levels := levels[l := levels[l].(deletedFiles := levels[l].deletedFiles + more)];
        l := l + 1;
      }
      ghost var middle := levels;
      var i := 0;
      while i < |e.added|
        invariant 0 <= i <= |e.added|
        invariant base == old(base) && |levels| == NUM_LEVELS
        invariant forall k :: 0 <= k < NUM_LEVELS ==> SortedFiles(levels[k].addedFiles)
        invariant forall k, f :: 0 <= k < NUM_LEVELS ==> (f in levels[k].addedFiles <==> f in before[k].addedFiles || (k, f) in e.added[..i])
        invariant forall k, n :: 0 <= k < NUM_LEVELS ==> (n in levels[k].deletedFiles <==>
          n in middle[k].deletedFiles && !AddsNumber(e.added[..i], k, n))
      {
        var level, f := e.added[i].0, e.added[i].1;
        assert e.added[i] in e.added;
        assert e.added[..i + 1] == e.added[..i] + [e.added[i]];
        forall g | g in levels[level].addedFiles && g.number == f.number
          ensures g == f
        {
        }
        InsertFileMembers(levels[level].addedFiles, f);
        AddsNumberStep(e.added, i);
        levels := levels[level := LevelState(levels[level].deletedFiles - {f.number}, InsertFile(levels[level].addedFiles, f))];
        i := i + 1;
      }
      assert e.added[..i] == e.added;
      forall l: nat, f | 0 <= l < NUM_LEVELS
        ensures Has(l, f) <==> (old(Has(l, f)) && (l, f.number) !in e.deleted) || (l, f) in e.added
      {
        if AddsNumber(e.added, l, f.number) {
          var p :| p in e.added && p.0 == l && p.1.number == f.number;
        }
      }
    }

    /** SaveTo: merge the base files with the added ones, dropping the deleted. */
    method SaveTo() returns (v: Version)
      requires Valid()
      requires forall l: nat, f, g :: 0 <= l < NUM_LEVELS && f in base[l] && g in levels[l].addedFiles ==> f.number != g.number
      ensures |v| == NUM_LEVELS && SortedVersion(v)
      ensures forall l: nat, f :: 0 <= l < NUM_LEVELS ==> (f in v[l] <==> Has(l, f))
    {
      v := [];
      while |v| < NUM_LEVELS
        invariant |v| <= NUM_LEVELS
        invariant SortedVersion(v)
        invariant forall l: nat, f :: 0 <= l < |v| ==> (f in v[l] <==> Has(l, f))
      {
        var files := MergeLevel(base[|v|], levels[|v|]);
        v := v + [files];
      }
    }
  }

  ghost predicate AddsNumber(added: seq<(nat, FileMeta)>, l: nat, n: nat) {
    exists p :: p in added && p.0 == l && p.1.number == n
  }

  lemma AddsNumberStep(added: seq<(nat, FileMeta)>, i: nat)
    requires i < |added|
    ensures forall l, n :: AddsNumber(added[..i + 1], l, n) <==> AddsNumber(added[..i], l, n) || (l == added[i].0 && n == added[i].1.number)
  {
    var a := added[i];
    assert added[..i + 1] == added[..i] + [a];
    forall l, n
      ensures AddsNumber(added[..i + 1], l, n) <==> AddsNumber(added[..i], l, n) || (l == a.0 && n == a.1.number)
    {
      if l == a.0 && n == a.1.number {
        assert a in added[..i + 1];
      }
      if AddsNumber(added[..i], l, n) {
        var p :| p in added[..i] && p.0 == l && p.1.number == n;
        assert p in added[..i + 1];
      }
      if AddsNumber(added[..i + 1], l, n) {
        var p :| p in added[..i + 1] && p.0 == l && p.1.number == n;
        assert p in added[..i] || p == a;
      }
    }
  }

  /** First index from `lo` on whose file comes after `f`. */
  method UpperBound(files: seq<FileMeta>, lo: nat, f: FileMeta) returns (r: nat)
    requires lo <= |files|
    ensures lo <= r <= |files|
    ensures forall i :: lo <= i < r ==> !BySmallest(f, files[i])
    ensures r < |files| ==> BySmallest(f, files[r])
  {
    r := lo;
    while r < |files| && !BySmallest(f, files[r])
      invariant lo <= r <= |files|
      invariant forall i :: lo <= i < r ==> !BySmallest(f, files[i])
    {
      r := r + 1;
    }
  }

  /** MaybeAddFile. */
  function MaybeAdd(files: seq<FileMeta>, deleted: set<nat>, f: FileMeta): seq<FileMeta> {
    if f.number in deleted then files else files + [f]
  }

  ghost predicate AllBefore(files: seq<FileMeta>, f: FileMeta) {
    forall g :: g in files ==> BySmallest(g, f)
  }

  lemma MaybeAddSorted(files: seq<FileMeta>, deleted: set<nat>, f: FileMeta)
    requires SortedFiles(files) && AllBefore(files, f)
    ensures SortedFiles(MaybeAdd(files, deleted, f))
    ensures forall g :: BySmallest(f, g) ==> AllBefore(MaybeAdd(files, deleted, f), g)
  {
    forall i | 0 <= i < |files|
      ensures BySmallest(files[i], f)
    {
      assert files[i] in files;
    }
  }

  method MergeLevel(baseFiles: seq<FileMeta>, state: LevelState) returns (r: seq<FileMeta>)
    requires SortedFiles(baseFiles) && SortedFiles(state.addedFiles)
    requires forall f, g :: f in baseFiles && g in state.addedFiles ==> f.number != g.number
    ensures SortedFiles(r)
    ensures forall f :: f in r <==> (f in baseFiles || f in state.addedFiles) && f.number !in state.deletedFiles
  {
    var added, deleted := state.addedFiles, state.deletedFiles;
    r := [];
    var b := 0;
    for a := 0 to |added|
      invariant 0 <= b <= |baseFiles|
      invariant SortedFiles(r)
      invariant forall f :: f in r <==> (f in baseFiles[..b] || f in added[..a]) && f.number !in deleted
      invariant b < |baseFiles| ==> AllBefore(r, baseFiles[b])
      invariant a < |added| ==> AllBefore(r, added[a])
    {
      var f := added[a];
      var pos := UpperBound(baseFiles, b, f);
      while b < pos
        invariant 0 <= b <= pos <= |baseFiles|
        invariant SortedFiles(r)
        invariant forall g :: g in r <==> (g in baseFiles[..b] || g in added[..a]) && g.number !in deleted
        invariant b < |baseFiles| ==> AllBefore(r, baseFiles[b])
        invariant AllBefore(r, f)
      {
        r := CopyBase(baseFiles, added[..a], deleted, r, b);
        LessTotal(f.smallest, baseFiles[b].smallest);
        assert baseFiles[b] in baseFiles && f in added;
        assert BySmallest(baseFiles[b], f);
        b := b + 1;
      }
      assert added[..a + 1] == added[..a] + [f];
      MaybeAddSorted(r, deleted, f);
      r := MaybeAdd(r, deleted, f);
    }
    while b < |baseFiles|
      invariant 0 <= b <= |baseFiles|
      invariant SortedFiles(r)
      invariant forall g :: g in r <==> (g in baseFiles[..b] || g in added[..|added|]) && g.number !in deleted
      invariant b < |baseFiles| ==> AllBefore(r, baseFiles[b])
    {
      r := CopyBase(baseFiles, added[..|added|], deleted, r, b);
      b := b + 1;
    }
    assert baseFiles[..b] == baseFiles && added[..|added|] == added;
  }

  /** Copy one base file behind what was emitted so far. */
  method CopyBase(baseFiles: seq<FileMeta>, addedSoFar: seq<FileMeta>, deleted: set<nat>, r: seq<FileMeta>, b: nat)
    returns (r': seq<FileMeta>)
    requires SortedFiles(baseFiles) && SortedFiles(r)
    requires b < |baseFiles| && AllBefore(r, baseFiles[b])
    requires forall g :: g in r <==> (g in baseFiles[..b] || g in addedSoFar) && g.number !in deleted
    ensures r' == MaybeAdd(r, deleted, baseFiles[b])
    ensures SortedFiles(r')
    ensures forall g :: g in r' <==> (g in baseFiles[..b + 1] || g in addedSoFar) && g.number !in deleted
    ensures b + 1 < |baseFiles| ==> AllBefore(r', baseFiles[b + 1])
    ensures forall g :: BySmallest(baseFiles[b], g) ==> AllBefore(r', g)
  {
    MaybeAddSorted(r, deleted, baseFiles[b]);
    assert baseFiles[..b + 1] == baseFiles[..b] + [baseFiles[b]];
    r' := MaybeAdd(r, deleted, baseFiles[b]);
  }
}
