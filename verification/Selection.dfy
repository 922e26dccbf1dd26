/** Choosing the inputs of a compaction and the level of a flushed memtable (version_set.cc). */
module Selection {
  import opened Keys
  import opened Entries
  import opened Versions
  import opened Overlap
  import opened Options

  function TotalFileSize(files: seq<FileMeta>): nat {
    if files == [] then 0 else files[0].size + TotalFileSize(files[1..])
  }

  lemma {:induction false} TotalAppend(files: seq<FileMeta>, f: FileMeta)
    ensures TotalFileSize(files + [f]) == TotalFileSize(files) + f.size
  {
    if files != [] {
      TotalAppend(files[1..], f);
      assert (files + [f])[1..] == files[1..] + [f];
    } else {
      assert [f][1..] == [];
    }
  }

  function MaxGrandParentOverlapBytes(maxFileSize: nat): nat {
    10 * maxFileSize
  }

  function ExpandedCompactionByteSizeLimit(maxFileSize: nat): nat {
    25 * maxFileSize
  }

  // ----- the key range of a file list -----

  ghost predicate IsSmallest(files: seq<FileMeta>, k: InternalKey) {
    && (exists f :: f in files && f.smallest == k)
    && forall f :: f in files ==> !Less(f.smallest, k)
  }

  ghost predicate IsLargest(files: seq<FileMeta>, k: InternalKey) {
    && (exists f :: f in files && f.largest == k)
    && forall f :: f in files ==> !Less(k, f.largest)
  }

  method GetRange(inputs: seq<FileMeta>) returns (smallest: InternalKey, largest: InternalKey)
    requires inputs != []
    ensures IsSmallest(inputs, smallest)
    ensures IsLargest(inputs, largest)
  {
    smallest, largest := inputs[0].smallest, inputs[0].largest;
    assert inputs[0] in inputs[..1];
    for i := 1 to |inputs|
      invariant IsSmallest(inputs[..i], smallest)
      invariant IsLargest(inputs[..i], largest)
    {
      assert inputs[..i + 1] == inputs[..i] + [inputs[i]];
      assert inputs[i] in inputs[..i + 1];
      if Less(inputs[i].smallest, smallest) {
        smallest := inputs[i].smallest;
      }
      if Less(largest, inputs[i].largest) {
        largest := inputs[i].largest;
      }
    }
    assert inputs[..|inputs|] == inputs;
  }

  // ----- AddBoundaryInputs -----

  /** A file of the level that continues the user key `largest` ends with. */
  predicate IsBoundary(f: FileMeta, largest: InternalKey) {
    Less(largest, f.smallest) && f.smallest.user == largest.user
  }

  ghost predicate IsSmallestBoundary(files: seq<FileMeta>, largest: InternalKey, f: FileMeta) {
    && f in files
    && IsBoundary(f, largest)
    && forall g :: g in files && IsBoundary(g, largest) ==> !Less(g.smallest, f.smallest)
  }

  /** Nothing left in the level continues the last user key of `inputs`. */
  ghost predicate CleanCut(files: seq<FileMeta>, inputs: seq<FileMeta>) {
    forall k, f :: IsLargest(inputs, k) && f in files ==> !IsBoundary(f, k)
  }

  /** `r` extends `inputs` one smallest boundary file at a time. */
  ghost predicate BoundaryChain(files: seq<FileMeta>, inputs: seq<FileMeta>, r: seq<FileMeta>) {
    && inputs <= r
    && forall i, k :: |inputs| <= i < |r| && IsLargest(r[..i], k) ==> IsSmallestBoundary(files, k, r[i])
  }

  lemma LargestUnique(files: seq<FileMeta>, a: InternalKey, b: InternalKey)
    requires IsLargest(files, a) && IsLargest(files, b)
    ensures a == b
  {
    LessTotal(a, b);
  }

  method FindSmallestBoundaryFile(files: seq<FileMeta>, largest: InternalKey) returns (r: Option<FileMeta>)
    ensures r.None? ==> forall f :: f in files ==> !IsBoundary(f, largest)
    ensures r.Some? ==> IsSmallestBoundary(files, largest, r.value)
  {
    r := None;
    for i := 0 to |files|
      invariant r.None? ==> forall f :: f in files[..i] ==> !IsBoundary(f, largest)
      invariant r.Some? ==> IsSmallestBoundary(files[..i], largest, r.value)
    {
      assert files[..i + 1] == files[..i] + [files[i]];
      if IsBoundary(files[i], largest) {
        if r.None? || Less(files[i].smallest, r.value.smallest) {
          r := Some(files[i]);
        }
      }
    }
    assert files[..|files|] == files;
  }

  ghost function FilesAbove(files: seq<FileMeta>, k: InternalKey): set<FileMeta> {
    set f | f in files && Less(k, f.smallest)
  }

  method AddBoundaryInputs(files: seq<FileMeta>, inputs: seq<FileMeta>) returns (r: seq<FileMeta>)
    requires ValidFiles(files)
    ensures BoundaryChain(files, inputs, r)
    ensures r != [] ==> CleanCut(files, r)
    ensures r != [] ==> inputs != []
  {
    r := inputs;
    if inputs == [] {
      return;
    }
    var _, largest := GetRange(inputs);
    var searching := true;
    while searching
      invariant r != []
      invariant IsLargest(r, largest)
      invariant BoundaryChain(files, inputs, r)
      invariant !searching ==> forall f :: f in files ==> !IsBoundary(f, largest)
      decreases FilesAbove(files, largest), searching
    {
      var next := FindSmallestBoundaryFile(files, largest);
      if next.Some? {
        ExtendChain(files, inputs, r, largest, next.value);
        BoundaryIsProgress(files, r, largest, next.value);
        r := r + [next.value];
        largest := next.value.largest;
      } else {
        searching := false;
      }
    }
    forall k, f | IsLargest(r, k) && f in files
      ensures !IsBoundary(f, k)
    {
      LargestUnique(r, k, largest);
    }
  }

  lemma ExtendChain(files: seq<FileMeta>, inputs: seq<FileMeta>, r: seq<FileMeta>, largest: InternalKey, f: FileMeta)
    requires BoundaryChain(files, inputs, r)
    requires IsLargest(r, largest) && IsSmallestBoundary(files, largest, f)
    ensures BoundaryChain(files, inputs, r + [f])
  {
    var r' := r + [f];
    forall i, k | |inputs| <= i < |r'| && IsLargest(r'[..i], k)
      ensures IsSmallestBoundary(files, k, r'[i])
    {
      if i == |r| {
        assert r'[..i] == r;
        LargestUnique(r, k, largest);
      } else {
        assert r'[..i] == r[..i];
      }
    }
  }

  lemma BoundaryIsProgress(files: seq<FileMeta>, r: seq<FileMeta>, largest: InternalKey, f: FileMeta)
    requires ValidFiles(files)
    requires IsLargest(r, largest) && IsSmallestBoundary(files, largest, f)
    ensures IsLargest(r + [f], f.largest)
    ensures FilesAbove(files, f.largest) < FilesAbove(files, largest)
  {
    FileIsRange(f);
    assert f in r + [f];
    assert forall g :: g in files && Less(f.largest, g.smallest) ==> Less(largest, g.smallest);
    assert f in FilesAbove(files, largest);
    assert f !in FilesAbove(files, f.largest);
  }

  // ----- what a good choice of inputs from one level means -----

  /** No file of the level lies between two inputs without being one. */
  ghost predicate Contiguous(files: seq<FileMeta>, inputs: seq<FileMeta>) {
    forall f, g, h :: f in inputs && h in inputs && g in files && Less(f.largest, g.smallest) && Less(g.largest, h.smallest)
      ==> g in inputs
  }

  ghost predicate TouchClosed(files: seq<FileMeta>, inputs: seq<FileMeta>) {
    forall f, g :: f in inputs && g in files && Touch(f, g) ==> g in inputs
  }

  ghost predicate Subset(inputs: seq<FileMeta>, files: seq<FileMeta>) {
    forall f :: f in inputs ==> f in files
  }

  /** No file occurs twice. */
  predicate NoRepeats(files: seq<FileMeta>) {
    forall i, j :: 0 <= i < j < |files| ==> files[i] != files[j]
  }

  ghost predicate Selectable(level: nat, files: seq<FileMeta>, inputs: seq<FileMeta>) {
    && inputs != []
    && Subset(inputs, files)
    && NoRepeats(inputs)
    && if level == 0 then TouchClosed(files, inputs) else Contiguous(files, inputs)
  }

  /** Files left behind in the level hold only newer entries than the inputs. */
  ghost predicate LeftBehindNewer(files: seq<FileMeta>, inputs: seq<FileMeta>) {
    forall f, g :: f in inputs && g in files && g !in inputs ==> Newer(FileEntries(g), FileEntries(f))
  }

  lemma DisjointApart(files: seq<FileMeta>, f: FileMeta, g: FileMeta)
    requires Disjoint(files)
    requires f in files && g in files && f != g
    ensures Less(f.largest, g.smallest) || Less(g.largest, f.smallest)
  {
    var i :| 0 <= i < |files| && files[i] == f;
    var j :| 0 <= j < |files| && files[j] == g;
  }

  /** Adding the next boundary file keeps the inputs of a sorted level contiguous. */
  lemma ChainStepContiguous(files: seq<FileMeta>, r: seq<FileMeta>, largest: InternalKey, b: FileMeta)
    requires ValidFiles(files) && Disjoint(files)
    requires Subset(r, files) && Contiguous(files, r)
    requires IsLargest(r, largest) && IsSmallestBoundary(files, largest, b)
    ensures Contiguous(files, r + [b])
  {
    var last :| last in r && last.largest == largest;
    var r' := r + [b];
    forall f, g, h | f in r' && h in r' && g in files && Less(f.largest, g.smallest) && Less(g.largest, h.smallest)
      ensures g in r'
    {
      FileIsRange(f);
      FileIsRange(g);
      FileIsRange(h);
      FileIsRange(b);
      assert h in r ==> !Less(largest, h.largest);
      if h == b && g != last {
        DisjointApart(files, g, last);
        assert f in r && Less(last.largest, g.smallest) ==> IsBoundary(g, largest);
      }
    }
  }

  /** A boundary file starts after every input ends, so it is a new one. */
  lemma {:induction false} ChainNoRepeats(files: seq<FileMeta>, inputs: seq<FileMeta>, r: seq<FileMeta>)
    requires ValidFiles(files)
    requires inputs != [] && NoRepeats(inputs) && BoundaryChain(files, inputs, r)
    ensures NoRepeats(r)
    decreases |r|
  {
    if |r| > |inputs| {
      var n := |r| - 1;
      assert forall i :: 0 <= i <= n ==> r[..n][..i] == r[..i];
      ChainNoRepeats(files, inputs, r[..n]);
      var k := SomeLargest(r[..n]);
      assert IsSmallestBoundary(files, k, r[n]);
      FileIsRange(r[n]);
      assert r[n] !in r[..n];
      forall i | 0 <= i < n
        ensures r[i] != r[n]
      {
        assert r[i] in r[..n];
      }
    } else {
      assert r == inputs;
    }
  }

  lemma {:induction false} ChainContiguous(files: seq<FileMeta>, inputs: seq<FileMeta>, r: seq<FileMeta>)
    requires ValidFiles(files) && Disjoint(files)
    requires inputs != [] && Subset(inputs, files) && Contiguous(files, inputs)
    requires BoundaryChain(files, inputs, r)
    ensures Subset(r, files) && Contiguous(files, r)
    decreases |r|
  {
    if |r| > |inputs| {
      var n := |r| - 1;
      assert forall i :: 0 <= i <= n ==> r[..n][..i] == r[..i];
      assert BoundaryChain(files, inputs, r[..n]);
      ChainContiguous(files, inputs, r[..n]);
      var k := SomeLargest(r[..n]);
      assert IsSmallestBoundary(files, k, r[n]);
      assert r == r[..n] + [r[n]];
      ChainStepContiguous(files, r[..n], k, r[n]);
    } else {
      assert r == inputs;
    }
  }

  lemma SomeLargest(files: seq<FileMeta>) returns (k: InternalKey)
    requires files != []
    ensures IsLargest(files, k)
  {
    if |files| == 1 {
      k := files[0].largest;
    } else {
      k := SomeLargest(files[1..]);
      assert files == [files[0]] + files[1..];
      LessTotal(k, files[0].largest);
      if Less(k, files[0].largest) {
        k := files[0].largest;
      } else {
        var f :| f in files[1..] && f.largest == k;
        assert f in files;
      }
    }
  }

  lemma {:induction false} SomeSmallest(files: seq<FileMeta>) returns (k: InternalKey)
    requires files != []
    ensures IsSmallest(files, k)
  {
    if |files| == 1 {
      k := files[0].smallest;
    } else {
      k := SomeSmallest(files[1..]);
      assert files == [files[0]] + files[1..];
      LessTotal(k, files[0].smallest);
      if Less(files[0].smallest, k) {
        k := files[0].smallest;
      } else {
        var f :| f in files[1..] && f.smallest == k;
        assert f in files;
      }
    }
  }

  lemma ChainFirst(files: seq<FileMeta>, inputs: seq<FileMeta>, r: seq<FileMeta>, k: InternalKey)
    requires BoundaryChain(files, inputs, r) && |r| > |inputs|
    requires IsLargest(inputs, k)
    ensures IsSmallestBoundary(files, k, r[|inputs|])
  {
    assert r[..|inputs|] == inputs;
  }

  /** At level 0 a touch-closed selection has no boundary file outside it. */
  lemma ChainAtLevel0(files: seq<FileMeta>, inputs: seq<FileMeta>, r: seq<FileMeta>)
    requires ValidFiles(files)
    requires inputs != [] && Subset(inputs, files) && TouchClosed(files, inputs)
    requires BoundaryChain(files, inputs, r)
    ensures r == inputs
  {
    var n := |inputs|;
    var k := SomeLargest(inputs);
    forall b | b in files
      ensures !IsBoundary(b, k)
    {
      var f :| f in inputs && f.largest == k;
      FileIsRange(f);
      FileIsRange(b);
      assert b !in inputs ==> !Touch(f, b);
    }
    if |r| > n {
      ChainFirst(files, inputs, r, k);
      assert false;
    }
  }

  lemma RightOfInputs(files: seq<FileMeta>, inputs: seq<FileMeta>, f: FileMeta, g: FileMeta)
    requires ValidFiles(files) && Disjoint(files)
    requires inputs != [] && Subset(inputs, files) && Contiguous(files, inputs) && CleanCut(files, inputs)
    requires f in inputs && g in files && g !in inputs
    requires Less(f.largest, g.smallest)
    ensures f.largest.user < g.smallest.user
  {
    var k := SomeLargest(inputs);
    var last :| last in inputs && last.largest == k;
    FileIsRange(last);
    DisjointApart(files, last, g);
    assert !IsBoundary(g, k);
  }

  /** After AddBoundaryInputs no older entry of an input's user key stays in the level. */
  lemma CutLeavesNewer(files: seq<FileMeta>, inputs: seq<FileMeta>)
    requires ValidFiles(files) && Disjoint(files)
    requires inputs != [] && Subset(inputs, files) && Contiguous(files, inputs) && CleanCut(files, inputs)
    ensures LeftBehindNewer(files, inputs)
  {
    forall f, g | f in inputs && g in files && g !in inputs
      ensures Newer(FileEntries(g), FileEntries(f))
    {
      DisjointApart(files, f, g);
      if Less(f.largest, g.smallest) {
        RightOfInputs(files, inputs, f, g);
      }
      forall a, b | a in FileEntries(g) && b in FileEntries(f)
        ensures a.key.user == b.key.user ==> Less(a.key, b.key)
      {
        FileBounds(g, a);
        FileBounds(f, b);
      }
    }
  }

  lemma ClosedLeavesNewer(files: seq<FileMeta>, inputs: seq<FileMeta>)
    requires ValidFiles(files)
    requires Subset(inputs, files) && TouchClosed(files, inputs)
    ensures LeftBehindNewer(files, inputs)
  {
    forall f, g, a, b | f in inputs && g in files && g !in inputs && a in FileEntries(g) && b in FileEntries(f)
      ensures a.key.user != b.key.user
    {
      FileBounds(g, a);
      FileBounds(f, b);
      assert !Touch(f, g);
    }
  }

  /** AddBoundaryInputs turns a selectable set into one that may move down a level. */
  lemma ChainSelectable(level: nat, files: seq<FileMeta>, inputs: seq<FileMeta>, r: seq<FileMeta>)
    requires ValidFiles(files) && (level > 0 ==> Disjoint(files))
    requires Selectable(level, files, inputs)
    requires BoundaryChain(files, inputs, r) && CleanCut(files, r)
    ensures Selectable(level, files, r)
    ensures LeftBehindNewer(files, r)
  {
    if level == 0 {
      ChainAtLevel0(files, inputs, r);
      ClosedLeavesNewer(files, r);
    } else {
      ChainContiguous(files, inputs, r);
      ChainNoRepeats(files, inputs, r);
      CutLeavesNewer(files, r);
    }
  }
}
