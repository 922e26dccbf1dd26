/** Which files of a level meet a user-key range: the overlap tests and the input
    selection of version_set.cc. */
module Overlap {
  import opened Keys
  import opened Versions
  import opened Options

  /** A range end of None stands for a null pointer: no bound on that side. */
  type Bound = Option<UserKey>

  predicate AfterFile(k: Bound, f: FileMeta) {
    k.Some? && k.value > f.largest.user
  }

  predicate BeforeFile(k: Bound, f: FileMeta) {
    k.Some? && k.value < f.smallest.user
  }

  predicate Meets(f: FileMeta, b: Bound, e: Bound) {
    !AfterFile(b, f) && !BeforeFile(e, f)
  }

  predicate Touch(f: FileMeta, g: FileMeta) {
    f.smallest.user <= g.largest.user && g.smallest.user <= f.largest.user
  }

  ghost predicate ValidFiles(files: seq<FileMeta>) {
    forall f :: f in files ==> ValidFile(f)
  }

  lemma FileIsRange(f: FileMeta)
    requires ValidFile(f)
    ensures f.smallest == f.largest || Less(f.smallest, f.largest)
    ensures f.smallest.user <= f.largest.user
  {
    FileBounds(f, f.entries[0]);
  }

  /** SomeFileOverlapsRange: a scan when files may overlap, one binary search when they are sorted. */
  method SomeFileOverlapsRange(disjointSorted: bool, files: seq<FileMeta>, b: Bound, e: Bound) returns (r: bool)
    requires ValidFiles(files)
    requires disjointSorted ==> Disjoint(files)
    ensures r <==> exists f :: f in files && Meets(f, b, e)
  {
    if !disjointSorted {
      for i := 0 to |files|
        invariant forall f :: f in files[..i] ==> !Meets(f, b, e)
      {
        assert files[..i + 1] == files[..i] + [files[i]];
        if AfterFile(b, files[i]) || BeforeFile(e, files[i]) {
        } else {
          assert files[i] in files && Meets(files[i], b, e);
          return true;
        }
      }
      assert files[..|files|] == files;
      return false;
    }
    var index := 0;
    if b.Some? {
      index := FindFile(files, SeekKey(b.value, MAX_SEQUENCE));
      forall j | 0 <= j < index
        ensures AfterFile(b, files[j])
      {
        SeekSkipsTooNew(files[j].largest, MAX_SEQUENCE);
      }
    }
    if index >= |files| {
      return false;
    }
    forall j | 0 <= j < |files|
      ensures j < index ==> !Meets(files[j], b, e)
      ensures j >= index ==> (Meets(files[j], b, e) ==> !BeforeFile(e, files[index]))
    {
      assert files[j] in files && files[index] in files;
      FileIsRange(files[j]);
      FileIsRange(files[index]);
    }
    assert files[index] in files;
    return !BeforeFile(e, files[index]);
  }

  // ----- GetOverlappingInputs -----

  /** The files that meet a range, in list order. */
  function Filter(files: seq<FileMeta>, b: Bound, e: Bound): seq<FileMeta> {
    if files == [] then []
    else
      var n := |files| - 1;
      Filter(files[..n], b, e) + if Meets(files[n], b, e) then [files[n]] else []
  }

  lemma {:induction false} FilterMembers(files: seq<FileMeta>, b: Bound, e: Bound)
    ensures forall f :: f in Filter(files, b, e) <==> f in files && Meets(f, b, e)
  {
    if files != [] {
      var n := |files| - 1;
      FilterMembers(files[..n], b, e);
      assert files == files[..n] + [files[n]];
    }
  }

  /** `C` holds every file that meets a member of `C`. */
  ghost predicate Closed(files: seq<FileMeta>, C: set<FileMeta>) {
    forall f, g :: f in C && g in files && Touch(f, g) ==> g in C
  }

  ghost predicate Covers(files: seq<FileMeta>, C: set<FileMeta>, b: Bound, e: Bound) {
    forall g :: g in files && Meets(g, b, e) ==> g in C
  }

  ghost function StartsBelow(files: seq<FileMeta>, b: Bound): set<FileMeta> {
    set f | f in files && b.Some? && f.smallest.user < b.value
  }

  ghost function EndsAbove(files: seq<FileMeta>, e: Bound): set<FileMeta> {
    set f | f in files && e.Some? && f.largest.user > e.value
  }

  /** Whatever meets the grown range is in every closed set that covers the query. */
  ghost predicate OnlyForced(files: seq<FileMeta>, b: Bound, e: Bound, b': Bound, e': Bound) {
    forall C: set<FileMeta> :: Closed(files, C) && Covers(files, C, b, e) ==> Covers(files, C, b', e')
  }

  /** The range grew in place, and the files caught so far lie inside it. */
  ghost predicate Grown(inputs: seq<FileMeta>, b: Bound, e: Bound, b': Bound, e': Bound) {
    && b'.Some? == b.Some?
    && e'.Some? == e.Some?
    && (b.Some? ==> b'.value <= b.value && forall f :: f in inputs ==> f.smallest.user >= b'.value)
    && (e.Some? ==> e'.value >= e.value && forall f :: f in inputs ==> f.largest.user <= e'.value)
  }

  /** The members of `R` are those of the least closed set that covers the query. */
  ghost predicate IsLeastCover(files: seq<FileMeta>, b: Bound, e: Bound, inputs: seq<FileMeta>) {
    var R := set f | f in inputs;
    && Closed(files, R)
    && Covers(files, R, b, e)
    && forall C: set<FileMeta> :: Closed(files, C) && Covers(files, C, b, e) ==> R <= C
  }

  /** What a range query of a level returns, in list order. */
  ghost predicate Queried(level: nat, files: seq<FileMeta>, b: Bound, e: Bound, inputs: seq<FileMeta>) {
    if level > 0 then inputs == Filter(files, b, e)
    else IsLeastCover(files, b, e, inputs) && exists lo, hi :: inputs == Filter(files, lo, hi)
  }

  /** Below level 0 the query range decides; at level 0 the range grows to the files it
      catches and the scan restarts, which ends in the least closed set covering the query. */
  method GetOverlappingInputs(level: nat, files: seq<FileMeta>, b: Bound, e: Bound)
    returns (inputs: seq<FileMeta>, ghost lo: Bound, ghost hi: Bound)
    requires ValidFiles(files)
    ensures Queried(level, files, b, e, inputs)
    ensures level > 0 ==> inputs == Filter(files, b, e)
    ensures level == 0 ==> IsLeastCover(files, b, e, inputs)
    ensures inputs == Filter(files, lo, hi)
    ensures level > 0 ==> lo == b && hi == e
    ensures level == 0 ==> Grown(inputs, b, e, lo, hi) && OnlyForced(files, b, e, lo, hi)
  {
    inputs := [];
    var userBegin, userEnd := b, e;
    var i := 0;
    while i < |files|
      invariant 0 <= i <= |files|
      invariant inputs == Filter(files[..i], userBegin, userEnd)
      invariant level > 0 ==> userBegin == b && userEnd == e
      invariant level == 0 ==> Grown(inputs, b, e, userBegin, userEnd)
      invariant OnlyForced(files, b, e, userBegin, userEnd)
      decreases StartsBelow(files, userBegin), EndsAbove(files, userEnd), |files| - i
    {
      var f := files[i];
      i := i + 1;
      assert files[..i][..i - 1] == files[..i - 1];
      if AfterFile(userBegin, f) || BeforeFile(userEnd, f) {
      } else {
        inputs := inputs + [f];
        if level == 0 {
          if userBegin.Some? && f.smallest.user < userBegin.value {
            WidenBegin(files, b, e, userBegin, userEnd, f);
            userBegin := Some(f.smallest.user);
            inputs := [];
            i := 0;
          } else if userEnd.Some? && f.largest.user > userEnd.value {
            WidenEnd(files, b, e, userBegin, userEnd, f);
            userEnd := Some(f.largest.user);
            inputs := [];
            i := 0;
          }
        }
      }
    }
    assert files[..|files|] == files;
    lo, hi := userBegin, userEnd;
    if level == 0 {
      LeastClosedCover(files, b, e, inputs, lo, hi);
    }
  }

  lemma WidenBegin(files: seq<FileMeta>, b: Bound, e: Bound, b': Bound, e': Bound, f: FileMeta)
    requires ValidFiles(files)
    requires OnlyForced(files, b, e, b', e')
    requires f in files && Meets(f, b', e') && b'.Some? && f.smallest.user < b'.value
    ensures OnlyForced(files, b, e, Some(f.smallest.user), e')
    ensures StartsBelow(files, Some(f.smallest.user)) < StartsBelow(files, b')
  {
    forall C: set<FileMeta> | Closed(files, C) && Covers(files, C, b, e)
      ensures Covers(files, C, Some(f.smallest.user), e')
    {
      WidenKeepsCover(files, C, b', e', f, Some(f.smallest.user), e');
    }
    assert f in StartsBelow(files, b') && f !in StartsBelow(files, Some(f.smallest.user));
  }

  lemma WidenEnd(files: seq<FileMeta>, b: Bound, e: Bound, b': Bound, e': Bound, f: FileMeta)
    requires ValidFiles(files)
    requires OnlyForced(files, b, e, b', e')
    requires f in files && Meets(f, b', e') && e'.Some? && f.largest.user > e'.value
    ensures OnlyForced(files, b, e, b', Some(f.largest.user))
    ensures EndsAbove(files, Some(f.largest.user)) < EndsAbove(files, e')
  {
    forall C: set<FileMeta> | Closed(files, C) && Covers(files, C, b, e)
      ensures Covers(files, C, b', Some(f.largest.user))
    {
      WidenKeepsCover(files, C, b', e', f, b', Some(f.largest.user));
    }
    assert f in EndsAbove(files, e') && f !in EndsAbove(files, Some(f.largest.user));
  }

  /** The level-0 result is closed, covers the query, and is the least such set. */
  lemma LeastClosedCover(files: seq<FileMeta>, b: Bound, e: Bound, inputs: seq<FileMeta>, lo: Bound, hi: Bound)
    requires ValidFiles(files)
    requires inputs == Filter(files, lo, hi) && Grown(inputs, b, e, lo, hi) && OnlyForced(files, b, e, lo, hi)
    ensures IsLeastCover(files, b, e, inputs)
  {
    FilterMembers(files, lo, hi);
    forall f | f in files
      ensures f.smallest.user <= f.largest.user
    {
      FileIsRange(f);
    }
  }

  /** Growing the range to a file it meets catches only files a closed set already holds. */
  lemma WidenKeepsCover(files: seq<FileMeta>, C: set<FileMeta>, b: Bound, e: Bound, f: FileMeta, b': Bound, e': Bound)
    requires ValidFiles(files)
    requires Closed(files, C) && Covers(files, C, b, e)
    requires f in files && Meets(f, b, e)
    requires (b.Some? && b' == Some(f.smallest.user) && e' == e) || (e.Some? && e' == Some(f.largest.user) && b' == b)
    ensures Covers(files, C, b', e')
  {
    forall g | g in files && Meets(g, b', e')
      ensures g in C
    {
      FileIsRange(f);
      FileIsRange(g);
      assert f in C;
      if !Meets(g, b, e) {
        assert Touch(f, g);
      }
    }
  }
}
