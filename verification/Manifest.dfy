/** The manifest: a list of edits whose replay through one Builder gives the installed version
    (LogAndApply, WriteSnapshot and Recover in version_set.cc). */
module Manifest {
  import opened Keys
  import opened Versions
  import opened VersionBuilder
  import opened Options

  const EMPTY_VERSION: Version := [[], [], [], [], [], [], []]

  /** `v` is what applying the edits one after the other, each to its own version, leads to. */
  ghost predicate Folds(m: seq<Edit>, v: Version) {
    if m == [] then v == EMPTY_VERSION
    else exists u :: Folds(m[..|m| - 1], u) && Edited(u, LastEdit(m), v)
  }

  function LastEdit(m: seq<Edit>): Edit
    requires m != []
  {
    m[|m| - 1]
  }

  lemma {:induction false} FoldsUnique(m: seq<Edit>, a: Version, b: Version)
    requires Folds(m, a) && Folds(m, b)
    ensures a == b
  {
    if m != [] {
      var n := |m| - 1;
      var u :| Folds(m[..n], u) && Edited(u, m[n], a);
      var w :| Folds(m[..n], w) && Edited(w, m[n], b);
      FoldsUnique(m[..n], u, w);
      EditedUnique(u, m[n], a, b);
    }
  }

  lemma FoldsEmpty()
    ensures Folds([], EMPTY_VERSION)
  {
  }

  lemma FoldsShape(m: seq<Edit>, v: Version)
    requires Folds(m, v)
    ensures |v| == NUM_LEVELS && SortedVersion(v)
  {
    if m != [] {
      var n := |m| - 1;
      var u :| Folds(m[..n], u) && Edited(u, m[n], v);
    }
  }

  lemma FoldsExtend(m: seq<Edit>, u: Version, e: Edit, v: Version)
    requires Folds(m, u) && Edited(u, e, v)
    ensures Folds(m + [e], v)
  {
    assert (m + [e])[..|m|] == m;
    assert LastEdit(m + [e]) == e;
    assert Edited(u, LastEdit(m + [e]), v);
  }

  /** The edit adds file number `n` to level `l`. */
  ghost predicate Adds(e: Edit, l: nat, n: nat) {
    exists p :: p in e.added && p.0 == l && p.1.number == n
  }

  ghost predicate EverAdds(m: seq<Edit>, l: nat, n: nat) {
    exists i :: 0 <= i < |m| && Adds(m[i], l, n)
  }

  /** Within one edit, a level and number name one file. */
  ghost predicate CleanEdit(e: Edit) {
    && ValidLevels(e)
    && forall p, q :: p in e.added && q in e.added && p.0 == q.0 && p.1.number == q.1.number ==> p == q
  }

  /** No file number is added to the same level twice. */
  ghost predicate AddedOnce(m: seq<Edit>) {
    && (forall i :: 0 <= i < |m| ==> CleanEdit(m[i]))
    && forall i, j, l, n :: 0 <= i < j < |m| && Adds(m[i], l, n) ==> !Adds(m[j], l, n)
  }

  lemma AddedOnceExtend(m: seq<Edit>, e: Edit)
    requires AddedOnce(m) && CleanEdit(e)
    requires forall l, n :: Adds(e, l, n) ==> !EverAdds(m, l, n)
    ensures AddedOnce(m + [e])
  {
    var m' := m + [e];
    forall i, j, l, n | 0 <= i < j < |m'| && Adds(m'[i], l, n)
      ensures !Adds(m'[j], l, n)
    {
      if j == |m| {
        assert Adds(m[i], l, n);
        assert EverAdds(m, l, n);
      }
    }
  }

  lemma AddedOncePrefix(m: seq<Edit>, k: nat)
    requires AddedOnce(m) && k <= |m|
    ensures AddedOnce(m[..k])
  {
  }

  // ----- numbers recorded by the edits -----

  function LastLogNumber(m: seq<Edit>): Option<nat> {
    if m == [] then None
    else if m[|m| - 1].logNumber.Some? then m[|m| - 1].logNumber
    else LastLogNumber(m[..|m| - 1])
  }

  function LastNextFile(m: seq<Edit>): Option<nat> {
    if m == [] then None
    else if m[|m| - 1].nextFile.Some? then m[|m| - 1].nextFile
    else LastNextFile(m[..|m| - 1])
  }

  function LastLastSequence(m: seq<Edit>): Option<SequenceNumber> {
    if m == [] then None
    else if m[|m| - 1].lastSequence.Some? then m[|m| - 1].lastSequence
    else LastLastSequence(m[..|m| - 1])
  }

  // ----- recovery -----

  datatype Recovered = NoMetaNextFile | NoMetaLogNumber | NoMetaLastSequence
    | Recovered(version: Version, logNumber: nat, nextFile: nat, lastSequence: SequenceNumber)

  /** VersionSet::Recover: one Builder over the empty version takes every edit, and a single
      SaveTo yields the version. It equals the fold of the edits, one version per edit. */
  method Recover(m: seq<Edit>, ghost installed: Version) returns (r: Recovered)
    requires AddedOnce(m) && Folds(m, installed)
    ensures r.NoMetaNextFile? <==> LastNextFile(m).None?
    ensures r.NoMetaLogNumber? <==> LastNextFile(m).Some? && LastLogNumber(m).None?
    ensures r.NoMetaLastSequence? <==> LastNextFile(m).Some? && LastLogNumber(m).Some? && LastLastSequence(m).None?
    ensures r.Recovered? ==>
      && r.version == installed
      && Some(r.logNumber) == LastLogNumber(m)
      && Some(r.nextFile) == LastNextFile(m)
      && Some(r.lastSequence) == LastLastSequence(m)
  {
    hide Folds;
    var builder := new Builder(EMPTY_VERSION);
    FoldsEmpty();
    var log, next, last := None, None, None;
    ghost var v := EMPTY_VERSION;
    assert m[..0] == [];
    assert m[..|m|] == m;
    for i := 0 to |m|
      invariant fresh(builder) && builder.Valid() && builder.base == EMPTY_VERSION
      invariant log == LastLogNumber(m[..i]) && next == LastNextFile(m[..i]) && last == LastLastSequence(m[..i])
      invariant forall l: nat, f :: l < NUM_LEVELS && f in builder.levels[l].addedFiles ==> EverAdds(m[..i], l, f.number)
      invariant Folds(m[..i], v) && |v| == NUM_LEVELS
      invariant forall l: nat, f :: l < NUM_LEVELS ==> (f in v[l] <==> builder.Has(l, f))
    {
      assert m[..i + 1][..i] == m[..i];
      ghost var u := FoldBack(m, i, installed);
      FoldsUnique(m[..i], u.0, v);
      NotAddedBefore(m, i);
      AddedTracked(m, i);
      builder.Apply(m[i]);
      v := u.1;
      FoldsShape(m[..i + 1], v);
      log := if m[i].logNumber.Some? then m[i].logNumber else log;
      next := if m[i].nextFile.Some? then m[i].nextFile else next;
      last := if m[i].lastSequence.Some? then m[i].lastSequence else last;
    }
    FoldsUnique(m, v, installed);
    if next.None? {
      return NoMetaNextFile;
    } else if log.None? {
      return NoMetaLogNumber;
    } else if last.None? {
      return NoMetaLastSequence;
    }
    var version := builder.SaveTo();
    FoldsShape(m, installed);
    forall l | 0 <= l < NUM_LEVELS
      ensures version[l] == installed[l]
    {
      SortedFilesUnique(version[l], installed[l]);
    }
    return Recovered(version, log.value, next.value, last.value);
  }

  /** The versions just before and after edit `i` on the way to `installed`. */
  lemma {:induction false} FoldBack(m: seq<Edit>, i: nat, installed: Version) returns (u: (Version, Version))
    requires Folds(m, installed) && i < |m|
    ensures Folds(m[..i], u.0) && Edited(u.0, m[i], u.1) && Folds(m[..i + 1], u.1)
    decreases |m|
  {
    var n := |m| - 1;
    var w :| Folds(m[..n], w) && Edited(w, m[n], installed);
    if i == n {
      u := (w, installed);
      assert m[..n + 1] == m;
    } else {
      u := FoldBack(m[..n], i, w);
      assert m[..n][..i] == m[..i] && m[..n][..i + 1] == m[..i + 1];
    }
  }

  lemma NotAddedBefore(m: seq<Edit>, i: nat)
    requires AddedOnce(m) && i < |m|
    ensures forall l, n :: EverAdds(m[..i], l, n) ==> !Adds(m[i], l, n)
    ensures forall p :: p in m[i].added ==> Adds(m[i], p.0, p.1.number)
    ensures forall p :: p in m[i].added ==> !EverAdds(m[..i], p.0, p.1.number)
  {
    forall l, n | EverAdds(m[..i], l, n)
      ensures !Adds(m[i], l, n)
    {
      var j :| 0 <= j < i && Adds(m[..i][j], l, n);
      assert Adds(m[j], l, n);
    }
  }

  lemma AddedTracked(m: seq<Edit>, i: nat)
    requires i < |m|
    ensures forall l, n :: EverAdds(m[..i], l, n) ==> EverAdds(m[..i + 1], l, n)
    ensures forall p :: p in m[i].added ==> EverAdds(m[..i + 1], p.0, p.1.number)
  {
    forall l, n | EverAdds(m[..i], l, n)
      ensures EverAdds(m[..i + 1], l, n)
    {
      var j :| 0 <= j < i && Adds(m[..i][j], l, n);
      assert Adds(m[..i + 1][j], l, n);
    }
    forall p | p in m[i].added
      ensures EverAdds(m[..i + 1], p.0, p.1.number)
    {
      assert Adds(m[..i + 1][i], p.0, p.1.number);
    }
  }
}
