/** A crash at any moment: replaying the manifest and then the logs rebuilds the store
    (VersionSet::Recover, DBImpl::Recover, RecoverLogFile and DB::Open). */
module EngineRecovery {
  import opened Keys
  import opened Entries
  import opened Versions
  import opened VersionBuilder
  import opened Store
  import opened Install
  import opened StoreSteps
  import opened Manifest
  import opened Engine
  import opened EngineReads
  import opened EngineDurable
  import opened EngineSafety
  import opened Options

  /** What recovery reads back is what memory held. */
  lemma LogHoldsMemory(s: Db, newLog: nat)
    requires ManifestOk(s) && NumbersOk(s) && LogsOk(s)
    requires forall n :: n in s.disk.logs ==> n < newLog
    ensures var log := Replay(s.disk.logs, s.logNumber, newLog);
      && Increasing(log)
      && Elements(log) == Elements(s.layers.mem) + ImmEntries(s.layers)
      && MaxSequence(log, LastLastSequence(s.disk.manifest).value) == s.lastSequence
  {
    hide Folds, AddedOnce, AddsOk, Increasing, MaxSequence, Elements;
    var lo, n := s.logNumber, s.logfileNumber;
    ReplayQuiet(s.disk.logs, lo, n + 1, newLog);
    ReplayOne(s.disk.logs, lo, n);
    ElementsConcat(Replay(s.disk.logs, lo, n), LogAt(s.disk.logs, n));
  }

  lemma MemoryNewer(st: Layers, log: seq<Entry>)
    requires ValidLayers(st)
    requires Elements(log) == Elements(st.mem) + ImmEntries(st)
    ensures Newer(Elements(log), VersionEntries(st.version))
    ensures VersionEntries(st.version) + Elements(log) == Stored(st)
  {
    LayersParts(st);
    NewerUnion(VersionEntries(st.version), Elements(st.mem), ImmEntries(st));
  }

  /** The version and contents a recovery ends with. */
  lemma RecoverRebuilds(s: Db, segments: seq<Batch>, files: seq<FileMeta>, newLog: nat)
    returns (v': Version)
    requires LayersOk(s) && Durable(s)
    requires forall n :: n in s.disk.logs ==> n < newLog
    requires RecoveredFiles(Replay(s.disk.logs, s.logNumber, newLog), segments, files, LastNextFile(s.disk.manifest).value, newLog)
    ensures Edited(s.layers.version, EMPTY_EDIT.(added := Placed(0, files)), v')
    ensures ValidVersion(v') && SortedVersion(v') && DistinctNumbers(v')
    ensures VersionEntries(v') == Stored(s.layers)
  {
    hide ValidVersion, DistinctNumbers, Newer, Folds, AddedOnce, AddsOk, LogState, HasTables, RecoveredFiles, Edited, Increasing;
    var log := Replay(s.disk.logs, s.logNumber, newLog);
    VersionIsAdded(s);
    LogHoldsMemory(s, newLog);
    MemoryNewer(s.layers, log);
    v' := RecoveredVersion(s.layers.version, log, segments, files, LastNextFile(s.disk.manifest).value, newLog);
  }

  lemma OnlyVersionLayers(v: Version)
    requires ValidVersion(v) && SortedVersion(v)
    ensures ValidLayers(Layers([], None, v))
    ensures Stored(Layers([], None, v)) == VersionEntries(v)
  {
    EmptyElements([]);
    LayersWithoutImm([], v);
  }

  // ----- the new disk state -----

  function NumbersOf(files: seq<FileMeta>): set<nat> {
    set f | f in files :: f.number
  }

  lemma {:induction false} TablesWithFacts(tables: map<nat, seq<Entry>>, files: seq<FileMeta>)
    requires forall i, j :: 0 <= i < j < |files| ==> files[i].number < files[j].number
    ensures forall f :: f in files ==> f.number in TablesWith(tables, files) && TablesWith(tables, files)[f.number] == f.entries
    ensures forall n :: n in tables && n !in NumbersOf(files) ==> n in TablesWith(tables, files) && TablesWith(tables, files)[n] == tables[n]
    decreases |files|
  {
    if files != [] {
      var k := |files| - 1;
      TablesWithFacts(tables, files[..k]);
      assert files == files[..k] + [files[k]];
    }
  }

  lemma RecoveredMembers(v0: Version, files: seq<FileMeta>, v': Version)
    requires Edited(v0, EMPTY_EDIT.(added := Placed(0, files)), v')
    ensures forall l: nat, f {:trigger f in v'[l]} :: l < |v'| && f in v'[l] ==> f in v0[l] || (l == 0 && f in files)
  {
    PlacedMembers(0, files);
    var e := EMPTY_EDIT.(added := Placed(0, files));
    forall l: nat, f | l < |v'| && f in v'[l]
      ensures f in v0[l] || (l == 0 && f in files)
    {
      assert (l, f) in e.added <==> l == 0 && f in files;
    }
  }

  ghost predicate Numbered(files: seq<FileMeta>, lo: nat, hi: nat) {
    && (forall f :: f in files ==> lo < f.number < hi)
    && forall i, j :: 0 <= i < j < |files| ==> files[i].number < files[j].number
  }

  lemma RecoveredNumbered(log: seq<Entry>, segments: seq<Batch>, files: seq<FileMeta>, lo: nat, hi: nat)
    requires RecoveredFiles(log, segments, files, lo, hi)
    ensures Numbered(files, lo, hi)
  {
  }

  lemma RecoveredTables(tables: map<nat, seq<Entry>>, v0: Version, files: seq<FileMeta>, v': Version, lo: nat, hi: nat)
    requires HasTables(tables, v0) && NumbersBelow(v0, lo) && Numbered(files, lo, hi)
    requires |v0| == NUM_LEVELS && Edited(v0, EMPTY_EDIT.(added := Placed(0, files)), v')
    ensures HasTables(TablesWith(tables, files), v')
  {
    TablesWithFacts(tables, files);
    RecoveredMembers(v0, files, v');
  }

  lemma AddsOfSnapshot(v: Version, e: Edit)
    requires SnapshotEdit(v, e) && DistinctNumbers(v) && |v| == NUM_LEVELS
    ensures CleanEdit(e)
    ensures forall l: nat, n: nat :: Adds(e, l, n) <==> l < NUM_LEVELS && exists f :: f in v[l] && f.number == n
  {
    forall l: nat, n: nat | l < NUM_LEVELS && exists f :: f in v[l] && f.number == n
      ensures Adds(e, l, n)
    {
      var f :| f in v[l] && f.number == n;
      assert (l, f) in e.added;
    }
  }

  lemma AddsOfRecovered(files: seq<FileMeta>, lo: nat, hi: nat)
    requires Numbered(files, lo, hi)
    ensures CleanEdit(EMPTY_EDIT.(added := Placed(0, files)))
    ensures forall l: nat, n: nat :: Adds(EMPTY_EDIT.(added := Placed(0, files)), l, n) <==> l == 0 && exists f :: f in files && f.number == n
  {
    var e := EMPTY_EDIT.(added := Placed(0, files));
    PlacedMembers(0, files);
    forall p, q | p in e.added && q in e.added && p.0 == q.0 && p.1.number == q.1.number
      ensures p == q
    {
      var i :| 0 <= i < |files| && (0, files[i]) == p;
      var j :| 0 <= j < |files| && (0, files[j]) == q;
    }
    forall l: nat, n: nat
      ensures Adds(e, l, n) <==> l == 0 && exists f :: f in files && f.number == n
    {
      if l == 0 && exists f :: f in files && f.number == n {
        var f :| f in files && f.number == n;
        assert (0, f) in e.added;
      }
    }
  }

  lemma SnapshotFolds(v: Version, e: Edit)
    requires SnapshotEdit(v, e) && |v| == NUM_LEVELS && SortedVersion(v)
    ensures Folds([e], v)
  {
    assert Folds([], EMPTY_VERSION);
    forall l: nat, f | l < NUM_LEVELS
      ensures f in v[l] <==> (f in EMPTY_VERSION[l] && (l, f.number) !in e.deleted) || (l, f) in e.added
    {
      assert EMPTY_VERSION[l] == [];
    }
    FoldsExtend([], EMPTY_VERSION, e, v);
    assert [] + [e] == [e];
  }

  lemma SameAdded(u: Version, a: Edit, b: Edit, v: Version)
    requires a.deleted == b.deleted && a.added == b.added
    ensures Edited(u, a, v) <==> Edited(u, b, v)
    ensures CleanEdit(a) <==> CleanEdit(b)
  {
  }

  /** Every recovered file keeps the level its number was recorded for. */
  lemma RecoveredAdds(v0: Version, se: Edit, files: seq<FileMeta>, e: Edit, v': Version, lo: nat, hi: nat)
    requires |v0| == NUM_LEVELS && DistinctNumbers(v0) && NumbersBelow(v0, lo) && Numbered(files, lo, hi) && lo <= hi
    requires forall l: nat, n: nat :: Adds(se, l, n) <==> l < NUM_LEVELS && exists f :: f in v0[l] && f.number == n
    requires forall l: nat, n: nat :: Adds(e, l, n) <==> l == 0 && exists f :: f in files && f.number == n
    requires forall l: nat, n: nat :: EverAdds([se, e], l, n) <==> Adds(se, l, n) || Adds(e, l, n)
    requires Edited(v0, EMPTY_EDIT.(added := Placed(0, files)), v')
    ensures AddsOk([se, e], v', hi, {})
    ensures forall l: nat, n: nat :: Adds(e, l, n) ==> !Adds(se, l, n)
  {
    hide EverAdds, Adds;
    RecoveredMembers(v0, files, v');
    hide Edited;
    forall l: nat, l': nat, f | l < |v'| && f in v'[l] && EverAdds([se, e], l', f.number)
      ensures l' <= l
    {
      assert f in v0[l] || (l == 0 && f in files);
    }
  }

  lemma EverAddsPair(a: Edit, b: Edit)
    ensures forall l: nat, n: nat :: !EverAdds([], l, n)
    ensures forall l: nat, n: nat :: EverAdds([a], l, n) <==> Adds(a, l, n)
    ensures forall l: nat, n: nat :: EverAdds([a, b], l, n) <==> Adds(a, l, n) || Adds(b, l, n)
  {
    EverAddsExtend([], a);
    EverAddsExtend([a], b);
    assert [] + [a] == [a] && [a] + [b] == [a, b];
  }

  /** The manifest of the reopened database: a snapshot of the old version and one edit. */
  lemma NewManifest(v0: Version, se: Edit, files: seq<FileMeta>, e: Edit, v': Version, lo: nat, hi: nat)
    requires SnapshotEdit(v0, se) && |v0| == NUM_LEVELS && SortedVersion(v0) && DistinctNumbers(v0) && NumbersBelow(v0, lo)
    requires Numbered(files, lo, hi) && lo <= hi
    requires e.deleted == {} && e.added == Placed(0, files)
    requires Edited(v0, EMPTY_EDIT.(added := Placed(0, files)), v')
    ensures Folds([se, e], v') && AddedOnce([se, e])
    ensures AddsOk([se, e], v', hi, {})
  {
    hide DistinctNumbers, Edited, Numbered, SnapshotEdit, CleanEdit, Folds, EverAdds, Adds;
    var added := EMPTY_EDIT.(added := Placed(0, files));
    SnapshotFolds(v0, se);
    SameAdded(v0, e, added, v');
    FoldsExtend([se], v0, e, v');
    assert [se] + [e] == [se, e] && [] + [se] == [se];
    AddsOfSnapshot(v0, se);
    AddsOfRecovered(files, lo, hi);
    SameAdds(e, added);
    EverAddsPair(se, e);
    RecoveredAdds(v0, se, files, e, v', lo, hi);
    AddedOnceExtend([], se);
    AddedOnceExtend([se], e);
  }

  lemma FreshLog(logs: map<nat, seq<Batch>>, n: nat, last: SequenceNumber)
    ensures LogState(logs[n := []], n, n, {}, {}, last, last)
  {
    EmptyElements([]);
    ReplayOne(logs[n := []], n, n);
  }

  /** A reopened database is a good state again and stores exactly what it stored before. */
  lemma RecoverKeeps(s: Db, v0: Version, segments: seq<Batch>, files: seq<FileMeta>, se: Edit, v': Version, newLog: nat, s': Db)
    requires LayersOk(s) && HistoryOk(s) && Durable(s)
    requires RecoverStep(s, v0, segments, files, se, v', newLog, s')
    ensures Stored(s'.layers) == Stored(s.layers)
    ensures s'.lastSequence == s.lastSequence && s'.history == s.history
    ensures LayersOk(s') && HistoryOk(s') && Durable(s')
  {
    hide ValidVersion, DistinctNumbers, Newer, Folds, AddedOnce, AddsOk, LogState, HasTables, RecoveredFiles, Edited, Increasing,
         SnapshotEdit, Numbered, ValidLayers, Stored, TablesWith, NumbersBelow;
    FoldsUnique(s.disk.manifest, v0, s.layers.version);
    FoldsShape(s.disk.manifest, v0);
    var lo := LastNextFile(s.disk.manifest).value;
    var log := Replay(s.disk.logs, s.logNumber, newLog);
    LogHoldsMemory(s, newLog);
    var v := RecoverRebuilds(s, segments, files, newLog);
    EditedUnique(v0, EMPTY_EDIT.(added := Placed(0, files)), v, v');
    OnlyVersionLayers(v');
    VersionIsAdded(s);
    RecoveredNumbered(log, segments, files, lo, newLog);
    RecoveredTables(s.disk.tables, v0, files, v', lo, newLog);
    NewManifest(v0, se, files, s'.disk.manifest[1], v', lo, newLog);
    FreshLog(s.disk.logs, newLog, s.lastSequence);
    AddsOkLater(s'.disk.manifest, v', newLog, newLog + 1);
    EmptyElements([]);
    assert TablesOk(s');
    assert ManifestOk(s');
    assert NumbersOk(s');
    assert LogsOk(s');
  }

  lemma AddsOkLater(m: seq<Edit>, v: Version, bound: nat, bound': nat)
    requires AddsOk(m, v, bound, {}) && bound <= bound'
    ensures AddsOk(m, v, bound', {})
  {
  }
}
