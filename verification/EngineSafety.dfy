/** Safety over whole runs: durability and recovery (db_impl.cc). */
module EngineSafety {
  import opened Keys
  import opened Entries
  import opened Versions
  import opened Picking
  import opened VersionBuilder
  import opened Store
  import opened Install
  import opened StoreSteps
  import opened Manifest
  import opened Engine
  import opened EngineReads
  import opened EngineDurable
  import opened Options

  // ----- what the durable invariant says about the current version -----

  lemma VersionIsAdded(s: Db)
    requires ManifestOk(s) && NumbersOk(s)
    ensures forall l: nat, f :: l < |s.layers.version| && f in s.layers.version[l] ==> EverAdds(s.disk.manifest, l, f.number)
    ensures NumbersBelow(s.layers.version, LastNextFile(s.disk.manifest).value)
    ensures PendingFresh(s)
  {
    FoldsAdded(s.disk.manifest, s.layers.version);
  }

  // ----- edits and the numbers they add -----

  ghost predicate FreshNumbers(m: seq<Edit>, e: Edit) {
    && (forall l: nat, n: nat, l': nat :: Adds(e, l, n) ==> !EverAdds(m, l', n))
    && forall l: nat, n: nat, l': nat :: Adds(e, l, n) && Adds(e, l', n) ==> l == l'
  }

  lemma FreshAddsKeepOk(m: seq<Edit>, u: Version, e: Edit, e': Edit, v: Version, bound: nat, pending: set<nat>, bound': nat, pending': set<nat>)
    requires AddsOk(m, u, bound, pending)
    requires forall l: nat, f :: l < |u| && f in u[l] ==> EverAdds(m, l, f.number)
    requires Edited(u, e, v) && FreshNumbers(m, e)
    requires e'.added == e.added
    requires bound <= bound' && pending' <= pending
    requires forall l: nat, n: nat :: Adds(e, l, n) ==> n < bound' && n !in pending'
    ensures AddsOk(m + [e'], v, bound', pending')
  {
    EverAddsExtend(m, e');
    SameAdds(e, e');
    forall l: nat, l': nat, f | l < |v| && f in v[l] && EverAdds(m + [e'], l', f.number)
      ensures l' <= l
    {
      if (l, f) in e.added {
        assert Adds(e, l, f.number);
      } else {
        assert f in u[l];
        assert EverAdds(m, l, f.number);
      }
    }
  }

  lemma SameAdds(a: Edit, b: Edit)
    requires a.added == b.added
    ensures forall l: nat, n: nat :: Adds(a, l, n) <==> Adds(b, l, n)
  {
    forall l: nat, n: nat
      ensures Adds(a, l, n) <==> Adds(b, l, n)
    {
    }
  }

  lemma MoveKeepsAddsOk(m: seq<Edit>, u: Version, c: Compaction, f: FileMeta, e': Edit, v: Version, bound: nat, bound': nat, pending: set<nat>)
    requires AddsOk(m, u, bound, pending)
    requires forall l: nat, g :: l < |u| && g in u[l] ==> EverAdds(m, l, g.number)
    requires DistinctNumbers(u)
    requires c.level + 1 < NUM_LEVELS && c.inputs0 == [f] && c.inputs1 == [] && |u| == NUM_LEVELS && f in u[c.level]
    requires Edited(u, InstallEdit(c, [f]), v)
    requires e'.added == InstallEdit(c, [f]).added && bound <= bound'
    ensures AddsOk(m + [e'], v, bound', pending)
    ensures forall l: nat, n: nat :: Adds(InstallEdit(c, [f]), l, n) ==> !EverAdds(m, l, n)
  {
    hide Edited, EverAdds, Adds, Replaced;
    EverAddsExtend(m, e');
    AddsOfInstall(c, [f]);
    ReplacedIntro(u, c, [f], v);
    SameAdds(e', InstallEdit(c, [f]));
    assert EverAdds(m, c.level, f.number);
    forall l: nat, l': nat, g | l < |v| && g in v[l] && EverAdds(m + [e'], l', g.number)
      ensures l' <= l
    {
      MovedLevel(m, u, c, f, v, l, g);
    }
  }

  /** After the move a file sits at its old level, or is the moved one, a level deeper. */
  lemma MovedLevel(m: seq<Edit>, u: Version, c: Compaction, f: FileMeta, v: Version, l: nat, g: FileMeta)
    requires Replaced(u, c, [f], v) && DistinctNumbers(u)
    requires c.inputs0 == [f] && f in u[c.level]
    requires l < |v| && g in v[l]
    ensures if g == f then l == c.level + 1 else g in u[l] && g.number != f.number
  {
    assert !(g in u[l] && !IsInput(c, l, g)) ==> l == c.level + 1 && g in [f];
    if g in u[l] && !IsInput(c, l, g) {
      assert IsInput(c, c.level, f);
    }
  }

  // ----- steps that install a version -----

  lemma TablesKept(tables: map<nat, seq<Entry>>, v: Version, n: nat, es: seq<Entry>)
    requires HasTables(tables, v) && NumbersBelow(v, n)
    ensures HasTables(tables[n := es], v)
  {
  }

  lemma FlushKeepsTables(s: Db, level: nat, f: FileMeta, v': Version, s': Db)
    requires TablesOk(s) && NumbersBelow(s.layers.version, s.nextFile) && FlushStep(s, level, f, v', s')
    requires forall n :: n in s.pending ==> n < s.nextFile
    ensures TablesOk(s')
  {
    TablesKept(s.disk.tables, s.layers.version, f.number, f.entries);
    forall v | v in s.pinned
      ensures HasTables(s'.disk.tables, v)
    {
      TablesKept(s.disk.tables, v, f.number, f.entries);
    }
    forall l: nat, g | l < |v'| && g in v'[l]
      ensures g.number in s'.disk.tables && s'.disk.tables[g.number] == g.entries
    {
      AddMembers(s.layers.version, level, f, v', l);
    }
  }

  /** An edit that advances the log number past everything the version now holds. */
  lemma AdvanceKeepsDurable(s: Db, e: Edit, s': Db)
    requires ManifestOk(s) && NumbersOk(s) && LogsOk(s)
    requires CleanEdit(e) && FreshNumbers(s.disk.manifest, e)
    requires forall l: nat, n: nat :: Adds(e, l, n) ==> n == s.nextFile
    requires Edited(s.layers.version, e, s'.layers.version)
    requires s'.disk.manifest == s.disk.manifest + [Filled(e, s.logfileNumber, s.nextFile + 1, s.lastSequence)]
    requires s'.logNumber == s'.logfileNumber == s.logfileNumber && s'.nextFile == s.nextFile + 1
    requires s'.lastSequence == s.lastSequence && s'.pending == s.pending
    requires s'.disk.logs == s.disk.logs && s'.layers.mem == s.layers.mem && s'.layers.imm.None?
    ensures ManifestOk(s') && NumbersOk(s') && LogsOk(s')
  {
    LogAndApplyManifest(s, e, s.logfileNumber, s.nextFile + 1, s');
    FoldsAdded(s.disk.manifest, s.layers.version);
    FreshAddsKeepOk(s.disk.manifest, s.layers.version, e, LastEdit(s'.disk.manifest), s'.layers.version,
                    LastNextFile(s.disk.manifest).value, s.pending, s.nextFile + 1, s.pending);
    AdvanceKeepsLogs(s.disk.logs, s.logNumber, s.logfileNumber, Elements(s.layers.mem), ImmEntries(s.layers),
                     LastLastSequence(s.disk.manifest).value, s.lastSequence);
  }

  lemma FlushKeepsDurable(s: Db, level: nat, f: FileMeta, v': Version, s': Db)
    requires Durable(s) && FlushStep(s, level, f, v', s')
    ensures Durable(s')
  {
    VersionIsAdded(s);
    FlushKeepsTables(s, level, f, v', s');
    AddsOfAdd(level, f);
    AdvanceKeepsDurable(s, AddEdit(level, f), s');
  }

  lemma EmptyEditIsIdentity(v: Version)
    requires |v| == NUM_LEVELS && SortedVersion(v)
    ensures Edited(v, EMPTY_EDIT, v)
    ensures CleanEdit(EMPTY_EDIT)
    ensures forall l: nat, n: nat :: !Adds(EMPTY_EDIT, l, n)
  {
  }

  lemma FlushEmptyKeepsDurable(s: Db, s': Db)
    requires Durable(s) && FlushEmptyStep(s, s')
    ensures Durable(s')
  {
    FoldsShape(s.disk.manifest, s.layers.version);
    EmptyEditIsIdentity(s.layers.version);
    AdvanceKeepsDurable(s, EMPTY_EDIT, s');
  }

  lemma CompactKeepsTables(s: Db, c: Compaction, outs: seq<FileMeta>, v': Version, s': Db)
    requires TablesOk(s) && CompactStep(s, c, outs, v', s')
    requires Replaced(s.layers.version, c, outs, v')
    ensures TablesOk(s')
  {
  }

  lemma CompactKeepsDurable(s: Db, c: Compaction, outs: seq<FileMeta>, v': Version, s': Db)
    requires LayersOk(s) && Durable(s) && CompactStep(s, c, outs, v', s')
    ensures Durable(s')
  {
    hide ValidVersion, Folds, AddedOnce, Edited, LogState, HasTables, CleanEdit, Adds, Replaced;
    VersionIsAdded(s);
    InstallMembers(s.layers.version, c, outs, v');
    CompactKeepsTables(s, c, outs, v', s');
    AddsOfInstall(c, outs);
    var e := InstallEdit(c, outs);
    forall l: nat, n: nat, l': nat | Adds(e, l, n)
      ensures !EverAdds(s.disk.manifest, l', n)
    {
    }
    LogAndApplyManifest(s, e, s.logNumber, s.nextFile, s');
    FreshAddsKeepOk(s.disk.manifest, s.layers.version, e, LastEdit(s'.disk.manifest), v',
                    LastNextFile(s.disk.manifest).value, s.pending, s.nextFile, s'.pending);
    RecordKeepsLogs(s.disk.logs, s.logNumber, s.logfileNumber, Elements(s.layers.mem), ImmEntries(s.layers),
                    LastLastSequence(s.disk.manifest).value, s.lastSequence);
  }

  lemma MoveKeepsTables(s: Db, c: Compaction, v': Version, s': Db)
    requires TablesOk(s) && MoveStep(s, c, v', s')
    requires Replaced(s.layers.version, c, c.inputs0, v')
    ensures TablesOk(s')
  {
    forall l: nat, f | l < |v'| && f in v'[l]
      ensures f.number in s'.disk.tables && s'.disk.tables[f.number] == f.entries
    {
      if !(f in s.layers.version[l]) {
        assert f in c.inputs0;
        assert f in s.layers.version[c.level];
      }
    }
  }

  lemma MoveKeepsDurable(s: Db, c: Compaction, v': Version, s': Db)
    requires LayersOk(s) && Durable(s) && MoveStep(s, c, v', s')
    ensures Durable(s')
  {
    hide ValidVersion, Folds, AddedOnce, Edited, LogState, HasTables, CleanEdit, Adds, Replaced, AddsOk;
    VersionIsAdded(s);
    var f := c.inputs0[0];
    assert c.inputs0 == [f];
    assert f in c.inputs0;
    InstallMembers(s.layers.version, c, c.inputs0, v');
    MoveKeepsTables(s, c, v', s');
    AddsOfInstall(c, c.inputs0);
    MoveKeepsAddsOk(s.disk.manifest, s.layers.version, c, f, LastEdit(s'.disk.manifest), v',
                    LastNextFile(s.disk.manifest).value, s.nextFile, s.pending);
    LogAndApplyManifest(s, InstallEdit(c, c.inputs0), s.logNumber, s.nextFile, s');
    RecordKeepsLogs(s.disk.logs, s.logNumber, s.logfileNumber, Elements(s.layers.mem), ImmEntries(s.layers),
                    LastLastSequence(s.disk.manifest).value, s.lastSequence);
  }

  // ----- steps that leave the version alone -----

  lemma WriteKeepsDurable(s: Db, ops: seq<Op>, s': Db)
    requires Durable(s) && WriteStep(s, ops, s')
    requires Elements(s'.layers.mem) == Elements(s.layers.mem) + Elements(Stamp(ops, s.lastSequence + 1))
    ensures Durable(s')
  {
    hide Folds, AddedOnce, LogState, AddsOk, Adds, HasTables;
    AppendKeepsLogs(s.disk.logs, s.logNumber, s.logfileNumber, Elements(s.layers.mem), ImmEntries(s.layers),
                    LastLastSequence(s.disk.manifest).value, s.lastSequence, ops);
  }

  lemma SwitchKeepsDurable(s: Db, s': Db)
    requires Durable(s) && SwitchStep(s, s')
    ensures Durable(s')
  {
    NewLogKeepsLogs(s.disk.logs, s.logNumber, s.logfileNumber, Elements(s.layers.mem),
                    LastLastSequence(s.disk.manifest).value, s.lastSequence, s.nextFile);
  }

  lemma BeginTableKeepsDurable(s: Db, es: seq<Entry>, s': Db)
    requires Durable(s) && BeginTableStep(s, es, s')
    ensures Durable(s')
  {
    VersionIsAdded(s);
    TablesKept(s.disk.tables, s.layers.version, s.nextFile, es);
    forall v | v in s.pinned
      ensures HasTables(s'.disk.tables, v)
    {
      TablesKept(s.disk.tables, v, s.nextFile, es);
    }
  }

  lemma CollectKeepsDurable(s: Db, s': Db)
    requires Durable(s) && CollectStep(s, s')
    ensures Durable(s')
  {
    ReplaySame(s.disk.logs, s'.disk.logs, s.logNumber, s.logfileNumber);
    ReplaySame(s.disk.logs, s'.disk.logs, s.logNumber, s.logfileNumber + 1);
    LiveKept(s, s', s.layers.version);
    forall v | v in s.pinned
      ensures HasTables(s'.disk.tables, v)
    {
      LiveKept(s, s', v);
    }
  }

  /** RemoveObsoleteFiles leaves every table of a live version. */
  lemma LiveKept(s: Db, s': Db, v: Version)
    requires CollectStep(s, s') && HasTables(s.disk.tables, v)
    requires v == s.layers.version || v in s.pinned
    ensures HasTables(s'.disk.tables, v)
  {
    forall l: nat, f | l < |v| && f in v[l]
      ensures f.number in s'.disk.tables
    {
      assert f.number in VersionNumbers(v);
      assert f.number in LiveNumbers(s);
    }
  }

  // ----- recovery -----

  lemma PlacedLast(u: Version, files: seq<FileMeta>, v1: Version, f: FileMeta, v: Version)
    requires Edited(u, EMPTY_EDIT.(added := Placed(0, files)), v1)
    requires Edited(v1, AddEdit(0, f), v)
    ensures Edited(u, EMPTY_EDIT.(added := Placed(0, files + [f])), v)
  {
    PlacedMembers(0, files);
    PlacedMembers(0, files + [f]);
    var e := EMPTY_EDIT.(added := Placed(0, files + [f]));
    forall l: nat, g | l < NUM_LEVELS
      ensures g in v[l] <==> (g in u[l] && (l, g.number) !in e.deleted) || (l, g) in e.added
    {
      AddMembers(v1, 0, f, v, l);
      assert (l, g) in Placed(0, files) <==> l == 0 && g in files;
      assert (l, g) in Placed(0, files + [f]) <==> l == 0 && g in files + [f];
    }
  }

  lemma PutFile(v: Version, f: FileMeta) returns (v': Version)
    requires |v| == NUM_LEVELS && SortedVersion(v) && NumbersBelow(v, f.number)
    ensures Edited(v, AddEdit(0, f), v')
  {
    InsertFileMembers(v[0], f);
    v' := v[0 := InsertFile(v[0], f)];
    forall l: nat, g | l < NUM_LEVELS
      ensures g in v'[l] <==> (g in v[l] && (l, g.number) !in AddEdit(0, f).deleted) || (l, g) in AddEdit(0, f).added
    {
      assert (l, g) in AddEdit(0, f).added <==> l == 0 && g == f;
    }
  }

  lemma SplitIncreasing(a: seq<Entry>, b: seq<Entry>, A: set<Entry>)
    requires Increasing(a + b) && Newer(Elements(a + b), A)
    ensures Increasing(a)
    ensures Newer(Elements(a), A) && Newer(Elements(b), A + Elements(a))
  {
    ElementsConcat(a, b);
    assert forall i :: 0 <= i < |a| ==> (a + b)[i] == a[i];
    NewerSubset(Elements(a + b), A, Elements(a), A);
    NewerSubset(Elements(a + b), A, Elements(b), A);
    forall x, y | x in Elements(b) && y in Elements(a) && x.key.user == y.key.user
      ensures Less(x.key, y.key)
    {
      var i :| 0 <= i < |b| && b[i] == x;
      var j :| 0 <= j < |a| && a[j] == y;
      assert (a + b)[|a| + i] == x && (a + b)[j] == y;
    }
    NewerUnion(Elements(b), A, Elements(a));
  }

  lemma RecoveredPrefix(log: seq<Entry>, segments: seq<Batch>, files: seq<FileMeta>, lo: nat, hi: nat)
    requires RecoveredFiles(log, segments, files, lo, hi) && files != []
    ensures var n := |files| - 1;
      && log == Flatten(segments[..n]) + segments[n]
      && RecoveredFiles(Flatten(segments[..n]), segments[..n], files[..n], lo, hi)
      && TableOf(files[n], segments[n])
      && files[n].number >= if n == 0 then lo else files[..n][n - 1].number + 1
  {
  }

  /** Replaying the logs into level-0 tables restores every logged entry, in age order. */
  lemma IdentityEdit(v: Version)
    requires ValidVersion(v) && SortedVersion(v)
    ensures Edited(v, EMPTY_EDIT, v)
  {
    EmptyEditIsIdentity(v);
  }

  lemma {:induction false} RecoveredVersion(v0: Version, log: seq<Entry>, segments: seq<Batch>, files: seq<FileMeta>, lo: nat, hi: nat)
    returns (v': Version)
    requires ValidVersion(v0) && SortedVersion(v0) && DistinctNumbers(v0) && NumbersBelow(v0, lo)
    requires RecoveredFiles(log, segments, files, lo, hi)
    requires Increasing(log) && Newer(Elements(log), VersionEntries(v0))
    ensures Edited(v0, EMPTY_EDIT.(added := Placed(0, files)), v')
    ensures ValidVersion(v') && SortedVersion(v') && DistinctNumbers(v')
    ensures VersionEntries(v') == VersionEntries(v0) + Elements(log)
    ensures NumbersBelow(v', if files == [] then lo else files[|files| - 1].number + 1)
    decreases |files|
  {
    hide ValidVersion, DistinctNumbers, Newer;
    if files == [] {
      v' := v0;
      assert Placed(0, files) == [];
      IdentityEdit(v0);
      EmptyElements(log);
    } else {
      var n := |files| - 1;
      var f, a, b := files[n], Flatten(segments[..n]), segments[n];
      RecoveredPrefix(log, segments, files, lo, hi);
      SplitIncreasing(a, b, VersionEntries(v0));
      var v1 := RecoveredVersion(v0, a, segments[..n], files[..n], lo, hi);
      v' := RecoverOne(v0, files[..n], v1, f, a, b, if n == 0 then lo else files[..n][n - 1].number + 1);
      assert files[..n] + [f] == files;
    }
  }

  /** One more recovered table. */
  lemma RecoverOne(v0: Version, before: seq<FileMeta>, v1: Version, f: FileMeta, a: seq<Entry>, b: seq<Entry>, bound: nat)
    returns (v': Version)
    requires Edited(v0, EMPTY_EDIT.(added := Placed(0, before)), v1)
    requires ValidVersion(v1) && SortedVersion(v1) && DistinctNumbers(v1)
    requires NumbersBelow(v1, bound) && bound <= f.number
    requires TableOf(f, b) && VersionEntries(v1) == VersionEntries(v0) + Elements(a)
    requires Newer(Elements(b), VersionEntries(v0) + Elements(a))
    ensures Edited(v0, EMPTY_EDIT.(added := Placed(0, before + [f])), v')
    ensures ValidVersion(v') && SortedVersion(v') && DistinctNumbers(v')
    ensures VersionEntries(v') == VersionEntries(v0) + Elements(a + b)
    ensures NumbersBelow(v', f.number + 1)
  {
    hide ValidVersion, DistinctNumbers, Newer, Edited, VersionEntries, SortedVersion;
    v' := AddRecovered(v1, f);
    PlacedLast(v0, before, v1, f, v');
    ElementsConcat(a, b);
  }

  lemma AddRecovered(v1: Version, f: FileMeta) returns (v': Version)
    requires ValidVersion(v1) && SortedVersion(v1) && DistinctNumbers(v1) && NumbersBelow(v1, f.number)
    requires ValidFile(f) && Newer(FileEntries(f), VersionEntries(v1))
    ensures Edited(v1, AddEdit(0, f), v')
    ensures ValidVersion(v') && SortedVersion(v') && DistinctNumbers(v')
    ensures VersionEntries(v') == VersionEntries(v1) + FileEntries(f)
    ensures NumbersBelow(v', f.number + 1)
  {
    assert |v1| == NUM_LEVELS;
    hide ValidVersion, SortedVersion, DistinctNumbers, Newer, VersionEntries;
    v' := PutFile(v1, f);
    AddKeepsVersion(v1, 0, f, v');
    forall l: nat, g | l < |v'| && g in v'[l]
      ensures g.number < f.number + 1
    {
      AddMembers(v1, 0, f, v', l);
    }
  }
}
