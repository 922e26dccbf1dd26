/** Iterating over the whole database: the runs under the merging iterator, and what the user's
    iterator then shows (DBImpl::NewIterator and NewInternalIterator in db_impl.cc,
    Version::AddIterators in version_set.cc). */
module DatabaseIterator {
  import opened Keys
  import opened Entries
  import opened Versions
  import opened Overlap
  import opened VersionBuilder
  import opened Store
  import opened StoreSteps
  import opened TableFormat
  import opened MergingIterator
  import opened TwoLevelIterator
  import opened DbIterator
  import opened Engine
  import opened EngineReads
  import opened EngineDurable
  import opened EngineRuns
  import opened Options

  // ----- the runs -----

  /** The entries of each file. */
  function Tables(files: seq<FileMeta>): (r: Blocks)
    ensures |r| == |files| && forall i :: 0 <= i < |files| ==> r[i] == files[i].entries
  {
    if files == [] then [] else Tables(files[..|files| - 1]) + [files[|files| - 1].entries]
  }

  /** Levels 1, ..., l - 1: one concatenating iterator for each level that has files. */
  function SortedLevels(v: Version, l: nat): seq<seq<Entry>>
    requires 1 <= l <= |v|
  {
    if l == 1 then [] else SortedLevels(v, l - 1) + if v[l - 1] == [] then [] else [Contents(Tables(v[l - 1]))]
  }

  /** The children of the merging iterator, in order. */
  function Children(st: Layers): seq<seq<Entry>>
    requires |st.version| == NUM_LEVELS
  {
    [st.mem] + (if st.imm.Some? then [st.imm.value] else []) + Tables(st.version[0]) + SortedLevels(st.version, NUM_LEVELS)
  }

  // ----- a level as one run -----

  /** The index the concatenating iterator walks: the largest key of each file leads to the file. */
  function LevelIndex(files: seq<FileMeta>, name: FileMeta -> Bytes): (r: seq<Entry>)
    ensures |r| == |files| && forall i :: 0 <= i < |files| ==> r[i] == Entry(files[i].largest, name(files[i]))
  {
    if files == [] then [] else LevelIndex(files[..|files| - 1], name) + [Entry(files[|files| - 1].largest, name(files[|files| - 1]))]
  }

  lemma {:induction false} LevelSorted(files: seq<FileMeta>)
    requires ValidFiles(files) && Disjoint(files)
    ensures Sorted(Contents(Tables(files))) && Elements(Contents(Tables(files))) == LevelEntries(files)
  {
    if files != [] {
      hide Sorted, Less, Disjoint, ValidFile;
      var n := |files| - 1;
      var f, before := files[n], Contents(Tables(files[..n]));
      LastFile(files, n);
      LevelSorted(files[..n]);
      assert files == files[..n] + [f];
      forall e | e in before
        ensures Less(e.key, f.smallest)
      {
        assert e in LevelEntries(files[..n]);
        var g :| g in files[..n] && e in FileEntries(g);
        BeforeFile(files, n, g, e);
      }
      forall e | e in f.entries
        ensures e.key == f.smallest || Less(f.smallest, e.key)
      {
        assert e in FileEntries(f);
        FileBounds(f, e);
      }
      AppendRun(before, f.entries, f.smallest);
      ContentsStep(files, n);
      LevelPrefix(files, n);
      assert Elements(before + f.entries) == Elements(before) + FileEntries(f);
    }
  }

  lemma ContentsStep(files: seq<FileMeta>, n: nat)
    requires n == |files| - 1
    ensures Contents(Tables(files)) == Contents(Tables(files[..n])) + files[n].entries
  {
    var t := Tables(files);
    assert t[..n] == Tables(files[..n]);
  }

  lemma LastFile(files: seq<FileMeta>, n: nat)
    requires ValidFiles(files) && Disjoint(files) && n < |files|
    ensures ValidFiles(files[..n]) && Disjoint(files[..n]) && ValidFile(files[n]) && Sorted(files[n].entries)
  {
    hide Less, Sorted;
    assert ValidFile(files[n]);
    assert forall f :: f in files[..n] ==> f in files;
  }

  lemma BeforeFile(files: seq<FileMeta>, n: nat, g: FileMeta, e: Entry)
    requires ValidFiles(files) && Disjoint(files) && n < |files| && g in files[..n] && e in FileEntries(g)
    ensures Less(e.key, files[n].smallest)
  {
    hide Sorted;
    var i :| 0 <= i < n && files[i] == g;
    FileBounds(g, e);
  }

  lemma AppendRun(a: seq<Entry>, b: seq<Entry>, k: InternalKey)
    requires Sorted(a) && Sorted(b)
    requires forall e :: e in a ==> Less(e.key, k)
    requires forall e :: e in b ==> e.key == k || Less(k, e.key)
    ensures Sorted(a + b)
  {
    forall i, j | 0 <= i < j < |a + b|
      ensures Less((a + b)[i].key, (a + b)[j].key)
    {
      if i < |a| <= j {
        assert a[i] in a && b[j - |a|] in b;
      }
    }
  }

  /** A sorted level meets what the two-level iterator asks of its index. */
  lemma LevelIndexed(files: seq<FileMeta>, name: FileMeta -> Bytes, open: BlockFunction)
    requires ValidFiles(files) && Disjoint(files)
    requires forall f :: f in files ==> open(name(f)) == f.entries
    ensures Indexes(LevelIndex(files, name), open, Tables(files))
  {
    hide Sorted, Contents, Less, Disjoint, ValidFiles;
    LevelSorted(files);
    var index, blocks := LevelIndex(files, name), Tables(files);
    forall i, j, e: Entry | 0 <= j <= i < |blocks| && e in blocks[j]
      ensures e.key == index[i].key || Less(e.key, index[i].key)
    {
      UpToFile(files, i, j, e);
    }
    forall i, j, e: Entry | 0 <= i < j < |blocks| && e in blocks[j]
      ensures Less(index[i].key, e.key)
    {
      BeyondFile(files, i, j, e);
    }
  }

  lemma UpToFile(files: seq<FileMeta>, i: nat, j: nat, e: Entry)
    requires ValidFiles(files) && Disjoint(files) && j <= i < |files| && e in files[j].entries
    ensures e.key == files[i].largest || Less(e.key, files[i].largest)
  {
    hide Sorted;
    assert e in FileEntries(files[j]);
    FileBounds(files[j], e);
    FileIsRange(files[i]);
  }

  lemma BeyondFile(files: seq<FileMeta>, i: nat, j: nat, e: Entry)
    requires ValidFiles(files) && Disjoint(files) && i < j < |files| && e in files[j].entries
    ensures Less(files[i].largest, e.key)
  {
    hide Sorted;
    assert e in FileEntries(files[j]);
    FileBounds(files[j], e);
  }

  // ----- the runs can be merged -----

  ghost predicate Separate(A: set<Entry>, B: set<Entry>) {
    forall x, y :: x in A && y in B ==> x.key != y.key
  }

  /** Sorted runs with no key in common, which together hold just `S`. */
  ghost predicate Collected(runs: seq<seq<Entry>>, S: set<Entry>) {
    && (forall c :: 0 <= c < |runs| ==> Sorted(runs[c]))
    && (forall c, d :: 0 <= c < d < |runs| ==> Separate(Elements(runs[c]), Elements(runs[d])))
    && forall e :: e in S <==> exists c :: 0 <= c < |runs| && e in Elements(runs[c])
  }

  lemma Collect(runs: seq<seq<Entry>>, S: set<Entry>, run: seq<Entry>)
    requires Collected(runs, S) && Sorted(run) && Separate(S, Elements(run))
    ensures Collected(runs + [run], S + Elements(run))
  {
    var all := runs + [run];
    forall c, d | 0 <= c < d < |all|
      ensures Separate(Elements(all[c]), Elements(all[d]))
    {
      if d == |runs| {
        forall x, y | x in Elements(all[c]) && y in Elements(run)
          ensures x.key != y.key
        {
          assert x in Elements(runs[c]);
        }
      }
    }
    forall e
      ensures e in S + Elements(run) <==> exists c :: 0 <= c < |all| && e in Elements(all[c])
    {
      if e in S {
        var c :| 0 <= c < |runs| && e in Elements(runs[c]);
        assert e in Elements(all[c]);
      }
      if e in Elements(run) {
        assert e in Elements(all[|runs|]);
      }
    }
  }

  lemma NewerIsSeparate(A: set<Entry>, B: set<Entry>)
    requires Newer(A, B) || Newer(B, A)
    ensures Separate(A, B)
  {
  }

  lemma SeparateUnion(A: set<Entry>, B: set<Entry>, C: set<Entry>)
    requires Separate(A, C) && Separate(B, C)
    ensures Separate(A + B, C)
  {
  }

  lemma {:induction false} CollectTables(runs: seq<seq<Entry>>, S: set<Entry>, files: seq<FileMeta>)
    requires Collected(runs, S) && ValidFiles(files) && NumberedByAge(files)
    requires Newer(S, LevelEntries(files))
    ensures Collected(runs + Tables(files), S + LevelEntries(files))
    decreases |files|
  {
    hide Collected, LevelEntries, Newer, Separate, Elements, Sorted, ValidFiles, NumberedByAge;
    if files == [] {
      NoFiles(files);
      assert runs + [] == runs && S + {} == S;
    } else {
      var n := |files| - 1;
      var f, upper := files[n], LevelEntries(files[..n]);
      LevelPrefix(files, n);
      FirstFiles(files, n);
      NewerSubset(S, LevelEntries(files), S, upper);
      NewerSubset(S, LevelEntries(files), S, FileEntries(f));
      CollectTables(runs, S, files[..n]);
      FilesSeparate(files, n);
      NewerIsSeparate(S, FileEntries(f));
      SeparateUnion(S, upper, FileEntries(f));
      Collect(runs + Tables(files[..n]), S + upper, f.entries);
      assert runs + (Tables(files[..n]) + [f.entries]) == runs + Tables(files[..n]) + [f.entries];
      assert S + (upper + FileEntries(f)) == S + upper + FileEntries(f);
    }
  }

  lemma FirstFiles(files: seq<FileMeta>, n: nat)
    requires ValidFiles(files) && NumberedByAge(files) && n < |files|
    ensures ValidFiles(files[..n]) && NumberedByAge(files[..n]) && Sorted(files[n].entries)
  {
    hide Newer, Sorted;
    assert ValidFile(files[n]);
    assert forall f :: f in files[..n] ==> f in files;
  }

  lemma LevelPrefix(files: seq<FileMeta>, n: nat)
    requires n == |files| - 1
    ensures LevelEntries(files) == LevelEntries(files[..n]) + FileEntries(files[n])
  {
    assert files == files[..n] + [files[n]];
  }

  /** Two level-0 files have different numbers, so one is newer than the other. */
  lemma FilesSeparate(files: seq<FileMeta>, n: nat)
    requires NumberedByAge(files) && n < |files|
    ensures Separate(LevelEntries(files[..n]), FileEntries(files[n]))
  {
    forall x, y | x in LevelEntries(files[..n]) && y in FileEntries(files[n])
      ensures x.key != y.key
    {
      var g :| g in files[..n] && x in FileEntries(g);
      var i :| 0 <= i < n && files[i] == g;
      NewerIsSeparate(FileEntries(g), FileEntries(files[n]));
    }
  }

  /** The entries of levels 1, ..., l - 1. */
  ghost function Below(v: Version, l: nat): set<Entry>
    requires 1 <= l <= |v|
  {
    if l == 1 then {} else Below(v, l - 1) + LevelEntries(v[l - 1])
  }

  lemma {:induction false} BelowMembers(v: Version, l: nat)
    requires 1 <= l <= |v|
    ensures forall e :: e in Below(v, l) <==> exists j :: 1 <= j < l && e in LevelEntries(v[j])
  {
    if l > 1 {
      BelowMembers(v, l - 1);
    }
  }

  lemma {:induction false} CollectLevels(runs: seq<seq<Entry>>, S: set<Entry>, v: Version, l: nat)
    requires Collected(runs, S) && ValidVersion(v) && 1 <= l <= |v|
    requires forall j :: 1 <= j < l ==> Newer(S, LevelEntries(v[j]))
    ensures Collected(runs + SortedLevels(v, l), S + Below(v, l))
  {
    hide Collected, Newer, Separate, Elements, LevelEntries, Sorted, Contents, ValidVersion, ValidFiles, Disjoint;
    if l == 1 {
      assert runs + [] == runs && S + {} == S;
    } else {
      var files, upper := v[l - 1], Below(v, l - 1);
      CollectLevels(runs, S, v, l - 1);
      LevelValid(v, l - 1);
      LevelSorted(files);
      UpperNewer(v, l);
      CollectLevel(runs + SortedLevels(v, l - 1), S, upper, files);
      assert S + (upper + LevelEntries(files)) == S + upper + LevelEntries(files);
      var more := if files == [] then [] else [Contents(Tables(files))];
      assert runs + (SortedLevels(v, l - 1) + more) == runs + SortedLevels(v, l - 1) + more;
    }
  }

  lemma LevelValid(v: Version, l: nat)
    requires ValidVersion(v) && 1 <= l < |v|
    ensures ValidFiles(v[l]) && Disjoint(v[l])
  {
  }

  lemma CollectLevel(runs: seq<seq<Entry>>, S: set<Entry>, upper: set<Entry>, files: seq<FileMeta>)
    requires Collected(runs, S + upper) && Newer(S, LevelEntries(files)) && Newer(upper, LevelEntries(files))
    requires Sorted(Contents(Tables(files))) && Elements(Contents(Tables(files))) == LevelEntries(files)
    ensures Collected(runs + if files == [] then [] else [Contents(Tables(files))], S + upper + LevelEntries(files))
  {
    hide Collected, Newer, Separate, Elements, Sorted, Contents;
    if files == [] {
      NoFiles(files);
      assert S + upper + LevelEntries(files) == S + upper;
      assert runs + [] == runs;
    } else {
      NewerIsSeparate(S, LevelEntries(files));
      NewerIsSeparate(upper, LevelEntries(files));
      SeparateUnion(S, upper, LevelEntries(files));
      Collect(runs, S + upper, Contents(Tables(files)));
    }
  }

  lemma NoFiles(files: seq<FileMeta>)
    ensures files == [] ==> LevelEntries(files) == {}
  {
  }

  lemma UpperNewer(v: Version, l: nat)
    requires ValidVersion(v) && 1 < l <= |v|
    ensures Newer(Below(v, l - 1), LevelEntries(v[l - 1]))
  {
    hide Newer, LevelEntries, Below;
    BelowMembers(v, l - 1);
    forall j | 1 <= j < l - 1
      ensures Newer(LevelEntries(v[j]), LevelEntries(v[l - 1]))
    {
    }
    NewerEach(Below(v, l - 1), v, l - 1);
  }

  lemma NewerEach(upper: set<Entry>, v: Version, l: nat)
    requires l < |v|
    requires forall e :: e in upper ==> exists j :: 1 <= j < l && e in LevelEntries(v[j])
    requires forall j :: 1 <= j < l ==> Newer(LevelEntries(v[j]), LevelEntries(v[l]))
    ensures Newer(upper, LevelEntries(v[l]))
  {
    hide LevelEntries;
  }

  lemma EmptyCollected()
    ensures Collected([], {})
  {
  }

  lemma CollectMemory(st: Layers) returns (runs: seq<seq<Entry>>)
    requires ValidLayers(st)
    ensures runs == [st.mem] + if st.imm.Some? then [st.imm.value] else []
    ensures Collected(runs, Elements(st.mem) + ImmEntries(st))
    ensures Newer(Elements(st.mem) + ImmEntries(st), VersionEntries(st.version))
  {
    hide ValidVersion, SortedVersion, Collected, Sorted, Newer;
    LayersParts(st);
    NewerUnion(VersionEntries(st.version), Elements(st.mem), ImmEntries(st));
    EmptyCollected();
    assert Separate({}, Elements(st.mem));
    Collect([], {}, st.mem);
    runs := [st.mem];
    assert [] + [st.mem] == runs && {} + Elements(st.mem) == Elements(st.mem);
    if st.imm.Some? {
      NewerIsSeparate(Elements(st.mem), ImmEntries(st));
      Collect(runs, Elements(st.mem), st.imm.value);
      runs := [st.mem] + [st.imm.value];
    } else {
      assert Elements(st.mem) + {} == Elements(st.mem);
    }
  }

  lemma LevelsOf(v: Version)
    requires |v| == NUM_LEVELS
    ensures LevelEntries(v[0]) + Below(v, NUM_LEVELS) == VersionEntries(v)
    ensures forall j :: 0 <= j < NUM_LEVELS ==> LevelEntries(v[j]) <= VersionEntries(v)
  {
    BelowMembers(v, NUM_LEVELS);
    forall e
      ensures e in LevelEntries(v[0]) + Below(v, NUM_LEVELS) <==> e in VersionEntries(v)
    {
    }
  }

  /** The children of the merging iterator hold everything stored, each key once. */
  lemma ChildrenCollected(st: Layers)
    requires ValidLayers(st)
    ensures Collected(Children(st), Stored(st))
  {
    hide Collected, LevelEntries, VersionEntries, EntriesFrom, Below, Newer, Sorted, Elements, ValidFile, Disjoint;
    var runs := CollectMemory(st);
    var v, S := st.version, Elements(st.mem) + ImmEntries(st);
    LevelsOf(v);
    ImmVersion(S, v);
    CollectTables(runs, S, v[0]);
    CollectLevels(runs + Tables(v[0]), S + LevelEntries(v[0]), v, NUM_LEVELS);
    assert S + LevelEntries(v[0]) + Below(v, NUM_LEVELS) == Stored(st);
  }

  /** What is newer than the version is newer than each level, and level 0 than each below it. */
  lemma ImmVersion(S: set<Entry>, v: Version)
    requires ValidVersion(v) && Newer(S, VersionEntries(v))
    ensures ValidFiles(v[0]) && NumberedByAge(v[0]) && Newer(S, LevelEntries(v[0]))
    ensures forall j :: 1 <= j < NUM_LEVELS ==> Newer(S + LevelEntries(v[0]), LevelEntries(v[j]))
  {
    hide Newer, LevelEntries, VersionEntries, EntriesFrom, ValidFile, NumberedByAge;
    LevelsOf(v);
    NewerSubset(S, VersionEntries(v), S, LevelEntries(v[0]));
    forall j | 1 <= j < NUM_LEVELS
      ensures Newer(S + LevelEntries(v[0]), LevelEntries(v[j]))
    {
      NewerSubset(S, VersionEntries(v), S, LevelEntries(v[j]));
      NewerUnion(LevelEntries(v[j]), S, LevelEntries(v[0]));
    }
  }

  // ----- the theorem -----

  lemma HasLevels(st: Layers)
    requires ValidLayers(st)
    ensures |st.version| == NUM_LEVELS
  {
  }

  lemma MergedStored(st: Layers, merged: seq<Entry>)
    requires ValidLayers(st) && IsMerge(merged, Children(st))
    ensures Sorted(merged) && Elements(merged) == Stored(st)
  {
    hide ValidLayers, Children, Stored;
    HasLevels(st);
    ChildrenCollected(st);
    forall e
      ensures e in Elements(merged) <==> e in Stored(st)
    {
      if e in Stored(st) {
        var c :| 0 <= c < |Children(st)| && e in Elements(Children(st)[c]);
        assert e in Children(st)[c];
      }
      if e in Elements(merged) {
        var c :| 0 <= c < |Children(st)| && e in Children(st)[c];
        assert e in Elements(Children(st)[c]);
      }
    }
  }

  lemma IterationPossible(st: Layers) returns (merged: seq<Entry>)
    requires ValidLayers(st)
    ensures IsMerge(merged, Children(st))
  {
    hide ValidLayers, Children, Stored;
    HasLevels(st);
    ChildrenCollected(st);
    forall c, d, x, y | 0 <= c < d < |Children(st)| && x in Children(st)[c] && y in Children(st)[d]
      ensures x.key != y.key
    {
      assert x in Elements(Children(st)[c]) && y in Elements(Children(st)[d]);
    }
    merged := MergeExists(Children(st));
  }

  /** In every state of a careful run, an iterator opened at a live snapshot or at the last
      sequence number stops at just the keys that have a value in the written history, with
      that value, and at each of them once. */
  lemma IteratorShowsHistory(states: seq<Db>, steps: seq<Step>, i: nat, merged: seq<Entry>, at: SequenceNumber, k: UserKey)
    requires CarefulRun(states, steps) && i < |states| && ReadableAt(states[i], at)
    requires |states[i].layers.version| == NUM_LEVELS && IsMerge(merged, Children(states[i].layers))
    ensures forall p: nat :: Live(merged, at, p) && merged[p].key.user == k ==> View(states[i].history, k, at) == Some(merged[p].value)
    ensures View(states[i].history, k, at) != None ==> exists p: nat :: Live(merged, at, p) && merged[p].key.user == k
    ensures forall p: nat, q: nat :: Live(merged, at, p) && Live(merged, at, q) && merged[p].key.user == merged[q].key.user ==> p == q
  {
    hide Children, Stored, View, Live, IsMerge, Sorted, ValidLayers, Durable, HistoryOk, CarefulRun, Elements;
    RunReads(states, steps, i);
    MergedStored(states[i].layers, merged);
    LiveIsView(merged, k, at);
    assert at >= SmallestSnapshot(states[i]);
  }

  /** An open iterator pins the version it started from. As long as it does, whatever is written,
      flushed, compacted or collected meanwhile, every table it reads is on disk with its contents,
      and it goes on showing the history up to its sequence number, also when the memtable under
      it gains newer entries (`later` instead of `merged`). */
  lemma IteratorStays(states: seq<Db>, steps: seq<Step>, i: nat, j: nat, merged: seq<Entry>, later: seq<Entry>,
                      at: SequenceNumber, k: UserKey)
    requires CarefulRun(states, steps) && i <= j < |states| && ReadableAt(states[i], at)
    requires |states[i].layers.version| == NUM_LEVELS && IsMerge(merged, Children(states[i].layers))
    requires states[i].layers.version in states[j].pinned
    requires Sorted(later) && Elements(merged) <= Elements(later)
    requires forall e :: e in Elements(later) && e !in Elements(merged) ==> e.key.sequence > at
    ensures HasTables(states[j].disk.tables, states[i].layers.version)
    ensures forall p: nat :: Live(later, at, p) && later[p].key.user == k ==> View(states[j].history, k, at) == Some(later[p].value)
    ensures View(states[j].history, k, at) != None ==> exists p: nat :: Live(later, at, p) && later[p].key.user == k
  {
    hide Children, Stored, View, Live, IsMerge, Sorted, ValidLayers, HistoryOk, SnapshotsOk, HasTables, Next, Careful, Elements;
    RunReads(states, steps, i);
    MergedStored(states[i].layers, merged);
    LiveIsView(later, k, at);
    SameVisible(Elements(later), Elements(merged), k, at, at);
    ReadableFrom(states[i], at);
    ViewStays(states, steps, i, j, k, at);
    RunKeepsInv(states, steps, j);
  }

  lemma ReadableFrom(s: Db, at: SequenceNumber)
    requires Inv(s) && ReadableAt(s, at)
    ensures SmallestSnapshot(s) <= at <= s.lastSequence
  {
    hide LayersOk, HistoryOk, Durable;
  }
}
