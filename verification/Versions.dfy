/** Versions: seven levels of table files, and the point lookup through them (version_set.cc). */
module Versions {
  import opened Keys
  import opened Entries

  /** File metadata together with the sorted entries its table file serves. */
  datatype FileMeta = FileMeta(
    number: nat, size: nat, smallest: InternalKey, largest: InternalKey, entries: seq<Entry>)

  ghost predicate ValidFile(f: FileMeta) {
    && f.entries != []
    && Sorted(f.entries)
    && f.smallest == f.entries[0].key
    && f.largest == f.entries[|f.entries| - 1].key
  }

  type Version = seq<seq<FileMeta>>

  function FileEntries(f: FileMeta): set<Entry> {
    Elements(f.entries)
  }

  ghost function LevelEntries(files: seq<FileMeta>): set<Entry> {
    set f, e | f in files && e in FileEntries(f) :: e
  }

  ghost function EntriesFrom(v: Version, lo: nat): set<Entry> {
    set l, e | lo <= l < |v| && e in LevelEntries(v[l]) :: e
  }

  ghost function VersionEntries(v: Version): set<Entry> {
    EntriesFrom(v, 0)
  }

  /** Files of a sorted level lie one after the other in internal-key order. */
  ghost predicate Disjoint(files: seq<FileMeta>) {
    forall i, j :: 0 <= i < j < |files| ==> Less(files[i].largest, files[j].smallest)
  }

  /** Level-0 files may overlap, but a higher file number means newer data. */
  ghost predicate NumberedByAge(files: seq<FileMeta>) {
    && (forall i, j :: 0 <= i < j < |files| ==> files[i].number != files[j].number)
    && forall f, g :: f in files && g in files && f.number > g.number ==> Newer(FileEntries(f), FileEntries(g))
  }

  ghost predicate LevelsByAge(v: Version) {
    forall i, j :: 0 <= i < j < |v| ==> Newer(LevelEntries(v[i]), LevelEntries(v[j]))
  }

  /** The LSM invariant. */
  ghost predicate ValidVersion(v: Version) {
    && |v| == NUM_LEVELS
    && (forall l: nat, f :: 0 <= l < |v| && f in v[l] ==> ValidFile(f))
    && (forall l :: 1 <= l < |v| ==> Disjoint(v[l]))
    && NumberedByAge(v[0])
    && LevelsByAge(v)
  }

  /** Every entry of a file lies between its bounds. */
  lemma FileBounds(f: FileMeta, e: Entry)
    requires ValidFile(f)
    requires e in FileEntries(f)
    ensures e.key == f.smallest || Less(f.smallest, e.key)
    ensures e.key == f.largest || Less(e.key, f.largest)
    ensures f.smallest.user <= e.key.user <= f.largest.user
  {
    var i :| 0 <= i < |f.entries| && f.entries[i] == e;
  }

  // ----- binary search for a file -----

  /** `i` is the first file whose largest key is at or after `key`. */
  ghost predicate FirstFile(files: seq<FileMeta>, key: InternalKey, i: nat) {
    && i <= |files|
    && (forall j :: 0 <= j < i ==> Less(files[j].largest, key))
    && (i < |files| ==> !Less(files[i].largest, key))
  }

  method FindFile(files: seq<FileMeta>, key: InternalKey) returns (r: nat)
    requires forall f :: f in files ==> ValidFile(f)
    requires Disjoint(files)
    ensures FirstFile(files, key, r)
  {
    var left, right := 0, |files|;
    while left < right
      invariant 0 <= left <= right <= |files|
      invariant forall j :: 0 <= j < left ==> Less(files[j].largest, key)
      invariant forall j :: right <= j < |files| ==> !Less(files[j].largest, key)
    {
      var mid := (left + right) / 2;
      if Less(files[mid].largest, key) {
        forall j | 0 <= j <= mid
          ensures Less(files[j].largest, key)
        {
          LargestIncreases(files, j, mid);
        }
        left := mid + 1;
      } else {
        forall j | mid <= j < |files|
          ensures !Less(files[j].largest, key)
        {
          LargestIncreases(files, mid, j);
        }
        right := mid;
      }
    }
    r := right;
  }

  lemma LargestIncreases(files: seq<FileMeta>, i: nat, j: nat)
    requires forall f :: f in files ==> ValidFile(f)
    requires Disjoint(files)
    requires i <= j < |files|
    ensures i == j || Less(files[i].largest, files[j].largest)
  {
    assert files[j] in files;
    FileBounds(files[j], files[j].entries[|files[j].entries| - 1]);
  }

  /** In a sorted level only the file FindFile returns can hold what a lookup needs. */
  /** The first file whose largest key is at or after the seek key has an entry for whatever a
      later file shows. */
  lemma FirstFileCovers(files: seq<FileMeta>, k: UserKey, s: SequenceNumber, i: nat, f: FileMeta, x: Entry)
    requires ValidFile(f) && forall g :: g in files ==> ValidFile(g)
    requires Disjoint(files) && FirstFile(files, SeekKey(k, s), i)
    requires f in files && x in FileEntries(f) && Visible(x, k, s)
    ensures i < |files| && exists y :: y in FileEntries(files[i]) && Visible(y, k, s) && (x == y || Less(y.key, x.key))
  {
    var j :| 0 <= j < |files| && files[j] == f;
    FileBounds(f, x);
    SeekSkipsTooNew(x.key, s);
    assert i <= j;
    if i < j {
      assert files[i] in files;
      var last := files[i].entries[|files[i].entries| - 1];
      assert last in FileEntries(files[i]);
      assert last.key.user == k;
      SeekSkipsTooNew(last.key, s);
      assert Visible(last, k, s);
    }
  }

  lemma OneFilePerLevel(files: seq<FileMeta>, k: UserKey, s: SequenceNumber, i: nat, r: Lookup)
    requires forall f :: f in files ==> ValidFile(f)
    requires Disjoint(files)
    requires FirstFile(files, SeekKey(k, s), i)
    requires if i < |files| then Answers(FileEntries(files[i]), k, s, r) else r.Absent?
    ensures Answers(LevelEntries(files), k, s, r)
  {
    var S := LevelEntries(files);
    forall x | x in S && Visible(x, k, s)
      ensures i < |files| && exists y :: y in FileEntries(files[i]) && Visible(y, k, s) && (x == y || Less(y.key, x.key))
    {
      var f :| f in files && x in FileEntries(f);
      FirstFileCovers(files, k, s, i, f, x);
    }
    if !r.Absent? {
      var e :| Newest(FileEntries(files[i]), k, s, e) && r == LookupOf(e);
      assert files[i] in files;
      assert Newest(S, k, s, e);
    }
  }

  // ----- lookup in one table, and the order level-0 files are searched in -----

  /** Where a Seek in a sorted run lands. */
  function SeekIndex(es: seq<Entry>, target: InternalKey): (i: nat)
    ensures SeekPosition(es, target, i)
  {
    if es == [] || !Less(es[0].key, target) then 0
    else
      var i := SeekIndex(es[1..], target);
      assert forall j :: 1 <= j < i + 1 ==> es[j] == es[1..][j - 1];
      i + 1
  }

  function TableGet(f: FileMeta, k: UserKey, s: SequenceNumber): Lookup {
    Probe(f.entries, SeekIndex(f.entries, SeekKey(k, s)), k)
  }

  function InsertNewestFirst(f: FileMeta, files: seq<FileMeta>): seq<FileMeta> {
    if files == [] || f.number > files[0].number then [f] + files
    else [files[0]] + InsertNewestFirst(f, files[1..])
  }

  ghost predicate NewestFirst(files: seq<FileMeta>) {
    forall i, j :: 0 <= i < j < |files| ==> files[i].number > files[j].number
  }

  lemma {:induction false} InsertKeepsNewestFirst(f: FileMeta, files: seq<FileMeta>)
    requires NewestFirst(files)
    requires forall g :: g in files ==> g.number != f.number
    ensures NewestFirst(InsertNewestFirst(f, files))
    ensures forall g :: g in InsertNewestFirst(f, files) <==> g == f || g in files
  {
    if files == [] || f.number > files[0].number {
    } else {
      InsertKeepsNewestFirst(f, files[1..]);
      var r := InsertNewestFirst(f, files[1..]);
      forall i | 0 <= i < |r|
        ensures files[0].number > r[i].number
      {
        assert r[i] in r;
        assert r[i] == f || r[i] in files[1..];
      }
      assert forall g :: g in files <==> g == files[0] || g in files[1..];
    }
  }

  /** The files of level 0 that may hold `k`, newest first. */
  method OverlappingNewestFirst(files: seq<FileMeta>, k: UserKey) returns (tmp: seq<FileMeta>)
    requires NumberedByAge(files)
    ensures NewestFirst(tmp)
    ensures forall f :: f in tmp <==> f in files && f.smallest.user <= k <= f.largest.user
  {
    tmp := [];
    for i := 0 to |files|
      invariant NewestFirst(tmp)
      invariant forall f :: f in tmp <==> f in files[..i] && f.smallest.user <= k <= f.largest.user
    {
      assert files[..i + 1] == files[..i] + [files[i]];
      if files[i].smallest.user <= k <= files[i].largest.user {
        InsertKeepsNewestFirst(files[i], tmp);
        tmp := InsertNewestFirst(files[i], tmp);
      }
    }
    assert files[..|files|] == files;
  }

  /** Entries of the files from position `i` on. */
  lemma FilesSplit(files: seq<FileMeta>, i: nat)
    requires i < |files|
    ensures LevelEntries(files[i..]) == FileEntries(files[i]) + LevelEntries(files[i + 1..])
  {
    assert files[i..] == [files[i]] + files[i + 1..];
  }

  lemma NewestFirstByAge(files: seq<FileMeta>, i: nat)
    requires NewestFirst(files)
    requires forall f, g :: f in files && g in files && f.number > g.number ==> Newer(FileEntries(f), FileEntries(g))
    requires i < |files|
    ensures Newer(FileEntries(files[i]), LevelEntries(files[i + 1..]))
  {
    forall a, b | a in FileEntries(files[i]) && b in LevelEntries(files[i + 1..]) && a.key.user == b.key.user
      ensures Less(a.key, b.key)
    {
      var g :| g in files[i + 1..] && b in FileEntries(g);
      assert g in files && files[i] in files;
      assert Newer(FileEntries(files[i]), FileEntries(g));
    }
  }

  /** Skipping the files whose user-key range misses `k` loses nothing. */
  lemma OverlappingSuffices(files: seq<FileMeta>, tmp: seq<FileMeta>, k: UserKey, s: SequenceNumber, r: Lookup)
    requires forall f :: f in files ==> ValidFile(f)
    requires forall f :: f in tmp <==> f in files && f.smallest.user <= k <= f.largest.user
    requires Answers(LevelEntries(tmp), k, s, r)
    ensures Answers(LevelEntries(files), k, s, r)
  {
    var S, T := LevelEntries(files), LevelEntries(tmp);
    forall x | x in S && Visible(x, k, s)
      ensures x in T
    {
      var f :| f in files && x in FileEntries(f);
      FileBounds(f, x);
    }
    assert T <= S;
    if !r.Absent? {
      var e :| Newest(T, k, s, e) && r == LookupOf(e);
      assert Newest(S, k, s, e);
    }
  }

  /** Level 0: probe the overlapping files from newest to oldest, stop at the first answer. */
  method SearchLevel0(files: seq<FileMeta>, k: UserKey, s: SequenceNumber) returns (r: Lookup)
    requires forall f :: f in files ==> ValidFile(f)
    requires NumberedByAge(files)
    ensures Answers(LevelEntries(files), k, s, r)
  {
    var tmp := OverlappingNewestFirst(files, k);
    r := Absent;
    var i := 0;
    while i < |tmp| && r.Absent?
      invariant 0 <= i <= |tmp|
      invariant r.Absent? ==> forall a :: Answers(LevelEntries(tmp[i..]), k, s, a) ==> Answers(LevelEntries(tmp), k, s, a)
      invariant !r.Absent? ==> Answers(LevelEntries(tmp), k, s, r)
    {
      var f := tmp[i];
      assert f in tmp;
      ProbeAnswers(f.entries, k, s, SeekIndex(f.entries, SeekKey(k, s)));
      r := TableGet(f, k, s);
      FilesSplit(tmp, i);
      NewestFirstByAge(tmp, i);
      if r.Absent? {
        forall a | Answers(LevelEntries(tmp[i + 1..]), k, s, a)
          ensures Answers(LevelEntries(tmp), k, s, a)
        {
          LayerAbsent(FileEntries(f), LevelEntries(tmp[i + 1..]), k, s, a);
        }
      } else {
        LayerAnswer(FileEntries(f), LevelEntries(tmp[i + 1..]), k, s, r);
      }
      i := i + 1;
    }
    if r.Absent? {
      assert tmp[i..] == [];
      assert Answers(LevelEntries(tmp[i..]), k, s, Absent);
    }
    OverlappingSuffices(files, tmp, k, s, r);
  }

  /** One level below level 0: at most one file is probed. */
  method SearchSortedLevel(files: seq<FileMeta>, k: UserKey, s: SequenceNumber) returns (r: Lookup)
    requires forall f :: f in files ==> ValidFile(f)
    requires Disjoint(files)
    ensures Answers(LevelEntries(files), k, s, r)
  {
    r := Absent;
    var index := FindFile(files, SeekKey(k, s));
    if index < |files| {
      var f := files[index];
      assert f in files;
      ProbeAnswers(f.entries, k, s, SeekIndex(f.entries, SeekKey(k, s)));
      if k < f.smallest.user {
        forall x | x in FileEntries(f)
          ensures !Visible(x, k, s)
        {
          FileBounds(f, x);
        }
      } else {
        r := TableGet(f, k, s);
      }
    }
    OneFilePerLevel(files, k, s, index, r);
  }

  lemma LevelsSplit(v: Version, l: nat)
    requires l < |v|
    ensures EntriesFrom(v, l) == LevelEntries(v[l]) + EntriesFrom(v, l + 1)
  {
  }

  lemma LevelNewerThanDeeper(v: Version, l: nat)
    requires LevelsByAge(v)
    requires l < |v|
    ensures Newer(LevelEntries(v[l]), EntriesFrom(v, l + 1))
  {
    forall a, b | a in LevelEntries(v[l]) && b in EntriesFrom(v, l + 1) && a.key.user == b.key.user
      ensures Less(a.key, b.key)
    {
      var j :| l + 1 <= j < |v| && b in LevelEntries(v[j]);
      assert Newer(LevelEntries(v[l]), LevelEntries(v[j]));
    }
  }

  /** Version::Get: the first layer that answers gives the newest visible entry stored anywhere. */
  method Get(v: Version, k: UserKey, s: SequenceNumber) returns (r: Lookup)
    requires ValidVersion(v)
    ensures Answers(VersionEntries(v), k, s, r)
  {
    r := Absent;
    var level := 0;
    while level < NUM_LEVELS && r.Absent?
      invariant 0 <= level <= NUM_LEVELS
      invariant r.Absent? ==> forall a :: Answers(EntriesFrom(v, level), k, s, a) ==> Answers(VersionEntries(v), k, s, a)
      invariant !r.Absent? ==> Answers(VersionEntries(v), k, s, r)
    {
      if level == 0 {
        r := SearchLevel0(v[0], k, s);
      } else {
        r := SearchSortedLevel(v[level], k, s);
      }
      LevelsSplit(v, level);
      LevelNewerThanDeeper(v, level);
      if r.Absent? {
        forall a | Answers(EntriesFrom(v, level + 1), k, s, a)
          ensures Answers(VersionEntries(v), k, s, a)
        {
          LayerAbsent(LevelEntries(v[level]), EntriesFrom(v, level + 1), k, s, a);
        }
      } else {
        LayerAnswer(LevelEntries(v[level]), EntriesFrom(v, level + 1), k, s, r);
      }
      level := level + 1;
    }
    if r.Absent? {
      assert EntriesFrom(v, level) == {};
      assert Answers(EntriesFrom(v, level), k, s, Absent);
    }
  }
}
