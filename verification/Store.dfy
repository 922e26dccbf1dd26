/** The readable contents of an open database: memtable, immutable memtable, version
    (db_impl.cc), the layered lookup, and the steps that move entries between layers. */
module Store {
  import opened Keys
  import opened Entries
  import opened Versions
  import opened Overlap
  import opened Selection
  import opened VersionBuilder
  import opened Options

  datatype Layers = Layers(mem: seq<Entry>, imm: Option<seq<Entry>>, version: Version)

  function ImmEntries(st: Layers): set<Entry> {
    if st.imm.Some? then Elements(st.imm.value) else {}
  }

  ghost function Stored(st: Layers): set<Entry> {
    Elements(st.mem) + (ImmEntries(st) + VersionEntries(st.version))
  }

  /** Layers are sorted runs, and what an upper layer says about a key is newer. */
  ghost predicate ValidLayers(st: Layers) {
    && Sorted(st.mem)
    && (st.imm.Some? ==> Sorted(st.imm.value))
    && ValidVersion(st.version)
    && SortedVersion(st.version)
    && Newer(Elements(st.mem), ImmEntries(st) + VersionEntries(st.version))
    && Newer(ImmEntries(st), VersionEntries(st.version))
  }

  // ----- the lookup -----

  /** MemTable::Get. */
  function MemGet(es: seq<Entry>, k: UserKey, s: SequenceNumber): Lookup {
    Probe(es, SeekIndex(es, SeekKey(k, s)), k)
  }

  /** DBImpl::Get at a snapshot: memtable, immutable memtable, version. */
  method LayeredGet(st: Layers, k: UserKey, s: SequenceNumber) returns (r: Option<Bytes>)
    requires ValidLayers(st)
    ensures r == View(Stored(st), k, s)
  {
    var a := MemGet(st.mem, k, s);
    ProbeAnswers(st.mem, k, s, SeekIndex(st.mem, SeekKey(k, s)));
    ghost var lower := ImmEntries(st) + VersionEntries(st.version);
    if a.Absent? {
      if st.imm.Some? {
        a := MemGet(st.imm.value, k, s);
        ProbeAnswers(st.imm.value, k, s, SeekIndex(st.imm.value, SeekKey(k, s)));
      }
      if a.Absent? {
        a := Get(st.version, k, s);
        LayerAbsent(ImmEntries(st), VersionEntries(st.version), k, s, a);
      } else {
        LayerAnswer(ImmEntries(st), VersionEntries(st.version), k, s, a);
      }
      LayerAbsent(Elements(st.mem), lower, k, s, a);
    } else {
      LayerAnswer(Elements(st.mem), lower, k, s, a);
    }
    AnswerIsView(Stored(st), k, s, a);
    r := ValueOf(a);
  }

  // ----- adding newer entries: a write -----

  /** Sorted insertion into the memtable. */
  function Insert(es: seq<Entry>, e: Entry): seq<Entry> {
    var i := SeekIndex(es, e.key);
    es[..i] + [e] + es[i..]
  }

  lemma InsertSorted(es: seq<Entry>, e: Entry)
    requires Sorted(es)
    requires forall x :: x in es ==> x.key != e.key
    ensures Sorted(Insert(es, e))
    ensures Elements(Insert(es, e)) == Elements(es) + {e}
  {
    hide Less;
    var i := SeekIndex(es, e.key);
    forall j | i <= j < |es|
      ensures Less(e.key, es[j].key)
    {
      SeekThen(es, e, i, j);
    }
    SortedAround(es, e, i);
    InsertElements(es, e, i);
  }

  lemma SeekThen(es: seq<Entry>, e: Entry, i: nat, j: nat)
    requires Sorted(es) && i <= j < |es| && es[i].key != e.key && !Less(es[i].key, e.key)
    ensures Less(e.key, es[j].key)
  {
    LessTotal(es[i].key, e.key);
    assert i < j ==> Less(es[i].key, es[j].key);
  }

  lemma SortedAround(es: seq<Entry>, e: Entry, i: nat)
    requires Sorted(es) && i <= |es|
    requires forall j :: 0 <= j < i ==> Less(es[j].key, e.key)
    requires forall j :: i <= j < |es| ==> Less(e.key, es[j].key)
    ensures Sorted(es[..i] + [e] + es[i..])
  {
    hide Less;
    var r := es[..i] + [e] + es[i..];
    forall p, q | 0 <= p < q < |r|
      ensures Less(r[p].key, r[q].key)
    {
      assert p < i ==> r[p] == es[p];
      assert q > i ==> r[q] == es[q - 1];
    }
  }

  lemma InsertElements(es: seq<Entry>, e: Entry, i: nat)
    requires i <= |es|
    ensures Elements(es[..i] + [e] + es[i..]) == Elements(es) + {e}
  {
    assert es == es[..i] + es[i..];
    assert forall x :: x in es <==> x in es[..i] || x in es[i..];
  }

  lemma NewerUnion(N: set<Entry>, A: set<Entry>, B: set<Entry>)
    ensures Newer(N, A + B) <==> Newer(N, A) && Newer(N, B)
    ensures Newer(A + B, N) <==> Newer(A, N) && Newer(B, N)
  {
  }

  lemma NewerSubset(A: set<Entry>, B: set<Entry>, A': set<Entry>, B': set<Entry>)
    requires Newer(A, B) && A' <= A && B' <= B
    ensures Newer(A', B')
  {
  }

  /** Views that agree keep agreeing when the same newer entries are added to both sides. */
  lemma ViewWithNewer(A: set<Entry>, B: set<Entry>, N: set<Entry>, k: UserKey, s: SequenceNumber)
    requires Newer(N, A) && Newer(N, B) && UniqueKeys(N)
    requires View(A, k, s) == View(B, k, s)
    ensures View(A + N, k, s) == View(B + N, k, s)
  {
    if NoneVisible(N, k, s) {
      ViewIgnoresInvisible(A, N, k, s);
      ViewIgnoresInvisible(B, N, k, s);
    } else {
      NewestExists(N, k, s);
      var e :| Newest(N, k, s, e);
      assert Newest(A + N, k, s, e) && Newest(B + N, k, s, e);
      ViewOfNewest(A + N, k, s, e);
      ViewOfNewest(B + N, k, s, e);
    }
  }

  lemma ViewIgnoresInvisible(A: set<Entry>, N: set<Entry>, k: UserKey, s: SequenceNumber)
    requires NoneVisible(N, k, s)
    ensures View(A + N, k, s) == View(A, k, s)
  {
    forall e
      ensures Newest(A + N, k, s, e) <==> Newest(A, k, s, e)
    {
      if Newest(A, k, s, e) {
        assert forall x :: x in A + N && Visible(x, k, s) ==> x in A;
      }
    }
    if exists e :: Newest(A, k, s, e) && e.key.kind.TypeValue? {
      var e :| Newest(A, k, s, e) && e.key.kind.TypeValue?;
      ViewOfNewest(A, k, s, e);
      ViewOfNewest(A + N, k, s, e);
    }
  }

  /** New entries that outrank everything stored may go into the memtable. */
  lemma WriteKeepsLayers(st: Layers, mem': seq<Entry>, N: set<Entry>)
    requires ValidLayers(st)
    requires Sorted(mem') && Elements(mem') == Elements(st.mem) + N
    requires Newer(N, Stored(st))
    ensures ValidLayers(st.(mem := mem'))
    ensures Stored(st.(mem := mem')) == Stored(st) + N
  {
    NewerSubset(N, Stored(st), N, ImmEntries(st) + VersionEntries(st.version));
    NewerUnion(ImmEntries(st) + VersionEntries(st.version), Elements(st.mem), N);
  }

  /** MakeRoomForWrite: a full memtable becomes the immutable one. */
  lemma SwitchKeepsLayers(st: Layers)
    requires ValidLayers(st) && st.imm.None?
    ensures ValidLayers(Layers([], Some(st.mem), st.version))
    ensures Stored(Layers([], Some(st.mem), st.version)) == Stored(st)
  {
  }

  // ----- changing one version into another -----

  ghost predicate Apart(files: seq<FileMeta>) {
    forall f, g :: f in files && g in files && f != g ==> Less(f.largest, g.smallest) || Less(g.largest, f.smallest)
  }

  /** Files that do not overlap, listed by smallest key, follow one another. */
  lemma ApartIsDisjoint(files: seq<FileMeta>)
    requires ValidFiles(files) && SortedFiles(files)
    requires Apart(files)
    ensures Disjoint(files)
  {
    forall i, j | 0 <= i < j < |files|
      ensures Less(files[i].largest, files[j].smallest)
    {
      assert BySmallest(files[i], files[j]);
      assert files[i] in files && files[j] in files;
      FileIsRange(files[i]);
      FileIsRange(files[j]);
    }
  }

  lemma DisjointIsApart(files: seq<FileMeta>)
    requires Disjoint(files)
    ensures Apart(files)
  {
    forall f, g | f in files && g in files && f != g
      ensures Less(f.largest, g.smallest) || Less(g.largest, f.smallest)
    {
      DisjointApart(files, f, g);
    }
  }
}
