/** Stored entries, the multi-version map they stand for, and sorted runs of them. */
module Entries {
  import opened Keys
  import opened Options

  type Bytes = string

  datatype Entry = Entry(key: InternalKey, value: Bytes)

  /** What one layer says about a key: the states of a Saver (version_set.cc). */
  datatype Lookup = Absent | Found(value: Bytes) | Deleted

  predicate Visible(e: Entry, k: UserKey, s: SequenceNumber) {
    e.key.user == k && e.key.sequence <= s
  }

  /** `e` is the newest entry of `k` in `S` that a reader at snapshot `s` may see. */
  ghost predicate Newest(S: set<Entry>, k: UserKey, s: SequenceNumber, e: Entry) {
    && e in S
    && Visible(e, k, s)
    && forall x :: x in S && Visible(x, k, s) ==> x == e || Less(e.key, x.key)
  }

  ghost predicate NoneVisible(S: set<Entry>, k: UserKey, s: SequenceNumber) {
    forall x :: x in S ==> !Visible(x, k, s)
  }

  /** The abstract specification of the store: the value of `k` at snapshot `s`. */
  ghost function View(S: set<Entry>, k: UserKey, s: SequenceNumber): Option<Bytes> {
    if exists e :: Newest(S, k, s, e) && e.key.kind.TypeValue? then
      var e :| Newest(S, k, s, e) && e.key.kind.TypeValue?;
      Some(e.value)
    else
      None
  }

  function LookupOf(e: Entry): Lookup {
    if e.key.kind.TypeValue? then Found(e.value) else Deleted
  }

  /** `r` is a correct answer for a search of `S`. */
  ghost predicate Answers(S: set<Entry>, k: UserKey, s: SequenceNumber, r: Lookup) {
    if r.Absent? then NoneVisible(S, k, s)
    else exists e :: Newest(S, k, s, e) && r == LookupOf(e)
  }

  function ValueOf(r: Lookup): Option<Bytes> {
    if r.Found? then Some(r.value) else None
  }

  ghost predicate UniqueKeys(S: set<Entry>) {
    forall x, y :: x in S && y in S && x.key == y.key ==> x == y
  }

  /** Every entry of `A` is newer than every entry of `B` for the same user key. */
  ghost predicate Newer(A: set<Entry>, B: set<Entry>) {
    forall a, b :: a in A && b in B && a.key.user == b.key.user ==> Less(a.key, b.key)
  }

  lemma ViewOfNewest(S: set<Entry>, k: UserKey, s: SequenceNumber, e: Entry)
    requires Newest(S, k, s, e)
    ensures View(S, k, s) == ValueOf(LookupOf(e))
  {
    forall x | Newest(S, k, s, x)
      ensures x == e
    {
      assert x in S && e in S;
    }
    if e.key.kind.TypeValue? {
      assert Newest(S, k, s, e) && e.key.kind.TypeValue?;
    }
  }

  /** Any answer determines the value the specification assigns. */
  lemma AnswerIsView(S: set<Entry>, k: UserKey, s: SequenceNumber, r: Lookup)
    requires Answers(S, k, s, r)
    ensures View(S, k, s) == ValueOf(r)
  {
    if !r.Absent? {
      var e :| Newest(S, k, s, e) && r == LookupOf(e);
      ViewOfNewest(S, k, s, e);
    }
  }

  lemma {:induction false} NewestExists(S: set<Entry>, k: UserKey, s: SequenceNumber)
    requires UniqueKeys(S)
    requires !NoneVisible(S, k, s)
    ensures exists e :: Newest(S, k, s, e)
    decreases |S|
  {
    var x :| x in S && Visible(x, k, s);
    var T := S - {x};
    if NoneVisible(T, k, s) {
      assert forall y :: y in S ==> y == x || y in T;
      assert Newest(S, k, s, x);
    } else {
      NewestExists(T, k, s);
      var e :| Newest(T, k, s, e);
      LessTotal(x.key, e.key);
      assert forall y :: y in S ==> y == x || y in T;
      assert Newest(S, k, s, if Less(x.key, e.key) then x else e);
    }
  }

  /** A search may stop at the first layer that answers. */
  lemma LayerAnswer(A: set<Entry>, B: set<Entry>, k: UserKey, s: SequenceNumber, r: Lookup)
    requires Newer(A, B)
    requires !r.Absent? && Answers(A, k, s, r)
    ensures Answers(A + B, k, s, r)
  {
    var e :| Newest(A, k, s, e) && r == LookupOf(e);
    assert Newest(A + B, k, s, e);
  }

  lemma LayerAbsent(A: set<Entry>, B: set<Entry>, k: UserKey, s: SequenceNumber, r: Lookup)
    requires NoneVisible(A, k, s)
    requires Answers(B, k, s, r)
    ensures Answers(A + B, k, s, r)
  {
    if !r.Absent? {
      var e :| Newest(B, k, s, e) && r == LookupOf(e);
      assert Newest(A + B, k, s, e);
    }
  }

  // ----- sorted runs: memtables and table files -----

  /** Readers that see the same entries of a key see the same value. */
  lemma SameVisible(A: set<Entry>, B: set<Entry>, k: UserKey, p: SequenceNumber, q: SequenceNumber)
    requires forall e :: e in A && Visible(e, k, p) <==> e in B && Visible(e, k, q)
    ensures View(A, k, p) == View(B, k, q)
  {
    forall e
      ensures Newest(A, k, p, e) <==> Newest(B, k, q, e)
    {
      assert e in A && Visible(e, k, p) <==> e in B && Visible(e, k, q);
    }
    if e :| Newest(A, k, p, e) {
      ViewOfNewest(A, k, p, e);
      ViewOfNewest(B, k, q, e);
    }
  }

  ghost predicate Sorted(es: seq<Entry>) {
    forall i, j :: 0 <= i < j < |es| ==> Less(es[i].key, es[j].key)
  }

  function Elements(es: seq<Entry>): set<Entry> {
    set e | e in es
  }

  lemma EmptyElements(es: seq<Entry>)
    ensures Elements(es) == {} <==> es == []
  {
    if es != [] {
      assert es[0] in Elements(es);
    }
  }

  /** `i` is where a Seek to `target` lands: the first entry at or after it. */
  ghost predicate SeekPosition(es: seq<Entry>, target: InternalKey, i: nat) {
    && i <= |es|
    && (forall j :: 0 <= j < i ==> Less(es[j].key, target))
    && (i < |es| ==> !Less(es[i].key, target))
  }

  /** The entry a point lookup reports from the position its Seek reached
      (memtable.cc Get; SaveValue in version_set.cc). */
  function Probe(es: seq<Entry>, i: nat, k: UserKey): Lookup {
    if i < |es| && es[i].key.user == k then LookupOf(es[i]) else Absent
  }

  lemma ProbeAnswers(es: seq<Entry>, k: UserKey, s: SequenceNumber, i: nat)
    requires Sorted(es)
    requires SeekPosition(es, SeekKey(k, s), i)
    ensures Answers(Elements(es), k, s, Probe(es, i, k))
  {
    var S := Elements(es);
    forall x | x in S && Visible(x, k, s)
      ensures i < |es| && es[i].key.user == k && (x == es[i] || Less(es[i].key, x.key))
    {
      var j :| 0 <= j < |es| && es[j] == x;
      SeekSkipsTooNew(x.key, s);
      assert i <= j;
    }
    if i < |es| && es[i].key.user == k {
      SeekSkipsTooNew(es[i].key, s);
      assert es[i] in S;
      assert Newest(S, k, s, es[i]);
    }
  }
}
