/** What a write queue has accepted is what readers find, key by key, in bytes: Put sets and Delete
    removes (write_batch.cc, MemTableInserter; db_impl.cc, Write and Get). */
module ReadYourWrites {
  import opened Keys
  import opened Entries
  import opened Coding
  import opened ByteOrder
  import opened Store
  import opened WriteBatches
  import opened GroupCommit
  import opened Engine
  import opened EngineReads
  import opened EngineHistory
  import opened Options

  type Contents = map<seq<Byte>, seq<Byte>>

  /** A map of byte strings after some updates. */
  function Applied(m: Contents, us: seq<Update>): Contents {
    if us == [] then m
    else
      var before := Applied(m, us[..|us| - 1]);
      match us[|us| - 1]
      case Put(key, value) => before[key := value]
      case Delete(key) => before - {key}
  }

  function Found(m: Contents, key: seq<Byte>): Option<Bytes> {
    if key in m then Some(Text(m[key])) else None
  }

  /** A reader at `last` finds exactly the map. */
  ghost predicate Shows(H: set<Entry>, last: SequenceNumber, m: Contents) {
    forall key :: View(H, Rank(key), last) == Found(m, key)
  }

  /** Different maps are shown differently. */
  lemma TextInjective(a: seq<Byte>, b: seq<Byte>)
    ensures Text(a) == Text(b) ==> a == b
  {
    if Text(a) == Text(b) {
      forall i | 0 <= i < |a|
        ensures i < |b| && a[i] == b[i]
      {
        assert |Text(a)| == |a| && |Text(b)| == |b|;
        assert Text(a)[i] == a[i] as char && Text(b)[i] == b[i] as char;
      }
    }
  }

  lemma {:induction false} LastWriteIsApplied(us: seq<Update>, m: Contents, key: seq<Byte>)
    ensures LastWrite(OpsOf(us), Rank(key), Found(m, key)) == Found(Applied(m, us), key)
  {
    hide Rank, Text;
    if us != [] {
      var n := |us| - 1;
      LastWriteIsApplied(us[..n], m, key);
      assert OpsOf(us)[..n] == OpsOf(us[..n]);
      RankInjective(us[n].key, key);
    }
  }

  /** Updates written after what a reader finds give what he finds then. */
  lemma StampShows(H: set<Entry>, last: SequenceNumber, m: Contents, us: seq<Update>)
    requires Shows(H, last, m) && last + |us| < MAX_SEQUENCE && forall x :: x in H ==> x.key.sequence <= last
    ensures Shows(H + Elements(Stamp(OpsOf(us), last + 1)), last + |us|, Applied(m, us))
  {
    hide View, Found, Stamp, OpsOf, Rank, Elements;
    forall key
      ensures View(H + Elements(Stamp(OpsOf(us), last + 1)), Rank(key), last + |us|) == Found(Applied(m, us), key)
    {
      StampView(H, last, OpsOf(us), Rank(key));
      LastWriteIsApplied(us, m, key);
    }
  }

  lemma NothingShown(last: SequenceNumber)
    ensures Shows({}, last, map[])
  {
    hide Rank;
  }

  /** The memory of a queue shows the updates it has accepted. */
  lemma MemoryShows(q: WriteQueue)
    requires q.Valid()
    ensures Shows(Elements(q.mem), q.lastSequence, Applied(map[], q.accepted))
    ensures q.accepted == Flat(q.committed)
  {
    hide WriteQueue.Valid, Shows, Flat, InsertAll, Stamp, OpsOf;
    QueueHolds(q);
    MemoryHolds(q.base, q.accepted);
  }

  lemma QueueHolds(q: WriteQueue)
    requires q.Valid()
    ensures q.lastSequence == q.base + |q.accepted| < MAX_SEQUENCE && q.accepted == Flat(q.committed)
    ensures q.mem == InsertAll([], Stamp(OpsOf(q.accepted), q.base + 1))
  {
    hide WriteQueue.InLine, WriteQueue.Usable, Flat, InsertAll, Stamp, OpsOf, Boundary, Replayed;
  }

  lemma MemoryHolds(base: SequenceNumber, us: seq<Update>)
    requires base + |us| < MAX_SEQUENCE
    ensures Shows(Elements(InsertAll([], Stamp(OpsOf(us), base + 1))), base + |us|, Applied(map[], us))
  {
    hide Shows, Stamp, OpsOf, InsertAll;
    var es := Stamp(OpsOf(us), base + 1);
    StampFacts(OpsOf(us), base + 1);
    InsertAllFacts([], es, base);
    NothingShown(base);
    StampShows({}, base, map[], us);
    assert Elements([]) + Elements(es) == {} + Elements(es);
  }

  /** A write of the engine with the operations of some updates. */
  lemma WriteIsApplied(s: Db, us: seq<Update>, s': Db, m: Contents)
    requires HistoryOk(s) && Next(s, Write(OpsOf(us)), s') && Shows(s.history, s.lastSequence, m)
    ensures Shows(s'.history, s'.lastSequence, Applied(m, us))
  {
    hide Shows, Stamp, OpsOf, InsertAll;
    StampShows(s.history, s.lastSequence, m, us);
  }

  /** As long as reads are right, what is stored shows what the history shows. */
  lemma StoredShows(s: Db, m: Contents)
    requires ReadsOk(s) && SnapshotsOk(s) && Shows(s.history, s.lastSequence, m)
    ensures Shows(Stored(s.layers), s.lastSequence, m)
  {
    hide View, Stored, Rank;
    assert s.lastSequence >= SmallestSnapshot(s);
  }
}
