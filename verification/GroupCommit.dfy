/** Writers queue up; the front one commits a group of batches as one log record (Write and
    BuildBatchGroup in db_impl.cc). */
module GroupCommit {
  import opened Keys
  import opened Entries
  import opened Coding
  import Store
  import opened ByteOrder
  import opened WriteBatches
  import opened Engine

  const SMALL_BATCH: nat := 0x2_0000
  const MAX_GROUP: nat := 0x10_0000

  /** What MemTableInserter adds for an update. */
  function OpOf(u: Update): Op {
    match u
    case Put(key, value) => Op(Rank(key), TypeValue, Text(value))
    case Delete(key) => Op(Rank(key), TypeDeletion, "")
  }

  function OpsOf(us: seq<Update>): (r: seq<Op>)
    ensures |r| == |us|
  {
    seq(|us|, i requires 0 <= i < |us| => OpOf(us[i]))
  }

  class QueuedWriter {
    const batch: WriteBatch?
    const sync: bool
    var done: bool

    constructor (batch: WriteBatch?, sync: bool)
      ensures this.batch == batch && this.sync == sync && !done
    {
      this.batch := batch;
      this.sync := sync;
      done := false;
    }
  }

  /** The updates of a writer; a writer without a batch only asks for a memtable switch. */
  ghost function UpdatesOf(w: QueuedWriter): seq<Update>
    reads w.batch
  {
    if w.batch == null then [] else w.batch.updates
  }

  ghost function AllUpdates(ws: seq<QueuedWriter>): seq<Update>
    reads set w | w in ws && w.batch != null :: w.batch
  {
    if ws == [] then [] else AllUpdates(ws[..|ws| - 1]) + UpdatesOf(ws[|ws| - 1])
  }

  function ByteSize(w: QueuedWriter): nat
    reads w.batch
  {
    if w.batch == null then 0 else |w.batch.rep|
  }

  ghost function TotalSize(ws: seq<QueuedWriter>): nat
    reads set w | w in ws && w.batch != null :: w.batch
  {
    if ws == [] then 0 else TotalSize(ws[..|ws| - 1]) + ByteSize(ws[|ws| - 1])
  }

  function MaxSize(size: nat): nat {
    if size <= SMALL_BATCH then size + SMALL_BATCH else MAX_GROUP
  }

  /** Writer `k` may be committed with the writers before it. */
  ghost predicate Joins(ws: seq<QueuedWriter>, k: nat)
    requires 0 < k < |ws|
    reads set w | w in ws && w.batch != null :: w.batch
  {
    && !(ws[k].sync && !ws[0].sync)
    && (ws[k].batch != null ==>
          TotalSize(ws[..k + 1]) <= if ByteSize(ws[0]) <= 131072 then ByteSize(ws[0]) + 131072 else 1048576)
  }

  ghost predicate GoodBatches(ws: seq<QueuedWriter>)
    reads set w | w in ws && w.batch != null :: w.batch
  {
    && (forall w :: w in ws && w.batch != null ==> w.batch.Valid())
    && |AllUpdates(ws)| < TWO_32
  }

  lemma {:induction false} AllUpdatesPrefix(ws: seq<QueuedWriter>, k: nat)
    requires k <= |ws|
    ensures |AllUpdates(ws[..k])| <= |AllUpdates(ws)|
    ensures k < |ws| ==> AllUpdates(ws[..k + 1]) == AllUpdates(ws[..k]) + UpdatesOf(ws[k])
    ensures k < |ws| ==> TotalSize(ws[..k + 1]) == TotalSize(ws[..k]) + ByteSize(ws[k])
    decreases |ws|
  {
    if k < |ws| {
      assert ws[..k + 1][..k] == ws[..k];
      var n := |ws| - 1;
      AllUpdatesPrefix(ws[..n], k);
      assert ws[..n][..k] == ws[..k];
    } else {
      assert ws[..k] == ws;
    }
  }

  /** BuildBatchGroup: the first writer's batch alone, or `tmpBatch` with the batches of the
      longest front part of the queue that may be committed together. */
  method BuildBatchGroup(writers: seq<QueuedWriter>, tmpBatch: WriteBatch) returns (result: WriteBatch, n: nat)
    requires writers != [] && writers[0].batch != null
    requires GoodBatches(writers)
    requires tmpBatch.Valid() && tmpBatch.updates == [] && forall w :: w in writers ==> w.batch != tmpBatch
    modifies tmpBatch
    ensures result == writers[0].batch || result == tmpBatch
    ensures result.Valid() && GoodBatches(writers)
    ensures 0 < n <= |writers| && LongestGroup(writers, n)
    ensures result != tmpBatch ==> tmpBatch.Valid() && tmpBatch.updates == []
    ensures result.updates == AllUpdates(writers[..n])
  {
    hide BatchBytes, AllUpdates, TotalSize, Fits, GoodBatches;
    BatchesGood(writers);
    var first := writers[0];
    result := first.batch;
    var size := |first.batch.rep|;
    var maxSize := MaxSize(size);
    n := 1;
    FirstOnly(writers);
    while n < |writers|
      invariant 0 < n <= |writers|
      invariant unchanged(set w | w in writers && w.batch != null :: w.batch)
      invariant first.batch.Valid() && (n < |writers| && writers[n].batch != null ==> writers[n].batch.Valid())
      invariant tmpBatch.Valid() && (result == tmpBatch || (result == first.batch && tmpBatch.updates == []))
      invariant result.updates == AllUpdates(writers[..n])
      invariant size == TotalSize(writers[..n])
      invariant forall k :: 0 < k < n ==> Joins(writers, k)
    {
      var w := writers[n];
      AllUpdatesPrefix(writers, n);
      AllUpdatesPrefix(writers, n + 1);
      if w.sync && !first.sync {
        break;
      }
      if w.batch != null {
        size := size + |w.batch.rep|;
        if size > maxSize {
          break;
        }
        if result == first.batch {
          result := tmpBatch;
          result.Append(first.batch);
        }
        result.Append(w.batch);
      }
      n := n + 1;
    }
    BatchesStillGood(writers);
  }

  lemma BatchesGood(ws: seq<QueuedWriter>)
    requires GoodBatches(ws)
    ensures forall w :: w in ws && w.batch != null ==> w.batch.Valid()
    ensures |AllUpdates(ws)| < TWO_32
  {
  }

  twostate lemma BatchesStillGood(ws: seq<QueuedWriter>)
    requires old(GoodBatches(ws)) && unchanged(set w | w in ws && w.batch != null :: w.batch)
    ensures GoodBatches(ws)
  {
  }

  lemma FirstOnly(ws: seq<QueuedWriter>)
    requires ws != []
    ensures AllUpdates(ws[..1]) == UpdatesOf(ws[0]) && TotalSize(ws[..1]) == ByteSize(ws[0])
  {
    assert ws[..1][..0] == [];
  }

  // ----- a group is its batches one by one -----

  lemma StampConcat(a: seq<Op>, b: seq<Op>, first: nat)
    requires first + |a| + |b| <= MAX_SEQUENCE
    ensures Stamp(a + b, first) == Stamp(a, first) + Stamp(b, first + |a|)
  {
  }

  lemma {:induction false} InsertAllConcat(mem: seq<Entry>, xs: seq<Entry>, ys: seq<Entry>)
    ensures InsertAll(mem, xs + ys) == InsertAll(InsertAll(mem, xs), ys)
    decreases |xs|
  {
    if xs == [] {
      assert xs + ys == ys;
    } else {
      InsertAllConcat(Store.Insert(mem, xs[0]), xs[1..], ys);
      assert (xs + ys)[0] == xs[0] && (xs + ys)[1..] == xs[1..] + ys;
    }
  }

  lemma OpsConcat(a: seq<Update>, b: seq<Update>)
    ensures OpsOf(a + b) == OpsOf(a) + OpsOf(b)
  {
  }

  lemma FlattenAppend(bs: seq<Batch>, b: Batch)
    ensures Flatten(bs + [b]) == Flatten(bs) + b
  {
    assert (bs + [b])[..|bs|] == bs;
  }

  /** Committing two batches as one group leaves the database as committing them in turn would:
      same memory, same sequence numbers, same log contents. */
  lemma GroupIsSequential(s: Db, a: seq<Op>, b: seq<Op>, s1: Db, s2: Db, g: Db)
    requires WriteStep(s, a, s1) && WriteStep(s1, b, s2) && WriteStep(s, a + b, g)
    ensures g.layers == s2.layers && g.lastSequence == s2.lastSequence && g.history == s2.history
    ensures LogAt(g.disk.logs, g.logfileNumber) == LogAt(s2.disk.logs, s2.logfileNumber)
    ensures g == s2.(disk := g.disk) && g.disk.manifest == s2.disk.manifest && g.disk.tables == s2.disk.tables
  {
    hide InsertAll, Stamp, Flatten, Elements;
    var first := s.lastSequence + 1;
    var x, y := Stamp(a, first), Stamp(b, first + |a|);
    StampConcat(a, b, first);
    InsertAllConcat(s.layers.mem, x, y);
    var log := s.disk.logs[s.logfileNumber];
    FlattenAppend(log, x + y);
    FlattenAppend(log, x);
    FlattenAppend(log + [x], y);
    HistoryConcat(s.history, x, y);
  }

  lemma HistoryConcat(H: set<Entry>, x: seq<Entry>, y: seq<Entry>)
    ensures (H + Elements(x)) + Elements(y) == H + Elements(x + y)
  {
  }

  // ----- the queue -----

  /** The entries a log record stands for: its updates from its sequence number on. */
  function RecordEntries(record: seq<Byte>): seq<Entry> {
    if |record| < HEADER then []
    else
      var first, us := Unfixed(record[..8]), Walk(record[HEADER..]).0;
      if first + |us| <= MAX_SEQUENCE then Stamp(OpsOf(us), first) else []
  }

  function Replayed(records: seq<seq<Byte>>): seq<Entry> {
    if records == [] then [] else Replayed(records[..|records| - 1]) + RecordEntries(records[|records| - 1])
  }

  lemma ReplayedAppend(records: seq<seq<Byte>>, r: seq<Byte>)
    ensures Replayed(records + [r]) == Replayed(records) + RecordEntries(r)
  {
    assert (records + [r])[..|records|] == records;
  }

  /** One more log record, which stands for the updates under the sequence numbers after `last`. */
  ghost predicate OneRecord(was: seq<seq<Byte>>, now: seq<seq<Byte>>, us: seq<Update>, last: nat) {
    && last + |us| < MAX_SEQUENCE
    && |now| == |was| + 1 && now[..|was|] == was
    && now[|was|] == BatchBytes(last + 1, us)
    && RecordEntries(now[|was|]) == Stamp(OpsOf(us), last + 1)
  }

  lemma RecordAdded(log: seq<seq<Byte>>, record: seq<Byte>, us: seq<Update>, last: nat)
    requires last + |us| < MAX_SEQUENCE
    requires |record| >= HEADER && Unfixed(record[..8]) == last + 1 && Walk(record[HEADER..]).0 == us
    requires record == BatchBytes(last + 1, us)
    ensures OneRecord(log, log + [record], us, last)
  {
    hide Walk, Unfixed, Stamp, OpsOf, BatchBytes;
  }

  // ----- what each writer wrote -----

  function Flat(records: seq<seq<Update>>): seq<Update> {
    if records == [] then [] else Flat(records[..|records| - 1]) + records[|records| - 1]
  }

  lemma {:induction false} FlatConcat(a: seq<seq<Update>>, b: seq<seq<Update>>)
    ensures Flat(a + b) == Flat(a) + Flat(b)
    decreases |b|
  {
    if b == [] {
      assert a + b == a;
    } else {
      var n := |b| - 1;
      FlatConcat(a, b[..n]);
      assert (a + b)[..|a| + n] == a + b[..n];
    }
  }

  /** The sequence number after the first `f` writers. */
  function After(base: nat, committed: seq<seq<Update>>, f: nat): nat
    requires f <= |committed|
  {
    base + |Flat(committed[..f])|
  }

  /** `p` is the sequence number after some number of whole batches. */
  ghost predicate Boundary(base: nat, committed: seq<seq<Update>>, p: nat) {
    exists f: nat :: f <= |committed| && p == After(base, committed, f)
  }

  lemma AfterGrows(base: nat, committed: seq<seq<Update>>, f: nat, g: nat)
    requires f <= g <= |committed|
    ensures After(base, committed, f) <= After(base, committed, g)
    ensures f < |committed| ==> After(base, committed, f + 1) == After(base, committed, f) + |committed[f]|
  {
    assert committed[..g] == committed[..f] + committed[f..g];
    FlatConcat(committed[..f], committed[f..g]);
    if f < |committed| {
      assert committed[..f + 1][..f] == committed[..f];
    }
  }

  lemma BoundaryStays(base: nat, committed: seq<seq<Update>>, more: seq<seq<Update>>)
    ensures forall p: nat :: Boundary(base, committed, p) ==> Boundary(base, committed + more, p)
    ensures Boundary(base, committed + more, base + |Flat(committed + more)|)
  {
    var all := committed + more;
    forall p: nat | Boundary(base, committed, p)
      ensures Boundary(base, all, p)
    {
      var f: nat :| f <= |committed| && p == After(base, committed, f);
      assert all[..f] == committed[..f];
      assert p == After(base, all, f);
    }
    assert all[..|all|] == all;
    assert base + |Flat(all)| == After(base, all, |all|);
  }

  /** What lies between two batch boundaries is never cut by a third. */
  lemma BoundarySplitsNoBatch(base: nat, committed: seq<seq<Update>>, k: nat, p: nat)
    requires k < |committed| && Boundary(base, committed, p)
    ensures After(base, committed, k + 1) == After(base, committed, k) + |committed[k]|
    ensures p <= After(base, committed, k) || After(base, committed, k + 1) <= p
  {
    var f: nat :| f <= |committed| && p == After(base, committed, f);
    AfterGrows(base, committed, k, k);
    if f <= k {
      AfterGrows(base, committed, f, k);
    } else {
      AfterGrows(base, committed, k + 1, f);
    }
  }

  /** Whether a switch was forced, for each of `n` writers completed together. */
  ghost function Served(n: nat, forced: bool): (r: seq<bool>)
    ensures |r| == n && forall i :: 0 <= i < n ==> r[i] == (i == 0 && forced)
  {
    if n == 0 then [] else Served(n - 1, forced) + [n == 1 && forced]
  }

  /** The updates of the first `n` writers, writer by writer. */
  ghost function UpdatesEach(ws: seq<QueuedWriter>, n: nat): (r: seq<seq<Update>>)
    requires n <= |ws|
    reads set w | w in ws && w.batch != null :: w.batch
    ensures |r| == n && forall i :: 0 <= i < n ==> r[i] == UpdatesOf(ws[i])
  {
    if n == 0 then [] else UpdatesEach(ws, n - 1) + [UpdatesOf(ws[n - 1])]
  }

  lemma {:induction false} UpdatesFlat(ws: seq<QueuedWriter>, n: nat)
    requires n <= |ws|
    ensures Flat(UpdatesEach(ws, n)) == AllUpdates(ws[..n])
  {
    if n > 0 {
      UpdatesFlat(ws, n - 1);
      assert UpdatesEach(ws, n)[..n - 1] == UpdatesEach(ws, n - 1);
      assert ws[..n][..n - 1] == ws[..n - 1];
    }
  }

  class WriteQueue {
    var writers: seq<QueuedWriter>
    const tmpBatch: WriteBatch
    var lastSequence: SequenceNumber
    var log: seq<seq<Byte>>
    var mem: seq<Entry>

    var snapshots: seq<SequenceNumber>
    /** How often a memtable switch was forced. */
    var switches: nat

    /** Everyone who ever queued, how many of them are finished, and what those wrote, in order. */
    ghost var arrived: seq<QueuedWriter>
    ghost var finished: nat
    ghost var accepted: seq<Update>
    ghost const base: SequenceNumber
    /** Per committed writer: its updates, and whether a switch was forced for it. */
    ghost var committed: seq<seq<Update>>
    ghost var served: seq<bool>

    ghost function Batches(): set<WriteBatch>
      reads `writers
    {
      set w | w in writers && w.batch != null :: w.batch
    }

    /** The finished writers are the first ones that came; the rest are waiting. Memory and log
        hold exactly the accepted updates, under consecutive sequence numbers. */
    ghost predicate Queued()
      reads `writers, `finished, `arrived, `accepted, `lastSequence, `mem, `log, tmpBatch, arrived, Batches()
    {
      InLine() && Usable() && Written()
    }

    ghost predicate InLine()
      reads `writers, `finished, `arrived, arrived
    {
      && finished <= |arrived| && writers == arrived[finished..]
      && (forall i, j :: 0 <= i < j < |arrived| ==> arrived[i] != arrived[j])
      && forall i :: 0 <= i < |arrived| ==> arrived[i].done == (i < finished)
    }

    ghost predicate Usable()
      reads `writers, tmpBatch, Batches()
    {
      GoodBatches(writers) && tmpBatch.Valid() && tmpBatch.updates == [] && tmpBatch !in Batches()
    }

    /** Accepted are the updates of the committed writers, and every sequence number a reader can
        have got is the one after some of these batches. */
    ghost predicate Ledger()
      reads `lastSequence, `snapshots, `finished, `accepted, `committed, `served
    {
      && finished <= |committed| == |served|
      && accepted == Flat(committed)
      && Boundary(base, committed, lastSequence)
      && forall q :: q in snapshots ==> Boundary(base, committed, q)
    }

    ghost predicate Valid()
      reads this, tmpBatch, arrived, Batches()
    {
      Queued() && Ledger()
    }

    /** No group is half dismissed. */
    ghost predicate Settled()
      reads `finished, `committed
    {
      finished == |committed|
    }

    ghost predicate Written()
      reads `lastSequence, `mem, `log, `accepted
    {
      && lastSequence == base + |accepted| < MAX_SEQUENCE
      && mem == InsertAll([], Stamp(OpsOf(accepted), base + 1))
      && Replayed(log) == Stamp(OpsOf(accepted), base + 1)
    }

    constructor (base: SequenceNumber)
      requires base < MAX_SEQUENCE
      ensures Valid() && Settled() && arrived == [] && writers == [] && finished == 0 && this.base == base && fresh(tmpBatch)
      ensures lastSequence == base && switches == 0 && snapshots == [] && committed == []
    {
      writers, lastSequence, log, mem, snapshots, switches := [], base, [], [], [], 0;
      tmpBatch := new WriteBatch();
      arrived, finished, accepted, this.base, committed, served := [], 0, [], base, [], [];
      new;
      BoundaryStays(base, [], []);
    }

    /** Write, up to the wait for the front of the queue. */
    method Enqueue(w: QueuedWriter)
      requires Valid() && w !in arrived && !w.done
      requires w.batch != null ==> w.batch.Valid() && w.batch != tmpBatch
      requires |AllUpdates(writers)| + |UpdatesOf(w)| < TWO_32
      modifies `writers, `arrived
      ensures Valid() && arrived == old(arrived) + [w] && writers == old(writers) + [w]
    {
      hide WriteQueue.Written, WriteQueue.Ledger, WriteQueue.InLine, GoodBatches, WriteBatch.Valid;
      UsableWith(w);
      Join(w);
    }

    /** The writer stands at the end of the line. */
    method Join(w: QueuedWriter)
      requires InLine() && w !in arrived && !w.done
      modifies `writers, `arrived
      ensures InLine() && arrived == old(arrived) + [w] && writers == old(writers) + [w]
    {
      assert arrived[finished..] + [w] == (arrived + [w])[finished..];
      writers := writers + [w];
      arrived := arrived + [w];
    }

    lemma UsableWith(w: QueuedWriter)
      requires Usable() && (w.batch != null ==> w.batch.Valid() && w.batch != tmpBatch)
      requires |AllUpdates(writers)| + |UpdatesOf(w)| < TWO_32
      ensures GoodBatches(writers + [w]) && tmpBatch.Valid() && tmpBatch.updates == []
      ensures forall x :: x in writers + [w] ==> x.batch != tmpBatch
    {
      hide WriteBatch.Valid, GoodBatches;
      GoodAppend(writers, w);
    }

    /** GetSnapshot: what was published last. */
    method GetSnapshot() returns (q: SequenceNumber)
      requires Valid()
      modifies `snapshots
      ensures Valid() && q == lastSequence && snapshots == old(snapshots) + [q]
    {
      hide WriteQueue.Written, GoodBatches, WriteBatch.Valid, Boundary, Flat;
      q := lastSequence;
      snapshots := snapshots + [q];
    }

    /** No snapshot, and no read without one, sees a part of a batch: it is at or before the
        batch's first sequence number less one, or at or after its last. */
    lemma SnapshotSplitsNoBatch(k: nat, q: SequenceNumber)
      requires Valid() && k < |committed| && (q in snapshots || q == lastSequence)
      ensures var lo, hi := After(base, committed, k), After(base, committed, k + 1);
        hi == lo + |committed[k]| && (q <= lo || hi <= q)
    {
      BoundarySplitsNoBatch(base, committed, k, q);
    }

    /** MakeRoomForWrite with its force flag. The switch itself is a step of the database; `mem`
        stands for all memtables together. */
    method MakeRoomForWrite(force: bool)
      modifies `switches
      ensures switches == old(switches) + if force then 1 else 0
    {
      if force {
        switches := switches + 1;
      }
    }

    /** Log the group's bytes and insert its updates: SetSequence, AddRecord, InsertInto. */
    method Apply(group: WriteBatch)
      requires Written() && group.Valid() && lastSequence + |group.updates| < MAX_SEQUENCE
      modifies `lastSequence, `log, `mem, `accepted, group
      ensures Written() && accepted == old(accepted) + group.updates
      ensures lastSequence == old(lastSequence) + |group.updates| && OneRecord(old(log), log, group.updates, old(lastSequence))
      ensures group.Valid() && group.updates == old(group.updates)
    {
      hide WriteBatch.Valid, BatchBytes, Stamp, OpsOf, InsertAll, Walk, RecordEntries, Replayed, Unfixed, OneRecord;
      group.SetSequence(lastSequence + 1);
      group.HeaderDecodes();
      group.ValidWalk();
      Extended(base, accepted, group.updates, log, group.rep);
      RecordAdded(log, group.rep, group.updates, lastSequence);
      log := log + [group.rep];
      var updates, outcome := group.Iterate();
      mem := InsertAll(mem, Stamp(OpsOf(updates), group.Sequence()));
      lastSequence := lastSequence + group.Count();
      accepted := accepted + group.updates;
    }

    /** The front writer leaves the queue and learns that it is done. */
    method Pop()
      requires Valid() && writers != [] && finished < |committed|
      modifies `writers, `finished, {writers[0]}`done
      ensures Valid() && finished == old(finished) + 1 && writers == old(writers)[1..]
    {
      hide WriteQueue.Written, WriteQueue.InLine, WriteBatch.Valid, GoodBatches, Boundary, Flat;
      SuffixGood(writers);
      Leave();
    }

    method Leave()
      requires InLine() && writers != []
      modifies `writers, `finished, {writers[0]}`done
      ensures InLine() && finished == old(finished) + 1 && writers == old(writers)[1..]
    {
      var ready := writers[0];
      writers := writers[1..];
      assert ready == arrived[finished];
      ready.done := true;
      finished := finished + 1;
    }

    /** Write at the front of the queue: force a memtable switch if there is no batch, commit a
        group otherwise, then dismiss exactly its writers, in the order they came. */
    method Commit() returns (n: nat)
      requires Valid() && Settled() && writers != []
      requires lastSequence + |AllUpdates(writers)| < MAX_SEQUENCE
      modifies this, tmpBatch, writers, Batches()
      ensures Valid() && Settled() && arrived == old(arrived) && snapshots == old(snapshots)
      ensures old(IsGroup(writers, n)) && finished == old(finished) + n
      ensures committed == old(committed) + old(UpdatesEach(writers, n))
      ensures served == old(served) + Served(n, old(writers)[0].batch == null)
      ensures switches == old(switches) + if old(writers)[0].batch == null then 1 else 0
      ensures old(writers)[0].batch == null ==> log == old(log) && lastSequence == old(lastSequence)
      ensures old(writers)[0].batch != null ==> OneRecord(old(log), log, old(GroupUpdates(writers, n)), old(lastSequence))
      ensures old(writers)[0].batch != null ==> lastSequence == old(lastSequence) + |old(GroupUpdates(writers, n))|
    {
      hide OneRecord, GroupUpdates, WriteQueue.Valid, IsGroup, UpdatesEach, Served, AllUpdates;
      n := WriteGroup();
      Dismiss(n);
    }

    /** The group's writers leave the queue one by one. */
    method Dismiss(n: nat)
      requires Valid() && n <= |writers| && |committed| == finished + n
      modifies `writers, `finished, writers
      ensures Valid() && finished == old(finished) + n && writers == old(writers)[n..]
    {
      hide WriteQueue.Valid;
      ghost var queue, f := writers, finished;
      GroupFits(queue, n);
      for i := 0 to n
        invariant Valid() && finished == f + i && writers == queue[i..] && |committed| == f + n
      {
        Pop();
      }
    }

    /** Make room, build the group, write it, and clear the temporary batch. */
    method WriteGroup() returns (n: nat)
      requires Valid() && Settled() && writers != []
      requires lastSequence + |AllUpdates(writers)| < MAX_SEQUENCE
      modifies `lastSequence, `log, `mem, `accepted, `switches, `committed, `served, tmpBatch, Batches()
      ensures Valid() && old(IsGroup(writers, n)) && n <= |writers|
      ensures committed == old(committed) + old(UpdatesEach(writers, n))
      ensures served == old(served) + Served(n, writers[0].batch == null)
      ensures switches == old(switches) + if writers[0].batch == null then 1 else 0
      ensures writers[0].batch == null ==> log == old(log) && lastSequence == old(lastSequence)
      ensures writers[0].batch != null ==> OneRecord(old(log), log, old(GroupUpdates(writers, n)), old(lastSequence))
      ensures writers[0].batch != null ==> lastSequence == old(lastSequence) + |old(GroupUpdates(writers, n))|
    {
      hide OneRecord, WriteQueue.Queued, AllUpdates, Boundary, IsGroup, UpdatesEach, Served, Flat, GoodBatches;
      ghost var was, us := committed, accepted;
      EachFlat(writers);
      MakeRoomForWrite(writers[0].batch == null);
      n := 1;
      if writers[0].batch != null {
        n := WriteBatches();
      }
      AloneIsGroup();
      Record(was, us, old(UpdatesEach(writers, n)), Served(n, writers[0].batch == null));
    }

    /** Enter the group into the ledger. */
    ghost method Record(was: seq<seq<Update>>, us: seq<Update>, each: seq<seq<Update>>, flags: seq<bool>)
      requires committed == was && |served| == |was| && finished <= |was| && us == Flat(was) && |flags| == |each|
      requires Queued() && accepted == us + Flat(each)
      requires forall q :: q in snapshots ==> Boundary(base, was, q)
      modifies `committed, `served
      ensures Valid() && committed == was + each && served == old(served) + flags
    {
      hide WriteQueue.Written, GoodBatches, WriteBatch.Valid, Boundary, Flat;
      QueuedCounts();
      FlatConcat(was, each);
      BoundaryStays(base, was, each);
      committed := was + each;
      served := served + flags;
    }

    twostate lemma AloneIsGroup()
      requires old(writers) != [] && writers == old(writers)
      ensures old(writers)[0].batch == null ==> old(IsGroup(writers, 1))
      ensures old(writers)[0].batch == null ==> old(AllUpdates(writers[..1])) == []
      ensures old(writers)[0].batch != null ==> forall n :: old(LongestGroup(writers, n)) ==> old(IsGroup(writers, n))
    {
      assert old(writers[..1][..0]) == [];
    }

    lemma FinishedAreDone()
      requires Valid()
      ensures finished <= |arrived| && forall i :: 0 <= i < finished ==> arrived[i].done
    {
    }

    lemma QueuedCounts()
      requires Queued()
      ensures lastSequence == base + |accepted|
    {
    }

    method WriteBatches() returns (n: nat)
      requires Queued() && writers != [] && writers[0].batch != null
      requires lastSequence + |AllUpdates(writers)| < MAX_SEQUENCE
      modifies `lastSequence, `log, `mem, `accepted, tmpBatch, Batches()
      ensures Queued() && 0 < n <= |writers|
      ensures accepted == old(accepted) + old(GroupUpdates(writers, n))
      ensures lastSequence == old(lastSequence) + |old(GroupUpdates(writers, n))|
      ensures OneRecord(old(log), log, old(GroupUpdates(writers, n)), old(lastSequence))
      ensures old(LongestGroup(writers, n))
    {
      hide OneRecord, WriteQueue.Written, WriteBatch.Valid, GoodBatches, AllUpdates, LongestGroup, UpdatesOf, Joins;
      var group;
      group, n := BuildBatchGroup(writers, tmpBatch);
      AllUpdatesPrefix(writers, n);
      BatchesGood(writers);
      assert old(LongestGroup(writers, n));
      Apply(group);
      if group == tmpBatch {
        tmpBatch.Clear();
      }
      GoodKept(writers);
    }
  }

  twostate lemma {:induction false} AllUpdatesSame(ws: seq<QueuedWriter>)
    requires forall w :: w in ws && w.batch != null ==> w.batch.updates == old(w.batch.updates)
    ensures AllUpdates(ws) == old(AllUpdates(ws))
    decreases |ws|
  {
    if ws != [] {
      AllUpdatesSame(ws[..|ws| - 1]);
    }
  }

  twostate lemma GoodKept(ws: seq<QueuedWriter>)
    requires old(GoodBatches(ws))
    requires forall w :: w in ws && w.batch != null ==> w.batch.Valid() && w.batch.updates == old(w.batch.updates)
    ensures GoodBatches(ws)
  {
    AllUpdatesSame(ws);
  }

  ghost function GroupUpdates(ws: seq<QueuedWriter>, n: nat): seq<Update>
    reads set w | w in ws && w.batch != null :: w.batch
  {
    if n <= |ws| then AllUpdates(ws[..n]) else []
  }

  ghost predicate LongestGroup(ws: seq<QueuedWriter>, n: nat)
    reads set w | w in ws && w.batch != null :: w.batch
  {
    && 0 < n <= |ws|
    && (forall k :: 0 < k < n ==> Joins(ws, k))
    && (n < |ws| ==> !Joins(ws, n))
  }

  /** The writers a call of Commit completes. */
  ghost predicate IsGroup(ws: seq<QueuedWriter>, n: nat)
    reads set w | w in ws && w.batch != null :: w.batch
  {
    0 < n <= |ws| && if ws[0].batch == null then n == 1 else LongestGroup(ws, n)
  }

  lemma GroupFits(ws: seq<QueuedWriter>, n: nat)
    requires n <= |ws|
    ensures ws[0..] == ws
  {
  }

  lemma EachFlat(ws: seq<QueuedWriter>)
    ensures forall m: nat :: m <= |ws| ==> Flat(UpdatesEach(ws, m)) == AllUpdates(ws[..m])
  {
    forall m: nat | m <= |ws|
      ensures Flat(UpdatesEach(ws, m)) == AllUpdates(ws[..m])
    {
      UpdatesFlat(ws, m);
    }
  }

  /** Of the writers a commit completes, the one at position `i` gets a forced memtable switch only
      if it is the front one. Behind the front it is completed, without a batch and so without the
      switch it asked for, exactly when the front writer has a batch and every writer up to it may
      join that group; otherwise it waits and is served when it gets to the front. */
  lemma CompletedBehindFrontIff(ws: seq<QueuedWriter>, n: nat, i: nat)
    requires ws != [] && IsGroup(ws, n) && 0 < i < |ws|
    ensures i < n <==> ws[0].batch != null && forall k :: 0 < k <= i ==> Joins(ws, k)
  {
    if ws[0].batch != null {
      if i < n {
        assert forall k :: 0 < k <= i ==> Joins(ws, k);
      } else {
        assert !Joins(ws, n);
      }
    }
  }

  /** Whether it asked for a switch and completes without one can be read off the queue. */
  lemma MissesSwitchIff(ws: seq<QueuedWriter>, n: nat, i: nat)
    requires ws != [] && IsGroup(ws, n) && i < |ws| && ws[i].batch == null
    ensures (i < n && !(i == 0 && ws[0].batch == null)) <==>
      0 < i && ws[0].batch != null && forall k :: 0 < k <= i ==> Joins(ws, k)
  {
    if i > 0 {
      CompletedBehindFrontIff(ws, n, i);
    }
  }

  /** Behind a writer with a batch, a writer without one and without sync always joins. */
  lemma QueuedNullIsAbsorbed(front: QueuedWriter, w: QueuedWriter, n: nat)
    requires front.batch != null && w.batch == null && !w.sync && IsGroup([front, w], n)
    ensures n == 2
  {
    assert Joins([front, w], 1);
    CompletedBehindFrontIff([front, w], n, 1);
  }

  method OnePut() returns (w: QueuedWriter)
    ensures fresh(w) && w.batch != null && fresh(w.batch) && w.batch.Valid() && |w.batch.updates| == 1 && !w.done && !w.sync
  {
    hide WriteBatch.Valid;
    var batch := new WriteBatch();
    batch.Add(Put([], []));
    w := new QueuedWriter(batch, false);
  }

  /** A put and, behind it, a request for a switch. */
  method TwoWriters() returns (q: WriteQueue, front: QueuedWriter, w: QueuedWriter)
    ensures q.Valid() && q.Settled() && q.switches == 0 && q.lastSequence == 0 && q.finished == 0 && fresh(q) && fresh(q.tmpBatch)
    ensures q.writers == [front, w] == q.arrived && |AllUpdates(q.writers)| == 1
    ensures front.batch != null && w.batch == null && !w.sync && fresh(front) && fresh(w) && fresh(front.batch)
  {
    hide WriteQueue.Valid, WriteBatch.Valid, GoodBatches, AllUpdates;
    front := OnePut();
    w := new QueuedWriter(null, false);
    q := new WriteQueue(0);
    NoUpdates();
    q.Enqueue(front);
    AllUpdatesAppend([], front);
    assert q.writers == [] + [front] == [front];
    q.Enqueue(w);
    AllUpdatesAppend([front], w);
    assert q.writers == [front] + [w];
  }

  /** One commit completes both, and no switch is forced. */
  method SwitchIsMissed() returns (q: WriteQueue, w: QueuedWriter)
    ensures q.Valid() && w.batch == null && w in q.arrived && w.done && q.switches == 0
  {
    hide WriteQueue.Valid, IsGroup, UpdatesEach, Served, AllUpdates;
    var front;
    q, front, w := TwoWriters();
    forall n | IsGroup([front, w], n)
      ensures n == 2
    {
      QueuedNullIsAbsorbed(front, w, n);
    }
    var n := q.Commit();
    q.FinishedAreDone();
    assert q.arrived[1] == w;
  }

  lemma NoUpdates()
    ensures AllUpdates([]) == []
  {
  }

  lemma {:induction false} AllUpdatesTail(ws: seq<QueuedWriter>)
    requires ws != []
    ensures AllUpdates(ws) == UpdatesOf(ws[0]) + AllUpdates(ws[1..])
    decreases |ws|
  {
    var n := |ws| - 1;
    if n > 0 {
      AllUpdatesTail(ws[..n]);
      assert ws[..n][1..] == ws[1..][..n - 1] && ws[1..][n - 1] == ws[n];
    } else {
      assert ws[1..] == [] && ws[..0] == [];
    }
  }

  lemma SuffixGood(ws: seq<QueuedWriter>)
    requires GoodBatches(ws) && ws != []
    ensures GoodBatches(ws[1..])
  {
    AllUpdatesTail(ws);
  }

  /** One more record: log and memory hold the longer list of updates. */
  lemma Extended(base: nat, accepted: seq<Update>, us: seq<Update>, log: seq<seq<Byte>>, record: seq<Byte>)
    requires base + |accepted| + |us| < MAX_SEQUENCE
    requires |record| >= HEADER && Unfixed(record[..8]) == base + |accepted| + 1 && Walk(record[HEADER..]).0 == us
    requires Replayed(log) == Stamp(OpsOf(accepted), base + 1)
    ensures Replayed(log + [record]) == Stamp(OpsOf(accepted + us), base + 1)
    ensures InsertAll([], Stamp(OpsOf(accepted + us), base + 1))
      == InsertAll(InsertAll([], Stamp(OpsOf(accepted), base + 1)), Stamp(OpsOf(us), base + |accepted| + 1))
  {
    hide Stamp, OpsOf, InsertAll, Walk, Unfixed;
    ReplayedAppend(log, record);
    OpsConcat(accepted, us);
    StampConcat(OpsOf(accepted), OpsOf(us), base + 1);
    InsertAllConcat([], Stamp(OpsOf(accepted), base + 1), Stamp(OpsOf(us), base + |accepted| + 1));
  }

  lemma GoodAppend(ws: seq<QueuedWriter>, w: QueuedWriter)
    requires GoodBatches(ws) && (w.batch != null ==> w.batch.Valid())
    requires |AllUpdates(ws)| + |UpdatesOf(w)| < TWO_32
    ensures GoodBatches(ws + [w])
  {
    AllUpdatesAppend(ws, w);
  }

  lemma AllUpdatesAppend(ws: seq<QueuedWriter>, w: QueuedWriter)
    ensures AllUpdates(ws + [w]) == AllUpdates(ws) + UpdatesOf(w)
  {
    assert (ws + [w])[..|ws|] == ws;
  }
}
