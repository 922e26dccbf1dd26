/** The queue of writers in step with the engine: every commit of a group is one write of the
    database, and the log records are its batches (DBImpl::Write in db_impl.cc). */
module QueuedWrites {
  import opened Keys
  import opened Entries
  import opened Versions
  import opened Overlap
  import opened Picking
  import opened VersionBuilder
  import opened StoreSteps
  import opened CompactionViews
  import opened Coding
  import opened WriteBatches
  import opened GroupCommit
  import opened Engine
  import opened EngineReads
  import opened EngineDurable
  import opened EngineRuns
  import opened ReadYourWrites

  /** The batches that log records stand for. */
  function Batches(records: seq<seq<Byte>>): (r: seq<Batch>)
    ensures |r| == |records| && forall i :: 0 <= i < |records| ==> r[i] == RecordEntries(records[i])
  {
    if records == [] then [] else Batches(records[..|records| - 1]) + [RecordEntries(records[|records| - 1])]
  }

  lemma BatchesPart(records: seq<seq<Byte>>, lo: nat, hi: nat)
    requires lo <= hi <= |records|
    ensures Batches(records[lo..hi]) == Batches(records)[lo..hi]
  {
    hide Batches, RecordEntries;
    var part, all := records[lo..hi], Batches(records);
    forall i | 0 <= i < hi - lo
      ensures Batches(part)[i] == all[lo..hi][i]
    {
      assert part[i] == records[lo + i] && all[lo..hi][i] == all[lo + i];
    }
  }

  /** The database has the queue's last sequence number, and its current log the queue's records
      from the `k`-th on, since when no new log was begun. */
  ghost predicate Mirrors(q: WriteQueue, s: Db, k: nat)
    reads q
  {
    && q.lastSequence == s.lastSequence
    && s.logfileNumber in s.disk.logs
    && k <= |q.log|
    && s.disk.logs[s.logfileNumber] == Batches(q.log[k..])
  }

  /** The state after a write. */
  lemma WriteOne(s: Db, ops: seq<Op>) returns (s': Db)
    requires s.lastSequence + |ops| < MAX_SEQUENCE && s.logfileNumber in s.disk.logs
    ensures Next(s, Write(ops), s') && s'.lastSequence == s.lastSequence + |ops| && s'.logfileNumber == s.logfileNumber
    ensures s'.disk.logs == s.disk.logs[s.logfileNumber := s.disk.logs[s.logfileNumber] + [Stamp(ops, s.lastSequence + 1)]]
  {
    var es := Stamp(ops, s.lastSequence + 1);
    s' := s.(
      layers := s.layers.(mem := InsertAll(s.layers.mem, es)),
      lastSequence := s.lastSequence + |ops|,
      disk := s.disk.(logs := s.disk.logs[s.logfileNumber := s.disk.logs[s.logfileNumber] + [es]]),
      history := s.history + Elements(es));
  }

  lemma BatchesMore(records: seq<seq<Byte>>, record: seq<Byte>)
    ensures Batches(records + [record]) == Batches(records) + [RecordEntries(record)]
  {
    hide RecordEntries;
    assert (records + [record])[..|records|] == records;
  }

  lemma RecordMirrored(was: seq<seq<Byte>>, now: seq<seq<Byte>>, us: seq<Update>, last: nat, k: nat)
    requires k <= |was| && OneRecord(was, now, us, last)
    ensures k <= |now| && Batches(now[k..]) == Batches(was[k..]) + [Stamp(OpsOf(us), last + 1)]
  {
    hide RecordEntries, Stamp, OpsOf, BatchBytes, Batches;
    BatchesMore(was[k..], now[|was|]);
    assert now[k..] == was[k..] + [now[|was|]];
  }

  /** What a commit of the first `n` writers writes. */
  ghost function CommitUpdates(ws: seq<QueuedWriter>, n: nat): seq<Update>
    reads set w | w in ws && w.batch != null :: w.batch
  {
    if ws == [] || ws[0].batch == null then [] else GroupUpdates(ws, n)
  }

  /** Whatever map readers found, they find it with the updates applied. */
  lemma ShownAfterwards(s: Db, us: seq<Update>, s': Db)
    requires Reached(s) && Next(s, Write(OpsOf(us)), s')
    ensures forall m :: Shows(s.history, s.lastSequence, m) ==> Shows(s'.history, s'.lastSequence, Applied(m, us))
  {
    ReachedInv(s);
    hide Next, Shows, Applied, Reached, LayersOk, SnapshotsOk, Durable;
    forall m | Shows(s.history, s.lastSequence, m)
      ensures Shows(s'.history, s'.lastSequence, Applied(m, us))
    {
      WriteIsApplied(s, us, s', m);
    }
  }

  lemma NothingApplied(H: set<Entry>, last: SequenceNumber)
    ensures forall m :: Shows(H, last, m) ==> Shows(H, last, Applied(m, []))
  {
  }

  /** Commit, with the database it stands for: a group with batches is one write of their decoded
      updates; a request for a switch alone writes nothing. */
  method CommitInStep(q: WriteQueue, ghost s: Db, ghost k: nat) returns (n: nat, ghost s': Db)
    requires q.Valid() && q.Settled() && q.writers != []
    requires q.lastSequence + |AllUpdates(q.writers)| < MAX_SEQUENCE
    requires Mirrors(q, s, k) && Reached(s)
    modifies q, q.tmpBatch, q.writers, q.Batches()
    ensures q.Valid() && q.Settled() && Mirrors(q, s', k) && Reached(s')
    ensures old(IsGroup(q.writers, n)) && q.finished == old(q.finished) + n
    ensures forall m :: Shows(s.history, s.lastSequence, m) ==> Shows(s'.history, s'.lastSequence, Applied(m, old(CommitUpdates(q.writers, n))))
    ensures if old(q.writers)[0].batch == null then s' == s
      else Next(s, Write(OpsOf(old(GroupUpdates(q.writers, n)))), s')
  {
    NothingApplied(s.history, s.lastSequence);
    hide Shows, Applied;
    hide WriteQueue.Valid, IsGroup, UpdatesEach, Served, AllUpdates, GroupUpdates, OneRecord, Reached, Next, Batches;
    ghost var log := q.log;
    s' := s;
    n := q.Commit();
    if old(q.writers)[0].batch != null {
      ghost var us := old(GroupUpdates(q.writers, n));
      RecordMirrored(log, q.log, us, s.lastSequence, k);
      RecordFits(log, q.log, us, s.lastSequence);
      s' := WriteOne(s, OpsOf(us));
      ReachedNext(s, Write(OpsOf(us)), s');
      ShownAfterwards(s, us, s');
    }
  }

  lemma RecordFits(was: seq<seq<Byte>>, now: seq<seq<Byte>>, us: seq<Update>, last: nat)
    requires OneRecord(was, now, us, last)
    ensures last + |us| < MAX_SEQUENCE
  {
  }

  /** Between commits the database may do anything else short of a crash; after a switch the records
      of the new log are those still to come. */
  lemma StaysMirrored(q: WriteQueue, s: Db, k: nat, step: Engine.Step, s': Db)
    requires Mirrors(q, s, k) && Inv(s) && Next(s, step, s')
    requires !step.Write? && !step.CrashAndRecover?
    ensures Mirrors(q, s', if step.Switch? then |q.log| else k)
  {
    hide Inv, Next, Batches;
    CurrentLog(s, step, s');
    NoBatches();
    assert q.log[|q.log|..] == [];
  }

  lemma NoBatches()
    ensures Batches([]) == []
  {
  }

  /** Only a write, a switch or a crash changes the current log. */
  lemma CurrentLog(s: Db, step: Engine.Step, s': Db)
    requires Inv(s) && Next(s, step, s') && !step.Write? && !step.CrashAndRecover?
    ensures s'.lastSequence == s.lastSequence && s'.logfileNumber in s'.disk.logs
    ensures s'.disk.logs[s'.logfileNumber] == if step.Switch? then [] else s.disk.logs[s.logfileNumber]
  {
    hide LayersOk, HistoryOk, SnapshotsOk, TablesOk, ManifestOk, LogsOk;
    hide WellChosen, Edited, MayAddAt, LevelEntries, ValidFile, ValidFiles, Disjoint, Survivors, LiveNumbers;
  }
}
