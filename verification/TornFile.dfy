/** The end of a log file may be lost at any byte: what recovery then loses (log_reader.cc,
    RecoverLogFile in db_impl.cc). */
module TornFiles {
  import opened Entries
  import opened Coding
  import opened Versions
  import opened Store
  import opened LogFormat
  import opened LogReader
  import opened LogRoundTrip
  import opened VersionBuilder
  import opened Engine
  import opened EngineRuns
  import opened EngineTorn
  import opened QueuedWrites

  /** The current log of the database is the file that `records` were written to. */
  ghost predicate LogFile(s: Db, crc: Checksum, records: seq<Record>, file: seq<Byte>) {
    && Is32Bit(crc)
    && s.logfileNumber in s.disk.logs && s.disk.logs[s.logfileNumber] == Batches(records)
    && file == EncodeAll(crc, records, 0)
  }

  /** Reading any byte prefix of the current log file gives the records of a front part of its
      batches, without a report: the ones that are complete in it. */
  lemma PrefixTears(s: Db, crc: Checksum, records: seq<Record>, file: seq<Byte>, m: nat)
    requires LogFile(s, crc, records, file) && m <= |file|
    ensures var n := Complete(crc, records, 0, m);
      && TearsAt(s, n)
      && ReadAll(crc, file[..m], 0) == (records[..n], 0)
      && Batches(records[..n]) == TornLogs(s, n)[s.logfileNumber]
      && Flatten(Batches(records[n..])) == LostLog(s, n)
  {
    hide ReadAll, EncodeAll, Complete, Flatten, Batches;
    TornTail(crc, records, m);
    var n := Complete(crc, records, 0, m);
    BatchesPart(records, 0, n);
    BatchesPart(records, n, |records|);
    assert records[n..|records|] == records[n..];
    assert Batches(records)[n..|records|] == s.disk.logs[s.logfileNumber][n..];
  }

  /** In any state of any run: if a crash leaves the first `m` bytes of the current log file, whatever
      a recovery does from the records it reads there, it rebuilds all that was stored but for
      the batches whose records the cut did not spare, and those are the newest. */
  lemma TornFileRecovery(states: seq<Db>, steps: seq<Engine.Step>, crc: Checksum, records: seq<Record>, file: seq<Byte>, m: nat,
                         v0: Version, segments: seq<Batch>, files: seq<FileMeta>, se: Edit, v': Version, newLog: nat, s': Db)
    requires Run(states, steps)
    requires LogFile(states[|steps|], crc, records, file) && m <= |file|
    requires var s := states[|steps|]; var kept := ReadAll(crc, file[..m], 0).0;
      RecoverStep(Cut(s, Batches(kept)), v0, segments, files, se, v', newLog, s')
    ensures var s := states[|steps|]; var n := |ReadAll(crc, file[..m], 0).0|;
      && n <= |records|
      && Stored(s'.layers) == Stored(s.layers) - Elements(Flatten(Batches(records[n..])))
      && (forall e, x :: e in s'.history && x in Flatten(Batches(records[n..])) ==> e.key.sequence < x.key.sequence)
      && Inv(s')
  {
    hide Next, ReadAll, EncodeAll, Inv, RecoverStep, Batches, Flatten, LostLog, Stored;
    var s := states[|steps|];
    PrefixTears(s, crc, records, file, m);
    var n := Complete(crc, records, 0, m);
    CutIsTorn(s, n);
    TornRecovery(states, steps, n, v0, segments, files, se, v', newLog, s');
  }

  /** The database with just the given batches in its current log. */
  function Cut(s: Db, kept: seq<Batch>): Db
    requires s.logfileNumber in s.disk.logs
  {
    var all := s.disk.logs[s.logfileNumber];
    var lost := if |kept| <= |all| then Elements(Flatten(all[|kept|..])) else {};
    s.(disk := s.disk.(logs := s.disk.logs[s.logfileNumber := kept]), history := s.history - lost)
  }

  lemma CutIsTorn(s: Db, n: nat)
    requires TearsAt(s, n)
    ensures Cut(s, s.disk.logs[s.logfileNumber][..n]) == Torn(s, n)
  {
    hide Flatten, Elements;
  }
}
