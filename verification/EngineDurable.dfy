/** What the disk always holds: enough to rebuild every stored entry (Recover, RecoverLogFile,
    RemoveObsoleteFiles in db_impl.cc). */
module EngineDurable {
  import opened Keys
  import opened Entries
  import opened Versions
  import opened Picking
  import opened VersionBuilder
  import opened Store
  import opened Install
  import opened StoreSteps
  import opened Manifest
  import opened Engine
  import opened EngineReads
  import opened Options

  // ----- invariants -----

  ghost predicate HasTables(tables: map<nat, seq<Entry>>, v: Version) {
    forall l: nat, f :: 0 <= l < |v| && f in v[l] ==> f.number in tables && tables[f.number] == f.entries
  }

  ghost predicate NumbersBelow(v: Version, bound: nat) {
    forall l: nat, f :: 0 <= l < |v| && f in v[l] ==> f.number < bound
  }

  /** Tables of the current and of every pinned version are on disk, with their contents. */
  ghost predicate TablesOk(s: Db) {
    && HasTables(s.disk.tables, s.layers.version)
    && (forall v :: v in s.pinned ==> HasTables(s.disk.tables, v) && NumbersBelow(v, s.nextFile))
    && (forall n :: n in s.pending ==> n in s.disk.tables)
  }

  /** The manifest replays to the installed version and carries its numbers. */
  ghost predicate ManifestOk(s: Db) {
    var m := s.disk.manifest;
    && Folds(m, s.layers.version)
    && AddedOnce(m)
    && LastLogNumber(m) == Some(s.logNumber)
    && LastNextFile(m).Some? && LastNextFile(m).value <= s.nextFile
    && LastLastSequence(m).Some? && LastLastSequence(m).value <= s.lastSequence
  }

  /** A file number is added to ever deeper levels only, and never while it is pending. */
  ghost predicate AddsOk(m: seq<Edit>, v: Version, bound: nat, pending: set<nat>) {
    && (forall l: nat, n: nat :: EverAdds(m, l, n) ==> n < bound && n !in pending)
    && forall l: nat, l': nat, f :: l < |v| && f in v[l] && EverAdds(m, l', f.number) ==> l' <= l
  }

  ghost predicate NumbersOk(s: Db) {
    && s.logNumber <= s.logfileNumber < s.nextFile
    && s.logfileNumber in s.disk.logs
    && (forall n :: n in s.disk.logs ==> n <= s.logfileNumber)
    && (forall n :: n in s.pending ==> n < s.nextFile)
    && LastNextFile(s.disk.manifest).Some?
    && AddsOk(s.disk.manifest, s.layers.version, LastNextFile(s.disk.manifest).value, s.pending)
  }

  /** Log `n` holds the memtable `mem`; the logs lo, ..., n - 1 hold the immutable memtable
      `imm`; together they are in sequence order and end at `last`. */
  ghost predicate LogState(logs: map<nat, seq<Batch>>, lo: nat, n: nat, mem: set<Entry>, imm: set<Entry>,
                           manifestLast: SequenceNumber, last: SequenceNumber) {
    && Elements(LogAt(logs, n)) == mem
    && Elements(Replay(logs, lo, n)) == imm
    && Increasing(Replay(logs, lo, n + 1))
    && MaxSequence(Replay(logs, lo, n + 1), manifestLast) == last
  }

  ghost predicate LogsOk(s: Db) {
    && LastLastSequence(s.disk.manifest).Some?
    && LogState(s.disk.logs, s.logNumber, s.logfileNumber, Elements(s.layers.mem), ImmEntries(s.layers),
                LastLastSequence(s.disk.manifest).value, s.lastSequence)
  }

  ghost predicate Durable(s: Db) {
    TablesOk(s) && ManifestOk(s) && NumbersOk(s) && LogsOk(s)
  }

  // ----- logs -----

  lemma {:induction false} ReplaySame(a: map<nat, seq<Batch>>, b: map<nat, seq<Batch>>, lo: nat, hi: nat)
    requires forall n :: lo <= n < hi ==> LogAt(a, n) == LogAt(b, n)
    ensures Replay(a, lo, hi) == Replay(b, lo, hi)
    decreases hi
  {
    if hi > lo {
      ReplaySame(a, b, lo, hi - 1);
    }
  }

  lemma {:induction false} ReplayQuiet(logs: map<nat, seq<Batch>>, lo: nat, mid: nat, hi: nat)
    requires lo <= mid <= hi
    requires forall n :: mid <= n < hi ==> LogAt(logs, n) == []
    ensures Replay(logs, lo, hi) == Replay(logs, lo, mid)
    decreases hi
  {
    if hi > mid {
      ReplayQuiet(logs, lo, mid, hi - 1);
    }
  }

  lemma {:induction false} MaxSequenceFacts(log: seq<Entry>, last: SequenceNumber)
    ensures MaxSequence(log, last) >= last
    ensures forall e :: e in log ==> e.key.sequence <= MaxSequence(log, last)
    ensures MaxSequence(log, last) == last || exists e :: e in log && e.key.sequence == MaxSequence(log, last)
  {
    if log != [] {
      var n := |log| - 1;
      MaxSequenceFacts(log[..n], last);
      assert log == log[..n] + [log[n]];
    }
  }

  lemma MaxSequenceIs(log: seq<Entry>, last: SequenceNumber, r: SequenceNumber)
    requires last <= r
    requires forall e :: e in log ==> e.key.sequence <= r
    requires last == r || exists e :: e in log && e.key.sequence == r
    ensures MaxSequence(log, last) == r
  {
    MaxSequenceFacts(log, last);
  }

  lemma ElementsConcat(a: seq<Entry>, b: seq<Entry>)
    ensures Elements(a + b) == Elements(a) + Elements(b)
  {
  }

  lemma IncreasingAppend(log: seq<Entry>, es: seq<Entry>, bound: nat)
    requires Increasing(log) && Increasing(es)
    requires forall e :: e in log ==> e.key.sequence <= bound
    requires forall e :: e in es ==> e.key.sequence > bound
    ensures Increasing(log + es)
  {
    forall i, j | 0 <= i < j < |log + es|
      ensures (log + es)[i].key.sequence < (log + es)[j].key.sequence
    {
      if i < |log| <= j {
        assert log[i] in log && es[j - |log|] in es;
      }
    }
  }

  /** Appending a stamped batch moves the largest sequence number to the batch's last one. */
  lemma MaxSequenceAppend(log: seq<Entry>, ops: seq<Op>, last: SequenceNumber, was: SequenceNumber)
    requires MaxSequence(log, last) == was && was + |ops| < MAX_SEQUENCE
    ensures MaxSequence(log + Stamp(ops, was + 1), last) == was + |ops|
  {
    var es := Stamp(ops, was + 1);
    StampFacts(ops, was + 1);
    MaxSequenceFacts(log, last);
    if ops != [] {
      assert es[|ops| - 1] in log + es;
      MaxSequenceIs(log + es, last, was + |ops|);
    } else {
      assert log + es == log;
    }
  }

  lemma ReplayWithAppend(logs: map<nat, seq<Batch>>, lo: nat, n: nat, es: Batch)
    requires n in logs && lo <= n
    ensures LogAt(logs[n := logs[n] + [es]], n) == LogAt(logs, n) + es
    ensures Replay(logs[n := logs[n] + [es]], lo, n) == Replay(logs, lo, n)
    ensures Replay(logs[n := logs[n] + [es]], lo, n + 1) == Replay(logs, lo, n + 1) + es
  {
    var logs' := logs[n := logs[n] + [es]];
    assert logs'[n][..|logs[n]|] == logs[n];
    ReplaySame(logs, logs', lo, n);
    assert Replay(logs, lo, n) + (LogAt(logs, n) + es) == (Replay(logs, lo, n) + LogAt(logs, n)) + es;
  }

  lemma AppendKeepsLogs(logs: map<nat, seq<Batch>>, lo: nat, n: nat, mem: set<Entry>, imm: set<Entry>,
                        manifestLast: SequenceNumber, last: SequenceNumber, ops: seq<Op>)
    requires LogState(logs, lo, n, mem, imm, manifestLast, last)
    requires n in logs && lo <= n && last + |ops| < MAX_SEQUENCE
    ensures var es := Stamp(ops, last + 1);
      LogState(logs[n := logs[n] + [es]], lo, n, mem + Elements(es), imm, manifestLast, last + |ops|)
  {
    var es := Stamp(ops, last + 1);
    var log := Replay(logs, lo, n + 1);
    StampFacts(ops, last + 1);
    ReplayWithAppend(logs, lo, n, es);
    ElementsConcat(LogAt(logs, n), es);
    MaxSequenceFacts(log, manifestLast);
    IncreasingAppend(log, es, last);
    MaxSequenceAppend(log, ops, manifestLast, last);
  }

  lemma ReplayOne(logs: map<nat, seq<Batch>>, lo: nat, n: nat)
    requires lo <= n
    ensures Replay(logs, n, n) == []
    ensures Replay(logs, n, n + 1) == LogAt(logs, n)
    ensures Replay(logs, lo, n + 1) == Replay(logs, lo, n) + LogAt(logs, n)
  {
  }

  lemma ReplayNewLog(logs: map<nat, seq<Batch>>, lo: nat, n: nat, n': nat)
    requires lo <= n < n' && forall k :: k in logs ==> k <= n
    ensures LogAt(logs[n' := []], n') == []
    ensures Replay(logs[n' := []], lo, n') == Replay(logs, lo, n + 1)
    ensures Replay(logs[n' := []], lo, n' + 1) == Replay(logs, lo, n + 1)
  {
    var logs' := logs[n' := []];
    ReplaySame(logs, logs', lo, n + 1);
    ReplayQuiet(logs', lo, n + 1, n');
    ReplayQuiet(logs', lo, n + 1, n' + 1);
  }

  /** A new empty log takes over; what the memtable held is now the immutable memtable. */
  lemma NewLogKeepsLogs(logs: map<nat, seq<Batch>>, lo: nat, n: nat, mem: set<Entry>,
                        manifestLast: SequenceNumber, last: SequenceNumber, n': nat)
    requires LogState(logs, lo, n, mem, {}, manifestLast, last)
    requires lo <= n < n' && forall k :: k in logs ==> k <= n
    ensures LogState(logs[n' := []], lo, n', {}, mem, manifestLast, last)
  {
    EmptyElements([]);
    EmptyElements(Replay(logs, lo, n));
    ReplayOne(logs, lo, n);
    ReplayNewLog(logs, lo, n, n');
  }

  lemma IncreasingSuffix(was: seq<Entry>, k: nat, now: seq<Entry>)
    requires Increasing(was) && k <= |was| && was[k..] == now
    ensures Increasing(now)
  {
    forall i, j | 0 <= i < j < |now|
      ensures now[i].key.sequence < now[j].key.sequence
    {
      assert was[k + i] == now[i] && was[k + j] == now[j];
    }
  }

  /** After a flush only the current log is needed. */
  lemma AdvanceKeepsLogs(logs: map<nat, seq<Batch>>, lo: nat, n: nat, mem: set<Entry>, imm: set<Entry>,
                         manifestLast: SequenceNumber, last: SequenceNumber)
    requires LogState(logs, lo, n, mem, imm, manifestLast, last)
    requires lo <= n
    ensures LogState(logs, n, n, mem, {}, last, last)
  {
    hide Replay, LogAt, Increasing, MaxSequence, Elements;
    ReplayOne(logs, lo, n);
    EmptyElements([]);
    SuffixKeepsLast(Replay(logs, lo, n), LogAt(logs, n), manifestLast, last);
  }

  lemma SuffixKeepsLast(before: seq<Entry>, now: seq<Entry>, manifestLast: SequenceNumber, last: SequenceNumber)
    requires Increasing(before + now) && MaxSequence(before + now, manifestLast) == last
    ensures Increasing(now) && MaxSequence(now, last) == last
  {
    hide Increasing, MaxSequence;
    var was := before + now;
    assert was[|before|..] == now;
    IncreasingSuffix(was, |before|, now);
    MaxSequenceFacts(was, manifestLast);
    assert forall e :: e in now ==> e in was;
    MaxSequenceIs(now, last, last);
  }

  /** Installing an edit without touching the logs records the last sequence number. */
  lemma RecordKeepsLogs(logs: map<nat, seq<Batch>>, lo: nat, n: nat, mem: set<Entry>, imm: set<Entry>,
                        manifestLast: SequenceNumber, last: SequenceNumber)
    requires LogState(logs, lo, n, mem, imm, manifestLast, last)
    ensures LogState(logs, lo, n, mem, imm, last, last)
  {
    var log := Replay(logs, lo, n + 1);
    MaxSequenceFacts(log, manifestLast);
    MaxSequenceIs(log, last, last);
  }

  // ----- the manifest -----

  lemma FilledSame(u: Version, e: Edit, logNumber: nat, nextFile: nat, last: SequenceNumber, v: Version)
    ensures Edited(u, Filled(e, logNumber, nextFile, last), v) <==> Edited(u, e, v)
  {
  }

  lemma LogAndApplyManifest(s: Db, e: Edit, logNumber: nat, nextFile: nat, s': Db)
    requires ManifestOk(s) && CleanEdit(e)
    requires forall l: nat, n: nat :: Adds(e, l, n) ==> !EverAdds(s.disk.manifest, l, n)
    requires Edited(s.layers.version, e, s'.layers.version)
    requires s'.disk.manifest == s.disk.manifest + [Filled(e, logNumber, nextFile, s.lastSequence)]
    requires s'.logNumber == logNumber && s'.nextFile == nextFile && s'.lastSequence == s.lastSequence
    ensures ManifestOk(s')
    ensures LastNextFile(s'.disk.manifest) == Some(nextFile)
    ensures LastLastSequence(s'.disk.manifest) == Some(s.lastSequence)
  {
    var m, e' := s.disk.manifest, Filled(e, logNumber, nextFile, s.lastSequence);
    FilledSame(s.layers.version, e, logNumber, nextFile, s.lastSequence, s'.layers.version);
    FoldsExtend(m, s.layers.version, e', s'.layers.version);
    forall l: nat, n: nat | Adds(e', l, n)
      ensures !EverAdds(m, l, n)
    {
      assert Adds(e, l, n);
    }
    AddedOnceExtend(m, e');
  }

  lemma EverAddsExtend(m: seq<Edit>, e: Edit)
    ensures forall l: nat, n: nat :: EverAdds(m + [e], l, n) <==> EverAdds(m, l, n) || Adds(e, l, n)
  {
    forall l: nat, n: nat
      ensures EverAdds(m + [e], l, n) <==> EverAdds(m, l, n) || Adds(e, l, n)
    {
      if EverAdds(m, l, n) {
        var i :| 0 <= i < |m| && Adds(m[i], l, n);
        assert Adds((m + [e])[i], l, n);
      }
      if Adds(e, l, n) {
        assert Adds((m + [e])[|m|], l, n);
      }
      if EverAdds(m + [e], l, n) {
        var i :| 0 <= i < |m| + 1 && Adds((m + [e])[i], l, n);
        assert i < |m| ==> Adds(m[i], l, n);
      }
    }
  }

  /** Every file of the folded version was added to its level by some edit. */
  lemma {:induction false} FoldsAdded(m: seq<Edit>, v: Version)
    requires Folds(m, v)
    ensures forall l: nat, f :: l < |v| && f in v[l] ==> EverAdds(m, l, f.number)
  {
    if m != [] {
      var n := |m| - 1;
      var u :| Folds(m[..n], u) && Edited(u, LastEdit(m), v);
      FoldsAdded(m[..n], u);
      EverAddsExtend(m[..n], m[n]);
      assert m == m[..n] + [m[n]];
      forall l: nat, f | l < |v| && f in v[l]
        ensures EverAdds(m, l, f.number)
      {
        if (l, f) in m[n].added {
          assert Adds(m[n], l, f.number);
        } else {
          assert f in u[l];
        }
      }
    }
  }

  lemma AddsOfAdd(level: nat, f: FileMeta)
    requires level < NUM_LEVELS
    ensures CleanEdit(AddEdit(level, f))
    ensures forall l: nat, n: nat :: Adds(AddEdit(level, f), l, n) <==> l == level && n == f.number
  {
    assert (level, f) in AddEdit(level, f).added;
  }

  lemma AddsOfInstall(c: Compaction, outs: seq<FileMeta>)
    requires c.level + 1 < NUM_LEVELS
    requires forall i, j :: 0 <= i < j < |outs| ==> outs[i].number != outs[j].number
    ensures CleanEdit(InstallEdit(c, outs))
    ensures forall l: nat, n: nat :: Adds(InstallEdit(c, outs), l, n) <==> l == c.level + 1 && exists o :: o in outs && o.number == n
  {
    var e := InstallEdit(c, outs);
    PlacedMembers(c.level + 1, outs);
    forall p, q | p in e.added && q in e.added && p.0 == q.0 && p.1.number == q.1.number
      ensures p == q
    {
      var i :| 0 <= i < |outs| && (c.level + 1, outs[i]) == p;
      var j :| 0 <= j < |outs| && (c.level + 1, outs[j]) == q;
    }
    forall l: nat, n: nat
      ensures Adds(e, l, n) <==> l == c.level + 1 && exists o :: o in outs && o.number == n
    {
      if l == c.level + 1 && exists o :: o in outs && o.number == n {
        var o :| o in outs && o.number == n;
        assert (c.level + 1, o) in e.added;
      }
    }
  }
}
