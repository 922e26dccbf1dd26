/** The database as a state machine: memory, disk and the steps between them (db_impl.cc). */
module Engine {
  import opened Keys
  import opened Entries
  import opened Versions
  import opened Overlap
  import opened Picking
  import opened VersionBuilder
  import opened Store
  import opened CompactionViews
  import opened Install
  import opened CompactionWork
  import opened StoreSteps
  import opened Manifest
  import opened Options

  datatype Op = Op(user: UserKey, kind: ValueType, value: Bytes)

  type Batch = seq<Entry>

  /** Log files are lists of records, one record per write batch. */
  datatype Disk = Disk(manifest: seq<Edit>, logs: map<nat, seq<Batch>>, tables: map<nat, seq<Entry>>)

  /** `pending`: tables being written; `pinned`: versions held by iterators; `history`: every
      entry ever written, the specification the reads are measured against. */
  datatype Db = Db(
    layers: Layers,
    lastSequence: SequenceNumber,
    snapshots: seq<SequenceNumber>,
    disk: Disk,
    logfileNumber: nat,
    logNumber: nat,
    nextFile: nat,
    pending: set<nat>,
    pinned: seq<Version>,
    history: set<Entry>)

  /** The smallest_snapshot of a compaction started now. */
  function SmallestSnapshot(s: Db): SequenceNumber {
    if s.snapshots == [] then s.lastSequence else s.snapshots[0]
  }

  // ----- log contents -----

  function Flatten(bs: seq<Batch>): seq<Entry> {
    if bs == [] then [] else Flatten(bs[..|bs| - 1]) + bs[|bs| - 1]
  }

  function LogAt(logs: map<nat, seq<Batch>>, n: nat): seq<Entry> {
    if n in logs then Flatten(logs[n]) else []
  }

  /** The entries of the logs numbered lo, ..., hi - 1 in the order they were written. */
  function Replay(logs: map<nat, seq<Batch>>, lo: nat, hi: nat): seq<Entry>
    decreases hi
  {
    if hi <= lo then [] else Replay(logs, lo, hi - 1) + LogAt(logs, hi - 1)
  }

  // ----- steps -----

  /** SetSequence and MemTableInserter: consecutive sequence numbers from `first`. */
  function Stamp(ops: seq<Op>, first: nat): seq<Entry>
    requires first + |ops| <= MAX_SEQUENCE
  {
    seq(|ops|, i requires 0 <= i < |ops| => Entry(InternalKey(ops[i].user, first + i, ops[i].kind), ops[i].value))
  }

  function InsertAll(mem: seq<Entry>, es: seq<Entry>): seq<Entry>
    decreases |es|
  {
    if es == [] then mem else InsertAll(Insert(mem, es[0]), es[1..])
  }

  ghost predicate WriteStep(s: Db, ops: seq<Op>, s': Db) {
    && s.lastSequence + |ops| < MAX_SEQUENCE
    && s.logfileNumber in s.disk.logs
    && var es := Stamp(ops, s.lastSequence + 1);
      s' == s.(
        layers := s.layers.(mem := InsertAll(s.layers.mem, es)),
        lastSequence := s.lastSequence + |ops|,
        disk := s.disk.(logs := s.disk.logs[s.logfileNumber := s.disk.logs[s.logfileNumber] + [es]]),
        history := s.history + Elements(es))
  }

  ghost predicate SwitchStep(s: Db, s': Db) {
    && s.layers.imm.None?
    && s' == s.(
      layers := Layers([], Some(s.layers.mem), s.layers.version),
      disk := s.disk.(logs := s.disk.logs[s.nextFile := []]),
      logfileNumber := s.nextFile,
      nextFile := s.nextFile + 1)
  }

  /** What LogAndApply adds to an edit before writing it. */
  function Filled(e: Edit, logNumber: nat, nextFile: nat, lastSequence: SequenceNumber): Edit {
    e.(logNumber := Some(logNumber), nextFile := Some(nextFile), lastSequence := Some(lastSequence))
  }

  /** CompactMemTable: write the table, pick its level, log the edit, drop the immutable memtable. */
  ghost predicate FlushStep(s: Db, level: nat, f: FileMeta, v': Version, s': Db) {
    && s.layers.imm == Some(f.entries)
    && ValidFile(f) && f.number == s.nextFile
    && MayAddAt(s.layers.version, level, f)
    && Edited(s.layers.version, AddEdit(level, f), v')
    && s' == s.(
      layers := Layers(s.layers.mem, None, v'),
      disk := s.disk.(
        manifest := s.disk.manifest + [Filled(AddEdit(level, f), s.logfileNumber, s.nextFile + 1, s.lastSequence)],
        tables := s.disk.tables[f.number := f.entries]),
      logNumber := s.logfileNumber,
      nextFile := s.nextFile + 1)
  }

  /** CompactMemTable of an empty memtable: no table, but the log number still advances. */
  ghost predicate FlushEmptyStep(s: Db, s': Db) {
    && s.layers.imm == Some([])
    && s' == s.(
      layers := Layers(s.layers.mem, None, s.layers.version),
      disk := s.disk.(manifest := s.disk.manifest + [Filled(EMPTY_EDIT, s.logfileNumber, s.nextFile + 1, s.lastSequence)]),
      logNumber := s.logfileNumber,
      nextFile := s.nextFile + 1)
  }

  /** A table is written under a fresh number and protected while pending. */
  ghost predicate BeginTableStep(s: Db, es: seq<Entry>, s': Db) {
    s' == s.(
      disk := s.disk.(tables := s.disk.tables[s.nextFile := es]),
      nextFile := s.nextFile + 1,
      pending := s.pending + {s.nextFile})
  }

  /** A failed compaction drops its pending outputs; the files stay as orphans. */
  ghost predicate AbandonStep(s: Db, n: nat, s': Db) {
    s' == s.(pending := s.pending - {n})
  }

  /** InstallCompactionResults, for outputs DoCompactionWork has written. */
  ghost predicate CompactStep(s: Db, c: Compaction, outs: seq<FileMeta>, v': Version, s': Db) {
    && WellChosen(s.layers.version, c)
    && ValidFiles(outs) && Disjoint(outs)
    && LevelEntries(outs) == Survivors(InputEntries(c), SmallestSnapshot(s), BaseOf(s.layers.version, c.level))
    && (forall i, j :: 0 <= i < j < |outs| ==> outs[i].number != outs[j].number)
    && (forall o :: o in outs ==> o.number in s.pending && o.number in s.disk.tables && s.disk.tables[o.number] == o.entries)
    && Edited(s.layers.version, InstallEdit(c, outs), v')
    && s' == s.(
      layers := s.layers.(version := v'),
      disk := s.disk.(manifest := s.disk.manifest + [Filled(InstallEdit(c, outs), s.logNumber, s.nextFile, s.lastSequence)]),
      pending := s.pending - set o | o in outs :: o.number)
  }

  /** A trivial move changes only the level of one file. */
  ghost predicate MoveStep(s: Db, c: Compaction, v': Version, s': Db) {
    && WellChosen(s.layers.version, c)
    && |c.inputs0| == 1 && c.inputs1 == []
    && Edited(s.layers.version, InstallEdit(c, c.inputs0), v')
    && s' == s.(
      layers := s.layers.(version := v'),
      disk := s.disk.(manifest := s.disk.manifest + [Filled(InstallEdit(c, c.inputs0), s.logNumber, s.nextFile, s.lastSequence)]))
  }

  ghost predicate SnapshotStep(s: Db, s': Db) {
    s' == s.(snapshots := s.snapshots + [s.lastSequence])
  }

  ghost predicate ReleaseStep(s: Db, i: nat, s': Db) {
    i < |s.snapshots| && s' == s.(snapshots := s.snapshots[..i] + s.snapshots[i + 1..])
  }

  ghost predicate PinStep(s: Db, s': Db) {
    s' == s.(pinned := s.pinned + [s.layers.version])
  }

  ghost predicate UnpinStep(s: Db, i: nat, s': Db) {
    i < |s.pinned| && s' == s.(pinned := s.pinned[..i] + s.pinned[i + 1..])
  }

  ghost function VersionNumbers(v: Version): set<nat> {
    set l, f | 0 <= l < |v| && f in v[l] :: f.number
  }

  /** The `live` set of RemoveObsoleteFiles: pending outputs and the files of every live version. */
  ghost function LiveNumbers(s: Db): set<nat> {
    s.pending + VersionNumbers(s.layers.version) + (set v, n | v in s.pinned && n in VersionNumbers(v) :: n)
  }

  /** RemoveObsoleteFiles. */
  ghost predicate CollectStep(s: Db, s': Db) {
    s' == s.(disk := s.disk.(
      logs := map n | n in s.disk.logs && n >= s.logNumber :: s.disk.logs[n],
      tables := map n | n in s.disk.tables && n in LiveNumbers(s) :: s.disk.tables[n]))
  }

  /** The table `f` holds exactly the entries of `segment`, sorted. */
  ghost predicate TableOf(f: FileMeta, segment: seq<Entry>) {
    ValidFile(f) && Elements(f.entries) == Elements(segment)
  }

  /** The level-0 tables RecoverLogFile writes: runs of consecutive log entries, under
      increasing numbers between `lo` and `hi`. */
  ghost predicate RecoveredFiles(log: seq<Entry>, segments: seq<Batch>, files: seq<FileMeta>, lo: nat, hi: nat) {
    && Flatten(segments) == log
    && |files| == |segments|
    && (forall i :: 0 <= i < |files| ==> TableOf(files[i], segments[i]) && lo < files[i].number < hi)
    && forall i, j :: 0 <= i < j < |files| ==> files[i].number < files[j].number
  }

  function TablesWith(tables: map<nat, seq<Entry>>, files: seq<FileMeta>): map<nat, seq<Entry>> {
    if files == [] then tables
    else TablesWith(tables, files[..|files| - 1])[files[|files| - 1].number := files[|files| - 1].entries]
  }

  /** The first record of a new manifest: all files of the recovered version. */
  ghost predicate SnapshotEdit(v: Version, e: Edit) {
    && e.deleted == {} && e.logNumber == None && e.nextFile == None && e.lastSequence == None
    && forall p :: p in e.added <==> p.0 < |v| && p.1 in v[p.0]
  }

  /** The largest of `last` and the sequence numbers in the log. */
  function MaxSequence(log: seq<Entry>, last: SequenceNumber): SequenceNumber {
    if log == [] then last
    else
      var m := MaxSequence(log[..|log| - 1], last);
      if log[|log| - 1].key.sequence > m then log[|log| - 1].key.sequence else m
  }

  /** A crash followed by DB::Open. Everything in memory is lost; only `s.disk` is read:
      `v0` and the numbers come from the manifest, the rest from the logs it still needs.
      A new log and a new manifest replace the old ones. */
  ghost predicate RecoverStep(s: Db, v0: Version, segments: seq<Batch>, files: seq<FileMeta>,
                              snapshotEdit: Edit, v': Version, newLog: nat, s': Db) {
    var m := s.disk.manifest;
    && Folds(m, v0)
    && LastLogNumber(m).Some? && LastNextFile(m).Some? && LastLastSequence(m).Some?
    && newLog > LastNextFile(m).value
    && (forall n :: n in s.disk.logs ==> n < newLog)
    && var log := Replay(s.disk.logs, LastLogNumber(m).value, newLog);
    && RecoveredFiles(log, segments, files, LastNextFile(m).value, newLog)
    && SnapshotEdit(v0, snapshotEdit)
    && Edited(v0, EMPTY_EDIT.(added := Placed(0, files)), v')
    && var last := MaxSequence(log, LastLastSequence(m).value);
    && var edit := Filled(EMPTY_EDIT.(added := Placed(0, files)), newLog, newLog + 1, last);
    && s' == Db(
      Layers([], None, v'),
      last,
      [],
      Disk([snapshotEdit, edit], s.disk.logs[newLog := []], TablesWith(s.disk.tables, files)),
      newLog,
      newLog,
      newLog + 1,
      {},
      [],
      s.history)
  }

  /** NewDB followed by the first open. */
  const INITIAL: Db := Db(
    Layers([], None, EMPTY_VERSION), 0, [],
    Disk([EMPTY_EDIT, Filled(EMPTY_EDIT, 3, 4, 0)], map[3 := []], map[]),
    3, 3, 4, {}, [], {})

  datatype Step =
    | Write(ops: seq<Op>)
    | Switch
    | Flush(level: nat, file: FileMeta, version: Version)
    | FlushEmpty
    | BeginTable(entries: seq<Entry>)
    | Abandon(number: nat)
    | Compact(c: Compaction, outs: seq<FileMeta>, version: Version)
    | Move(c: Compaction, version: Version)
    | TakeSnapshot
    | ReleaseSnapshot(index: nat)
    | Pin
    | Unpin(index: nat)
    | Collect
    | CrashAndRecover(base: Version, segments: seq<Batch>, files: seq<FileMeta>, snapshotEdit: Edit, version: Version, newLog: nat)

  ghost predicate Next(s: Db, step: Step, s': Db) {
    match step
    case Write(ops) => WriteStep(s, ops, s')
    case Switch => SwitchStep(s, s')
    case Flush(level, f, v) => FlushStep(s, level, f, v, s')
    case FlushEmpty => FlushEmptyStep(s, s')
    case BeginTable(es) => BeginTableStep(s, es, s')
    case Abandon(n) => AbandonStep(s, n, s')
    case Compact(c, outs, v) => CompactStep(s, c, outs, v, s')
    case Move(c, v) => MoveStep(s, c, v, s')
    case TakeSnapshot => SnapshotStep(s, s')
    case ReleaseSnapshot(i) => ReleaseStep(s, i, s')
    case Pin => PinStep(s, s')
    case Unpin(i) => UnpinStep(s, i, s')
    case Collect => CollectStep(s, s')
    case CrashAndRecover(v0, segments, files, e, v, n) => RecoverStep(s, v0, segments, files, e, v, n, s')
  }

  /** `states` is a run: it starts in the initial state and follows the steps. */
  ghost predicate Run(states: seq<Db>, steps: seq<Step>) {
    && |states| == |steps| + 1
    && states[0] == INITIAL
    && forall i :: 0 <= i < |steps| ==> Next(states[i], steps[i], states[i + 1])
  }

  /** No compaction of the run resurrects a deleted value. */
  ghost predicate Careful(s: Db, step: Step) {
    step.Compact? && WellChosen(s.layers.version, step.c) ==> NothingResurrected(s.layers, step.c, SmallestSnapshot(s))
  }

  ghost predicate CarefulRun(states: seq<Db>, steps: seq<Step>) {
    Run(states, steps) && forall i :: 0 <= i < |steps| ==> Careful(states[i], steps[i])
  }
}
