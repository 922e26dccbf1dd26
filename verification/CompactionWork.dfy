/** The compaction loop (DoCompactionWork in db_impl.cc; IsBaseLevelForKey in version_set.cc)
    and what a finished compaction means for readers. */
module CompactionWork {
  import opened Keys
  import opened Entries
  import opened Versions
  import opened Overlap
  import opened CompactionViews
  import opened OutputCuts
  import opened Options

  predicate Spans(f: FileMeta, k: UserKey) {
    f.smallest.user <= k <= f.largest.user
  }

  /** No file two or more levels below the compaction's level spans `k`. */
  ghost predicate BaseLevel(v: Version, level: nat, k: UserKey) {
    forall l: nat, f :: level + 2 <= l < |v| && f in v[l] ==> !Spans(f, k)
  }

  ghost function BaseOf(v: Version, level: nat): UserKey -> bool {
    k => BaseLevel(v, level, k)
  }

  /** The level_ptrs_ of a Compaction: cursors that only move forward while the keys asked
      about increase. */
  class BaseLevelProbe {
    const version: Version
    const level: nat
    const levelPtrs: array<nat>

    ghost predicate Valid()
      reads levelPtrs
    {
      && |version| == NUM_LEVELS == levelPtrs.Length
      && (forall l: nat, f :: l < NUM_LEVELS && f in version[l] ==> ValidFile(f))
      && (forall l :: 1 <= l < NUM_LEVELS ==> Disjoint(version[l]))
      && forall l :: 0 <= l < NUM_LEVELS ==> levelPtrs[l] <= |version[l]|
    }

    /** Every file a cursor has passed ends before `k`. */
    ghost predicate PassedBelow(k: UserKey)
      reads levelPtrs
      requires Valid()
    {
      forall l, j :: 0 <= l < NUM_LEVELS && 0 <= j < levelPtrs[l] ==> version[l][j].largest.user < k
    }

    constructor (v: Version, level: nat)
      requires ValidVersion(v)
      ensures Valid() && version == v && this.level == level && fresh(levelPtrs)
      ensures forall k :: PassedBelow(k)
    {
      version := v;
      this.level := level;
      levelPtrs := new nat[NUM_LEVELS](_ => 0);
    }

    method IsBaseLevelForKey(k: UserKey) returns (r: bool)
      requires Valid() && PassedBelow(k)
      modifies levelPtrs
      ensures Valid() && PassedBelow(k)
      ensures r <==> BaseLevel(version, level, k)
    {
      var l := level + 2;
      while l < NUM_LEVELS
        invariant Valid() && PassedBelow(k)
        invariant forall m: nat, f :: level + 2 <= m < l && m < NUM_LEVELS && f in version[m] ==> !Spans(f, k)
      {
        while levelPtrs[l] < |version[l]| && k > version[l][levelPtrs[l]].largest.user
          invariant Valid() && PassedBelow(k)
          decreases |version[l]| - levelPtrs[l]
        {
          levelPtrs[l] := levelPtrs[l] + 1;
        }
        if levelPtrs[l] < |version[l]| && k >= version[l][levelPtrs[l]].smallest.user {
          assert version[l][levelPtrs[l]] in version[l];
          assert Spans(version[l][levelPtrs[l]], k);
          return false;
        }
        NoSpanBeyond(version[l], levelPtrs[l], k);
        l := l + 1;
      }
      return true;
    }
  }

  /** The file at the cursor decides for the whole sorted level. */
  lemma NoSpanBeyond(files: seq<FileMeta>, p: nat, k: UserKey)
    requires ValidFiles(files) && Disjoint(files)
    requires p <= |files|
    requires forall j :: 0 <= j < p ==> files[j].largest.user < k
    requires p < |files| ==> k < files[p].smallest.user
    ensures forall f :: f in files ==> !Spans(f, k)
  {
    forall f | f in files
      ensures !Spans(f, k)
    {
      var j :| 0 <= j < |files| && files[j] == f;
      if p < j {
        assert files[p] in files;
        FileIsRange(files[p]);
      }
    }
  }

  // ----- the loop -----

  ghost predicate Keeps(I: set<Entry>, x: Entry, ss: SequenceNumber, isBase: UserKey -> bool) {
    !Shadowed(I, x, ss) && !Obsolete(x, ss, isBase)
  }

  ghost function KeptUpTo(input: seq<Entry>, n: nat, ss: SequenceNumber, isBase: UserKey -> bool): set<Entry>
    requires n <= |input|
  {
    set x | x in input[..n] && Keeps(Elements(input), x, ss, isBase)
  }

  /** In a sorted run, an entry is hidden exactly when its predecessor hides it. */
  lemma ShadowedByPrevious(input: seq<Entry>, n: nat, ss: SequenceNumber)
    requires Sorted(input) && n < |input|
    ensures Shadowed(Elements(input), input[n], ss)
       <==> n > 0 && input[n - 1].key.user == input[n].key.user && input[n - 1].key.sequence <= ss
  {
    var I := Elements(input);
    if n > 0 && input[n - 1].key.user == input[n].key.user && input[n - 1].key.sequence <= ss {
      assert input[n - 1] in I;
    }
    if Shadowed(I, input[n], ss) {
      var y :| y in I && y.key.user == input[n].key.user && Less(y.key, input[n].key) && y.key.sequence <= ss;
      var j :| 0 <= j < |input| && input[j] == y;
      assert j < n;
      assert j == n - 1 || Less(input[j].key, input[n - 1].key);
    }
  }

  // ----- the rules in numbers -----

  /** A newer entry of the same key, which comes earlier in the run, is visible to every reader. */
  predicate Passed(input: seq<Entry>, i: nat, ss: SequenceNumber)
    requires i < |input|
  {
    exists j :: 0 <= j < i && input[j].key.user == input[i].key.user && input[j].key.sequence <= ss
  }

  /** A deletion every reader sees, while no file two or more levels down spans its key. */
  ghost predicate Useless(x: Entry, ss: SequenceNumber, v: Version, level: nat) {
    && x.key.kind == TypeDeletion
    && x.key.sequence <= ss
    && !exists l: nat, f :: level + 2 <= l < |v| && f in v[l] && f.smallest.user <= x.key.user <= f.largest.user
  }

  /** Of a sorted run exactly the other entries are kept. */
  ghost predicate KeptByRule(input: seq<Entry>, kept: set<Entry>, ss: SequenceNumber, v: Version, level: nat) {
    && kept <= Elements(input)
    && forall i :: 0 <= i < |input| ==> (input[i] in kept <==> !Passed(input, i, ss) && !Useless(input[i], ss, v, level))
  }

  lemma KeepsByNumbers(input: seq<Entry>, n: nat, ss: SequenceNumber, v: Version, level: nat)
    requires Sorted(input) && n < |input|
    ensures Keeps(Elements(input), input[n], ss, BaseOf(v, level)) <==> !Passed(input, n, ss) && !Useless(input[n], ss, v, level)
  {
    var I, x := Elements(input), input[n];
    if Shadowed(I, x, ss) {
      var y :| y in I && y.key.user == x.key.user && Less(y.key, x.key) && y.key.sequence <= ss;
      var j :| 0 <= j < |input| && input[j] == y;
      assert j < n;
    } else {
      forall j | 0 <= j < n && input[j].key.user == x.key.user
        ensures input[j].key.sequence > ss
      {
        assert input[j] in I && Less(input[j].key, x.key);
      }
    }
    ObsoleteByNumbers(x, ss, v, level);
  }

  lemma ObsoleteByNumbers(x: Entry, ss: SequenceNumber, v: Version, level: nat)
    ensures Obsolete(x, ss, BaseOf(v, level)) <==> Useless(x, ss, v, level)
  {
    if l: nat, f :| level + 2 <= l < |v| && f in v[l] && f.smallest.user <= x.key.user <= f.largest.user {
      assert Spans(f, x.key.user) && !BaseLevel(v, level, x.key.user);
    }
  }

  /** Output files so far plus the one being built: all in order, all before `bound`. */
  ghost predicate Building(done: seq<FileMeta>, current: seq<Entry>, firstNumber: nat) {
    && ValidFiles(done)
    && Disjoint(done)
    && Sorted(current)
    && (forall i :: 0 <= i < |done| ==> done[i].number == firstNumber + i)
    && forall f :: f in done && current != [] ==> Less(f.largest, current[0].key)
  }

  ghost predicate AllBelow(done: seq<FileMeta>, current: seq<Entry>, bound: InternalKey) {
    && (forall f :: f in done ==> Less(f.largest, bound))
    && forall e :: e in current ==> Less(e.key, bound)
  }

  /** FinishCompactionOutputFile. */
  function FinishOutput(done: seq<FileMeta>, current: seq<Entry>, firstNumber: nat, sizeOf: seq<Entry> -> nat): seq<FileMeta>
    requires current != []
  {
    done + [FileMeta(firstNumber + |done|, sizeOf(current), current[0].key, current[|current| - 1].key, current)]
  }

  lemma FinishKeepsBuilding(done: seq<FileMeta>, current: seq<Entry>, firstNumber: nat, sizeOf: seq<Entry> -> nat)
    requires Building(done, current, firstNumber) && current != []
    ensures Building(FinishOutput(done, current, firstNumber, sizeOf), [], firstNumber)
    ensures LevelEntries(FinishOutput(done, current, firstNumber, sizeOf)) == LevelEntries(done) + Elements(current)
    ensures forall bound :: AllBelow(done, current, bound) ==> AllBelow(FinishOutput(done, current, firstNumber, sizeOf), [], bound)
  {
    var r := FinishOutput(done, current, firstNumber, sizeOf);
    var f := r[|done|];
    assert ValidFile(f);
    assert forall g :: g in r <==> g in done || g == f;
    forall i, j | 0 <= i < j < |r|
      ensures Less(r[i].largest, r[j].smallest)
    {
      assert r[i] in done;
    }
    assert FileEntries(f) == Elements(current);
    assert current[|current| - 1] in current;
  }

  lemma AddKeepsBuilding(done: seq<FileMeta>, current: seq<Entry>, firstNumber: nat, e: Entry)
    requires Building(done, current, firstNumber)
    requires AllBelow(done, current, e.key)
    ensures Building(done, current + [e], firstNumber)
    ensures forall bound :: Less(e.key, bound) ==> AllBelow(done, current + [e], bound)
  {
    forall i | 0 <= i < |current|
      ensures Less(current[i].key, e.key)
    {
      assert current[i] in current;
    }
    forall bound | Less(e.key, bound)
      ensures AllBelow(done, current + [e], bound)
    {
    }
  }

  lemma AllBelowTrans(done: seq<FileMeta>, current: seq<Entry>, a: InternalKey, b: InternalKey)
    requires AllBelow(done, current, a) && Less(a, b)
    ensures AllBelow(done, current, b)
  {
  }

  /** The drop decision for entry `n`, given the user key and sequence of the entry before it. */
  method ShouldDrop(probe: BaseLevelProbe, input: seq<Entry>, n: nat, lastSequenceForKey: SequenceNumber, ss: SequenceNumber)
    returns (drop: bool)
    requires Sorted(input) && n < |input|
    requires ss < MAX_SEQUENCE
    requires probe.Valid() && probe.PassedBelow(input[n].key.user)
    requires lastSequenceForKey ==
      if n > 0 && input[n - 1].key.user == input[n].key.user then input[n - 1].key.sequence else MAX_SEQUENCE
    modifies probe.levelPtrs
    ensures probe.Valid() && probe.PassedBelow(input[n].key.user)
    ensures drop <==> !Keeps(Elements(input), input[n], ss, BaseOf(probe.version, probe.level))
    ensures drop <==> Passed(input, n, ss) || Useless(input[n], ss, probe.version, probe.level)
  {
    KeepsByNumbers(input, n, ss, probe.version, probe.level);
    hide Passed, Useless;
    var e := input[n];
    ShadowedByPrevious(input, n, ss);
    drop := false;
    if lastSequenceForKey <= ss {
      drop := true;
    } else if e.key.kind.TypeDeletion? && e.key.sequence <= ss {
      drop := probe.IsBaseLevelForKey(e.key.user);
    }
  }

  /** Where outputs are cut, how they are numbered, and how large they get. */
  datatype Cuts = Cuts(stopBefore: seq<bool>, full: seq<bool>, firstNumber: nat, sizeOf: seq<Entry> -> nat)

  /** The finished outputs and the open one after `n` entries: an output ends in front of an entry
      marked in `stopBefore`, kept or not, and behind a kept one marked in `full`. */
  ghost function Outputs(input: seq<Entry>, n: nat, ss: SequenceNumber, v: Version, level: nat, cuts: Cuts): (seq<FileMeta>, seq<Entry>)
    requires n <= |input| == |cuts.stopBefore| == |cuts.full|
  {
    if n == 0 then ([], [])
    else
      var i, p := n - 1, Outputs(input, n - 1, ss, v, level, cuts);
      var q := if cuts.stopBefore[i] then (Finished(p.0, p.1, cuts), []) else p;
      if Passed(input, i, ss) || Useless(input[i], ss, v, level) then q
      else if cuts.full[i] then (Finished(q.0, q.1 + [input[i]], cuts), [])
      else (q.0, q.1 + [input[i]])
  }

  ghost function Finished(done: seq<FileMeta>, current: seq<Entry>, cuts: Cuts): seq<FileMeta> {
    if current == [] then done else FinishOutput(done, current, cuts.firstNumber, cuts.sizeOf)
  }

  /** Without marks there is one output at most. */
  lemma {:induction false} UnmarkedIsOneOutput(input: seq<Entry>, n: nat, ss: SequenceNumber, v: Version, level: nat, cuts: Cuts)
    requires n <= |input| == |cuts.stopBefore| == |cuts.full|
    requires forall i :: 0 <= i < n ==> !cuts.stopBefore[i] && !cuts.full[i]
    ensures Outputs(input, n, ss, v, level, cuts).0 == []
  {
    hide Passed, Useless;
    if n > 0 {
      UnmarkedIsOneOutput(input, n - 1, ss, v, level, cuts);
    }
  }

  lemma NoOutputs(input: seq<Entry>, ss: SequenceNumber, v: Version, level: nat, cuts: Cuts)
    requires |input| == |cuts.stopBefore| == |cuts.full|
    ensures Outputs(input, 0, ss, v, level, cuts) == ([], [])
  {
  }

  lemma OutputsStep(input: seq<Entry>, n: nat, ss: SequenceNumber, v: Version, level: nat, cuts: Cuts)
    requires n < |input| == |cuts.stopBefore| == |cuts.full|
    ensures var p := Outputs(input, n, ss, v, level, cuts);
      var q := if cuts.stopBefore[n] then (Finished(p.0, p.1, cuts), []) else p;
      var e := input[n];
      Outputs(input, n + 1, ss, v, level, cuts) ==
        if Passed(input, n, ss) || Useless(e, ss, v, level) then q
        else if cuts.full[n] then (FinishOutput(q.0, q.1 + [e], cuts.firstNumber, cuts.sizeOf), [])
        else (q.0, q.1 + [e])
  {
    hide Passed, Useless;
  }

  lemma LastFinished(done: seq<FileMeta>, current: seq<Entry>, cuts: Cuts)
    ensures Finished(done, current, cuts) == if current == [] then done else FinishOutput(done, current, cuts.firstNumber, cuts.sizeOf)
  {
  }

  /** End the open output where ShouldStopBefore says so. */
  method StopBefore(stopper: StopProbe, input: seq<Entry>, n: nat, done: seq<FileMeta>, current: seq<Entry>, ghost cuts: Cuts,
                    sizeOf: seq<Entry> -> nat, firstNumber: nat)
    returns (done': seq<FileMeta>, current': seq<Entry>)
    requires Sorted(input) && n < |input| && stopper.Asked(input, n) && cuts.sizeOf == sizeOf && cuts.firstNumber == firstNumber
    requires cuts.stopBefore == Marks(stopper.grandparents, stopper.limit, input, |input|).0
    requires Building(done, current, firstNumber) && AllBelow(done, current, input[n].key)
    modifies stopper
    ensures stopper.Asked(input, n + 1)
    ensures Building(done', current', firstNumber) && AllBelow(done', current', input[n].key)
    ensures LevelEntries(done') + Elements(current') == LevelEntries(done) + Elements(current)
    ensures (done', current') == if cuts.stopBefore[n] then (Finished(done, current, cuts), []) else (done, current)
  {
    hide StopProbe.Asked, Marks, Building, AllBelow, LevelEntries;
    MarkStays(stopper.grandparents, stopper.limit, input, n, |input|);
    done', current' := done, current;
    var stop := stopper.ShouldStopBefore(input[n].key, input, n);
    if stop && current != [] {
      FinishKeepsBuilding(done, current, firstNumber, sizeOf);
      done', current' := FinishOutput(done, current, firstNumber, sizeOf), [];
    }
  }

  /** DoCompactionWork. `full` says where the table being built has reached its size limit. */
  method DoCompactionWork(probe: BaseLevelProbe, stopper: StopProbe, input: seq<Entry>, smallestSnapshot: SequenceNumber,
                          full: seq<bool>, firstNumber: nat, sizeOf: seq<Entry> -> nat)
    returns (outs: seq<FileMeta>)
    requires Sorted(input) && stopper.Asked(input, 0)
    requires |full| == |input|
    requires smallestSnapshot < MAX_SEQUENCE
    requires probe.Valid() && forall k :: probe.PassedBelow(k)
    modifies probe.levelPtrs, stopper
    ensures ValidFiles(outs) && Disjoint(outs)
    ensures forall i :: 0 <= i < |outs| ==> outs[i].number == firstNumber + i
    ensures LevelEntries(outs) == Survivors(Elements(input), smallestSnapshot, BaseOf(probe.version, probe.level))
    ensures KeptByRule(input, LevelEntries(outs), smallestSnapshot, probe.version, probe.level)
    ensures var cuts := Cuts(Marks(stopper.grandparents, stopper.limit, input, |input|).0, full, firstNumber, sizeOf);
      var p := Outputs(input, |input|, smallestSnapshot, probe.version, probe.level, cuts); outs == Finished(p.0, p.1, cuts)
  {
    hide Passed, Useless;
    hide StopProbe.Asked, Marks, Outputs, Finished;
    ghost var cuts := Cuts(Marks(stopper.grandparents, stopper.limit, input, |input|).0, full, firstNumber, sizeOf);
    NoOutputs(input, smallestSnapshot, probe.version, probe.level, cuts);
    hide KeptByRule, Shadowed, Obsolete, Survivors, Building, AllBelow, Keeps, KeptUpTo, BaseLevel, ValidFiles, Disjoint, LevelEntries;
    ghost var isBase := BaseOf(probe.version, probe.level);
    NothingBuilt(firstNumber);
    KeptNone(input, smallestSnapshot, isBase);
    outs := [];
    var current: seq<Entry> := [];
    var currentUserKey: Option<UserKey> := None;
    var lastSequenceForKey: SequenceNumber := MAX_SEQUENCE;
    var n := 0;
    while n < |input|
      invariant 0 <= n <= |input|
      invariant probe.Valid() && (n < |input| ==> probe.PassedBelow(input[n].key.user))
      invariant currentUserKey == if n == 0 then None else Some(input[n - 1].key.user)
      invariant n > 0 ==> lastSequenceForKey == input[n - 1].key.sequence
      invariant Building(outs, current, firstNumber)
      invariant n < |input| ==> AllBelow(outs, current, input[n].key)
      invariant LevelEntries(outs) + Elements(current) == KeptUpTo(input, n, smallestSnapshot, isBase)
      invariant stopper.Asked(input, n)
      invariant (outs, current) == Outputs(input, n, smallestSnapshot, probe.version, probe.level, cuts)
    {
      var key := input[n].key;
      OutputsStep(input, n, smallestSnapshot, probe.version, probe.level, cuts);
      outs, current := StopBefore(stopper, input, n, outs, current, cuts, sizeOf, firstNumber);
      if currentUserKey != Some(key.user) {
        currentUserKey := Some(key.user);
        lastSequenceForKey := MAX_SEQUENCE;
      }
      var drop := ShouldDrop(probe, input, n, lastSequenceForKey, smallestSnapshot);
      lastSequenceForKey := key.sequence;
      KeptStep(input, n, smallestSnapshot, isBase);
      outs, current := KeepEntry(outs, current, input, n, drop, full[n], firstNumber, sizeOf);
      n := n + 1;
      assert n < |input| ==> key.user <= input[n].key.user;
    }
    LastFinished(outs, current, cuts);
    if current != [] {
      FinishKeepsBuilding(outs, current, firstNumber, sizeOf);
      outs := FinishOutput(outs, current, firstNumber, sizeOf);
    }
    AllBuilt(outs, firstNumber);
    KeptAll(input, smallestSnapshot, isBase);
    AllByNumbers(input, smallestSnapshot, probe.version, probe.level);
  }

  lemma AllByNumbers(input: seq<Entry>, ss: SequenceNumber, v: Version, level: nat)
    requires Sorted(input)
    ensures KeptByRule(input, Survivors(Elements(input), ss, BaseOf(v, level)), ss, v, level)
  {
    var kept := Survivors(Elements(input), ss, BaseOf(v, level));
    forall i | 0 <= i < |input|
      ensures input[i] in kept <==> !Passed(input, i, ss) && !Useless(input[i], ss, v, level)
    {
      KeepsByNumbers(input, i, ss, v, level);
      assert input[i] in Elements(input);
    }
  }

  lemma NothingBuilt(firstNumber: nat)
    ensures Building([], [], firstNumber) && LevelEntries([]) + Elements([]) == {}
    ensures forall bound :: AllBelow([], [], bound)
  {
  }

  lemma AllBuilt(outs: seq<FileMeta>, firstNumber: nat)
    requires Building(outs, [], firstNumber)
    ensures ValidFiles(outs) && Disjoint(outs)
    ensures forall i :: 0 <= i < |outs| ==> outs[i].number == firstNumber + i
    ensures LevelEntries(outs) + Elements([]) == LevelEntries(outs)
  {
  }

  lemma KeptNone(input: seq<Entry>, ss: SequenceNumber, isBase: UserKey -> bool)
    ensures KeptUpTo(input, 0, ss, isBase) == {}
  {
  }

  lemma KeptAll(input: seq<Entry>, ss: SequenceNumber, isBase: UserKey -> bool)
    ensures KeptUpTo(input, |input|, ss, isBase) == Survivors(Elements(input), ss, isBase)
  {
    assert input[..|input|] == input;
  }

  /** Add a kept entry to the current output, closing the output when it is full. */
  method AddEntry(done: seq<FileMeta>, current: seq<Entry>, e: Entry, isFull: bool, firstNumber: nat, sizeOf: seq<Entry> -> nat)
    returns (done': seq<FileMeta>, current': seq<Entry>)
    requires Building(done, current, firstNumber)
    requires AllBelow(done, current, e.key)
    ensures Building(done', current', firstNumber)
    ensures forall bound :: Less(e.key, bound) ==> AllBelow(done', current', bound)
    ensures LevelEntries(done') + Elements(current') == LevelEntries(done) + Elements(current) + {e}
    ensures (done', current') == if isFull then (FinishOutput(done, current + [e], firstNumber, sizeOf), []) else (done, current + [e])
  {
    AddKeepsBuilding(done, current, firstNumber, e);
    done', current' := done, current + [e];
    if isFull {
      FinishKeepsBuilding(done', current', firstNumber, sizeOf);
      done', current' := FinishOutput(done', current', firstNumber, sizeOf), [];
    }
  }

  /** Pass entry `n` on unless it is dropped. */
  method KeepEntry(done: seq<FileMeta>, current: seq<Entry>, input: seq<Entry>, n: nat, drop: bool, isFull: bool,
                   firstNumber: nat, sizeOf: seq<Entry> -> nat)
    returns (done': seq<FileMeta>, current': seq<Entry>)
    requires Sorted(input) && n < |input| && Building(done, current, firstNumber) && AllBelow(done, current, input[n].key)
    ensures Building(done', current', firstNumber) && (n + 1 < |input| ==> AllBelow(done', current', input[n + 1].key))
    ensures LevelEntries(done') + Elements(current') == LevelEntries(done) + Elements(current) + if drop then {} else {input[n]}
    ensures (done', current') ==
      if drop then (done, current)
      else if isFull then (FinishOutput(done, current + [input[n]], firstNumber, sizeOf), [])
      else (done, current + [input[n]])
  {
    hide Building, AllBelow, LevelEntries, Less;
    done', current' := done, current;
    if !drop {
      done', current' := AddEntry(done, current, input[n], isFull, firstNumber, sizeOf);
    } else if n + 1 < |input| {
      AllBelowTrans(done, current, input[n].key, input[n + 1].key);
    }
  }

  lemma KeptStep(input: seq<Entry>, n: nat, ss: SequenceNumber, isBase: UserKey -> bool)
    requires n < |input|
    ensures KeptUpTo(input, n + 1, ss, isBase)
         == KeptUpTo(input, n, ss, isBase) + if Keeps(Elements(input), input[n], ss, isBase) then {input[n]} else {}
  {
    assert input[..n + 1] == input[..n] + [input[n]];
  }
}
