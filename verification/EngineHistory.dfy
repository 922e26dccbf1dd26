/** The history of a run, read at any sequence number, is what its writes up to there leave. */
module EngineHistory {
  import opened Keys
  import opened Entries
  import opened Store
  import opened Engine
  import opened EngineReads
  import EngineDurable
  import EngineRecovery
  import opened EngineRuns
  import opened Options

  /** What the last write of `k` leaves: its value, nothing for a deletion, `before` without one. */
  function LastWrite(ops: seq<Op>, k: UserKey, before: Option<Bytes>): Option<Bytes> {
    if ops == [] then before
    else
      var op := ops[|ops| - 1];
      if op.user != k then LastWrite(ops[..|ops| - 1], k, before)
      else if op.kind == TypeValue then Some(op.value) else None
  }

  lemma OneEntryMore(H: set<Entry>, last: SequenceNumber, e: Entry, k: UserKey)
    requires (forall x :: x in H ==> x.key.sequence <= last) && e.key.sequence == last + 1
    ensures View(H + {e}, k, last + 1)
      == if e.key.user != k then View(H, k, last) else if e.key.kind == TypeValue then Some(e.value) else None
  {
    var all := H + {e};
    if e.key.user == k {
      assert e in all && Visible(e, k, last + 1);
      assert Newest(all, k, last + 1, e);
      ViewOfNewest(all, k, last + 1, e);
    } else {
      SameVisible(all, H, k, last + 1, last);
    }
  }

  /** Writing operations under the next sequence numbers shows the last write of each key. */
  lemma {:induction false} StampView(H: set<Entry>, last: nat, ops: seq<Op>, k: UserKey)
    requires last + |ops| < MAX_SEQUENCE && forall x :: x in H ==> x.key.sequence <= last
    ensures View(H + Elements(Stamp(ops, last + 1)), k, last + |ops|) == LastWrite(ops, k, View(H, k, last))
    decreases |ops|
  {
    hide View, Stamp, Elements;
    if ops == [] {
      NothingStamped(H, last);
    } else {
      StampView(H, last, ops[..|ops| - 1], k);
      LastStamped(H, last, ops, k);
    }
  }

  lemma NothingStamped(H: set<Entry>, last: nat)
    requires last < MAX_SEQUENCE
    ensures H + Elements(Stamp([], last + 1)) == H
  {
  }

  lemma LastStamped(H: set<Entry>, last: nat, ops: seq<Op>, k: UserKey)
    requires ops != [] && last + |ops| < MAX_SEQUENCE && forall x :: x in H ==> x.key.sequence <= last
    ensures var n := |ops| - 1; var op := ops[n];
      View(H + Elements(Stamp(ops, last + 1)), k, last + |ops|)
        == if op.user != k then View(H + Elements(Stamp(ops[..n], last + 1)), k, last + n)
           else if op.kind == TypeValue then Some(op.value) else None
  {
    var n := |ops| - 1;
    hide View, Stamp, Elements;
    StampLast(ops, last + 1);
    StampBounded(H, last, ops[..n]);
    var before, all, e := Elements(Stamp(ops[..n], last + 1)), Elements(Stamp(ops, last + 1)), Stamp(ops, last + 1)[n];
    assert (H + before) + {e} == H + all;
    OneEntryMore(H + before, last + n, e, k);
  }

  lemma StampBounded(H: set<Entry>, last: nat, ops: seq<Op>)
    requires last + |ops| < MAX_SEQUENCE && forall x :: x in H ==> x.key.sequence <= last
    ensures forall x :: x in H + Elements(Stamp(ops, last + 1)) ==> x.key.sequence <= last + |ops|
  {
    StampFacts(ops, last + 1);
  }

  lemma StampLast(ops: seq<Op>, first: nat)
    requires ops != [] && first + |ops| <= MAX_SEQUENCE
    ensures var n := |ops| - 1;
      && Stamp(ops, first) == Stamp(ops[..n], first) + [Entry(InternalKey(ops[n].user, first + n, ops[n].kind), ops[n].value)]
      && Elements(Stamp(ops, first)) == Elements(Stamp(ops[..n], first)) + {Stamp(ops, first)[n]}
      && |Stamp(ops, first)| == |ops|
  {
    var n := |ops| - 1;
    var a, b := Stamp(ops, first), Stamp(ops[..n], first);
    assert a == b + [a[n]];
  }

  /** A write changes what is shown of each key as its operations say. */
  lemma WriteShows(s: Db, ops: seq<Op>, s': Db, k: UserKey)
    requires HistoryOk(s) && Next(s, Write(ops), s')
    ensures View(s'.history, k, s'.lastSequence) == LastWrite(ops, k, View(s.history, k, s.lastSequence))
  {
    hide Stamp, InsertAll, LastWrite, View, Elements;
    StampView(s.history, s.lastSequence, ops, k);
  }

  // ----- runs -----

  /** All operations written, in order. */
  function Written(steps: seq<Step>): seq<Op> {
    if steps == [] then []
    else
      var n := |steps| - 1;
      Written(steps[..n]) + if steps[n].Write? then steps[n].ops else []
  }

  lemma OtherStepsWriteNothing(s: Db, step: Step, s': Db)
    requires Inv(s) && Next(s, step, s') && !step.Write?
    ensures s'.history == s.history && s'.lastSequence == s.lastSequence
  {
    if step.CrashAndRecover? {
      CrashKeepsSequence(s, step, s');
    }
    hide LayersOk, HistoryOk, SnapshotsOk, EngineDurable.Durable;
  }

  lemma CrashKeepsSequence(s: Db, step: Step, s': Db)
    requires Inv(s) && Next(s, step, s') && step.CrashAndRecover?
    ensures s'.history == s.history && s'.lastSequence == s.lastSequence
  {
    EngineRecovery.RecoverKeeps(s, step.base, step.segments, step.files, step.snapshotEdit, step.version, step.newLog, s');
  }

  lemma {:induction false} RunIsItsWrites(states: seq<Db>, steps: seq<Step>, i: nat)
    requires Run(states, steps) && i < |states|
    ensures var ops := Written(steps[..i]);
      states[i].lastSequence == |ops| < MAX_SEQUENCE && states[i].history == Elements(Stamp(ops, 1))
  {
    hide Inv, Next, Stamp, Elements;
    if i > 0 {
      var n := i - 1;
      RunIsItsWrites(states, steps, n);
      RunKeepsInv(states, steps, n);
      RunKeepsInv(states, steps, i);
      assert steps[..i][..n] == steps[..n];
      StepIsItsWrites(states[n], Written(steps[..n]), steps[n], states[i]);
    } else {
      NothingStamped({}, 0);
    }
  }

  lemma StepIsItsWrites(s: Db, ops: seq<Op>, step: Step, s': Db)
    requires Inv(s) && Inv(s') && Next(s, step, s')
    requires s.lastSequence == |ops| < MAX_SEQUENCE && s.history == Elements(Stamp(ops, 1))
    ensures var all := ops + if step.Write? then step.ops else [];
      s'.lastSequence == |all| < MAX_SEQUENCE && s'.history == Elements(Stamp(all, 1))
  {
    if step.Write? {
      hide Inv, Stamp, Elements, InsertAll;
      StampTwice(ops, step.ops);
    } else {
      hide Inv, Next, Stamp, Elements;
      OtherStepsWriteNothing(s, step, s');
      assert ops + [] == ops;
    }
  }

  lemma StampTwice(a: seq<Op>, b: seq<Op>)
    requires |a| + |b| < MAX_SEQUENCE
    ensures Elements(Stamp(a + b, 1)) == Elements(Stamp(a, 1)) + Elements(Stamp(b, |a| + 1))
  {
    assert Stamp(a + b, 1) == Stamp(a, 1) + Stamp(b, |a| + 1);
  }

  /** The history of a run at sequence number `p` is what the first `p` operations leave. */
  lemma HistoryIsLastWrite(states: seq<Db>, steps: seq<Step>, i: nat, k: UserKey, p: SequenceNumber)
    requires Run(states, steps) && i < |states| && p <= states[i].lastSequence
    ensures p <= |Written(steps[..i])|
    ensures View(states[i].history, k, p) == LastWrite(Written(steps[..i])[..p], k, None)
  {
    RunIsItsWrites(states, steps, i);
    hide Run, Written, LastWrite, View;
    StampPrefixView(Written(steps[..i]), k, p);
  }

  lemma StampPrefixView(ops: seq<Op>, k: UserKey, p: nat)
    requires p <= |ops| < MAX_SEQUENCE
    ensures View(Elements(Stamp(ops, 1)), k, p) == LastWrite(ops[..p], k, None)
  {
    hide LastWrite, View;
    StampTwice(ops[..p], ops[p..]);
    assert ops[..p] + ops[p..] == ops;
    var early, late := Elements(Stamp(ops[..p], 1)), Elements(Stamp(ops[p..], p + 1));
    StampFacts(ops[p..], p + 1);
    StampFacts(ops[..p], 1);
    hide Stamp;
    SameVisible(early + late, early, k, p, p);
    StampView({}, 0, ops[..p], k);
    assert {} + early == early;
    EmptyView(k);
  }

  lemma EmptyView(k: UserKey)
    ensures View({}, k, 0) == None
  {
  }

  /** In a careful run every reader gets, at its snapshot `p`, what the first `p` operations leave. */
  lemma ReaderSeesLastWrite(states: seq<Db>, steps: seq<Step>, i: nat, k: UserKey, p: SequenceNumber)
    requires CarefulRun(states, steps) && i < |states|
    requires p == states[i].lastSequence || p in states[i].snapshots
    ensures p <= |Written(steps[..i])|
    ensures View(Stored(states[i].layers), k, p) == LastWrite(Written(steps[..i])[..p], k, None)
  {
    RunReads(states, steps, i);
    SnapshotReadable(states[i], p);
    HistoryIsLastWrite(states, steps, i, k, p);
  }

  lemma SnapshotReadable(s: Db, p: SequenceNumber)
    requires Inv(s) && (p == s.lastSequence || p in s.snapshots)
    ensures SmallestSnapshot(s) <= p <= s.lastSequence
  {
    hide LayersOk, HistoryOk, EngineDurable.Durable;
  }
}
