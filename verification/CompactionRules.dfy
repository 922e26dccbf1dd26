/** What a compaction step drops, in keys and sequence numbers alone (db_impl.cc, DoCompactionWork). */
module CompactionRules {
  import opened Keys
  import opened Entries
  import opened Versions
  import opened Selection
  import opened Picking
  import opened VersionBuilder
  import opened Store
  import opened CompactionViews
  import opened Install
  import opened CompactionWork
  import opened StoreSteps
  import opened Engine
  import opened EngineReads
  import opened EngineRuns

  /** Without equal sequence numbers, newer means a larger sequence number. */
  lemma SurvivorsByNumbers(I: set<Entry>, x: Entry, ss: SequenceNumber, v: Version, level: nat)
    requires SequenceUnique(I)
    ensures x in Survivors(I, ss, BaseOf(v, level)) <==>
      && x in I
      && (forall y :: y in I && y.key.user == x.key.user && y.key.sequence > x.key.sequence ==> y.key.sequence > ss)
      && !Useless(x, ss, v, level)
  {
    ObsoleteByNumbers(x, ss, v, level);
    hide Useless, Obsolete;
    if x in I {
      forall y | y in I && y.key.user == x.key.user
        ensures Less(y.key, x.key) <==> y.key.sequence > x.key.sequence
      {
      }
      if y :| y in I && y.key.user == x.key.user && y.key.sequence > x.key.sequence && y.key.sequence <= ss {
        assert Shadowed(I, x, ss);
      }
    }
  }

  /** An entry is in the outputs exactly when it is an input, no newer input of its key is at or
      below the smallest snapshot, and it is not a deletion at or below the smallest snapshot whose
      key no file two or more levels down spans. */
  lemma OutputsByNumbers(s: Db, c: Compaction, outs: seq<FileMeta>, v': Version, s': Db, x: Entry)
    requires Reached(s) && Next(s, Compact(c, outs, v'), s')
    ensures var ss := if s.snapshots == [] then s.lastSequence else s.snapshots[0];
      x in LevelEntries(outs) <==>
        && x in InputEntries(c)
        && (forall y :: y in InputEntries(c) && y.key.user == x.key.user && y.key.sequence > x.key.sequence ==> y.key.sequence > ss)
        && !(x.key.kind == TypeDeletion && x.key.sequence <= ss
             && forall l: nat, f :: c.level + 2 <= l < NUM_LEVELS && f in s.layers.version[l]
                  ==> !(f.smallest.user <= x.key.user <= f.largest.user))
  {
    InputsUnique(s, c, outs, v', s');
    StepOutputs(s, c, outs, v', s');
    hide Next, Reached, Survivors, LevelEntries, SequenceUnique;
    SurvivorsByNumbers(InputEntries(c), x, SmallestSnapshot(s), s.layers.version, c.level);
  }

  /** The same for all entries at once. */
  ghost predicate KeptByNumbers(I: set<Entry>, kept: set<Entry>, ss: SequenceNumber, v: Version, level: nat) {
    forall x :: x in kept <==>
      && x in I
      && (forall y :: y in I && y.key.user == x.key.user && y.key.sequence > x.key.sequence ==> y.key.sequence > ss)
      && !(x.key.kind == TypeDeletion && x.key.sequence <= ss
           && forall l: nat, f :: level + 2 <= l < |v| && f in v[l] ==> !(f.smallest.user <= x.key.user <= f.largest.user))
  }

  lemma AllByNumbers(I: set<Entry>, ss: SequenceNumber, v: Version, level: nat)
    requires SequenceUnique(I)
    ensures KeptByNumbers(I, Survivors(I, ss, BaseOf(v, level)), ss, v, level)
  {
    var kept := Survivors(I, ss, BaseOf(v, level));
    forall x
      ensures x in kept <==>
        && x in I
        && (forall y :: y in I && y.key.user == x.key.user && y.key.sequence > x.key.sequence ==> y.key.sequence > ss)
        && !(x.key.kind == TypeDeletion && x.key.sequence <= ss
             && forall l: nat, f :: level + 2 <= l < |v| && f in v[l] ==> !(f.smallest.user <= x.key.user <= f.largest.user))
    {
      SurvivorsByNumbers(I, x, ss, v, level);
    }
  }

  lemma StepOutputs(s: Db, c: Compaction, outs: seq<FileMeta>, v': Version, s': Db)
    requires Next(s, Compact(c, outs, v'), s')
    ensures LevelEntries(outs) == Survivors(InputEntries(c), SmallestSnapshot(s), BaseOf(s.layers.version, c.level))
    ensures |s.layers.version| == NUM_LEVELS && c.level + 1 < NUM_LEVELS && s'.layers == s.layers.(version := v')
  {
    hide LevelEntries, Survivors, Edited, Selectable, ParentsOf, LeftBehindNewer;
  }

  lemma InputsUnique(s: Db, c: Compaction, outs: seq<FileMeta>, v': Version, s': Db)
    requires Reached(s) && Next(s, Compact(c, outs, v'), s')
    ensures SequenceUnique(InputEntries(c))
  {
    ReachedInv(s);
    InputsApart(s, c, outs, v', s');
  }

  /** The inputs are stored, and what is stored besides is something else. */
  lemma InputsApart(s: Db, c: Compaction, outs: seq<FileMeta>, v': Version, s': Db)
    requires Inv(s) && Next(s, Compact(c, outs, v'), s')
    ensures |s.layers.version| == NUM_LEVELS && c.level + 1 < NUM_LEVELS
    ensures Stored(s.layers) == Surround(s.layers, c).All() + InputEntries(c) <= s.history
    ensures Surround(s.layers, c).All() !! InputEntries(c)
    ensures Stored(s'.layers) == Surround(s.layers, c).All() + LevelEntries(outs)
    ensures SequenceUnique(s.history)
  {
    assert PendingFresh(s) && LayersOk(s) && SequenceUnique(s.history) && Stored(s.layers) <= s.history by {
      DurableIsFresh(s);
    }
    StepParts(s, c, outs, v', s');
    hide Inv, Next, Stored, Surround, LevelEntries, InputEntries, SequenceUnique, UniqueKeys, Edited, WellChosen, GoodOutputs, InstallEdit,
         Around, Replaced, ValidLayers, DistinctNumbers;
    LayersApart(s, c, outs, v');
  }

  lemma StepParts(s: Db, c: Compaction, outs: seq<FileMeta>, v': Version, s': Db)
    requires PendingFresh(s) && Next(s, Compact(c, outs, v'), s')
    ensures WellChosen(s.layers.version, c) && GoodOutputs(s.layers.version, c, outs)
    ensures Edited(s.layers.version, InstallEdit(c, outs), v') && s'.layers == s.layers.(version := v')
  {
    hide PendingFresh, WellChosen, GoodOutputs, Edited;
    assert CompactStep(s, c, outs, v', s');
    FreshPending(s);
    CompactOutputsGood(s, c, outs, v', s');
  }

  lemma FreshPending(s: Db)
    requires PendingFresh(s)
    ensures forall l: nat, f :: 0 <= l < |s.layers.version| && f in s.layers.version[l] ==> f.number !in s.pending
  {
  }

  lemma LayersApart(s: Db, c: Compaction, outs: seq<FileMeta>, v': Version)
    requires LayersOk(s) && SequenceUnique(s.history) && Stored(s.layers) <= s.history
    requires WellChosen(s.layers.version, c) && Edited(s.layers.version, InstallEdit(c, outs), v')
    ensures |s.layers.version| == NUM_LEVELS && c.level + 1 < NUM_LEVELS
    ensures Stored(s.layers) == Surround(s.layers, c).All() + InputEntries(c)
    ensures Surround(s.layers, c).All() !! InputEntries(c)
    ensures Stored(s.layers.(version := v')) == Surround(s.layers, c).All() + LevelEntries(outs)
  {
    SequenceUniqueKeys(s.history);
    SurroundIsAround(s.layers, c);
    InstallMembers(s.layers.version, c, outs, v');
    ReplacedParts(s.layers.version, c, outs, v');
    hide Stored, Surround, LevelEntries, InputEntries, SequenceUnique, UniqueKeys, Edited, WellChosen, InstallEdit, Around, Replaced, ValidLayers,
         DistinctNumbers, Subset;
    StoredSplit(s.layers, c);
    StoredAfterInstall(s.layers, c, outs, v');
    AroundIsApart(Surround(s.layers, c), InputEntries(c));
  }

  lemma ReplacedParts(v: Version, c: Compaction, outs: seq<FileMeta>, v': Version)
    requires Replaced(v, c, outs, v') && WellChosen(v, c)
    ensures |v| == NUM_LEVELS && c.level + 1 < NUM_LEVELS && Subset(c.inputs0, v[c.level])
  {
  }

  lemma AroundIsApart(w: Surroundings, I: set<Entry>)
    requires Around(w, I)
    ensures w.All() !! I
  {
    forall x | x in w.All()
      ensures x !in I
    {
      assert x in w.up && x in I ==> Less(x.key, x.key);
      assert x in w.down && x in I ==> Less(x.key, x.key);
    }
  }

  /** A key whose newest entry is a deletion every reader sees, with all its entries among the inputs
      and no file further down spanning it, has no entry left. */
  lemma DeletedKeyVanishes(s: Db, c: Compaction, outs: seq<FileMeta>, v': Version, s': Db, e: Entry)
    requires Reached(s) && Next(s, Compact(c, outs, v'), s')
    requires e in Stored(s.layers) && e.key.kind == TypeDeletion
    requires e.key.sequence <= if s.snapshots == [] then s.lastSequence else s.snapshots[0]
    requires forall x :: x in Stored(s.layers) && x.key.user == e.key.user ==>
      x in InputEntries(c) && x.key.sequence <= e.key.sequence
    requires forall l: nat, f :: c.level + 2 <= l < |s.layers.version| && f in s.layers.version[l] ==>
      !(f.smallest.user <= e.key.user <= f.largest.user)
    ensures forall x :: x in Stored(s'.layers) ==> x.key.user != e.key.user
  {
    assert Useless(e, SmallestSnapshot(s), s.layers.version, c.level) by {
      StepOutputs(s, c, outs, v', s');
    }
    hide Next, Reached, Useless;
    ReachedInv(s);
    InputsUnique(s, c, outs, v', s');
    InputsApart(s, c, outs, v', s');
    StepOutputs(s, c, outs, v', s');
    var rest, ss := Surround(s.layers, c).All(), SmallestSnapshot(s);
    hide Inv, LevelEntries, InputEntries, Stored, SequenceUnique, Surround, Surroundings.All, Survivors, SmallestSnapshot;
    forall x | x in Stored(s'.layers)
      ensures x.key.user != e.key.user
    {
      if x in LevelEntries(outs) {
        KeyGone(InputEntries(c), ss, s.layers.version, c.level, e, x);
      } else {
        assert x in rest && x in Stored(s.layers) && x !in InputEntries(c);
      }
    }
  }

  lemma KeyGone(I: set<Entry>, ss: SequenceNumber, v: Version, level: nat, e: Entry, x: Entry)
    requires SequenceUnique(I) && e in I && x in Survivors(I, ss, BaseOf(v, level)) && Useless(e, ss, v, level)
    requires forall y :: y in I && y.key.user == e.key.user ==> y.key.sequence <= e.key.sequence
    ensures x.key.user != e.key.user
  {
    SurvivorsByNumbers(I, x, ss, v, level);
    assert e.key.sequence <= ss;
    hide Useless, Survivors;
    if x.key.user == e.key.user && x.key.sequence == e.key.sequence {
      SameEntry(I, x, e);
    }
  }

  lemma SameEntry(H: set<Entry>, x: Entry, e: Entry)
    requires SequenceUnique(H) && x in H && e in H && x.key.sequence == e.key.sequence
    ensures x == e
  {
  }
}
