/** What dropping entries in a compaction does to readers (db_impl.cc, rules of
    DoCompactionWork), on plain sets of entries. */
module CompactionViews {
  import opened Keys
  import opened Entries
  import opened Options

  /** Everything a compaction sees: its inputs, and the entries around them.
      `up`: memtables, shallower levels and files left behind in the compaction's level.
      `parents`: files of the next level that are not inputs.  `down`: deeper levels. */
  datatype Surroundings = Surroundings(up: set<Entry>, parents: set<Entry>, down: set<Entry>) {
    ghost function All(): set<Entry> {
      up + parents + down
    }
  }

  ghost predicate Around(w: Surroundings, I: set<Entry>) {
    && Newer(w.up, I)
    && Newer(I, w.down)
    && w.parents !! I
    && UniqueKeys(w.All() + I)
  }

  /** Rule (A): a newer input entry of the same user key is itself visible to every reader. */
  ghost predicate Shadowed(I: set<Entry>, x: Entry, smallestSnapshot: SequenceNumber) {
    exists y :: y in I && y.key.user == x.key.user && Less(y.key, x.key) && y.key.sequence <= smallestSnapshot
  }

  /** The second rule: a deletion marker no deeper level needs. */
  ghost predicate Obsolete(x: Entry, smallestSnapshot: SequenceNumber, isBase: UserKey -> bool) {
    x.key.kind.TypeDeletion? && x.key.sequence <= smallestSnapshot && isBase(x.key.user)
  }

  ghost function Survivors(I: set<Entry>, smallestSnapshot: SequenceNumber, isBase: UserKey -> bool): set<Entry> {
    set x | x in I && !Shadowed(I, x, smallestSnapshot) && !Obsolete(x, smallestSnapshot, isBase)
  }

  /** The guard holds for no key that a deeper level stores. */
  ghost predicate BaseIsSafe(w: Surroundings, isBase: UserKey -> bool) {
    forall x :: x in w.down ==> !isBase(x.key.user)
  }

  /** `r` is the newest entry of `k` in `P` that is older than `e`. */
  ghost predicate NextOlder(P: set<Entry>, e: Entry, r: Entry) {
    && r in P
    && r.key.user == e.key.user
    && Less(e.key, r.key)
    && forall x :: x in P && x.key.user == e.key.user && Less(e.key, x.key) ==> x == r || Less(r.key, x.key)
  }

  /** The case the rules do not foresee: what readers at the smallest snapshot see of `k` is a
      deletion marker among the inputs that is dropped as obsolete, while a next-level file
      outside the inputs still holds an older value of `k`. */
  ghost predicate Resurrects(w: Surroundings, I: set<Entry>, smallestSnapshot: SequenceNumber, isBase: UserKey -> bool, k: UserKey) {
    exists e, r ::
      && Newest(w.All() + I, k, smallestSnapshot, e)
      && e in I
      && Obsolete(e, smallestSnapshot, isBase)
      && NextOlder(w.parents, e, r)
      && r.key.kind.TypeValue?
  }

  ghost predicate ResurrectsNothing(w: Surroundings, I: set<Entry>, smallestSnapshot: SequenceNumber, isBase: UserKey -> bool) {
    forall k: UserKey :: !Resurrects(w, I, smallestSnapshot, isBase, k)
  }

  ghost predicate SameViews(A: set<Entry>, B: set<Entry>, smallestSnapshot: SequenceNumber) {
    forall k: UserKey, s: SequenceNumber :: s >= smallestSnapshot ==> View(A, k, s) == View(B, k, s)
  }

  /** A reader whose newest visible entry is dropped saw a deletion marker, and afterwards can
      only be shown an entry of a next-level file outside the inputs. */
  lemma DroppedNewest(w: Surroundings, I: set<Entry>, ss: SequenceNumber, isBase: UserKey -> bool,
                      k: UserKey, s: SequenceNumber, e: Entry)
    requires Around(w, I) && BaseIsSafe(w, isBase)
    requires s >= ss
    requires Newest(w.All() + I, k, s, e)
    requires e !in w.All() + Survivors(I, ss, isBase)
    ensures e in I && Obsolete(e, ss, isBase)
    ensures Newest(w.All() + I, k, ss, e)
    ensures forall x :: x in w.All() + Survivors(I, ss, isBase) && Visible(x, k, s) ==> x in w.parents && Less(e.key, x.key)
  {
    assert e in I;
    forall y | y in I && y.key.user == e.key.user && Less(y.key, e.key)
      ensures y.key.sequence > ss
    {
      assert y in w.All() + I;
      assert Visible(y, k, s) ==> y == e || Less(e.key, y.key);
    }
    forall x | x in w.All() + Survivors(I, ss, isBase) && Visible(x, k, s)
      ensures x in w.parents && Less(e.key, x.key)
    {
      assert x in w.All() + I;
      assert Less(e.key, x.key);
      if x in Survivors(I, ss, isBase) {
        assert Shadowed(I, x, ss);
      }
    }
  }

  /** Without a resurrecting key a compaction changes no reader's view. */
  lemma CompactionKeepsView(w: Surroundings, I: set<Entry>, ss: SequenceNumber, isBase: UserKey -> bool,
                            k: UserKey, s: SequenceNumber)
    requires Around(w, I) && BaseIsSafe(w, isBase)
    requires s >= ss
    requires !Resurrects(w, I, ss, isBase, k)
    ensures View(w.All() + I, k, s) == View(w.All() + Survivors(I, ss, isBase), k, s)
  {
    var A, B := w.All() + I, w.All() + Survivors(I, ss, isBase);
    assert B <= A;
    if NoneVisible(A, k, s) {
      assert NoneVisible(B, k, s);
      AnswerIsView(A, k, s, Absent);
      AnswerIsView(B, k, s, Absent);
    } else {
      NewestExists(A, k, s);
      var e :| Newest(A, k, s, e);
      ViewOfNewest(A, k, s, e);
      if e in B {
        assert Newest(B, k, s, e);
        ViewOfNewest(B, k, s, e);
      } else {
        DroppedNewest(w, I, ss, isBase, k, s, e);
        if exists x :: Newest(B, k, s, x) && x.key.kind.TypeValue? {
          var r :| Newest(B, k, s, r) && r.key.kind.TypeValue?;
          forall x | x in w.parents && x.key.user == k && Less(e.key, x.key)
            ensures x == r || Less(r.key, x.key)
          {
            assert x in B && Visible(x, k, s);
          }
          assert NextOlder(w.parents, e, r);
          assert false;
        }
      }
    }
  }

  /** A resurrecting key does change what readers at the smallest snapshot see. */
  lemma ResurrectionIsVisible(w: Surroundings, I: set<Entry>, ss: SequenceNumber, isBase: UserKey -> bool, k: UserKey)
    requires Around(w, I) && BaseIsSafe(w, isBase)
    requires Resurrects(w, I, ss, isBase, k)
    ensures View(w.All() + I, k, ss) == None
    ensures View(w.All() + Survivors(I, ss, isBase), k, ss) != None
  {
    var A, B := w.All() + I, w.All() + Survivors(I, ss, isBase);
    var e, r :|
      && Newest(A, k, ss, e)
      && e in I
      && Obsolete(e, ss, isBase)
      && NextOlder(w.parents, e, r)
      && r.key.kind.TypeValue?;
    ViewOfNewest(A, k, ss, e);
    assert e !in B;
    DroppedNewest(w, I, ss, isBase, k, ss, e);
    assert Visible(r, k, ss);
    assert Newest(B, k, ss, r);
    ViewOfNewest(B, k, ss, r);
  }

  /** Exactly when a compaction preserves every view at or after the smallest snapshot. */
  lemma CompactionKeepsViewsIff(w: Surroundings, I: set<Entry>, ss: SequenceNumber, isBase: UserKey -> bool)
    requires Around(w, I) && BaseIsSafe(w, isBase)
    ensures SameViews(w.All() + I, w.All() + Survivors(I, ss, isBase), ss) <==> ResurrectsNothing(w, I, ss, isBase)
  {
    forall k: UserKey | Resurrects(w, I, ss, isBase, k)
      ensures !SameViews(w.All() + I, w.All() + Survivors(I, ss, isBase), ss)
    {
      ResurrectionIsVisible(w, I, ss, isBase, k);
    }
    if ResurrectsNothing(w, I, ss, isBase) {
      forall k: UserKey, s: SequenceNumber | s >= ss
        ensures View(w.All() + I, k, s) == View(w.All() + Survivors(I, ss, isBase), k, s)
      {
        CompactionKeepsView(w, I, ss, isBase, k, s);
      }
    }
  }
}
