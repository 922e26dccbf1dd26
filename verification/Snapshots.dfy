/** The list of live snapshots, oldest first (snapshot.h). */
module Snapshots {
  import opened Keys

  class SnapshotImpl {
    var prev: SnapshotImpl?
    var next: SnapshotImpl?
    const sequence: SequenceNumber

    constructor (sequence: SequenceNumber)
      ensures this.sequence == sequence
    {
      this.sequence := sequence;
      prev, next := null, null;
    }
  }

  ghost predicate Linked(a: SnapshotImpl, b: SnapshotImpl)
    reads a, b
  {
    a.next == b && b.prev == a
  }

  /** The links go around `around`, which starts and ends at the same node. */
  ghost predicate Circular(around: seq<SnapshotImpl>)
    reads around
  {
    && |around| >= 2 && around[0] == around[|around| - 1]
    && (forall i, j :: 0 <= i < j < |around| - 1 ==> around[i] != around[j])
    && forall i :: 0 <= i < |around| - 1 ==> Linked(around[i], around[i + 1])
  }

  /** Snapshots are taken in the order of their sequence numbers. */
  ghost predicate OldestFirst(ns: seq<SnapshotImpl>) {
    forall i, j :: 0 <= i < j < |ns| ==> ns[i].sequence <= ns[j].sequence
  }

  /** A circular list through a dummy head. */
  class SnapshotList {
    const head: SnapshotImpl
    /** Once around, from the head back to it. */
    ghost var around: seq<SnapshotImpl>

    ghost predicate Valid()
      reads this, around
    {
      Circular(around) && around[0] == head && OldestFirst(Nodes())
    }

    ghost function Nodes(): (ns: seq<SnapshotImpl>)
      reads this
    {
      if |around| < 2 then [] else around[1..|around| - 1]
    }

    constructor ()
      ensures Valid() && fresh(around) && Nodes() == []
    {
      var h := new SnapshotImpl(0);
      head := h;
      around := [h, h];
      new;
      head.prev, head.next := head, head;
    }

    method Empty() returns (r: bool)
      requires Valid()
      ensures r <==> Nodes() == []
    {
      assert Linked(around[0], around[1]);
      r := head.next == head;
    }

    /** The snapshot taken first has the smallest sequence number of all. */
    method Oldest() returns (s: SnapshotImpl)
      requires Valid() && Nodes() != []
      ensures s == Nodes()[0] && forall n :: n in Nodes() ==> s.sequence <= n.sequence
    {
      assert Linked(around[0], around[1]);
      s := head.next;
    }

    method Newest() returns (s: SnapshotImpl)
      requires Valid() && Nodes() != []
      ensures s == Nodes()[|Nodes()| - 1] && forall n :: n in Nodes() ==> n.sequence <= s.sequence
    {
      assert Linked(around[|around| - 2], around[|around| - 1]);
      s := head.prev;
    }

    /** New: append before the head. */
    method New(sequence: SequenceNumber) returns (snapshot: SnapshotImpl)
      requires Valid() && forall n :: n in Nodes() ==> n.sequence <= sequence
      modifies this, around
      ensures Valid() && fresh(snapshot) && snapshot.sequence == sequence
      ensures Nodes() == old(Nodes()) + [snapshot]
    {
      ghost var n, was := |around| - 1, around;
      snapshot := new SnapshotImpl(sequence);
      assert Linked(was[n - 1], was[n]);
      snapshot.next := head;
      snapshot.prev := head.prev;
      snapshot.prev.next := snapshot;
      snapshot.next.prev := snapshot;
      around := was[..n] + [snapshot, head];
      assert Nodes() == was[1..n] + [snapshot];
      assert old(Nodes()) == was[1..n];
      forall i | 0 <= i < n - 1
        ensures Linked(around[i], around[i + 1])
      {
        assert old(Linked(was[i], was[i + 1]));
      }
    }

    /** Delete: the neighbours of the snapshot are linked to each other. */
    method Delete(snapshot: SnapshotImpl, ghost k: nat)
      requires Valid() && k < |Nodes()| && Nodes()[k] == snapshot
      modifies this, around
      ensures Valid() && Nodes() == old(Nodes()[..k] + Nodes()[k + 1..])
    {
      hide Circular, OldestFirst;
      ghost var was := around;
      InCircle(was);
      Unlink(snapshot, was, k + 1);
      around := was[..k + 1] + was[k + 2..];
      assert Nodes() == old(Nodes()[..k] + Nodes()[k + 1..]);
      Removed(old(Nodes()), k);
    }
  }

  lemma Removed(ns: seq<SnapshotImpl>, k: nat)
    requires OldestFirst(ns) && k < |ns|
    ensures OldestFirst(ns[..k] + ns[k + 1..])
  {
  }

  lemma InCircle(around: seq<SnapshotImpl>)
    requires Circular(around)
    ensures |around| >= 2 && forall i :: 0 <= i < |around| - 1 ==> Linked(around[i], around[i + 1])
  {
  }

  method Unlink(snapshot: SnapshotImpl, ghost was: seq<SnapshotImpl>, ghost m: nat)
    requires Circular(was) && 0 < m < |was| - 1 && was[m] == snapshot
    modifies was
    ensures Circular(was[..m] + was[m + 1..])
  {
    ghost var now, p, q := was[..m] + was[m + 1..], was[m - 1], was[m + 1];
    assert Linked(p, was[m]) && Linked(was[m], q);
    snapshot.prev.next := snapshot.next;
    snapshot.next.prev := snapshot.prev;
    forall i | 0 <= i < |now| - 1
      ensures Linked(now[i], now[i + 1])
    {
      if i < m - 1 {
        assert now[i] == was[i] != p && now[i + 1] == was[i + 1] != q && old(Linked(was[i], was[i + 1]));
      } else if i > m - 1 {
        assert now[i] == was[i + 1] && now[i + 1] == was[i + 2] && old(Linked(was[i + 1], was[i + 2]));
        assert was[i + 1] != p && was[i + 2] != q;
      } else {
        assert now[i] == p && now[i + 1] == q;
      }
    }
  }
}
