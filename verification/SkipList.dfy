/** The skip list under a memtable: towers of links, each level a sorted sublist of the level
    below (skiplist.h, memtable.cc). */
module SkipLists {
  import opened Keys
  import opened Entries
  import opened Versions
  import opened Store

  const MAX_HEIGHT: nat := 12

  class Node {
    const entry: Entry
    var next: seq<Node?>

    constructor (entry: Entry, height: nat)
      ensures this.entry == entry && |next| == height && forall i :: 0 <= i < height ==> next[i] == null
    {
      this.entry := entry;
      next := seq(height, _ => null);
    }
  }

  /** First index from `p` on whose tower is linked above level `l`. */
  function Succ(linked: seq<nat>, p: nat, l: nat): (q: nat)
    requires p <= |linked|
    ensures p <= q <= |linked|
    ensures q < |linked| ==> linked[q] > l
    ensures forall k :: p <= k < q ==> linked[k] <= l
    decreases |linked| - p
  {
    if p == |linked| || linked[p] > l then p else Succ(linked, p + 1, l)
  }

  lemma SuccIs(linked: seq<nat>, p: nat, l: nat, q: nat)
    requires p <= q <= |linked|
    requires q < |linked| ==> linked[q] > l
    requires forall k :: p <= k < q ==> linked[k] <= l
    ensures Succ(linked, p, l) == q
  {
    var r := Succ(linked, p, l);
    assert r == q;
  }

  function NodeAt(nodes: seq<Node>, p: nat): Node? {
    if p < |nodes| then nodes[p] else null
  }

  // ----- links as a value -----

  /** The tower at `p` is linked at level `l`. Tower 0 is the head's, tower `p + 1` that of node `p`. */
  predicate Linked(linked: seq<nat>, p: nat, l: nat) {
    p <= |linked| && l < MAX_HEIGHT && (p > 0 ==> linked[p - 1] > l)
  }

  ghost predicate LinkOk(tower: seq<Node?>, nodes: seq<Node>, linked: seq<nat>, p: nat, l: nat) {
    p <= |linked| && l < |tower| && tower[l] == NodeAt(nodes, Succ(linked, p, l))
  }

  /** The tower at `p` is the last one linked at level `l` before position `i`. */
  ghost predicate Leaves(linked: seq<nat>, p: nat, l: nat, i: nat) {
    Linked(linked, p, l) && p <= i <= Succ(linked, p, l)
  }

  /** Every link of a linked level leads to the next node of that level. */
  ghost predicate LinksOk(towers: seq<seq<Node?>>, nodes: seq<Node>, linked: seq<nat>) {
    && |nodes| == |linked|
    && |towers| == |nodes| + 1
    && forall p: nat, l: nat :: Linked(linked, p, l) ==> LinkOk(towers[p], nodes, linked, p, l)
  }

  /** Successors after a tower of height one enters at `i`. */
  lemma SuccInsert(linked: seq<nat>, i: nat, p: nat, l: nat)
    requires i <= |linked| && p <= |linked| + 1
    ensures var linked' := linked[..i] + [1] + linked[i..];
      if p <= i then
        var q := Succ(linked, p, l);
        Succ(linked', p, l) == if q < i then q else if l == 0 then i else q + 1
      else Succ(linked', p, l) == Succ(linked, p - 1, l) + 1
  {
    var linked' := linked[..i] + [1] + linked[i..];
    var q := if p <= i then Succ(linked, p, l) else Succ(linked, p - 1, l);
    SuccIs(linked', p, l, if p <= i && q < i then q else if p <= i && l == 0 then i else q + 1);
  }

  lemma InsertLinks(towers: seq<seq<Node?>>, nodes: seq<Node>, linked: seq<nat>, i: nat, node: Node, own: seq<Node?>)
    requires LinksOk(towers, nodes, linked) && i <= |nodes|
    requires forall k :: 0 <= k < |linked| ==> linked[k] >= 1
    requires |towers[i]| > 0 && |own| > 0 && own[0] == towers[i][0]
    ensures LinksOk(towers[..i] + [towers[i][0 := node]] + [own] + towers[i + 1..],
                    nodes[..i] + [node] + nodes[i..], linked[..i] + [1] + linked[i..])
  {
    var towers' := towers[..i] + [towers[i][0 := node]] + [own] + towers[i + 1..];
    var nodes', linked' := nodes[..i] + [node] + nodes[i..], linked[..i] + [1] + linked[i..];
    forall p: nat, l: nat | Linked(linked', p, l)
      ensures LinkOk(towers'[p], nodes', linked', p, l)
    {
      SuccInsert(linked, i, p, l);
      if p <= i {
        InsertBehind(towers, nodes, linked, i, node, p, l);
        assert towers'[p] == if p == i then towers[i][0 := node] else towers[p];
      } else if p == i + 1 {
        SuccIs(linked, i, 0, i);
        assert Linked(linked, i, 0) && LinkOk(towers[i], nodes, linked, i, 0);
      } else {
        assert towers'[p] == towers[p - 1];
        assert Linked(linked, p - 1, l) && LinkOk(towers[p - 1], nodes, linked, p - 1, l);
      }
    }
  }

  /** A tower at or before the new node's position. */
  lemma InsertBehind(towers: seq<seq<Node?>>, nodes: seq<Node>, linked: seq<nat>, i: nat, node: Node, p: nat, l: nat)
    requires LinksOk(towers, nodes, linked) && p <= i <= |nodes|
    requires forall k :: 0 <= k < |linked| ==> linked[k] >= 1
    requires |towers[i]| > 0
    requires Linked(linked[..i] + [1] + linked[i..], p, l)
    ensures LinkOk(if p == i then towers[i][0 := node] else towers[p], nodes[..i] + [node] + nodes[i..], linked[..i] + [1] + linked[i..], p, l)
  {
    SuccInsert(linked, i, p, l);
    var linked' := linked[..i] + [1] + linked[i..];
    assert p > 0 ==> linked'[p - 1] == linked[p - 1];
    assert Linked(linked, p, l) && LinkOk(towers[p], nodes, linked, p, l);
    SuccIs(linked, p, 0, p);
  }

  /** Successors after the tower at `i`, linked up to level `h`, is linked at level `h` too. */
  lemma SuccRaise(linked: seq<nat>, i: nat, h: nat, p: nat, l: nat)
    requires i < |linked| && linked[i] == h && p <= |linked|
    ensures Succ(linked[i := h + 1], p, l) == if l == h && p <= i <= Succ(linked, p, l) then i else Succ(linked, p, l)
  {
    var q := Succ(linked, p, l);
    SuccIs(linked[i := h + 1], p, l, if l == h && p <= i <= q then i else q);
  }

  lemma RaiseLinks(towers: seq<seq<Node?>>, nodes: seq<Node>, linked: seq<nat>, i: nat, h: nat, p: nat)
    requires LinksOk(towers, nodes, linked)
    requires i < |nodes| && linked[i] == h < MAX_HEIGHT && h < |towers[i + 1]|
    requires p <= i < Succ(linked, p, h) && (p > 0 ==> linked[p - 1] > h)
    ensures h < |towers[p]|
    ensures LinksOk(towers[p := towers[p][h := nodes[i]]][i + 1 := towers[i + 1][h := towers[p][h]]], nodes, linked[i := h + 1])
  {
    assert Linked(linked, p, h) && LinkOk(towers[p], nodes, linked, p, h);
    var towers' := towers[p := towers[p][h := nodes[i]]][i + 1 := towers[i + 1][h := towers[p][h]]];
    var linked' := linked[i := h + 1];
    forall r: nat, l: nat | Linked(linked', r, l)
      ensures LinkOk(towers'[r], nodes, linked', r, l)
    {
      SuccRaise(linked, i, h, r, l);
      if r == i + 1 && l == h {
        SuccIs(linked, i + 1, h, Succ(linked, p, h));
      } else {
        assert Linked(linked, r, l) && LinkOk(towers[r], nodes, linked, r, l);
        if l == h && r <= i <= Succ(linked, r, l) {
          OneBefore(linked, i, h, p, r);
        }
        assert r == p && l == h ==> r <= i <= Succ(linked, r, l);
      }
    }
  }

  /** Only one node of a level comes last before a position. */
  lemma OneBefore(linked: seq<nat>, i: nat, l: nat, p: nat, r: nat)
    requires p <= i < |linked| && r <= i
    requires i <= Succ(linked, p, l) && i <= Succ(linked, r, l)
    requires (p > 0 ==> linked[p - 1] > l) && (r > 0 ==> linked[r - 1] > l)
    ensures p == r
  {
  }

  function EntriesOf(nodes: seq<Node>): (es: seq<Entry>)
    ensures |es| == |nodes|
  {
    seq(|nodes|, i requires 0 <= i < |nodes| => nodes[i].entry)
  }

  ghost function NextsOf(nodes: seq<Node>): (t: seq<seq<Node?>>)
    reads nodes
    ensures |t| == |nodes| && forall p :: 0 <= p < |nodes| ==> t[p] == nodes[p].next
    decreases |nodes|
  {
    if nodes == [] then [] else NextsOf(nodes[..|nodes| - 1]) + [nodes[|nodes| - 1].next]
  }

  class SkipList {
    const head: Node
    var maxHeight: nat

    /** The nodes of the bottom level in order, and how many levels of each are linked. */
    ghost var nodes: seq<Node>
    ghost var linked: seq<nat>

    ghost predicate Shape()
      reads this, head, nodes
    {
      && |nodes| == |linked|
      && |head.next| == MAX_HEIGHT
      && 1 <= maxHeight <= MAX_HEIGHT
      && head !in nodes
      && (forall p, q :: 0 <= p < q < |nodes| ==> nodes[p] != nodes[q])
      && forall p :: 0 <= p < |nodes| ==> 1 <= linked[p] <= |nodes[p].next| && linked[p] <= maxHeight
    }

    /** Every link leads to the next node of its level. */
    ghost predicate Links()
      reads this, head, nodes
    {
      LinksOk(Towers(), nodes, linked)
    }

    ghost function Towers(): (t: seq<seq<Node?>>)
      reads this, head, nodes
      ensures |t| == |nodes| + 1
      ensures forall p :: 0 <= p <= |nodes| ==> t[p] == Before(p).next
    {
      [head.next] + NextsOf(nodes)
    }

    ghost function Contents(): (es: seq<Entry>)
      reads this
      ensures |es| == |nodes|
    {
      EntriesOf(nodes)
    }

    ghost predicate Valid()
      reads this, head, nodes
    {
      Shape() && Links() && Sorted(Contents())
    }

    constructor ()
      ensures Valid() && nodes == [] && Contents() == []
      ensures fresh(head)
    {
      head := new Node(Entry(InternalKey(0.0, 0, TypeDeletion), ""), MAX_HEIGHT);
      maxHeight := 1;
      nodes, linked := [], [];
    }

    /** The node at index `p - 1`; index -1 is the head. */
    ghost function Before(p: nat): Node
      requires p <= |nodes|
      reads this
    {
      if p == 0 then head else nodes[p - 1]
    }

    /** The node before position `p` is linked at level `l`. */
    ghost predicate OnLevel(p: nat, l: nat)
      reads this
      requires |nodes| == |linked|
    {
      Linked(linked, p, l)
    }

    lemma NextOf(p: nat, l: nat)
      requires Valid() && OnLevel(p, l)
      ensures l < |Before(p).next| && Before(p).next[l] == NodeAt(nodes, Succ(linked, p, l))
    {
    }

    /** The nodes `prev` are where a search for position `i` leaves the levels: on each level the
        last node before it. `at` gives their positions. */
    ghost predicate Left(prev: seq<Node>, at: seq<nat>, i: nat, lo: nat)
      reads this
    {
      && |prev| == |at|
      && forall l: nat :: lo <= l < |prev| ==> Leaves(linked, at[l], l, i) && at[l] <= |nodes| && prev[l] == Before(at[l])
    }

    lemma NothingLeft(prev: seq<Node>, at: seq<nat>, i: nat)
      requires |prev| == |at|
      ensures Left(prev, at, i, |prev|)
    {
    }

    /** The search leaves one more level. */
    lemma LeftHere(prev: seq<Node>, at: seq<nat>, i: nat, l: nat, p: nat)
      requires Left(prev, at, i, l + 1) && l < |prev| && p <= |nodes| && Leaves(linked, p, l, i)
      ensures Left(prev[l := Before(p)], at[l := p], i, l)
    {
    }

    lemma EntryBefore(p: nat, key: InternalKey)
      requires Valid() && p < |nodes|
      ensures Less(nodes[p].entry.key, key) <==> p < SeekIndex(Contents(), key)
    {
      var i := SeekIndex(Contents(), key);
      assert Contents()[p] == nodes[p].entry;
      if i < p {
        assert Less(Contents()[i].key, Contents()[p].key);
      }
    }

    /** On the bottom level nothing is skipped. */
    lemma BottomNext(p: nat, key: InternalKey)
      requires Valid() && OnLevel(p, 0) && p <= SeekIndex(Contents(), key) <= Succ(linked, p, 0)
      ensures SeekIndex(Contents(), key) == p == Succ(linked, p, 0)
    {
      BottomSucc(p);
    }

    lemma BottomSucc(p: nat)
      requires Shape() && p <= |nodes|
      ensures Succ(linked, p, 0) == p
    {
      SuccIs(linked, p, 0, p);
    }

    /** One step of a search that stands behind position `p` on a level: either the next node of
        the level comes before the key too, or the key lies before that node. */
    lemma SearchStep(p: nat, level: nat, key: InternalKey)
      requires Valid() && OnLevel(p, level) && p <= SeekIndex(Contents(), key)
      ensures level < |Before(p).next|
      ensures var next, q := Before(p).next[level], Succ(linked, p, level);
        if next != null && Less(next.entry.key, key) then
          q < |nodes| && next == nodes[q] && OnLevel(q + 1, level) && next == Before(q + 1) && q + 1 <= SeekIndex(Contents(), key)
        else
          && Leaves(linked, p, level, SeekIndex(Contents(), key))
          && (level > 0 ==> OnLevel(p, level - 1))
          && (level == 0 ==> p == SeekIndex(Contents(), key) && next == NodeAt(nodes, p))
    {
      NextOf(p, level);
      var next, q := Before(p).next[level], Succ(linked, p, level);
      if q < |nodes| {
        EntryBefore(q, key);
      }
      if !(next != null && Less(next.entry.key, key)) && level == 0 {
        BottomNext(p, key);
      }
    }

    /** FindGreaterOrEqual: the first node at or after `key`, and the node before it on every level. */
    method FindGreaterOrEqual(key: InternalKey) returns (r: Node?, prev: seq<Node>, ghost at: seq<nat>)
      requires Valid()
      ensures r == NodeAt(nodes, SeekIndex(Contents(), key))
      ensures |prev| == maxHeight && Left(prev, at, SeekIndex(Contents(), key), 0)
    {
      hide SkipList.Valid, SkipList.Left, SkipList.Contents, Sorted, Succ, SeekIndex, Leaves, EntriesOf, NextsOf, LinksOk;
      ShapeHolds();
      ghost var goal := SeekIndex(Contents(), key);
      var x := head;
      ghost var p: nat := 0;
      var level := maxHeight - 1;
      prev := seq(maxHeight, _ => head);
      at := seq(maxHeight, _ => 0);
      NothingLeft(prev, at, goal);
      while true
        invariant 0 <= level < maxHeight && |prev| == |at| == maxHeight
        invariant OnLevel(p, level) && x == Before(p) && p <= goal
        invariant Left(prev, at, goal, level + 1)
        decreases level, |nodes| - p
      {
        SearchStep(p, level, key);
        var next := x.next[level];
        if next != null && Less(next.entry.key, key) {
          x := next;
          p := Succ(linked, p, level) + 1;
        } else {
          LeftHere(prev, at, goal, level, p);
          prev := prev[level := x];
          at := at[level := p];
          if level == 0 {
            return next, prev, at;
          }
          level := level - 1;
        }
      }
    }

    /** FindLessThan: the last node before `key`, or the head. */
    method FindLessThan(key: InternalKey) returns (x: Node)
      requires Valid()
      ensures x == Before(SeekIndex(Contents(), key))
    {
      hide SkipList.Links, Sorted, Succ, SeekIndex, Leaves;
      x := head;
      ghost var p: nat := 0;
      var level := maxHeight - 1;
      while true
        invariant 0 <= level < maxHeight
        invariant OnLevel(p, level) && x == Before(p) && p <= SeekIndex(Contents(), key)
        decreases level, |nodes| - p
      {
        SearchStep(p, level, key);
        var next := x.next[level];
        if next == null || !Less(next.entry.key, key) {
          if level == 0 {
            return;
          }
          level := level - 1;
        } else {
          x := next;
          p := Succ(linked, p, level) + 1;
        }
      }
    }

    lemma EntryIndex(p: nat)
      requires Valid() && p < |nodes|
      ensures SeekIndex(Contents(), nodes[p].entry.key) == p
      ensures nodes[p] != head
    {
      var key := nodes[p].entry.key;
      var i := SeekIndex(Contents(), key);
      assert Contents()[p] == nodes[p].entry;
      assert i == p;
    }

    /** Contains. */
    method Contains(key: InternalKey) returns (r: bool)
      requires Valid()
      ensures r <==> exists e :: e in Contents() && e.key == key
    {
      var x, prev, at := FindGreaterOrEqual(key);
      ghost var i := SeekIndex(Contents(), key);
      r := x != null && x.entry.key == key;
      if r {
        assert Contents()[i] == x.entry;
      } else {
        forall e | e in Contents()
          ensures e.key != key
        {
          var p :| 0 <= p < |Contents()| && Contents()[p] == e;
          EntryIndex(p);
        }
      }
    }

    /** FindLast: the last node, or the head. */
    method FindLast() returns (x: Node)
      requires Valid()
      ensures x == Before(|nodes|)
    {
      hide SkipList.Valid, Sorted, Succ, EntriesOf, NextsOf, LinksOk;
      ShapeHolds();
      x := head;
      ghost var p: nat := 0;
      var level := maxHeight - 1;
      while true
        invariant 0 <= level < maxHeight
        invariant OnLevel(p, level) && x == Before(p)
        decreases level, |nodes| - p
      {
        LastStep(p, level);
        var next := x.next[level];
        if next == null {
          if level == 0 {
            return;
          }
          level := level - 1;
        } else {
          x := next;
          p := Succ(linked, p, level) + 1;
        }
      }
    }

    /** One step towards the end of a level. */
    lemma LastStep(p: nat, level: nat)
      requires Valid() && OnLevel(p, level)
      ensures level < |Before(p).next|
      ensures var next, q := Before(p).next[level], Succ(linked, p, level);
        if next == null then (if level > 0 then OnLevel(p, level - 1) else p == |nodes|)
        else p <= q < |nodes| && next == nodes[q] && OnLevel(q + 1, level)
    {
      NextOf(p, level);
      BottomSucc(p);
    }

    // ----- insertion -----

    /** The node is at its place in the order, and linked on its lowest `h` levels. */
    ghost predicate Partial(node: Node, i: nat, h: nat)
      reads this
    {
      |nodes| == |linked| && i < |nodes| && nodes[i] == node && linked[i] == h
    }

    lemma InsertedContents(was: seq<Node>, i: nat, node: Node)
      requires i == SeekIndex(EntriesOf(was), node.entry.key) && Sorted(EntriesOf(was))
      requires forall e :: e in EntriesOf(was) ==> e.key != node.entry.key
      ensures EntriesOf(was[..i] + [node] + was[i..]) == Store.Insert(EntriesOf(was), node.entry)
      ensures Sorted(EntriesOf(was[..i] + [node] + was[i..]))
      ensures SeekIndex(EntriesOf(was[..i] + [node] + was[i..]), node.entry.key) == i
    {
      var es, es' := EntriesOf(was), EntriesOf(was[..i] + [node] + was[i..]);
      assert es' == es[..i] + [node.entry] + es[i..];
      InsertSorted(es, node.entry);
      var j := SeekIndex(es', node.entry.key);
      assert j == i;
    }

    /** The node enters the bottom level, and with it the list. */
    method LinkBottom(node: Node, prev: seq<Node>, ghost at: seq<nat>)
      requires Valid() && node !in nodes && node != head && 0 < |node.next| <= maxHeight <= |prev|
      requires forall e :: e in Contents() ==> e.key != node.entry.key
      requires Left(prev, at, SeekIndex(Contents(), node.entry.key), 0)
      modifies `nodes, `linked, node, prev[0]
      ensures Valid()
      ensures var i := old(SeekIndex(Contents(), node.entry.key));
        && i <= |old(nodes)| && nodes == old(nodes)[..i] + [node] + old(nodes)[i..]
        && Partial(node, i, 1) && Left(prev, at, i, 1)
      ensures Contents() == Store.Insert(old(Contents()), node.entry)
      ensures |node.next| == old(|node.next|) && TowerAt(old(linked), old(SeekIndex(Contents(), node.entry.key)), 1)
    {
      hide SkipList.Valid, SkipList.Steady, Sorted, Store.Insert, SeekIndex, LinksOk, Succ, Leaves, EntriesOf;
      ghost var i, was, wasLinked, towers := SeekIndex(Contents(), node.entry.key), nodes, linked, Towers();
      BottomLeaves(at[0], node.entry.key);
      ShapeHolds();
      InsertedContents(nodes, i, node);
      LinkBehind(node, prev[0], i);
      Enter(node, i, towers);
      LeftInserted(prev, at, was, wasLinked, i);
    }

    /** The list as it is described, but for the tower at `i`, has these towers. */
    ghost predicate Steady(towers: seq<seq<Node?>>, i: nat)
      reads this, head, nodes
    {
      && |nodes| == |linked| && |towers| == |nodes| + 1
      && 1 <= maxHeight <= MAX_HEIGHT && head !in nodes && |towers[0]| == MAX_HEIGHT
      && (forall p, q :: 0 <= p < q < |nodes| ==> nodes[p] != nodes[q])
      && (forall p :: 0 <= p < |nodes| ==> 1 <= linked[p] <= |towers[p + 1]| && linked[p] <= maxHeight)
      && forall p :: 0 <= p <= |nodes| && p != i ==> (if p == 0 then head else nodes[p - 1]).next == towers[p]
    }

    /** The node enters the list it is linked into. */
    ghost method Enter(node: Node, i: nat, towers: seq<seq<Node?>>)
      requires Steady(towers, i) && i <= |nodes| && LinksOk(towers, nodes, linked) && node !in nodes && node != head
      requires |towers[i]| > 0 && Before(i).next == towers[i][0 := node] && |node.next| > 0 && node.next[0] == towers[i][0]
      requires Sorted(EntriesOf(nodes[..i] + [node] + nodes[i..]))
      modifies `nodes, `linked
      ensures Valid()
      ensures nodes == old(nodes)[..i] + [node] + old(nodes)[i..] && linked == old(linked)[..i] + [1] + old(linked)[i..]
    {
      hide Sorted, EntriesOf, LinksOk;
      ghost var was, wasLinked := nodes, linked;
      nodes := was[..i] + [node] + was[i..];
      linked := wasLinked[..i] + [1] + wasLinked[i..];
      ValidInserted(was, wasLinked, towers, i, node);
    }

    /** Link `node` behind the node before position `i` on the bottom level; no other tower changes. */
    method LinkBehind(node: Node, x: Node, ghost i: nat)
      requires Shape() && node !in nodes && node != head && 0 < |node.next|
      requires i <= |nodes| && x == Before(i) && 0 < |x.next|
      modifies node, x
      ensures |node.next| == old(|node.next|) && node.next[0] == old(Towers())[i][0]
      ensures Before(i).next == old(Towers())[i][0 := node]
      ensures Steady(old(Towers()), i)
    {
      hide NextsOf;
      LinkAfter(node, x, 0);
    }

    lemma ShapeHolds()
      requires Valid()
      ensures Shape() && Sorted(Contents()) && LinksOk(Towers(), nodes, linked)
    {
    }

    /** Link `node` behind `x` at level `l`. */
    method LinkAfter(node: Node, x: Node, l: nat)
      requires node != x && l < |node.next| && l < |x.next|
      modifies node, x
      ensures node.next == old(node.next)[l := old(x.next)[l]]
      ensures x.next == old(x.next)[l := node]
    {
      node.next := node.next[l := x.next[l]];
      x.next := x.next[l := node];
    }

    lemma ValidInserted(was: seq<Node>, wasLinked: seq<nat>, towers: seq<seq<Node?>>, i: nat, node: Node)
      requires |was| == |wasLinked| && i <= |was| && LinksOk(towers, was, wasLinked)
      requires nodes == was[..i] + [node] + was[i..] && linked == wasLinked[..i] + [1] + wasLinked[i..]
      requires 1 <= maxHeight <= MAX_HEIGHT && |head.next| == MAX_HEIGHT && head !in was && node !in was && node != head
      requires forall p, q :: 0 <= p < q < |was| ==> was[p] != was[q]
      requires forall p :: 0 <= p < |was| ==> 1 <= wasLinked[p] <= |towers[p + 1]| && wasLinked[p] <= maxHeight
      requires Before(i) == if i == 0 then head else was[i - 1]
      requires |towers[i]| > 0 && Before(i).next == towers[i][0 := node] && |node.next| > 0 && node.next[0] == towers[i][0]
      requires forall p :: 0 <= p <= |was| && p != i ==> (if p == 0 then head else was[p - 1]).next == towers[p]
      requires Sorted(Contents())
      ensures Valid()
    {
      hide Sorted, EntriesOf;
      TowersInserted(towers, was, i, node);
      InsertLinks(towers, was, wasLinked, i, node, node.next);
      forall p | 0 <= p < |nodes|
        ensures 1 <= linked[p] <= |nodes[p].next| && linked[p] <= maxHeight
      {
        if p < i {
          assert nodes[p] == was[p] && linked[p] == wasLinked[p];
        } else if p > i {
          assert nodes[p] == was[p - 1] && linked[p] == wasLinked[p - 1];
        }
      }
    }

    lemma LeftInserted(prev: seq<Node>, at: seq<nat>, was: seq<Node>, wasLinked: seq<nat>, i: nat)
      requires |prev| == |at| && |was| == |wasLinked| && i <= |was|
      requires forall l: nat :: l < |prev| ==> Leaves(wasLinked, at[l], l, i) && at[l] <= |was| && prev[l] == (if at[l] == 0 then head else was[at[l] - 1])
      requires |nodes| == |was| + 1 && nodes[..i] == was[..i] && linked == wasLinked[..i] + [1] + wasLinked[i..]
      ensures Left(prev, at, i, 1)
    {
      forall l: nat | 1 <= l < |prev|
        ensures Leaves(linked, at[l], l, i) && at[l] <= |nodes| && prev[l] == Before(at[l])
      {
        SuccInsert(wasLinked, i, at[l], l);
        assert at[l] > 0 ==> nodes[at[l] - 1] == nodes[..i][at[l] - 1] == was[at[l] - 1];
        assert at[l] > 0 ==> linked[at[l] - 1] == wasLinked[at[l] - 1];
      }
    }

    lemma TowersInserted(towers: seq<seq<Node?>>, was: seq<Node>, i: nat, node: Node)
      requires |towers| == |was| + 1 && i <= |was| && nodes == was[..i] + [node] + was[i..]
      requires |towers[i]| > 0 && Before(i).next == towers[i][0 := node]
      requires forall p :: 0 <= p <= |was| && p != i ==> (if p == 0 then head else was[p - 1]).next == towers[p]
      ensures Towers() == towers[..i] + [towers[i][0 := node]] + [node.next] + towers[i + 1..]
    {
      var t := towers[..i] + [towers[i][0 := node]] + [node.next] + towers[i + 1..];
      forall p | 0 <= p <= |nodes|
        ensures Towers()[p] == t[p]
      {
        if p > i + 1 {
          assert Before(p) == was[p - 2];
        }
      }
    }

    lemma BottomLeaves(p: nat, key: InternalKey)
      requires Valid() && Leaves(linked, p, 0, SeekIndex(Contents(), key))
      ensures p == SeekIndex(Contents(), key)
      ensures 0 < |Before(p).next| && Before(p).next[0] == NodeAt(nodes, p)
    {
      BottomNext(p, key);
      NextOf(p, 0);
    }

    /** The node, linked on its lowest `h` levels, is linked on one more. */
    method LinkLevel(node: Node, prev: seq<Node>, ghost at: seq<nat>, ghost i: nat, h: nat)
      requires Valid() && Partial(node, i, h) && h < |prev| <= MAX_HEIGHT && h < |node.next| <= maxHeight
      requires Left(prev, at, i, h)
      modifies `linked, node, prev[h]
      ensures Valid() && Partial(node, i, h + 1)
      ensures linked == old(linked)[i := h + 1]
      ensures Left(prev, at, i, h + 1)
      ensures |node.next| == old(|node.next|)
    {
      hide SkipList.Valid, Sorted, LinksOk, Succ, EntriesOf, NextsOf, SeekIndex;
      ShapeHolds();
      ghost var wasLinked, towers := linked, Towers();
      SuccBeyond(linked, i, h, at[h]);
      NextOf(at[h], h);
      assert prev[h] == Before(at[h]) && node == Before(i + 1);
      LinkAfter(node, prev[h], h);
      linked := linked[i := h + 1];
      RaiseLinks(towers, nodes, wasLinked, i, h, at[h]);
      TowersRaised(towers, i, h, at[h]);
      ValidRaised(wasLinked, i, h);
      LeftRaised(prev, at, wasLinked, i, h);
    }

    lemma ValidRaised(wasLinked: seq<nat>, i: nat, h: nat)
      requires |wasLinked| == |nodes| && i < |nodes| && linked == wasLinked[i := h + 1] && h < |nodes[i].next| && h < maxHeight
      requires LinksOk(Towers(), nodes, linked)
      requires 1 <= maxHeight <= MAX_HEIGHT && |head.next| == MAX_HEIGHT && head !in nodes
      requires forall p, q :: 0 <= p < q < |nodes| ==> nodes[p] != nodes[q]
      requires forall p :: 0 <= p < |nodes| ==> 1 <= wasLinked[p] <= |nodes[p].next| && wasLinked[p] <= maxHeight
      requires Sorted(Contents())
      ensures Valid()
    {
    }

    lemma TowersRaised(towers: seq<seq<Node?>>, i: nat, h: nat, p: nat)
      requires |towers| == |nodes| + 1 && p <= i < |nodes|
      requires h < |towers[p]| && h < |towers[i + 1]|
      requires Before(p).next == towers[p][h := nodes[i]] && Before(i + 1).next == towers[i + 1][h := towers[p][h]]
      requires forall r :: 0 <= r <= |nodes| && r != p && r != i + 1 ==> Before(r).next == towers[r]
      ensures Towers() == towers[p := towers[p][h := nodes[i]]][i + 1 := towers[i + 1][h := towers[p][h]]]
    {
    }

    lemma SuccBeyond(linked: seq<nat>, i: nat, h: nat, p: nat)
      requires i < |linked| && linked[i] == h && Leaves(linked, p, h, i)
      ensures i < Succ(linked, p, h)
    {
    }

    lemma LeftRaised(prev: seq<Node>, at: seq<nat>, wasLinked: seq<nat>, i: nat, h: nat)
      requires |prev| == |at| && |wasLinked| == |nodes| && i < |nodes| && wasLinked[i] == h && linked == wasLinked[i := h + 1]
      requires forall l: nat :: h <= l < |prev| ==> Leaves(wasLinked, at[l], l, i) && at[l] <= |nodes| && prev[l] == Before(at[l])
      ensures Left(prev, at, i, h + 1)
    {
      forall l: nat | h + 1 <= l < |prev|
        ensures Leaves(linked, at[l], l, i)
      {
        SuccRaise(wasLinked, i, h, at[l], l);
        assert at[l] > 0 ==> linked[at[l] - 1] == wasLinked[at[l] - 1];
      }
    }

    /** Levels nothing is linked on yet are left at the head. */
    lemma EmptyLevel(l: nat, i: nat)
      requires Shape() && maxHeight <= l < MAX_HEIGHT && i <= |nodes|
      ensures Leaves(linked, 0, l, i)
    {
      SuccIs(linked, 0, l, |nodes|);
    }

    method RaiseMaxHeight(height: nat)
      requires Valid() && maxHeight <= height <= MAX_HEIGHT
      modifies `maxHeight
      ensures Valid() && maxHeight == height
    {
      maxHeight := height;
    }

    /** Insert, for any height the generator may pick. The list is a good skip list again after
        every single link. */
    method Insert(entry: Entry, height: nat)
      requires Valid() && 1 <= height <= MAX_HEIGHT
      requires forall e :: e in Contents() ==> e.key != entry.key
      modifies this, head, nodes
      ensures Valid()
      ensures Contents() == Store.Insert(old(Contents()), entry)
      ensures forall n :: n in old(nodes) ==> n in nodes
      ensures fresh(set n | n in nodes && n !in old(nodes))
      ensures exists i: nat :: i < |nodes| && fresh(nodes[i]) && |nodes[i].next| == height && TowerAt(old(linked), i, height)
      ensures maxHeight == if height > old(maxHeight) then height else old(maxHeight)
    {
      hide SkipList.Valid, Sorted, Store.Insert, SeekIndex, LinksOk, Succ, Leaves, EntriesOf;
      var x, prev, at := FindGreaterOrEqual(entry.key);
      ghost var i := SeekIndex(Contents(), entry.key);
      prev, at := GrowTo(height, prev, at, entry.key);
      var node := new Node(entry, height);
      LinkBottom(node, prev, at);
      LinkTower(node, prev, at, i, height, old(linked));
    }

    /** Link the node on its levels above the lowest, one by one. */
    method LinkTower(node: Node, prev: seq<Node>, ghost at: seq<nat>, ghost i: nat, height: nat, ghost was: seq<nat>)
      requires Valid() && Partial(node, i, 1) && Left(prev, at, i, 1) && TowerAt(was, i, 1)
      requires |node.next| == height <= maxHeight <= |prev| <= MAX_HEIGHT && height > 0
      modifies `linked, head, nodes
      ensures Valid() && Partial(node, i, height) && TowerAt(was, i, height) && |node.next| == height
      ensures Contents() == old(Contents())
    {
      hide SkipList.Valid, Sorted, SeekIndex, LinksOk, Succ, Leaves, EntriesOf;
      for h := 1 to height
        invariant Valid() && Partial(node, i, h) && Left(prev, at, i, h)
        invariant |node.next| == height && TowerAt(was, i, h)
      {
        ghost var before := linked;
        LinkLevel(node, prev, at, i, h);
        TowerRises(was, before, i, h);
      }
    }

    lemma TowerRises(was: seq<nat>, before: seq<nat>, i: nat, h: nat)
      requires i <= |was| && before == was[..i] + [h] + was[i..] && linked == before[i := h + 1]
      ensures TowerAt(was, i, h + 1)
    {
    }

    /** A tower of the given height was put at `i`, the others kept theirs. */
    ghost predicate TowerAt(was: seq<nat>, i: nat, height: nat)
      reads this
    {
      i <= |was| && linked == was[..i] + [height] + was[i..]
    }

    /** A tower higher than any before hangs off the head on its new levels. */
    method GrowTo(height: nat, prev: seq<Node>, ghost at: seq<nat>, ghost key: InternalKey)
      returns (prev': seq<Node>, ghost at': seq<nat>)
      requires Valid() && height <= MAX_HEIGHT && |prev| == maxHeight
      requires Left(prev, at, SeekIndex(Contents(), key), 0)
      modifies `maxHeight
      ensures Valid() && height <= maxHeight == |prev'| && maxHeight <= MAX_HEIGHT
      ensures maxHeight == if height > old(maxHeight) then height else old(maxHeight)
      ensures Left(prev', at', SeekIndex(Contents(), key), 0)
    {
      hide Sorted, SeekIndex, LinksOk, Succ, Leaves, EntriesOf;
      prev', at' := prev, at;
      if height > maxHeight {
        forall l: nat | maxHeight <= l < height
          ensures Leaves(linked, 0, l, SeekIndex(Contents(), key))
        {
          EmptyLevel(l, SeekIndex(Contents(), key));
        }
        prev' := prev + seq(height - maxHeight, _ => head);
        at' := at + seq(height - maxHeight, _ => 0);
        RaiseMaxHeight(height);
      }
    }
  }

  /** SkipList::Iterator: a node of the list, or nothing. It stays on its node while others insert. */
  class ListIterator {
    const list: SkipList
    var node: Node?

    constructor (list: SkipList)
      ensures this.list == list && node == null
    {
      this.list := list;
      node := null;
    }

    /** At entry `p` of the list, or past its ends. */
    ghost predicate At(p: nat)
      reads this, list
    {
      p < |list.nodes| && node == list.nodes[p]
    }

    method Next(ghost p: nat)
      requires list.Valid() && At(p)
      modifies this
      ensures node == NodeAt(list.nodes, p + 1)
    {
      list.NextOf(p + 1, 0);
      list.BottomSucc(p + 1);
      node := node.next[0];
    }

    /** There are no back links: search for the last node before this one. */
    method Prev(ghost p: nat)
      requires list.Valid() && At(p)
      modifies this
      ensures node == if p == 0 then null else list.nodes[p - 1]
    {
      list.EntryIndex(p);
      node := list.FindLessThan(node.entry.key);
      if node == list.head {
        node := null;
      }
    }

    method Seek(target: InternalKey)
      requires list.Valid()
      modifies this
      ensures node == NodeAt(list.nodes, SeekIndex(list.Contents(), target))
    {
      var prev;
      ghost var at;
      node, prev, at := list.FindGreaterOrEqual(target);
    }

    method SeekToFirst()
      requires list.Valid()
      modifies this
      ensures node == NodeAt(list.nodes, 0)
    {
      list.NextOf(0, 0);
      list.BottomSucc(0);
      node := list.head.next[0];
    }

    method SeekToLast()
      requires list.Valid()
      modifies this
      ensures node == if list.nodes == [] then null else list.nodes[|list.nodes| - 1]
    {
      node := list.FindLast();
      if node == list.head {
        node := null;
      }
    }
  }

  /** A memtable (memtable.cc). */
  class MemTable {
    const table: SkipList

    constructor ()
      ensures table.Valid() && table.Contents() == [] && fresh(table) && fresh(table.head) && table.nodes == []
    {
      table := new SkipList();
    }

    method Add(sequence: SequenceNumber, kind: ValueType, user: UserKey, value: Bytes, height: nat)
      requires table.Valid() && 1 <= height <= MAX_HEIGHT
      requires forall e :: e in table.Contents() ==> e.key != InternalKey(user, sequence, kind)
      modifies table, table.head, table.nodes
      ensures table.Valid()
      ensures table.Contents() == Insert(old(table.Contents()), Entry(InternalKey(user, sequence, kind), value))
    {
      table.Insert(Entry(InternalKey(user, sequence, kind), value), height);
    }

    /** Seek to the lookup key; the entry there decides if it has the user key. */
    method Get(k: UserKey, s: SequenceNumber) returns (r: Lookup)
      requires table.Valid()
      ensures r == MemGet(table.Contents(), k, s)
    {
      var iter := new ListIterator(table);
      iter.Seek(SeekKey(k, s));
      r := Absent;
      if iter.node != null && iter.node.entry.key.user == k {
        r := LookupOf(iter.node.entry);
      }
    }
  }
}
