/** Iterators over sorted runs, and the iterator that merges several of them (merger.cc). */
module MergingIterator {
  import opened Keys
  import opened Entries
  import opened Versions
  import opened Store
  import opened Options

  /** The iterator interface over one sorted run: a memtable or a table. Like every Iterator,
      an invalid one does not know at which end it fell off. */
  class Cursor {
    const entries: seq<Entry>
    var at: Option<nat>

    ghost predicate Ok()
      reads this
    {
      Sorted(entries) && (at.Some? ==> at.value < |entries|)
    }

    constructor (es: seq<Entry>)
      requires Sorted(es)
      ensures Ok() && entries == es && at == None
    {
      entries := es;
      at := None;
    }

    function Key(): InternalKey
      requires Ok() && at.Some?
      reads this
    {
      entries[at.value].key
    }

    method SeekToFirst()
      requires Ok()
      modifies this
      ensures Ok() && at == At(entries, 0)
    {
      at := if entries == [] then None else Some(0);
    }

    method SeekToLast()
      requires Ok()
      modifies this
      ensures Ok() && at == Behind(|entries|)
    {
      at := if entries == [] then None else Some(|entries| - 1);
    }

    method Seek(target: InternalKey)
      requires Ok()
      modifies this
      ensures Ok() && at == At(entries, SeekIndex(entries, target))
    {
      at := At(entries, SeekIndex(entries, target));
    }

    method Next()
      requires Ok() && at.Some?
      modifies this
      ensures Ok() && at == At(entries, old(at.value) + 1)
    {
      at := if at.value + 1 < |entries| then Some(at.value + 1) else None;
    }

    method Prev()
      requires Ok() && at.Some?
      modifies this
      ensures Ok() && at == Behind(old(at.value))
    {
      at := if at.value > 0 then Some(at.value - 1) else None;
    }
  }

  /** The position of a run whose first `i` entries lie behind. */
  function At(es: seq<Entry>, i: nat): Option<nat> {
    if i < |es| then Some(i) else None
  }

  /** The position just behind entry `i`. */
  function Behind(i: nat): Option<nat> {
    if i > 0 then Some(i - 1) else None
  }

  // ----- runs and their merge -----

  /** `merged` lists the entries of all runs, each exactly once, in order. */
  ghost predicate IsMerge(merged: seq<Entry>, runs: seq<seq<Entry>>) {
    && Sorted(merged)
    && (forall c, e :: 0 <= c < |runs| && e in runs[c] ==> e in merged)
    && (forall e :: e in merged ==> exists c :: 0 <= c < |runs| && e in runs[c])
    && forall c, d, e :: 0 <= c < d < |runs| && e in runs[c] ==> e !in runs[d]
  }

  /** The first `i` entries of the run are those among the first `p` of the merge. */
  ghost predicate IsCut(run: seq<Entry>, i: nat, merged: seq<Entry>, p: nat) {
    && i <= |run|
    && p <= |merged|
    && (forall j :: 0 <= j < i ==> run[j] in merged[..p])
    && forall j :: i <= j < |run| ==> run[j] in merged[p..]
  }

  ghost predicate Ahead(run: seq<Entry>, at: Option<nat>, merged: seq<Entry>, p: nat) {
    exists i: nat :: at == At(run, i) && IsCut(run, i, merged, p)
  }

  ghost predicate Back(run: seq<Entry>, at: Option<nat>, merged: seq<Entry>, p: nat) {
    exists i: nat :: at == Behind(i) && IsCut(run, i, merged, p)
  }

  lemma SortedIndex(merged: seq<Entry>, e: Entry, p: nat)
    requires Sorted(merged) && e in merged && p < |merged|
    ensures e in merged[p..] <==> e == merged[p] || Less(merged[p].key, e.key)
    ensures e in merged[..p] <==> Less(e.key, merged[p].key)
  {
    var k :| 0 <= k < |merged| && merged[k] == e;
    if k < p {
      assert merged[..p][k] == e;
    } else {
      assert merged[p..][k - p] == e;
    }
    if e in merged[p..] {
      var j :| 0 <= j < |merged[p..]| && merged[p..][j] == e;
      assert merged[p + j] == e;
    }
  }

  /** A Seek in a run lands where the Seek in the merge cuts it. */
  lemma SeekCuts(run: seq<Entry>, merged: seq<Entry>, target: InternalKey)
    requires Sorted(run) && Sorted(merged) && forall e :: e in run ==> e in merged
    ensures IsCut(run, SeekIndex(run, target), merged, SeekIndex(merged, target))
  {
    var i, p := SeekIndex(run, target), SeekIndex(merged, target);
    forall j | 0 <= j < |run|
      ensures if j < i then run[j] in merged[..p] else run[j] in merged[p..]
    {
      assert j < i <==> Less(run[j].key, target) by {
        assert i < j ==> Less(run[i].key, run[j].key);
      }
      InFront(merged, run[j], target);
    }
  }

  lemma InFront(merged: seq<Entry>, e: Entry, target: InternalKey)
    requires Sorted(merged) && e in merged
    ensures if Less(e.key, target) then e in merged[..SeekIndex(merged, target)] else e in merged[SeekIndex(merged, target)..]
  {
    var p := SeekIndex(merged, target);
    var k :| 0 <= k < |merged| && merged[k] == e;
    assert p < k ==> Less(merged[p].key, merged[k].key);
    SplitMember(merged, k, p);
  }

  lemma SplitMember(merged: seq<Entry>, k: nat, p: nat)
    requires k < |merged| && p <= |merged|
    ensures if k < p then merged[k] in merged[..p] else merged[k] in merged[p..]
  {
    if k < p {
      assert merged[..p][k] == merged[k];
    } else {
      assert merged[p..][k - p] == merged[k];
    }
  }

  lemma SeekToMember(merged: seq<Entry>, p: nat)
    requires Sorted(merged) && p < |merged|
    ensures SeekIndex(merged, merged[p].key) == p
  {
    var i := SeekIndex(merged, merged[p].key);
    assert i == p;
  }

  lemma OnlyAt(merged: seq<Entry>, p: nat)
    requires Sorted(merged) && p < |merged|
    ensures merged[p] !in merged[..p] && merged[p] !in merged[p + 1..]
  {
    forall k | 0 <= k < |merged| && k != p
      ensures merged[k] != merged[p]
    {
    }
  }

  /** A run without the entry at the cut is cut the same way one further on. */
  lemma CutSkips(run: seq<Entry>, i: nat, merged: seq<Entry>, p: nat)
    requires p < |merged| && merged[p] !in run
    ensures IsCut(run, i, merged, p) <==> IsCut(run, i, merged, p + 1)
  {
    assert merged[..p + 1] == merged[..p] + [merged[p]];
    assert merged[p..] == [merged[p]] + merged[p + 1..];
    if i <= |run| {
      forall j | 0 <= j < |run|
        ensures run[j] != merged[p]
      {
      }
    }
  }

  /** In the run that has the entry at the cut, that entry comes next. */
  lemma CutOwner(run: seq<Entry>, i: nat, merged: seq<Entry>, p: nat)
    requires Sorted(run) && Sorted(merged) && IsCut(run, i, merged, p)
    requires p < |merged| && merged[p] in run
    ensures i < |run| && run[i] == merged[p]
    ensures IsCut(run, i + 1, merged, p + 1)
  {
    var j :| 0 <= j < |run| && run[j] == merged[p];
    OnlyAt(merged, p);
    assert run[i] in merged[p..];
    SortedMember(merged, run[i], p);
    assert merged[..p + 1] == merged[..p] + [merged[p]];
    forall x | i + 1 <= x < |run|
      ensures run[x] in merged[p + 1..]
    {
      assert run[x] in merged[p..] && Less(run[i].key, run[x].key);
      assert merged[p..] == [merged[p]] + merged[p + 1..];
    }
  }

  lemma SortedMember(merged: seq<Entry>, e: Entry, p: nat)
    requires Sorted(merged) && p < |merged| && e in merged[p..]
    ensures e == merged[p] || Less(merged[p].key, e.key)
  {
    assert e in merged;
    SortedIndex(merged, e, p);
  }

  /** In the run that has the last entry before the cut, that entry lies just behind. */
  lemma CutOwnerBack(run: seq<Entry>, i: nat, merged: seq<Entry>, p: nat)
    requires Sorted(run) && Sorted(merged) && IsCut(run, i, merged, p + 1)
    requires p < |merged| && merged[p] in run
    ensures i > 0 && run[i - 1] == merged[p]
    ensures IsCut(run, i - 1, merged, p)
  {
    var j :| 0 <= j < |run| && run[j] == merged[p];
    assert merged[..p + 1] == merged[..p] + [merged[p]];
    assert merged[p..] == [merged[p]] + merged[p + 1..];
    OnlyAt(merged, p);
    assert run[i - 1] in merged[..p + 1];
    SortedIndex(merged, run[i - 1], p);
    forall x | 0 <= x < i - 1
      ensures run[x] in merged[..p]
    {
      assert run[x] in merged[..p + 1] && Less(run[x].key, run[i - 1].key);
    }
    assert j == i - 1;
  }

  /** At an end of the merge every run is at the same end. */
  lemma CutAtEnd(run: seq<Entry>, i: nat, merged: seq<Entry>, p: nat)
    requires IsCut(run, i, merged, p)
    ensures p == |merged| ==> i == |run|
    ensures p == 0 ==> i == 0
  {
    assert Elements(run[i..]) <= Elements(merged[p..]);
    assert Elements(run[..i]) <= Elements(merged[..p]);
    EmptyElements(run[i..]);
    EmptyElements(run[..i]);
  }

  lemma CutAtFirst(run: seq<Entry>, merged: seq<Entry>)
    requires forall e :: e in run ==> e in merged
    ensures Ahead(run, At(run, 0), merged, 0)
  {
    assert merged[0..] == merged;
    assert IsCut(run, 0, merged, 0);
  }

  lemma CutAtLast(run: seq<Entry>, merged: seq<Entry>)
    requires forall e :: e in run ==> e in merged
    ensures Back(run, Behind(|run|), merged, |merged|)
  {
    assert merged[..|merged|] == merged;
    assert IsCut(run, |run|, merged, |merged|);
  }

  /** Runs that never hold the same key have a merge. */
  lemma {:induction false} MergeExists(runs: seq<seq<Entry>>) returns (merged: seq<Entry>)
    requires forall c :: 0 <= c < |runs| ==> Sorted(runs[c])
    requires forall c, d, x, y :: 0 <= c < d < |runs| && x in runs[c] && y in runs[d] ==> x.key != y.key
    ensures IsMerge(merged, runs)
  {
    if runs == [] {
      merged := [];
    } else {
      var n := |runs| - 1;
      var before := MergeExists(runs[..n]);
      merged := AddRun(before, runs[n]);
      forall e
        ensures e in merged <==> exists c :: 0 <= c < |runs| && e in runs[c]
      {
        if e in before {
          var c :| 0 <= c < n && e in runs[..n][c];
          assert e in runs[c];
        }
        if exists c :: 0 <= c < n && e in runs[c] {
          var c :| 0 <= c < n && e in runs[c];
          assert e in runs[..n][c];
        }
      }
    }
  }

  lemma LastApart(b: seq<Entry>)
    requires Sorted(b) && b != []
    ensures Sorted(b[..|b| - 1])
    ensures forall x :: x in b[..|b| - 1] ==> x.key != b[|b| - 1].key
  {
  }

  lemma {:induction false} AddRun(a: seq<Entry>, b: seq<Entry>) returns (merged: seq<Entry>)
    requires Sorted(a) && Sorted(b) && forall x, y :: x in a && y in b ==> x.key != y.key
    ensures Sorted(merged) && forall e :: e in merged <==> e in a || e in b
    decreases |b|
  {
    if b == [] {
      merged := a;
    } else {
      hide Sorted, Insert;
      var n := |b| - 1;
      assert b == b[..n] + [b[n]];
      LastApart(b);
      var m := AddRun(a, b[..n]);
      InsertSorted(m, b[n]);
      merged := Insert(m, b[n]);
      assert forall e :: e in merged <==> e in Elements(merged);
      assert forall e :: e in m <==> e in Elements(m);
    }
  }

  // ----- the merging iterator -----

  ghost function Runs(children: seq<Cursor>): seq<seq<Entry>> {
    seq(|children|, i requires 0 <= i < |children| => children[i].entries)
  }

  class Merger {
    const children: seq<Cursor>
    var current: Option<nat>
    var forward: bool

    /** The merged run, and the position in it this iterator stands for. */
    ghost const merged: seq<Entry>
    ghost var pos: Option<nat>

    ghost predicate Fixed()
      reads children
    {
      && IsMerge(merged, Runs(children))
      && (forall c :: 0 <= c < |children| ==> children[c].Ok())
      && forall c, d :: 0 <= c < d < |children| ==> children[c] != children[d]
    }

    ghost predicate AllAhead(p: nat)
      reads children
    {
      forall c :: 0 <= c < |children| ==> Ahead(children[c].entries, children[c].at, merged, p)
    }

    ghost predicate AllBack(p: nat)
      reads children
    {
      forall c :: 0 <= c < |children| ==> Back(children[c].entries, children[c].at, merged, p)
    }

    /** Child `c` stands at the entry `merged[p]`. */
    ghost predicate Stands(c: nat, p: nat)
      reads children
    {
      p < |merged| && Shows(c, merged[p])
    }

    ghost predicate Shows(c: nat, e: Entries.Entry)
      reads children
    {
      c < |children| && children[c].Ok() && children[c].at.Some? && children[c].entries[children[c].at.value] == e
    }

    /** Going forward every child is at its first entry at or after the current one, going
        backward at its last entry at or before it. */
    ghost predicate Valid()
      reads this, children
      ensures Valid() ==> Sorted(merged)
      ensures Valid() ==> (pos.Some? <==> current.Some?)
      ensures Valid() && pos.Some? ==> pos.value < |merged|
    {
      && Fixed()
      && (pos.Some? <==> current.Some?)
      && (pos.Some? ==>
        && Stands(current.value, pos.value)
        && if forward then AllAhead(pos.value) else AllBack(pos.value + 1))
    }

    constructor (children: seq<Cursor>, ghost merged: seq<Entry>)
      requires IsMerge(merged, Runs(children))
      requires forall c :: 0 <= c < |children| ==> children[c].Ok()
      requires forall c, d :: 0 <= c < d < |children| ==> children[c] != children[d]
      ensures Valid() && this.children == children && this.merged == merged && pos == None
    {
      this.children := children;
      current := None;
      forward := true;
      this.merged := merged;
      pos := None;
    }

    function Entry(): Entries.Entry
      requires Valid() && pos.Some?
      reads this, children
      ensures Entry() == merged[pos.value]
    {
      children[current.value].entries[children[current.value].at.value]
    }

    lemma RunIn(c: nat)
      requires IsMerge(merged, Runs(children)) && c < |children|
      ensures forall e :: e in children[c].entries ==> e in merged
    {
      assert Runs(children)[c] == children[c].entries;
    }

    /** One child has the entry at position `p`, and only that one. */
    lemma Owner(p: nat) returns (c: nat)
      requires IsMerge(merged, Runs(children)) && p < |merged|
      ensures c < |children| && merged[p] in children[c].entries
      ensures forall d: nat :: d < |children| && d != c ==> merged[p] !in children[d].entries
    {
      assert merged[p] in merged;
      c :| 0 <= c < |Runs(children)| && merged[p] in Runs(children)[c];
      forall d: nat | d < |children| && d != c
        ensures merged[p] !in children[d].entries
      {
        assert Runs(children)[d] == children[d].entries;
      }
    }

    lemma OwnerAhead(p: nat) returns (c: nat)
      requires Fixed() && AllAhead(p) && p < |merged|
      ensures Stands(c, p)
      ensures forall d: nat, e :: Shows(d, e) ==> e == merged[p] || Less(merged[p].key, e.key)
    {
      c := Owner(p);
      var i: nat :| children[c].at == At(children[c].entries, i) && IsCut(children[c].entries, i, merged, p);
      CutOwner(children[c].entries, i, merged, p);
      forall d: nat, e | Shows(d, e)
        ensures e == merged[p] || Less(merged[p].key, e.key)
      {
        var j: nat :| children[d].at == At(children[d].entries, j) && IsCut(children[d].entries, j, merged, p);
        assert children[d].entries[j] in merged[p..];
        SortedMember(merged, e, p);
      }
    }

    lemma OwnerBack(p: nat) returns (c: nat)
      requires Fixed() && AllBack(p + 1) && p < |merged|
      ensures Stands(c, p)
      ensures forall d: nat, e :: Shows(d, e) ==> e == merged[p] || Less(e.key, merged[p].key)
    {
      c := Owner(p);
      var i: nat :| children[c].at == Behind(i) && IsCut(children[c].entries, i, merged, p + 1);
      CutOwnerBack(children[c].entries, i, merged, p);
      forall d: nat, e | Shows(d, e)
        ensures e == merged[p] || Less(e.key, merged[p].key)
      {
        var j: nat :| children[d].at == Behind(j) && IsCut(children[d].entries, j, merged, p + 1);
        assert e in merged[..p + 1];
        assert merged[..p + 1] == merged[..p] + [merged[p]];
        RunIn(d);
        SortedIndex(merged, e, p);
      }
    }

    lemma NoneAhead()
      requires Fixed() && AllAhead(|merged|)
      ensures forall d :: 0 <= d < |children| ==> children[d].at.None?
    {
      forall d | 0 <= d < |children|
        ensures children[d].at.None?
      {
        var j: nat :| children[d].at == At(children[d].entries, j) && IsCut(children[d].entries, j, merged, |merged|);
        CutAtEnd(children[d].entries, j, merged, |merged|);
      }
    }

    lemma NoneBack()
      requires Fixed() && AllBack(0)
      ensures forall d :: 0 <= d < |children| ==> children[d].at.None?
    {
      forall d | 0 <= d < |children|
        ensures children[d].at.None?
      {
        var j: nat :| children[d].at == Behind(j) && IsCut(children[d].entries, j, merged, 0);
        CutAtEnd(children[d].entries, j, merged, 0);
      }
    }

    /** The entry a child stands at cuts its run in two. */
    lemma StandsCut(c: nat, p: nat)
      requires Fixed() && Stands(c, p)
      ensures IsCut(children[c].entries, children[c].at.value, merged, p)
      ensures IsCut(children[c].entries, children[c].at.value + 1, merged, p + 1)
    {
      var run, a := children[c].entries, children[c].at.value;
      RunIn(c);
      forall j | 0 <= j < |run|
        ensures if j < a then run[j] in merged[..p] else run[j] in merged[p..]
      {
        SortedIndex(merged, run[j], p);
      }
      CutOwner(run, a, merged, p);
    }

    lemma NotOthers(c: nat, p: nat)
      requires Fixed() && Stands(c, p)
      ensures forall d: nat :: d < |children| && d != c ==> merged[p] !in children[d].entries
    {
      var o := Owner(p);
    }

    /** With every child ahead of the cut, the smallest current key is the entry at the cut. */
    method FindSmallest(ghost p: nat)
      requires Fixed() && AllAhead(p) && p <= |merged|
      modifies `current, `pos
      ensures pos == At(merged, p)
      ensures pos.Some? <==> current.Some?
      ensures pos.Some? ==> Stands(current.value, p)
    {
      var smallest: Option<nat> := None;
      for i := 0 to |children|
        invariant smallest.None? ==> forall c :: 0 <= c < i ==> children[c].at.None?
        invariant smallest.Some? ==> smallest.value < i && children[smallest.value].at.Some?
        invariant smallest.Some? ==> forall c :: 0 <= c < i && children[c].at.Some? ==> !Less(children[c].Key(), children[smallest.value].Key())
      {
        if children[i].at.Some? {
          if smallest.None? {
            smallest := Some(i);
          } else if Less(children[i].Key(), children[smallest.value].Key()) {
            smallest := Some(i);
          }
        }
      }
      current := smallest;
      pos := At(merged, p);
      if p < |merged| {
        ghost var c := OwnerAhead(p);
      } else {
        NoneAhead();
      }
    }

    method FindLargest(ghost p: nat)
      requires Fixed() && AllBack(p) && p <= |merged|
      modifies `current, `pos
      ensures pos == Behind(p)
      ensures pos.Some? <==> current.Some?
      ensures pos.Some? ==> Stands(current.value, p - 1)
    {
      var largest: Option<nat> := None;
      for i := |children| downto 0
        invariant largest.None? ==> forall c :: i <= c < |children| ==> children[c].at.None?
        invariant largest.Some? ==> i <= largest.value < |children| && children[largest.value].at.Some?
        invariant largest.Some? ==> forall c :: i <= c < |children| && children[c].at.Some? ==> !Less(children[largest.value].Key(), children[c].Key())
      {
        if children[i].at.Some? {
          if largest.None? {
            largest := Some(i);
          } else if Less(children[largest.value].Key(), children[i].Key()) {
            largest := Some(i);
          }
        }
      }
      current := largest;
      pos := Behind(p);
      if p > 0 {
        ghost var c := OwnerBack(p - 1);
      } else {
        NoneBack();
      }
    }

    method SeekToFirst()
      requires Valid()
      modifies this, children
      ensures Valid() && pos == At(merged, 0)
    {
      for i := 0 to |children|
        invariant Fixed()
        invariant forall c :: 0 <= c < i ==> Ahead(children[c].entries, children[c].at, merged, 0)
      {
        children[i].SeekToFirst();
        RunIn(i);
        CutAtFirst(children[i].entries, merged);
      }
      FindSmallest(0);
      forward := true;
    }

    method SeekToLast()
      requires Valid()
      modifies this, children
      ensures Valid() && pos == Behind(|merged|)
    {
      for i := 0 to |children|
        invariant Fixed()
        invariant forall c :: 0 <= c < i ==> Back(children[c].entries, children[c].at, merged, |merged|)
      {
        children[i].SeekToLast();
        RunIn(i);
        CutAtLast(children[i].entries, merged);
      }
      FindLargest(|merged|);
      forward := false;
    }

    method Seek(target: InternalKey)
      requires Valid()
      modifies this, children
      ensures Valid() && pos == At(merged, SeekIndex(merged, target))
    {
      for i := 0 to |children|
        invariant Fixed()
        invariant forall c :: 0 <= c < i ==> Ahead(children[c].entries, children[c].at, merged, SeekIndex(merged, target))
      {
        children[i].Seek(target);
        RunIn(i);
        SeekCuts(children[i].entries, merged, target);
      }
      FindSmallest(SeekIndex(merged, target));
      forward := true;
    }
  
    /** Every child but the current one, sent to its first entry after the current key. */
    method TurnForward(ghost p: nat)
      requires Valid() && pos == Some(p) && !forward
      modifies this, children
      ensures Fixed() && current == old(current) && current.Some? && Stands(current.value, p) && forward
      ensures forall c :: 0 <= c < |children| && c != current.value ==> Ahead(children[c].entries, children[c].at, merged, p + 1)
    {
      var key := Entry().key;
      NotOthers(current.value, p);
      SeekToMember(merged, p);
      for i := 0 to |children|
        invariant Fixed() && current == old(current) && Stands(current.value, p)
        invariant forall c :: 0 <= c < i && c != current.value ==> Ahead(children[c].entries, children[c].at, merged, p + 1)
      {
        if i != current.value {
          var child := children[i];
          child.Seek(key);
          RunIn(i);
          SeekCuts(child.entries, merged, key);
          CutSkips(child.entries, SeekIndex(child.entries, key), merged, p);
          assert IsCut(child.entries, SeekIndex(child.entries, key), merged, p + 1);
          KeyNotAt(child.entries, SeekIndex(child.entries, key), p);
          if child.at.Some? && child.Key() == key {
            // two children never hold the same key
            assert false;
          }
        }
      }
      forward := true;
    }

    lemma KeyNotAt(run: seq<Entries.Entry>, i: nat, p: nat)
      requires Sorted(merged) && IsCut(run, i, merged, p + 1) && p < |merged|
      ensures i < |run| ==> run[i].key != merged[p].key
    {
      if i < |run| {
        assert run[i] in merged[p + 1..];
        var k :| 0 <= k < |merged[p + 1..]| && merged[p + 1..][k] == run[i];
        assert merged[p + 1 + k] == run[i];
      }
    }

    /** Every child but the current one, sent to its last entry before the current key. */
    method TurnBackward(ghost p: nat)
      requires Valid() && pos == Some(p) && forward
      modifies this, children
      ensures Fixed() && current == old(current) && current.Some? && Stands(current.value, p) && !forward
      ensures forall c :: 0 <= c < |children| && c != current.value ==> Back(children[c].entries, children[c].at, merged, p)
    {
      hide Sorted;
      var key := Entry().key;
      SeekToMember(merged, p);
      for i := 0 to |children|
        invariant Fixed() && current == old(current) && Stands(current.value, p)
        invariant forall c :: 0 <= c < i && c != current.value ==> Back(children[c].entries, children[c].at, merged, p)
      {
        if i != current.value {
          var child := children[i];
          child.Seek(key);
          RunIn(i);
          SeekCuts(child.entries, merged, key);
          if child.at.Some? {
            child.Prev();
          } else {
            child.SeekToLast();
          }
          assert child.at == Behind(SeekIndex(child.entries, key));
        }
      }
      forward := false;
    }

    /** Without a change of direction the other children already are where they must be. */
    lemma OthersAhead(c: nat, p: nat)
      requires Fixed() && Stands(c, p) && AllAhead(p)
      ensures forall d: nat :: d < |children| && d != c ==> Ahead(children[d].entries, children[d].at, merged, p + 1)
    {
      NotOthers(c, p);
      forall d: nat | d < |children| && d != c
        ensures Ahead(children[d].entries, children[d].at, merged, p + 1)
      {
        var i: nat :| children[d].at == At(children[d].entries, i) && IsCut(children[d].entries, i, merged, p);
        CutSkips(children[d].entries, i, merged, p);
      }
    }

    lemma OthersBack(c: nat, p: nat)
      requires Fixed() && Stands(c, p) && AllBack(p + 1)
      ensures forall d: nat :: d < |children| && d != c ==> Back(children[d].entries, children[d].at, merged, p)
    {
      NotOthers(c, p);
      forall d: nat | d < |children| && d != c
        ensures Back(children[d].entries, children[d].at, merged, p)
      {
        var i: nat :| children[d].at == Behind(i) && IsCut(children[d].entries, i, merged, p + 1);
        CutSkips(children[d].entries, i, merged, p);
      }
    }

    method MoveOn(c: nat, ghost p: nat)
      requires Fixed() && Stands(c, p)
      requires forall d: nat :: d < |children| && d != c ==> Ahead(children[d].entries, children[d].at, merged, p + 1)
      modifies children[c]
      ensures Fixed() && AllAhead(p + 1)
    {
      hide IsCut, IsMerge, Sorted;
      StandsCut(c, p);
      children[c].Next();
    }

    method MoveBack(c: nat, ghost p: nat)
      requires Fixed() && Stands(c, p)
      requires forall d: nat :: d < |children| && d != c ==> Back(children[d].entries, children[d].at, merged, p)
      modifies children[c]
      ensures Fixed() && AllBack(p)
    {
      hide IsCut, IsMerge, Sorted;
      StandsCut(c, p);
      children[c].Prev();
    }

    method Next()
      requires Valid() && pos.Some?
      modifies this, children
      ensures Valid() && pos == At(merged, old(pos.value) + 1)
    {
      hide IsCut, IsMerge, Sorted, Ahead, Back;
      ghost var p := pos.value;
      if !forward {
        TurnForward(p);
      } else {
        OthersAhead(current.value, p);
      }
      MoveOn(current.value, p);
      FindSmallest(p + 1);
    }

    method Prev()
      requires Valid() && pos.Some?
      modifies this, children
      ensures Valid() && pos == Behind(old(pos.value))
    {
      hide IsCut, IsMerge, Sorted;
      ghost var p := pos.value;
      if forward {
        TurnBackward(p);
      } else {
        OthersBack(current.value, p);
      }
      MoveBack(current.value, p);
      FindLargest(p);
    }
  }
}
