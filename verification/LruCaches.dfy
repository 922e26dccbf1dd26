/** One shard of the cache: reference counts, two lists, eviction (cache.cc). */
module LruCaches {
  import opened Coding
  import opened LruHandles

  function Charge(s: seq<LRUHandle>): nat {
    if s == [] then 0 else Charge(s[..|s| - 1]) + s[|s| - 1].charge
  }

  lemma {:induction false} ChargeWithout(s: seq<LRUHandle>, i: nat)
    requires i < |s|
    ensures Charge(s) == Charge(Without(s, i)) + s[i].charge
    decreases |s|
  {
    var n := |s| - 1;
    var w := Without(s, i);
    if i == n {
      assert w == s[..n];
    } else {
      ChargeWithout(s[..n], i);
      assert w[..n - 1] == Without(s[..n], i);
    }
  }

  lemma ChargeAppend(s: seq<LRUHandle>, e: LRUHandle)
    ensures Charge(s + [e]) == Charge(s) + e.charge
  {
    assert (s + [e])[..|s|] == s;
  }

  predicate IsAt(s: seq<LRUHandle>, i: nat, e: LRUHandle) {
    i < |s| && s[i] == e
  }

  /** The list with its one occurrence of `e`, if any, taken out. */
  ghost predicate Removed(s: seq<LRUHandle>, e: LRUHandle, r: seq<LRUHandle>) {
    if e in s then exists i: nat :: IsAt(s, i, e) && r == Without(s, i) else r == s
  }

  /** The entries of the list with the key, and the others, in order. */
  function Matching(s: seq<LRUHandle>, key: seq<Byte>, hash: nat): seq<LRUHandle> {
    if s == [] then [] else (if SameKey(s[0], key, hash) then [s[0]] else []) + Matching(s[1..], key, hash)
  }

  function Others(s: seq<LRUHandle>, key: seq<Byte>, hash: nat): seq<LRUHandle> {
    if s == [] then [] else (if SameKey(s[0], key, hash) then [] else [s[0]]) + Others(s[1..], key, hash)
  }

  lemma {:induction false} OthersWithin(s: seq<LRUHandle>, key: seq<Byte>, hash: nat)
    ensures SetOf(Others(s, key, hash)) <= SetOf(s)
  {
    if s != [] {
      OthersWithin(s[1..], key, hash);
      assert SetOf(s) == {s[0]} + SetOf(s[1..]);
      assert SetOf(Others(s, key, hash)) <= {s[0]} + SetOf(Others(s[1..], key, hash));
    }
  }

  lemma {:induction false} NoneMatch(s: seq<LRUHandle>, key: seq<Byte>, hash: nat)
    requires forall h :: h in s ==> !SameKey(h, key, hash)
    ensures Matching(s, key, hash) == [] && Others(s, key, hash) == s
  {
    if s != [] {
      NoneMatch(s[1..], key, hash);
    }
  }

  lemma {:induction false} OneMatches(s: seq<LRUHandle>, i: nat, key: seq<Byte>, hash: nat)
    requires i < |s| && Distinct(s) && SameKey(s[i], key, hash)
    requires forall h :: h in s && SameKey(h, key, hash) ==> h == s[i]
    ensures Matching(s, key, hash) == [s[i]] && Others(s, key, hash) == Without(s, i)
    decreases |s|
  {
    if i == 0 {
      NoneMatch(s[1..], key, hash);
      assert Without(s, 0) == s[1..];
    } else {
      OneMatches(s[1..], i - 1, key, hash);
      assert Without(s, i) == [s[0]] + Without(s[1..], i - 1);
    }
  }

  /** Taking out the one entry with the key, if there is one, leaves the others. */
  lemma Displaced(order: seq<LRUHandle>, key: seq<Byte>, hash: nat, r: LRUHandle?, t: seq<LRUHandle>)
    requires if r == null then t == order else Removed(order, r, t)
    requires Distinct(order) && (r != null ==> SameKey(r, key, hash))
    requires forall h :: h in order && SameKey(h, key, hash) ==> h == r
    ensures Matching(order, key, hash) == if r != null && r in order then [r] else []
    ensures Others(order, key, hash) == t
  {
    if r != null && r in order {
      var i: nat :| IsAt(order, i, r) && t == Without(order, i);
      OneMatches(order, i, key, hash);
    } else {
      NoneMatch(order, key, hash);
    }
  }

  class LRUCache {
    const capacity: nat
    var usage: nat
    const lru: HandleList
    const inUse: HandleList
    const table: HandleTable

    /** References held by clients, and the entries whose deleter has run, in order. */
    ghost var held: multiset<LRUHandle>
    ghost var deleted: seq<LRUHandle>

    ghost function Cached(): set<LRUHandle>
      reads lru`order, inUse`order
    {
      SetOf(lru.order) + SetOf(inUse.order)
    }

    ghost function Handles(): set<LRUHandle>
      reads `held, lru`order, inUse`order
    {
      Cached() + set h | h in held
    }

    /** Two proper lists over the cached entries. */
    ghost predicate Lists()
      reads lru, lru.head, inUse, inUse.head, Cached()`next, Cached()`prev
    {
      lru.Valid() && inUse.Valid() && Apart(lru, inUse)
    }

    /** The reference count is that of the clients' references and the cache's own; an entry of
        the LRU list has no client, one of the in-use list has some. */
    ghost predicate CountOk(h: LRUHandle)
      reads `held, lru`order, inUse`order, h`refs, h`inCache
    {
      && h.refs == held[h] + (if h.inCache then 1 else 0)
      && (h.inCache <==> h in Cached())
      && (h in lru.order ==> held[h] == 0)
      && (h in inUse.order ==> held[h] > 0)
    }

    ghost predicate Counted()
      reads `held, lru`order, inUse`order, Handles()`refs, Handles()`inCache
    {
      forall h :: h in Handles() ==> CountOk(h)
    }

    /** Everything but the counts. The entries of `gone` are no longer in the table. */
    ghost predicate Base(gone: set<LRUHandle>)
      reads this, lru, lru.head, inUse, inUse.head, table, table.list, Cached()`next, Cached()`prev, (Cached() - gone)`nextHash
    {
      && Lists()
      && lru.head !in Handles() && inUse.head !in Handles()
      && table.All() == Cached() - gone && table.Valid()
      && usage == Charge(lru.order) + Charge(inUse.order)
      && Distinct(deleted) && SetOf(deleted) !! Handles()
    }

    ghost predicate Valid()
      reads this, lru, lru.head, inUse, inUse.head, table, table.list, Handles()
    {
      Base({}) && Counted()
    }

    constructor (capacity: nat)
      ensures Valid() && this.capacity == capacity && Cached() == {} && held == multiset{} && deleted == []
    {
      this.capacity := capacity;
      usage := 0;
      lru := new HandleList();
      inUse := new HandleList();
      table := new HandleTable();
      held, deleted := multiset{}, [];
    }

    lemma BaseFacts(gone: set<LRUHandle>)
      requires Base(gone)
      ensures SetOf(lru.order) !! SetOf(inUse.order)
      ensures Distinct(lru.order) && Distinct(inUse.order)
      ensures table.All() == Cached() - gone && table.Valid() && lru.Valid()
    {
    }

    lemma ListFacts()
      requires Lists()
      ensures SetOf(lru.order) !! SetOf(inUse.order)
      ensures Distinct(lru.order) && Distinct(inUse.order)
    {
    }

    /** From the LRU list to the in-use list. */
    method Promote(e: LRUHandle, ghost i: nat, ghost gone: set<LRUHandle>)
      requires Base(gone) && i < |lru.order| && lru.order[i] == e
      modifies lru`order, inUse`order, Nodes(lru)`next, Nodes(lru)`prev, Nodes(inUse)`next, Nodes(inUse)`prev
      ensures Base(gone) && Cached() == old(Cached())
      ensures lru.order == Without(old(lru.order), i) && inUse.order == old(inUse.order) + [e]
      ensures SetOf(lru.order) == old(SetOf(lru.order)) - {e}
    {
      hide Distinct, HandleList.Valid, Charge, Members, HandleTable.Valid;
      ChargeWithout(lru.order, i);
      ChargeAppend(inUse.order, e);
      Take(lru, inUse, e, i);
      Give(inUse, lru, e);
    }

    /** From the in-use list to the newest end of the LRU list. */
    method Demote(e: LRUHandle, ghost i: nat, ghost gone: set<LRUHandle>)
      requires Base(gone) && i < |inUse.order| && inUse.order[i] == e
      modifies lru`order, inUse`order, Nodes(lru)`next, Nodes(lru)`prev, Nodes(inUse)`next, Nodes(inUse)`prev
      ensures Base(gone) && Cached() == old(Cached())
      ensures lru.order == old(lru.order) + [e] && inUse.order == Without(old(inUse.order), i)
      ensures SetOf(inUse.order) == old(SetOf(inUse.order)) - {e}
    {
      hide Distinct, HandleList.Valid, Charge, Members, HandleTable.Valid;
      ChargeWithout(inUse.order, i);
      ChargeAppend(lru.order, e);
      Take(inUse, lru, e, i);
      Give(lru, inUse, e);
    }

    /** Ref: a client takes a reference; an idle entry leaves the LRU list. */
    method Ref(e: LRUHandle, ghost i: nat)
      requires Valid() && e in Cached()
      requires e in lru.order ==> i < |lru.order| && lru.order[i] == e
      modifies `held, lru`order, inUse`order, Nodes(lru)`next, Nodes(lru)`prev, Nodes(inUse)`next, Nodes(inUse)`prev, e`refs
      ensures Valid() && held == old(held) + multiset{e}
      ensures Cached() == old(Cached()) && e in inUse.order
      ensures lru.order == if old(e in lru.order) then Without(old(lru.order), i) else old(lru.order)
      ensures inUse.order == old(inUse.order) + if old(e in lru.order) then [e] else []
    {
      hide LRUCache.Base, Without;
      BaseFacts({});
      assert CountOk(e);
      if e.refs == 1 && e.inCache {
        Promote(e, i, {});
        BaseFacts({});
        forall h | h in Handles() && h != e
          ensures CountOk(h)
        {
          assert old(CountOk(h));
        }
      }
      AddRef(e);
    }

    /** One more client reference to an entry off the LRU list. */
    method AddRef(e: LRUHandle)
      requires Base({}) && e in inUse.order && e.inCache && e.refs == held[e] + 1
      requires forall h :: h in Handles() && h != e ==> CountOk(h)
      modifies `held, e`refs
      ensures Valid() && held == old(held) + multiset{e}
    {
      hide LRUCache.Lists, Distinct, Charge, HandleTable.Valid, Members;
      ListFacts();
      e.refs := e.refs + 1;
      held := held + multiset{e};
      assert Handles() == old(Handles());
      forall h | h in Handles() && h != e
        ensures CountOk(h)
      {
        assert old(CountOk(h));
      }
    }

    /** Unref: drop a reference the counts no longer know of. The last reference runs the
        deleter; the last client's moves a cached entry to the LRU list. */
    method Unref(e: LRUHandle, ghost i: nat, ghost gone: set<LRUHandle>)
      requires Base(gone) && forall h :: h in Handles() && h != e ==> CountOk(h)
      requires e.refs == held[e] + (if e.inCache then 1 else 0) + 1
      requires (e.inCache <==> e in Cached()) && (e in Cached() ==> i < |inUse.order| && inUse.order[i] == e)
      requires e !in deleted && e != lru.head && e != inUse.head
      modifies e`refs, `deleted, lru`order, inUse`order, Nodes(lru)`next, Nodes(lru)`prev, Nodes(inUse)`next, Nodes(inUse)`prev
      ensures Base(gone) && Counted() && Cached() == old(Cached())
      ensures deleted == old(deleted) + if held[e] == 0 && !e.inCache then [e] else []
      ensures lru.order == old(lru.order) + if held[e] == 0 && e.inCache then [e] else []
      ensures inUse.order == if held[e] == 0 && e.inCache then Without(old(inUse.order), i) else old(inUse.order)
    {
      hide LRUCache.Base, Without;
      BaseFacts(gone);
      e.refs := e.refs - 1;
      if e.refs == 0 {
        RunDeleter(e, gone);
      } else if e.inCache && e.refs == 1 {
        Demote(e, i, gone);
        BaseFacts(gone);
      }
      forall h | h in Handles()
        ensures CountOk(h)
      {
        assert h != e ==> old(CountOk(h));
      }
    }

    method RunDeleter(e: LRUHandle, ghost gone: set<LRUHandle>)
      requires Base(gone) && e !in deleted && e !in Handles()
      modifies `deleted
      ensures Base(gone) && deleted == old(deleted) + [e]
    {
      deleted := deleted + [e];
    }

    /** Release. */
    method Release(e: LRUHandle, ghost i: nat)
      requires Valid() && e in held
      requires e in inUse.order ==> i < |inUse.order| && inUse.order[i] == e
      modifies e`refs, `held, `deleted, lru`order, inUse`order, Nodes(lru)`next, Nodes(lru)`prev, Nodes(inUse)`next, Nodes(inUse)`prev
      ensures Valid() && held == old(held) - multiset{e} && Cached() == old(Cached())
      ensures deleted == old(deleted) + if held[e] == 0 && !e.inCache then [e] else []
      ensures lru.order == old(lru.order) + if held[e] == 0 && e.inCache then [e] else []
      ensures inUse.order == if held[e] == 0 && e.inCache then Without(old(inUse.order), i) else old(inUse.order)
    {
      hide Without, LRUCache.Base, LRUCache.CountOk, LRUCache.Handles;
      ForgetHeld(e);
      Unref(e, i, {});
    }

    /** The client's reference no longer counts. */
    method ForgetHeld(e: LRUHandle)
      requires Valid() && e in held
      modifies `held
      ensures held == old(held) - multiset{e} && Base({})
      ensures forall h :: h in Handles() && h != e ==> CountOk(h)
      ensures e.refs == held[e] + (if e.inCache then 1 else 0) + 1
      ensures (e.inCache <==> e in Cached()) && (e in Cached() ==> e in inUse.order)
      ensures e !in deleted && e != lru.head && e != inUse.head
    {
      hide LRUCache.Lists, Distinct, Charge, HandleTable.Valid, Members;
      assert CountOk(e);
      assert e in Handles() && e !in SetOf(deleted);
      held := held - multiset{e};
      forall h | h in Handles() && h != e
        ensures CountOk(h)
      {
        assert old(CountOk(h));
      }
    }

    /** Take an entry that left the table off its list, and its charge off the usage. */
    method Drop(e: LRUHandle, ghost i: nat)
      requires Base({e}) && e in Cached()
      requires if e in lru.order then i < |lru.order| && lru.order[i] == e else i < |inUse.order| && inUse.order[i] == e
      modifies `usage, lru`order, inUse`order, Nodes(lru)`next, Nodes(lru)`prev, Nodes(inUse)`next, Nodes(inUse)`prev
      ensures Base({}) && Cached() == old(Cached()) - {e} && usage == old(usage) - e.charge
      ensures lru.order == if old(e in lru.order) then Without(old(lru.order), i) else old(lru.order)
      ensures inUse.order == if old(e in lru.order) then old(inUse.order) else Without(old(inUse.order), i)
    {
      hide Distinct, HandleList.Valid, Charge, Members, HandleTable.Valid;
      ghost var from, other := if e in lru.order then lru else inUse, if e in lru.order then inUse else lru;
      ChargeWithout(from.order, i);
      Take(from, other, e, i);
      usage := usage - e.charge;
    }

    /** FinishErase: an entry that was taken from the table leaves its list and loses the cache's reference. */
    method FinishErase(e: LRUHandle, ghost i: nat)
      requires Base({e}) && Counted() && e in Cached()
      requires if e in lru.order then i < |lru.order| && lru.order[i] == e else i < |inUse.order| && inUse.order[i] == e
      modifies `usage, `deleted, e`refs, e`inCache, lru`order, inUse`order, Nodes(lru)`next, Nodes(lru)`prev, Nodes(inUse)`next, Nodes(inUse)`prev
      ensures Valid() && Cached() == old(Cached()) - {e} && usage == old(usage) - e.charge
      ensures deleted == old(deleted) + if held[e] == 0 then [e] else []
      ensures lru.order == if old(e in lru.order) then Without(old(lru.order), i) else old(lru.order)
      ensures inUse.order == if old(e in lru.order) then old(inUse.order) else Without(old(inUse.order), i)
    {
      hide Without, LRUCache.Base, Distinct, HandleList.Valid, HandleTable.Valid, Charge, Members;
      EntryFacts(e);
      Drop(e, i);
      e.inCache := false;
      BaseFacts({});
      forall h | h in Handles() && h != e
        ensures CountOk(h)
      {
        assert old(CountOk(h));
      }
      Unref(e, 0, {});
    }

    lemma EntryFacts(e: LRUHandle)
      requires Base({e}) && Counted() && e in Cached()
      ensures e !in deleted && e != lru.head && e != inUse.head && e.refs == held[e] + 1
    {
      assert CountOk(e);
    }

    /** Lookup. */
    method Lookup(key: seq<Byte>, hash: nat) returns (e: LRUHandle?)
      requires Valid()
      modifies this, lru, inUse, Nodes(lru), Nodes(inUse)
      ensures Valid() && Cached() == old(Cached()) && deleted == old(deleted) && usage == old(usage)
      ensures e == null ==> held == old(held) && forall h :: h in Cached() ==> !SameKey(h, key, hash)
      ensures e != null ==> e in Cached() && SameKey(e, key, hash) && held == old(held) + multiset{e}
      ensures lru.order == Others(old(lru.order), key, hash)
      ensures inUse.order == old(inUse.order) + Matching(old(lru.order), key, hash)
    {
      hide Without, Removed, LRUCache.Base, LRUCache.CountOk, Matching, Others, HandleTable.Valid, HandleList.Valid, Charge, Distinct, Members;
      BaseFacts({});
      KeysApart();
      e := table.Lookup(key, hash);
      if e != null {
        RefCached(e);
      }
      Displaced(old(lru.order), key, hash, e, lru.order);
    }

    /** Ref on an entry of either list. */
    method RefCached(e: LRUHandle)
      requires Valid() && e in Cached()
      modifies `held, lru`order, inUse`order, Nodes(lru)`next, Nodes(lru)`prev, Nodes(inUse)`next, Nodes(inUse)`prev, e`refs
      ensures Valid() && held == old(held) + multiset{e} && Cached() == old(Cached())
      ensures Removed(old(lru.order), e, lru.order)
      ensures inUse.order == old(inUse.order) + if old(e in lru.order) then [e] else []
    {
      hide Without, LRUCache.Base, LRUCache.CountOk;
      ghost var i: nat := 0;
      if e in lru.order {
        i :| i < |lru.order| && lru.order[i] == e;
        assert IsAt(lru.order, i, e);
      }
      Ref(e, i);
    }

    /** Drop the entry that has been unused longest. */
    method EvictOldest()
      requires Valid() && lru.order != []
      modifies `usage, `deleted, lru, inUse, Nodes(lru), Nodes(inUse), table, table.list
      ensures Valid() && held == old(held) && lru.order == old(lru.order)[1..] && inUse.order == old(inUse.order)
      ensures table.list == old(table.list)
      ensures deleted == old(deleted) + [old(lru.order)[0]] && usage == old(usage) - old(lru.order)[0].charge
    {
      hide LRUCache.Base, LRUCache.CountOk;
      BaseFacts({});
      var e := lru.Oldest();
      IdleFacts(e);
      assert e in Cached() && SameKey(e, e.key, e.hash);
      var r := Untable(e.key, e.hash);
      FinishErase(r, 0);
    }

    /** Take the entry with the key out of the hash table. */
    method Untable(key: seq<Byte>, hash: nat) returns (r: LRUHandle?)
      requires Valid()
      modifies table, table.list, Cached()`nextHash
      ensures Base(if r == null then {} else {r}) && Counted() && table.list == old(table.list)
      ensures r != null ==> r in Cached() && SameKey(r, key, hash)
      ensures forall h :: h in Cached() && SameKey(h, key, hash) ==> h == r
    {
      hide LRUCache.Lists, Distinct, Charge, HandleTable.Valid, Members, LRUCache.CountOk;
      KeysApart();
      r := table.Remove(key, hash);
    }

    lemma IdleFacts(e: LRUHandle)
      requires Valid() && e in lru.order
      ensures held[e] == 0
    {
      assert CountOk(e);
    }

    /** Evict idle entries, oldest first, while the usage is above the capacity. */
    method EvictToCapacity(ghost from: seq<LRUHandle>, ghost before: nat)
      requires Valid() && from == lru.order && before == usage
      modifies `usage, `deleted, lru, inUse, Nodes(lru), Nodes(inUse), table, table.list
      ensures Valid() && held == old(held) && inUse.order == old(inUse.order)
      ensures usage <= capacity || lru.order == []
      ensures exists n: nat :: Evicted(from, before, n) && lru.order == from[n..] && deleted == old(deleted) + from[..n]
    {
      hide LRUCache.Base, LRUCache.CountOk, LRUCache.Evicted, Charge, Distinct, HandleList.Valid, HandleTable.Valid, Members;
      ghost var n: nat := 0;
      ghost var was := deleted;
      EvictedNone(from, before);
      assert from[0..] == from && from[..0] == [] && deleted == was + from[..0];
      var more := true;
      while more
        invariant n <= |from| && lru.order == from[n..] && table.list == old(table.list)
        invariant Valid() && held == old(held) && inUse.order == old(inUse.order)
        invariant Evicted(from, before, n) && usage == before - Charge(from[..n])
        invariant deleted == was + from[..n]
        invariant !more ==> usage <= capacity || lru.order == []
        decreases more, |from| - n
      {
        var oldest: LRUHandle? := null;
        if usage > capacity {
          BaseFacts({});
          oldest := lru.Oldest();
        }
        if oldest == null {
          more := false;
        } else {
          EvictionStep(from, before, n);
          assert SetOf(lru.order) <= SetOf(from);
          EvictOldest();
          n := n + 1;
        }
      }
    }

    /** Evicting the first `n` entries was needed: with fewer gone the usage is too high. */
    ghost predicate Evicted(from: seq<LRUHandle>, before: nat, n: nat) {
      && n <= |from|
      && Charge(from[..n]) <= before
      && forall m :: 0 <= m < n ==> before - Charge(from[..m]) > capacity
    }

    lemma EvictedNone(from: seq<LRUHandle>, before: nat)
      ensures Evicted(from, before, 0) && Charge(from[..0]) == 0
    {
    }

    lemma EvictionStep(from: seq<LRUHandle>, before: nat, n: nat)
      requires Valid() && n < |from| && lru.order == from[n..]
      requires Evicted(from, before, n) && usage == before - Charge(from[..n]) && usage > capacity
      ensures Evicted(from, before, n + 1) && Charge(from[..n + 1]) == Charge(from[..n]) + from[n].charge
      ensures from[..n + 1] == from[..n] + [from[n]] && from[n + 1..] == lru.order[1..]
    {
      assert from[..n + 1] == from[..n] + [from[n]];
      ChargeAppend(from[..n], from[n]);
      ChargeWithout(lru.order, 0);
    }

    /** Prune: every idle entry goes, oldest first. */
    method Prune()
      requires Valid()
      modifies `usage, `deleted, lru, inUse, Nodes(lru), Nodes(inUse), table, table.list
      ensures Valid() && held == old(held) && lru.order == [] && inUse.order == old(inUse.order)
      ensures deleted == old(deleted) + old(lru.order)
    {
      hide LRUCache.Base, LRUCache.CountOk;
      ghost var n: nat, from, was := 0, lru.order, deleted;
      assert from[0..] == from && from[..0] == [] && deleted == was + from[..0];
      var more := true;
      while more
        invariant n <= |from| && lru.order == from[n..] && table.list == old(table.list)
        invariant Valid() && held == old(held) && inUse.order == old(inUse.order)
        invariant deleted == was + from[..n]
        invariant !more ==> lru.order == []
        decreases more, |from| - n
      {
        BaseFacts({});
        var oldest := lru.Oldest();
        if oldest == null {
          more := false;
        } else {
          assert from[..n + 1] == from[..n] + [from[n]] && from[n + 1..] == lru.order[1..];
          assert SetOf(lru.order) <= SetOf(from);
          EvictOldest();
          n := n + 1;
        }
      }
      assert from[..n] == from;
    }

    /** FinishErase on an entry of either list. */
    method Displace(r: LRUHandle)
      requires Base({r}) && Counted() && r in Cached()
      modifies `usage, `deleted, r`refs, r`inCache, lru`order, inUse`order, Nodes(lru)`next, Nodes(lru)`prev, Nodes(inUse)`next, Nodes(inUse)`prev
      ensures Valid() && Cached() == old(Cached()) - {r} && usage == old(usage) - r.charge
      ensures deleted == old(deleted) + if old(r in lru.order) then [r] else []
      ensures Removed(old(lru.order), r, lru.order) && Removed(old(inUse.order), r, inUse.order)
    {
      ghost var i: nat := 0;
      ListsApart({r});
      assert CountOk(r);
      if r in lru.order {
        i :| i < |lru.order| && lru.order[i] == r;
      } else {
        i :| i < |inUse.order| && inUse.order[i] == r;
      }
      assert IsAt(if r in lru.order then lru.order else inUse.order, i, r);
      FinishErase(r, i);
    }

    lemma ListsApart(gone: set<LRUHandle>)
      requires Base(gone)
      ensures SetOf(lru.order) !! SetOf(inUse.order)
    {
    }

    /** Erase: the entry leaves the cache; its deleter runs now if no client holds it. */
    method Erase(key: seq<Byte>, hash: nat)
      requires Valid()
      modifies `usage, `deleted, lru, inUse, Nodes(lru), Nodes(inUse), table, table.list
      ensures Valid() && held == old(held)
      ensures lru.order == Others(old(lru.order), key, hash) && inUse.order == Others(old(inUse.order), key, hash)
      ensures deleted == old(deleted) + Matching(old(lru.order), key, hash)
    {
      hide LRUCache.CountOk, LRUCache.Base, Without, Matching, Others;
      BaseFacts({});
      var r := Untable(key, hash);
      if r != null {
        Displace(r);
      }
      Displaced(old(lru.order), key, hash, r, lru.order);
      Displaced(old(inUse.order), key, hash, r, inUse.order);
    }

    /** The new entry is on the in-use list, charged and in the table; `r` is the entry it displaced there. */
    method Enter(e: LRUHandle) returns (r: LRUHandle?)
      requires Valid() && e !in Handles() && e !in deleted && e != lru.head && e != inUse.head
      requires e.refs == 1 && !e.inCache
      modifies `usage, `held, lru, inUse, Nodes(lru), Nodes(inUse), table, table.list, e
      ensures Base(if r == null then {} else {r}) && Counted()
      ensures held == old(held) + multiset{e} && deleted == old(deleted) && usage == old(usage) + e.charge
      ensures lru.order == old(lru.order) && inUse.order == old(inUse.order) + [e]
      ensures table.list == old(table.list) || fresh(table.list)
      ensures r != null ==> r in old(Cached()) && SameKey(r, e.key, e.hash)
      ensures forall h :: h in old(Cached()) && SameKey(h, e.key, e.hash) ==> h == r
    {
      hide LRUCache.CountOk, LRUCache.Base;
      BaseFacts({});
      NewRefs(e);
      OnList(e);
      r := InTable(e);
    }

    /** Put the entry into the hash table. */
    method InTable(e: LRUHandle) returns (r: LRUHandle?)
      requires Base({e}) && Counted() && e in Cached()
      modifies table, table.list, Cached()`nextHash
      ensures Base(if r == null then {} else {r}) && Counted()
      ensures table.list == old(table.list) || fresh(table.list)
      ensures r != null ==> r in Cached() && r != e && SameKey(r, e.key, e.hash)
      ensures forall h :: h in Cached() && h != e && SameKey(h, e.key, e.hash) ==> h == r
    {
      hide LRUCache.Lists, Distinct, Charge, HandleTable.Valid, Members, LRUCache.CountOk;
      KeysApart();
      r := table.Insert(e);
    }

    lemma KeysApart()
      requires table.Valid()
      ensures UniqueKeys(table.All())
    {
    }

    /** Insert. The caller gets a reference; an entry with the same key is displaced; then idle
        entries are evicted, oldest first, until the usage fits or none is left. */
    method Insert(key: seq<Byte>, hash: nat, value: int, charge: nat) returns (e: LRUHandle)
      requires Valid()
      modifies `usage, `held, `deleted, lru, inUse, Nodes(lru), Nodes(inUse), table, table.list
      ensures Valid() && fresh(e) && held == old(held) + multiset{e}
      ensures e.key == key && e.hash == hash && e.value == value && e.charge == charge
      ensures inUse.order == if capacity > 0 then Others(old(inUse.order), key, hash) + [e] else old(inUse.order)
      ensures var from := if capacity > 0 then Others(old(lru.order), key, hash) else old(lru.order);
        var displaced := if capacity > 0 then Matching(old(lru.order), key, hash) else [];
        exists n: nat :: Evicted(from, Charge(from) + Charge(inUse.order), n)
          && lru.order == from[n..] && deleted == old(deleted) + displaced + from[..n]
      ensures usage == Charge(lru.order) + Charge(inUse.order) && (usage <= capacity || lru.order == [])
      ensures e in Cached() <==> capacity > 0
      ensures capacity > 0 ==> forall h :: h in Cached() && SameKey(h, key, hash) ==> h == e
    {
      hide LRUCache.CountOk, LRUCache.Base, Matching, Others, Charge, LRUCache.Evicted, Distinct, HandleList.Valid, HandleTable.Valid, Members;
      BaseFacts({});
      e := new LRUHandle(key, hash, value, charge);
      if capacity > 0 {
        Admit(e);
      } else {
        HoldOnly(e);
      }
      UsageFact();
      ghost var from := lru.order;
      EvictToCapacity(from, usage);
      UsageFact();
      assert SetOf(lru.order) <= SetOf(from);
    }

    lemma UsageFact()
      requires Valid()
      ensures usage == Charge(lru.order) + Charge(inUse.order)
    {
    }

    /** Enter the cache and displace an entry with the same key. */
    method Admit(e: LRUHandle)
      requires Valid() && e !in Handles() && e !in deleted && e != lru.head && e != inUse.head
      requires e.refs == 1 && !e.inCache
      modifies `usage, `held, `deleted, lru, inUse, Nodes(lru), Nodes(inUse), table, table.list, e
      ensures Valid() && held == old(held) + multiset{e}
      ensures table.list == old(table.list) || fresh(table.list)
      ensures lru.order == Others(old(lru.order), e.key, e.hash)
      ensures inUse.order == Others(old(inUse.order), e.key, e.hash) + [e]
      ensures Cached() <= old(Cached()) + {e}
      ensures deleted == old(deleted) + Matching(old(lru.order), e.key, e.hash)
      ensures forall h :: h in Cached() && SameKey(h, e.key, e.hash) ==> h == e
    {
      hide LRUCache.CountOk, LRUCache.Base, Without, Matching, Others;
      BaseFacts({});
      var r := Enter(e);
      if r != null {
        Displace(r);
        RemovedBefore(old(inUse.order), e, r, inUse.order);
      }
      Displaced(old(lru.order), e.key, e.hash, r, lru.order);
      Displaced(old(inUse.order), e.key, e.hash, r, inUse.order[..|inUse.order| - 1]);
      OthersWithin(old(lru.order), e.key, e.hash);
      OthersWithin(old(inUse.order), e.key, e.hash);
    }

    /** Taking another entry out of a list that `e` was appended to. */
    lemma WithoutBefore(s: seq<LRUHandle>, e: LRUHandle, i: nat)
      requires i < |s|
      ensures Without(s + [e], i) == Without(s, i) + [e]
    {
    }

    lemma RemovedBefore(s: seq<LRUHandle>, e: LRUHandle, r: LRUHandle, t: seq<LRUHandle>)
      requires r != e && Removed(s + [e], r, t)
      ensures |t| > 0 && t == t[..|t| - 1] + [e] && Removed(s, r, t[..|t| - 1])
    {
      hide Without;
      if r in s {
        var i: nat :| IsAt(s + [e], i, r) && t == Without(s + [e], i);
        assert IsAt(s, i, r);
        WithoutBefore(s, e, i);
      } else {
        assert r !in s + [e];
      }
    }

    /** With capacity 0 the entry belongs to the client alone. */
    method HoldOnly(e: LRUHandle)
      requires Valid() && e !in Handles() && e !in deleted && e != lru.head && e != inUse.head
      requires e.refs == 1 && !e.inCache
      modifies `held
      ensures Valid() && held == old(held) + multiset{e}
    {
      hide LRUCache.Lists, Distinct, Charge, HandleTable.Valid, Members;
      held := held + multiset{e};
      forall h | h in Handles()
        ensures CountOk(h)
      {
        assert h != e ==> old(CountOk(h));
      }
    }

    /** The client's reference and the cache's. */
    method NewRefs(e: LRUHandle)
      requires Valid() && e !in Handles() && e !in deleted && e != lru.head && e != inUse.head
      requires e.refs == 1 && !e.inCache
      modifies `held, e`refs, e`inCache
      ensures held == old(held) + multiset{e} && e.refs == 2 && e.inCache
      ensures Base({}) && forall h :: h in Handles() && h != e ==> CountOk(h)
      ensures held[e] == 1
    {
      hide LRUCache.Lists, Distinct, Charge, HandleTable.Valid, Members;
      held := held + multiset{e};
      e.refs := e.refs + 1;
      e.inCache := true;
      forall h | h in Handles() && h != e
        ensures CountOk(h)
      {
        assert old(CountOk(h));
      }
    }

    method OnList(e: LRUHandle)
      requires Base({}) && e !in Cached() && e !in deleted && e != lru.head && e != inUse.head
      requires e in held && held[e] == 1 && e.refs == 2 && e.inCache
      requires forall h :: h in Handles() && h != e ==> CountOk(h)
      modifies `usage, lru`order, inUse`order, e`next, e`prev, Nodes(inUse)`next, Nodes(inUse)`prev
      ensures Base({e}) && Counted() && usage == old(usage) + e.charge
      ensures lru.order == old(lru.order) && inUse.order == old(inUse.order) + [e]
    {
      hide Distinct, HandleList.Valid, Charge, Members, HandleTable.Valid;
      ChargeAppend(inUse.order, e);
      Give(inUse, lru, e);
      usage := usage + e.charge;
      assert Cached() == old(Cached()) + {e};
      forall h | h in Handles()
        ensures CountOk(h)
      {
        assert h != e ==> old(CountOk(h));
      }
    }
  }
}
