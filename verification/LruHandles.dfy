/** Cache entries, the circular lists they hang on, and the hash table that finds them (cache.cc). */
module LruHandles {
  import opened Coding

  class LRUHandle {
    const key: seq<Byte>
    const hash: nat
    const value: int
    const charge: nat
    var nextHash: LRUHandle?
    var next: LRUHandle?
    var prev: LRUHandle?
    var inCache: bool
    var refs: nat

    constructor (key: seq<Byte>, hash: nat, value: int, charge: nat)
      ensures this.key == key && this.hash == hash && this.value == value && this.charge == charge
      ensures nextHash == null && next == null && prev == null && !inCache && refs == 1
    {
      this.key, this.hash, this.value, this.charge := key, hash, value, charge;
      nextHash, next, prev, inCache, refs := null, null, null, false, 1;
    }
  }

  ghost predicate Distinct(s: seq<LRUHandle>) {
    forall i, j :: 0 <= i < j < |s| ==> s[i] != s[j]
  }

  ghost function SetOf(s: seq<LRUHandle>): set<LRUHandle> {
    set h | h in s
  }

  // ----- circular doubly linked lists -----

  /** A list with a dummy head. `order` runs from the oldest entry, head.next, to the newest. */
  class HandleList {
    const head: LRUHandle
    ghost var order: seq<LRUHandle>

    /** Entry 0 and entry |order| + 1 of the circle are the head. */
    ghost function N(i: nat): LRUHandle
      reads this
    {
      if 0 < i <= |order| then order[i - 1] else head
    }

    /** Entries `i` and `i + 1` of the circle point at each other. */
    ghost predicate Joined(i: nat)
      reads this, N(i)`next, N(i + 1)`prev
    {
      N(i).next == N(i + 1) && N(i + 1).prev == N(i)
    }

    ghost predicate Valid()
      reads this, head`next, head`prev, SetOf(order)`next, SetOf(order)`prev
    {
      && head !in order
      && Distinct(order)
      && forall i: nat :: i <= |order| ==> Joined(i)
    }

    constructor ()
      ensures Valid() && order == [] && fresh(head)
    {
      head := new LRUHandle([], 0, 0, 0);
      order := [];
      new;
      head.next, head.prev := head, head;
    }

    /** LRU_Append: `e` becomes the newest entry, just before the head. */
    method Append(e: LRUHandle)
      requires Valid() && e !in order && e != head
      modifies `order, e`next, e`prev, head`prev, N(|order|)`next
      ensures Valid() && order == old(order) + [e]
    {
      ghost var n := |order|;
      assert Joined(n);
      e.next := head;
      e.prev := head.prev;
      e.prev.next := e;
      e.next.prev := e;
      order := order + [e];
      forall k: nat | k <= |order|
        ensures Joined(k)
      {
        if k < n {
          assert old(Joined(k));
        }
      }
    }

    /** The oldest entry, if any. */
    method Oldest() returns (e: LRUHandle?)
      requires Valid()
      ensures e == if order == [] then null else order[0]
    {
      assert Joined(0);
      e := if head.next == head then null else head.next;
    }
  }

  /** LRU_Remove: unlink entry `i` of whatever list `e` is on. */
  method LruRemove(e: LRUHandle, ghost l: HandleList, ghost i: nat)
    requires l.Valid() && i < |l.order| && l.order[i] == e
    modifies l`order, l.N(i)`next, l.N(i + 2)`prev
    ensures l.Valid() && l.order == Without(old(l.order), i)
  {
    assert l.Joined(i) && l.Joined(i + 1);
    e.next.prev := e.prev;
    e.prev.next := e.next;
    l.order := Without(l.order, i);
    forall k: nat | k <= |l.order|
      ensures l.Joined(k)
    {
      assert old(l.Joined(if k < i then k else k + 1));
      assert k <= i ==> l.N(k) == old(l.N(k));
      assert k > i ==> l.N(k) == old(l.N(k + 1));
      assert k + 1 <= i ==> l.N(k + 1) == old(l.N(k + 1));
      assert k + 1 > i ==> l.N(k + 1) == old(l.N(k + 2));
    }
  }

  ghost function Nodes(l: HandleList): set<LRUHandle>
    reads l
  {
    SetOf(l.order) + {l.head}
  }

  /** Two lists that share no node. */
  ghost predicate Apart(a: HandleList, b: HandleList)
    reads a, b
  {
    a != b && Nodes(a) !! Nodes(b)
  }

  function Without(s: seq<LRUHandle>, i: nat): seq<LRUHandle> {
    if i < |s| then s[..i] + s[i + 1..] else s
  }

  lemma WithoutMembers(s: seq<LRUHandle>, i: nat)
    requires i < |s| && Distinct(s)
    ensures Distinct(Without(s, i)) && SetOf(Without(s, i)) == SetOf(s) - {s[i]}
  {
    var w := Without(s, i);
    forall x
      ensures x in w <==> x in s && x != s[i]
    {
      if x in s && x != s[i] {
        var j :| 0 <= j < |s| && s[j] == x;
        assert w[if j < i then j else j - 1] == x;
      }
    }
  }

  /** LRU_Remove from one list, the other is untouched. */
  method Take(ghost from: HandleList, ghost other: HandleList, e: LRUHandle, ghost i: nat)
    requires from.Valid() && other.Valid() && Apart(from, other)
    requires i < |from.order| && from.order[i] == e
    modifies from`order, Nodes(from)`next, Nodes(from)`prev
    ensures from.Valid() && other.Valid() && Apart(from, other)
    ensures from.order == Without(old(from.order), i) && e !in Nodes(from) && e !in Nodes(other)
    ensures SetOf(from.order) == old(SetOf(from.order)) - {e}
  {
    WithoutMembers(from.order, i);
    LruRemove(e, from, i);
    forall k: nat | k <= |other.order|
      ensures other.Joined(k)
    {
      assert old(other.Joined(k));
      assert other.N(k) in Nodes(other) && other.N(k + 1) in Nodes(other);
    }
  }

  /** LRU_Append to one list, the other is untouched. */
  method Give(to: HandleList, other: HandleList, e: LRUHandle)
    requires to.Valid() && other.Valid() && Apart(to, other)
    requires e !in Nodes(to) && e !in Nodes(other)
    modifies to`order, e`next, e`prev, Nodes(to)`next, Nodes(to)`prev
    ensures to.Valid() && other.Valid() && Apart(to, other)
    ensures to.order == old(to.order) + [e]
  {
    to.Append(e);
    forall k: nat | k <= |other.order|
      ensures other.Joined(k)
    {
      assert old(other.Joined(k));
      assert other.N(k) in Nodes(other) && other.N(k + 1) in Nodes(other);
    }
  }

  // ----- the hash table -----

  /** The chain of a bucket: from the bucket's slot along nextHash to null. */
  ghost predicate Chain(first: LRUHandle?, chain: seq<LRUHandle>)
    reads SetOf(chain)`nextHash
  {
    && first == Follow(chain, 0)
    && forall i: nat :: i < |chain| ==> LinkAt(chain, i)
  }

  ghost function Follow(chain: seq<LRUHandle>, i: nat): LRUHandle? {
    if i < |chain| then chain[i] else null
  }

  ghost predicate LinkAt(chain: seq<LRUHandle>, i: nat)
    requires i < |chain|
    reads SetOf(chain)`nextHash
  {
    chain[i].nextHash == Follow(chain, i + 1)
  }

  ghost function Members(chains: seq<seq<LRUHandle>>): set<LRUHandle> {
    set b, h | 0 <= b < |chains| && h in chains[b] :: h
  }

  ghost function Total(chains: seq<seq<LRUHandle>>): nat {
    if chains == [] then 0 else Total(chains[..|chains| - 1]) + |chains[|chains| - 1]|
  }

  lemma {:induction false} TotalUpdate(chains: seq<seq<LRUHandle>>, b: nat, chain: seq<LRUHandle>)
    requires b < |chains|
    ensures Total(chains[b := chain]) == Total(chains) - |chains[b]| + |chain|
    ensures Total(chains) >= |chains[b]|
    decreases |chains|
  {
    var n := |chains| - 1;
    if b < n {
      TotalUpdate(chains[..n], b, chain);
      assert chains[b := chain][..n] == chains[..n][b := chain];
    } else {
      assert chains[b := chain][..n] == chains[..n];
    }
  }

  /** Every handle is in the bucket of its hash, once. */
  ghost predicate Placed(chains: seq<seq<LRUHandle>>) {
    forall b :: 0 <= b < |chains| ==> Distinct(chains[b]) && forall h :: h in chains[b] ==> Remainder(h.hash, |chains|) == b
  }

  predicate SameKey(h: LRUHandle, key: seq<Byte>, hash: nat) {
    h.hash == hash && h.key == key
  }

  /** At most one handle per key. */
  ghost predicate UniqueKeys(S: set<LRUHandle>) {
    forall g, h :: g in S && h in S && SameKey(g, h.key, h.hash) ==> g == h
  }

  // ----- the bucket of a hash -----

  predicate IsPowerOfTwo(n: nat) {
    n == 1 || (n > 1 && n % 2 == 0 && IsPowerOfTwo(n / 2))
  }

  /** Bitwise and. */
  function BitAnd(a: nat, b: nat): nat {
    if a == 0 || b == 0 then 0 else (if a % 2 == 1 && b % 2 == 1 then 1 else 0) + 2 * BitAnd(a / 2, b / 2)
  }

  function Remainder(a: nat, m: nat): nat
    requires m > 0
  {
    a % m
  }

  /** The low bits of a hash are its remainder, as the table's length is a power of two. */
  lemma {:induction false} MaskIsModulo(hash: nat, length: nat)
    requires IsPowerOfTwo(length)
    ensures BitAnd(hash, length - 1) == Remainder(hash, length)
  {
    hide Remainder;
    if length == 1 || hash == 0 {
      SmallRemainder(hash, length);
    } else {
      MaskIsModulo(hash / 2, length / 2);
      HalfRemainder(hash, length / 2);
    }
  }

  lemma SmallRemainder(a: nat, m: nat)
    requires m > 0
    ensures m == 1 || a == 0 ==> Remainder(a, m) == 0
  {
  }

  lemma HalfRemainder(a: nat, half: nat)
    requires half > 0
    ensures Remainder(a, 2 * half) == a % 2 + 2 * Remainder(a / 2, half)
  {
    var q, r := a / 2 / half, Remainder(a / 2, half);
    Division(a / 2, half);
    Doubled(q, half);
    RemainderOf(a, q, 2 * half, a % 2 + 2 * r);
  }

  lemma Division(a: nat, m: nat)
    requires m > 0
    ensures a == a / m * m + Remainder(a, m) && Remainder(a, m) < m
  {
  }

  lemma Doubled(q: nat, half: nat)
    ensures q * (2 * half) == 2 * (q * half)
  {
  }

  lemma RemainderOf(a: nat, q: nat, m: nat, r: nat)
    requires r < m && a == q * m + r
    ensures Remainder(a, m) == r
  {
    hide Remainder;
    var p := a / m;
    Division(a, m);
    Scaled(p + 1, q, m);
    Scaled(q + 1, p, m);
    Next(p, m);
    Next(q, m);
  }

  lemma Scaled(x: nat, y: nat, m: nat)
    ensures x <= y ==> x * m <= y * m
  {
  }

  lemma Next(x: nat, m: nat)
    ensures (x + 1) * m == x * m + m
  {
  }

  /** The bucket of a hash. */
  function Slot(hash: nat, length: nat): (b: nat)
    requires IsPowerOfTwo(length)
    ensures length > 0 && b == Remainder(hash, length) && b < length
  {
    MaskIsModulo(hash, length);
    Division(hash, length);
    BitAnd(hash, length - 1)
  }

  class HandleTable {
    var length: nat
    var elems: nat
    var list: array<LRUHandle?>
    ghost var chains: seq<seq<LRUHandle>>

    ghost function All(): set<LRUHandle>
      reads `chains
    {
      Members(chains)
    }

    ghost predicate Shape()
      reads this
    {
      && length == list.Length == |chains|
      && length > 0 && IsPowerOfTwo(length)
      && Placed(chains)
      && UniqueKeys(All())
      && elems == Total(chains)
    }

    ghost predicate Links()
      reads `list, `chains, list, All()`nextHash
    {
      list.Length == |chains| && forall b :: 0 <= b < |chains| ==> Chain(list[b], chains[b])
    }

    ghost predicate Valid()
      reads this, list, All()`nextHash
    {
      Shape() && Links()
    }

    /** FindPointer: the slot that points to the handle with the key, or the end of its chain.
        A slot is the bucket itself or the nextHash of the handle before. */
    method FindPointer(key: seq<Byte>, hash: nat) returns (b: nat, before: LRUHandle?, found: LRUHandle?, ghost i: nat)
      requires Valid()
      ensures Valid() && b == Remainder(hash, length) && b < length && i <= |chains[b]| && Chain(list[b], chains[b])
      ensures before == if i == 0 then null else chains[b][i - 1]
      ensures found == if i < |chains[b]| then chains[b][i] else null
      ensures found != null ==> found in All() && SameKey(found, key, hash)
      ensures before != null ==> before in All()
      ensures found == null ==> forall h :: h in All() ==> !SameKey(h, key, hash)
    {
      b := Slot(hash, length);
      before, found, i := null, list[b], 0;
      assert Chain(list[b], chains[b]);
      while found != null && !SameKey(found, key, hash)
        invariant i <= |chains[b]|
        invariant before == if i == 0 then null else chains[b][i - 1]
        invariant found == if i < |chains[b]| then chains[b][i] else null
        invariant forall j :: 0 <= j < i ==> !SameKey(chains[b][j], key, hash)
        decreases |chains[b]| - i
      {
        assert LinkAt(chains[b], i);
        before, found, i := found, found.nextHash, i + 1;
      }
      assert forall j :: 0 <= j < |chains[b]| ==> chains[b][j] in chains[b];
    }

    method Lookup(key: seq<Byte>, hash: nat) returns (r: LRUHandle?)
      requires Valid()
      ensures r != null ==> r in All() && SameKey(r, key, hash)
      ensures r == null ==> forall h :: h in All() ==> !SameKey(h, key, hash)
    {
      var b, before;
      ghost var i;
      b, before, r, i := FindPointer(key, hash);
    }

    /** Store into the slot FindPointer returned: what follows position `i` of the chain is now `tail`. */
    method Splice(b: nat, before: LRUHandle?, h: LRUHandle?, ghost i: nat, ghost tail: seq<LRUHandle>)
      requires Links() && Placed(chains) && b < |chains| && i <= |chains[b]|
      requires before == if i == 0 then null else chains[b][i - 1]
      requires Chain(h, tail) && (before != null ==> before !in tail)
      modifies list, `chains, (if before == null then {} else {before})`nextHash
      ensures chains == old(chains)[b := old(chains)[b][..i] + tail]
      ensures Links()
    {
      ghost var was := chains;
      assert Chain(list[b], chains[b]);
      if before == null {
        list[b] := h;
      } else {
        before.nextHash := h;
      }
      chains := chains[b := chains[b][..i] + tail];
      forall c | 0 <= c < |chains|
        ensures Chain(list[c], chains[c])
      {
        assert old(Chain(list[c], chains[c]));
        assert before != null ==> before in was[b] && Remainder(before.hash, |was|) == b;
        forall k: nat | k < |chains[c]|
          ensures LinkAt(chains[c], k)
        {
          if c != b {
            assert old(LinkAt(chains[c], k));
          } else if k < i {
            assert old(LinkAt(chains[b], k));
          } else {
            assert old(LinkAt(tail, k - i));
          }
        }
      }
    }

    /** Remove: unlink the handle with the key. */
    method Remove(key: seq<Byte>, hash: nat) returns (r: LRUHandle?)
      requires Valid()
      modifies this, list, All()`nextHash
      ensures Valid() && list == old(list)
      ensures r != null ==> r in old(All()) && SameKey(r, key, hash) && All() == old(All()) - {r}
      ensures r == null ==> All() == old(All()) && forall h :: h in All() ==> !SameKey(h, key, hash)
    {
      hide Placed, Members, UniqueKeys;
      var b, before;
      ghost var i;
      b, before, r, i := FindPointer(key, hash);
      if r != null {
        InChains(chains, b);
        ghost var tail := chains[b][i + 1..];
        TailChain(list[b], chains[b], i);
        RemovedMembers(chains, b, i);
        TotalUpdate(chains, b, chains[b][..i] + tail);
        Splice(b, before, r.nextHash, i, tail);
        elems := elems - 1;
      }
    }

    constructor ()
      ensures Valid() && All() == {} && fresh(list)
    {
      length, elems := 4, 0;
      list := new LRUHandle?[4](_ => null);
      chains := [[], [], [], []];
      new;
      FourEmpty();
    }

    /** Insert: put `h` in the place of a handle with the same key, or at the end of its chain. */
    method Insert(h: LRUHandle) returns (r: LRUHandle?)
      requires Valid() && h !in All()
      modifies this, list, h`nextHash, All()`nextHash
      ensures Valid() && (list == old(list) || fresh(list))
      ensures r != null ==> r in old(All()) && SameKey(r, h.key, h.hash) && All() == old(All()) - {r} + {h}
      ensures r == null ==> All() == old(All()) + {h} && forall g :: g in old(All()) ==> !SameKey(g, h.key, h.hash)
      ensures elems == old(elems) + if r == null then 1 else 0
      ensures if r == null && old(elems) + 1 > old(length) then length >= 4 && length >= elems && (length == 4 || length / 2 < elems)
        else length == old(length)
    {
      hide Placed, Members, UniqueKeys, HandleTable.Links, Total;
      r := Place(h);
      if r == null {
        elems := elems + 1;
        if elems > length {
          Resize();
        }
      }
    }

    /** Link `h` into its chain, in the place of a handle with the same key. */
    method Place(h: LRUHandle) returns (r: LRUHandle?)
      requires Valid() && h !in All()
      modifies list, `chains, h`nextHash, All()`nextHash
      ensures Links() && length == list.Length == |chains| && IsPowerOfTwo(length) && Placed(chains) && UniqueKeys(All())
      ensures Total(chains) == elems + if r == null then 1 else 0
      ensures r != null ==> r in old(All()) && SameKey(r, h.key, h.hash) && All() == old(All()) - {r} + {h}
      ensures r == null ==> All() == old(All()) + {h} && forall g :: g in old(All()) ==> !SameKey(g, h.key, h.hash)
    {
      hide Placed, Members, UniqueKeys, Chain, HandleTable.Links, Distinct, Total;
      var b, before;
      ghost var i;
      b, before, r, i := FindPointer(h.key, h.hash);
      ghost var rest := if r == null then [] else chains[b][i + 1..];
      InsertedMembers(chains, b, i, h);
      Rest(b, i);
      SetNext(h, if r == null then null else r.nextHash, rest);
      TotalUpdate(chains, b, chains[b][..i] + ([h] + rest));
      Splice(b, before, h, i, [h] + rest);
    }

    lemma Rest(b: nat, i: nat)
      requires Valid() && b < |chains| && i <= |chains[b]|
      ensures if i < |chains[b]| then Chain(chains[b][i].nextHash, chains[b][i + 1..]) else Chain(null, [])
      ensures i < |chains[b]| ==> chains[b][i + 1..] <= chains[b][i + 1..] && forall g :: g in chains[b][i + 1..] ==> g in All()
    {
      InChains(chains, b);
      assert Chain(list[b], chains[b]);
      if i < |chains[b]| {
        TailChain(list[b], chains[b], i);
      }
    }

    method SetNext(h: LRUHandle, n: LRUHandle?, ghost rest: seq<LRUHandle>)
      requires Valid() && h !in All() && h !in rest && Chain(n, rest)
      modifies h`nextHash
      ensures Valid() && Chain(h, [h] + rest)
    {
      h.nextHash := n;
      forall k: nat | k < |rest|
        ensures LinkAt(rest, k)
      {
        assert old(LinkAt(rest, k));
      }
      HeadChain(h, rest);
      forall b | 0 <= b < |chains|
        ensures Chain(list[b], chains[b])
      {
        InChains(chains, b);
        assert old(Chain(list[b], chains[b]));
        forall k: nat | k < |chains[b]|
          ensures LinkAt(chains[b], k)
        {
          assert old(LinkAt(chains[b], k));
        }
      }
    }

    /** The smallest power of two from 4 on that is at least the number of handles. */
    method NewLength() returns (n: nat)
      ensures IsPowerOfTwo(n) && n >= 4 && n >= elems
      ensures n == 4 || n / 2 < elems
    {
      n := 4;
      while n < elems
        invariant IsPowerOfTwo(n) && n >= 4
        invariant n == 4 || n / 2 < elems
      {
        assert 2 * n / 2 == n && 2 * n % 2 == 0;
        n := n * 2;
      }
    }

    /** Resize: grow the array and move every handle to its new bucket. */
    method Resize()
      requires Valid()
      modifies this, All()`nextHash
      ensures Valid() && fresh(list) && All() == old(All())
      ensures length >= 4 && length >= elems && (length == 4 || length / 2 < elems) && elems == old(elems)
    {
      hide IsPowerOfTwo;
      var newLength := NewLength();
      Rehash(newLength);
    }

    method Rehash(newLength: nat)
      requires Valid() && newLength > 0 && IsPowerOfTwo(newLength)
      modifies this, All()`nextHash
      ensures Valid() && fresh(list) && All() == old(All())
      ensures length == newLength && elems == old(elems)
    {
      hide Placed, Members, UniqueKeys, Distinct, Total, IsPowerOfTwo, Unmoved, OldLink;
      var newList := new LRUHandle?[newLength](_ => null);
      ghost var newChains: seq<seq<LRUHandle>> := seq(newLength, _ => []);
      EmptyTable(newList, newChains);
      ghost var links := map h | h in All() :: h.nextHash;
      TakeLinks(links);
      NoneMoved(chains);
      for i := 0 to length
        invariant unchanged(this) && unchanged(list) && fresh(newList)
        invariant Rebuilt(newList, newChains) && |newChains| == newLength
        invariant Members(newChains) == Members(chains[..i]) && Total(newChains) == Total(chains[..i])
        invariant Unmoved(links, newChains)
      {
        InChains(chains, i);
        newChains := MoveBucket(i, newList, newChains, links);
      }
      assert chains[..length] == chains;
      list := newList;
      length := newLength;
      chains := newChains;
    }

    /** Move the handles of one bucket. */
    method MoveBucket(b: nat, newList: array<LRUHandle?>, ghost newChains: seq<seq<LRUHandle>>, ghost links: map<LRUHandle, LRUHandle?>)
      returns (ghost moved: seq<seq<LRUHandle>>)
      requires b < length == list.Length == |chains| && Placed(chains) && newList != list
      requires list[b] == Follow(chains[b], 0) && forall k: nat :: k < |chains[b]| ==> OldLink(links, chains[b], k)
      requires Rebuilt(newList, newChains) && |newChains| > 0 && IsPowerOfTwo(|newChains|)
      requires Members(newChains) == Members(chains[..b]) && Total(newChains) == Total(chains[..b])
      requires Unmoved(links, newChains)
      modifies newList, SetOf(chains[b])`nextHash
      ensures Rebuilt(newList, moved) && |moved| == |newChains|
      ensures Members(moved) == Members(chains[..b + 1]) && Total(moved) == Total(chains[..b + 1])
      ensures Unmoved(links, moved)
    {
      hide Placed, Members, Distinct, Total, IsPowerOfTwo, Chain;
      var h := list[b];
      ghost var k := 0;
      moved := newChains;
      assert chains[b][..0] == [];
      while h != null
        invariant k <= |chains[b]| && h == Follow(chains[b], k)
        invariant Rebuilt(newList, moved) && |moved| == |newChains|
        invariant Members(moved) == Members(chains[..b]) + SetOf(chains[b][..k])
        invariant Total(moved) == Total(chains[..b]) + k
        invariant Unmoved(links, moved)
        decreases |chains[b]| - k
      {
        NotYetMoved(chains, b, k);
        assert OldLink(links, chains[b], k);
        var next := h.nextHash;
        moved := MoveOne(h, newList, moved);
        assert SetOf(chains[b][..k + 1]) == SetOf(chains[b][..k]) + {h};
        h := next;
        k := k + 1;
      }
      BucketMoved(chains, b);
    }

    lemma TakeLinks(links: map<LRUHandle, LRUHandle?>)
      requires Valid() && links == map h | h in All() :: h.nextHash
      ensures forall b, k: nat :: 0 <= b < |chains| && k < |chains[b]| ==> OldLink(links, chains[b], k)
      ensures forall b :: 0 <= b < |chains| ==> list[b] == Follow(chains[b], 0)
      ensures forall c :: Unmoved(links, c)
    {
      forall b, k: nat | 0 <= b < |chains| && k < |chains[b]|
        ensures OldLink(links, chains[b], k)
      {
        InChains(chains, b);
        assert Chain(list[b], chains[b]) && LinkAt(chains[b], k);
      }
    }
  }

  /** Handles that are not in the new chains still have their old successor. */
  ghost predicate Unmoved(links: map<LRUHandle, LRUHandle?>, chains: seq<seq<LRUHandle>>)
    reads links.Keys`nextHash
  {
    forall h :: h in links && h !in Members(chains) ==> h.nextHash == links[h]
  }

  ghost predicate OldLink(links: map<LRUHandle, LRUHandle?>, chain: seq<LRUHandle>, k: nat) {
    k < |chain| && chain[k] in links && links[chain[k]] == Follow(chain, k + 1)
  }

  /** Push `h` onto the front of its bucket in the new array. */
  method MoveOne(h: LRUHandle, list: array<LRUHandle?>, ghost chains: seq<seq<LRUHandle>>) returns (ghost chains': seq<seq<LRUHandle>>)
    requires Rebuilt(list, chains) && |chains| > 0 && IsPowerOfTwo(|chains|) && h !in Members(chains)
    modifies list, h`nextHash
    ensures Rebuilt(list, chains') && |chains'| == |chains|
    ensures Members(chains') == Members(chains) + {h} && Total(chains') == Total(chains) + 1
  {
    hide Placed, Members, Distinct, Total, IsPowerOfTwo, Slot, Remainder;
    var slot := Slot(h.hash, list.Length);
    ghost var rest := chains[slot];
    NotInChain(chains, slot, h);
    InChains(chains, slot);
    assert Chain(list[slot], rest);
    h.nextHash := list[slot];
    list[slot] := h;
    chains' := chains[slot := [h] + rest];
    PushPlaced(chains, slot, h);
    TotalUpdate(chains, slot, [h] + rest);
    forall b | 0 <= b < |chains|
      ensures Chain(list[b], chains'[b])
    {
      NotInChain(chains, b, h);
      assert old(Chain(list[b], chains[b]));
      forall k: nat | k < |chains'[b]|
        ensures LinkAt(chains'[b], k)
      {
        if b != slot {
          assert old(LinkAt(chains[b], k));
        } else if k > 0 {
          assert old(LinkAt(rest, k - 1));
        }
      }
    }
  }

  lemma PushPlaced(chains: seq<seq<LRUHandle>>, b: nat, h: LRUHandle)
    requires b < |chains| && Placed(chains) && h !in Members(chains) && Remainder(h.hash, |chains|) == b
    ensures Placed(chains[b := [h] + chains[b]])
    ensures Members(chains[b := [h] + chains[b]]) == Members(chains) + {h}
  {
    NotInChain(chains, b, h);
    InChains(chains, b);
    var chain := [h] + chains[b];
    SwapPlaced(chains, b, chain, [], h);
  }

  lemma EmptyTable(list: array<LRUHandle?>, chains: seq<seq<LRUHandle>>)
    requires list.Length == |chains| && (forall b :: 0 <= b < |chains| ==> list[b] == null && chains[b] == [])
    ensures Rebuilt(list, chains) && Members(chains) == {} && Total(chains) == 0
  {
    EmptyChains(|chains|);
    var e: seq<seq<LRUHandle>> := seq(|chains|, _ => []);
    assert chains == e;
  }

  lemma NoneMoved(chains: seq<seq<LRUHandle>>)
    ensures Members(chains[..0]) == {} && Total(chains[..0]) == 0
  {
  }

  /** The next handle of a bucket is not among those before it. */
  lemma NotYetMoved(chains: seq<seq<LRUHandle>>, b: nat, k: nat)
    requires b < |chains| && Placed(chains) && k < |chains[b]|
    ensures chains[b][k] !in Members(chains[..b]) + SetOf(chains[b][..k])
    ensures chains[b][k] in Members(chains)
  {
    InChains(chains, b);
    assert chains[b][k] in chains[b];
  }

  lemma BucketMoved(chains: seq<seq<LRUHandle>>, b: nat)
    requires b < |chains|
    ensures Members(chains[..b + 1]) == Members(chains[..b]) + SetOf(chains[b][..|chains[b]|])
    ensures Total(chains[..b + 1]) == Total(chains[..b]) + |chains[b]|
  {
    var a := chains[..b + 1];
    assert a[..b] == chains[..b] && chains[b][..|chains[b]|] == chains[b];
    forall x
      ensures x in Members(a) <==> x in Members(chains[..b]) || x in chains[b]
    {
      if x in chains[b] {
        assert x in a[b];
      }
      if x in Members(chains[..b]) {
        var c :| 0 <= c < b && x in chains[..b][c];
        assert x in a[c];
      }
    }
  }

  ghost predicate Rebuilt(list: array<LRUHandle?>, chains: seq<seq<LRUHandle>>)
    reads list, Members(chains)`nextHash
  {
    && list.Length == |chains|
    && Placed(chains)
    && forall b :: 0 <= b < |chains| ==> Chain(list[b], chains[b])
  }

  lemma EmptyChains(n: nat)
    ensures Members(seq(n, _ => [])) == {} && Total(seq(n, _ => [])) == 0
  {
    if n > 0 {
      EmptyChains(n - 1);
      var e: seq<seq<LRUHandle>> := seq(n, _ => []);
      assert e[..n - 1] == seq(n - 1, _ => []);
    }
  }

  lemma FourEmpty()
    ensures var chains: seq<seq<LRUHandle>> := [[], [], [], []]; Members(chains) == {} && Total(chains) == 0
  {
    EmptyChains(4);
    var e: seq<seq<LRUHandle>> := seq(4, _ => []);
    assert e == [[], [], [], []];
  }

  lemma TailChain(first: LRUHandle?, chain: seq<LRUHandle>, i: nat)
    requires Chain(first, chain) && Distinct(chain) && i < |chain|
    ensures Chain(chain[i].nextHash, chain[i + 1..])
    ensures i > 0 ==> chain[i - 1] !in chain[i + 1..]
  {
    assert LinkAt(chain, i);
    var tail := chain[i + 1..];
    forall k: nat | k < |tail|
      ensures LinkAt(tail, k)
    {
      assert LinkAt(chain, i + 1 + k);
    }
  }

  lemma InChains(chains: seq<seq<LRUHandle>>, b: nat)
    requires b < |chains| && Placed(chains)
    ensures Distinct(chains[b]) && forall j :: 0 <= j < |chains[b]| ==> chains[b][j] in Members(chains)
  {
    assert forall j :: 0 <= j < |chains[b]| ==> chains[b][j] in chains[b];
  }

  lemma RemovedMembers(chains: seq<seq<LRUHandle>>, b: nat, i: nat)
    requires b < |chains| && i < |chains[b]| && Placed(chains)
    ensures var chains' := chains[b := chains[b][..i] + chains[b][i + 1..]];
      && Placed(chains')
      && Members(chains') == Members(chains) - {chains[b][i]}
      && (UniqueKeys(Members(chains)) ==> UniqueKeys(Members(chains')))
    ensures Distinct(chains[b]) && forall j :: 0 <= j < |chains[b]| ==> chains[b][j] in Members(chains)
  {
    InChains(chains, b);
    var h, chain := chains[b][i], chains[b][..i] + chains[b][i + 1..];
    var chains' := chains[b := chain];
    forall x
      ensures x in chain <==> x in chains[b] && x != h
    {
      if x in chains[b] && x != h {
        var j :| 0 <= j < |chains[b]| && chains[b][j] == x;
        assert chain[if j < i then j else j - 1] == x;
      }
    }
    forall x
      ensures x in Members(chains') <==> x in Members(chains) && x != h
    {
      if x in Members(chains) && x != h {
        var c :| 0 <= c < |chains| && x in chains[c];
        assert x in chains'[c];
      }
    }
  }

  lemma HeadChain(h: LRUHandle, rest: seq<LRUHandle>)
    requires Chain(h.nextHash, rest)
    ensures Chain(h, [h] + rest)
  {
    forall k: nat | k < |[h] + rest|
      ensures LinkAt([h] + rest, k)
    {
      assert k > 0 ==> LinkAt(rest, k - 1);
    }
  }

  /** The handle takes the place of the one at `i`, or the end of the chain. */
  lemma InsertedMembers(chains: seq<seq<LRUHandle>>, b: nat, i: nat, h: LRUHandle)
    requires b < |chains| && i <= |chains[b]| && Placed(chains) && UniqueKeys(Members(chains))
    requires h !in Members(chains) && Remainder(h.hash, |chains|) == b
    requires if i < |chains[b]| then SameKey(chains[b][i], h.key, h.hash) else forall g :: g in Members(chains) ==> !SameKey(g, h.key, h.hash)
    ensures var rest := if i < |chains[b]| then chains[b][i + 1..] else []; var chains' := chains[b := chains[b][..i] + ([h] + rest)];
      && Placed(chains')
      && Members(chains') == Members(chains) - (if i < |chains[b]| then {chains[b][i]} else {}) + {h}
      && UniqueKeys(Members(chains'))
      && (i > 0 ==> chains[b][i - 1] !in [h] + rest)
      && h !in rest
  {
    hide Members, Placed, Distinct;
    InChains(chains, b);
    NotInChain(chains, b, h);
    ChainWith(chains[b], i, h);
    var rest := if i < |chains[b]| then chains[b][i + 1..] else [];
    var chain := chains[b][..i] + ([h] + rest);
    var out := if i < |chains[b]| then chains[b][i..i + 1] else [];
    SwapPlaced(chains, b, chain, out, h);
    UniqueAfter(Members(chains), SetOf(out), h);
    assert i < |chains[b]| ==> out == [chains[b][i]];
  }

  lemma NotInChain(chains: seq<seq<LRUHandle>>, b: nat, h: LRUHandle)
    requires b < |chains| && h !in Members(chains)
    ensures h !in chains[b]
  {
    assert h in chains[b] ==> h in Members(chains);
  }

  /** A bucket's chain with `out` taken out and `h` put in. */
  lemma SwapPlaced(chains: seq<seq<LRUHandle>>, b: nat, chain: seq<LRUHandle>, out: seq<LRUHandle>, h: LRUHandle)
    requires b < |chains| && Placed(chains) && h !in Members(chains) && Remainder(h.hash, |chains|) == b
    requires Distinct(chain) && forall x :: x in chain <==> (x in chains[b] && x !in out) || x == h
    requires forall x :: x in out ==> x in chains[b]
    ensures Placed(chains[b := chain])
    ensures Members(chains[b := chain]) == Members(chains) - SetOf(out) + {h}
  {
    hide Distinct;
    var chains' := chains[b := chain];
    forall x
      ensures x in Members(chains') <==> (x in Members(chains) && x !in out) || x == h
    {
      if x == h {
        assert h in chains'[b];
      } else if x in Members(chains) && x !in out {
        var c :| 0 <= c < |chains| && x in chains[c];
        assert x in chains'[c];
      }
    }
  }

  lemma ChainWith(was: seq<LRUHandle>, i: nat, h: LRUHandle)
    requires Distinct(was) && h !in was && i <= |was|
    ensures var rest := if i < |was| then was[i + 1..] else []; var chain := was[..i] + ([h] + rest);
      && Distinct(chain)
      && (forall x :: x in chain <==> (x in was && !(i < |was| && x == was[i])) || x == h)
      && (i > 0 ==> was[i - 1] !in [h] + rest)
  {
    var rest := if i < |was| then was[i + 1..] else [];
    var chain := was[..i] + ([h] + rest);
    forall x
      ensures x in chain <==> (x in was && !(i < |was| && x == was[i])) || x == h
    {
      if x in was && !(i < |was| && x == was[i]) {
        var j :| 0 <= j < |was| && was[j] == x;
        assert chain[j] == x;
      }
      assert chain[i] == h;
    }
  }

  lemma UniqueAfter(S: set<LRUHandle>, out: set<LRUHandle>, h: LRUHandle)
    requires UniqueKeys(S) && out <= S
    requires forall g :: g in S && SameKey(g, h.key, h.hash) ==> g in out
    ensures UniqueKeys(S - out + {h})
  {
  }
}
