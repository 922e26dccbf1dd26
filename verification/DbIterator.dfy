/** DBIter: the user's iterator, which shows each live user key once (db_iter.cc). */
module DbIterator {
  import opened Keys
  import opened Entries
  import opened Versions
  import opened MergingIterator
  import opened Options

  /** Entry `i` of the sorted run is the newest visible one of its user key, and a value. */
  ghost predicate Live(es: seq<Entry>, s: SequenceNumber, i: nat) {
    && i < |es|
    && es[i].key.sequence <= s
    && es[i].key.kind.TypeValue?
    && forall j :: 0 <= j < i && es[j].key.user == es[i].key.user ==> es[j].key.sequence > s
  }

  ghost predicate Seen(es: seq<Entry>, s: SequenceNumber, i: nat) {
    i < |es| && es[i].key.sequence <= s
  }

  /** `r` is the first live entry from `lo` on whose user key is beyond `after`. */
  ghost predicate FirstLive(es: seq<Entry>, s: SequenceNumber, lo: nat, after: Option<UserKey>, r: Option<nat>) {
    if r.None? then forall i: nat :: lo <= i && Wanted(es, s, after, i) ==> false
    else lo <= r.value && Wanted(es, s, after, r.value) && forall i: nat :: lo <= i < r.value ==> !Wanted(es, s, after, i)
  }

  ghost predicate Wanted(es: seq<Entry>, s: SequenceNumber, after: Option<UserKey>, i: nat) {
    Live(es, s, i) && (after.Some? ==> es[i].key.user > after.value)
  }

  /** `r` is the last live entry among the first `hi`. */
  ghost predicate LastLive(es: seq<Entry>, s: SequenceNumber, hi: nat, r: Option<nat>) {
    if r.None? then forall i: nat :: i < hi ==> !Live(es, s, i)
    else r.value < hi && Live(es, s, r.value) && forall i: nat :: r.value < i < hi ==> !Live(es, s, i)
  }

  lemma UserOrder(es: seq<Entry>, i: nat, j: nat)
    requires Sorted(es) && i <= j < |es|
    ensures es[i].key.user <= es[j].key.user
  {
  }

  // ----- what the live entries are: the map at a snapshot -----

  /** A live entry carries the value the specification gives its key, and every key with a
      value has exactly one live entry. */
  lemma LiveIsView(es: seq<Entry>, k: UserKey, s: SequenceNumber)
    requires Sorted(es)
    ensures forall i: nat :: Live(es, s, i) && es[i].key.user == k ==> View(Elements(es), k, s) == Some(es[i].value)
    ensures View(Elements(es), k, s) != None ==> exists i: nat :: Live(es, s, i) && es[i].key.user == k
    ensures forall i: nat, j: nat :: Live(es, s, i) && Live(es, s, j) && es[i].key.user == es[j].key.user ==> i == j
  {
    forall i: nat | Live(es, s, i) && es[i].key.user == k
      ensures View(Elements(es), k, s) == Some(es[i].value)
    {
      LiveIsNewest(es, s, i);
      ViewOfNewest(Elements(es), k, s, es[i]);
    }
    if View(Elements(es), k, s) != None {
      var e :| Newest(Elements(es), k, s, e) && e.key.kind.TypeValue?;
      var i: nat :| i < |es| && es[i] == e;
      forall j | 0 <= j < i && es[j].key.user == es[i].key.user
        ensures es[j].key.sequence > s
      {
        assert es[j] in Elements(es) && Less(es[j].key, es[i].key);
      }
      assert Live(es, s, i);
    }
  }

  lemma LiveIsNewest(es: seq<Entry>, s: SequenceNumber, i: nat)
    requires Sorted(es) && Live(es, s, i)
    ensures Newest(Elements(es), es[i].key.user, s, es[i])
  {
    forall x | x in Elements(es) && Visible(x, es[i].key.user, s)
      ensures x == es[i] || Less(es[i].key, x.key)
    {
      var j :| 0 <= j < |es| && es[j] == x;
      assert j >= i;
    }
  }

  /** Entries behind `p` that readers see share no user key with entries from `p` on, unless
      that key is being skipped. */
  ghost predicate KeysApart(es: seq<Entry>, s: SequenceNumber, p: nat, skip: Option<UserKey>) {
    forall i: nat, j: nat :: i < p <= j < |es| && Seen(es, s, i) && es[i].key.user == es[j].key.user
      ==> skip.Some? && es[j].key.user <= skip.value
  }

  ghost predicate SeenFrom(es: seq<Entry>, s: SequenceNumber, p: nat, skip: Option<UserKey>) {
    skip.Some? ==> forall j: nat :: p <= j && Seen(es, s, j) ==> es[j].key.user >= skip.value
  }

  /** The state of the forward search: nothing wanted in [lo, p); `now` is the key being skipped. */
  ghost predicate Searching(es: seq<Entry>, s: SequenceNumber, lo: nat, p: nat, skip: Option<UserKey>, now: Option<UserKey>) {
    && lo <= p <= |es|
    && KeysApart(es, s, p, now)
    && SeenFrom(es, s, p, skip)
    && (skip.Some? ==> now.Some? && now.value >= skip.value)
    && (now.Some? ==> forall i: nat :: p <= i && Wanted(es, s, skip, i) ==> es[i].key.user > now.value)
    && forall i: nat :: lo <= i < p ==> !Wanted(es, s, skip, i)
  }

  /** No seen entry lies between position `p` and entry `i`, and `p` has a smaller user key. */
  ghost predicate Before(es: seq<Entry>, s: SequenceNumber, p: Option<nat>, i: nat) {
    && i < |es|
    && (p.Some? ==> p.value < i && es[p.value].key.user < es[i].key.user)
    && forall j: nat :: (if p.Some? then p.value + 1 else 0) <= j < i ==> !Seen(es, s, j)
  }

  /** The number of entries behind a forward position. */
  function Index(p: Option<nat>, n: nat): nat {
    if p.Some? then p.value else n
  }

  lemma SearchStarts(es: seq<Entry>, s: SequenceNumber, lo: nat, skip: Option<UserKey>)
    requires lo <= |es| && KeysApart(es, s, lo, skip) && SeenFrom(es, s, lo, skip)
    ensures Searching(es, s, lo, lo, skip, skip)
  {
  }

  lemma IsSeen(es: seq<Entry>, s: SequenceNumber, p: nat)
    ensures Seen(es, s, p) <==> p < |es| && es[p].key.sequence <= s
  {
  }

  lemma IsLive(es: seq<Entry>, s: SequenceNumber, lo: nat, skip: Option<UserKey>, p: nat)
    requires FirstLive(es, s, lo, skip, Some(p))
    ensures Live(es, s, p)
  {
  }

  lemma SearchYields(es: seq<Entry>, s: SequenceNumber, lo: nat, p: nat, skip: Option<UserKey>, now: Option<UserKey>)
    requires Sorted(es) && Searching(es, s, lo, p, skip, now)
    requires Seen(es, s, p) && es[p].key.kind.TypeValue? && (now.Some? ==> es[p].key.user > now.value)
    ensures FirstLive(es, s, lo, skip, Some(p))
  {
  }

  lemma SearchEnds(es: seq<Entry>, s: SequenceNumber, lo: nat, skip: Option<UserKey>, now: Option<UserKey>)
    requires Searching(es, s, lo, |es|, skip, now)
    ensures FirstLive(es, s, lo, skip, None)
  {
  }

  /** One entry passed over: too new, a deletion whose key is skipped from here on, or a value
      of the key being skipped. */
  lemma SearchStep(es: seq<Entry>, s: SequenceNumber, lo: nat, p: nat, skip: Option<UserKey>, was: Option<UserKey>, now: Option<UserKey>)
    requires Sorted(es) && p < |es| && Searching(es, s, lo, p, skip, was)
    requires if !Seen(es, s, p) then now == was
      else if es[p].key.kind.TypeDeletion? then now == Some(es[p].key.user)
      else was.Some? && now == was && es[p].key.user <= was.value
    ensures Searching(es, s, lo, p + 1, skip, now)
  {
    if Seen(es, s, p) && es[p].key.kind.TypeDeletion? {
      forall j: nat | p < j < |es| && es[j].key.user <= es[p].key.user
        ensures !Live(es, s, j)
      {
        UserOrder(es, p, j);
      }
      forall i: nat, j: nat | i < p + 1 <= j < |es| && Seen(es, s, i) && es[i].key.user == es[j].key.user
        ensures es[j].key.user <= es[p].key.user
      {
        UserOrder(es, i, p);
        UserOrder(es, p, j);
      }
    }
  }

  // ----- the backward search -----

  /** The number of entries up to and including a backward position. */
  function Count(p: Option<nat>): nat {
    if p.Some? then p.value + 1 else 0
  }

  /** The backward search has passed the entries [r, hi); `c` is the value it would show. */
  ghost predicate Retreating(es: seq<Entry>, s: SequenceNumber, hi: nat, r: nat, c: Option<nat>) {
    && r <= hi <= |es|
    && (forall i: nat :: (if c.Some? then c.value + 1 else r) <= i < hi ==> !Live(es, s, i))
    && (c.Some? ==>
      && r <= c.value < hi && Seen(es, s, c.value) && es[c.value].key.kind.TypeValue?
      && forall i: nat :: r <= i < c.value ==> !Seen(es, s, i))
  }

  lemma RetreatStarts(es: seq<Entry>, s: SequenceNumber, hi: nat)
    requires hi <= |es|
    ensures Retreating(es, s, hi, hi, None)
  {
  }

  lemma RetreatStep(es: seq<Entry>, s: SequenceNumber, hi: nat, p: nat, c: Option<nat>, c': Option<nat>)
    requires Sorted(es) && Retreating(es, s, hi, p + 1, c)
    requires Seen(es, s, p) && c.Some? ==> es[p].key.user >= es[c.value].key.user
    requires c' == if !Seen(es, s, p) then c else if es[p].key.kind.TypeDeletion? then None else Some(p)
    ensures Retreating(es, s, hi, p, c')
  {
    if c.Some? {
      UserOrder(es, p, c.value);
    }
  }

  /** The candidate is live once an entry of a smaller key is seen, or the run is exhausted. */
  lemma RetreatEnds(es: seq<Entry>, s: SequenceNumber, hi: nat, p: Option<nat>, c: Option<nat>)
    requires Sorted(es) && Retreating(es, s, hi, Count(p), c)
    requires p.Some? ==> c.Some? && es[p.value].key.user < es[c.value].key.user
    ensures LastLive(es, s, hi, c)
    ensures c.Some? ==> Live(es, s, c.value) && Before(es, s, p, c.value)
  {
    if c.Some? {
      forall j | 0 <= j < c.value && es[j].key.user == es[c.value].key.user
        ensures es[j].key.sequence > s
      {
        if p.Some? && j <= p.value {
          UserOrder(es, j, p.value);
        }
        assert !Seen(es, s, j);
      }
    }
  }

  // ----- moves, in terms of live entries -----

  lemma BeforeBound(es: seq<Entry>, s: SequenceNumber, p: Option<nat>, i: nat)
    requires Before(es, s, p, i)
    ensures Count(p) <= i < |es|
  {
  }

  lemma BeforeNotLive(es: seq<Entry>, s: SequenceNumber, p: Option<nat>, i: nat)
    requires Before(es, s, p, i)
    ensures Count(p) <= i && forall j: nat :: Count(p) <= j < i ==> !Live(es, s, j)
  {
    forall j: nat | Count(p) <= j < i
      ensures !Live(es, s, j)
    {
      assert !Seen(es, s, j);
    }
  }

  lemma NothingLiveBeyond(es: seq<Entry>, s: SequenceNumber, lo: nat)
    requires lo >= |es|
    ensures FirstLive(es, s, lo, None, None)
  {
  }

  lemma NoLastLive(es: seq<Entry>, s: SequenceNumber, hi: nat)
    requires forall j: nat :: j < hi ==> !Live(es, s, j)
    ensures LastLive(es, s, hi, None)
  {
  }

  /** Entries of the same user key before a live one are not live. */
  lemma NoneLiveAmong(es: seq<Entry>, s: SequenceNumber, lo: nat, i: nat)
    requires Live(es, s, i) && forall j: nat :: lo <= j <= i ==> es[j].key.user == es[i].key.user
    ensures forall j: nat :: lo <= j < i ==> !Live(es, s, j)
  {
  }

  /** Nothing live lies between a live entry and the position before it. */
  lemma LastLiveBefore(es: seq<Entry>, s: SequenceNumber, p: Option<nat>, i: nat, r: Option<nat>)
    requires LastLive(es, s, Count(p), r) && Count(p) <= i
    requires forall j: nat :: Count(p) <= j < i ==> !Live(es, s, j)
    ensures LastLive(es, s, i, r)
  {
  }

  /** Skipping the key of a live entry finds the next live entry. */
  lemma NextAfterKey(es: seq<Entry>, s: SequenceNumber, i: nat, lo: nat, r: Option<nat>)
    requires Sorted(es) && Live(es, s, i) && lo <= i + 1
    requires FirstLive(es, s, lo, Some(es[i].key.user), r)
    ensures FirstLive(es, s, i + 1, None, r)
  {
    forall j: nat | Live(es, s, j)
      ensures Wanted(es, s, Some(es[i].key.user), j) <==> j >= i + 1
    {
      if j > i {
        UserOrder(es, i, j);
      } else {
        UserOrder(es, j, i);
      }
    }
  }

  lemma AfterLive(es: seq<Entry>, s: SequenceNumber, i: nat)
    requires Sorted(es) && Live(es, s, i)
    ensures KeysApart(es, s, i + 1, Some(es[i].key.user)) && SeenFrom(es, s, i + 1, Some(es[i].key.user))
  {
    forall j: nat, k: nat | j < i + 1 <= k < |es| && es[j].key.user == es[k].key.user
      ensures es[k].key.user <= es[i].key.user
    {
      UserOrder(es, j, i);
    }
  }

  lemma AfterBefore(es: seq<Entry>, s: SequenceNumber, p: Option<nat>, i: nat)
    requires Sorted(es) && Live(es, s, i) && Before(es, s, p, i)
    ensures KeysApart(es, s, Count(p), Some(es[i].key.user)) && SeenFrom(es, s, Count(p), Some(es[i].key.user))
  {
    forall j: nat, k: nat | j < Count(p) <= k < |es| && es[j].key.user == es[k].key.user
      ensures es[k].key.user <= es[i].key.user
    {
      UserOrder(es, j, p.value);
    }
    forall k: nat | Count(p) <= k && Seen(es, s, k)
      ensures es[k].key.user >= es[i].key.user
    {
      UserOrder(es, i, k);
    }
  }

  /** The first live entry whose user key is at or after the target. */
  ghost predicate FirstLiveFrom(es: seq<Entry>, s: SequenceNumber, target: UserKey, r: Option<nat>) {
    if r.None? then
      forall i: nat :: Live(es, s, i) ==> es[i].key.user < target
    else
      && Live(es, s, r.value)
      && es[r.value].key.user >= target
      && forall i: nat :: Live(es, s, i) && i < r.value ==> es[i].key.user < target
  }

  lemma SeekFinds(es: seq<Entry>, s: SequenceNumber, target: UserKey, r: Option<nat>)
    requires Sorted(es)
    requires FirstLive(es, s, SeekIndex(es, SeekKey(target, s)), None, r)
    ensures FirstLiveFrom(es, s, target, r)
  {
    var p := SeekIndex(es, SeekKey(target, s));
    forall i: nat | Live(es, s, i)
      ensures Wanted(es, s, None, i)
      ensures i < p ==> es[i].key.user < target
      ensures i >= p ==> es[i].key.user >= target
    {
      SeekSkipsTooNew(es[i].key, s);
      if i >= p {
        assert !Less(es[p].key, SeekKey(target, s));
        UserOrder(es, p, i);
      }
    }
  }

  lemma SeekApart(es: seq<Entry>, s: SequenceNumber, target: UserKey)
    requires Sorted(es)
    ensures KeysApart(es, s, SeekIndex(es, SeekKey(target, s)), None)
  {
    var p := SeekIndex(es, SeekKey(target, s));
    forall i: nat, j: nat | i < p <= j < |es| && Seen(es, s, i)
      ensures es[i].key.user != es[j].key.user
    {
      SeekSkipsTooNew(es[i].key, s);
      assert Less(es[i].key, SeekKey(target, s)) && !Less(es[p].key, SeekKey(target, s));
      UserOrder(es, p, j);
    }
  }

  /** Prev undoes Next, and Next undoes Prev, whatever direction the iterator came from. */
  lemma NextPrevInverse(es: seq<Entry>, s: SequenceNumber, i: nat, j: nat, r: Option<nat>)
    requires Live(es, s, i) && Live(es, s, j)
    ensures FirstLive(es, s, i + 1, None, Some(j)) && LastLive(es, s, j, r) ==> r == Some(i)
    ensures LastLive(es, s, j, Some(i)) && FirstLive(es, s, i + 1, None, r) ==> r == Some(j)
  {
    assert forall k: nat :: Wanted(es, s, None, k) <==> Live(es, s, k);
  }

  // ----- the iterator -----

  class DbIter {
    const iter: Merger
    const sequence: SequenceNumber
    var savedKey: UserKey
    var savedValue: Bytes
    var forward: bool
    var valid: bool

    /** The live entry shown, as a position of the merged run. */
    ghost var at: Option<nat>

    ghost function Entries(): seq<Entry> {
      iter.merged
    }

    /** Forward: the inner iterator is at the entry shown. Backward: it is before every seen
        entry of the key shown, which is saved. */
    ghost predicate Valid()
      reads this, iter, iter.children
    {
      && iter.Valid()
      && valid == at.Some?
      && (at.Some? ==> Live(iter.merged, sequence, at.value))
      && (at.Some? && forward ==> iter.pos == at)
      && (at.Some? && !forward ==>
        && savedKey == iter.merged[at.value].key.user
        && savedValue == iter.merged[at.value].value
        && Before(iter.merged, sequence, iter.pos, at.value))
    }

    constructor (iter: Merger, sequence: SequenceNumber)
      requires iter.Valid()
      ensures Valid() && this.iter == iter && this.sequence == sequence && at == None
    {
      this.iter := iter;
      this.sequence := sequence;
      savedKey := 0.0;
      savedValue := "";
      forward := true;
      valid := false;
      at := None;
    }

    function Key(): UserKey
      requires Valid() && at.Some?
      reads this, iter, iter.children
      ensures Key() == iter.merged[at.value].key.user
    {
      if forward then iter.Entry().key.user else savedKey
    }

    function Value(): Bytes
      requires Valid() && at.Some?
      reads this, iter, iter.children
      ensures Value() == iter.merged[at.value].value
    {
      if forward then iter.Entry().value else savedValue
    }

    /** FindNextUserEntry: skip hidden, deleted and too new entries. */
    method FindNextUserEntry(skip: Option<UserKey>)
      requires iter.Valid() && iter.pos.Some? && forward
      requires KeysApart(iter.merged, sequence, iter.pos.value, skip) && SeenFrom(iter.merged, sequence, iter.pos.value, skip)
      modifies this, iter, iter.children
      ensures Valid() && forward
      ensures FirstLive(iter.merged, sequence, old(iter.pos.value), skip, at)
    {
      hide Merger.Valid, Live, Seen, Wanted, KeysApart, SeenFrom, Searching, FirstLive, Sorted;
      ghost var es, lo := iter.merged, iter.pos.value;
      var skipping, skipKey := skip.Some?, if skip.Some? then skip.value else 0.0;
      SearchStarts(es, sequence, lo, skip);
      var searching := true;
      while searching
        invariant iter.Valid() && forward
        invariant searching == iter.pos.Some?
        invariant Searching(es, sequence, lo, Index(iter.pos, |es|), skip, if skipping then Some(skipKey) else None)
        decreases |es| - Index(iter.pos, |es|), searching
      {
        var e := iter.Entry();
        ghost var p := iter.pos.value;
        ghost var was := if skipping then Some(skipKey) else None;
        IsSeen(es, sequence, p);
        if e.key.sequence <= sequence {
          if e.key.kind.TypeDeletion? {
            skipKey := e.key.user;
            skipping := true;
          } else if skipping && e.key.user <= skipKey {
          } else {
            SearchYields(es, sequence, lo, p, skip, was);
            IsLive(es, sequence, lo, skip, p);
            valid := true;
            at := Some(p);
            return;
          }
        }
        SearchStep(es, sequence, lo, p, skip, was, if skipping then Some(skipKey) else None);
        iter.Next();
        searching := iter.current.Some?;
      }
      SearchEnds(es, sequence, lo, skip, if skipping then Some(skipKey) else None);
      valid := false;
      at := None;
    }

    /** FindPrevUserEntry: run back over one user key to its newest visible entry. */
    method FindPrevUserEntry()
      requires iter.Valid() && !forward
      modifies this, iter, iter.children
      ensures Valid()
      ensures LastLive(iter.merged, sequence, Count(old(iter.pos)), at)
    {
      hide Merger.Valid, Live, Seen, LastLive, Retreating, Before, Sorted;
      ghost var es, hi := iter.merged, Count(iter.pos);
      ghost var candidate: Option<nat> := None;
      RetreatStarts(es, sequence, hi);
      var valueType := TypeDeletion;
      var searching := iter.current.Some?;
      while searching
        invariant iter.Valid() && !forward
        invariant searching ==> iter.pos.Some?
        invariant valueType.TypeValue? == candidate.Some?
        invariant Retreating(es, sequence, hi, Count(iter.pos), candidate)
        invariant candidate.Some? ==> candidate.value < |es|
        invariant candidate.Some? ==> savedKey == es[candidate.value].key.user && savedValue == es[candidate.value].value
        invariant !searching && iter.pos.Some? ==> candidate.Some? && es[iter.pos.value].key.user < savedKey
        decreases Count(iter.pos), searching
      {
        var e := iter.Entry();
        ghost var p, was := iter.pos.value, candidate;
        IsSeen(es, sequence, p);
        if e.key.sequence <= sequence && valueType.TypeValue? && e.key.user < savedKey {
          searching := false;
        } else {
          if e.key.sequence <= sequence {
            valueType := e.key.kind;
            if valueType.TypeValue? {
              savedKey := e.key.user;
              savedValue := e.value;
              candidate := Some(p);
            } else {
              candidate := None;
            }
          }
          RetreatStep(es, sequence, hi, p, was, candidate);
          iter.Prev();
          searching := iter.current.Some?;
        }
      }
      RetreatEnds(es, sequence, hi, iter.pos, candidate);
      at := candidate;
      if valueType.TypeDeletion? {
        valid := false;
        forward := true;
      } else {
        valid := true;
      }
    }

    method Next()
      requires Valid() && at.Some?
      modifies this, iter, iter.children
      ensures Valid() && FirstLive(iter.merged, sequence, old(at.value) + 1, None, at)
    {
      hide Merger.Valid, Live, Seen, FirstLive, Before, Sorted, KeysApart, SeenFrom;
      ghost var i := at.value;
      if !forward {
        AfterBefore(iter.merged, sequence, iter.pos, i);
        BeforeBound(iter.merged, sequence, iter.pos, i);
        forward := true;
        if iter.current.None? {
          iter.SeekToFirst();
        } else {
          iter.Next();
        }
      } else {
        AfterLive(iter.merged, sequence, i);
        savedKey := iter.Entry().key.user;
        iter.Next();
        if iter.current.None? {
          NothingLiveBeyond(iter.merged, sequence, i + 1);
          valid := false;
          at := None;
          return;
        }
      }
      ghost var lo := iter.pos.value;
      FindNextUserEntry(Some(savedKey));
      NextAfterKey(iter.merged, sequence, i, lo, at);
    }

    method Prev()
      requires Valid() && at.Some?
      modifies this, iter, iter.children
      ensures Valid() && LastLive(iter.merged, sequence, old(at.value), at)
    {
      hide Merger.Valid, Live, Seen, LastLive, Before, Sorted;
      ghost var es, i := iter.merged, at.value;
      if forward {
        savedKey := iter.Entry().key.user;
        while true
          invariant iter.Valid() && iter.pos.Some? && iter.pos.value <= i
          invariant forward && savedKey == es[i].key.user && at == Some(i)
          invariant forall j: nat :: iter.pos.value <= j <= i ==> es[j].key.user == savedKey
          decreases iter.pos.value
        {
          iter.Prev();
          if iter.current.None? {
            NoneLiveAmong(es, sequence, 0, i);
            NoLastLive(es, sequence, i);
            valid := false;
            at := None;
            return;
          }
          if iter.Entry().key.user < savedKey {
            break;
          }
          UserOrder(es, iter.pos.value, i);
        }
        NoneLiveAmong(es, sequence, Count(iter.pos), i);
        forward := false;
      } else {
        BeforeNotLive(es, sequence, iter.pos, i);
      }
      ghost var p := iter.pos;
      FindPrevUserEntry();
      LastLiveBefore(es, sequence, p, i, at);
    }

    method Seek(target: UserKey)
      requires Valid()
      modifies this, iter, iter.children
      ensures Valid() && FirstLiveFrom(iter.merged, sequence, target, at)
    {
      hide Merger.Valid, Live, Seen, FirstLive, FirstLiveFrom, Sorted, KeysApart;
      forward := true;
      SeekApart(iter.merged, sequence, target);
      iter.Seek(SeekKey(target, sequence));
      if iter.current.Some? {
        FindNextUserEntry(None);
      } else {
        NothingLiveBeyond(iter.merged, sequence, SeekIndex(iter.merged, SeekKey(target, sequence)));
        valid := false;
        at := None;
      }
      SeekFinds(iter.merged, sequence, target, at);
    }

    method SeekToFirst()
      requires Valid()
      modifies this, iter, iter.children
      ensures Valid() && FirstLive(iter.merged, sequence, 0, None, at)
    {
      forward := true;
      iter.SeekToFirst();
      if iter.current.Some? {
        FindNextUserEntry(None);
      } else {
        valid := false;
        at := None;
      }
    }

    method SeekToLast()
      requires Valid()
      modifies this, iter, iter.children
      ensures Valid() && LastLive(iter.merged, sequence, |iter.merged|, at)
    {
      forward := false;
      iter.SeekToLast();
      FindPrevUserEntry();
    }
  }
}
