/** Write batches as byte strings (write_batch.cc). */
module WriteBatches {
  import opened Coding

  const HEADER: nat := 12
  const TAG_DELETION: Byte := 0
  const TAG_VALUE: Byte := 1

  datatype Update = Put(key: seq<Byte>, value: seq<Byte>) | Delete(key: seq<Byte>)

  datatype Outcome = TooSmall | BadPut | BadDelete | UnknownTag | WrongCount | Ok

  predicate Fits(u: Update) {
    |u.key| < TWO_32 && (u.Put? ==> |u.value| < TWO_32)
  }

  function UpdateBytes(u: Update): (r: seq<Byte>)
    ensures r != []
  {
    match u
    case Put(key, value) => [TAG_VALUE] + LengthPrefixed(key) + LengthPrefixed(value)
    case Delete(key) => [TAG_DELETION] + LengthPrefixed(key)
  }

  function Body(us: seq<Update>): seq<Byte> {
    if us == [] then [] else Body(us[..|us| - 1]) + UpdateBytes(us[|us| - 1])
  }

  /** The representation: sequence number, count, records. */
  function BatchBytes(sequence: nat, us: seq<Update>): seq<Byte> {
    Fixed(sequence, 8) + Fixed(|us|, 4) + Body(us)
  }

  /** One record at the front of the input. */
  datatype Step = Bad(outcome: Outcome) | Step(update: Update, rest: seq<Byte>)

  function ParseUpdate(input: seq<Byte>): (s: Step)
    requires input != []
    ensures s.Step? ==> |s.rest| < |input|
    ensures s.Bad? ==> s.outcome != Ok
  {
    var tag, rest := input[0], input[1..];
    if tag == TAG_VALUE then
      var k := GetLengthPrefixed(rest);
      if k.Failed? then Bad(BadPut)
      else
        var v := GetLengthPrefixed(k.rest);
        if v.Failed? then Bad(BadPut) else Step(Put(k.value, v.value), v.rest)
    else if tag == TAG_DELETION then
      var k := GetLengthPrefixed(rest);
      if k.Failed? then Bad(BadDelete) else Step(Delete(k.value), k.rest)
    else Bad(UnknownTag)
  }

  /** The updates a handler gets before the walk ends, and how it ends. */
  function Walk(input: seq<Byte>): (seq<Update>, Outcome)
    decreases |input|
  {
    if input == [] then ([], Ok)
    else
      match ParseUpdate(input)
      case Bad(outcome) => ([], outcome)
      case Step(u, rest) =>
        var r := Walk(rest);
        ([u] + r.0, r.1)
  }

  lemma ParseRoundTrip(u: Update, tail: seq<Byte>)
    requires Fits(u)
    ensures ParseUpdate(UpdateBytes(u) + tail) == Step(u, tail)
  {
    hide GetLengthPrefixed, LengthPrefixed;
    var b := UpdateBytes(u) + tail;
    match u
    case Put(key, value) =>
      assert b[1..] == LengthPrefixed(key) + (LengthPrefixed(value) + tail);
      LengthPrefixedRoundTrip(key, LengthPrefixed(value) + tail);
      LengthPrefixedRoundTrip(value, tail);
    case Delete(key) =>
      assert b[1..] == LengthPrefixed(key) + tail;
      LengthPrefixedRoundTrip(key, tail);
  }

  lemma {:induction false} BodyHead(us: seq<Update>)
    requires us != []
    ensures Body(us) == UpdateBytes(us[0]) + Body(us[1..])
  {
    hide UpdateBytes;
    var n := |us| - 1;
    if n == 0 {
      assert us[..0] == [] && us[1..] == [];
    } else {
      BodyHead(us[..n]);
      assert us[..n][1..] == us[1..][..n - 1] && us[1..][n - 1] == us[n];
      assert us[..n][0] == us[0];
    }
  }

  lemma BodyEnd(us: seq<Update>)
    ensures Body(us) == if us == [] then [] else Body(us[..|us| - 1]) + UpdateBytes(us[|us| - 1])
  {
    hide UpdateBytes;
  }

  lemma {:induction false} BodyAppend(a: seq<Update>, b: seq<Update>)
    ensures Body(a + b) == Body(a) + Body(b)
    decreases |b|
  {
    hide UpdateBytes, Body;
    BodyEnd(b);
    BodyEnd(a + b);
    if b == [] {
      assert a + b == a;
    } else {
      var n := |b| - 1;
      BodyAppend(a, b[..n]);
      assert (a + b)[..|a| + n] == a + b[..n];
      assert (a + b)[|a| + n] == b[n];
      assert Body(a) + (Body(b[..n]) + UpdateBytes(b[n])) == Body(a) + Body(b[..n]) + UpdateBytes(b[n]);
    }
  }

  /** Walking the records gives back the updates, in order. */
  lemma {:induction false} WalkRoundTrip(us: seq<Update>)
    requires forall u :: u in us ==> Fits(u)
    ensures Walk(Body(us)) == (us, Ok)
    decreases |us|
  {
    hide ParseUpdate, UpdateBytes;
    if us != [] {
      BodyHead(us);
      ParseRoundTrip(us[0], Body(us[1..]));
      WalkRoundTrip(us[1..]);
      assert us == [us[0]] + us[1..];
    }
  }

  class WriteBatch {
    var rep: seq<Byte>
    ghost var updates: seq<Update>
    ghost var sequence: nat

    ghost predicate Valid()
      reads this
    {
      && sequence < TWO_64 && |updates| < TWO_32
      && (forall u :: u in updates ==> Fits(u))
      && rep == BatchBytes(sequence, updates)
    }

    constructor ()
      ensures Valid() && updates == [] && sequence == 0
    {
      rep := seq(HEADER, _ => 0);
      updates, sequence := [], 0;
      new;
      ZeroHeader();
    }

    method Clear()
      modifies this
      ensures Valid() && updates == [] && sequence == 0
    {
      rep := seq(HEADER, _ => 0);
      updates, sequence := [], 0;
      ZeroHeader();
    }

    function Count(): nat
      requires |rep| >= HEADER
      reads this
    {
      Unfixed(rep[8..12])
    }

    function Sequence(): nat
      requires |rep| >= HEADER
      reads this
    {
      Unfixed(rep[..8])
    }

    lemma HeaderDecodes()
      requires Valid()
      ensures |rep| >= HEADER && Count() == |updates| && Sequence() == sequence
      ensures rep[HEADER..] == Body(updates) && rep == BatchBytes(sequence, updates)
    {
      Parts(sequence, updates);
      Fixed32RoundTrip(|updates|);
      Fixed64RoundTrip(sequence);
    }

    lemma ValidWalk()
      requires Valid()
      ensures |rep| >= HEADER && Walk(rep[HEADER..]) == (updates, Ok) && Count() == |updates|
    {
      HeaderDecodes();
      WalkRoundTrip(updates);
    }

    method SetSequence(s: nat)
      requires Valid() && s < TWO_64
      modifies this
      ensures Valid() && updates == old(updates) && sequence == s
    {
      Parts(sequence, updates);
      rep := Fixed(s, 8) + rep[8..];
      Parts(s, updates);
      sequence := s;
    }

    method SetCount(n: nat)
      requires |rep| >= HEADER
      modifies `rep
      ensures rep == old(rep[..8]) + Fixed(n, 4) + old(rep[12..])
    {
      rep := rep[..8] + Fixed(n, 4) + rep[12..];
    }

    method Add(u: Update)
      requires Valid() && Fits(u) && |updates| + 1 < TWO_32
      modifies this
      ensures Valid() && updates == old(updates) + [u] && sequence == old(sequence)
    {
      hide Body, UpdateBytes, Fixed, BatchBytes;
      HeaderDecodes();
      Parts(sequence, updates);
      SetCount(Count() + 1);
      rep := PutUpdate(rep, u);
      BodyAppend(updates, [u]);
      OneUpdate(u);
      Joined(sequence, updates, [u]);
      updates := updates + [u];
    }

    /** The tag and the strings of one record. */
    method PutUpdate(dst: seq<Byte>, u: Update) returns (r: seq<Byte>)
      requires Fits(u)
      ensures r == dst + UpdateBytes(u)
    {
      match u {
        case Put(key, value) =>
          r := dst + [TAG_VALUE];
          r := PutLengthPrefixed(r, key);
          r := PutLengthPrefixed(r, value);
        case Delete(key) =>
          r := dst + [TAG_DELETION];
          r := PutLengthPrefixed(r, key);
      }
    }

    /** Append: the records of `source` follow this batch's own. */
    method Append(source: WriteBatch)
      requires Valid() && source.Valid() && source != this && |updates| + |source.updates| < TWO_32
      modifies this
      ensures Valid() && updates == old(updates) + source.updates && sequence == old(sequence)
    {
      hide Body, UpdateBytes, Fixed, BatchBytes;
      HeaderDecodes();
      source.HeaderDecodes();
      Parts(sequence, updates);
      SetCount(Count() + source.Count());
      rep := rep + source.rep[HEADER..];
      BodyAppend(updates, source.updates);
      Joined(sequence, updates, source.updates);
      updates := updates + source.updates;
    }

    /** Iterate: feed the records to a handler. */
    method Iterate() returns (handled: seq<Update>, outcome: Outcome)
      ensures |rep| < HEADER ==> outcome == TooSmall
      ensures |rep| >= HEADER ==> var w := Walk(rep[HEADER..]);
        handled == w.0 && outcome == if w.1 != Ok then w.1 else if |w.0| != Count() then WrongCount else Ok
      ensures Valid() ==> handled == updates && outcome == Ok
    {
      hide WriteBatch.Valid, ParseUpdate, Unfixed;
      if Valid() {
        ValidWalk();
      }
      handled := [];
      if |rep| < HEADER {
        return [], TooSmall;
      }
      var input := rep[HEADER..];
      assert [] + Walk(input).0 == Walk(input).0;
      while input != []
        invariant Walk(rep[HEADER..]) == (handled + Walk(input).0, Walk(input).1)
        decreases |input|
      {
        var s := ParseUpdate(input);
        if s.Bad? {
          return handled, s.outcome;
        }
        assert handled + ([s.update] + Walk(s.rest).0) == handled + [s.update] + Walk(s.rest).0;
        handled := handled + [s.update];
        input := s.rest;
      }
      outcome := if |handled| != Count() then WrongCount else Ok;
    }
  }

  lemma Parts(sequence: nat, us: seq<Update>)
    ensures var r := BatchBytes(sequence, us);
      && |r| >= HEADER && r[..8] == Fixed(sequence, 8) && r[8..12] == Fixed(|us|, 4) && r[12..] == Body(us)
      && r[8..] == Fixed(|us|, 4) + Body(us)
  {
    hide Fixed, Body;
    var a, b, c := Fixed(sequence, 8), Fixed(|us|, 4), Body(us);
    assert (a + b + c)[8..12] == b;
  }

  lemma Joined(sequence: nat, a: seq<Update>, b: seq<Update>)
    requires Body(a + b) == Body(a) + Body(b)
    ensures BatchBytes(sequence, a + b) == Fixed(sequence, 8) + Fixed(|a| + |b|, 4) + Body(a) + Body(b)
  {
    hide Fixed, Body;
    assert |a + b| == |a| + |b|;
  }

  lemma OneUpdate(u: Update)
    ensures Body([u]) == UpdateBytes(u)
  {
    assert [u][..0] == [];
  }

  lemma ZeroHeader()
    ensures seq(HEADER, _ => 0) == BatchBytes(0, [])
  {
    ZeroFixed(8);
    ZeroFixed(4);
  }

  lemma {:induction false} ZeroFixed(n: nat)
    ensures Fixed(0, n) == seq(n, _ => 0)
  {
    if n > 0 {
      ZeroFixed(n - 1);
    }
  }
}
