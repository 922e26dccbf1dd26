/** Decoding a message field by field, submessages and packed arrays through substreams
    (pb_decode.c, pb_common.c). */
module ProtoDecoder {
  import opened Options
  import opened Coding
  import opened ProtoFields
  import opened ProtoWire

  const MAX_REQUIRED_FIELDS: nat := 64

  // ----- finding fields -----

  /** The first field with the tag, or the number of fields. */
  function IndexOf(fields: seq<Field>, tag: nat): (i: nat)
    ensures i <= |fields|
    ensures i < |fields| ==> fields[i].tag == tag
    ensures forall k :: 0 <= k < i ==> fields[k].tag != tag
  {
    if fields == [] || fields[0].tag == tag then 0 else 1 + IndexOf(fields[1..], tag)
  }

  /** How many required fields come before field `i`. */
  function RequiredBefore(fields: seq<Field>, i: nat): (n: nat)
    requires i <= |fields|
    ensures n <= i
  {
    if i == 0 then 0 else RequiredBefore(fields, i - 1) + if fields[i - 1].rule.Required? then 1 else 0
  }

  /** The first 64 required fields have all been seen. */
  predicate RequiredSeen(fields: seq<Field>, seen: set<nat>) {
    forall r :: 0 <= r < RequiredBefore(fields, |fields|) && r < MAX_REQUIRED_FIELDS ==> r in seen
  }

  function See(fields: seq<Field>, i: nat, seen: set<nat>): set<nat>
    requires i < |fields|
  {
    var r := RequiredBefore(fields, i);
    if fields[i].rule.Required? && r < MAX_REQUIRED_FIELDS then seen + {r} else seen
  }

  // ----- what the bytes mean -----

  /** pb_make_string_substream followed by pb_close_string_substream. */
  function Substream(input: seq<Byte>): (r: Parsed<seq<Byte>>)
    ensures r.Parsed? ==> |r.rest| < |input| && |r.value| < |input| && |r.value| < TWO_32
  {
    var n := DecodeVarint32(input);
    if n.Parsed? && n.value <= |n.rest| then Parsed(n.rest[..n.value], n.rest[n.value..]) else Failed
  }

  function Take(input: seq<Byte>, n: nat): (r: Parsed<seq<Byte>>)
    ensures r.Parsed? ==> |r.rest| + n == |input| && |r.value| == n
  {
    if n <= |input| then Parsed(input[..n], input[n..]) else Failed
  }

  function SkipVarint(input: seq<Byte>): (r: Parsed<nat>)
    ensures r.Parsed? ==> |r.rest| < |input|
  {
    if input == [] then Failed else if input[0] >= 128 then SkipVarint(input[1..]) else Parsed(0, input[1..])
  }

  /** pb_skip_field. */
  function SkipField(wireType: nat, input: seq<Byte>): (r: Parsed<nat>)
    ensures r.Parsed? ==> |r.rest| < |input|
  {
    if wireType == WT_VARINT then SkipVarint(input)
    else if wireType == WT_64BIT then Skipped(Take(input, 8))
    else if wireType == WT_STRING then Skipped(Substream(input))
    else if wireType == WT_32BIT then Skipped(Take(input, 4))
    else Failed
  }

  function Skipped(r: Parsed<seq<Byte>>): (s: Parsed<nat>)
    ensures s.Parsed? == r.Parsed? && (r.Parsed? ==> s.rest == r.rest)
  {
    if r.Failed? then Failed else Parsed(0, r.rest)
  }

  function UpToNul(s: seq<Byte>): (r: seq<Byte>)
    ensures |r| <= |s| && NoNul(r)
    ensures NoNul(s) ==> r == s
  {
    if s == [] || s[0] == 0 then [] else
      assert NoNul(s) ==> NoNul(s[1..]);
      [s[0]] + UpToNul(s[1..])
  }

  function DecodeNumber(kind: Kind, input: seq<Byte>): (r: Parsed<Value>)
    requires Packable(kind) && WellFormedKind(kind)
    ensures r.Parsed? ==> |r.rest| < |input| && InKind(kind, r.value)
  {
    if kind.Bool? then
      var n := DecodeVarint32(input);
      if n.Failed? then Failed else Parsed(Num(if n.value != 0 then 1 else 0), n.rest)
    else if kind.Fixed32? then FixedNumber(Take(input, 4))
    else if kind.Fixed64? then FixedNumber(Take(input, 8))
    else
      var u := GetVarint64(input);
      if u.Failed? then Failed
      else
        var n := FromWire(kind, u.value);
        if n.Failed? then Failed else Parsed(Num(n.value), u.rest)
  }

  function FixedNumber(b: Parsed<seq<Byte>>): (r: Parsed<Value>)
    ensures b.Parsed? <==> r.Parsed?
    ensures r.Parsed? ==> r.rest == b.rest && r.value.Num? && 0 <= r.value.n
    ensures r.Parsed? && |b.value| == 4 ==> r.value.n < TWO_32
    ensures r.Parsed? && |b.value| == 8 ==> r.value.n < TWO_64
  {
    if b.Failed? then Failed else
      FixedBounds(b.value);
      Parsed(Num(Unfixed(b.value)), b.rest)
  }

  lemma FixedBounds(b: seq<Byte>)
    ensures |b| == 4 ==> Unfixed(b) < TWO_32
    ensures |b| == 8 ==> Unfixed(b) < TWO_64
  {
    UnfixedRoundTrip(b);
    PowersOfTwo();
    PowOf256();
  }

  lemma PowOf256()
    ensures Pow(256, 4) == TWO_32 && Pow(256, 8) == TWO_64
  {
    assert Pow(256, 1) == 256 && Pow(256, 2) == 0x1_0000;
    PowSum(256, 2, 2);
    PowSum(256, 4, 4);
  }

  function DecodeBlob(kind: Kind, input: seq<Byte>): (r: Parsed<Value>)
    requires kind.Bytes? || kind.Text? || kind.FixedBytes?
    ensures r.Parsed? ==> |r.rest| < |input| && InKind(kind, r.value)
  {
    var s := Substream(input);
    if s.Failed? then Failed
    else match kind
      case Bytes(max) => if |s.value| > max then Failed else Parsed(Blob(s.value), s.rest)
      case Text(buffer) => if |s.value| + 1 > buffer then Failed else Parsed(Blob(UpToNul(s.value)), s.rest)
      case FixedBytes(n) =>
        if |s.value| == 0 then Parsed(Blob(seq(n, _ => 0)), s.rest)
        else if |s.value| != n then Failed else Parsed(Blob(s.value), s.rest)
  }

  /** The decoders of PB_DECODERS; a submessage is merged into `dest`. */
  function DecodeValue(kind: Kind, dest: Value, input: seq<Byte>): (r: Parsed<Value>)
    requires WellFormedKind(kind) && InKind(kind, dest)
    ensures r.Parsed? ==> |r.rest| < |input| && InKind(kind, r.value)
    decreases |input|, 1
  {
    if Packable(kind) then DecodeNumber(kind, input)
    else if !kind.Message? then DecodeBlob(kind, input)
    else
      var s := Substream(input);
      if s.Failed? then Failed
      else
        var m := DecodeMessage(kind.fields, dest.slots, s.value);
        if m.Failed? then Failed else Parsed(Struct(m.value), s.rest)
  }

  /** Packed items, up to the end of their substream. */
  function DecodePacked(kind: Kind, max: nat, vs: seq<Value>, input: seq<Byte>): (r: Parsed<seq<Value>>)
    requires WellFormedKind(kind) && Packable(kind) && forall i :: 0 <= i < |vs| ==> InKind(kind, vs[i])
    ensures r.Parsed? ==> r.rest == [] && forall i :: 0 <= i < |r.value| ==> InKind(kind, r.value[i])
    decreases |input|, 2
  {
    if input == [] then Parsed(vs, [])
    else if |vs| >= max then Failed
    else
      var v := DecodeNumber(kind, input);
      if v.Failed? then Failed else DecodePacked(kind, max, vs + [v.value], v.rest)
  }

  /** decode_static_field. */
  function DecodeSlot(f: Field, slot: Slot, wireType: nat, input: seq<Byte>): (r: Parsed<Slot>)
    requires WellFormedField(f) && InField(f, slot)
    ensures r.Parsed? ==> |r.rest| < |input| && InField(f, r.value)
    decreases |input|, 3
  {
    if f.rule.Repeated? then
      if wireType == WT_STRING && Packable(f.kind) then
        var s := Substream(input);
        if s.Failed? then Failed
        else
          var vs := DecodePacked(f.kind, f.rule.max, slot.values, s.value);
          if vs.Failed? then Failed else Parsed(Many(vs.value), s.rest)
      else if |slot.values| >= f.rule.max then Failed
      else
        DefaultValueTyped(f.kind);
        var v := DecodeValue(f.kind, DefaultValue(f.kind), input);
        if v.Failed? then Failed else Parsed(Many(slot.values + [v.value]), v.rest)
    else
      DefaultValueTyped(f.kind);
      var dest := if slot.One? then slot.value else if slot.opt.Some? then slot.opt.value else DefaultValue(f.kind);
      var v := DecodeValue(f.kind, dest, input);
      if v.Failed? then Failed else Parsed(if slot.One? then One(v.value) else Opt(Some(v.value)), v.rest)
  }

  /** A member of a Oneof group takes the place of the others. */
  function Store(fields: seq<Field>, slots: seq<Slot>, i: nat, slot: Slot): (r: seq<Slot>)
    requires i < |fields| == |slots|
    ensures |r| == |slots|
  {
    seq(|slots|, k requires 0 <= k < |slots| =>
      if k == i then slot
      else if fields[i].rule.Oneof? && fields[k].rule == fields[i].rule then Opt(None)
      else slots[k])
  }

  lemma StoreTyped(fields: seq<Field>, slots: seq<Slot>, i: nat, slot: Slot)
    requires i < |fields| && IsMessage(fields, slots) && InField(fields[i], slot)
    ensures IsMessage(fields, Store(fields, slots, i, slot))
  {
    hide InKind;
    var r := Store(fields, slots, i, slot);
    forall k | 0 <= k < |fields|
      ensures InField(fields[k], r[k])
    {
      assert InField(fields[k], slots[k]);
    }
  }

  datatype Progress = Progress(slots: seq<Slot>, seen: set<nat>)

  /** One field after its tag. An empty message type takes a field numbered 0 for the terminator of
      its descriptor, a bool. */
  function DecodeField(fields: seq<Field>, p: Progress, tag: nat, wireType: nat, input: seq<Byte>): (r: Parsed<Progress>)
    requires WellFormed(fields) && IsMessage(fields, p.slots)
    ensures r.Parsed? ==> |r.rest| < |input| && IsMessage(fields, r.value.slots)
    decreases |input|, 4
  {
    var i := IndexOf(fields, tag);
    if i < |fields| then
      var s := DecodeSlot(fields[i], p.slots[i], wireType, input);
      if s.Failed? then Failed
      else
        StoreTyped(fields, p.slots, i, s.value);
        Parsed(Progress(Store(fields, p.slots, i, s.value), See(fields, i, p.seen)), s.rest)
    else
      var u := if fields == [] && tag == 0 then DecodeVarint32(input) else SkipField(wireType, input);
      if u.Failed? then Failed else Parsed(p, u.rest)
  }

  /** The loop of pb_decode_noinit. */
  function DecodeFields(fields: seq<Field>, p: Progress, input: seq<Byte>): (r: Parsed<Progress>)
    requires WellFormed(fields) && IsMessage(fields, p.slots)
    ensures r.Parsed? ==> |r.rest| <= |input| && IsMessage(fields, r.value.slots)
    decreases |input|, 0
  {
    if input == [] then Parsed(p, [])
    else
      var t := DecodeVarint32(input);
      if t.Failed? then Failed
      else if t.value == 0 then Parsed(p, t.rest)
      else
        var f := DecodeField(fields, p, t.value / 8, t.value % 8, t.rest);
        if f.Failed? then Failed else DecodeFields(fields, f.value, f.rest)
  }

  /** pb_decode_noinit: merge the input into a message. */
  function DecodeMessage(fields: seq<Field>, slots: seq<Slot>, input: seq<Byte>): (r: Parsed<seq<Slot>>)
    requires WellFormed(fields) && IsMessage(fields, slots)
    ensures r.Parsed? ==> |r.rest| <= |input| && IsMessage(fields, r.value)
    decreases |input|, 1
  {
    var p := DecodeFields(fields, Progress(slots, {}), input);
    if p.Failed? || !RequiredSeen(fields, p.value.seen) then Failed else Parsed(p.value.slots, p.rest)
  }

  /** pb_decode. */
  function Decode(fields: seq<Field>, input: seq<Byte>): (r: Parsed<seq<Slot>>)
    requires WellFormed(fields)
    ensures r.Parsed? ==> IsMessage(fields, r.value)
  {
    DefaultsTyped(fields);
    DecodeMessage(fields, Defaults(fields), input)
  }

  // ----- fields the message does not have -----

  /** What skipping a field leaves of the decoding. */
  function Passed(p: Progress, u: Parsed<nat>): Parsed<Progress> {
    if u.Failed? then Failed else Parsed(p, u.rest)
  }

  /** Both fail, or both stop at the same place. */
  predicate StopAlike(a: Parsed<nat>, b: Parsed<nat>) {
    a.Parsed? == b.Parsed? && (a.Parsed? ==> a.rest == b.rest)
  }

  /** An unknown field is skipped as its wire type says, except where a message type without fields
      meets a field numbered 0: there a bool is read, and it must happen to end where the field ends. */
  lemma UnknownFieldSkippedIff(fields: seq<Field>, p: Progress, tag: nat, wireType: nat, input: seq<Byte>)
    requires WellFormed(fields) && IsMessage(fields, p.slots) && IndexOf(fields, tag) == |fields|
    ensures DecodeField(fields, p, tag, wireType, input) == Passed(p, SkipField(wireType, input))
      <==> fields != [] || tag != 0 || StopAlike(DecodeVarint32(input), SkipField(wireType, input))
  {
    hide DecodeVarint32, SkipField;
  }

  /** A one-byte string in field 0: a message type without fields fails on it, although skipping the
      field would end the message. */
  lemma FieldZeroIsMisread()
    ensures SkipField(WT_STRING, [1, 7]) == Parsed(0, [])
    ensures Decode([], [2, 1, 7]) == Failed
  {
    hide Varint32From;
    ProtoWire.Varint32RoundTrip(2, [1, 7]);
    ProtoWire.Varint32RoundTrip(1, [7]);
    ProtoWire.Varint32RoundTrip(7, []);
    assert [2] + [1, 7] == [2, 1, 7] && [1] + [7] == [1, 7] && [7] + [] == [7];
    var p := Progress([], {});
    assert DecodeVarint32([]).Failed? by {
      NoVarint();
    }
    assert DecodeField([], p, 0, 7, []) == Failed;
    assert DecodeFields([], p, [7]) == Failed;
    assert DecodeField([], p, 0, 2, [1, 7]) == Parsed(p, [7]);
    assert DecodeFields([], p, [2, 1, 7]) == Failed;
  }

  lemma NoVarint()
    ensures DecodeVarint32([]) == Failed
  {
  }
}
