/** Decoding what the encoder writes. */
module ProtoRoundTrip {
  import opened Options
  import opened Coding
  import opened ProtoFields
  import opened ProtoWire
  import opened ProtoEncoder
  import opened ProtoDecoder

  // ----- which messages come back -----

  /** Every encoded string leaves room for its NUL: the encoder also takes a buffer that is full
      to the last byte, the decoder does not. */
  ghost predicate Restorable(fields: seq<Field>, slots: seq<Slot>)
    requires |fields| == |slots|
    decreases fields, 0
  {
    fields == [] || (RestorableSlot(fields[0], slots[0]) && Restorable(fields[1..], slots[1..]))
  }

  ghost predicate RestorableSlot(f: Field, slot: Slot)
    decreases f, 0
  {
    RestorableAll(f.kind, Emitted(f, slot))
  }

  ghost predicate RestorableAll(kind: Kind, vs: seq<Value>)
    decreases kind, 1
  {
    forall i :: 0 <= i < |vs| ==> RestorableValue(kind, vs[i])
  }

  ghost predicate RestorableValue(kind: Kind, v: Value)
    decreases kind, 0
  {
    match kind
    case Text(buffer) => v.Blob? && |v.bytes| < buffer
    case Message(fs) => v.Struct? && |fs| == |v.slots| && Restorable(fs, v.slots)
    case _ => true
  }

  // ----- single values -----

  lemma SubstreamRoundTrip(s: seq<Byte>, tail: seq<Byte>)
    requires |s| < TWO_32
    ensures Substream(LengthPrefixed(s) + tail) == Parsed(s, tail)
  {
    ProtoWire.Varint32RoundTrip(|s|, s + tail);
    assert LengthPrefixed(s) + tail == Coding.Varint(|s|) + (s + tail);
  }

  lemma TakeRoundTrip(s: seq<Byte>, tail: seq<Byte>)
    ensures Take(s + tail, |s|) == Parsed(s, tail)
  {
  }

  lemma NumberBack(kind: Kind, n: int, tail: seq<Byte>)
    requires Packable(kind) && WellFormedKind(kind) && InKind(kind, Num(n))
    ensures DecodeNumber(kind, NumberBytes(kind, n) + tail) == Parsed(Num(n), tail)
  {
    hide Coding.Varint, GetVarint64, DecodeVarint32, Fixed, Unfixed;
    if kind.Fixed32? {
      TakeRoundTrip(Fixed(n, 4), tail);
      Fixed32RoundTrip(n);
    } else if kind.Fixed64? {
      TakeRoundTrip(Fixed(n, 8), tail);
      Fixed64RoundTrip(n);
    } else {
      NumberRoundTrip(kind, n);
      if kind.Bool? {
        ProtoWire.Varint32RoundTrip(n, tail);
      } else {
        Varint64RoundTrip(ToWire(kind, n), tail);
      }
    }
  }

  lemma BlobBack(kind: Kind, b: seq<Byte>, tail: seq<Byte>)
    requires kind.Bytes? || kind.Text? || kind.FixedBytes?
    requires WellFormedKind(kind) && InKind(kind, Blob(b)) && FitsValue(kind, Blob(b))
    ensures DecodeBlob(kind, LengthPrefixed(b) + tail)
         == if RestorableValue(kind, Blob(b)) then Parsed(Blob(b), tail) else Failed
  {
    hide LengthPrefixed, Substream;
    SubstreamRoundTrip(b, tail);
    if kind.FixedBytes? && |b| == 0 {
      assert b == seq(0, _ => 0);
    }
  }

  lemma {:induction false} PackedBack(kind: Kind, max: nat, vs: seq<Value>, j: nat)
    requires Packable(kind) && WellFormedKind(kind) && AllInKind(kind, vs) && j <= |vs| <= max
    ensures DecodePacked(kind, max, vs[..j], PackedBytes(kind, vs[j..])) == Parsed(vs, [])
    decreases |vs| - j
  {
    hide DecodeNumber, NumberBytes, InKind;
    if j < |vs| {
      PackableNumber(kind, vs[j]);
      var rest := PackedBytes(kind, vs[j + 1..]);
      assert vs[j..][1..] == vs[j + 1..] && vs[j..][0] == vs[j];
      assert PackedBytes(kind, vs[j..]) == NumberBytes(kind, vs[j].n) + rest;
      NumberBack(kind, vs[j].n, rest);
      assert vs[..j] + [vs[j]] == vs[..j + 1];
      PackedBack(kind, max, vs, j + 1);
    } else {
      assert vs[..j] == vs && vs[j..] == [];
    }
  }

  // ----- one item of a field -----

  /** The slot after one more value. */
  function Accept(slot: Slot, v: Value): Slot {
    match slot
    case One(_) => One(v)
    case Opt(_) => Opt(Some(v))
    case Many(vs) => Many(vs + [v])
  }

  /** The slot is as decoding starts it, or an array with room. */
  ghost predicate Open(f: Field, slot: Slot) {
    InField(f, slot) && (if f.rule.Repeated? then |slot.values| < f.rule.max else slot == DefaultSlot(f))
  }

  lemma {:induction false} ValueBack(kind: Kind, v: Value, tail: seq<Byte>)
    requires WellFormedKind(kind) && InKind(kind, v) && FitsValue(kind, v) && |ValueBytes(kind, v)| < TWO_32
    ensures InKind(kind, DefaultValue(kind))
    ensures DecodeValue(kind, DefaultValue(kind), ValueBytes(kind, v) + tail)
         == if RestorableValue(kind, v) then Parsed(v, tail) else Failed
    decreases kind
  {
    hide Substream, DecodeNumber, DecodeBlob, NumberBytes, WellFormed, Typed, Exclusive, DecodeMessage, MessageBytes;
    DefaultValueTyped(kind);
    if Packable(kind) {
      PackableNumber(kind, v);
      NumberBack(kind, v.n, tail);
    } else if kind.Message? {
      SubstreamRoundTrip(MessageBytes(kind.fields, v.slots), tail);
      MessageBack(kind.fields, v.slots);
    } else {
      BlobBack(kind, v.bytes, tail);
    }
  }

  lemma {:induction false} SlotBack(f: Field, slot: Slot, v: Value, tail: seq<Byte>)
    requires WellFormedField(f) && Open(f, slot) && !Packed(f)
    requires InKind(f.kind, v) && FitsValue(f.kind, v) && |ValueBytes(f.kind, v)| < TWO_32
    ensures DecodeSlot(f, slot, WireType(f.kind), ValueBytes(f.kind, v) + tail)
         == if RestorableValue(f.kind, v) then Parsed(Accept(slot, v), tail) else Failed
    decreases f
  {
    hide ValueBytes, FitsValue, RestorableValue, InKind, DecodeValue;
    ValueBack(f.kind, v, tail);
  }

  lemma PackedSlotBack(f: Field, vs: seq<Value>, tail: seq<Byte>)
    requires WellFormedField(f) && Packed(f) && AllInKind(f.kind, vs) && |vs| <= f.rule.max
    requires |PackedBytes(f.kind, vs)| < TWO_32
    ensures DecodeSlot(f, Many([]), WT_STRING, LengthPrefixed(PackedBytes(f.kind, vs)) + tail) == Parsed(Many(vs), tail)
  {
    hide LengthPrefixed, Substream, PackedBytes, DecodePacked, InKind, WellFormedKind;
    SubstreamRoundTrip(PackedBytes(f.kind, vs), tail);
    PackedBack(f.kind, f.rule.max, vs, 0);
    assert vs[..0] == [] && vs[0..] == vs;
  }

  // ----- one turn of the decoding loop -----

  lemma {:induction false} IndexOfTag(fields: seq<Field>, i: nat)
    requires WellFormed(fields) && i < |fields|
    ensures IndexOf(fields, fields[i].tag) == i
  {
    var k := IndexOf(fields, fields[i].tag);
    assert k <= i;
  }

  lemma Turn(fields: seq<Field>, slots: seq<Slot>, seen: set<nat>, i: nat, wireType: nat, rest: seq<Byte>)
    requires WellFormed(fields) && IsMessage(fields, slots) && i < |fields| && wireType < 8
    ensures InField(fields[i], slots[i]) && WellFormedField(fields[i])
    ensures var s := DecodeSlot(fields[i], slots[i], wireType, rest);
      && (s.Parsed? ==> IsMessage(fields, Store(fields, slots, i, s.value)))
      && DecodeFields(fields, Progress(slots, seen), TagBytes(fields[i].tag, wireType) + rest)
        == if s.Failed? then Failed
           else DecodeFields(fields, Progress(Store(fields, slots, i, s.value), See(fields, i, seen)), s.rest)
  {
    hide DecodeSlot, Store, See, DecodeVarint32, Typed, Exclusive;
    assert InField(fields[i], slots[i]) && WellFormedField(fields[i]) by {
      TypedAt(fields, slots, i);
    }
    var t := 8 * fields[i].tag + wireType;
    assert t / 8 == fields[i].tag && t % 8 == wireType && t != 0;
    IndexOfTag(fields, i);
    ProtoWire.Varint32RoundTrip(t, rest);
    var s := DecodeSlot(fields[i], slots[i], wireType, rest);
    if s.Parsed? {
      StoreTyped(fields, slots, i, s.value);
    }
  }

  /** No other member of the group of field `i` is present. */
  ghost predicate Alone(fields: seq<Field>, slots: seq<Slot>, i: nat)
    requires i < |fields| == |slots|
  {
    fields[i].rule.Oneof? ==>
      forall k :: 0 <= k < |fields| && k != i && fields[k].rule == fields[i].rule ==> slots[k] == Opt(None)
  }

  lemma StoreAlone(fields: seq<Field>, slots: seq<Slot>, i: nat, slot: Slot)
    requires i < |fields| == |slots| && Alone(fields, slots, i)
    ensures Store(fields, slots, i, slot) == slots[i := slot]
  {
  }

  /** What a field holds after the values `vs` were decoded for it. */
  function Filled(f: Field, vs: seq<Value>): Slot {
    if f.rule.Repeated? then Many(vs)
    else if vs == [] then DefaultSlot(f)
    else if f.rule.Required? || f.rule.Singular? then One(vs[0])
    else Opt(Some(vs[0]))
  }

  /** The values written for a slot bring the slot back. */
  lemma EmittedFills(f: Field, slot: Slot)
    requires InField(f, slot)
    ensures Filled(f, Emitted(f, slot)) == slot && AllInKind(f.kind, Emitted(f, slot))
    ensures !f.rule.Repeated? ==> |Emitted(f, slot)| <= 1
    ensures Emitted(f, slot) == [] ==> slot == DefaultSlot(f) && !f.rule.Required?
  {
    hide InKind;
    if slot.One? && f.rule.Singular? && IsDefault(f, slot) {
      DefaultSlotIsDefault(f, slot);
    }
  }

  lemma {:induction false} ItemBack(fields: seq<Field>, slots: seq<Slot>, seen: set<nat>, i: nat, v: Value, tail: seq<Byte>)
    requires WellFormed(fields) && IsMessage(fields, slots) && i < |fields| && WellFormedField(fields[i])
    requires !Packed(fields[i]) && Open(fields[i], slots[i]) && Alone(fields, slots, i)
    requires InKind(fields[i].kind, v) && FitsValue(fields[i].kind, v) && |ItemBytes(fields[i].kind, fields[i].tag, v)| < TWO_32
    ensures IsMessage(fields, slots[i := Accept(slots[i], v)])
    ensures DecodeFields(fields, Progress(slots, seen), ItemBytes(fields[i].kind, fields[i].tag, v) + tail)
         == if RestorableValue(fields[i].kind, v)
            then DecodeFields(fields, Progress(slots[i := Accept(slots[i], v)], See(fields, i, seen)), tail)
            else Failed
    decreases fields, 0
  {
    TypedAt(fields, slots, i);
    hide WellFormed, Typed, Exclusive, DecodeFields, DecodeSlot, Store, See, ValueBytes, TagBytes, FitsValue, RestorableValue, InKind;
    var f := fields[i];
    var payload := ValueBytes(f.kind, v) + tail;
    assert ItemBytes(f.kind, f.tag, v) + tail == TagBytes(f.tag, WireType(f.kind)) + payload;
    SlotBack(f, slots[i], v, tail);
    Turn(fields, slots, seen, i, WireType(f.kind), payload);
    AcceptTyped(f, slots[i], v);
    StoreTyped(fields, slots, i, Accept(slots[i], v));
    StoreAlone(fields, slots, i, Accept(slots[i], v));
  }

  lemma AcceptTyped(f: Field, slot: Slot, v: Value)
    requires InField(f, slot) && InKind(f.kind, v)
    ensures InField(f, Accept(slot, v))
  {
    hide InKind;
  }

  lemma StillAlone(fields: seq<Field>, slots: seq<Slot>, i: nat, slot: Slot)
    requires i < |fields| == |slots| && Alone(fields, slots, i)
    ensures Alone(fields, slots[i := slot], i)
  {
  }

  lemma RestorableSplit(kind: Kind, vs: seq<Value>, j: nat)
    requires j < |vs|
    ensures RestorableAll(kind, vs[j..]) <==> RestorableValue(kind, vs[j]) && RestorableAll(kind, vs[j + 1..])
  {
    hide RestorableValue;
    var a, b := vs[j..], vs[j + 1..];
    assert a[0] == vs[j] && a[1..] == b;
    forall k | 0 <= k < |b| && RestorableAll(kind, a)
      ensures RestorableValue(kind, b[k])
    {
      assert b[k] == a[k + 1];
    }
    forall k | 0 <= k < |a| && RestorableValue(kind, vs[j]) && RestorableAll(kind, b)
      ensures RestorableValue(kind, a[k])
    {
      assert k > 0 ==> a[k] == b[k - 1];
    }
  }

  lemma SeeTwice(fields: seq<Field>, i: nat, seen: set<nat>)
    requires i < |fields|
    ensures See(fields, i, See(fields, i, seen)) == See(fields, i, seen)
  {
  }

  lemma RoomForMore(f: Field, vs: seq<Value>, j: nat)
    requires j <= |vs| && AllInKind(f.kind, vs) && InField(f, Filled(f, vs[..j]))
    requires if f.rule.Repeated? then |vs| <= f.rule.max else |vs| <= 1
    ensures j < |vs| ==> Open(f, Filled(f, vs[..j]))
  {
    hide InKind;
  }

  lemma FilledOneMore(f: Field, vs: seq<Value>, j: nat)
    requires j < |vs| && (f.rule.Repeated? || |vs| == 1)
    ensures Accept(Filled(f, vs[..j]), vs[j]) == Filled(f, vs[..j + 1])
  {
    assert vs[..j + 1] == vs[..j] + [vs[j]];
  }

  lemma ItemsStep(kind: Kind, tag: nat, vs: seq<Value>, j: nat, tail: seq<Byte>)
    requires j <= |vs| && WellFormedKind(kind) && AllInKind(kind, vs)
    ensures j == |vs| ==> ItemsBytes(kind, tag, vs[j..]) + tail == tail
    ensures j < |vs| ==>
      ItemsBytes(kind, tag, vs[j..]) + tail == ItemBytes(kind, tag, vs[j]) + (ItemsBytes(kind, tag, vs[j + 1..]) + tail)
  {
    hide InKind, ItemBytes;
    if j < |vs| {
      assert vs[j..][0] == vs[j] && vs[j..][1..] == vs[j + 1..];
    }
  }

  /** The items of a field that is not packed, from item `j` on. */
  lemma {:induction false} ItemsBack(fields: seq<Field>, slots: seq<Slot>, seen: set<nat>, i: nat, vs: seq<Value>, j: nat, tail: seq<Byte>)
    requires WellFormed(fields) && IsMessage(fields, slots) && i < |fields| && WellFormedField(fields[i])
    requires !Packed(fields[i]) && AllInKind(fields[i].kind, vs) && FitsAll(fields[i].kind, vs) && j <= |vs|
    requires if fields[i].rule.Repeated? then |vs| <= fields[i].rule.max else |vs| <= 1
    requires |ItemsBytes(fields[i].kind, fields[i].tag, vs[j..])| < TWO_32
    requires slots[i] == Filled(fields[i], vs[..j]) && (vs != [] ==> Alone(fields, slots, i))
    ensures IsMessage(fields, slots[i := Filled(fields[i], vs)])
    ensures DecodeFields(fields, Progress(slots, seen), ItemsBytes(fields[i].kind, fields[i].tag, vs[j..]) + tail)
         == if RestorableAll(fields[i].kind, vs[j..])
            then DecodeFields(fields, Progress(slots[i := Filled(fields[i], vs)], if j < |vs| then See(fields, i, seen) else seen), tail)
            else Failed
    decreases fields, 1, |vs| - j
  {
    TypedAt(fields, slots, i);
    hide InKind, FitsValue, RestorableValue, WellFormed, Typed, Exclusive, DecodeFields, ItemBytes, ItemsBytes, Store, DecodeSlot, WellFormedKind,
         See, Filled, Accept, Alone, Open, IsMessage;
    var f := fields[i];
    ItemsStep(f.kind, f.tag, vs, j, tail);
    RoomForMore(f, vs, j);
    SeeTwice(fields, i, seen);
    if j == |vs| {
      assert vs[..j] == vs && slots[i := slots[i]] == slots;
    } else {
      var b, rest := ItemBytes(f.kind, f.tag, vs[j]), ItemsBytes(f.kind, f.tag, vs[j + 1..]);
      ItemBack(fields, slots, seen, i, vs[j], rest + tail);
      var next := slots[i := Accept(slots[i], vs[j])];
      FilledOneMore(f, vs, j);
      assert next[i := Filled(f, vs)] == slots[i := Filled(f, vs)];
      StillAlone(fields, slots, i, Accept(slots[i], vs[j]));
      ItemsBack(fields, next, See(fields, i, seen), i, vs, j + 1, tail);
      RestorableSplit(f.kind, vs, j);
    }
  }

  // ----- all fields -----

  /** The first `i` fields from the message, the others as decoding starts them. */
  function Partial(fields: seq<Field>, m: seq<Slot>, i: nat): (r: seq<Slot>)
    requires |fields| == |m| && i <= |fields|
    ensures |r| == |m|
  {
    m[..i] + Defaults(fields)[i..]
  }

  function SeenUpTo(fields: seq<Field>, i: nat): set<nat>
    requires i <= |fields|
  {
    if i == 0 then {} else See(fields, i - 1, SeenUpTo(fields, i - 1))
  }

  lemma {:induction false} SeenAll(fields: seq<Field>, i: nat)
    requires i <= |fields|
    ensures forall r :: 0 <= r < RequiredBefore(fields, i) && r < MAX_REQUIRED_FIELDS ==> r in SeenUpTo(fields, i)
  {
    if i > 0 {
      SeenAll(fields, i - 1);
    }
  }

  lemma PartialTyped(fields: seq<Field>, m: seq<Slot>, i: nat)
    requires IsMessage(fields, m) && i <= |fields|
    ensures IsMessage(fields, Partial(fields, m, i))
  {
    hide InKind, Exclusive;
    var p := Partial(fields, m, i);
    DefaultsTyped(fields);
    PartialExclusive(fields, m, i);
    forall k | 0 <= k < |fields|
      ensures InField(fields[k], p[k])
    {
      assert InField(fields[k], m[k]) && InField(fields[k], Defaults(fields)[k]);
    }
  }

  lemma PartialExclusive(fields: seq<Field>, m: seq<Slot>, i: nat)
    requires Exclusive(fields, m) && i <= |fields|
    ensures Exclusive(fields, Partial(fields, m, i))
  {
    var p := Partial(fields, m, i);
    forall k | i <= k < |fields|
      ensures !Present(p[k])
    {
      assert p[k] == DefaultSlot(fields[k]);
    }
  }

  /** Before field `i` of a message is decoded, the rest of its group is absent. */
  lemma PartialAlone(fields: seq<Field>, m: seq<Slot>, i: nat)
    requires IsMessage(fields, m) && i < |fields| && Emitted(fields[i], m[i]) != []
    ensures Alone(fields, Partial(fields, m, i), i)
  {
    hide InKind;
    var p := Partial(fields, m, i);
    assert InField(fields[i], m[i]);
    forall k | 0 <= k < |fields| && k != i && fields[i].rule.Oneof? && fields[k].rule == fields[i].rule
      ensures p[k] == Opt(None)
    {
      OthersAbsent(fields, m, i, k);
    }
  }

  lemma OthersAbsent(fields: seq<Field>, m: seq<Slot>, i: nat, k: nat)
    requires IsMessage(fields, m) && i < |fields| && k < |fields| && k != i
    requires fields[i].rule.Oneof? && fields[k].rule == fields[i].rule && Present(m[i])
    ensures m[k] == Opt(None)
  {
    hide InKind;
    assert InField(fields[k], m[k]);
    assert Present(m[k]) ==> k != i && (k < i || i < k);
  }

  lemma PartialStep(fields: seq<Field>, m: seq<Slot>, i: nat)
    requires IsMessage(fields, m) && i < |fields|
    ensures Partial(fields, m, i)[i] == DefaultSlot(fields[i])
    ensures Partial(fields, m, i)[i := m[i]] == Partial(fields, m, i + 1)
    ensures m[i] == DefaultSlot(fields[i]) ==> Partial(fields, m, i) == Partial(fields, m, i + 1)
  {
  }

  /** One field of a message. */
  lemma {:induction false} FieldBack(fields: seq<Field>, m: seq<Slot>, i: nat, tail: seq<Byte>)
    requires WellFormed(fields) && IsMessage(fields, m) && i < |fields|
    requires WellFormedField(fields[i]) && InField(fields[i], m[i]) && FitsSlot(fields[i], m[i])
    requires |SlotBytes(fields[i], m[i])| < TWO_32
    ensures IsMessage(fields, Partial(fields, m, i)) && IsMessage(fields, Partial(fields, m, i + 1))
    ensures DecodeFields(fields, Progress(Partial(fields, m, i), SeenUpTo(fields, i)), SlotBytes(fields[i], m[i]) + tail)
         == if RestorableSlot(fields[i], m[i])
            then DecodeFields(fields, Progress(Partial(fields, m, i + 1), SeenUpTo(fields, i + 1)), tail)
            else Failed
    decreases fields, 2
  {
    var f, p, seen := fields[i], Partial(fields, m, i), SeenUpTo(fields, i);
    var vs := Emitted(f, m[i]);
    PartialTyped(fields, m, i);
    PartialTyped(fields, m, i + 1);
    PartialStep(fields, m, i);
    EmittedFills(f, m[i]);
    hide Typed, Exclusive, WellFormed, InKind, FitsValue, RestorableValue, DecodeFields, DecodeSlot, TagBytes, PackedBytes, ItemsBytes, Partial, Store;
    if vs == [] {
      NoItems(f.kind, f.tag);
      assert SlotBytes(f, m[i]) + tail == tail;
    } else if Packed(f) {
      PackedFieldBack(fields, p, seen, i, vs, tail);
    } else {
      PartialAlone(fields, m, i);
      assert vs[..0] == [] && vs[0..] == vs;
      ItemsBack(fields, p, seen, i, vs, 0, tail);
    }
  }

  lemma PackedFieldBack(fields: seq<Field>, slots: seq<Slot>, seen: set<nat>, i: nat, vs: seq<Value>, tail: seq<Byte>)
    requires WellFormed(fields) && IsMessage(fields, slots) && i < |fields| && WellFormedField(fields[i])
    requires Packed(fields[i]) && AllInKind(fields[i].kind, vs) && |vs| <= fields[i].rule.max
    requires slots[i] == Many([]) && |PackedBytes(fields[i].kind, vs)| < TWO_32
    ensures IsMessage(fields, slots[i := Many(vs)]) && RestorableAll(fields[i].kind, vs)
    ensures DecodeFields(fields, Progress(slots, seen), TagBytes(fields[i].tag, WT_STRING) + LengthPrefixed(PackedBytes(fields[i].kind, vs)) + tail)
         == DecodeFields(fields, Progress(slots[i := Many(vs)], See(fields, i, seen)), tail)
  {
    TypedAt(fields, slots, i);
    hide Typed, Exclusive, WellFormed, InKind, RestorableValue, DecodeFields, DecodeSlot, TagBytes, PackedBytes, Store, LengthPrefixed, See;
    var f := fields[i];
    var t, packed := TagBytes(f.tag, WT_STRING), LengthPrefixed(PackedBytes(f.kind, vs));
    assert t + packed + tail == t + (packed + tail);
    Turn(fields, slots, seen, i, WT_STRING, packed + tail);
    PackedSlotBack(f, vs, tail);
    StoreAlone(fields, slots, i, Many(vs));
    PackableRestorable(f.kind, vs);
  }

  lemma PackableRestorable(kind: Kind, vs: seq<Value>)
    requires Packable(kind)
    ensures RestorableAll(kind, vs)
  {
  }

  lemma {:induction false} FieldsBack(fields: seq<Field>, m: seq<Slot>, i: nat)
    requires WellFormed(fields) && IsMessage(fields, m) && i <= |fields|
    requires WellFormed(fields[i..]) && Typed(fields[i..], m[i..]) && Fits(fields[i..], m[i..])
    requires |MessageBytes(fields[i..], m[i..])| < TWO_32
    ensures IsMessage(fields, Partial(fields, m, i))
    ensures DecodeFields(fields, Progress(Partial(fields, m, i), SeenUpTo(fields, i)), MessageBytes(fields[i..], m[i..]))
         == if Restorable(fields[i..], m[i..]) then Parsed(Progress(m, SeenUpTo(fields, |fields|)), []) else Failed
    decreases fields, 3, |fields| - i
  {
    PartialTyped(fields, m, i);
    if i == |fields| {
      AtEnd(fields, m);
      assert Partial(fields, m, i) == m;
    } else {
      AtField(fields, m, i);
      hide Typed, Exclusive, WellFormed, InField, WellFormedField, MessageBytes, Fits, SlotBytes, FitsSlot, DecodeFields, Partial, SeenUpTo;
      FieldBack(fields, m, i, MessageBytes(fields[i + 1..], m[i + 1..]));
      FieldsBack(fields, m, i + 1);
      RestorableAt(fields, m, i);
    }
  }

  lemma RestorableAt(fields: seq<Field>, m: seq<Slot>, i: nat)
    requires i < |fields| == |m|
    ensures Restorable(fields[i..], m[i..]) <==> RestorableSlot(fields[i], m[i]) && Restorable(fields[i + 1..], m[i + 1..])
  {
    assert fields[i..][1..] == fields[i + 1..] && m[i..][1..] == m[i + 1..];
    assert fields[i..][0] == fields[i] && m[i..][0] == m[i];
  }

  /** Decoding the bytes of a message from the default values gives back the message, all of it and
      at every depth, just when no string fills its buffer; otherwise decoding fails. */
  lemma {:induction false} MessageBack(fields: seq<Field>, m: seq<Slot>)
    requires WellFormed(fields) && IsMessage(fields, m) && Fits(fields, m)
    requires |MessageBytes(fields, m)| < TWO_32
    ensures IsMessage(fields, Defaults(fields))
    ensures DecodeMessage(fields, Defaults(fields), MessageBytes(fields, m))
         == if Restorable(fields, m) then Parsed(m, []) else Failed
    decreases fields, 5
  {
    hide IsMessage, WellFormed, MessageBytes, Fits, DecodeFields, Restorable, SeenUpTo, RequiredBefore;
    AllFieldsBack(fields, m);
    SeenAll(fields, |fields|);
  }

  lemma {:induction false} AllFieldsBack(fields: seq<Field>, m: seq<Slot>)
    requires WellFormed(fields) && IsMessage(fields, m) && Fits(fields, m)
    requires |MessageBytes(fields, m)| < TWO_32
    ensures IsMessage(fields, Defaults(fields))
    ensures DecodeFields(fields, Progress(Defaults(fields), {}), MessageBytes(fields, m))
         == if Restorable(fields, m) then Parsed(Progress(m, SeenUpTo(fields, |fields|)), []) else Failed
    decreases fields, 4
  {
    assert fields[0..] == fields && m[0..] == m;
    assert Partial(fields, m, 0) == Defaults(fields);
    DefaultsTyped(fields);
    hide Typed, Exclusive, WellFormed, MessageBytes, Fits, DecodeFields, Restorable, Partial;
    FieldsBack(fields, m, 0);
  }

  /** The whole codec: encoding succeeds, and decoding its output restores the message. */
  lemma RoundTripIff(fields: seq<Field>, m: seq<Slot>)
    requires WellFormed(fields) && IsMessage(fields, m) && Fits(fields, m)
    requires |MessageBytes(fields, m)| < TWO_32
    ensures Decode(fields, MessageBytes(fields, m)) == Parsed(m, []) <==> Restorable(fields, m)
  {
    hide Typed, Exclusive, WellFormed, MessageBytes, Fits, DecodeMessage, Restorable;
    MessageBack(fields, m);
  }

  /** A required string of one byte in a buffer of one byte is encoded, and not decoded again. */
  lemma FullStringIsRefused()
    ensures var fields, m := [Field(1, Required, Text(1))], [One(Blob([65]))];
      && WellFormed(fields) && IsMessage(fields, m) && Fits(fields, m)
      && MessageBytes(fields, m) == [10, 1, 65] && Decode(fields, [10, 1, 65]) == Failed
  {
    hide Decode;
    var f, slot := Field(1, Required, Text(1)), One(Blob([65]));
    var fields, m := [f], [slot];
    assert InField(f, slot) && IsMessage(fields, m);
    FullStringBytes();
    assert !RestorableValue(f.kind, Emitted(f, slot)[0]);
    assert !RestorableSlot(f, slot);
    assert Fits(fields[1..], m[1..]) && FitsSlot(f, slot);
    FullStringFails(fields, m);
  }

  lemma FullStringBytes()
    ensures var fields, m := [Field(1, Required, Text(1))], [One(Blob([65]))];
      WellFormed(fields) && IsMessage(fields, m) && MessageBytes(fields, m) == [10, 1, 65]
  {
    var f, slot := Field(1, Required, Text(1)), One(Blob([65]));
    assert InField(f, slot) && WellFormedField(f) && [f][1..] == [] && [slot][1..] == [];
    assert Coding.Varint(10) == [10] && LengthPrefixed([65]) == [1, 65];
    assert TagBytes(1, WT_STRING) == [10] && ItemBytes(f.kind, 1, Blob([65])) == [10, 1, 65];
    assert [Blob([65])][1..] == [] && ItemsBytes(f.kind, 1, []) == [];
    assert ItemsBytes(f.kind, 1, [Blob([65])]) == [10, 1, 65];
    assert SlotBytes(f, slot) == [10, 1, 65];
  }

  lemma FullStringFails(fields: seq<Field>, m: seq<Slot>)
    requires WellFormed(fields) && IsMessage(fields, m) && Fits(fields, m) && |MessageBytes(fields, m)| < TWO_32
    requires !Restorable(fields, m)
    ensures Decode(fields, MessageBytes(fields, m)) == Failed
  {
    hide Typed, Exclusive, WellFormed, MessageBytes, Fits, DecodeMessage, Restorable;
    MessageBack(fields, m);
  }
}
