/** Field descriptors and the messages they describe (pb.h), statically allocated. */
module ProtoFields {
  import opened Options
  import opened Coding

  /** PB_LTYPE with the data size: integers of `size` bytes, byte arrays and strings with a buffer,
      submessages with their descriptor. */
  datatype Kind =
    | Bool
    | Varint(size: nat)
    | Uvarint(size: nat)
    | Svarint(size: nat)
    | Fixed32
    | Fixed64
    | Bytes(max: nat)
    | Text(buffer: nat)
    | Message(fields: seq<Field>)
    | FixedBytes(length: nat)

  /** PB_HTYPE. Optional has a has-flag, Singular is the proto3 field without one, a Repeated field
      holds at most `max` items, and the Oneof fields of a group share their storage. */
  datatype Rule = Required | Optional | Singular | Repeated(max: nat) | Oneof(group: nat)

  datatype Field = Field(tag: nat, rule: Rule, kind: Kind)

  const MAX_TAG: nat := 0x2000_0000

  predicate Packable(kind: Kind) {
    !kind.Bytes? && !kind.Text? && !kind.Message? && !kind.FixedBytes?
  }

  predicate IntSize(n: nat) {
    n == 1 || n == 2 || n == 4 || n == 8
  }

  ghost predicate WellFormed(fields: seq<Field>) {
    && (forall i :: 0 <= i < |fields| ==> 0 < fields[i].tag < MAX_TAG && WellFormedField(fields[i]))
    && forall i, j :: 0 <= i < j < |fields| ==> fields[i].tag != fields[j].tag
  }

  ghost predicate WellFormedField(f: Field) {
    WellFormedKind(f.kind)
  }

  ghost predicate WellFormedKind(kind: Kind) {
    match kind
    case Varint(n) => IntSize(n)
    case Uvarint(n) => IntSize(n)
    case Svarint(n) => IntSize(n)
    case Text(n) => 0 < n < TWO_32
    case Bytes(n) => n < TWO_32
    case FixedBytes(n) => n < TWO_32
    case Message(fs) => WellFormed(fs)
    case _ => true
  }

  // ----- messages -----

  datatype Value = Num(n: int) | Blob(bytes: seq<Byte>) | Struct(slots: seq<Slot>)

  /** What a message holds for a field: a value, a value that may be absent (of a Oneof group at
      most one is present), or the items of an array. */
  datatype Slot = One(value: Value) | Opt(opt: Option<Value>) | Many(values: seq<Value>)

  function HalfRange(size: nat): (r: int)
    ensures r > 0
  {
    if size == 1 then 0x80 else if size == 2 then 0x8000 else if size == 4 then 0x8000_0000 else 0x8000_0000_0000_0000
  }

  ghost predicate InKind(kind: Kind, v: Value) {
    match kind
    case Bool => v.Num? && (v.n == 0 || v.n == 1)
    case Varint(size) => v.Num? && -HalfRange(size) <= v.n < HalfRange(size)
    case Uvarint(size) => v.Num? && 0 <= v.n < 2 * HalfRange(size)
    case Svarint(size) => v.Num? && -HalfRange(size) <= v.n < HalfRange(size)
    case Fixed32 => v.Num? && 0 <= v.n < TWO_32
    case Fixed64 => v.Num? && 0 <= v.n < TWO_64
    case Bytes(_) => v.Blob? && |v.bytes| < TWO_32
    case Text(buffer) => v.Blob? && |v.bytes| <= buffer && NoNul(v.bytes)
    case FixedBytes(n) => v.Blob? && |v.bytes| == n
    case Message(fs) => v.Struct? && Typed(fs, v.slots) && Exclusive(fs, v.slots)
  }

  /** The string a buffer holds ends before the first NUL. */
  predicate NoNul(s: seq<Byte>) {
    forall i :: 0 <= i < |s| ==> s[i] != 0
  }

  ghost predicate Typed(fields: seq<Field>, slots: seq<Slot>)
    decreases fields
  {
    |fields| == |slots| && forall i :: 0 <= i < |fields| ==> InField(fields[i], slots[i])
  }

  ghost predicate InField(f: Field, slot: Slot) {
    match f.rule
    case Required => slot.One? && InKind(f.kind, slot.value)
    case Singular => slot.One? && InKind(f.kind, slot.value)
    case Repeated(_) => slot.Many? && forall i :: 0 <= i < |slot.values| ==> InKind(f.kind, slot.values[i])
    case _ => slot.Opt? && (slot.opt.Some? ==> InKind(f.kind, slot.opt.value))
  }

  /** One member of a group at a time. */
  ghost predicate Exclusive(fields: seq<Field>, slots: seq<Slot>) {
    && |fields| == |slots|
    && forall i, j :: 0 <= i < j < |fields| && fields[i].rule.Oneof? && fields[j].rule == fields[i].rule ==>
      !(Present(slots[i]) && Present(slots[j]))
  }

  predicate Present(slot: Slot) {
    slot.Opt? && slot.opt.Some?
  }

  ghost predicate IsMessage(fields: seq<Field>, slots: seq<Slot>) {
    Typed(fields, slots) && Exclusive(fields, slots)
  }

  lemma TypedAt(fields: seq<Field>, slots: seq<Slot>, i: nat)
    requires WellFormed(fields) && IsMessage(fields, slots) && i < |fields|
    ensures |fields| == |slots| && InField(fields[i], slots[i]) && WellFormedField(fields[i])
  {
  }

  // ----- default values -----

  /** pb_message_set_to_defaults. */
  function Defaults(fields: seq<Field>): (slots: seq<Slot>)
    ensures |slots| == |fields|
    ensures forall i :: 0 <= i < |fields| ==> slots[i] == DefaultSlot(fields[i])
    decreases fields
  {
    if fields == [] then [] else [DefaultSlot(fields[0])] + Defaults(fields[1..])
  }

  function DefaultSlot(f: Field): Slot {
    match f.rule
    case Required => One(DefaultValue(f.kind))
    case Singular => One(DefaultValue(f.kind))
    case Repeated(_) => Many([])
    case _ => Opt(None)
  }

  function DefaultValue(kind: Kind): Value {
    match kind
    case Bytes(_) => Blob([])
    case Text(_) => Blob([])
    case FixedBytes(n) => Blob(seq(n, _ => 0))
    case Message(fs) => Struct(Defaults(fs))
    case _ => Num(0)
  }

  /** pb_check_proto3_default_value on a submessage: all of its fields. */
  predicate AllDefault(fields: seq<Field>, slots: seq<Slot>)
    requires |fields| == |slots|
    decreases fields
  {
    fields == [] || (IsDefault(fields[0], slots[0]) && AllDefault(fields[1..], slots[1..]))
  }

  /** pb_check_proto3_default_value. A fixed-length byte array counts as empty only by its length. */
  predicate IsDefault(f: Field, slot: Slot) {
    match f.rule
    case Required => false
    case Repeated(_) => slot.Many? && slot.values == []
    case Singular => slot.One? && IsDefaultValue(f.kind, slot.value)
    case _ => slot.Opt? && slot.opt.None?
  }

  predicate IsDefaultValue(kind: Kind, v: Value) {
    match kind
    case Bytes(_) => v.Blob? && v.bytes == []
    case Text(_) => v.Blob? && v.bytes == []
    case FixedBytes(n) => n == 0
    case Message(fs) => v.Struct? && |fs| == |v.slots| && AllDefault(fs, v.slots)
    case _ => v.Num? && v.n == 0
  }

  /** The zero test only passes values that decoding would start from anyway. */
  lemma {:induction false} AllDefaultIsDefaults(fields: seq<Field>, slots: seq<Slot>)
    requires Typed(fields, slots) && AllDefault(fields, slots)
    ensures slots == Defaults(fields)
    decreases fields
  {
    if fields != [] {
      DefaultSlotIsDefault(fields[0], slots[0]);
      forall i | 0 <= i < |fields| - 1
        ensures InField(fields[1..][i], slots[1..][i])
      {
        assert InField(fields[i + 1], slots[i + 1]);
      }
      AllDefaultIsDefaults(fields[1..], slots[1..]);
      assert slots == [slots[0]] + slots[1..];
    }
  }

  lemma {:induction false} DefaultSlotIsDefault(f: Field, slot: Slot)
    requires InField(f, slot) && IsDefault(f, slot)
    ensures slot == DefaultSlot(f)
  {
    if f.rule.Singular? {
      DefaultValueIsDefault(f.kind, slot.value);
    }
  }

  lemma {:induction false} DefaultValueIsDefault(kind: Kind, v: Value)
    requires InKind(kind, v) && IsDefaultValue(kind, v)
    ensures v == DefaultValue(kind)
  {
    if kind.Message? {
      AllDefaultIsDefaults(kind.fields, v.slots);
    }
  }

  lemma {:induction false} DefaultsTyped(fields: seq<Field>)
    ensures IsMessage(fields, Defaults(fields))
    decreases fields
  {
    forall i | 0 <= i < |fields|
      ensures InField(fields[i], Defaults(fields)[i])
    {
      DefaultSlotTyped(fields[i]);
    }
  }

  lemma {:induction false} DefaultSlotTyped(f: Field)
    ensures InField(f, DefaultSlot(f))
  {
    DefaultValueTyped(f.kind);
  }

  lemma {:induction false} DefaultValueTyped(kind: Kind)
    ensures InKind(kind, DefaultValue(kind))
  {
    if kind.Message? {
      DefaultsTyped(kind.fields);
    }
  }
}
