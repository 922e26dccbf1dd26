/** The wire format in numerals: which bytes an encoded field starts with, and how many bytes each
    wire type takes (pb.h; Protocol Buffers Encoding, "Message Structure"). */
module ProtoFormat {
  import opened Options
  import opened Coding
  import opened ProtoFields
  import opened ProtoWire
  import opened ProtoEncoder
  import opened ProtoDecoder

  // ----- skipping -----

  /** Four bytes, eight bytes, and nothing for the group types and the unknown ones. */
  lemma SkipFixed(wireType: nat, input: seq<Byte>)
    ensures SkipField(5, input) == if |input| >= 4 then Parsed(0, input[4..]) else Failed
    ensures SkipField(1, input) == if |input| >= 8 then Parsed(0, input[8..]) else Failed
    ensures wireType == 3 || wireType == 4 || wireType > 5 ==> SkipField(wireType, input) == Failed
  {
    hide SkipVarint, Substream;
  }

  /** Wire type 0 takes the bytes from 128 on and the first one below. */
  lemma {:induction false} SkipNumber(input: seq<Byte>, n: nat)
    requires n <= |input| && forall i :: 0 <= i < n ==> input[i] >= 128
    ensures n < |input| && input[n] < 128 ==> SkipField(0, input) == Parsed(0, input[n + 1..])
    ensures n == |input| ==> SkipField(0, input) == Failed
    decreases n
  {
    hide Substream;
    if n > 0 {
      SkipNumber(input[1..], n - 1);
      assert n < |input| ==> input[1..][n..] == input[n + 1..];
    }
  }

  /** Wire type 2 takes a length and that many bytes. */
  lemma SkipString(n: nat, body: seq<Byte>)
    requires n < TWO_32
    ensures SkipField(2, Coding.Varint(n) + body) == if |body| >= n then Parsed(0, body[n..]) else Failed
  {
    hide Coding.Varint, DecodeVarint32, SkipVarint;
    ProtoWire.Varint32RoundTrip(n, body);
  }

  // ----- encoding -----

  /** What the low three bits of a tag say of a field: one record for a packed array, else by kind. */
  function TypeOf(f: Field): nat {
    if f.rule.Repeated? && !(f.kind.Bytes? || f.kind.Text? || f.kind.Message? || f.kind.FixedBytes?) then 2
    else
      match f.kind
      case Fixed64 => 1
      case Fixed32 => 5
      case Bytes(_) => 2
      case Text(_) => 2
      case Message(_) => 2
      case FixedBytes(_) => 2
      case _ => 0
  }

  lemma KindType(kind: Kind)
    ensures WireType(kind) == if kind.Fixed64? then 1 else if kind.Fixed32? then 5 else if Packable(kind) then 0 else 2
  {
  }

  /** A field is written behind eight times its tag plus its type, as a varint. */
  lemma FieldStarts(f: Field, slot: Slot)
    requires WellFormedField(f) && InField(f, slot)
    ensures SlotBytes(f, slot) != [] ==> Coding.Varint(8 * f.tag + TypeOf(f)) <= SlotBytes(f, slot)
  {
    hide ValueBytes, PackedBytes, InKind, WellFormedKind, Coding.Varint, LengthPrefixed;
    KindType(f.kind);
    var vs := Emitted(f, slot);
    if !Packed(f) && vs != [] {
      assert ItemsBytes(f.kind, f.tag, vs) == TagBytes(f.tag, WireType(f.kind)) + ValueBytes(f.kind, vs[0]) + ItemsBytes(f.kind, f.tag, vs[1..]);
    }
  }

  /** For a small tag that is the first byte. */
  lemma FirstByteOfField(f: Field, slot: Slot)
    requires WellFormedField(f) && InField(f, slot) && 0 < f.tag < 16
    ensures SlotBytes(f, slot) != [] ==> SlotBytes(f, slot)[0] == 8 * f.tag + TypeOf(f)
  {
    hide SlotBytes;
    FieldStarts(f, slot);
    assert Coding.Varint(8 * f.tag + TypeOf(f)) == [8 * f.tag + TypeOf(f)];
  }

  /** Nothing is written for an absent value, an empty array, or a singular zero or empty string. */
  lemma NotWrittenIff(f: Field, slot: Slot)
    requires WellFormedField(f) && InField(f, slot) && !f.kind.Message?
    ensures SlotBytes(f, slot) == [] <==>
      match slot
      case Opt(o) => o.None?
      case Many(vs) => vs == []
      case One(v) => f.rule.Singular? && (v == Num(0) || v == Blob([]))
  {
    hide ValueBytes, PackedBytes, WellFormedKind, Coding.Varint, LengthPrefixed;
    TagNotEmpty(f.tag, WT_STRING);
    if slot.One? {
      DefaultIsEmpty(f.kind, slot.value);
    }
    var vs := Emitted(f, slot);
    if !Packed(f) && vs != [] {
      TagNotEmpty(f.tag, WireType(f.kind));
      assert ItemsBytes(f.kind, f.tag, vs) == TagBytes(f.tag, WireType(f.kind)) + ValueBytes(f.kind, vs[0]) + ItemsBytes(f.kind, f.tag, vs[1..]);
    }
  }

  lemma DefaultIsEmpty(kind: Kind, v: Value)
    requires InKind(kind, v) && !kind.Message?
    ensures IsDefaultValue(kind, v) <==> v == Num(0) || v == Blob([])
  {
    assert v.Blob? && |v.bytes| == 0 ==> v.bytes == [];
  }

  lemma TagNotEmpty(tag: nat, wireType: nat)
    ensures TagBytes(tag, wireType) != []
  {
  }

  /** Numbers of fixed width are written low byte first. */
  lemma FixedNumberBytes(n: nat, i: nat)
    ensures n < TWO_32 && i < 4 ==> Pow(256, i) > 0 && NumberBytes(Fixed32, n)[i] == n / Pow(256, i) % 256
    ensures n < TWO_64 && i < 8 ==> Pow(256, i) > 0 && NumberBytes(Fixed64, n)[i] == n / Pow(256, i) % 256
  {
    hide Fixed, Pow;
    if i < 4 {
      FixedByte(n, 4, i);
    }
    if i < 8 {
      FixedByte(n, 8, i);
    }
  }

  /** Signed numbers: zigzag alternates between zero and up, minus one and down; a plain negative
      number is written as its 64-bit complement. */
  lemma SignedNumberBytes(n: int, size: nat)
    requires IntSize(size) && -HalfRange(size) <= n < HalfRange(size)
    ensures NumberBytes(Kind.Svarint(size), n) == Coding.Varint(if n < 0 then -2 * n - 1 else 2 * n)
    ensures NumberBytes(Kind.Varint(size), n) == Coding.Varint(if n < 0 then n + 0x1_0000_0000_0000_0000 else n)
  {
    hide Coding.Varint;
    ZigZagRoundTrip(n);
  }

  /** Which wire numbers a field takes, and for what: below 64 bits a plain signed field looks at the
      low 32 bits; whatever does not fit the field is refused. */
  lemma NumbersTaken(size: nat, u: nat)
    requires IntSize(size) && u < 0x1_0000_0000_0000_0000
    ensures var h := if size == 1 then 0x80 else if size == 2 then 0x8000 else if size == 4 then 0x8000_0000 else 0x8000_0000_0000_0000;
      && FromWire(Kind.Uvarint(size), u) == (if u < 2 * h then Parsed(u, []) else Failed)
      && var z := if u % 2 == 1 then -(u / 2) - 1 else u / 2;
        FromWire(Kind.Svarint(size), u) == (if -h <= z < h then Parsed(z, []) else Failed)
    ensures size == 8 ==> FromWire(Kind.Varint(8), u) == Parsed(if u < 0x8000_0000_0000_0000 then u else u - 0x1_0000_0000_0000_0000, [])
    ensures size < 8 ==>
      var h := if size == 1 then 0x80 else if size == 2 then 0x8000 else 0x8000_0000;
      var low := u % 0x1_0000_0000;
      var n := if low < 0x8000_0000 then low else low - 0x1_0000_0000;
      FromWire(Kind.Varint(size), u) == (if -h <= n < h then Parsed(n, []) else Failed)
  {
    CastIff(UnZigZag(u), size);
    CastIff(Cast(u, 4), size);
    CastIff(Cast(u, 8), 8);
    if u < 2 * HalfRange(size) {
      SmallRemainder(u, 2 * HalfRange(size));
    }
    SmallRemainder(u, 2 * HalfRange(8));
  }

  lemma SmallRemainder(u: nat, m: nat)
    requires u < m
    ensures u % m == u
  {
  }

  lemma CastIff(n: int, size: nat)
    requires IntSize(size)
    ensures Cast(n, size) == n <==> -HalfRange(size) <= n < HalfRange(size)
  {
    if -HalfRange(size) <= n < HalfRange(size) {
      CastInRange(n, size);
    }
  }

  // ----- required fields -----

  /** The field numbers of the records read. */
  function TagsRead(fields: seq<Field>, p: Progress, input: seq<Byte>): set<nat>
    requires WellFormed(fields) && IsMessage(fields, p.slots)
    decreases |input|
  {
    if input == [] then {}
    else
      var t := DecodeVarint32(input);
      if t.Failed? || t.value == 0 then {}
      else
        var f := DecodeField(fields, p, t.value / 8, t.value % 8, t.rest);
        if f.Failed? then {} else {t.value / 8} + TagsRead(fields, f.value, f.rest)
  }

  lemma {:induction false} RequiredGrows(fields: seq<Field>, i: nat, j: nat)
    requires i < j <= |fields|
    ensures RequiredBefore(fields, i) + (if fields[i].rule.Required? then 1 else 0) <= RequiredBefore(fields, j)
  {
    if i + 1 < j {
      RequiredGrows(fields, i, j - 1);
    }
  }

  lemma RequiredDistinct(fields: seq<Field>, i: nat, j: nat)
    requires i < |fields| && j < |fields| && fields[i].rule.Required? && fields[j].rule.Required?
    ensures RequiredBefore(fields, i) == RequiredBefore(fields, j) ==> i == j
  {
    if i < j {
      RequiredGrows(fields, i, j);
    } else if j < i {
      RequiredGrows(fields, j, i);
    }
  }

  lemma {:induction false} RequiredAt(fields: seq<Field>, n: nat, r: nat) returns (i: nat)
    requires n <= |fields| && r < RequiredBefore(fields, n)
    ensures i < n && fields[i].rule.Required? && RequiredBefore(fields, i) == r
  {
    if r < RequiredBefore(fields, n - 1) {
      i := RequiredAt(fields, n - 1, r);
    } else {
      i := n - 1;
    }
  }

  /** One field read sees a required field exactly if it bears its number. */
  lemma FieldSees(fields: seq<Field>, p: Progress, tag: nat, wireType: nat, input: seq<Byte>, i: nat)
    requires WellFormed(fields) && IsMessage(fields, p.slots) && DecodeField(fields, p, tag, wireType, input).Parsed?
    requires i < |fields| && fields[i].rule.Required? && RequiredBefore(fields, i) < 64
    ensures RequiredBefore(fields, i) in DecodeField(fields, p, tag, wireType, input).value.seen
      <==> RequiredBefore(fields, i) in p.seen || tag == fields[i].tag
  {
    hide DecodeSlot, DecodeVarint32, SkipField, RequiredBefore, InField, WellFormedField, Exclusive;
    var j := IndexOf(fields, tag);
    if j < |fields| && fields[j].rule.Required? {
      RequiredDistinct(fields, i, j);
    }
  }

  lemma {:induction false} SeenIffRead(fields: seq<Field>, p: Progress, input: seq<Byte>, i: nat)
    requires WellFormed(fields) && IsMessage(fields, p.slots) && DecodeFields(fields, p, input).Parsed?
    requires i < |fields| && fields[i].rule.Required? && RequiredBefore(fields, i) < 64
    ensures RequiredBefore(fields, i) in DecodeFields(fields, p, input).value.seen
      <==> RequiredBefore(fields, i) in p.seen || fields[i].tag in TagsRead(fields, p, input)
    decreases |input|
  {
    hide DecodeField, DecodeVarint32, RequiredBefore, WellFormed, Typed, Exclusive;
    if input != [] {
      var t := DecodeVarint32(input);
      if t.value != 0 {
        var f := DecodeField(fields, p, t.value / 8, t.value % 8, t.rest);
        FieldSees(fields, p, t.value / 8, t.value % 8, t.rest, i);
        SeenIffRead(fields, f.value, f.rest, i);
      }
    }
  }

  /** A message is taken exactly if its fields can be read and each of the first 64 required fields
      is among them. */
  lemma RequiredIffRead(fields: seq<Field>, slots: seq<Slot>, input: seq<Byte>)
    requires WellFormed(fields) && IsMessage(fields, slots)
    ensures DecodeMessage(fields, slots, input).Parsed? <==>
      && DecodeFields(fields, Progress(slots, {}), input).Parsed?
      && forall i :: 0 <= i < |fields| && fields[i].rule.Required? && RequiredBefore(fields, i) < 64 ==>
           fields[i].tag in TagsRead(fields, Progress(slots, {}), input)
  {
    hide DecodeFields, TagsRead, WellFormed, IsMessage;
    var p := Progress(slots, {});
    if DecodeFields(fields, p, input).Parsed? {
      var seen := DecodeFields(fields, p, input).value.seen;
      forall i: nat | i < |fields| && fields[i].rule.Required? && RequiredBefore(fields, i) < 64
        ensures RequiredBefore(fields, i) in seen <==> fields[i].tag in TagsRead(fields, p, input)
      {
        SeenIffRead(fields, p, input, i);
      }
      SeenByField(fields, seen);
    }
  }

  lemma SeenByField(fields: seq<Field>, seen: set<nat>)
    ensures RequiredSeen(fields, seen) <==>
      forall i :: 0 <= i < |fields| && fields[i].rule.Required? && RequiredBefore(fields, i) < 64 ==> RequiredBefore(fields, i) in seen
  {
    forall i: nat | i < |fields| && fields[i].rule.Required?
      ensures RequiredBefore(fields, i) < RequiredBefore(fields, |fields|)
    {
      RequiredGrows(fields, i, |fields|);
    }
    if forall i :: 0 <= i < |fields| && fields[i].rule.Required? && RequiredBefore(fields, i) < 64 ==> RequiredBefore(fields, i) in seen {
      forall r: nat | r < RequiredBefore(fields, |fields|) && r < 64
        ensures r in seen
      {
        var i := RequiredAt(fields, |fields|, r);
      }
    }
  }

  // ----- two examples -----

  /** A message type with one bool skips a 32-bit field in front of it as four bytes. */
  lemma UnknownFixed32IsSkipped()
    ensures Decode([Field(2, Singular, Bool)], [0x0D, 7, 0, 0, 0, 0x10, 1]) == Parsed([One(Num(1))], [])
  {
    var fields := [Field(2, Singular, Bool)];
    var p, q := Progress([One(Num(0))], {}), Progress([One(Num(1))], {});
    hide DecodeVarint32, SkipField;
    ExampleVarints();
    assert Defaults(fields) == [One(Num(0))];
    ExampleSteps(fields, p, q);
    assert DecodeFields(fields, q, []) == Parsed(q, []);
    assert DecodeFields(fields, p, [0x10, 1]) == Parsed(q, []);
    assert DecodeFields(fields, p, [0x0D, 7, 0, 0, 0, 0x10, 1]) == Parsed(q, []);
    hide DecodeFields, DecodeField;
    assert RequiredSeen(fields, {});
  }

  lemma ExampleVarints()
    ensures DecodeVarint32([0x0D, 7, 0, 0, 0, 0x10, 1]) == Parsed(0x0D, [7, 0, 0, 0, 0x10, 1])
    ensures DecodeVarint32([0x10, 1]) == Parsed(0x10, [1]) && DecodeVarint32([1]) == Parsed(1, [])
  {
    hide DecodeVarint32;
    ProtoWire.Varint32RoundTrip(0x0D, [7, 0, 0, 0, 0x10, 1]);
    ProtoWire.Varint32RoundTrip(0x10, [1]);
    ProtoWire.Varint32RoundTrip(1, []);
    assert [0x0D] + [7, 0, 0, 0, 0x10, 1] == [0x0D, 7, 0, 0, 0, 0x10, 1] && [0x10] + [1] == [0x10, 1] && [1] + [] == [1];
  }

  lemma ExampleMessage(fields: seq<Field>, slots: seq<Slot>)
    requires fields == [Field(2, Singular, Bool)] && (slots == [One(Num(0))] || slots == [One(Num(1))])
    ensures IsMessage(fields, slots)
  {
    assert InField(fields[0], slots[0]);
    assert Typed(fields, slots) && Exclusive(fields, slots);
  }

  lemma ExampleSteps(fields: seq<Field>, p: Progress, q: Progress)
    requires fields == [Field(2, Singular, Bool)] && p == Progress([One(Num(0))], {}) && q == Progress([One(Num(1))], {})
    ensures WellFormed(fields) && IsMessage(fields, p.slots) && IsMessage(fields, q.slots)
    ensures DecodeField(fields, p, 1, 5, [7, 0, 0, 0, 0x10, 1]) == Parsed(p, [0x10, 1])
    ensures DecodeField(fields, p, 2, 0, [1]) == Parsed(q, [])
  {
    hide DecodeVarint32, SkipField;
    ExampleMessage(fields, p.slots);
    ExampleMessage(fields, q.slots);
    ExampleVarints();
    SkipFixed(5, [7, 0, 0, 0, 0x10, 1]);
    assert [7, 0, 0, 0, 0x10, 1][4..] == [0x10, 1];
    assert Store(fields, p.slots, 0, One(Num(1))) == [One(Num(1))];
  }

  lemma Fixed32Field()
    ensures WellFormedField(Field(1, Required, Fixed32)) && InField(Field(1, Required, Fixed32), One(Num(7)))
    ensures SlotBytes(Field(1, Required, Fixed32), One(Num(7))) == [0x0D, 7, 0, 0, 0]
  {
    var f, v := Field(1, Required, Fixed32), Num(7);
    assert Fixed(7, 4) == [7, 0, 0, 0];
    assert TagBytes(1, WireType(Fixed32)) == [0x0D];
    assert ItemBytes(Fixed32, 1, v) == [0x0D, 7, 0, 0, 0];
    assert ItemsBytes(Fixed32, 1, [v]) == [0x0D, 7, 0, 0, 0] + ItemsBytes(Fixed32, 1, []);
  }
}
