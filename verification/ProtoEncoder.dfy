/** Encoding a message, with a sizing pass in front of every submessage (pb_encode.c). */
module ProtoEncoder {
  import opened Options
  import opened Coding
  import opened ProtoFields
  import opened ProtoWire

  // ----- the bytes of a message -----

  /** The values that are written for a field, each with its own tag unless packed. */
  function Emitted(f: Field, slot: Slot): seq<Value> {
    match slot
    case One(v) => if f.rule.Singular? && IsDefault(f, slot) then [] else [v]
    case Opt(o) => if o.Some? then [o.value] else []
    case Many(vs) => vs
  }

  predicate Packed(f: Field) {
    f.rule.Repeated? && Packable(f.kind)
  }

  function MessageBytes(fields: seq<Field>, slots: seq<Slot>): seq<Byte>
    requires WellFormed(fields) && Typed(fields, slots)
    decreases fields, 0
  {
    if fields == [] then [] else
      FirstField(fields, slots);
      SlotBytes(fields[0], slots[0]) + MessageBytes(fields[1..], slots[1..])
  }

  function SlotBytes(f: Field, slot: Slot): seq<Byte>
    requires WellFormedField(f) && InField(f, slot)
    decreases f, 0
  {
    var vs := Emitted(f, slot);
    if !Packed(f) then ItemsBytes(f.kind, f.tag, vs)
    else if vs == [] then []
    else TagBytes(f.tag, WT_STRING) + LengthPrefixed(PackedBytes(f.kind, vs))
  }

  function ItemsBytes(kind: Kind, tag: nat, vs: seq<Value>): seq<Byte>
    requires WellFormedKind(kind) && AllInKind(kind, vs)
    decreases kind, |vs| + 2
  {
    if vs == [] then [] else ItemBytes(kind, tag, vs[0]) + ItemsBytes(kind, tag, vs[1..])
  }

  function ItemBytes(kind: Kind, tag: nat, v: Value): seq<Byte>
    requires WellFormedKind(kind) && InKind(kind, v)
    decreases kind, 1
  {
    TagBytes(tag, WireType(kind)) + ValueBytes(kind, v)
  }

  function PackedBytes(kind: Kind, vs: seq<Value>): seq<Byte>
    requires WellFormedKind(kind) && AllInKind(kind, vs)
    decreases kind, |vs| + 1
  {
    if vs == [] then [] else ValueBytes(kind, vs[0]) + PackedBytes(kind, vs[1..])
  }

  function ValueBytes(kind: Kind, v: Value): (r: seq<Byte>)
    requires WellFormedKind(kind) && InKind(kind, v)
    ensures r != []
    decreases kind, 0
  {
    if v.Num? then NumberBytes(kind, v.n)
    else if v.Struct? then LengthPrefixed(MessageBytes(kind.fields, v.slots))
    else LengthPrefixed(v.bytes)
  }

  function NumberBytes(kind: Kind, n: int): (r: seq<Byte>)
    requires WellFormedKind(kind) && InKind(kind, Num(n))
    ensures r != []
  {
    if kind.Fixed32? then Fixed(n, 4)
    else if kind.Fixed64? then Fixed(n, 8)
    else Coding.Varint(ToWire(kind, n))
  }

  ghost predicate AllInKind(kind: Kind, vs: seq<Value>) {
    forall i :: 0 <= i < |vs| ==> InKind(kind, vs[i])
  }

  lemma FirstField(fields: seq<Field>, slots: seq<Slot>)
    requires WellFormed(fields) && Typed(fields, slots) && fields != []
    ensures 0 < fields[0].tag < MAX_TAG && WellFormedField(fields[0]) && InField(fields[0], slots[0])
    ensures WellFormed(fields[1..]) && Typed(fields[1..], slots[1..])
  {
    forall i | 0 <= i < |fields| - 1
      ensures InField(fields[1..][i], slots[1..][i])
    {
      assert InField(fields[i + 1], slots[i + 1]);
    }
  }

  // ----- what cannot be encoded -----

  /** No array and no byte field holds more than its maximum. */
  ghost predicate Fits(fields: seq<Field>, slots: seq<Slot>)
    requires |fields| == |slots|
    decreases fields, 0
  {
    fields == [] || (FitsSlot(fields[0], slots[0]) && Fits(fields[1..], slots[1..]))
  }

  ghost predicate FitsSlot(f: Field, slot: Slot)
    decreases f, 0
  {
    (f.rule.Repeated? ==> |Emitted(f, slot)| <= f.rule.max) && FitsAll(f.kind, Emitted(f, slot))
  }

  ghost predicate FitsAll(kind: Kind, vs: seq<Value>)
    decreases kind, 1
  {
    forall i :: 0 <= i < |vs| ==> FitsValue(kind, vs[i])
  }

  ghost predicate FitsValue(kind: Kind, v: Value)
    decreases kind, 0
  {
    match kind
    case Bytes(max) => v.Blob? && |v.bytes| <= max
    case Message(fs) => v.Struct? && |fs| == |v.slots| && Fits(fs, v.slots)
    case _ => true
  }

  // ----- the output stream -----

  /** A stream without a callback only counts. */
  class OStream {
    const sizing: bool
    const maxSize: nat
    var bytesWritten: nat
    var out: seq<Byte>

    constructor (sizing: bool, maxSize: nat, out: seq<Byte>)
      ensures this.sizing == sizing && this.maxSize == maxSize && bytesWritten == 0 && this.out == out
    {
      this.sizing, this.maxSize, this.bytesWritten, this.out := sizing, maxSize, 0, out;
    }

    predicate Room(n: nat)
      reads this
    {
      sizing || bytesWritten + n <= maxSize
    }

    /** The stream has taken `b`, from a state with `w` bytes written and the output `o`. */
    ghost predicate Took(w: nat, o: seq<Byte>, b: seq<Byte>)
      reads this
    {
      bytesWritten == w + |b| && out == if sizing then o else o + b
    }

    /** Nothing is ever written past the maximum. */
    ghost predicate Bounded()
      reads this
    {
      Room(0)
    }

    /** pb_write. */
    method Write(buf: seq<Byte>) returns (ok: bool)
      requires Bounded()
      modifies this
      ensures Bounded()
      ensures ok == old(Room(|buf|)) && (ok ==> Took(old(bytesWritten), old(out), buf))
      ensures !ok ==> Took(old(bytesWritten), old(out), [])
    {
      if |buf| > 0 && !sizing {
        if bytesWritten + |buf| > maxSize {
          return false;
        }
        out := out + buf;
      }
      bytesWritten := bytesWritten + |buf|;
      return true;
    }

    /** pb_write without data, which only a sizing stream takes. */
    method Count(n: nat)
      requires sizing
      modifies `bytesWritten
      ensures bytesWritten == old(bytesWritten) + n
    {
      bytesWritten := bytesWritten + n;
    }

    method EncodeVarint(value: nat) returns (ok: bool)
      requires Bounded() && value < TWO_64
      modifies this
      ensures Bounded()
      ensures ok == old(Room(|Coding.Varint(value)|)) && (ok ==> Took(old(bytesWritten), old(out), Coding.Varint(value)))
    {
      hide Coding.Varint;
      var buffer := PutVarint64([], value);
      ok := Write(buffer);
    }

    method EncodeTag(wireType: nat, tag: nat) returns (ok: bool)
      requires Bounded() && 0 < tag < MAX_TAG && wireType < 8
      modifies this
      ensures Bounded()
      ensures ok == old(Room(|TagBytes(tag, wireType)|)) && (ok ==> Took(old(bytesWritten), old(out), TagBytes(tag, wireType)))
    {
      ok := EncodeVarint(8 * tag + wireType);
    }

    /** pb_encode_string. */
    method EncodeString(bytes: seq<Byte>) returns (ok: bool)
      requires Bounded() && |bytes| < TWO_64
      modifies this
      ensures Bounded()
      ensures ok == old(Room(|LengthPrefixed(bytes)|)) && (ok ==> Took(old(bytesWritten), old(out), LengthPrefixed(bytes)))
    {
      hide Coding.Varint;
      ok := EncodeVarint(|bytes|);
      if ok {
        Joins(old(out), Coding.Varint(|bytes|), bytes);
        ok := Write(bytes);
      }
    }

    /** The encoders of PB_ENCODERS. */
    method EncodeValue(kind: Kind, v: Value) returns (ok: bool)
      requires Bounded() && WellFormedKind(kind) && InKind(kind, v) && |ValueBytes(kind, v)| < TWO_64
      modifies this
      ensures Bounded()
      ensures ok == (FitsValue(kind, v) && old(Room(|ValueBytes(kind, v)|)))
      ensures ok ==> Took(old(bytesWritten), old(out), ValueBytes(kind, v))
      decreases kind, 0
    {
      assert v.Struct? ==> |kind.fields| == |v.slots|;
      hide Coding.Varint, Fixed, Typed, Exclusive, WellFormed;
      if v.Struct? {
        ok := EncodeSubmessage(kind.fields, v.slots);
      } else if v.Num? {
        ok := EncodeNumber(kind, v.n);
      } else if kind.Bytes? && |v.bytes| > kind.max {
        return false;
      } else {
        ok := EncodeString(v.bytes);
      }
    }

    method EncodeNumber(kind: Kind, n: int) returns (ok: bool)
      requires Bounded() && WellFormedKind(kind) && InKind(kind, Num(n))
      modifies this
      ensures Bounded()
      ensures ok == old(Room(|NumberBytes(kind, n)|)) && (ok ==> Took(old(bytesWritten), old(out), NumberBytes(kind, n)))
    {
      hide Coding.Varint, Fixed;
      if kind.Fixed32? {
        ok := Write(Fixed(n, 4));
      } else if kind.Fixed64? {
        ok := Write(Fixed(n, 8));
      } else {
        NumberRoundTrip(kind, n);
        ok := EncodeVarint(ToWire(kind, n));
      }
    }

    /** pb_encode_submessage: a sizing pass, the size, and then a stream of just that size. */
    method EncodeSubmessage(fields: seq<Field>, slots: seq<Slot>) returns (ok: bool)
      requires Bounded() && WellFormed(fields) && Typed(fields, slots)
      requires |MessageBytes(fields, slots)| < TWO_64
      modifies this
      ensures Bounded()
      ensures ok == (Fits(fields, slots) && old(Room(|LengthPrefixed(MessageBytes(fields, slots))|)))
      ensures ok ==> Took(old(bytesWritten), old(out), LengthPrefixed(MessageBytes(fields, slots)))
      decreases fields, 2
    {
      hide Coding.Varint, MessageBytes, Fits, Typed, WellFormed;
      var sizer := new OStream(true, 0, []);
      ok := sizer.Encode(fields, slots);
      if !ok {
        return false;
      }
      var size := sizer.bytesWritten;
      ok := EncodeVarint(size);
      if !ok {
        return false;
      }
      Joins(old(out), Coding.Varint(size), MessageBytes(fields, slots));
      if sizing {
        Count(size);
        return true;
      }
      if bytesWritten + size > maxSize {
        return false;
      }
      var substream := new OStream(false, size, out);
      ok := substream.Encode(fields, slots);
      bytesWritten := bytesWritten + substream.bytesWritten;
      out := substream.out;
      ok := ok && substream.bytesWritten == size;
    }

    /** pb_encode: field by field. */
    method Encode(fields: seq<Field>, slots: seq<Slot>) returns (ok: bool)
      requires Bounded() && WellFormed(fields) && Typed(fields, slots)
      requires |MessageBytes(fields, slots)| < TWO_64
      modifies this
      ensures Bounded()
      ensures ok == (Fits(fields, slots) && old(Room(|MessageBytes(fields, slots)|)))
      ensures ok ==> Took(old(bytesWritten), old(out), MessageBytes(fields, slots))
      decreases fields, 1
    {
      ghost var done: seq<Byte>, w, o := [], bytesWritten, out;
      NothingDone(fields, slots);
      hide SlotBytes, FitsSlot, Typed, WellFormed, InField, WellFormedField, MessageBytes, Fits, Done;
      var i := 0;
      while i < |fields|
        invariant 0 <= i <= |fields| == |slots| && Bounded()
        invariant Took(w, o, done) && Done(fields, slots, i, done)
      {
        ghost var b := FieldStep(fields, slots, i, o, done);
        ok := EncodeField(fields[i], slots[i]);
        if !ok {
          return false;
        }
        done := done + b;
        i := i + 1;
      }
      AllDone(fields, slots, done);
      return true;
    }

    /** encode_basic_field. */
    method EncodeField(f: Field, slot: Slot) returns (ok: bool)
      requires Bounded() && WellFormedField(f) && 0 < f.tag < MAX_TAG && InField(f, slot)
      requires |SlotBytes(f, slot)| < TWO_64
      modifies this
      ensures Bounded()
      ensures ok == (FitsSlot(f, slot) && old(Room(|SlotBytes(f, slot)|)))
      ensures ok ==> Took(old(bytesWritten), old(out), SlotBytes(f, slot))
      decreases f, 1
    {
      hide ValueBytes, TagBytes, FitsValue, InKind, PackedBytes;
      match slot {
        case One(v) =>
          if f.rule.Singular? && IsDefault(f, slot) {
            Took0();
            return true;
          }
          ok := EncodeItems(f.kind, f.tag, [v]);
        case Opt(o) =>
          if o.None? {
            Took0();
            return true;
          }
          ok := EncodeItems(f.kind, f.tag, [o.value]);
        case Many(vs) =>
          ok := EncodeArray(f, vs);
      }
    }

    lemma Took0()
      ensures Took(bytesWritten, out, [])
    {
    }

    /** encode_array: packed whenever the type allows it. */
    method EncodeArray(f: Field, vs: seq<Value>) returns (ok: bool)
      requires Bounded() && WellFormedField(f) && 0 < f.tag < MAX_TAG && InField(f, Many(vs))
      requires |SlotBytes(f, Many(vs))| < TWO_64
      modifies this
      ensures Bounded()
      ensures ok == (FitsSlot(f, Many(vs)) && old(Room(|SlotBytes(f, Many(vs))|)))
      ensures ok ==> Took(old(bytesWritten), old(out), SlotBytes(f, Many(vs)))
      decreases f, 0
    {
      hide ValueBytes, TagBytes, FitsValue, InKind, PackedBytes, ItemsBytes;
      if |vs| == 0 {
        Took0();
        NoItems(f.kind, f.tag);
        assert vs == [];
        return true;
      } else if |vs| > f.rule.max {
        return false;
      } else if !Packable(f.kind) {
        ok := EncodeItems(f.kind, f.tag, vs);
      } else {
        ok := EncodePacked(f.kind, f.tag, vs);
      }
    }

    /** A packed array: one tag, the size, the items. */
    method EncodePacked(kind: Kind, tag: nat, vs: seq<Value>) returns (ok: bool)
      requires Bounded() && WellFormedKind(kind) && 0 < tag < MAX_TAG && Packable(kind) && AllInKind(kind, vs)
      requires |PackedBytes(kind, vs)| < TWO_64
      modifies this
      ensures Bounded()
      ensures var b := TagBytes(tag, WT_STRING) + LengthPrefixed(PackedBytes(kind, vs));
        ok == (FitsAll(kind, vs) && old(Room(|b|))) && (ok ==> Took(old(bytesWritten), old(out), b))
      decreases kind, 2
    {
      hide Coding.Varint, TagBytes, InKind, PackedBytes, WellFormedKind;
      PackableFits(kind, vs);
      ghost var t, n, p := TagBytes(tag, WT_STRING), Coding.Varint(|PackedBytes(kind, vs)|), PackedBytes(kind, vs);
      Joins(old(out), t, n);
      Joins(old(out), t + n, p);
      Joins(t, n, p);
      ok := EncodeTag(WT_STRING, tag);
      if !ok {
        return false;
      }
      var size;
      if kind.Fixed32? {
        FixedPacked(kind, vs);
        size := 4 * |vs|;
      } else if kind.Fixed64? {
        FixedPacked(kind, vs);
        size := 8 * |vs|;
      } else {
        var sizer := new OStream(true, 0, []);
        ok := sizer.EncodePackedItems(kind, vs);
        if !ok {
          return false;
        }
        size := sizer.bytesWritten;
      }
      ok := EncodeVarint(size);
      if !ok {
        return false;
      }
      if sizing {
        Count(size);
        return true;
      }
      ok := EncodePackedItems(kind, vs);
    }

    method EncodePackedItems(kind: Kind, vs: seq<Value>) returns (ok: bool)
      requires Bounded() && WellFormedKind(kind) && Packable(kind) && AllInKind(kind, vs)
      modifies this
      ensures Bounded()
      ensures ok == old(Room(|PackedBytes(kind, vs)|)) && (ok ==> Took(old(bytesWritten), old(out), PackedBytes(kind, vs)))
      decreases kind, 1
    {
      hide NumberBytes, InKind, WellFormedKind;
      ghost var total := PackedBytes(kind, vs);
      ghost var done: seq<Byte>, w, o := [], bytesWritten, out;
      assert vs[0..] == vs && [] + total == total && vs[|vs|..] == [] && PackedBytes(kind, []) == [];
      hide PackedBytes;
      var i := 0;
      while i < |vs|
        invariant 0 <= i <= |vs| && Bounded()
        invariant Took(w, o, done) && done + PackedBytes(kind, vs[i..]) == total
      {
        ghost var b := PackedStep(kind, vs, i, o, done, total);
        ok := EncodeNumber(kind, vs[i].n);
        if !ok {
          return false;
        }
        done := done + b;
        i := i + 1;
      }
      assert done + [] == done;
      return true;
    }

    /** Unpacked items, each behind the tag of the field. */
    method EncodeItems(kind: Kind, tag: nat, vs: seq<Value>) returns (ok: bool)
      requires Bounded() && WellFormedKind(kind) && 0 < tag < MAX_TAG && AllInKind(kind, vs)
      requires |ItemsBytes(kind, tag, vs)| < TWO_64
      modifies this
      ensures Bounded()
      ensures ok == (FitsAll(kind, vs) && old(Room(|ItemsBytes(kind, tag, vs)|)))
      ensures ok ==> Took(old(bytesWritten), old(out), ItemsBytes(kind, tag, vs))
      decreases kind, 2
    {
      hide ItemBytes, FitsValue, InKind, WellFormedKind;
      ghost var done: seq<Byte>, w, o := [], bytesWritten, out;
      ghost var total := ItemsBytes(kind, tag, vs);
      assert vs[0..] == vs && [] + total == total && vs[|vs|..] == [] && ItemsBytes(kind, tag, []) == [];
      hide ItemsBytes;
      var i := 0;
      while i < |vs|
        invariant 0 <= i <= |vs| && Bounded()
        invariant Took(w, o, done) && done + ItemsBytes(kind, tag, vs[i..]) == total
        invariant forall k :: 0 <= k < i ==> FitsValue(kind, vs[k])
      {
        ghost var b := ItemsStep(kind, tag, vs, i, o, done, total);
        ok := EncodeItem(kind, tag, vs[i]);
        if !ok {
          return false;
        }
        done := done + b;
        i := i + 1;
      }
      assert done + [] == done;
      return true;
    }

    method EncodeItem(kind: Kind, tag: nat, v: Value) returns (ok: bool)
      requires Bounded() && WellFormedKind(kind) && 0 < tag < MAX_TAG && InKind(kind, v)
      requires |ItemBytes(kind, tag, v)| < TWO_64
      modifies this
      ensures Bounded()
      ensures ok == (FitsValue(kind, v) && old(Room(|ItemBytes(kind, tag, v)|)))
      ensures ok ==> Took(old(bytesWritten), old(out), ItemBytes(kind, tag, v))
      decreases kind, 1
    {
      hide ValueBytes, TagBytes, FitsValue, InKind, WellFormedKind;
      Joins(old(out), TagBytes(tag, WireType(kind)), ValueBytes(kind, v));
      ok := EncodeTag(WireType(kind), tag);
      if ok {
        ok := EncodeValue(kind, v);
      }
    }
  }

  lemma NoItems(kind: Kind, tag: nat)
    requires WellFormedKind(kind)
    ensures ItemsBytes(kind, tag, []) == []
  {
  }

  /** Field `i` comes first in what is left to encode. */
  lemma AtField(fields: seq<Field>, slots: seq<Slot>, i: nat)
    requires i < |fields| == |slots| && WellFormed(fields[i..]) && Typed(fields[i..], slots[i..])
    ensures 0 < fields[i].tag < MAX_TAG && WellFormedField(fields[i]) && InField(fields[i], slots[i])
    ensures WellFormed(fields[i + 1..]) && Typed(fields[i + 1..], slots[i + 1..])
    ensures MessageBytes(fields[i..], slots[i..]) == SlotBytes(fields[i], slots[i]) + MessageBytes(fields[i + 1..], slots[i + 1..])
    ensures Fits(fields[i..], slots[i..]) <==> FitsSlot(fields[i], slots[i]) && Fits(fields[i + 1..], slots[i + 1..])
  {
    FirstField(fields[i..], slots[i..]);
    assert fields[i..][1..] == fields[i + 1..] && slots[i..][1..] == slots[i + 1..];
    assert fields[i..][0] == fields[i] && slots[i..][0] == slots[i];
  }

  /** `done` holds the first `i` fields, all of which can be encoded. */
  ghost predicate Done(fields: seq<Field>, slots: seq<Slot>, i: nat, done: seq<Byte>)
    requires WellFormed(fields) && Typed(fields, slots)
  {
    && i <= |fields|
    && WellFormed(fields[i..])
    && Typed(fields[i..], slots[i..])
    && done + MessageBytes(fields[i..], slots[i..]) == MessageBytes(fields, slots)
    && (Fits(fields, slots) <==> Fits(fields[i..], slots[i..]))
  }

  lemma NothingDone(fields: seq<Field>, slots: seq<Slot>)
    requires WellFormed(fields) && Typed(fields, slots)
    ensures |fields| == |slots| && Done(fields, slots, 0, [])
  {
    assert fields[0..] == fields && slots[0..] == slots;
    var total := MessageBytes(fields, slots);
    assert [] + total == total;
  }

  lemma FieldStep(fields: seq<Field>, slots: seq<Slot>, i: nat, o: seq<Byte>, done: seq<Byte>) returns (b: seq<Byte>)
    requires WellFormed(fields) && Typed(fields, slots) && i < |fields| == |slots| && Done(fields, slots, i, done)
    ensures 0 < fields[i].tag < MAX_TAG && WellFormedField(fields[i]) && InField(fields[i], slots[i])
    ensures b == SlotBytes(fields[i], slots[i]) && |done| + |b| <= |MessageBytes(fields, slots)|
    ensures o + done + b == o + (done + b)
    ensures if FitsSlot(fields[i], slots[i]) then Done(fields, slots, i + 1, done + b) else !Fits(fields, slots)
  {
    hide SlotBytes, FitsSlot, Typed, WellFormed, InField, WellFormedField, MessageBytes, Fits;
    AtField(fields, slots, i);
    b := SlotBytes(fields[i], slots[i]);
    FieldJoins(o, done, b, MessageBytes(fields[i + 1..], slots[i + 1..]), MessageBytes(fields, slots));
  }

  lemma AllDone(fields: seq<Field>, slots: seq<Slot>, done: seq<Byte>)
    requires WellFormed(fields) && Typed(fields, slots) && |fields| == |slots| && Done(fields, slots, |fields|, done)
    ensures done == MessageBytes(fields, slots) && Fits(fields, slots)
  {
    AtEnd(fields, slots);
    assert done + [] == done;
  }

  lemma AtEnd(fields: seq<Field>, slots: seq<Slot>)
    requires |fields| == |slots|
    ensures WellFormed(fields[|fields|..]) && Typed(fields[|fields|..], slots[|fields|..])
    ensures MessageBytes(fields[|fields|..], slots[|fields|..]) == [] && Fits(fields[|fields|..], slots[|fields|..])
  {
  }

  lemma PackableNumber(kind: Kind, v: Value)
    requires Packable(kind) && InKind(kind, v)
    ensures v.Num?
  {
  }

  lemma PackableFits(kind: Kind, vs: seq<Value>)
    requires Packable(kind)
    ensures FitsAll(kind, vs)
  {
  }

  lemma {:induction false} FixedPacked(kind: Kind, vs: seq<Value>)
    requires WellFormedKind(kind) && AllInKind(kind, vs)
    ensures kind.Fixed32? ==> |PackedBytes(kind, vs)| == 4 * |vs|
    ensures kind.Fixed64? ==> |PackedBytes(kind, vs)| == 8 * |vs|
    decreases |vs|
  {
    if vs != [] {
      FixedPacked(kind, vs[1..]);
    }
  }

  /** Item `i` behind what is done. */
  lemma ItemsStep(kind: Kind, tag: nat, vs: seq<Value>, i: nat, o: seq<Byte>, done: seq<Byte>, total: seq<Byte>)
    returns (b: seq<Byte>)
    requires WellFormedKind(kind) && AllInKind(kind, vs) && i < |vs|
    requires done + ItemsBytes(kind, tag, vs[i..]) == total
    ensures b == ItemBytes(kind, tag, vs[i]) && (done + b) + ItemsBytes(kind, tag, vs[i + 1..]) == total
    ensures o + done + b == o + (done + b) && |done| + |b| <= |total|
  {
    hide ItemBytes, InKind, WellFormedKind;
    assert vs[i..][1..] == vs[i + 1..];
    b := ItemBytes(kind, tag, vs[i]);
    FieldJoins(o, done, b, ItemsBytes(kind, tag, vs[i + 1..]), total);
  }

  /** Packed number `i` behind what is done. */
  lemma PackedStep(kind: Kind, vs: seq<Value>, i: nat, o: seq<Byte>, done: seq<Byte>, total: seq<Byte>)
    returns (b: seq<Byte>)
    requires WellFormedKind(kind) && Packable(kind) && AllInKind(kind, vs) && i < |vs|
    requires done + PackedBytes(kind, vs[i..]) == total
    ensures vs[i].Num? && b == NumberBytes(kind, vs[i].n) && (done + b) + PackedBytes(kind, vs[i + 1..]) == total
    ensures o + done + b == o + (done + b) && |done| + |b| <= |total|
  {
    hide NumberBytes, InKind, WellFormedKind;
    PackableNumber(kind, vs[i]);
    assert vs[i..][1..] == vs[i + 1..];
    b := NumberBytes(kind, vs[i].n);
    FieldJoins(o, done, b, PackedBytes(kind, vs[i + 1..]), total);
  }

  lemma FieldJoins(o: seq<Byte>, done: seq<Byte>, b: seq<Byte>, rest: seq<Byte>, total: seq<Byte>)
    requires done + (b + rest) == total
    ensures (done + b) + rest == total && o + done + b == o + (done + b)
    ensures |done| + |b| <= |total|
  {
  }

  lemma Joins(o: seq<Byte>, a: seq<Byte>, b: seq<Byte>)
    ensures o + a + b == o + (a + b)
  {
  }
}
