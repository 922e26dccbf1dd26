/** What decoding can lead to, on any input whatever. */
module ProtoSafety {
  import opened Options
  import opened Coding
  import opened ProtoFields
  import opened ProtoWire
  import opened ProtoEncoder
  import opened ProtoDecoder
  import opened ProtoRoundTrip

  // ----- messages that overflow nothing -----

  /** No byte field, string or array is longer than its buffer, terminators included. */
  ghost predicate SoundMessage(fields: seq<Field>, slots: seq<Slot>)
    decreases fields
  {
    |fields| == |slots| && forall i :: 0 <= i < |fields| ==> SoundSlot(fields[i], slots[i])
  }

  ghost predicate SoundSlot(f: Field, slot: Slot) {
    match slot
    case One(v) => !f.rule.Repeated? && Sound(f.kind, v)
    case Opt(o) => !f.rule.Repeated? && (o.Some? ==> Sound(f.kind, o.value))
    case Many(vs) => (f.rule.Repeated? ==> |vs| <= f.rule.max) && forall i :: 0 <= i < |vs| ==> Sound(f.kind, vs[i])
  }

  ghost predicate Sound(kind: Kind, v: Value) {
    match kind
    case Bytes(max) => v.Blob? && |v.bytes| <= max
    case Text(buffer) => v.Blob? && |v.bytes| < buffer
    case Message(fs) => v.Struct? && SoundMessage(fs, v.slots)
    case _ => true
  }

  lemma {:induction false} SoundMessageSurvives(fields: seq<Field>, slots: seq<Slot>)
    requires SoundMessage(fields, slots)
    ensures Fits(fields, slots) && Restorable(fields, slots)
    decreases fields
  {
    hide Sound, FitsSlot, RestorableSlot;
    if fields != [] {
      SoundSlotSurvives(fields[0], slots[0]);
      forall i | 0 <= i < |fields| - 1
        ensures SoundSlot(fields[1..][i], slots[1..][i])
      {
        assert SoundSlot(fields[i + 1], slots[i + 1]);
      }
      SoundMessageSurvives(fields[1..], slots[1..]);
    }
  }

  lemma {:induction false} SoundSlotSurvives(f: Field, slot: Slot)
    requires SoundSlot(f, slot)
    ensures FitsSlot(f, slot) && RestorableSlot(f, slot)
    decreases f
  {
    hide Sound, FitsValue, RestorableValue, IsDefault;
    var vs := Emitted(f, slot);
    forall i | 0 <= i < |vs|
      ensures FitsValue(f.kind, vs[i]) && RestorableValue(f.kind, vs[i])
    {
      SoundSurvives(f.kind, vs[i]);
    }
  }

  lemma {:induction false} SoundSurvives(kind: Kind, v: Value)
    requires Sound(kind, v)
    ensures FitsValue(kind, v) && RestorableValue(kind, v)
    decreases kind
  {
    if kind.Message? {
      SoundMessageSurvives(kind.fields, v.slots);
    }
  }

  lemma {:induction false} DefaultsSound(fields: seq<Field>)
    requires WellFormed(fields)
    ensures SoundMessage(fields, Defaults(fields))
    decreases fields
  {
    forall i | 0 <= i < |fields|
      ensures SoundSlot(fields[i], Defaults(fields)[i])
    {
      DefaultSlotSound(fields[i]);
    }
  }

  lemma {:induction false} DefaultSlotSound(f: Field)
    requires WellFormedField(f)
    ensures SoundSlot(f, DefaultSlot(f))
    decreases f
  {
    DefaultSound(f.kind);
  }

  lemma {:induction false} DefaultSound(kind: Kind)
    requires WellFormedKind(kind)
    ensures Sound(kind, DefaultValue(kind))
    decreases kind
  {
    if kind.Message? {
      DefaultsSound(kind.fields);
    }
  }

  // ----- decoding keeps them so -----

  lemma {:induction false} ValueSound(kind: Kind, dest: Value, input: seq<Byte>)
    requires WellFormedKind(kind) && InKind(kind, dest) && Sound(kind, dest)
    ensures var r := DecodeValue(kind, dest, input); r.Parsed? ==> Sound(kind, r.value)
    decreases |input|, 1
  {
    hide DecodeNumber, Substream, DecodeMessage, UpToNul, WellFormed, Typed, Exclusive;
    if kind.Message? {
      var s := Substream(input);
      if s.Parsed? {
        MessageSound(kind.fields, dest.slots, s.value);
      }
    }
  }

  lemma {:induction false} PackedSound(kind: Kind, max: nat, vs: seq<Value>, input: seq<Byte>)
    requires WellFormedKind(kind) && Packable(kind) && AllInKind(kind, vs) && |vs| <= max
    ensures var r := DecodePacked(kind, max, vs, input); r.Parsed? ==> |r.value| <= max
    decreases |input|
  {
    hide DecodeNumber, InKind, WellFormedKind;
    if input != [] && |vs| < max {
      var v := DecodeNumber(kind, input);
      if v.Parsed? {
        PackedSound(kind, max, vs + [v.value], v.rest);
      }
    }
  }

  lemma {:induction false} SlotSound(f: Field, slot: Slot, wireType: nat, input: seq<Byte>)
    requires WellFormedField(f) && InField(f, slot) && SoundSlot(f, slot)
    ensures var r := DecodeSlot(f, slot, wireType, input); r.Parsed? ==> SoundSlot(f, r.value)
    decreases |input|, 3
  {
    DefaultSound(f.kind);
    DefaultValueTyped(f.kind);
    hide DecodeValue, DecodePacked, Substream, InKind, WellFormedKind;
    if f.rule.Repeated? {
      if wireType == WT_STRING && Packable(f.kind) {
        var s := Substream(input);
        if s.Parsed? && |slot.values| <= f.rule.max {
          PackedSound(f.kind, f.rule.max, slot.values, s.value);
        }
      } else {
        ValueSound(f.kind, DefaultValue(f.kind), input);
      }
    } else {
      ValueSound(f.kind, if slot.One? then slot.value else if slot.opt.Some? then slot.opt.value else DefaultValue(f.kind), input);
    }
  }

  lemma StoreSound(fields: seq<Field>, slots: seq<Slot>, i: nat, slot: Slot)
    requires i < |fields| && SoundMessage(fields, slots) && SoundSlot(fields[i], slot)
    ensures SoundMessage(fields, Store(fields, slots, i, slot))
  {
    hide Sound;
    var r := Store(fields, slots, i, slot);
    forall k | 0 <= k < |fields|
      ensures SoundSlot(fields[k], r[k])
    {
      assert SoundSlot(fields[k], slots[k]);
    }
  }

  lemma {:induction false} FieldSound(fields: seq<Field>, p: Progress, tag: nat, wireType: nat, input: seq<Byte>)
    requires WellFormed(fields) && IsMessage(fields, p.slots) && SoundMessage(fields, p.slots)
    ensures var r := DecodeField(fields, p, tag, wireType, input); r.Parsed? ==> SoundMessage(fields, r.value.slots)
    decreases |input|, 4
  {
    var i := IndexOf(fields, tag);
    if i < |fields| {
      TypedAt(fields, p.slots, i);
      assert SoundSlot(fields[i], p.slots[i]);
      hide DecodeSlot, Store, SoundMessage, SoundSlot, WellFormed, Typed, Exclusive, InField, WellFormedField, See;
      SlotSound(fields[i], p.slots[i], wireType, input);
      var s := DecodeSlot(fields[i], p.slots[i], wireType, input);
      if s.Parsed? {
        StoreSound(fields, p.slots, i, s.value);
      }
    }
  }

  lemma {:induction false} FieldsSound(fields: seq<Field>, p: Progress, input: seq<Byte>)
    requires WellFormed(fields) && IsMessage(fields, p.slots) && SoundMessage(fields, p.slots)
    ensures var r := DecodeFields(fields, p, input); r.Parsed? ==> SoundMessage(fields, r.value.slots)
    decreases |input|, 0
  {
    hide DecodeVarint32, DecodeField, WellFormed, IsMessage, SoundMessage;
    if input != [] {
      var t := DecodeVarint32(input);
      if t.Parsed? && t.value != 0 {
        FieldSound(fields, p, t.value / 8, t.value % 8, t.rest);
        var f := DecodeField(fields, p, t.value / 8, t.value % 8, t.rest);
        if f.Parsed? {
          FieldsSound(fields, f.value, f.rest);
        }
      }
    }
  }

  /** Merging any bytes into a message that overflows nothing leads to another one. */
  lemma {:induction false} MessageSound(fields: seq<Field>, slots: seq<Slot>, input: seq<Byte>)
    requires WellFormed(fields) && IsMessage(fields, slots) && SoundMessage(fields, slots)
    ensures var r := DecodeMessage(fields, slots, input); r.Parsed? ==> SoundMessage(fields, r.value)
    decreases |input|, 1
  {
    hide DecodeFields, WellFormed, IsMessage, SoundMessage, RequiredSeen;
    FieldsSound(fields, Progress(slots, {}), input);
  }

  /** Whatever bytes decode, the message they decode to can be encoded, and decoding that encoding
      gives the message again. */
  lemma DecodedSurvives(fields: seq<Field>, input: seq<Byte>)
    requires WellFormed(fields)
    ensures var r := Decode(fields, input);
      r.Parsed? ==>
        && Fits(fields, r.value)
        && (|MessageBytes(fields, r.value)| < TWO_32 ==> Decode(fields, MessageBytes(fields, r.value)) == Parsed(r.value, []))
  {
    DefaultsTyped(fields);
    DefaultsSound(fields);
    MessageSound(fields, Defaults(fields), input);
    hide WellFormed, Typed, Exclusive, SoundMessage, DecodeMessage, MessageBytes, Fits, Restorable;
    var r := Decode(fields, input);
    if r.Parsed? {
      SoundMessageSurvives(fields, r.value);
      if |MessageBytes(fields, r.value)| < TWO_32 {
        RoundTripIff(fields, r.value);
      }
    }
  }
}
