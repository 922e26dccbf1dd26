/** The decoder as it runs: input streams that share their source with substreams, and the
    circular field iterator (pb_decode.c, pb_common.c). */
module ProtoStreams {
  import opened Options
  import opened Coding
  import opened ProtoFields
  import opened ProtoWire
  import opened ProtoDecoder

  // ----- the field iterator -----

  /** pb_field_iter_t: it stays where it is between lookups and wraps around. */
  class FieldIter {
    const fields: seq<Field>
    var pos: nat
    var requiredFieldIndex: nat

    ghost predicate Valid()
      reads this
    {
      && pos <= |fields| && (fields != [] ==> pos < |fields|)
      && requiredFieldIndex == RequiredBefore(fields, pos)
    }

    constructor (fields: seq<Field>)
      ensures Valid() && this.fields == fields && pos == 0
    {
      this.fields, pos, requiredFieldIndex := fields, 0, 0;
    }

    /** pb_field_iter_next: back to the beginning, and false, at the last field. */
    method Next() returns (more: bool)
      requires Valid()
      modifies this
      ensures Valid()
      ensures more == (old(pos) + 1 < |fields|)
      ensures pos == if more then old(pos) + 1 else 0
    {
      if fields == [] {
        return false;
      }
      if pos + 1 == |fields| {
        pos, requiredFieldIndex := 0, 0;
        return false;
      }
      if fields[pos].rule.Required? {
        requiredFieldIndex := requiredFieldIndex + 1;
      }
      pos := pos + 1;
      return true;
    }

    /** The tag at the current position; an empty message type only has its terminator, tagged 0. */
    function CurrentTag(): nat
      requires pos <= |fields| && (fields != [] ==> pos < |fields|)
      reads this
    {
      if fields == [] then 0 else fields[pos].tag
    }

    /** pb_field_iter_find: once around, from the current field on. */
    method Find(tag: nat) returns (found: bool)
      requires Valid() && WellFormed(fields)
      modifies this
      ensures Valid()
      ensures found == (IndexOf(fields, tag) < |fields| || (fields == [] && tag == 0))
      ensures fields != [] ==> pos == if found then IndexOf(fields, tag) else old(pos)
    {
      var start, more := pos, true;
      ghost var wrapped := false;
      while more
        invariant Valid() && start == old(pos)
        invariant wrapped ==> pos <= start
        invariant !wrapped ==> start <= pos
        invariant fields != [] ==> forall j :: start <= j < (if wrapped then |fields| else pos) ==> fields[j].tag != tag
        invariant fields != [] ==> forall j :: 0 <= j < (if wrapped then pos else 0) ==> fields[j].tag != tag
        invariant more <==> !(wrapped && pos == start)
        invariant fields == [] && wrapped ==> tag != 0
        decreases if wrapped then start - pos else |fields| + 1 + start - pos
      {
        if CurrentTag() == tag {
          TagUnique(fields, pos, tag);
          return true;
        }
        var advanced := Next();
        wrapped := wrapped || !advanced;
        more := pos != start;
      }
      return false;
    }
  }

  lemma TagUnique(fields: seq<Field>, i: nat, tag: nat)
    requires WellFormed(fields)
    ensures i < |fields| && fields[i].tag == tag ==> IndexOf(fields, tag) == i
  {
  }

  // ----- input streams -----

  function Outcome<T>(ok: bool, value: T, rest: seq<Byte>): Parsed<T> {
    if ok then Parsed(value, rest) else Failed
  }

  /** pb_istream_t on a buffer: what is left of the buffer, and how much of it belongs to the stream. */
  class IStream {
    var source: seq<Byte>
    var bytesLeft: nat

    ghost predicate Valid()
      reads this
    {
      bytesLeft <= |source|
    }

    ghost function View(): (v: seq<Byte>)
      requires Valid()
      reads this
      ensures |v| == bytesLeft
    {
      source[..bytesLeft]
    }

    /** The stream moved forward from the given state. */
    ghost predicate After(src: seq<Byte>, left: nat)
      reads this
    {
      bytesLeft <= left <= |src| && source == src[left - bytesLeft..]
    }

    /** All that is known after a failure: the stream did not grow. */
    ghost predicate Within(src: seq<Byte>, left: nat)
      reads this
    {
      bytesLeft <= left <= |src| && |source| - bytesLeft >= |src| - left
    }

    constructor (source: seq<Byte>, bytesLeft: nat)
      requires bytesLeft <= |source|
      ensures Valid() && this.source == source && this.bytesLeft == bytesLeft
    {
      this.source, this.bytesLeft := source, bytesLeft;
    }

    /** pb_read. */
    method Read(count: nat) returns (ok: bool, buf: seq<Byte>)
      requires Valid()
      modifies this
      ensures Valid() && After(old(source), old(bytesLeft))
      ensures Outcome(ok, buf, View()) == Take(old(View()), count)
    {
      if bytesLeft < count {
        return false, [];
      }
      buf := source[..count];
      assert buf == View()[..count];
      source, bytesLeft := source[count..], bytesLeft - count;
      assert View() == old(View())[count..];
      return true, buf;
    }

    method ReadByte() returns (ok: bool, byte: Byte)
      requires Valid()
      modifies this
      ensures Valid() && After(old(source), old(bytesLeft))
      ensures ok == (old(bytesLeft) > 0)
      ensures ok ==> old(View()) == [byte] + View() && bytesLeft == old(bytesLeft) - 1
      ensures !ok ==> bytesLeft == 0
    {
      if bytesLeft == 0 {
        return false, 0;
      }
      byte := source[0];
      source, bytesLeft := source[1..], bytesLeft - 1;
      assert old(View()) == [byte] + View();
      return true, byte;
    }

    /** pb_decode_varint32_eof; the end of the stream only counts before the first byte. */
    method ReadVarint32() returns (ok: bool, value: nat, eof: bool)
      requires Valid()
      modifies this
      ensures Valid() && After(old(source), old(bytesLeft))
      ensures Outcome(ok, value, View()) == DecodeVarint32(old(View()))
      ensures eof == (old(bytesLeft) == 0)
    {
      hide Or;
      var good, byte := ReadByte();
      if !good {
        return false, 0, true;
      }
      if byte < 128 {
        FirstByte(byte, View());
        return true, byte, false;
      }
      var bitpos: nat, result: nat, more := 7, byte % 128, true;
      FirstByte(byte, View());
      while more
        invariant Valid() && After(old(source), old(bytesLeft)) && result < TWO_32 && bitpos < 256
        invariant more ==> Varint32From(result, bitpos, View()) == DecodeVarint32(old(View()))
        invariant !more ==> DecodeVarint32(old(View())) == if bitpos == 35 && byte / 16 % 8 != 0 then Failed else Parsed(result, View())
        decreases more, bytesLeft
      {
        good, byte := ReadByte();
        if !good {
          return false, 0, false;
        }
        if bitpos >= 32 {
          if byte % 128 != 0 && (result < 0x8000_0000 || byte != SignExtension(bitpos)) {
            return false, 0, false;
          }
        } else {
          result := Or(result, byte % 128, bitpos);
        }
        bitpos := (bitpos + 7) % 256;
        more := byte >= 128;
      }
      return !(bitpos == 35 && byte / 16 % 8 != 0), result, false;
    }

    /** pb_decode_varint: up to ten bytes. The accumulator keeps 64 bits. */
    method ReadVarint64() returns (ok: bool, value: nat)
      requires Valid()
      modifies this
      ensures Valid() && After(old(source), old(bytesLeft))
      ensures Outcome(ok, value, View()) == GetVarint64(old(View()))
    {
      hide Shifted, Accumulate, TakeVarint;
      var result: nat, weight: nat, k: nat := 0, 1, 0;
      ShiftNone(TakeVarint(View(), 10));
      while true
        invariant Valid() && After(old(source), old(bytesLeft)) && k <= 10
        invariant Shifted(result, weight, TakeVarint(View(), 10 - k)) == TakeVarint(old(View()), 10)
        decreases bytesLeft
      {
        TakeVarintEnd(View(), 10 - k);
        ShiftEnd(result, weight, Failed);
        if k == 10 {
          return false, 0;
        }
        var good, byte := ReadByte();
        if !good {
          return false, 0;
        }
        var low: nat := byte % 128;
        VarintTurn(result, weight, byte, View(), 10 - k);
        result := Accumulate(result, low, weight);
        if byte < 128 {
          return true, result % TWO_64;
        }
        weight := weight * 128;
        k := k + 1;
      }
    }

    /** pb_decode_tag; a zero ends the message. */
    method ReadTag() returns (ok: bool, wireType: nat, tag: nat, eof: bool)
      requires Valid()
      modifies this
      ensures Valid() && After(old(source), old(bytesLeft))
      ensures var t := DecodeVarint32(old(View()));
        && ok == (t.Parsed? && t.value != 0)
        && (t.Parsed? ==> View() == t.rest)
        && (ok ==> tag == t.value / 8 && wireType == t.value % 8)
        && (!ok ==> eof == (old(bytesLeft) == 0 || t.Parsed?))
    {
      hide DecodeVarint32;
      var good, temp, end := ReadVarint32();
      if !good {
        return false, 0, 0, end;
      }
      if temp == 0 {
        return false, 0, 0, true;
      }
      return true, temp % 8, temp / 8, false;
    }

    method ReadSkipVarint() returns (ok: bool)
      requires Valid()
      modifies this
      ensures Valid() && After(old(source), old(bytesLeft))
      ensures Outcome(ok, 0, View()) == SkipVarint(old(View()))
    {
      var more := true;
      while more
        invariant Valid() && After(old(source), old(bytesLeft))
        invariant more ==> SkipVarint(View()) == SkipVarint(old(View()))
        invariant !more ==> Parsed(0, View()) == SkipVarint(old(View()))
        decreases more, bytesLeft
      {
        ghost var before := View();
        var good, byte := ReadByte();
        if !good {
          return false;
        }
        assert before[0] == byte && before[1..] == View();
        more := byte >= 128;
      }
      return true;
    }

    /** pb_skip_field. */
    method Skip(wireType: nat) returns (ok: bool)
      requires Valid()
      modifies this
      ensures Valid() && After(old(source), old(bytesLeft))
      ensures Outcome(ok, 0, View()) == SkipField(wireType, old(View()))
      ensures wireType == 5 ==> ok == (old(bytesLeft) >= 4) && (ok ==> bytesLeft == old(bytesLeft) - 4)
      ensures wireType == 1 ==> ok == (old(bytesLeft) >= 8) && (ok ==> bytesLeft == old(bytesLeft) - 8)
      ensures wireType == 3 || wireType == 4 || wireType > 5 ==> !ok
    {
      hide SkipVarint, DecodeVarint32;
      var skipped: seq<Byte>;
      if wireType == WT_VARINT {
        ok := ReadSkipVarint();
      } else if wireType == WT_64BIT {
        ok, skipped := Read(8);
      } else if wireType == WT_STRING {
        var n, eof;
        ok, n, eof := ReadVarint32();
        if ok {
          ok, skipped := Read(n);
        }
      } else if wireType == WT_32BIT {
        ok, skipped := Read(4);
      } else {
        return false;
      }
    }

    /** pb_make_string_substream: until it is closed, the substream has the front of the source. */
    method MakeSubstream() returns (ok: bool, sub: IStream)
      requires Valid()
      modifies this
      ensures Valid() && fresh(sub) && sub.Valid()
      ensures ok == Substream(old(View())).Parsed?
      ensures !ok ==> After(old(source), old(bytesLeft))
      ensures ok ==> Pending(old(source), old(bytesLeft), sub)
      ensures ok ==> Parsed(sub.View(), source[sub.bytesLeft..sub.bytesLeft + bytesLeft]) == Substream(old(View()))
    {
      hide DecodeVarint32;
      var size, eof;
      ok, size, eof := ReadVarint32();
      if !ok || bytesLeft < size {
        sub := new IStream(source, 0);
        return false, sub;
      }
      sub := new IStream(source, size);
      assert sub.View() == View()[..size];
      assert source[size..bytesLeft] == View()[size..];
      bytesLeft := bytesLeft - size;
    }

    /** The stream and an open substream: the rest of the stream lies behind the substream. */
    ghost predicate Pending(src: seq<Byte>, left: nat, sub: IStream)
      reads this, sub
    {
      && bytesLeft + sub.bytesLeft < left <= |src|
      && source == sub.source == src[left - bytesLeft - sub.bytesLeft..]
    }

    /** pb_close_string_substream: skip what the substream has left, and go on behind it. */
    method CloseSubstream(sub: IStream, ghost src: seq<Byte>, ghost left: nat, ghost subSource: seq<Byte>, ghost size: nat)
      requires this != sub && Valid() && sub.Within(subSource, size)
      requires bytesLeft + size < left <= |src| && source == subSource == src[left - bytesLeft - size..]
      modifies this, sub
      ensures Within(src, left) && bytesLeft == old(bytesLeft)
      ensures old(sub.After(subSource, size)) ==> After(src, left) && View() == subSource[size..size + bytesLeft]
    {
      ghost var onTrack := sub.After(subSource, size);
      if sub.bytesLeft > 0 {
        var ok, skipped := sub.Read(sub.bytesLeft);
      }
      source := sub.source;
      if onTrack {
        assert source == subSource[size..];
        assert subSource[size..] == src[left - bytesLeft..];
      }
    }

    // ----- values -----

    method ReadNumber(kind: Kind) returns (ok: bool, v: Value)
      requires Valid() && Packable(kind) && WellFormedKind(kind)
      modifies this
      ensures Valid() && After(old(source), old(bytesLeft))
      ensures Outcome(ok, v, View()) == DecodeNumber(kind, old(View()))
    {
      hide DecodeVarint32, GetVarint64, Unfixed, FromWire;
      v := Num(0);
      if kind.Bool? {
        var n, eof;
        ok, n, eof := ReadVarint32();
        v := Num(if n != 0 then 1 else 0);
      } else if kind.Fixed32? || kind.Fixed64? {
        var b;
        ok, b := Read(if kind.Fixed32? then 4 else 8);
        v := Num(Unfixed(b));
      } else {
        var u;
        ok, u := ReadVarint64();
        if ok {
          var n := FromWire(kind, u);
          if n.Failed? {
            return false, v;
          }
          v := Num(n.value);
        }
      }
    }

    method ReadBlob(kind: Kind) returns (ok: bool, v: Value)
      requires Valid() && (kind.Bytes? || kind.Text? || kind.FixedBytes?)
      modifies this
      ensures Valid() && After(old(source), old(bytesLeft))
      ensures Outcome(ok, v, View()) == DecodeBlob(kind, old(View()))
    {
      hide DecodeVarint32, UpToNul;
      v := Num(0);
      var size, eof;
      ok, size, eof := ReadVarint32();
      if !ok {
        return false, v;
      }
      if kind.FixedBytes? && size == 0 {
        assert View()[..0] == [] && View()[0..] == View();
        return true, Blob(seq(kind.length, _ => 0));
      }
      if (kind.Bytes? && size > kind.max) || (kind.Text? && size + 1 > kind.buffer) || (kind.FixedBytes? && size != kind.length) {
        return false, v;
      }
      var buf;
      ok, buf := Read(size);
      v := Blob(if kind.Text? then UpToNul(buf) else buf);
    }

    method ReadValue(kind: Kind, dest: Value) returns (ok: bool, v: Value)
      requires Valid() && WellFormedKind(kind) && InKind(kind, dest)
      modifies this
      ensures Within(old(source), old(bytesLeft)) && (ok ==> After(old(source), old(bytesLeft)))
      ensures Outcome(ok, v, View()) == DecodeValue(kind, dest, old(View()))
      decreases bytesLeft, 1
    {
      hide Substream, DecodeNumber, DecodeBlob, DecodeMessage, Typed, Exclusive, WellFormed;
      if Packable(kind) {
        ok, v := ReadNumber(kind);
      } else if !kind.Message? {
        ok, v := ReadBlob(kind);
      } else {
        ok, v := ReadSubmessage(kind.fields, dest.slots);
      }
    }

    /** pb_dec_submessage. */
    method ReadSubmessage(fields: seq<Field>, dest: seq<Slot>) returns (ok: bool, v: Value)
      requires Valid() && WellFormed(fields) && IsMessage(fields, dest)
      modifies this
      ensures Within(old(source), old(bytesLeft)) && (ok ==> After(old(source), old(bytesLeft)))
      ensures Outcome(ok, v, View()) == DecodeValue(Message(fields), Struct(dest), old(View()))
      decreases bytesLeft, 0
    {
      hide Substream, DecodeMessage, Typed, Exclusive, WellFormed;
      v := Struct(dest);
      var good, sub := MakeSubstream();
      if !good {
        return false, v;
      }
      ghost var subSource, size := sub.source, sub.bytesLeft;
      var slots;
      ok, slots := sub.ReadMessage(fields, dest);
      CloseSubstream(sub, old(source), old(bytesLeft), subSource, size);
      v := Struct(slots);
    }

    /** The packed branch of decode_static_field. */
    method ReadPacked(kind: Kind, max: nat, vs: seq<Value>) returns (ok: bool, items: seq<Value>)
      requires Valid() && WellFormedKind(kind) && Packable(kind) && forall i :: 0 <= i < |vs| ==> InKind(kind, vs[i])
      modifies this
      ensures Within(old(source), old(bytesLeft)) && (ok ==> After(old(source), old(bytesLeft)))
      ensures var s := Substream(old(View()));
        if s.Failed? then !ok
        else
          var r := DecodePacked(kind, max, vs, s.value);
          ok == r.Parsed? && (ok ==> items == r.value && View() == s.rest)
    {
      hide Substream, DecodeNumber, DecodePacked, WellFormedKind, InKind;
      items := vs;
      var good, sub := MakeSubstream();
      if !good {
        return false, items;
      }
      ghost var subSource, size, left := sub.source, sub.bytesLeft, bytesLeft;
      ghost var whole := DecodePacked(kind, max, vs, sub.View());
      var status := true;
      while status && sub.bytesLeft > 0 && |items| < max
        invariant sub.Valid() && sub.After(subSource, size) && source == subSource && bytesLeft == left
        invariant forall i :: 0 <= i < |items| ==> InKind(kind, items[i])
        invariant if status then DecodePacked(kind, max, items, sub.View()) == whole else whole.Failed?
        decreases status, sub.bytesLeft
      {
        PackedStep(kind, max, items, sub.View());
        var v;
        status, v := sub.ReadNumber(kind);
        if status {
          items := items + [v];
        }
      }
      PackedStep(kind, max, items, sub.View());
      if sub.bytesLeft != 0 {
        return false, items;
      }
      CloseSubstream(sub, old(source), old(bytesLeft), subSource, size);
      ok := status;
    }

    /** decode_static_field. */
    method ReadSlot(f: Field, slot: Slot, wireType: nat) returns (ok: bool, r: Slot)
      requires Valid() && WellFormedField(f) && InField(f, slot)
      modifies this
      ensures Within(old(source), old(bytesLeft)) && (ok ==> After(old(source), old(bytesLeft)))
      ensures Outcome(ok, r, View()) == DecodeSlot(f, slot, wireType, old(View()))
      decreases bytesLeft, 3
    {
      hide Substream, DecodeValue, DecodePacked, WellFormedKind, InKind;
      DefaultValueTyped(f.kind);
      r := slot;
      var v;
      match f.rule {
        case Repeated(max) =>
          if wireType == WT_STRING && Packable(f.kind) {
            var vs;
            ok, vs := ReadPacked(f.kind, max, slot.values);
            r := Many(vs);
          } else if |slot.values| >= max {
            return false, slot;
          } else {
            ok, v := ReadValue(f.kind, DefaultValue(f.kind));
            r := Many(slot.values + [v]);
          }
        case Required =>
          ok, v := ReadValue(f.kind, slot.value);
          r := One(v);
        case Singular =>
          ok, v := ReadValue(f.kind, slot.value);
          r := One(v);
        case _ =>
          ok, v := ReadValue(f.kind, if slot.opt.Some? then slot.opt.value else DefaultValue(f.kind));
          r := Opt(Some(v));
      }
    }

    /** One field after its tag: look it up, and decode or skip it. */
    method ReadField(iter: FieldIter, p: Progress, wireType: nat, tag: nat) returns (ok: bool, r: Progress)
      requires Valid() && iter.Valid() && WellFormed(iter.fields) && IsMessage(iter.fields, p.slots)
      modifies this, iter
      ensures Within(old(source), old(bytesLeft)) && (ok ==> After(old(source), old(bytesLeft)))
      ensures iter.Valid()
      ensures Outcome(ok, r, View()) == DecodeField(iter.fields, p, tag, wireType, old(View()))
      decreases bytesLeft, 4
    {
      hide DecodeVarint32, SkipField, DecodeSlot, Store, See, WellFormed, Exclusive, InField, WellFormedField, RequiredBefore;
      r := p;
      var fields := iter.fields;
      var found := iter.Find(tag);
      if !found {
        ok := Skip(wireType);
      } else if fields == [] {
        var n, eof;
        ok, n, eof := ReadVarint32();
      } else {
        var i := iter.pos;
        TypedAt(fields, p.slots, i);
        var slot;
        ok, slot := ReadSlot(fields[i], p.slots[i], wireType);
        r := Progress(Store(fields, p.slots, i, slot), See(fields, i, p.seen));
      }
    }

    /** The loop of pb_decode_noinit: fields until the input ends or a tag of zero. */
    method ReadFields(fields: seq<Field>, dest: seq<Slot>) returns (ok: bool, p: Progress)
      requires Valid() && WellFormed(fields) && IsMessage(fields, dest)
      modifies this
      ensures Within(old(source), old(bytesLeft)) && (ok ==> After(old(source), old(bytesLeft)))
      ensures Outcome(ok, p, View()) == DecodeFields(fields, Progress(dest, {}), old(View()))
      decreases bytesLeft, 5
    {
      hide DecodeVarint32, DecodeField, DecodeFields, IsMessage, WellFormed, FieldIter.Valid;
      var iter := new FieldIter(fields);
      p := Progress(dest, {});
      ghost var whole := DecodeFields(fields, p, View());
      while bytesLeft > 0
        invariant Valid() && After(old(source), old(bytesLeft)) && fresh(iter) && iter.Valid() && iter.fields == fields
        invariant IsMessage(fields, p.slots)
        invariant DecodeFields(fields, p, View()) == whole
        decreases bytesLeft
      {
        DecodeFieldsStep(fields, p, View());
        var good, wireType, tag, eof := ReadTag();
        if !good {
          return eof, p;
        }
        good, p := ReadField(iter, p, wireType, tag);
        if !good {
          return false, p;
        }
      }
      DecodeFieldsStep(fields, p, View());
      return true, p;
    }

    /** pb_decode_noinit. */
    method ReadMessage(fields: seq<Field>, dest: seq<Slot>) returns (ok: bool, slots: seq<Slot>)
      requires Valid() && WellFormed(fields) && IsMessage(fields, dest)
      modifies this
      ensures Within(old(source), old(bytesLeft)) && (ok ==> After(old(source), old(bytesLeft)))
      ensures Outcome(ok, slots, View()) == DecodeMessage(fields, dest, old(View()))
      decreases bytesLeft, 6
    {
      hide DecodeFields, RequiredSeen, IsMessage, WellFormed;
      var p;
      ok, p := ReadFields(fields, dest);
      return ok && RequiredSeen(fields, p.seen), p.slots;
    }

    /** pb_decode. */
    method ReadNewMessage(fields: seq<Field>) returns (ok: bool, slots: seq<Slot>)
      requires Valid() && WellFormed(fields)
      modifies this
      ensures Within(old(source), old(bytesLeft)) && (ok ==> After(old(source), old(bytesLeft)))
      ensures Outcome(ok, slots, View()) == Decode(fields, old(View()))
    {
      hide DecodeMessage, WellFormed, IsMessage;
      DefaultsTyped(fields);
      ok, slots := ReadMessage(fields, Defaults(fields));
    }
  }

  /** One turn of the loop over packed items. */
  lemma PackedStep(kind: Kind, max: nat, vs: seq<Value>, input: seq<Byte>)
    requires WellFormedKind(kind) && Packable(kind) && forall i :: 0 <= i < |vs| ==> InKind(kind, vs[i])
    ensures DecodePacked(kind, max, vs, input) ==
      if input == [] then Parsed(vs, [])
      else if |vs| >= max then Failed
      else
        var v := DecodeNumber(kind, input);
        if v.Failed? then Failed else DecodePacked(kind, max, vs + [v.value], v.rest)
  {
    hide DecodeNumber, InKind, WellFormedKind;
  }

  /** One turn of the loop over fields. */
  lemma DecodeFieldsStep(fields: seq<Field>, p: Progress, input: seq<Byte>)
    requires WellFormed(fields) && IsMessage(fields, p.slots)
    ensures input == [] ==> DecodeFields(fields, p, input) == Parsed(p, [])
    ensures var t := DecodeVarint32(input); input != [] ==>
      DecodeFields(fields, p, input) ==
        if t.Failed? then Failed
        else if t.value == 0 then Parsed(p, t.rest)
        else
          var f := DecodeField(fields, p, t.value / 8, t.value % 8, t.rest);
          if f.Failed? then Failed else DecodeFields(fields, f.value, f.rest)
  {
    hide DecodeVarint32, DecodeField, WellFormed, Typed, Exclusive;
  }

  lemma TakeVarintEnd(p: seq<Byte>, bytes: nat)
    ensures bytes == 0 || p == [] ==> TakeVarint(p, bytes) == Failed
  {
  }

  /** Seven more bits of a varint. */
  lemma VarintTurn(result: nat, weight: nat, byte: Byte, rest: seq<Byte>, bytes: nat)
    requires bytes > 0
    ensures Shifted(result, weight, TakeVarint([byte] + rest, bytes)) ==
      if byte < 128 then Parsed(Accumulate(result, byte % 128, weight), rest)
      else Shifted(Accumulate(result, byte % 128, weight), weight * 128, TakeVarint(rest, bytes - 1))
  {
    hide Shifted, Accumulate;
    assert ([byte] + rest)[1..] == rest;
    var low: nat := byte % 128;
    ShiftEnd(result, weight, Parsed(low, rest));
    ShiftOnce(result, weight, low, TakeVarint(rest, bytes - 1));
  }

  lemma FirstByte(byte: Byte, rest: seq<Byte>)
    ensures DecodeVarint32([byte] + rest) == if byte < 128 then Parsed(byte, rest) else Varint32From(byte % 128, 7, rest)
  {
    hide Or, Varint32From;
    var low: Byte := byte % 128;
    OrIntoZero(low);
    if byte < 128 {
      Varint32Turn(0, 0, low, rest);
    } else {
      assert 128 + low == byte;
      Varint32Turn(0, 0, low, rest);
    }
  }

  lemma OrIntoZero(low: nat)
    requires low < 128
    ensures Or(0, low, 0) == low
  {
    hide BitOr;
    assert Pow(2, 0) == 1;
    PowersOfTwo();
    BitOrZero(low, 32);
  }
}
