/** The decoder as it runs: a stream with bytes left, substreams of it, and an iterator over the fields. */
module PbIStream {
  import opened Common
  import opened Coding
  import opened PbFields
  import opened PbDecode

  /** What a step that may fail took off the front of a stream. */
  ghost predicate Reads<T(!new)>(spec: Parsed<T>, r: Option<T>, left: seq<Byte>) {
    match r
    case None => spec.Failed?
    case Some(v) => spec == Got(v, left)
  }

  /** Whether the decoder goes on after a step. */
  datatype Next = More | Stop | Refuse

  class IStream {
    const buf: seq<Byte>
    var pos: nat
    var left: nat

    ghost predicate Valid()
      reads this
    {
      pos + left <= |buf|
    }

    /** The bytes still to be read. */
    ghost function Input(): seq<Byte>
      reads this
      requires Valid()
    {
      buf[pos..pos + left]
    }

    constructor (buf: seq<Byte>, pos: nat, left: nat)
      requires pos + left <= |buf|
      ensures Valid() && this.buf == buf && this.pos == pos && this.left == left
    {
      this.buf, this.pos, this.left := buf, pos, left;
    }

    /** Valid, and it ends where it did. */
    twostate predicate Later()
      reads this
    {
      Valid() && pos + left == old(pos) + old(left) && left <= old(left)
    }

    method Read(count: nat) returns (r: Option<seq<Byte>>)
      requires Valid()
      modifies this
      ensures Later() && Reads(Take(old(Input()), count), r, Input())
      ensures r.None? ==> left == old(left)
    {
      if left < count {
        return None;
      }
      assert Input()[..count] == buf[pos..pos + count] && Input()[count..] == buf[pos + count..pos + left];
      r := Some(buf[pos..pos + count]);
      pos, left := pos + count, left - count;
    }

    method ReadByte() returns (r: Option<Byte>)
      requires Valid()
      modifies this
      ensures Later() && (r.None? <==> old(left) == 0)
      ensures r.Some? ==> r.value == old(Input())[0] && Input() == old(Input())[1..] && left == old(left) - 1
    {
      if left == 0 {
        return None;
      }
      r := Some(buf[pos]);
      pos, left := pos + 1, left - 1;
    }

    /** The loop of both varint decoders: up to `limit` bytes, and a word keeps the low bits. */
    method DecodeVarint(limit: nat, modulus: nat) returns (r: Option<nat>)
      requires Valid() && limit > 0 && modulus > 0
      modifies this
      ensures Later()
      ensures Reads(Reduced(ParseVarint(old(Input()), limit), modulus), r, Input())
      ensures r.None? ==> (left == 0 <==> old(left) <= limit)
      ensures r.Some? ==> left < old(left)
    {
      hide ParseVarint, Placed, Remainder;
      ghost var input := Input();
      var result: nat, scale: nat, count: nat := 0, 1, 0;
      AboveNothing(ParseVarint(input, limit));
      assert input[count..] == input;
      while true
        invariant Later() && count <= limit && count <= |input| && Input() == input[count..] && left + count == old(left)
        invariant ParseVarint(input, limit) == Above(ParseVarint(input[count..], limit - count), result, scale)
        decreases limit - count
      {
        hide Above;
        if count == limit {
          NoMoreBytes(input[count..], limit - count);
          return None;
        }
        var byte := ReadByte();
        if byte.None? {
          NoMoreBytes(input[count..], limit - count);
          return None;
        }
        OneMoreByte(input[count..], limit - count, result, scale);
        assert input[count..][1..] == input[count + 1..];
        var b: int := byte.value;
        count := count + 1;
        if b < 128 {
          return Some(Remainder(Placed(result, scale, b), modulus));
        }
        result, scale := Placed(result, scale, b - 128), scale * 128;
      }
    }

    method DecodeVarint32() returns (r: Option<nat>)
      requires Valid()
      modifies this
      ensures Later() && (match r case None => GetVarint32(old(Input())).Failed?
                          case Some(v) => GetVarint32(old(Input())) == Got(v, Input()))
      ensures r.None? ==> (left == 0 <==> old(left) <= 5)
      ensures r.Some? ==> left < old(left)
    {
      r := DecodeVarint(5, 0x1_0000_0000);
    }

    method DecodeVarint64() returns (r: Option<DoubleWord>)
      requires Valid()
      modifies this
      ensures Later() && Reads(GetVarint64(old(Input())), r, Input())
      ensures r.Some? ==> left < old(left)
    {
      var v := DecodeVarint(10, 0x1_0000_0000_0000_0000);
      if v.Some? {
        r := Some(v.value);
      } else {
        r := None;
      }
    }

    /** pb_make_string_substream: this stream waits where it is, short of the bytes it gives away. */
    method MakeSubstream() returns (sub: IStream?)
      requires Valid()
      modifies this
      ensures sub == null <==> GetLengthPrefixedSlice(old(Input())).Failed?
      ensures sub != null ==>
        && fresh(sub) && sub.Valid() && sub.buf == buf && sub.pos == pos && sub.left < old(left)
        && pos + sub.left + left == old(pos) + old(left) && left < old(left)
        && GetLengthPrefixedSlice(old(Input())) == Got(sub.Input(), buf[sub.pos + sub.left..sub.pos + sub.left + left])
    {
      hide GetVarint32;
      var size := DecodeVarint32();
      if size.None? || left < size.value {
        return null;
      }
      assert Input()[..size.value] == buf[pos..pos + size.value];
      assert Input()[size.value..] == buf[pos + size.value..pos + left];
      sub := new IStream(buf, pos, size.value);
      left := left - size.value;
    }

    /** pb_close_string_substream: skip what the substream has left, and go on behind it. */
    method CloseSubstream(sub: IStream)
      requires sub != this && sub.Valid() && sub.buf == buf && sub.pos + sub.left + left <= |buf|
      modifies this, sub
      ensures Valid() && left == old(left) && pos == old(sub.pos) + old(sub.left)
    {
      if sub.left > 0 {
        assert |sub.Input()| == sub.left;
        var _ := sub.Read(sub.left);
        assert |sub.Input()| == sub.left;
      }
      pos := sub.pos;
    }

    /** A length, and as many bytes. */
    method ReadDelimited() returns (r: Option<seq<Byte>>)
      requires Valid()
      modifies this
      ensures Later() && Reads(GetLengthPrefixedSlice(old(Input())), r, Input())
      ensures r.Some? ==> left < old(left)
    {
      hide GetVarint32;
      var size := DecodeVarint32();
      if size.None? {
        return None;
      }
      r := Read(size.value);
    }

    method SkipVarintBytes() returns (ok: bool)
      requires Valid()
      modifies this
      ensures Later() && SkipVarint(old(Input())) == if ok then Some(Input()) else None
    {
      while true
        invariant Later() && SkipVarint(Input()) == SkipVarint(old(Input()))
        decreases left
      {
        ghost var before := Input();
        var byte := ReadByte();
        if byte.None? {
          assert before == [];
          return false;
        }
        if byte.value < 128 {
          return true;
        }
      }
    }

    method Skip(wireType: nat) returns (ok: bool)
      requires Valid()
      modifies this
      ensures Later() && SkipField(old(Input()), wireType) == if ok then Some(Input()) else None
    {
      hide GetLengthPrefixedSlice;
      var r;
      match wireType
      case 0 => ok := SkipVarintBytes();
      case 1 =>
        r := Read(8);
        ok := r.Some?;
      case 2 =>
        r := ReadDelimited();
        ok := r.Some?;
      case 5 =>
        r := Read(4);
        ok := r.Some?;
      case _ => ok := false;
    }

    // ---------- values ----------

    method DecodeSignedField(f: Field, svarint: bool) returns (r: Option<Value>)
      requires Valid() && f.ltype == if svarint then SvarintType else VarintType
      modifies this
      ensures Later() && Reads(DecodeValue(f, old(Input()), Unset), r, Input())
    {
      hide GetVarint64, UnZigZag;
      var bits := DecodeVarint64();
      if bits.None? {
        return None;
      }
      var n;
      if svarint {
        n := UnZigZag(bits.value);
      } else if f.dataSize == 8 {
        n := AsSigned64(bits.value);
      } else {
        n := AsSigned32(bits.value);
      }
      if !AllowedSize(f.dataSize) || !FitsSigned(f.dataSize, n) {
        return None;
      }
      return Some(Number(n));
    }

    method DecodeUnsignedField(f: Field) returns (r: Option<Value>)
      requires Valid() && f.ltype == UvarintType
      modifies this
      ensures Later() && Reads(DecodeValue(f, old(Input()), Unset), r, Input())
    {
      hide GetVarint64;
      var bits := DecodeVarint64();
      if bits.None? || !AllowedSize(f.dataSize) || !FitsUnsigned(f.dataSize, bits.value) {
        return None;
      }
      return Some(Number(bits.value));
    }

    method DecodeFixedField(f: Field) returns (r: Option<Value>)
      requires Valid() && (f.ltype == Fixed32Type || f.ltype == Fixed64Type)
      modifies this
      ensures Later() && Reads(DecodeValue(f, old(Input()), Unset), r, Input())
    {
      hide DecodeFixed32, DecodeFixed64;
      ghost var input := Input();
      if f.ltype == Fixed32Type {
        var bytes := Read(4);
        if bytes.None? {
          return None;
        }
        FrontDecides(input);
        r := Some(Number(DecodeFixed32(bytes.value)));
      } else {
        var bytes := Read(8);
        if bytes.None? {
          return None;
        }
        FrontDecides(input);
        r := Some(Number(DecodeFixed64(bytes.value)));
      }
    }

    method DecodeDataField(f: Field) returns (r: Option<Value>)
      requires Valid() && (f.ltype == BytesType || f.ltype == StringType || f.ltype == FixedLengthBytesType)
      modifies this
      ensures Later() && Reads(DecodeValue(f, old(Input()), Unset), r, Input())
    {
      hide GetLengthPrefixedSlice, Text;
      var bytes := ReadDelimited();
      if bytes.None? {
        return None;
      }
      var size := |bytes.value|;
      match f.ltype
      case BytesType => r := if size + SizeWidth > f.dataSize then None else Some(Data(bytes.value));
      case StringType => r := if size + 1 > f.dataSize then None else Some(Data(Text(bytes.value)));
      case FixedLengthBytesType =>
        r := if size == 0 then Some(Data(Zeros(f.dataSize)))
             else if size != f.dataSize then None else Some(Data(bytes.value));
    }

    /** pb_dec_submessage: the substream is closed however far the inner decoder read. */
    method DecodeSubmessage(f: Field, current: Value) returns (r: Option<Value>)
      requires Valid() && f.ltype == SubmessageType && Sound(f.sub)
      modifies this
      ensures r.None? ==> DecodeValue(f, old(Input()), current).Failed?
      ensures r.Some? ==> Later() && DecodeValue(f, old(Input()), current) == Got(r.value, Input())
      decreases left, 0
    {
      hide GetLengthPrefixedSlice, Defaults, DecodeFields, Sound;
      var sub := MakeSubstream();
      if sub == null {
        return None;
      }
      ghost var behind := buf[sub.pos + sub.left..sub.pos + sub.left + left];
      var slots := SlotsOf(if f.htype == Repeated then Defaults(f.sub) else current);
      var decoded := sub.Decode(f.sub, slots);
      if decoded.None? {
        return None;
      }
      CloseSubstream(sub);
      assert Input() == behind;
      r := Some(Message(decoded.value));
    }

    /** The decoder for the type of the field. */
    method DecodeItem(f: Field, current: Value) returns (r: Option<Value>)
      requires Valid() && (f.ltype == SubmessageType ==> Sound(f.sub))
      modifies this
      ensures r.None? ==> DecodeValue(f, old(Input()), current).Failed?
      ensures r.Some? ==> Later() && DecodeValue(f, old(Input()), current) == Got(r.value, Input())
      decreases left, 1
    {
      hide DecodeValue, Sound;
      if f.ltype != SubmessageType {
        OnlySubmessagesLookAtMemory(f, Input(), current);
      }
      match f.ltype
      case VarintType => r := DecodeSignedField(f, false);
      case UvarintType => r := DecodeUnsignedField(f);
      case SvarintType => r := DecodeSignedField(f, true);
      case Fixed32Type => r := DecodeFixedField(f);
      case Fixed64Type => r := DecodeFixedField(f);
      case BytesType => r := DecodeDataField(f);
      case StringType => r := DecodeDataField(f);
      case FixedLengthBytesType => r := DecodeDataField(f);
      case SubmessageType => r := DecodeSubmessage(f, current);
    }

    /** A packed array: items are read while there are bytes and room. */
    method DecodePackedArray(f: Field, items: seq<Value>) returns (r: Option<seq<Value>>)
      requires Valid() && f.ltype.Packable()
      modifies this
      ensures r.None? ==> GetLengthPrefixedSlice(old(Input())).Failed?
                          || DecodePacked(f, GetLengthPrefixedSlice(old(Input())).value, items).None?
      ensures r.Some? ==> Later() && GetLengthPrefixedSlice(old(Input())).Got?
                          && DecodePacked(f, GetLengthPrefixedSlice(old(Input())).value, items) == r
                          && GetLengthPrefixedSlice(old(Input())).rest == Input()
      decreases left, 2
    {
      hide GetLengthPrefixedSlice, DecodeValue, Sound;
      var sub := MakeSubstream();
      if sub == null {
        return None;
      }
      ghost var end := sub.pos + sub.left;
      ghost var behind := buf[end..end + left];
      var got := items;
      while sub.left > 0 && |got| < f.arraySize
        invariant Valid() && sub.Valid() && sub.pos + sub.left == end && left < old(left)
        invariant left + end == old(pos) + old(left) && left < old(left) && behind == buf[end..end + left]
        invariant sub.left < old(left)
        invariant DecodePacked(f, sub.Input(), got) == DecodePacked(f, GetLengthPrefixedSlice(old(Input())).value, items)
        decreases sub.left
      {
        ghost var was := sub.Input();
        var v := sub.DecodeItem(f, Unset);
        if v.None? {
          return None;
        }
        got := got + [v.value];
      }
      if sub.left != 0 {
        return None;
      }
      CloseSubstream(sub);
      assert Input() == behind;
      r := Some(got);
    }

    /** decode_static_field. */
    method DecodeField(f: Field, wireType: nat, slot: Slot) returns (r: Option<Slot>)
      requires Valid() && (f.ltype == SubmessageType ==> Sound(f.sub))
      modifies this
      ensures r.None? ==> DecodeSlot(f, wireType, old(Input()), slot).Failed?
      ensures r.Some? ==> Later() && DecodeSlot(f, wireType, old(Input()), slot) == Got(r.value, Input())
      decreases left, 3
    {
      hide DecodeValue, DecodePacked, Sound, GetLengthPrefixedSlice, Defaults;
      var v;
      match f.htype
      case Required =>
        v := DecodeItem(f, CurrentOf(slot));
        r := if v.Some? then Some(One(v.value)) else None;
      case Optional =>
        v := DecodeItem(f, CurrentOf(slot));
        r := if v.Some? then Some(Maybe(true, v.value)) else None;
      case Repeated =>
        if wireType == 2 && f.ltype.Packable() {
          var items := DecodePackedArray(f, ItemsOf(slot));
          r := if items.Some? then Some(Many(items.value)) else None;
        } else {
          if |ItemsOf(slot)| >= f.arraySize {
            return None;
          }
          v := DecodeItem(f, Unset);
          r := if v.Some? then Some(Many(ItemsOf(slot) + [v.value])) else None;
        }
      case Oneof =>
        v := DecodeItem(f, if f.ltype == SubmessageType then Defaults(f.sub) else CurrentOf(slot));
        r := if v.Some? then Some(Which(f.tag, v.value)) else None;
    }

    // ---------- messages ----------

    /** The loop of pb_decode_noinit: a tag, then a field or something unknown to skip. */
    method Step(d: Descriptor, iter: FieldIter?, message: map<nat, Slot>, seen: set<nat>)
      returns (next: Next, message': map<nat, Slot>, seen': set<nat>)
      requires Valid() && Sound(d) && left > 0 && (iter == null <==> d.fields == [])
      requires iter != null ==> iter.Valid() && iter.fields == d.fields
      modifies this, iter
      ensures iter != null ==> iter.Valid()
      ensures next.Refuse? ==> DecodeFields(d, old(Input()), message, seen).None?
      ensures next.Stop? ==>
        Later() && message' == message && seen' == seen
        && DecodeFields(d, old(Input()), message, seen) == Finished(d, message, seen)
      ensures next.More? ==>
        Later() && left < old(left)
        && DecodeFields(d, Input(), message', seen') == DecodeFields(d, old(Input()), message, seen)
      decreases left, 4
    {
      hide DecodeSlot, Noted, WithSlot, CountRequired, GetVarint32, Finished, SkipField, FieldIter.Valid, Sound;
      message', seen' := message, seen;
      ghost var was := Input();
      var key := DecodeVarint32();
      if key.None? {
        next := if left == 0 then Stop else Refuse;
        return;
      }
      if key.value == 0 {
        return Stop, message, seen;
      }
      var tag, wireType := key.value / 8, key.value % 8;
      var found := false;
      if iter != null {
        found := iter.Find(tag);
      }
      if !found {
        UnknownTag(d.fields, tag);
        if iter == null && tag == 0 {
          return Refuse, message, seen;
        }
        var ok := Skip(wireType);
        next := if ok then More else Refuse;
        return;
      }
      KnownTag(d, iter.pos);
      var f := d.fields[iter.pos];
      seen' := NotedAt(iter, d, seen);
      var slot := DecodeField(f, wireType, WithSlot(d, message, f));
      if slot.None? {
        return Refuse, message, seen;
      }
      next, message' := More, message[f.slot := slot.value];
    }

    /** pb_decode_noinit: fields may come in any order; in the end every required one must have come. */
    method Decode(d: Descriptor, slots: map<nat, Slot>) returns (r: Option<map<nat, Slot>>)
      requires Valid() && Sound(d)
      modifies this
      ensures r == DecodeFields(d, old(Input()), slots, {})
      ensures r.Some? ==> Later()
      decreases left, 5
    {
      hide DecodeFields, Sound, CountRequired, AllBits, FieldIter.Valid;
      var message: map<nat, Slot>, seen: set<nat> := slots, {};
      var iter: FieldIter? := null;
      if d.fields != [] {
        iter := new FieldIter(d.fields);
      }
      while left > 0
        invariant Later() && (iter == null <==> d.fields == [])
        invariant iter != null ==> fresh(iter) && iter.Valid() && iter.fields == d.fields
        invariant DecodeFields(d, Input(), message, seen) == DecodeFields(d, old(Input()), slots, {})
        decreases left
      {
        var next;
        next, message, seen := Step(d, iter, message, seen);
        if next.Refuse? {
          return None;
        }
        if next.Stop? {
          r := Complete(d, iter, message, seen);
          return;
        }
      }
      AtTheEnd(d, Input(), message, seen);
      r := Complete(d, iter, message, seen);
    }

    /** pb_decode. */
    method DecodeInit(d: Descriptor) returns (r: Option<Value>)
      requires Valid() && Sound(d)
      modifies this
      ensures r == DecodeMessage(d, old(Input()))
      ensures r.Some? ==> Later()
    {
      var slots := SetToDefaults(d);
      var decoded := Decode(d, slots);
      r := if decoded.Some? then Some(Message(decoded.value)) else None;
    }
  }

  lemma {:induction false} OnlySubmessagesLookAtMemory(f: Field, input: seq<Byte>, current: Value)
    requires f.ltype != SubmessageType
    ensures DecodeValue(f, input, current) == DecodeValue(f, input, Unset)
  {
  }

  /** pb_message_set_to_defaults. */
  method SetToDefaults(d: Descriptor) returns (slots: map<nat, Slot>)
    ensures slots == DefaultSlots(d, |d.fields|)
  {
    slots := map[];
    for i := 0 to |d.fields|
      invariant slots == DefaultSlots(d, i)
    {
      slots := slots[d.fields[i].slot := DefaultSlot(d.fields[i])];
    }
  }

  /** The bit of a required field is set when it comes. */
  method NotedAt(iter: FieldIter, d: Descriptor, seen: set<nat>) returns (seen': set<nat>)
    requires iter.Valid() && iter.fields == d.fields
    ensures seen' == Noted(d.fields, iter.pos, seen)
  {
    seen' := seen;
    if d.fields[iter.pos].htype == Required {
      seen' := seen + {iter.requiredIndex};
    }
  }

  /** Run the iterator to the end to count the required fields, and compare the bits. */
  method Complete(d: Descriptor, iter: FieldIter?, message: map<nat, Slot>, seen: set<nat>)
    returns (r: Option<map<nat, Slot>>)
    requires (iter == null <==> d.fields == []) && (iter != null ==> iter.Valid() && iter.fields == d.fields)
    modifies iter
    ensures r == Finished(d, message, seen)
  {
    hide AllBits;
    var count := 0;
    if iter != null {
      var more := true;
      ghost var at := iter.pos;
      while more
        invariant iter.Valid()
        invariant if more then iter.pos < |d.fields| && at == iter.pos else iter.pos == 0 && at == |d.fields|
        invariant !more ==> count == CountRequired(d.fields)
        decreases |d.fields| - at
      {
        count := iter.requiredIndex;
        var last := iter.pos;
        more := iter.Next();
        if !more && d.fields[last].htype == Required {
          count := count + 1;
        }
        assert !more ==> d.fields[..last + 1] == d.fields && d.fields[..last + 1][..last] == d.fields[..last];
        at := if more then iter.pos else |d.fields|;
      }
    }
    r := if seen == AllBits(count) then Some(message) else None;
  }

  lemma {:induction false} AtTheEnd(d: Descriptor, input: seq<Byte>, message: map<nat, Slot>, seen: set<nat>)
    requires input == []
    ensures DecodeFields(d, input, message, seen) == Finished(d, message, seen)
  {
  }

  lemma {:induction false} UnknownTag(fields: seq<Field>, tag: nat)
    requires forall i | 0 <= i < |fields| :: fields[i].tag != tag
    ensures IndexOf(fields, tag) == None
  {
  }

  lemma {:induction false} KnownTag(d: Descriptor, i: nat)
    requires Sound(d) && i < |d.fields|
    ensures IndexOf(d.fields, d.fields[i].tag) == Some(i)
    ensures d.fields[i].ltype == SubmessageType ==> Sound(d.fields[i].sub)
  {
    var found := IndexOf(d.fields, d.fields[i].tag);
    assert found.Some?;
  }

  lemma {:induction false} FrontDecides(input: seq<Byte>)
    ensures |input| >= 4 ==> DecodeFixed32(input[..4]) == DecodeFixed32(input)
    ensures |input| >= 8 ==> DecodeFixed64(input[..8]) == DecodeFixed64(input)
  {
    if |input| >= 8 {
      assert input[..8][4..] == input[4..8];
    }
  }
}
