/** Whatever bytes arrive: what the decoder accepts stays within its bounds and can be encoded again. */
module PbAnyInput {
  import opened Common
  import opened Coding
  import opened PbFields
  import opened PbEncode
  import opened PbDecode
  import opened PbRoundTrip

  /** Memory of a field's type with valid contents, which the encoder takes. */
  ghost predicate Good(f: Field, v: Value)
    decreases f, 0
  {
    if f.ltype == SubmessageType then v.Message? && GoodSlots(f.sub, v.slots)
    else Typed(f, v) && Terminated(f, v) && EncodeValue(f, v).Ok?
  }

  /** An optional value is valid even while it is absent: a submessage is decoded on top of it. */
  ghost predicate GoodSlot(f: Field, s: Slot)
    decreases f, 1
  {
    match f.htype
    case Required => s.One? && Good(f, s.value)
    case Optional => s.Maybe? && Good(f, s.value)
    case Repeated => s.Many? && |s.items| <= f.arraySize && forall k | 0 <= k < |s.items| :: Good(f, s.items[k])
    case Oneof => s.Which? && (s.tag == f.tag ==> Good(f, s.value))
  }

  ghost predicate GoodSlots(d: Descriptor, slots: map<nat, Slot>)
    decreases d
  {
    forall i | 0 <= i < |d.fields| :: d.fields[i].slot in slots && GoodSlot(d.fields[i], slots[d.fields[i].slot])
  }

  /** The default values that descriptors give are valid contents. */
  ghost predicate GoodDefaults(d: Descriptor) {
    forall i | 0 <= i < |d.fields| ::
      if d.fields[i].ltype == SubmessageType then GoodDefaults(d.fields[i].sub)
      else Good(d.fields[i], d.fields[i].initial)
  }

  // ---------- good contents can be encoded ----------

  lemma {:induction false} GoodValueEncodes(f: Field, v: Value)
    requires Good(f, v)
    ensures Typed(f, v) && Terminated(f, v) && EncodeValue(f, v).Ok?
    decreases f, 0
  {
    if f.ltype == SubmessageType {
      hide TypedMessage, TerminatedMessage, GoodSlots;
      GoodSlotsEncode(f.sub, v.slots, 0);
    }
  }

  lemma {:induction false} GoodItemsEncode(f: Field, items: seq<Value>, i: nat)
    requires i <= |items| && forall k | 0 <= k < |items| :: Typed(f, items[k]) && EncodeValue(f, items[k]).Ok?
    ensures Packed(f, items, i).Ok? && Tagged(f, items, i).Ok?
    decreases |items| - i
  {
    hide EncodeValue, Typed;
    if i < |items| {
      GoodItemsEncode(f, items, i + 1);
    }
  }

  lemma {:induction false} GoodSlotEncodes(f: Field, s: Slot)
    requires GoodSlot(f, s)
    ensures TypedSlot(f, s) && TerminatedSlot(f, s) && EncodeSlot(f, s).Ok?
    decreases f, 1
  {
    hide Good, EncodeValue, Typed, Terminated, Packed, Tagged, Varint;
    match s
    case One(v) => GoodValueEncodes(f, v);
    case Maybe(has, v) => GoodValueEncodes(f, v);
    case Many(items) =>
      forall k | 0 <= k < |items| ensures Typed(f, items[k]) && Terminated(f, items[k]) && EncodeValue(f, items[k]).Ok? {
        GoodValueEncodes(f, items[k]);
      }
      GoodItemsEncode(f, items, 0);
    case Which(tag, v) =>
      if tag == f.tag {
        GoodValueEncodes(f, v);
      }
  }

  lemma {:induction false} GoodSlotsEncode(d: Descriptor, slots: map<nat, Slot>, n: nat)
    requires n <= |d.fields| && GoodSlots(d, slots)
    ensures EncodeFrom(d, slots, n).Ok? && TypedMessage(d, Message(slots)) && TerminatedMessage(d, Message(slots))
    decreases d, |d.fields| - n
  {
    hide EncodeSlot, TypedSlot, TerminatedSlot, GoodSlot;
    forall i | 0 <= i < |d.fields|
      ensures TypedSlot(d.fields[i], slots[d.fields[i].slot]) && TerminatedSlot(d.fields[i], slots[d.fields[i].slot])
      ensures EncodeSlot(d.fields[i], slots[d.fields[i].slot]).Ok?
    {
      GoodSlotEncodes(d.fields[i], slots[d.fields[i].slot]);
    }
    if n < |d.fields| {
      GoodSlotsEncode(d, slots, n + 1);
    }
  }

  // ---------- the decoder keeps contents good ----------

  lemma {:induction false} DefaultIsGood(f: Field)
    requires if f.ltype == SubmessageType then Sound(f.sub) && GoodDefaults(f.sub) else Good(f, f.initial)
    requires f.tag > 0
    ensures Good(f, DefaultValue(f)) && GoodSlot(f, DefaultSlot(f))
    decreases f, 0
  {
    hide Sound, GoodDefaults, GoodSlots;
    if f.ltype == SubmessageType {
      DefaultsAreGood(f.sub);
    }
  }

  lemma {:induction false} DefaultsAreGood(d: Descriptor)
    requires Sound(d) && GoodDefaults(d)
    ensures GoodSlots(d, SlotsOf(Defaults(d)))
    decreases d
  {
    hide Good, GoodSlot;
    forall i | 0 <= i < |d.fields|
      ensures d.fields[i].slot in SlotsOf(Defaults(d)) && GoodSlot(d.fields[i], SlotsOf(Defaults(d))[d.fields[i].slot])
    {
      DefaultSlotsAt(d, |d.fields|, i);
      DefaultIsGood(d.fields[i]);
    }
  }

  lemma {:induction false} TextEnds(bytes: seq<Byte>)
    ensures 0 !in Text(bytes) && |Text(bytes)| <= |bytes|
  {
    if bytes != [] && bytes[0] != 0 {
      TextEnds(bytes[1..]);
    }
  }

  lemma {:induction false} SliceIsShorter(input: seq<Byte>)
    requires GetLengthPrefixedSlice(input).Got?
    ensures |GetLengthPrefixedSlice(input).value| < |input|
  {
  }

  lemma {:induction false} NumberIsGood(f: Field, input: seq<Byte>, current: Value)
    requires f.ltype.Packable() && DecodeValue(f, input, current).Got?
    ensures Good(f, DecodeValue(f, input, current).value)
  {
    hide GetVarint64, EncodeFixed32, EncodeFixed64, DecodeFixed32, DecodeFixed64, UnZigZag, ZigZag;
  }

  lemma {:induction false} ValueIsGood(f: Field, input: seq<Byte>, current: Value)
    requires f.ltype == SubmessageType ==> Sound(f.sub) && GoodDefaults(f.sub)
    requires f.ltype == SubmessageType && f.htype != Repeated ==> Good(f, current)
    requires DecodeValue(f, input, current).Got?
    ensures Good(f, DecodeValue(f, input, current).value)
    decreases |input|, 0
  {
    hide GetLengthPrefixedSlice, Sound, GoodDefaults, GoodSlots, Defaults, Text;
    if f.ltype.Packable() {
      NumberIsGood(f, input, current);
    } else {
      var bytes := GetLengthPrefixedSlice(input).value;
      if f.ltype == SubmessageType {
        DefaultsAreGood(f.sub);
        SliceIsShorter(input);
        FieldsAreGood(f.sub, bytes, SlotsOf(if f.htype == Repeated then Defaults(f.sub) else current), {});
      } else {
        TextEnds(bytes);
      }
    }
  }

  lemma {:induction false} PackedAreGood(f: Field, input: seq<Byte>, items: seq<Value>)
    requires f.ltype.Packable() && |items| <= f.arraySize && forall k | 0 <= k < |items| :: Good(f, items[k])
    requires DecodePacked(f, input, items).Some?
    ensures var r := DecodePacked(f, input, items).value;
            |r| <= f.arraySize && forall k | 0 <= k < |r| :: Good(f, r[k])
    decreases |input|
  {
    hide DecodeValue, Good;
    if input != [] {
      NumberIsGood(f, input, Unset);
      var v := DecodeValue(f, input, Unset);
      PackedAreGood(f, v.rest, items + [v.value]);
    }
  }

  lemma {:induction false} SlotIsGood(f: Field, wireType: nat, input: seq<Byte>, s: Slot)
    requires if f.ltype == SubmessageType then Sound(f.sub) && GoodDefaults(f.sub) else Good(f, f.initial)
    requires f.tag > 0 && GoodSlot(f, s) && DecodeSlot(f, wireType, input, s).Got?
    ensures GoodSlot(f, DecodeSlot(f, wireType, input, s).value)
    ensures f.htype == Oneof ==>
              DecodeSlot(f, wireType, input, s).value.Which? && DecodeSlot(f, wireType, input, s).value.tag == f.tag
    decreases |input|, 1
  {
    hide DecodeValue, Good, Sound, GoodDefaults, DecodePacked, GetLengthPrefixedSlice, Defaults;
    match f.htype
    case Required => ValueIsGood(f, input, CurrentOf(s));
    case Optional => ValueIsGood(f, input, CurrentOf(s));
    case Repeated =>
      if wireType == 2 && f.ltype.Packable() {
        PackedAreGood(f, GetLengthPrefixedSlice(input).value, s.items);
      } else {
        ValueIsGood(f, input, Unset);
      }
    case Oneof =>
      DefaultIsGood(f);
      ValueIsGood(f, input, if f.ltype == SubmessageType then Defaults(f.sub) else CurrentOf(s));
  }

  /** Storing into one field leaves the others good, members of the same union included. */
  lemma {:induction false} StoringKeepsOthers(d: Descriptor, slots: map<nat, Slot>, i: nat, s: Slot)
    requires TagsAndSlots(d.fields) && GoodSlots(d, slots) && i < |d.fields| && GoodSlot(d.fields[i], s)
    requires d.fields[i].htype == Oneof ==> s.Which? && s.tag == d.fields[i].tag
    ensures GoodSlots(d, slots[d.fields[i].slot := s])
  {
    hide Good;
  }

  lemma {:induction false} FieldsAreGood(d: Descriptor, input: seq<Byte>, slots: map<nat, Slot>, seen: set<nat>)
    requires Sound(d) && GoodDefaults(d) && GoodSlots(d, slots)
    requires DecodeFields(d, input, slots, seen).Some?
    ensures GoodSlots(d, DecodeFields(d, input, slots, seen).value)
    decreases |input|, 2
  {
    hide GoodSlot, Good, DecodeSlot, CountRequired, AllBits, SkipField, GetVarint32, Noted;
    if input != [] && GetVarint32(input).Got? && GetVarint32(input).value != 0 {
      var key, rest := GetVarint32(input).value, GetVarint32(input).rest;
      var found := IndexOf(d.fields, key / 8);
      if found.None? {
        FieldsAreGood(d, SkipField(rest, key % 8).value, slots, seen);
      } else {
        var i := found.value;
        var f := d.fields[i];
        SlotIsGood(f, key % 8, rest, slots[f.slot]);
        var decoded := DecodeSlot(f, key % 8, rest, slots[f.slot]);
        StoringKeepsOthers(d, slots, i, decoded.value);
        FieldsAreGood(d, decoded.rest, slots[f.slot := decoded.value], Noted(d.fields, i, seen));
      }
    }
  }

  /** Arrays and buffers are never overrun, whatever the input. */
  lemma {:induction false} DecodedIsGood(d: Descriptor, input: seq<Byte>)
    requires Sound(d) && GoodDefaults(d) && DecodeMessage(d, input).Some?
    ensures GoodSlots(d, SlotsOf(DecodeMessage(d, input).value))
  {
    DefaultsAreGood(d);
    FieldsAreGood(d, input, SlotsOf(Defaults(d)), {});
  }

  /** What was decoded from any input encodes, and decodes again to the same present fields. */
  lemma {:induction false} DecodedEncodesAgain(d: Descriptor, input: seq<Byte>)
    requires Sound(d) && GoodDefaults(d) && DecodeMessage(d, input).Some?
    ensures var m := DecodeMessage(d, input).value;
            && EncodeMessage(d, m).Ok?
            && (|EncodeMessage(d, m).bytes| < 0x1_0000_0000 ==>
                  && DecodeMessage(d, EncodeMessage(d, m).bytes).Some?
                  && SameMessage(d, m, DecodeMessage(d, EncodeMessage(d, m).bytes).value))
  {
    hide GoodSlots, DecodeFields, EncodeFrom, SameMessage, TypedMessage, TerminatedMessage;
    var m := DecodeMessage(d, input).value;
    DecodedIsGood(d, input);
    GoodSlotsEncode(d, m.slots, 0);
    if |EncodeMessage(d, m).bytes| < 0x1_0000_0000 {
      MessageRoundTrip(d, m);
    }
  }
}
