/** What an encoded message looks like on the wire, field by field. */
module PbWire {
  import opened Common
  import opened Coding
  import opened PbFields
  import opened PbEncode
  import opened PbDecode
  import opened PbMessages
  import PbRoundTrip

  /** So many times the same key. */
  function Times(key: Key, n: nat): (keys: seq<Key>)
    ensures |keys| == n && forall k | k in keys :: k == key
  {
    if n == 0 then [] else [key] + Times(key, n - 1)
  }

  /** The keys of one field: none if it is absent, a single one for a packed array, one for each item otherwise. */
  function KeysOfSlot(f: Field, s: Slot): seq<Key> {
    var own := Key(f.tag, WireType(f.ltype));
    match s
    case One(_) => [own]
    case Maybe(has, _) => if has then [own] else []
    case Many(items) => if items == [] then [] else if f.ltype.Packable() then [Key(f.tag, 2)] else Times(own, |items|)
    case Which(tag, _) => if tag == f.tag then [own] else []
  }

  /** The keys of a message: its fields from the i-th on, in the order of the descriptor. */
  function KeysFrom(d: Descriptor, slots: map<nat, Slot>, i: nat): seq<Key>
    requires i <= |d.fields|
    decreases |d.fields| - i
  {
    if i == |d.fields| then []
    else (if d.fields[i].slot in slots then KeysOfSlot(d.fields[i], slots[d.fields[i].slot]) else []) + KeysFrom(d, slots, i + 1)
  }

  lemma {:induction false} KeyInFront(tag: nat, wireType: nat, rest: seq<Byte>)
    requires 0 < tag < 0x2000_0000 && wireType < 8
    ensures Keys(TagBytes(tag, wireType) + rest)
         == [Key(tag, wireType)] + match SkipField(rest, wireType) case None => [] case Some(rest') => Keys(rest')
  {
    hide Varint, GetVarint32, SkipField;
    var key := 8 * tag + wireType;
    UnrolledVarint(key);
    Varint32RoundTrip(key, rest);
    assert key / 8 == tag && key % 8 == wireType;
  }

  lemma {:induction false} ValueHasOneKey(f: Field, v: Value, tail: seq<Byte>)
    requires 0 < f.tag < 0x2000_0000 && TaggedValue(f, v).Ok? && |TaggedValue(f, v).bytes| < 0x1_0000_0000
    ensures Keys(TaggedValue(f, v).bytes + tail) == [Key(f.tag, WireType(f.ltype))] + Keys(tail)
  {
    hide Keys, TagBytes, EncodeValue, SkipField;
    var bytes := EncodeValue(f, v).bytes;
    assert TaggedValue(f, v).bytes + tail == TagBytes(f.tag, WireType(f.ltype)) + (bytes + tail);
    KeyInFront(f.tag, WireType(f.ltype), bytes + tail);
    PbRoundTrip.ValueIsSkipped(f, v, tail);
  }

  lemma {:induction false} ItemsHaveKeys(f: Field, items: seq<Value>, i: nat, tail: seq<Byte>)
    requires i <= |items| && 0 < f.tag < 0x2000_0000
    requires Tagged(f, items, i).Ok? && |Tagged(f, items, i).bytes| < 0x1_0000_0000
    ensures Keys(Tagged(f, items, i).bytes + tail) == Times(Key(f.tag, WireType(f.ltype)), |items| - i) + Keys(tail)
    decreases |items| - i
  {
    hide Keys, TaggedValue;
    if i == |items| {
      assert Tagged(f, items, i).bytes + tail == tail;
      assert [] + Keys(tail) == Keys(tail);
    } else {
      var own := Key(f.tag, WireType(f.ltype));
      var rest := Tagged(f, items, i + 1).bytes + tail;
      assert Tagged(f, items, i).bytes + tail == TaggedValue(f, items[i]).bytes + rest;
      ValueHasOneKey(f, items[i], rest);
      ItemsHaveKeys(f, items, i + 1, tail);
      assert [own] + (Times(own, |items| - i - 1) + Keys(tail)) == Times(own, |items| - i) + Keys(tail);
    }
  }

  /** An array of numbers is one packed field; items of other types come one by one. */
  lemma {:induction false} ArrayKeys(f: Field, items: seq<Value>, tail: seq<Byte>)
    requires items != [] && 0 < f.tag < 0x2000_0000
    requires EncodeArray(f, items).Ok? && |EncodeArray(f, items).bytes| < 0x1_0000_0000
    ensures Keys(EncodeArray(f, items).bytes + tail)
         == (if f.ltype.Packable() then [Key(f.tag, 2)] else Times(Key(f.tag, WireType(f.ltype)), |items|)) + Keys(tail)
  {
    hide Keys, Tagged, Packed, TagBytes, GetLengthPrefixedSlice, Varint;
    if f.ltype.Packable() {
      var packed := Packed(f, items, 0).bytes;
      var rest := Delimited(Ok(packed)).bytes + tail;
      assert EncodeArray(f, items).bytes + tail == TagBytes(f.tag, 2) + rest;
      KeyInFront(f.tag, 2, rest);
      PbRoundTrip.DelimitedRoundTrip(packed, tail);
    } else {
      ItemsHaveKeys(f, items, 0, tail);
    }
  }

  lemma {:induction false} SlotKeys(f: Field, s: Slot, tail: seq<Byte>)
    requires 0 < f.tag < 0x2000_0000 && EncodeSlot(f, s).Ok? && |EncodeSlot(f, s).bytes| < 0x1_0000_0000
    ensures Keys(EncodeSlot(f, s).bytes + tail) == KeysOfSlot(f, s) + Keys(tail)
  {
    hide Keys, TaggedValue, Tagged, Packed;
    if EncodeSlot(f, s).bytes == [] {
      assert [] + tail == tail && [] + Keys(tail) == Keys(tail);
    }
    match s
    case One(v) => ValueHasOneKey(f, v, tail);
    case Maybe(has, v) =>
      if has {
        ValueHasOneKey(f, v, tail);
      }
    case Many(items) =>
      if items != [] {
        ArrayKeys(f, items, tail);
      }
    case Which(tag, v) =>
      if tag == f.tag {
        ValueHasOneKey(f, v, tail);
      }
  }

  lemma {:induction false} FieldsHaveKeys(d: Descriptor, slots: map<nat, Slot>, i: nat)
    requires i <= |d.fields| && TagsAndSlots(d.fields)
    requires EncodeFrom(d, slots, i).Ok? && |EncodeFrom(d, slots, i).bytes| < 0x1_0000_0000
    ensures Keys(EncodeFrom(d, slots, i).bytes) == KeysFrom(d, slots, i)
    decreases |d.fields| - i
  {
    hide Keys, EncodeSlot, KeysOfSlot;
    if i == |d.fields| {
      NoKeys();
    } else {
      SlotKeys(d.fields[i], slots[d.fields[i].slot], EncodeFrom(d, slots, i + 1).bytes);
      FieldsHaveKeys(d, slots, i + 1);
    }
  }

  lemma {:induction false} NoKeys()
    ensures Keys([]) == []
  {
    assert ParseVarint([], 5) == Failed;
  }

  /** On the wire are exactly the present fields, in the order of the descriptor, under their own wire types; arrays of
      numbers are packed. */
  lemma {:induction false} MessageKeys(d: Descriptor, m: Value)
    requires Sound(d) && EncodeMessage(d, m).Ok? && |EncodeMessage(d, m).bytes| < 0x1_0000_0000
    ensures Keys(EncodeMessage(d, m).bytes) == KeysFrom(d, m.slots, 0)
  {
    FieldsHaveKeys(d, m.slots, 0);
  }

  lemma {:induction false} ItemsEncode(f: Field, items: seq<Value>, i: nat)
    requires i <= |items|
    ensures Packed(f, items, i).Ok? <==> forall k | i <= k < |items| :: EncodeValue(f, items[k]).Ok?
    ensures Tagged(f, items, i).Ok? <==> forall k | i <= k < |items| :: EncodeValue(f, items[k]).Ok?
    decreases |items| - i
  {
    hide EncodeValue;
    if i < |items| {
      ItemsEncode(f, items, i + 1);
    }
  }

  /** An array is refused exactly when it has too many items or one that cannot be encoded. */
  lemma {:induction false} ArrayEncodes(f: Field, items: seq<Value>)
    ensures EncodeArray(f, items).Ok?
       <==> items == [] || (|items| <= f.arraySize && forall k | 0 <= k < |items| :: EncodeValue(f, items[k]).Ok?)
  {
    ItemsEncode(f, items, 0);
  }
}
