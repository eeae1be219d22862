/** Decoding what was encoded restores every field that is present. */
module PbRoundTrip {
  import opened Common
  import opened Coding
  import opened PbFields
  import opened PbEncode
  import opened PbDecode

  // ---------- which messages can come back ----------

  /** Strings end inside their buffer. */
  ghost predicate Terminated(f: Field, v: Value)
    decreases f, 0
  {
    match f.ltype
    case StringType => v.Data? && |v.bytes| < f.dataSize
    case SubmessageType => TerminatedMessage(f.sub, v)
    case _ => true
  }

  ghost predicate TerminatedSlot(f: Field, s: Slot)
    decreases f, 1
  {
    match s
    case One(v) => Terminated(f, v)
    case Maybe(has, v) => has ==> Terminated(f, v)
    case Many(items) => forall k | 0 <= k < |items| :: Terminated(f, items[k])
    case Which(tag, v) => tag == f.tag ==> Terminated(f, v)
  }

  ghost predicate TerminatedMessage(d: Descriptor, m: Value)
    decreases d
  {
    m.Message? && forall i | 0 <= i < |d.fields| ::
      d.fields[i].slot in m.slots && TerminatedSlot(d.fields[i], m.slots[d.fields[i].slot])
  }

  // ---------- what comes back ----------

  ghost predicate SameValue(f: Field, v: Value, w: Value)
    decreases f, 0
  {
    if f.ltype == SubmessageType then SameMessage(f.sub, v, w) else v == w
  }

  /** Equal in everything the has, count and which members declare present; absent optional fields are at their defaults. */
  ghost predicate SameSlot(f: Field, s: Slot, t: Slot)
    decreases f, 1
  {
    match f.htype
    case Required => s.One? && t.One? && SameValue(f, s.value, t.value)
    case Optional =>
      && s.Maybe? && t.Maybe? && t.has == s.has
      && if s.has then SameValue(f, s.value, t.value) else t.value == DefaultValue(f)
    case Repeated =>
      && s.Many? && t.Many? && |t.items| == |s.items|
      && forall k | 0 <= k < |s.items| :: SameValue(f, s.items[k], t.items[k])
    case Oneof =>
      && s.Which? && t.Which? && (t.tag == f.tag <==> s.tag == f.tag)
      && (s.tag == f.tag ==> SameValue(f, s.value, t.value))
  }

  ghost predicate SameMessage(d: Descriptor, m: Value, w: Value)
    decreases d
  {
    m.Message? && w.Message? && forall i | 0 <= i < |d.fields| ::
      && d.fields[i].slot in m.slots && d.fields[i].slot in w.slots
      && SameSlot(d.fields[i], m.slots[d.fields[i].slot], w.slots[d.fields[i].slot])
  }

  /** The value with all that is absent set to defaults. */
  ghost function Restored(f: Field, v: Value): Value
    decreases f, 0, 0
  {
    if f.ltype == SubmessageType && v.Message? then Message(RestoredSlots(f.sub, v.slots, |f.sub.fields|)) else v
  }

  ghost function RestoredItems(f: Field, items: seq<Value>, n: nat): (r: seq<Value>)
    requires n <= |items|
    ensures |r| == n
    decreases f, 1, n
  {
    if n == 0 then [] else RestoredItems(f, items, n - 1) + [Restored(f, items[n - 1])]
  }

  ghost function Present(f: Field, s: Slot): bool {
    match s
    case One(_) => true
    case Maybe(has, _) => has
    case Many(items) => items != []
    case Which(tag, _) => tag == f.tag
  }

  ghost function RestoredSlot(f: Field, s: Slot): Slot
    decreases f, 2, 0
  {
    match s
    case One(v) => One(Restored(f, v))
    case Maybe(has, v) => Maybe(has, Restored(f, v))
    case Many(items) => Many(RestoredItems(f, items, |items|))
    case Which(tag, v) => Which(tag, Restored(f, v))
  }

  /** The defaults, with the fields below n that are present put in. */
  ghost function RestoredSlots(d: Descriptor, slots: map<nat, Slot>, n: nat): map<nat, Slot>
    requires n <= |d.fields|
    decreases d, 0, n
  {
    if n == 0 then DefaultSlots(d, |d.fields|)
    else
      var f, before := d.fields[n - 1], RestoredSlots(d, slots, n - 1);
      if f.slot in slots && Present(f, slots[f.slot]) then before[f.slot := RestoredSlot(f, slots[f.slot])] else before
  }

  lemma {:induction false} RestoredItemsAt(f: Field, items: seq<Value>, n: nat, k: nat)
    requires k < n <= |items|
    ensures RestoredItems(f, items, n)[k] == Restored(f, items[k])
  {
    if k < n - 1 {
      RestoredItemsAt(f, items, n - 1, k);
    }
  }

  /** A field that is no part of a union stays at its default until its turn. */
  lemma {:induction false} StillDefault(d: Descriptor, slots: map<nat, Slot>, n: nat, j: nat)
    requires TagsAndSlots(d.fields) && n <= j < |d.fields| && d.fields[j].htype != Oneof
    ensures d.fields[j].slot in RestoredSlots(d, slots, n)
    ensures RestoredSlots(d, slots, n)[d.fields[j].slot] == DefaultSlot(d.fields[j])
    decreases n
  {
    hide Restored, RestoredSlot, Present;
    if n == 0 {
      DefaultSlotsAt(d, |d.fields|, j);
    } else {
      StillDefault(d, slots, n - 1, j);
    }
  }

  /** Once restored, a field stays so. */
  lemma {:induction false} StaysRestored(d: Descriptor, m: Value, n: nat, i: nat)
    requires TagsAndSlots(d.fields) && TypedMessage(d, m) && i < n <= |d.fields|
    requires Present(d.fields[i], m.slots[d.fields[i].slot])
    ensures d.fields[i].slot in RestoredSlots(d, m.slots, n)
    ensures RestoredSlots(d, m.slots, n)[d.fields[i].slot] == RestoredSlot(d.fields[i], m.slots[d.fields[i].slot])
    decreases n
  {
    hide Restored, RestoredSlot, Typed;
    var f, g := d.fields[i], d.fields[n - 1];
    if i < n - 1 {
      StaysRestored(d, m, n - 1, i);
      if g.slot == f.slot {
        assert f.htype == Oneof && g.htype == Oneof;
        assert TypedSlot(f, m.slots[f.slot]);
        assert !Present(g, m.slots[g.slot]);
      }
    }
  }

  /** The slot of an absent field never shows that field. */
  lemma {:induction false} StaysAbsent(d: Descriptor, m: Value, n: nat, i: nat)
    requires TagsAndSlots(d.fields) && TypedMessage(d, m) && i < |d.fields| && n <= |d.fields|
    requires !Present(d.fields[i], m.slots[d.fields[i].slot])
    ensures d.fields[i].slot in RestoredSlots(d, m.slots, n)
    ensures var t := RestoredSlots(d, m.slots, n)[d.fields[i].slot];
            if d.fields[i].htype == Oneof then t.Which? && t.tag != d.fields[i].tag else t == DefaultSlot(d.fields[i])
    decreases n
  {
    hide Restored, Typed;
    var f := d.fields[i];
    if n == 0 {
      OneOfTheFields(d, |d.fields|, i);
    } else {
      StaysAbsent(d, m, n - 1, i);
      var g := d.fields[n - 1];
      if g.slot == f.slot && n - 1 != i {
        assert f.htype == Oneof && g.htype == Oneof;
        assert TypedSlot(f, m.slots[f.slot]);
      }
    }
  }

  lemma {:induction false} OneOfTheFields(d: Descriptor, n: nat, i: nat)
    requires TagsAndSlots(d.fields) && i < n <= |d.fields|
    ensures d.fields[i].slot in DefaultSlots(d, n) && DefaultSlots(d, n)[d.fields[i].slot] == DefaultSlot(d.fields[i])
  {
    DefaultSlotsAt(d, n, i);
  }

  lemma {:induction false} RestoredIsSame(f: Field, v: Value)
    requires (f.ltype == SubmessageType ==> Sound(f.sub)) && Typed(f, v)
    ensures SameValue(f, v, Restored(f, v))
    decreases f, 0
  {
    if f.ltype == SubmessageType {
      RestoredMessageIsSame(f.sub, v);
    }
  }

  lemma {:induction false} RestoredSlotIsSame(f: Field, s: Slot)
    requires (f.ltype == SubmessageType ==> Sound(f.sub)) && TypedSlot(f, s) && Present(f, s)
    ensures SameSlot(f, s, RestoredSlot(f, s))
    decreases f, 1
  {
    hide SameValue, Restored, Typed;
    match s
    case One(v) => RestoredIsSame(f, v);
    case Maybe(has, v) => RestoredIsSame(f, v);
    case Many(items) =>
      forall k | 0 <= k < |items| ensures SameValue(f, items[k], RestoredItems(f, items, |items|)[k]) {
        RestoredItemsAt(f, items, |items|, k);
        RestoredIsSame(f, items[k]);
      }
    case Which(tag, v) => RestoredIsSame(f, v);
  }

  lemma {:induction false} RestoredMessageIsSame(d: Descriptor, m: Value)
    requires Sound(d) && TypedMessage(d, m)
    ensures SameMessage(d, m, Message(RestoredSlots(d, m.slots, |d.fields|)))
    decreases d
  {
    hide SameValue, Restored, Typed;
    var slots := RestoredSlots(d, m.slots, |d.fields|);
    forall i | 0 <= i < |d.fields|
      ensures d.fields[i].slot in slots && SameSlot(d.fields[i], m.slots[d.fields[i].slot], slots[d.fields[i].slot])
    {
      var f := d.fields[i];
      assert TypedSlot(f, m.slots[f.slot]);
      if Present(f, m.slots[f.slot]) {
        StaysRestored(d, m, |d.fields|, i);
        RestoredSlotIsSame(f, m.slots[f.slot]);
      } else {
        StaysAbsent(d, m, |d.fields|, i);
      }
    }
  }

  // ---------- single values ----------

  lemma {:induction false} SignedRoundTrip(dataSize: nat, n: int)
    requires AllowedSize(dataSize) && FitsSigned(dataSize, n)
    ensures SignedField(dataSize, AsUnsigned(n)) == Some(Number(n))
    ensures UnZigZag(ZigZag(n)) == n
    ensures ZigZag(n) == if n < 0 then -2 * n - 1 else 2 * n
  {
    hide ZigZag, AsUnsigned, UnZigZag;
    SignedBits(n);
    ZigZagBits(n);
  }

  /** Two's complement in 64 bits. */
  lemma {:induction false} SignedBits(n: int)
    requires -0x8000_0000_0000_0000 <= n < 0x8000_0000_0000_0000
    ensures AsUnsigned(n) == if n < 0 then n + 0x1_0000_0000_0000_0000 else n
  {
    if n < 0 {
      assert AsUnsigned(n) == (n + 0x1_0000_0000_0000_0000) % 0x1_0000_0000_0000_0000;
    }
  }

  /** Numbers near zero, of either sign, become small ones. */
  lemma {:induction false} ZigZagBits(n: int)
    requires -0x8000_0000_0000_0000 <= n < 0x8000_0000_0000_0000
    ensures ZigZag(n) == if n < 0 then -2 * n - 1 else 2 * n
    ensures UnZigZag(ZigZag(n)) == n
  {
    hide AsUnsigned;
    SignedBits(n);
    assert ZigZag(n) == if n < 0 then -2 * n - 1 else 2 * n;
  }

  lemma {:induction false} TextOfText(bytes: seq<Byte>)
    requires 0 !in bytes
    ensures Text(bytes) == bytes
  {
    if bytes != [] {
      TextOfText(bytes[1..]);
      assert bytes == [bytes[0]] + bytes[1..];
    }
  }

  lemma {:induction false} DelimitedRoundTrip(bytes: seq<Byte>, tail: seq<Byte>)
    requires |bytes| < 0x1_0000_0000
    ensures GetLengthPrefixedSlice(Delimited(Ok(bytes)).bytes + tail) == Got(bytes, tail)
  {
    hide GetLengthPrefixedSlice, Varint32, Varint;
    UnrolledVarint(|bytes|);
    assert |bytes| % 0x1_0000_0000 == |bytes|;
    assert Delimited(Ok(bytes)).bytes == LengthPrefixed(bytes);
    SliceRoundTrip(bytes, tail);
  }

  lemma {:induction false} NumberRoundTrip(f: Field, v: Value, tail: seq<Byte>, current: Value)
    requires f.ltype.Packable() && Typed(f, v) && EncodeValue(f, v).Ok?
    ensures DecodeValue(f, EncodeValue(f, v).bytes + tail, current) == Got(v, tail)
  {
    hide EncodeFixed32, EncodeFixed64, DecodeFixed32, DecodeFixed64, GetVarint64, ZigZag, UnZigZag, AsUnsigned, SignedField;
    var bytes := EncodeValue(f, v).bytes;
    match f.ltype
    case Fixed32Type =>
      Fixed32RoundTrip(v.n);
      Fixed32Front(bytes, tail);
    case Fixed64Type =>
      UnsignedSame(v.n);
      Fixed64RoundTrip(v.n);
      Fixed64Front(bytes, tail);
    case VarintType =>
      SignedRoundTrip(f.dataSize, v.n);
      Varint64RoundTrip(AsUnsigned(v.n), tail);
    case UvarintType =>
      UnsignedSame(v.n);
      Varint64RoundTrip(v.n, tail);
    case SvarintType =>
      SignedRoundTrip(f.dataSize, v.n);
      Varint64RoundTrip(ZigZag(v.n), tail);
  }

  lemma {:induction false} UnsignedSame(n: int)
    requires 0 <= n < 0x1_0000_0000_0000_0000
    ensures AsUnsigned(n) == n
  {
  }

  lemma {:induction false} Fixed32Front(bytes: seq<Byte>, tail: seq<Byte>)
    requires |bytes| == 4
    ensures DecodeFixed32(bytes + tail) == DecodeFixed32(bytes) && (bytes + tail)[4..] == tail
  {
  }

  lemma {:induction false} Fixed64Front(bytes: seq<Byte>, tail: seq<Byte>)
    requires |bytes| == 8
    ensures DecodeFixed64(bytes + tail) == DecodeFixed64(bytes) && (bytes + tail)[8..] == tail
  {
    hide DecodeFixed32;
    assert bytes + tail == bytes[..4] + (bytes[4..] + tail) && bytes == bytes[..4] + bytes[4..];
    Fixed32Front(bytes[..4], bytes[4..] + tail);
    Fixed32Front(bytes[..4], bytes[4..]);
    assert (bytes + tail)[4..] == bytes[4..] + tail;
    Fixed32Front(bytes[4..], tail);
  }

  /** A value comes back whatever follows it, if its strings are terminated; otherwise it is refused. */
  lemma {:induction false} ValueRoundTrip(f: Field, v: Value, tail: seq<Byte>, current: Value)
    requires (f.ltype == SubmessageType ==> Sound(f.sub)) && Typed(f, v)
    requires EncodeValue(f, v).Ok? && |EncodeValue(f, v).bytes| < 0x1_0000_0000
    requires f.ltype == SubmessageType && f.htype != Repeated ==> current == Defaults(f.sub)
    ensures DecodeValue(f, EncodeValue(f, v).bytes + tail, current)
         == if Terminated(f, v) then Got(Restored(f, v), tail) else Failed
    decreases f, 0, 0
  {
    hide GetLengthPrefixedSlice, RestoredSlots, Defaults;
    if f.ltype.Packable() {
      NumberRoundTrip(f, v, tail, current);
    } else if f.ltype == SubmessageType {
      var inner := EncodeMessage(f.sub, v).bytes;
      DelimitedRoundTrip(inner, tail);
      FieldsRoundTrip(f.sub, v, 0);
      StartsFromDefaults(f.sub, v);
      assert FieldsTerminated(f.sub, v, 0) <==> TerminatedMessage(f.sub, v);
    } else {
      DelimitedRoundTrip(v.bytes, tail);
      if f.ltype == StringType {
        TextOfText(v.bytes);
      } else if f.ltype == FixedLengthBytesType && v.bytes == [] {
        assert Zeros(f.dataSize) == [];
      }
    }
  }

  lemma {:induction false} StartsFromDefaults(d: Descriptor, m: Value)
    requires m.Message?
    ensures RestoredSlots(d, m.slots, 0) == SlotsOf(Defaults(d)) && AllBits(CountRequired(d.fields[..0])) == {}
  {
  }

  lemma {:induction false} PackedRoundTrip(f: Field, items: seq<Value>, i: nat)
    requires i <= |items| <= f.arraySize && f.ltype.Packable()
    requires forall k | 0 <= k < |items| :: Typed(f, items[k])
    requires Packed(f, items, i).Ok?
    ensures DecodePacked(f, Packed(f, items, i).bytes, items[..i]) == Some(items)
    decreases |items| - i
  {
    hide Typed, EncodeValue, DecodeValue;
    if i == |items| {
      assert items[..i] == items;
    } else {
      var bytes, rest := EncodeValue(f, items[i]).bytes, Packed(f, items, i + 1).bytes;
      NumberRoundTrip(f, items[i], rest, Unset);
      PackedRoundTrip(f, items, i + 1);
      assert items[..i + 1] == items[..i] + [items[i]];
      assert bytes + rest != [];
    }
  }

  lemma {:induction false} NumbersAreRestored(f: Field, items: seq<Value>, n: nat)
    requires f.ltype.Packable() && n <= |items|
    ensures RestoredItems(f, items, n) == items[..n]
  {
    if n > 0 {
      NumbersAreRestored(f, items, n - 1);
    }
  }

  // ---------- fields ----------

  /** The fields from the i-th on have terminated strings. */
  ghost predicate FieldsTerminated(d: Descriptor, m: Value, i: nat) {
    m.Message? && forall j | i <= j < |d.fields| ::
      d.fields[j].slot in m.slots && TerminatedSlot(d.fields[j], m.slots[d.fields[j].slot])
  }

  /** So have the items from the k-th on. */
  ghost predicate ItemsTerminated(f: Field, items: seq<Value>, k: nat) {
    forall j | k <= j < |items| :: Terminated(f, items[j])
  }

  lemma {:induction false} FoundByTag(fields: seq<Field>, i: nat)
    requires TagsAndSlots(fields) && i < |fields|
    ensures IndexOf(fields, fields[i].tag) == Some(i)
  {
    var found := IndexOf(fields, fields[i].tag);
    assert found.Some?;
  }

  /** The step of the decoder at the tag of field i. */
  lemma {:induction false} AtTag(
      d: Descriptor, i: nat, wireType: nat, rest: seq<Byte>, slots: map<nat, Slot>, seen: set<nat>)
    requires TagsAndSlots(d.fields) && i < |d.fields| && wireType < 8
    ensures var f := d.fields[i];
            DecodeFields(d, TagBytes(f.tag, wireType) + rest, slots, seen)
            == match DecodeSlot(f, wireType, rest, WithSlot(d, slots, f))
               case Failed => None
               case Got(slot, rest') => DecodeFields(d, rest', slots[f.slot := slot], Noted(d.fields, i, seen))
  {
    hide DecodeSlot, WithSlot, Noted, Varint, GetVarint32;
    var f := d.fields[i];
    var key := 8 * f.tag + wireType;
    FoundByTag(d.fields, i);
    UnrolledVarint(key);
    Varint32RoundTrip(key, rest);
    assert key / 8 == f.tag && key % 8 == wireType;
  }

  /** A tagged value in front of a stream goes into its slot. */
  lemma {:induction false} TaggedRoundTrip(
      d: Descriptor, i: nat, v: Value, tail: seq<Byte>, slots: map<nat, Slot>, seen: set<nat>)
    requires i < |d.fields| && Sound(d) && Typed(d.fields[i], v)
    requires TaggedValue(d.fields[i], v).Ok? && |TaggedValue(d.fields[i], v).bytes| < 0x1_0000_0000
    requires WithSlot(d, slots, d.fields[i]) == match d.fields[i].htype
             case Repeated => WithSlot(d, slots, d.fields[i])
             case Oneof => WithSlot(d, slots, d.fields[i])
             case _ => DefaultSlot(d.fields[i])
    requires d.fields[i].htype == Repeated ==>
               !d.fields[i].ltype.Packable() && |ItemsOf(WithSlot(d, slots, d.fields[i]))| < d.fields[i].arraySize
    ensures var f := d.fields[i];
            DecodeFields(d, TaggedValue(f, v).bytes + tail, slots, seen)
            == if !Terminated(f, v) then None
               else DecodeFields(d, tail, slots[f.slot := match f.htype
                                                case Required => One(Restored(f, v))
                                                case Optional => Maybe(true, Restored(f, v))
                                                case Repeated => Many(ItemsOf(WithSlot(d, slots, f)) + [Restored(f, v)])
                                                case Oneof => Which(f.tag, Restored(f, v))], Noted(d.fields, i, seen))
    decreases d.fields[i], 1, 0
  {
    hide EncodeValue, DecodeValue, Restored, Typed, Terminated, DecodeFields, Noted, TagBytes, WithSlot;
    var f := d.fields[i];
    var tag, bytes := TagBytes(f.tag, WireType(f.ltype)), EncodeValue(f, v).bytes;
    assert TaggedValue(f, v).bytes + tail == tag + (bytes + tail);
    AtTag(d, i, WireType(f.ltype), bytes + tail, slots, seen);
    var current := match f.htype
      case Repeated => Unset
      case Oneof => if f.ltype == SubmessageType then Defaults(f.sub) else CurrentOf(WithSlot(d, slots, f))
      case _ => CurrentOf(WithSlot(d, slots, f));
    ValueRoundTrip(f, v, tail, current);
  }

  /** Tagged items in front of a stream are appended one by one. */
  lemma {:induction false} ItemsRoundTrip(
      d: Descriptor, i: nat, items: seq<Value>, k: nat, tail: seq<Byte>, slots: map<nat, Slot>, seen: set<nat>)
    requires i < |d.fields| && Sound(d) && k <= |items| <= d.fields[i].arraySize
    requires d.fields[i].htype == Repeated && !d.fields[i].ltype.Packable()
    requires forall j | 0 <= j < |items| :: Typed(d.fields[i], items[j])
    requires Tagged(d.fields[i], items, k).Ok? && |Tagged(d.fields[i], items, k).bytes| < 0x1_0000_0000
    requires d.fields[i].slot in slots && slots[d.fields[i].slot] == Many(RestoredItems(d.fields[i], items, k))
    ensures var f := d.fields[i];
            DecodeFields(d, Tagged(f, items, k).bytes + tail, slots, seen)
            == if !ItemsTerminated(f, items, k) then None
               else DecodeFields(d, tail, slots[f.slot := Many(RestoredItems(f, items, |items|))], seen)
    decreases d.fields[i], 2, |items| - k
  {
    hide TaggedValue, Restored, Typed, Terminated, DecodeFields;
    var f := d.fields[i];
    if k == |items| {
      assert Tagged(f, items, k).bytes + tail == tail;
      assert slots[f.slot := Many(RestoredItems(f, items, |items|))] == slots;
    } else {
      var bytes, rest := TaggedValue(f, items[k]).bytes, Tagged(f, items, k + 1).bytes;
      assert bytes + rest + tail == bytes + (rest + tail);
      TaggedRoundTrip(d, i, items[k], rest + tail, slots, seen);
      var slots' := slots[f.slot := Many(RestoredItems(f, items, k + 1))];
      ItemsRoundTrip(d, i, items, k + 1, tail, slots', seen);
      assert ItemsTerminated(f, items, k) <==> Terminated(f, items[k]) && ItemsTerminated(f, items, k + 1);
      assert slots'[f.slot := Many(RestoredItems(f, items, |items|))] == slots[f.slot := Many(RestoredItems(f, items, |items|))];
    }
  }

  /** One field, present or not. */
  lemma {:induction false} SlotRoundTrip(d: Descriptor, m: Value, i: nat, tail: seq<Byte>, seen: set<nat>)
    requires i < |d.fields| && Sound(d) && TypedMessage(d, m)
    requires EncodeSlot(d.fields[i], m.slots[d.fields[i].slot]).Ok?
    requires |EncodeSlot(d.fields[i], m.slots[d.fields[i].slot]).bytes| < 0x1_0000_0000
    ensures DecodeFields(d, EncodeSlot(d.fields[i], m.slots[d.fields[i].slot]).bytes + tail, RestoredSlots(d, m.slots, i), seen)
         == if !TerminatedSlot(d.fields[i], m.slots[d.fields[i].slot]) then None
            else DecodeFields(d, tail, RestoredSlots(d, m.slots, i + 1), Noted(d.fields, i, seen))
    decreases d.fields[i], 3, 0
  {
    hide TaggedValue, Restored, Typed, Terminated, DecodeFields, DefaultSlot;
    var f := d.fields[i];
    var slots := RestoredSlots(d, m.slots, i);
    var s := m.slots[f.slot];
    assert TypedSlot(f, s);
    if f.htype != Oneof {
      StillDefault(d, m.slots, i, i);
    }
    if !Present(f, s) {
      assert [] + tail == tail;
    } else if f.htype == Repeated {
      ArrayRoundTrip(d, i, s.items, tail, slots, seen);
      assert TerminatedSlot(f, s) <==> ItemsTerminated(f, s.items, 0);
    } else {
      TaggedRoundTrip(d, i, s.value, tail, slots, seen);
    }
  }

  lemma {:induction false} ArrayRoundTrip(
      d: Descriptor, i: nat, items: seq<Value>, tail: seq<Byte>, slots: map<nat, Slot>, seen: set<nat>)
    requires i < |d.fields| && Sound(d) && items != [] && d.fields[i].htype == Repeated
    requires forall j | 0 <= j < |items| :: Typed(d.fields[i], items[j])
    requires EncodeArray(d.fields[i], items).Ok? && |EncodeArray(d.fields[i], items).bytes| < 0x1_0000_0000
    requires d.fields[i].slot in slots && slots[d.fields[i].slot] == DefaultSlot(d.fields[i])
    ensures var f := d.fields[i];
            DecodeFields(d, EncodeArray(f, items).bytes + tail, slots, seen)
            == if !ItemsTerminated(f, items, 0) then None
               else DecodeFields(d, tail, slots[f.slot := Many(RestoredItems(f, items, |items|))], seen)
    decreases d.fields[i], 2, |items| + 1
  {
    hide Packed, Tagged, Restored, Typed, Terminated, DecodeFields, TagBytes, GetLengthPrefixedSlice, Varint;
    var f := d.fields[i];
    if f.ltype.Packable() {
      var inner := Packed(f, items, 0).bytes;
      var bytes := Delimited(Packed(f, items, 0)).bytes;
      assert EncodeArray(f, items).bytes + tail == TagBytes(f.tag, 2) + (bytes + tail);
      AtTag(d, i, 2, bytes + tail, slots, seen);
      DelimitedIsLonger(Packed(f, items, 0));
      DelimitedRoundTrip(inner, tail);
      PackedRoundTrip(f, items, 0);
      NumbersAreRestored(f, items, |items|);
      NumbersAreTerminated(f, items);
      assert items[..0] == [] && items[..|items|] == items;
    } else {
      ItemsRoundTrip(d, i, items, 0, tail, slots, seen);
    }
  }

  lemma {:induction false} NumbersAreTerminated(f: Field, items: seq<Value>)
    requires f.ltype.Packable()
    ensures ItemsTerminated(f, items, 0)
  {
  }

  lemma {:induction false} DelimitedIsLonger(e: Encoded)
    requires Delimited(e).Ok?
    ensures e.Ok? && |e.bytes| < |Delimited(e).bytes|
  {
  }

  lemma {:induction false} NotedBits(fields: seq<Field>, i: nat)
    requires i < |fields|
    ensures Noted(fields, i, AllBits(CountRequired(fields[..i]))) == AllBits(CountRequired(fields[..i + 1]))
  {
    assert fields[..i + 1][..i] == fields[..i];
  }

  /** From field i on, with the earlier ones restored. */
  lemma {:induction false} FieldsRoundTrip(d: Descriptor, m: Value, i: nat)
    requires i <= |d.fields| && Sound(d) && TypedMessage(d, m)
    requires EncodeFrom(d, m.slots, i).Ok? && |EncodeFrom(d, m.slots, i).bytes| < 0x1_0000_0000
    ensures DecodeFields(d, EncodeFrom(d, m.slots, i).bytes, RestoredSlots(d, m.slots, i), AllBits(CountRequired(d.fields[..i])))
         == if FieldsTerminated(d, m, i) then Some(RestoredSlots(d, m.slots, |d.fields|)) else None
    decreases d, 1, |d.fields| - i
  {
    hide EncodeSlot, RestoredSlots, CountRequired, AllBits, Sound, TypedSlot, TerminatedSlot, Noted;
    if i == |d.fields| {
      assert d.fields[..i] == d.fields;
    } else {
      hide DecodeFields;
      SlotRoundTrip(d, m, i, EncodeFrom(d, m.slots, i + 1).bytes, AllBits(CountRequired(d.fields[..i])));
      NotedBits(d.fields, i);
      FieldsRoundTrip(d, m, i + 1);
      assert FieldsTerminated(d, m, i)
        <==> TerminatedSlot(d.fields[i], m.slots[d.fields[i].slot]) && FieldsTerminated(d, m, i + 1);
    }
  }

  /**
   * pb_decode restores every present field from what pb_encode wrote: for every descriptor with fewer than
   * 32 required fields a message, all contents that encode, with terminated strings, below 4 GB.
   */
  lemma {:induction false} MessageRoundTrip(d: Descriptor, m: Value)
    requires Sound(d) && TypedMessage(d, m) && TerminatedMessage(d, m)
    requires EncodeMessage(d, m).Ok? && |EncodeMessage(d, m).bytes| < 0x1_0000_0000
    ensures DecodeMessage(d, EncodeMessage(d, m).bytes).Some?
    ensures SameMessage(d, m, DecodeMessage(d, EncodeMessage(d, m).bytes).value)
  {
    DecodesIfTerminated(d, m);
    FieldsRoundTrip(d, m, 0);
    StartsFromDefaults(d, m);
    RestoredMessageIsSame(d, m);
  }

  /**
   * Exactly when: what was encoded decodes if and only if every string that is present, in submessages, arrays and unions
   * too, ends inside its buffer.  A string that fills its buffer has no terminator in it; it is encoded all the same.
   */
  lemma {:induction false} DecodesIfTerminated(d: Descriptor, m: Value)
    requires Sound(d) && TypedMessage(d, m)
    requires EncodeMessage(d, m).Ok? && |EncodeMessage(d, m).bytes| < 0x1_0000_0000
    ensures DecodeMessage(d, EncodeMessage(d, m).bytes).Some? <==> TerminatedMessage(d, m)
  {
    FieldsRoundTrip(d, m, 0);
    StartsFromDefaults(d, m);
    assert FieldsTerminated(d, m, 0) <==> TerminatedMessage(d, m);
  }

  // ---------- unknown fields ----------

  lemma {:induction false} VarintIsSkipped(n: nat, tail: seq<Byte>)
    ensures SkipVarint(Varint(n) + tail) == Some(tail)
  {
    if n < 128 {
      assert (Varint(n) + tail)[1..] == tail;
    } else {
      assert (Varint(n) + tail)[1..] == Varint(n / 128) + tail;
      VarintIsSkipped(n / 128, tail);
    }
  }

  lemma {:induction false} ValueIsSkipped(g: Field, v: Value, tail: seq<Byte>)
    requires EncodeValue(g, v).Ok? && |EncodeValue(g, v).bytes| < 0x1_0000_0000
    ensures SkipField(EncodeValue(g, v).bytes + tail, WireType(g.ltype)) == Some(tail)
  {
    hide GetLengthPrefixedSlice, Varint, ZigZag, AsUnsigned, EncodeFixed32, EncodeFixed64;
    var bytes := EncodeValue(g, v).bytes;
    match g.ltype
    case VarintType => VarintIsSkipped(AsUnsigned(v.n), tail);
    case UvarintType => VarintIsSkipped(AsUnsigned(v.n), tail);
    case SvarintType => VarintIsSkipped(ZigZag(v.n), tail);
    case Fixed32Type => assert (bytes + tail)[4..] == tail;
    case Fixed64Type => assert (bytes + tail)[8..] == tail;
    case SubmessageType => DelimitedRoundTrip(EncodeMessage(g.sub, v).bytes, tail);
    case _ => DelimitedRoundTrip(v.bytes, tail);
  }

  /** A field that another version of the message declares is passed over, wherever it comes. */
  lemma {:induction false} UnknownFieldIsSkipped(
      d: Descriptor, g: Field, v: Value, tail: seq<Byte>, slots: map<nat, Slot>, seen: set<nat>)
    requires 0 < g.tag < 0x2000_0000 && forall i | 0 <= i < |d.fields| :: d.fields[i].tag != g.tag
    requires TaggedValue(g, v).Ok? && |TaggedValue(g, v).bytes| < 0x1_0000_0000
    ensures DecodeFields(d, TaggedValue(g, v).bytes + tail, slots, seen) == DecodeFields(d, tail, slots, seen)
  {
    hide Varint, GetVarint32, EncodeValue, DecodeSlot, SkipField;
    var key := 8 * g.tag + WireType(g.ltype);
    var bytes := EncodeValue(g, v).bytes;
    assert TaggedValue(g, v).bytes + tail == Varint(key) + (bytes + tail);
    UnrolledVarint(key);
    Varint32RoundTrip(key, bytes + tail);
    assert key / 8 == g.tag && key % 8 == WireType(g.ltype);
    assert IndexOf(d.fields, g.tag).None?;
    ValueIsSkipped(g, v, tail);
  }
}
