/** nanopb messages: descriptors, the values of a message structure, and the field iterator. */
module PbFields {
  import opened Coding

  datatype LType =
    | VarintType | UvarintType | SvarintType | Fixed32Type | Fixed64Type
    | BytesType | StringType | SubmessageType | FixedLengthBytesType
  {
    /** Up to PB_LTYPE_LAST_PACKABLE. */
    predicate Packable() {
      VarintType? || UvarintType? || SvarintType? || Fixed32Type? || Fixed64Type?
    }
  }

  datatype HType = Required | Optional | Repeated | Oneof

  /** Fields of one union share their slot; `slot` stands for the offsets of the data and of its has, count or which. */
  datatype Field = Field(
    tag: nat, ltype: LType, htype: HType, slot: nat, dataSize: nat, arraySize: nat, sub: Descriptor, initial: Value)

  datatype Descriptor = Descriptor(fields: seq<Field>)

  /** The contents of one item; a string is its text up to the terminator, or all of an unterminated buffer. */
  datatype Value = Number(n: int) | Data(bytes: seq<Byte>) | Message(slots: map<nat, Slot>) | Unset

  /** The data of a field with its has_, _count or which_ member. */
  datatype Slot = One(value: Value) | Maybe(has: bool, value: Value) | Many(items: seq<Value>) | Which(tag: nat, value: Value)

  /** sizeof(pb_size_t) in this build, which is also where the bytes of a pb_bytes_array_t start. */
  const SizeWidth: nat := 4

  // ---------- well-formed descriptors and structures ----------

  function CountRequired(fields: seq<Field>): (n: nat)
    ensures n <= |fields|
  {
    if fields == [] then 0
    else CountRequired(fields[..|fields| - 1]) + if fields[|fields| - 1].htype == Required then 1 else 0
  }

  ghost predicate TagsAndSlots(fields: seq<Field>) {
    && (forall i | 0 <= i < |fields| :: 0 < fields[i].tag < 0x2000_0000)
    && (forall i, j | 0 <= i < j < |fields| ::
          && fields[i].tag != fields[j].tag
          && (fields[i].slot == fields[j].slot ==> fields[i].htype == Oneof && fields[j].htype == Oneof))
    && CountRequired(fields) < 32
  }

  ghost predicate Sound(d: Descriptor) {
    && TagsAndSlots(d.fields)
    && forall i | 0 <= i < |d.fields| :: d.fields[i].ltype == SubmessageType ==> Sound(d.fields[i].sub)
  }

  predicate InRange(ltype: LType, dataSize: nat, n: int) {
    match ltype
    case VarintType => FitsSigned(dataSize, n)
    case SvarintType => FitsSigned(dataSize, n)
    case UvarintType => FitsUnsigned(dataSize, n)
    case Fixed32Type => 0 <= n < 0x1_0000_0000
    case _ => 0 <= n < 0x1_0000_0000_0000_0000
  }

  predicate FitsSigned(dataSize: nat, n: int) {
    match dataSize
    case 1 => -0x80 <= n < 0x80
    case 2 => -0x8000 <= n < 0x8000
    case 4 => -0x8000_0000 <= n < 0x8000_0000
    case _ => -0x8000_0000_0000_0000 <= n < 0x8000_0000_0000_0000
  }

  predicate FitsUnsigned(dataSize: nat, n: int) {
    match dataSize
    case 1 => 0 <= n < 0x100
    case 2 => 0 <= n < 0x1_0000
    case 4 => 0 <= n < 0x1_0000_0000
    case _ => 0 <= n < 0x1_0000_0000_0000_0000
  }

  predicate AllowedSize(dataSize: nat) {
    dataSize == 1 || dataSize == 2 || dataSize == 4 || dataSize == 8
  }

  /** The value is one that memory of the field's type can hold. */
  ghost predicate Typed(f: Field, v: Value) {
    match f.ltype
    case SubmessageType => TypedMessage(f.sub, v)
    case BytesType => v.Data?
    case StringType => v.Data? && 0 !in v.bytes && |v.bytes| <= f.dataSize
    case FixedLengthBytesType => v.Data? && |v.bytes| == f.dataSize
    case _ => v.Number? && InRange(f.ltype, f.dataSize, v.n)
  }

  ghost predicate TypedSlot(f: Field, s: Slot) {
    match f.htype
    case Required => s.One? && Typed(f, s.value)
    case Optional => s.Maybe? && (s.has ==> Typed(f, s.value))
    case Repeated => s.Many? && forall k | 0 <= k < |s.items| :: Typed(f, s.items[k])
    case Oneof => s.Which? && (s.tag == f.tag ==> Typed(f, s.value))
  }

  ghost predicate TypedMessage(d: Descriptor, m: Value) {
    && m.Message?
    && forall i | 0 <= i < |d.fields| :: d.fields[i].slot in m.slots && TypedSlot(d.fields[i], m.slots[d.fields[i].slot])
  }

  // ---------- defaults ----------

  function DefaultValue(f: Field): Value
    decreases f, 0
  {
    if f.ltype == SubmessageType then Defaults(f.sub) else f.initial
  }

  function DefaultSlot(f: Field): Slot
    decreases f, 1
  {
    match f.htype
    case Required => One(DefaultValue(f))
    case Optional => Maybe(false, DefaultValue(f))
    case Repeated => Many([])
    case Oneof => Which(0, Unset)
  }

  function Defaults(d: Descriptor): Value
    decreases d, |d.fields| + 1
  {
    Message(DefaultSlots(d, |d.fields|))
  }

  function DefaultSlots(d: Descriptor, n: nat): map<nat, Slot>
    requires n <= |d.fields|
    decreases d, n
  {
    if n == 0 then map[]
    else DefaultSlots(d, n - 1)[d.fields[n - 1].slot := DefaultSlot(d.fields[n - 1])]
  }

  lemma {:induction false} DefaultSlotsAt(d: Descriptor, n: nat, i: nat)
    requires TagsAndSlots(d.fields) && i < n <= |d.fields|
    ensures d.fields[i].slot in DefaultSlots(d, n) && DefaultSlots(d, n)[d.fields[i].slot] == DefaultSlot(d.fields[i])
    decreases n
  {
    if i < n - 1 {
      DefaultSlotsAt(d, n - 1, i);
    }
  }

  /** Memory set to its defaults: initial values, submessages likewise, and nothing optional, repeated or chosen. */
  lemma {:induction false} DefaultsAre(d: Descriptor, i: nat)
    requires Sound(d) && i < |d.fields|
    ensures Defaults(d).Message? && d.fields[i].slot in Defaults(d).slots
    ensures var f := d.fields[i];
            var v := if f.ltype == SubmessageType then Defaults(f.sub) else f.initial;
            Defaults(d).slots[f.slot] == match f.htype
              case Required => One(v)
              case Optional => Maybe(false, v)
              case Repeated => Many([])
              case Oneof => Which(0, Unset)
  {
    DefaultSlotsAt(d, |d.fields|, i);
  }

  // ---------- the iterator ----------

  class FieldIter {
    const fields: seq<Field>
    var pos: nat
    var requiredIndex: nat

    ghost predicate Valid()
      reads this
    {
      && pos < |fields|
      && requiredIndex == CountRequired(fields[..pos])
    }

    constructor (fields: seq<Field>)
      requires fields != []
      ensures this.fields == fields && Valid() && pos == 0
    {
      this.fields, pos, requiredIndex := fields, 0, 0;
    }

    /** Go to the next field, or back to the first one. */
    method Next() returns (more: bool)
      requires Valid()
      modifies this
      ensures Valid() && more == (old(pos) + 1 < |fields|) && pos == if more then old(pos) + 1 else 0
    {
      assert fields[..pos + 1][..pos] == fields[..pos];
      var previous := fields[pos];
      if pos + 1 == |fields| {
        pos, requiredIndex := 0, 0;
        more := false;
      } else {
        pos := pos + 1;
        if previous.htype == Required {
          requiredIndex := requiredIndex + 1;
        }
        more := true;
      }
    }

    /** Search from where the iterator is, once around. */
    method Find(tag: nat) returns (found: bool)
      requires Valid()
      modifies this
      ensures Valid()
      ensures found == exists i | 0 <= i < |fields| :: fields[i].tag == tag
      ensures found ==> fields[pos].tag == tag
      ensures !found ==> pos == old(pos)
    {
      var start := pos;
      ghost var steps := 0;
      while true
        invariant Valid() && steps < |fields|
        invariant pos == if start + steps < |fields| then start + steps else start + steps - |fields|
        invariant forall i | 0 <= i < |fields| && (start <= i < start + steps || i < start + steps - |fields|) ::
                    fields[i].tag != tag
        decreases |fields| - steps
      {
        if fields[pos].tag == tag {
          return true;
        }
        var _ := Next();
        steps := steps + 1;
        if pos == start {
          return false;
        }
      }
    }
  }
}
