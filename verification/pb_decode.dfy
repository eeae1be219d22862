/** The decoder: fields are found by tag, read by type, and submessages read from substreams. */
module PbDecode {
  import opened Common
  import opened Coding
  import opened PbFields

  // ---------- values ----------

  function Take(input: seq<Byte>, n: nat): Parsed<seq<Byte>> {
    if |input| < n then Failed else Got(input[..n], input[n..])
  }

  /** A number in 64 bits, read as a signed one. */
  function AsSigned64(n: DoubleWord): int {
    if n < 0x8000_0000_0000_0000 then n else n - 0x1_0000_0000_0000_0000
  }

  /** The low 32 bits, read as a signed number. */
  function AsSigned32(n: DoubleWord): int {
    var low := n % 0x1_0000_0000;
    if low < 0x8000_0000 then low else low - 0x1_0000_0000
  }

  function UnZigZag(n: DoubleWord): int {
    if n % 2 == 1 then AsSigned64(0xFFFF_FFFF_FFFF_FFFF - n / 2) else AsSigned64(n / 2)
  }

  /** The numbers of fields up to 32 bits are cut to 32 bits first; what does not fit the field is refused. */
  function SignedField(dataSize: nat, n: DoubleWord): (v: Option<Value>)
    ensures v.Some? <==> AllowedSize(dataSize) && FitsSigned(dataSize, if dataSize == 8 then AsSigned64(n) else AsSigned32(n))
  {
    var signed := if dataSize == 8 then AsSigned64(n) else AsSigned32(n);
    if AllowedSize(dataSize) && FitsSigned(dataSize, signed) then Some(Number(signed)) else None
  }

  /** The text in front of the first terminator. */
  function Text(bytes: seq<Byte>): seq<Byte> {
    if bytes == [] || bytes[0] == 0 then [] else [bytes[0]] + Text(bytes[1..])
  }

  function Parse(v: Option<Value>, rest: seq<Byte>): Parsed<Value> {
    if v.Some? then Got(v.value, rest) else Failed
  }

  /** What the field's type makes of the front of a stream; `current` is what the memory held. */
  function DecodeValue(f: Field, input: seq<Byte>, current: Value): (r: Parsed<Value>)
    ensures r.Got? ==> |r.rest| < |input|
    decreases |input|, 0
  {
    match f.ltype
    case VarintType =>
      (match GetVarint64(input)
       case Failed => Failed
       case Got(n, rest) => Parse(SignedField(f.dataSize, n), rest))
    case UvarintType =>
      (match GetVarint64(input)
       case Failed => Failed
       case Got(n, rest) =>
         if AllowedSize(f.dataSize) && FitsUnsigned(f.dataSize, n) then Got(Number(n), rest) else Failed)
    case SvarintType =>
      (match GetVarint64(input)
       case Failed => Failed
       case Got(n, rest) =>
         if AllowedSize(f.dataSize) && FitsSigned(f.dataSize, UnZigZag(n)) then Got(Number(UnZigZag(n)), rest)
         else Failed)
    case Fixed32Type => if |input| < 4 then Failed else Got(Number(DecodeFixed32(input)), input[4..])
    case Fixed64Type => if |input| < 8 then Failed else Got(Number(DecodeFixed64(input)), input[8..])
    case BytesType =>
      (match GetLengthPrefixedSlice(input)
       case Failed => Failed
       case Got(bytes, rest) => if |bytes| + SizeWidth > f.dataSize then Failed else Got(Data(bytes), rest))
    case StringType =>
      (match GetLengthPrefixedSlice(input)
       case Failed => Failed
       case Got(bytes, rest) => if |bytes| + 1 > f.dataSize then Failed else Got(Data(Text(bytes)), rest))
    case FixedLengthBytesType =>
      (match GetLengthPrefixedSlice(input)
       case Failed => Failed
       case Got(bytes, rest) =>
         if bytes == [] then Got(Data(Zeros(f.dataSize)), rest)
         else if |bytes| != f.dataSize then Failed
         else Got(Data(bytes), rest))
    case SubmessageType =>
      (match GetLengthPrefixedSlice(input)
       case Failed => Failed
       case Got(bytes, rest) =>
         match DecodeFields(f.sub, bytes, SlotsOf(if f.htype == Repeated then Defaults(f.sub) else current), {})
         case None => Failed
         case Some(slots) => Got(Message(slots), rest))
  }

  function SlotsOf(m: Value): map<nat, Slot> {
    if m.Message? then m.slots else map[]
  }

  function ItemsOf(s: Slot): seq<Value> {
    if s.Many? then s.items else []
  }

  function CurrentOf(s: Slot): Value {
    if s.Many? then Unset else s.value
  }

  /** Packed items, as long as there are bytes and room. */
  function DecodePacked(f: Field, input: seq<Byte>, items: seq<Value>): Option<seq<Value>>
    decreases |input|, 1
  {
    if input == [] then Some(items)
    else if |items| >= f.arraySize then None
    else
      match DecodeValue(f, input, Unset)
      case Failed => None
      case Got(v, rest) => DecodePacked(f, rest, items + [v])
  }

  /** decode_static_field. */
  function DecodeSlot(f: Field, wireType: nat, input: seq<Byte>, slot: Slot): (r: Parsed<Slot>)
    ensures r.Got? ==> |r.rest| < |input|
    decreases |input|, 2
  {
    match f.htype
    case Required =>
      (match DecodeValue(f, input, CurrentOf(slot))
       case Failed => Failed
       case Got(v, rest) => Got(One(v), rest))
    case Optional =>
      (match DecodeValue(f, input, CurrentOf(slot))
       case Failed => Failed
       case Got(v, rest) => Got(Maybe(true, v), rest))
    case Repeated =>
      if wireType == 2 && f.ltype.Packable() then
        (match GetLengthPrefixedSlice(input)
         case Failed => Failed
         case Got(bytes, rest) =>
           match DecodePacked(f, bytes, ItemsOf(slot))
           case None => Failed
           case Some(items) => Got(Many(items), rest))
      else if |ItemsOf(slot)| >= f.arraySize then Failed
      else
        (match DecodeValue(f, input, Unset)
         case Failed => Failed
         case Got(v, rest) => Got(Many(ItemsOf(slot) + [v]), rest))
    case Oneof =>
      (match DecodeValue(f, input, if f.ltype == SubmessageType then Defaults(f.sub) else CurrentOf(slot))
       case Failed => Failed
       case Got(v, rest) => Got(Which(f.tag, v), rest))
  }

  // ---------- messages ----------

  function SkipVarint(input: seq<Byte>): (rest: Option<seq<Byte>>)
    ensures rest.Some? ==> |rest.value| < |input|
  {
    if input == [] then None else if input[0] < 128 then Some(input[1..]) else SkipVarint(input[1..])
  }

  function SkipField(input: seq<Byte>, wireType: nat): (rest: Option<seq<Byte>>)
    ensures rest.Some? ==> |rest.value| <= |input|
  {
    match wireType
    case 0 => SkipVarint(input)
    case 1 => if |input| < 8 then None else Some(input[8..])
    case 2 => (match GetLengthPrefixedSlice(input) case Failed => None case Got(_, rest) => Some(rest))
    case 5 => if |input| < 4 then None else Some(input[4..])
    case _ => None
  }

  /** The position of the field with this tag. */
  function IndexOf(fields: seq<Field>, tag: nat): (i: Option<nat>)
    ensures i.Some? ==> i.value < |fields| && fields[i.value].tag == tag
    ensures i.None? ==> forall k | 0 <= k < |fields| :: fields[k].tag != tag
  {
    if fields == [] then None
    else if fields[|fields| - 1].tag == tag then Some(|fields| - 1)
    else IndexOf(fields[..|fields| - 1], tag)
  }

  function WithSlot(d: Descriptor, slots: map<nat, Slot>, f: Field): Slot {
    if f.slot in slots then slots[f.slot] else DefaultSlot(f)
  }

  function Noted(fields: seq<Field>, i: nat, seen: set<nat>): set<nat>
    requires i < |fields|
  {
    if fields[i].htype == Required then seen + {CountRequired(fields[..i])} else seen
  }

  function AllBits(n: nat): set<nat> {
    if n == 0 then {} else AllBits(n - 1) + {n - 1}
  }

  /** Every required field has been seen. */
  function Finished(d: Descriptor, slots: map<nat, Slot>, seen: set<nat>): Option<map<nat, Slot>> {
    if seen == AllBits(CountRequired(d.fields)) then Some(slots) else None
  }

  /**
   * pb_decode_noinit.  A tag cut off by the end of the stream, and a zero tag, end the message.
   * The terminator of an empty descriptor has tag 0 and no valid size.
   */
  function DecodeFields(d: Descriptor, input: seq<Byte>, slots: map<nat, Slot>, seen: set<nat>): Option<map<nat, Slot>>
    decreases |input|, 3
  {
    if input == [] then Finished(d, slots, seen)
    else
      match GetVarint32(input)
      case Failed => if |input| <= 5 then Finished(d, slots, seen) else None
      case Got(key, rest) =>
        if key == 0 then Finished(d, slots, seen)
        else
          match IndexOf(d.fields, key / 8)
          case None =>
            if d.fields == [] && key / 8 == 0 then None
            else
              (match SkipField(rest, key % 8)
               case None => None
               case Some(rest') => DecodeFields(d, rest', slots, seen))
          case Some(i) =>
            var f := d.fields[i];
            match DecodeSlot(f, key % 8, rest, WithSlot(d, slots, f))
            case Failed => None
            case Got(slot, rest') => DecodeFields(d, rest', slots[f.slot := slot], Noted(d.fields, i, seen))
  }

  /** pb_decode: into memory set to the defaults first. */
  function DecodeMessage(d: Descriptor, input: seq<Byte>): Option<Value> {
    match DecodeFields(d, input, SlotsOf(Defaults(d)), {})
    case None => None
    case Some(slots) => Some(Message(slots))
  }
}
