/** Decoding seen from the stream: which fields came, what a field that comes again does, and messages put together. */
module PbMessages {
  import opened Common
  import opened Coding
  import opened PbFields
  import opened PbEncode
  import opened PbDecode

  // ---------- which fields came ----------

  /** The tags that came, the memory they left, and what is behind the end of the message. */
  datatype Came = Came(tags: seq<nat>, slots: map<nat, Slot>, left: seq<Byte>) {
    function Behind(tag: nat): Came {
      this.(tags := [tag] + tags)
    }
  }

  /** Fields are taken off the stream until it ends, or a zero tag or the end of the stream ends the message; None
      when one cannot be read. */
  function Fields(d: Descriptor, input: seq<Byte>, slots: map<nat, Slot>): (r: Option<Came>)
    ensures r.Some? ==> |r.value.left| <= |input|
    decreases |input|
  {
    if input == [] then Some(Came([], slots, []))
    else
      match GetVarint32(input)
      case Failed => if |input| <= 5 then Some(Came([], slots, input)) else None
      case Got(key, rest) =>
        if key == 0 then Some(Came([], slots, input))
        else
          match FieldAt(d, key, rest, slots)
          case None => None
          case Some((slots', rest')) =>
            match Fields(d, rest', slots')
            case None => None
            case Some(came) => Some(came.Behind(key / 8))
  }

  /** One field behind its key: into its slot, or skipped when the descriptor has no such tag. */
  function FieldAt(d: Descriptor, key: nat, rest: seq<Byte>, slots: map<nat, Slot>): (r: Option<(map<nat, Slot>, seq<Byte>)>)
    ensures r.Some? ==> |r.value.1| <= |rest|
  {
    match IndexOf(d.fields, key / 8)
    case None =>
      if d.fields == [] && key / 8 == 0 then None
      else (match SkipField(rest, key % 8) case None => None case Some(rest') => Some((slots, rest')))
    case Some(i) =>
      var f := d.fields[i];
      match DecodeSlot(f, key % 8, rest, WithSlot(d, slots, f))
      case Failed => None
      case Got(slot, rest') => Some((slots[f.slot := slot], rest'))
  }

  /** Every required field of the descriptor is among the tags. */
  ghost predicate HasRequired(d: Descriptor, tags: seq<nat>) {
    forall i | 0 <= i < |d.fields| && d.fields[i].htype == Required :: d.fields[i].tag in tags
  }

  // ---------- required fields and their bits ----------

  lemma {:induction false} BitsAre(n: nat, b: nat)
    ensures b in AllBits(n) <==> b < n
  {
    if n > 0 {
      BitsAre(n - 1, b);
    }
  }

  /** The bits of required fields are numbered in order. */
  lemma {:induction false} BitsAscend(fields: seq<Field>, i: nat, j: nat)
    requires i < j <= |fields| && fields[i].htype == Required
    ensures CountRequired(fields[..i]) < CountRequired(fields[..j])
  {
    assert fields[..j][..j - 1] == fields[..j - 1];
    if i < j - 1 {
      BitsAscend(fields, i, j - 1);
    }
  }

  /** Every bit belongs to some required field. */
  lemma {:induction false} BitHasField(fields: seq<Field>, b: nat) returns (i: nat)
    requires b < CountRequired(fields)
    ensures i < |fields| && fields[i].htype == Required && CountRequired(fields[..i]) == b
  {
    var n := |fields| - 1;
    if b < CountRequired(fields[..n]) {
      i := BitHasField(fields[..n], b);
      assert fields[..n][..i] == fields[..i];
    } else {
      i := n;
    }
  }

  /** Each required field has its bit set, or its tag is among those that came since. */
  ghost predicate SeenOrCame(d: Descriptor, seen: set<nat>, tags: seq<nat>) {
    && (forall b | b in seen :: b < CountRequired(d.fields))
    && (forall i | 0 <= i < |d.fields| && d.fields[i].htype == Required ::
          CountRequired(d.fields[..i]) in seen || d.fields[i].tag in tags)
  }

  lemma {:induction false} AllSeen(d: Descriptor, seen: set<nat>)
    requires forall b | b in seen :: b < CountRequired(d.fields)
    ensures SeenOrCame(d, seen, []) <==> seen == AllBits(CountRequired(d.fields))
  {
    hide CountRequired, AllBits;
    var n := CountRequired(d.fields);
    forall b: nat ensures b in AllBits(n) <==> b < n {
      BitsAre(n, b);
    }
    if SeenOrCame(d, seen, []) {
      forall b | b in AllBits(n) ensures b in seen {
        var i := BitHasField(d.fields, b);
      }
    }
    forall i | 0 <= i < |d.fields| && d.fields[i].htype == Required ensures CountRequired(d.fields[..i]) < n {
      BitsAscend(d.fields, i, |d.fields|);
      assert d.fields[..|d.fields|] == d.fields;
    }
  }

  /** Setting the bit of a field counts as its tag having come. */
  lemma {:induction false} NotedAsTag(d: Descriptor, i: nat, seen: set<nat>, tags: seq<nat>)
    requires Sound(d) && i < |d.fields|
    requires forall b | b in seen :: b < CountRequired(d.fields)
    ensures forall b | b in Noted(d.fields, i, seen) :: b < CountRequired(d.fields)
    ensures SeenOrCame(d, Noted(d.fields, i, seen), tags) <==> SeenOrCame(d, seen, [d.fields[i].tag] + tags)
  {
    hide CountRequired;
    if d.fields[i].htype == Required {
      BitsAscend(d.fields, i, |d.fields|);
      assert d.fields[..|d.fields|] == d.fields;
      forall j | 0 <= j < |d.fields| && d.fields[j].htype == Required && j != i
        ensures CountRequired(d.fields[..j]) != CountRequired(d.fields[..i])
      {
        if i < j {
          BitsAscend(d.fields, i, j);
        } else {
          BitsAscend(d.fields, j, i);
        }
      }
    }
  }

  lemma {:induction false} UnknownTagCounts(d: Descriptor, seen: set<nat>, tag: nat, tags: seq<nat>)
    requires IndexOf(d.fields, tag) == None
    ensures SeenOrCame(d, seen, tags) <==> SeenOrCame(d, seen, [tag] + tags)
  {
  }

  lemma {:induction false} DecodesFields(d: Descriptor, input: seq<Byte>, slots: map<nat, Slot>, seen: set<nat>)
    requires Sound(d) && forall b | b in seen :: b < CountRequired(d.fields)
    ensures DecodeFields(d, input, slots, seen)
         == match Fields(d, input, slots)
            case None => None
            case Some(came) => if SeenOrCame(d, seen, came.tags) then Some(came.slots) else None
    decreases |input|
  {
    hide CountRequired, AllBits, SeenOrCame, DecodeSlot, SkipField, GetVarint32, WithSlot, Sound, Noted;
    AllSeen(d, seen);
    if input != [] && GetVarint32(input).Got? && GetVarint32(input).value != 0 {
      var key, rest := GetVarint32(input).value, GetVarint32(input).rest;
      var at := FieldAt(d, key, rest, slots);
      if at.Some? {
        var (slots', rest') := at.value;
        var came := Fields(d, rest', slots');
        match IndexOf(d.fields, key / 8)
        case None =>
          DecodesFields(d, rest', slots', seen);
          if came.Some? {
            UnknownTagCounts(d, seen, key / 8, came.value.tags);
          }
        case Some(i) =>
          NotedAsTag(d, i, seen, []);
          DecodesFields(d, rest', slots', Noted(d.fields, i, seen));
          if came.Some? {
            NotedAsTag(d, i, seen, came.value.tags);
          }
      }
    }
  }

  lemma {:induction false} NothingSeen(d: Descriptor, tags: seq<nat>)
    ensures SeenOrCame(d, {}, tags) <==> HasRequired(d, tags)
  {
  }

  /** For any bytes: a message is accepted if and only if every field can be read and each required one came. */
  lemma {:induction false} RequiredFieldsCame(d: Descriptor, input: seq<Byte>)
    requires Sound(d)
    ensures DecodeMessage(d, input)
         == match Fields(d, input, SlotsOf(Defaults(d)))
            case None => None
            case Some(came) => if HasRequired(d, came.tags) then Some(Message(came.slots)) else None
  {
    hide Fields, DecodeFields, HasRequired, Defaults;
    DecodesFields(d, input, SlotsOf(Defaults(d)), {});
    var came := Fields(d, input, SlotsOf(Defaults(d)));
    if came.Some? {
      NothingSeen(d, came.value.tags);
    }
  }

  /** ... and so is every submessage, at any depth, whatever memory it is read into. */
  lemma {:induction false} SubmessagesNeedRequired(f: Field, input: seq<Byte>, current: Value)
    requires f.ltype == SubmessageType && Sound(f.sub)
    ensures var memory := SlotsOf(if f.htype == Repeated then Defaults(f.sub) else current);
            DecodeValue(f, input, current)
            == match GetLengthPrefixedSlice(input)
               case Failed => Failed
               case Got(bytes, rest) =>
                 match Fields(f.sub, bytes, memory)
                 case None => Failed
                 case Some(came) => if HasRequired(f.sub, came.tags) then Got(Message(came.slots), rest) else Failed
  {
    hide Fields, DecodeFields, HasRequired, Defaults, GetLengthPrefixedSlice;
    match GetLengthPrefixedSlice(input)
    case Failed =>
    case Got(bytes, rest) =>
      var memory := SlotsOf(if f.htype == Repeated then Defaults(f.sub) else current);
      DecodesFields(f.sub, bytes, memory, {});
      var came := Fields(f.sub, bytes, memory);
      if came.Some? {
        NothingSeen(f.sub, came.value.tags);
      }
  }

  // ---------- keys read without a descriptor ----------

  datatype Key = Key(tag: nat, wireType: nat)

  /** The keys of a stream, each value being skipped by its wire type. */
  function Keys(input: seq<Byte>): seq<Key>
    decreases |input|
  {
    match GetVarint32(input)
    case Failed => []
    case Got(key, rest) =>
      if key == 0 then []
      else
        [Key(key / 8, key % 8)]
        + match SkipField(rest, key % 8) case None => [] case Some(rest') => Keys(rest')
  }

  function TagsOf(keys: seq<Key>): (tags: seq<nat>)
    ensures forall t :: t in tags <==> exists k :: k in keys && k.tag == t
  {
    if keys == [] then [] else [keys[0].tag] + TagsOf(keys[1..])
  }

  /** The wire type a field is written with; an array of numbers may also be packed. */
  predicate OwnWireType(f: Field, wireType: nat) {
    wireType == WireType(f.ltype) || (wireType == 2 && f.htype == Repeated && f.ltype.Packable())
  }

  /** Known fields come with their own wire types, which the decoder does not check. */
  ghost predicate OwnWireTypes(d: Descriptor, keys: seq<Key>) {
    forall k, i | k in keys && 0 <= i < |d.fields| && d.fields[i].tag == k.tag :: OwnWireType(d.fields[i], k.wireType)
  }

  lemma {:induction false} ParsedIsSkipped(input: seq<Byte>, limit: nat)
    requires ParseVarint(input, limit).Got?
    ensures SkipVarint(input) == Some(ParseVarint(input, limit).rest)
    decreases limit
  {
    if input[0] >= 128 {
      ParsedIsSkipped(input[1..], limit - 1);
    }
  }

  lemma {:induction false} ValueIsSkipped(f: Field, input: seq<Byte>, current: Value)
    requires DecodeValue(f, input, current).Got?
    ensures SkipField(input, WireType(f.ltype)) == Some(DecodeValue(f, input, current).rest)
  {
    hide DecodeFields, Defaults, GetLengthPrefixedSlice, UnZigZag;
    if f.ltype == VarintType || f.ltype == UvarintType || f.ltype == SvarintType {
      ParsedIsSkipped(input, 10);
    }
  }

  /** A field read by its type takes off the stream what skipping it would. */
  lemma {:induction false} SlotIsSkipped(f: Field, wireType: nat, input: seq<Byte>, slot: Slot)
    requires OwnWireType(f, wireType) && DecodeSlot(f, wireType, input, slot).Got?
    ensures SkipField(input, wireType) == Some(DecodeSlot(f, wireType, input, slot).rest)
  {
    hide DecodeValue, Defaults, GetLengthPrefixedSlice;
    match f.htype
    case Required => ValueIsSkipped(f, input, CurrentOf(slot));
    case Optional => ValueIsSkipped(f, input, CurrentOf(slot));
    case Repeated =>
      if !(wireType == 2 && f.ltype.Packable()) {
        ValueIsSkipped(f, input, Unset);
      }
    case Oneof => ValueIsSkipped(f, input, if f.ltype == SubmessageType then Defaults(f.sub) else CurrentOf(slot));
  }

  lemma {:induction false} TagsAreKeys(d: Descriptor, input: seq<Byte>, slots: map<nat, Slot>)
    requires OwnWireTypes(d, Keys(input)) && Fields(d, input, slots).Some?
    ensures Fields(d, input, slots).value.tags == TagsOf(Keys(input))
    decreases |input|
  {
    hide DecodeSlot, SkipField, GetVarint32, WithSlot;
    if input == [] {
      EmptyHasNoKey(input);
    } else if GetVarint32(input).Got? && GetVarint32(input).value != 0 {
      var key, rest := GetVarint32(input).value, GetVarint32(input).rest;
      var (slots', rest') := FieldAt(d, key, rest, slots).value;
      assert Key(key / 8, key % 8) in Keys(input);
      match IndexOf(d.fields, key / 8) {
        case None =>
        case Some(i) => SlotIsSkipped(d.fields[i], key % 8, rest, WithSlot(d, slots, d.fields[i]));
      }
      assert Keys(input) == [Key(key / 8, key % 8)] + Keys(rest');
      assert forall k | k in Keys(rest') :: k in Keys(input);
      TagsAreKeys(d, rest', slots');
    }
  }

  lemma {:induction false} EmptyHasNoKey(input: seq<Byte>)
    requires input == []
    ensures GetVarint32(input).Failed?
  {
  }

  /** In terms of the keys of the stream alone: what is accepted holds the key of every required field, and what can be
      read and holds them is accepted. */
  lemma {:induction false} RequiredKeysCame(d: Descriptor, input: seq<Byte>)
    requires Sound(d) && OwnWireTypes(d, Keys(input))
    ensures DecodeMessage(d, input).Some? <==>
            && Fields(d, input, SlotsOf(Defaults(d))).Some?
            && forall i | 0 <= i < |d.fields| && d.fields[i].htype == Required ::
                 exists k :: k in Keys(input) && k.tag == d.fields[i].tag
  {
    hide Fields, DecodeMessage, Defaults, Keys;
    RequiredFieldsCame(d, input);
    if Fields(d, input, SlotsOf(Defaults(d))).Some? {
      TagsAreKeys(d, input, SlotsOf(Defaults(d)));
    }
  }

  // ---------- what follows does not matter ----------

  lemma {:induction false} VarintExtends(input: seq<Byte>, limit: nat, tail: seq<Byte>)
    requires ParseVarint(input, limit).Got?
    ensures ParseVarint(input + tail, limit)
         == Got(ParseVarint(input, limit).value, ParseVarint(input, limit).rest + tail)
    decreases limit
  {
    assert (input + tail)[1..] == input[1..] + tail;
    if input[0] >= 128 {
      VarintExtends(input[1..], limit - 1, tail);
    }
  }

  lemma {:induction false} SkipVarintExtends(input: seq<Byte>, tail: seq<Byte>)
    requires SkipVarint(input).Some?
    ensures SkipVarint(input + tail) == Some(SkipVarint(input).value + tail)
  {
    assert (input + tail)[1..] == input[1..] + tail;
    if input[0] >= 128 {
      SkipVarintExtends(input[1..], tail);
    }
  }

  lemma {:induction false} SliceExtends(input: seq<Byte>, tail: seq<Byte>)
    requires GetLengthPrefixedSlice(input).Got?
    ensures GetLengthPrefixedSlice(input + tail)
         == Got(GetLengthPrefixedSlice(input).value, GetLengthPrefixedSlice(input).rest + tail)
  {
    hide ParseVarint;
    VarintExtends(input, 5, tail);
    var length, rest := GetVarint32(input).value, GetVarint32(input).rest;
    assert (rest + tail)[..length] == rest[..length];
    assert (rest + tail)[length..] == rest[length..] + tail;
  }

  lemma {:induction false} SkipExtends(input: seq<Byte>, wireType: nat, tail: seq<Byte>)
    requires SkipField(input, wireType).Some?
    ensures SkipField(input + tail, wireType) == Some(SkipField(input, wireType).value + tail)
  {
    hide GetLengthPrefixedSlice, SkipVarint;
    match wireType
    case 0 => SkipVarintExtends(input, tail);
    case 1 => assert (input + tail)[8..] == input[8..] + tail;
    case 2 => SliceExtends(input, tail);
    case 5 => assert (input + tail)[4..] == input[4..] + tail;
    case _ =>
  }

  lemma {:induction false} FixedExtends(input: seq<Byte>, tail: seq<Byte>)
    ensures |input| >= 4 ==> DecodeFixed32(input + tail) == DecodeFixed32(input) && (input + tail)[4..] == input[4..] + tail
    ensures |input| >= 8 ==> DecodeFixed64(input + tail) == DecodeFixed64(input) && (input + tail)[8..] == input[8..] + tail
  {
    if |input| >= 4 {
      assert (input + tail)[4..] == input[4..] + tail;
    }
  }

  lemma {:induction false} ValueExtends(f: Field, input: seq<Byte>, current: Value, tail: seq<Byte>)
    requires DecodeValue(f, input, current).Got?
    ensures DecodeValue(f, input + tail, current)
         == Got(DecodeValue(f, input, current).value, DecodeValue(f, input, current).rest + tail)
  {
    hide DecodeFields, Defaults, GetLengthPrefixedSlice, ParseVarint, DecodeFixed32, DecodeFixed64, UnZigZag, SignedField;
    match f.ltype
    case VarintType => VarintExtends(input, 10, tail);
    case UvarintType => VarintExtends(input, 10, tail);
    case SvarintType => VarintExtends(input, 10, tail);
    case Fixed32Type => FixedExtends(input, tail);
    case Fixed64Type => FixedExtends(input, tail);
    case BytesType => SliceExtends(input, tail);
    case StringType => SliceExtends(input, tail);
    case FixedLengthBytesType => SliceExtends(input, tail);
    case SubmessageType => SliceExtends(input, tail);
  }

  lemma {:induction false} SlotExtends(f: Field, wireType: nat, input: seq<Byte>, slot: Slot, tail: seq<Byte>)
    requires DecodeSlot(f, wireType, input, slot).Got?
    ensures DecodeSlot(f, wireType, input + tail, slot)
         == Got(DecodeSlot(f, wireType, input, slot).value, DecodeSlot(f, wireType, input, slot).rest + tail)
  {
    hide DecodeValue, DecodePacked, Defaults, GetLengthPrefixedSlice;
    match f.htype
    case Required => ValueExtends(f, input, CurrentOf(slot), tail);
    case Optional => ValueExtends(f, input, CurrentOf(slot), tail);
    case Repeated =>
      if wireType == 2 && f.ltype.Packable() {
        SliceExtends(input, tail);
      } else {
        ValueExtends(f, input, Unset, tail);
      }
    case Oneof => ValueExtends(f, input, if f.ltype == SubmessageType then Defaults(f.sub) else CurrentOf(slot), tail);
  }

  // ---------- which values fit ----------

  /** Bytes, strings and arrays of fixed length on the wire are taken exactly when they fit: strings with their terminator,
      which ends them early if they hold one, and fixed lengths also empty, as zeros. */
  lemma {:induction false} DataIsTaken(f: Field, bytes: seq<Byte>, tail: seq<Byte>, current: Value)
    requires |bytes| < 0x1_0000_0000
    ensures f.ltype == BytesType ==>
              DecodeValue(f, LengthPrefixed(bytes) + tail, current)
              == if |bytes| + 4 <= f.dataSize then Got(Data(bytes), tail) else Failed
    ensures f.ltype == StringType ==> forall n: nat | n <= |bytes| && 0 !in bytes[..n] && (n < |bytes| ==> bytes[n] == 0) ::
              DecodeValue(f, LengthPrefixed(bytes) + tail, current)
              == if |bytes| < f.dataSize then Got(Data(bytes[..n]), tail) else Failed
    ensures f.ltype == FixedLengthBytesType && bytes != [] ==>
              DecodeValue(f, LengthPrefixed(bytes) + tail, current)
              == if |bytes| == f.dataSize then Got(Data(bytes), tail) else Failed
    ensures f.ltype == FixedLengthBytesType && bytes == [] ==>
              DecodeValue(f, LengthPrefixed(bytes) + tail, current) == Got(Data(seq(f.dataSize, _ => 0)), tail)
  {
    hide LengthPrefixed, GetLengthPrefixedSlice, Text;
    SliceRoundTrip(bytes, tail);
    forall n: nat | n <= |bytes| && 0 !in bytes[..n] && (n < |bytes| ==> bytes[n] == 0) ensures Text(bytes) == bytes[..n] {
      TextIs(bytes, n);
    }
  }

  lemma {:induction false} TextIs(bytes: seq<Byte>, n: nat)
    requires n <= |bytes| && 0 !in bytes[..n] && (n < |bytes| ==> bytes[n] == 0)
    ensures Text(bytes) == bytes[..n]
  {
    if n > 0 {
      assert bytes[0] == bytes[..n][0];
      assert bytes[1..][..n - 1] == bytes[..n][1..];
      TextIs(bytes[1..], n - 1);
    }
  }

  /** An unsigned number is taken exactly when it fits its field; of a signed one that is shorter than 64 bits the low
      32 bits are taken, whatever stands above them. */
  lemma {:induction false} NumbersAreTaken(f: Field, n: DoubleWord, low: int, high: nat, tail: seq<Byte>, current: Value)
    requires f.ltype == UvarintType || (f.ltype == VarintType && f.dataSize < 8)
    requires -0x8000_0000 <= low < 0x8000_0000
    requires n == (if low < 0 then low + 0x1_0000_0000 else low) + 0x1_0000_0000 * high
    ensures DecodeValue(f, Varint(n) + tail, current)
         == if f.ltype == UvarintType then
              if AllowedSize(f.dataSize) && FitsUnsigned(f.dataSize, n) then Got(Number(n), tail) else Failed
            else if AllowedSize(f.dataSize) && FitsSigned(f.dataSize, low) then Got(Number(low), tail)
            else Failed
  {
    hide Varint, GetVarint64;
    Varint64RoundTrip(n, tail);
    assert AsSigned32(n) == low;
  }

  // ---------- fields that come again ----------

  /** A number, a string, or a member of a union is what came last: memory does not matter. */
  lemma {:induction false} LastOneStays(f: Field, wireType: nat, input: seq<Byte>, slot: Slot, other: Slot)
    requires f.htype != Repeated && (f.ltype == SubmessageType ==> f.htype == Oneof)
    ensures DecodeSlot(f, wireType, input, slot) == DecodeSlot(f, wireType, input, other)
  {
    hide Defaults, DecodeFields, GetLengthPrefixedSlice, GetVarint64, SignedField, UnZigZag, DecodeFixed32, DecodeFixed64;
  }

  lemma {:induction false} PackedAppends(f: Field, input: seq<Byte>, items: seq<Value>, more: seq<Value>)
    requires |items| + |more| <= f.arraySize
    ensures match DecodePacked(f, input, more)
            case None => DecodePacked(f, input, items + more) == None
            case Some(r) =>
              && more <= r && (input != [] ==> |r| > |more|)
              && DecodePacked(f, input, items + more) == if |items| + |r| <= f.arraySize then Some(items + r) else None
    decreases |input|
  {
    hide DecodeValue;
    if input != [] && |more| < f.arraySize {
      var v := DecodeValue(f, input, Unset);
      if v.Got? {
        assert items + (more + [v.value]) == items + more + [v.value];
        if |items| + |more| < f.arraySize {
          PackedAppends(f, v.rest, items, more + [v.value]);
        } else {
          PackedAppends(f, v.rest, [], more + [v.value]);
        }
      }
    }
  }

  /** Items, packed or one by one, are appended to those that came before, as long as all of them find room. */
  lemma {:induction false} ItemsAreAppended(f: Field, wireType: nat, input: seq<Byte>, items: seq<Value>)
    requires f.htype == Repeated && |items| <= f.arraySize
    ensures match DecodeSlot(f, wireType, input, Many([]))
            case Failed => DecodeSlot(f, wireType, input, Many(items)) == Failed
            case Got(added, rest) =>
              && added.Many?
              && DecodeSlot(f, wireType, input, Many(items))
                 == if |items| + |added.items| <= f.arraySize then Got(Many(items + added.items), rest) else Failed
  {
    hide DecodeValue, DecodePacked, GetLengthPrefixedSlice;
    assert items + [] == items;
    if wireType == 2 && f.ltype.Packable() {
      if GetLengthPrefixedSlice(input).Got? {
        PackedAppends(f, GetLengthPrefixedSlice(input).value, items, []);
      }
    } else if DecodeValue(f, input, Unset).Got? {
      assert items + ([] + [DecodeValue(f, input, Unset).value]) == items + [DecodeValue(f, input, Unset).value];
    }
  }

  /** Messages one after the other, when the first ends with its bytes: the second is read on top of the first. */
  lemma {:induction false} FieldsConcatenate(d: Descriptor, a: seq<Byte>, b: seq<Byte>, slots: map<nat, Slot>)
    requires Fields(d, a, slots).Some? && Fields(d, a, slots).value.left == []
    ensures var came := Fields(d, a, slots).value;
            Fields(d, a + b, slots)
            == match Fields(d, b, came.slots)
               case None => None
               case Some(more) => Some(more.(tags := came.tags + more.tags))
    decreases |a|
  {
    hide FieldAt, GetVarint32;
    if a == [] {
      assert a + b == b;
      var more := Fields(d, b, slots);
      assert more.Some? ==> [] + more.value.tags == more.value.tags;
    } else {
      KeyExtends(a, b);
      var key, rest := GetVarint32(a).value, GetVarint32(a).rest;
      var (slots', rest') := FieldAt(d, key, rest, slots).value;
      FieldExtends(d, key, rest, slots, b);
      FieldsConcatenate(d, rest', b, slots');
      var came := Fields(d, rest', slots').value;
      var more := Fields(d, b, came.slots);
      assert more.Some? ==> [key / 8] + (came.tags + more.value.tags) == [key / 8] + came.tags + more.value.tags;
    }
  }

  lemma {:induction false} KeyExtends(input: seq<Byte>, tail: seq<Byte>)
    requires GetVarint32(input).Got?
    ensures GetVarint32(input + tail) == Got(GetVarint32(input).value, GetVarint32(input).rest + tail)
  {
    VarintExtends(input, 5, tail);
  }

  lemma {:induction false} FieldExtends(d: Descriptor, key: nat, rest: seq<Byte>, slots: map<nat, Slot>, tail: seq<Byte>)
    requires FieldAt(d, key, rest, slots).Some?
    ensures FieldAt(d, key, rest + tail, slots)
         == Some((FieldAt(d, key, rest, slots).value.0, FieldAt(d, key, rest, slots).value.1 + tail))
  {
    hide DecodeSlot, SkipField, WithSlot;
    match IndexOf(d.fields, key / 8)
    case None => SkipExtends(rest, key % 8, tail);
    case Some(i) => SlotExtends(d.fields[i], key % 8, rest, WithSlot(d, slots, d.fields[i]), tail);
  }

  /** A submessage that comes in two parts is the submessage of both parts together, if the first can stand alone. */
  lemma {:induction false} SubmessagePartsMerge(f: Field, a: seq<Byte>, b: seq<Byte>, current: Value, tail: seq<Byte>)
    requires f.ltype == SubmessageType && f.htype != Repeated && Sound(f.sub) && |a| + |b| < 0x1_0000_0000
    requires Fields(f.sub, a, SlotsOf(current)).Some? && Fields(f.sub, a, SlotsOf(current)).value.left == []
    ensures var first := DecodeValue(f, LengthPrefixed(a), current);
            first.Got? ==>
              var second := DecodeValue(f, LengthPrefixed(b) + tail, first.value);
              second.Got? ==> DecodeValue(f, LengthPrefixed(a + b) + tail, current) == second
  {
    hide Fields, GetLengthPrefixedSlice, LengthPrefixed, Sound, DecodeValue, HasRequired;
    SliceRoundTrip(a, []);
    assert LengthPrefixed(a) + [] == LengthPrefixed(a);
    SliceRoundTrip(b, tail);
    SliceRoundTrip(a + b, tail);
    SubmessagesNeedRequired(f, LengthPrefixed(a), current);
    SubmessagesNeedRequired(f, LengthPrefixed(a + b) + tail, current);
    FieldsConcatenate(f.sub, a, b, SlotsOf(current));
    var first := DecodeValue(f, LengthPrefixed(a), current);
    if first.Got? {
      SubmessagesNeedRequired(f, LengthPrefixed(b) + tail, first.value);
      var came := Fields(f.sub, a, SlotsOf(current)).value;
      MoreTags(f.sub, came.tags);
    }
  }

  lemma {:induction false} MoreTags(d: Descriptor, tags: seq<nat>)
    requires HasRequired(d, tags)
    ensures forall more :: HasRequired(d, tags + more)
  {
  }
}
