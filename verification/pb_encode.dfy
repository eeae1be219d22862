/** The two-pass encoder: a sizing pass over a submessage, then its length, then the bytes. */
module PbEncode {
  import opened Coding
  import opened PbFields

  datatype Encoded = Ok(bytes: seq<Byte>) | Err

  datatype Status = Done | StreamFull | ArrayMaxSizeExceeded | BytesSizeExceeded | InvalidDataSize | SubmsgSizeChanged

  // ---------- the bytes of a message ----------

  function Then(a: Encoded, b: Encoded): Encoded {
    if a.Ok? && b.Ok? then Ok(a.bytes + b.bytes) else Err
  }

  /** A length, and as many bytes. */
  function Delimited(a: Encoded): Encoded {
    if a.Ok? then Ok(Varint(|a.bytes|) + a.bytes) else Err
  }

  /** The wire type of a single value. */
  function WireType(ltype: LType): (w: nat)
    ensures w < 8
  {
    match ltype
    case Fixed32Type => 5
    case Fixed64Type => 1
    case BytesType => 2
    case StringType => 2
    case SubmessageType => 2
    case FixedLengthBytesType => 2
    case _ => 0
  }

  function TagBytes(tag: nat, wireType: nat): seq<Byte> {
    Varint(8 * tag + wireType)
  }

  /** The bits of a signed number as an unsigned one. */
  function AsUnsigned(n: int): (r: DoubleWord) {
    n % 0x1_0000_0000_0000_0000
  }

  function ZigZag(n: int): (r: DoubleWord) {
    var shifted := AsUnsigned(n) * 2 % 0x1_0000_0000_0000_0000;
    if n < 0 then 0xFFFF_FFFF_FFFF_FFFF - shifted else shifted
  }

  function EncodeValue(f: Field, v: Value): Encoded
    decreases f, 0, 0
  {
    match f.ltype
    case VarintType => if v.Number? && AllowedSize(f.dataSize) then Ok(Varint(AsUnsigned(v.n))) else Err
    case UvarintType => if v.Number? && AllowedSize(f.dataSize) then Ok(Varint(AsUnsigned(v.n))) else Err
    case SvarintType => if v.Number? && AllowedSize(f.dataSize) then Ok(Varint(ZigZag(v.n))) else Err
    case Fixed32Type => if v.Number? then Ok(EncodeFixed32(v.n % 0x1_0000_0000)) else Err
    case Fixed64Type => if v.Number? then Ok(EncodeFixed64(AsUnsigned(v.n))) else Err
    case BytesType =>
      if v.Data? && |v.bytes| + SizeWidth <= f.dataSize then Delimited(Ok(v.bytes)) else Err
    case StringType => if v.Data? then Delimited(Ok(v.bytes)) else Err
    case FixedLengthBytesType => if v.Data? then Delimited(Ok(v.bytes)) else Err
    case SubmessageType => Delimited(EncodeMessage(f.sub, v))
  }

  /** The items from the i-th on, without tags. */
  function Packed(f: Field, items: seq<Value>, i: nat): Encoded
    requires i <= |items|
    decreases f, 1, |items| - i
  {
    if i == |items| then Ok([]) else Then(EncodeValue(f, items[i]), Packed(f, items, i + 1))
  }

  function TaggedValue(f: Field, v: Value): Encoded
    decreases f, 1, 0
  {
    Then(Ok(TagBytes(f.tag, WireType(f.ltype))), EncodeValue(f, v))
  }

  /** The items from the i-th on, each after its tag. */
  function Tagged(f: Field, items: seq<Value>, i: nat): Encoded
    requires i <= |items|
    decreases f, 2, |items| - i
  {
    if i == |items| then Ok([]) else Then(TaggedValue(f, items[i]), Tagged(f, items, i + 1))
  }

  function EncodeArray(f: Field, items: seq<Value>): Encoded
    decreases f, 3, 0
  {
    if items == [] then Ok([])
    else if |items| > f.arraySize then Err
    else if f.ltype.Packable() then Then(Ok(TagBytes(f.tag, 2)), Delimited(Packed(f, items, 0)))
    else Tagged(f, items, 0)
  }

  function EncodeSlot(f: Field, s: Slot): Encoded
    decreases f, 4, 0
  {
    match f.htype
    case Required => if s.One? then TaggedValue(f, s.value) else Err
    case Optional => if !s.Maybe? then Err else if s.has then TaggedValue(f, s.value) else Ok([])
    case Repeated => if s.Many? then EncodeArray(f, s.items) else Err
    case Oneof => if !s.Which? then Err else if s.tag == f.tag then TaggedValue(f, s.value) else Ok([])
  }

  /** The fields from the i-th on. */
  function EncodeFrom(d: Descriptor, slots: map<nat, Slot>, i: nat): Encoded
    requires i <= |d.fields|
    decreases d, 0, |d.fields| - i
  {
    if i == |d.fields| then Ok([])
    else if d.fields[i].slot !in slots then Err
    else Then(EncodeSlot(d.fields[i], slots[d.fields[i].slot]), EncodeFrom(d, slots, i + 1))
  }

  function EncodeMessage(d: Descriptor, m: Value): Encoded
    decreases d, 1, 0
  {
    if m.Message? then EncodeFrom(d, m.slots, 0) else Err
  }

  lemma {:induction false} ThenAssociates(a: Encoded, b: Encoded, c: Encoded)
    ensures Then(Then(a, b), c) == Then(a, Then(b, c))
  {
    if a.Ok? && b.Ok? && c.Ok? {
      assert a.bytes + b.bytes + c.bytes == a.bytes + (b.bytes + c.bytes);
    }
  }

  lemma {:induction false} FixedWidthItems(f: Field, items: seq<Value>, i: nat)
    requires i <= |items| && (f.ltype == Fixed32Type || f.ltype == Fixed64Type)
    requires Packed(f, items, i).Ok?
    ensures |Packed(f, items, i).bytes| == (if f.ltype == Fixed32Type then 4 else 8) * (|items| - i)
    decreases |items| - i
  {
    hide EncodeFixed32, EncodeFixed64;
    if i < |items| {
      FixedWidthItems(f, items, i + 1);
    }
  }

  lemma {:induction false} FixedWidthEncodes(f: Field, items: seq<Value>, i: nat)
    requires i <= |items| && (f.ltype == Fixed32Type || f.ltype == Fixed64Type)
    requires forall k | 0 <= k < |items| :: items[k].Number?
    ensures Packed(f, items, i).Ok?
    decreases |items| - i
  {
    hide EncodeFixed32, EncodeFixed64;
    if i < |items| {
      FixedWidthEncodes(f, items, i + 1);
    }
  }

  // ---------- varints in a loop ----------

  /** All groups of seven bits with the high bit set. */
  function Continued(v: nat): seq<Byte> {
    if v == 0 then [] else [v % 128 + 128] + Continued(v / 128)
  }

  lemma {:induction false} LastUncontinued(v: nat)
    requires v > 0
    ensures var c := Continued(v); c != [] && c[|c| - 1] >= 128 && Varint(v) == c[..|c| - 1] + [c[|c| - 1] - 128]
  {
    var c := Continued(v);
    if v < 128 {
      assert Continued(v / 128) == [];
    } else {
      LastUncontinued(v / 128);
      var rest := Continued(v / 128);
      assert c == [v % 128 + 128] + rest && c[|c| - 1] == rest[|rest| - 1];
      assert c[..|c| - 1] == [v % 128 + 128] + rest[..|rest| - 1];
    }
  }

  // ---------- streams ----------

  /** What a stream holds: without a callback it only counts. */
  datatype Output = Output(sizing: bool, maxSize: nat, written: nat, bytes: seq<Byte>)

  /** Going from s to t wrote what was to be written, unless it is refused or does not fit. */
  ghost predicate Wrote(e: Encoded, s: Output, t: Output, ok: bool) {
    && t.sizing == s.sizing && t.maxSize == s.maxSize && (s.sizing || t.written <= t.maxSize)
    && (ok <==> e.Ok? && (s.sizing || s.written + |e.bytes| <= s.maxSize))
    && (ok ==> t.written == s.written + |e.bytes| && t.bytes == if s.sizing then s.bytes else s.bytes + e.bytes)
  }

  lemma {:induction false} WroteThen(a: Encoded, b: Encoded, s: Output, t: Output, u: Output, ok: bool)
    requires Wrote(a, s, t, true) && Wrote(b, t, u, ok)
    ensures Wrote(Then(a, b), s, u, ok)
  {
    if b.Ok? {
      assert s.bytes + a.bytes + b.bytes == s.bytes + (a.bytes + b.bytes);
    }
  }

  lemma {:induction false} StoppedBefore(a: Encoded, b: Encoded, s: Output, t: Output)
    requires Wrote(a, s, t, false)
    ensures Wrote(Then(a, b), s, t, false)
  {
  }

  class OStream {
    const sizing: bool
    var maxSize: nat
    var written: nat
    /** What `state` points past: everything put into the buffer so far. */
    var out: seq<Byte>

    function Now(): Output
      reads this
    {
      Output(sizing, maxSize, written, out)
    }

    ghost predicate Valid()
      reads this
    {
      sizing || written <= maxSize
    }

    constructor Sizing()
      ensures Valid() && Now() == Output(true, 0, 0, [])
    {
      sizing, maxSize, written, out := true, 0, 0, [];
    }

    /** A stream that goes on behind what is in a buffer, for so many bytes. */
    constructor Writing(out: seq<Byte>, maxSize: nat)
      ensures Valid() && Now() == Output(false, maxSize, 0, out)
    {
      sizing, this.maxSize, written, this.out := false, maxSize, 0, out;
    }

    method Write(buf: seq<Byte>) returns (status: Status)
      requires Valid()
      modifies this
      ensures Valid() && Wrote(Ok(buf), old(Now()), Now(), status.Done?) && status != SubmsgSizeChanged
    {
      if !sizing {
        if written + |buf| > maxSize {
          return StreamFull;
        }
        out := out + buf;
      }
      written := written + |buf|;
      return Done;
    }

    /** pb_write with no data on a sizing stream. */
    method Count(size: nat)
      requires Valid() && sizing
      modifies this
      ensures Valid() && Now() == old(Now()).(written := old(written) + size)
    {
      written := written + size;
    }

    method EncodeVarint(value: nat) returns (status: Status)
      requires Valid()
      modifies this
      ensures Valid() && Wrote(Ok(Varint(value)), old(Now()), Now(), status.Done?) && status != SubmsgSizeChanged
    {
      if value <= 0x7F {
        status := Write([value]);
        return;
      }
      var buffer: seq<Byte> := [];
      var v := value;
      while v != 0
        invariant buffer + Continued(v) == Continued(value)
        invariant Valid() && Now() == old(Now())
        decreases v
      {
        assert buffer + [v % 128 + 128] + Continued(v / 128) == buffer + Continued(v);
        buffer := buffer + [v % 128 + 128];
        v := v / 128;
      }
      LastUncontinued(value);
      buffer := buffer[..|buffer| - 1] + [buffer[|buffer| - 1] - 128];
      status := Write(buffer);
    }

    method EncodeString(bytes: seq<Byte>) returns (status: Status)
      requires Valid()
      modifies this
      ensures Valid() && Wrote(Delimited(Ok(bytes)), old(Now()), Now(), status.Done?) && status != SubmsgSizeChanged
    {
      ghost var before := Now();
      status := EncodeVarint(|bytes|);
      if status.Done? {
        ghost var between := Now();
        status := Write(bytes);
        WroteThen(Ok(Varint(|bytes|)), Ok(bytes), before, between, Now(), status.Done?);
      } else {
        StoppedBefore(Ok(Varint(|bytes|)), Ok(bytes), before, Now());
      }
    }

    // ---------- fields ----------

    method EncodeItem(f: Field, v: Value) returns (status: Status)
      requires Valid() && Typed(f, v)
      modifies this
      ensures Valid() && Wrote(EncodeValue(f, v), old(Now()), Now(), status.Done?) && status != SubmsgSizeChanged
      decreases f, 0, 0
    {
      hide EncodeFixed32, EncodeFixed64, Wrote, ZigZag, Varint;
      match f.ltype
      case VarintType => status := EncodeNumber(f, v.n, AsUnsigned(v.n));
      case UvarintType => status := EncodeNumber(f, v.n, AsUnsigned(v.n));
      case SvarintType => status := EncodeNumber(f, v.n, ZigZag(v.n));
      case Fixed32Type => status := Write(EncodeFixed32(v.n % 0x1_0000_0000));
      case Fixed64Type => status := Write(EncodeFixed64(AsUnsigned(v.n)));
      case BytesType =>
        if |v.bytes| + SizeWidth > f.dataSize {
          Refused(Now());
          return BytesSizeExceeded;
        }
        status := EncodeString(v.bytes);
      case StringType => status := EncodeString(v.bytes);
      case FixedLengthBytesType => status := EncodeString(v.bytes);
      case SubmessageType => status := EncodeSubmessage(f.sub, v);
    }

    lemma {:induction false} Refused(s: Output)
      requires s.sizing || s.written <= s.maxSize
      ensures Wrote(Err, s, s, false)
    {
    }

    method EncodeNumber(f: Field, ghost n: int, bits: DoubleWord) returns (status: Status)
      requires Valid()
      modifies this
      ensures Valid() && status != SubmsgSizeChanged
      ensures Wrote(if AllowedSize(f.dataSize) then Ok(Varint(bits)) else Err, old(Now()), Now(), status.Done?)
    {
      if !AllowedSize(f.dataSize) {
        return InvalidDataSize;
      }
      status := EncodeVarint(bits);
    }

    /** The size found by the first pass is what the second pass writes. */
    method EncodeSubmessage(d: Descriptor, m: Value) returns (status: Status)
      requires Valid() && TypedMessage(d, m)
      modifies this
      ensures Valid() && status != SubmsgSizeChanged
      ensures Wrote(Delimited(EncodeMessage(d, m)), old(Now()), Now(), status.Done?)
      decreases d, 2, 0
    {
      ghost var e := EncodeMessage(d, m);
      ghost var before := Now();
      var counter := new OStream.Sizing();
      status := counter.Encode(d, m);
      if !status.Done? {
        return;
      }
      var size := counter.written;
      status := EncodeVarint(size);
      if !status.Done? {
        return;
      }
      if sizing {
        Count(size);
        return;
      }
      if written + size > maxSize {
        return StreamFull;
      }
      var substream := new OStream.Writing(out, size);
      status := substream.Encode(d, m);
      written := written + substream.written;
      out := substream.out;
      assert before.bytes + Varint(size) + e.bytes == before.bytes + (Varint(size) + e.bytes);
      if substream.written != size {
        return SubmsgSizeChanged;
      }
    }

    method EncodeTag(tag: nat, wireType: nat) returns (status: Status)
      requires Valid()
      modifies this
      ensures Valid() && status != SubmsgSizeChanged
      ensures Wrote(Ok(TagBytes(tag, wireType)), old(Now()), Now(), status.Done?)
    {
      status := EncodeVarint(8 * tag + wireType);
    }

    method EncodeTagged(f: Field, v: Value) returns (status: Status)
      requires Valid() && Typed(f, v)
      modifies this
      ensures Valid() && Wrote(TaggedValue(f, v), old(Now()), Now(), status.Done?) && status != SubmsgSizeChanged
      decreases f, 1, 0
    {
      hide EncodeValue, Typed, Wrote, TagBytes;
      ghost var before := Now();
      ghost var t := Ok(TagBytes(f.tag, WireType(f.ltype)));
      status := EncodeTag(f.tag, WireType(f.ltype));
      if status.Done? {
        ghost var between := Now();
        status := EncodeItem(f, v);
        WroteThen(t, EncodeValue(f, v), before, between, Now(), status.Done?);
      } else {
        StoppedBefore(t, EncodeValue(f, v), before, Now());
      }
    }

    /** The items one after the other, without tags. */
    method WriteItems(f: Field, items: seq<Value>) returns (status: Status)
      requires Valid() && forall k | 0 <= k < |items| :: Typed(f, items[k])
      modifies this
      ensures Valid() && Wrote(Packed(f, items, 0), old(Now()), Now(), status.Done?) && status != SubmsgSizeChanged
      decreases f, 1, |items|
    {
      hide EncodeValue, Typed, Wrote, Then;
      ghost var before := Now();
      ghost var prefix := Ok([]);
      NothingYet(before, Packed(f, items, 0));
      for i := 0 to |items|
        invariant Valid() && Wrote(prefix, before, Now(), true)
        invariant Then(prefix, Packed(f, items, i)) == Packed(f, items, 0)
      {
        ghost var between := Now();
        ghost var e := EncodeValue(f, items[i]);
        ThenAssociates(prefix, e, Packed(f, items, i + 1));
        status := EncodeItem(f, items[i]);
        WroteThen(prefix, e, before, between, Now(), status.Done?);
        if !status.Done? {
          StoppedBefore(Then(prefix, e), Packed(f, items, i + 1), before, Now());
          return;
        }
        prefix := Then(prefix, e);
      }
      NothingLeft(prefix);
      status := Done;
    }

    method WriteTagged(f: Field, items: seq<Value>) returns (status: Status)
      requires Valid() && forall k | 0 <= k < |items| :: Typed(f, items[k])
      modifies this
      ensures Valid() && Wrote(Tagged(f, items, 0), old(Now()), Now(), status.Done?) && status != SubmsgSizeChanged
      decreases f, 2, |items|
    {
      hide TaggedValue, Typed, Wrote, Then;
      ghost var before := Now();
      ghost var prefix := Ok([]);
      NothingYet(before, Tagged(f, items, 0));
      for i := 0 to |items|
        invariant Valid() && Wrote(prefix, before, Now(), true)
        invariant Then(prefix, Tagged(f, items, i)) == Tagged(f, items, 0)
      {
        ghost var between := Now();
        ghost var e := TaggedValue(f, items[i]);
        ThenAssociates(prefix, e, Tagged(f, items, i + 1));
        status := EncodeTagged(f, items[i]);
        WroteThen(prefix, e, before, between, Now(), status.Done?);
        if !status.Done? {
          StoppedBefore(Then(prefix, e), Tagged(f, items, i + 1), before, Now());
          return;
        }
        prefix := Then(prefix, e);
      }
      NothingLeft(prefix);
      status := Done;
    }

    /** The length of a packed array, then its items; a stream that only counts is told their size. */
    method WritePacked(f: Field, items: seq<Value>) returns (status: Status)
      requires Valid() && f.ltype.Packable() && forall k | 0 <= k < |items| :: Typed(f, items[k])
      modifies this
      ensures Valid() && status != SubmsgSizeChanged
      ensures Wrote(Delimited(Packed(f, items, 0)), old(Now()), Now(), status.Done?)
      decreases f, 2, 0
    {
      hide EncodeValue, Packed, Varint;
      ghost var e := Packed(f, items, 0);
      ghost var before := Now();
      var size;
      if f.ltype == Fixed32Type {
        FixedWidthEncodes(f, items, 0);
        FixedWidthItems(f, items, 0);
        size := 4 * |items|;
      } else if f.ltype == Fixed64Type {
        FixedWidthEncodes(f, items, 0);
        FixedWidthItems(f, items, 0);
        size := 8 * |items|;
      } else {
        var counter := new OStream.Sizing();
        status := counter.WriteItems(f, items);
        if !status.Done? {
          return;
        }
        size := counter.written;
      }
      assert e.Ok? && |e.bytes| == size;
      status := EncodeVarint(size);
      if !status.Done? {
        return;
      }
      if sizing {
        Count(size);
        return Done;
      }
      ghost var between := Now();
      status := WriteItems(f, items);
      WroteThen(Ok(Varint(size)), e, before, between, Now(), status.Done?);
    }

    method WriteArray(f: Field, items: seq<Value>) returns (status: Status)
      requires Valid() && forall k | 0 <= k < |items| :: Typed(f, items[k])
      modifies this
      ensures Valid() && status != SubmsgSizeChanged
      ensures Wrote(EncodeArray(f, items), old(Now()), Now(), status.Done?)
      decreases f, 3, 0
    {
      hide EncodeValue, Packed, Tagged, Delimited, TagBytes;
      if |items| == 0 {
        assert EncodeArray(f, items) == Ok([]);
        return Done;
      }
      if |items| > f.arraySize {
        return ArrayMaxSizeExceeded;
      }
      if f.ltype.Packable() {
        ghost var before := Now();
        ghost var e := Delimited(Packed(f, items, 0));
        status := EncodeTag(f.tag, 2);
        if !status.Done? {
          StoppedBefore(Ok(TagBytes(f.tag, 2)), e, before, Now());
          return;
        }
        ghost var between := Now();
        status := WritePacked(f, items);
        WroteThen(Ok(TagBytes(f.tag, 2)), e, before, between, Now(), status.Done?);
      } else {
        status := WriteTagged(f, items);
      }
    }

    /** encode_basic_field on a static field. */
    method EncodeField(f: Field, s: Slot) returns (status: Status)
      requires Valid() && TypedSlot(f, s)
      modifies this
      ensures Valid() && status != SubmsgSizeChanged
      ensures Wrote(EncodeSlot(f, s), old(Now()), Now(), status.Done?)
      decreases f, 4, 0
    {
      hide TaggedValue, EncodeArray, Typed;
      match f.htype
      case Required => status := EncodeTagged(f, s.value);
      case Optional =>
        if s.has {
          status := EncodeTagged(f, s.value);
        } else {
          status := Done;
        }
      case Repeated => status := WriteArray(f, s.items);
      case Oneof =>
        if s.tag == f.tag {
          status := EncodeTagged(f, s.value);
        } else {
          status := Done;
        }
    }

    /** pb_encode: every field in turn. */
    method Encode(d: Descriptor, m: Value) returns (status: Status)
      requires Valid() && TypedMessage(d, m)
      modifies this
      ensures Valid() && status != SubmsgSizeChanged
      ensures Wrote(EncodeMessage(d, m), old(Now()), Now(), status.Done?)
      decreases d, 1, 0
    {
      hide EncodeSlot, TypedSlot, Wrote, Then;
      ghost var before := Now();
      ghost var prefix := Ok([]);
      NothingYet(before, EncodeFrom(d, m.slots, 0));
      for i := 0 to |d.fields|
        invariant Valid() && Wrote(prefix, before, Now(), true)
        invariant Then(prefix, EncodeFrom(d, m.slots, i)) == EncodeFrom(d, m.slots, 0)
      {
        var f := d.fields[i];
        ghost var between := Now();
        ghost var e := EncodeSlot(f, m.slots[f.slot]);
        ThenAssociates(prefix, e, EncodeFrom(d, m.slots, i + 1));
        status := EncodeField(f, m.slots[f.slot]);
        WroteThen(prefix, e, before, between, Now(), status.Done?);
        if !status.Done? {
          StoppedBefore(Then(prefix, e), EncodeFrom(d, m.slots, i + 1), before, Now());
          return;
        }
        prefix := Then(prefix, e);
      }
      NothingLeft(prefix);
      status := Done;
    }
  }

  lemma {:induction false} NothingYet(s: Output, rest: Encoded)
    requires s.sizing || s.written <= s.maxSize
    ensures Wrote(Ok([]), s, s, true) && Then(Ok([]), rest) == rest
  {
    assert s.bytes + [] == s.bytes;
    if rest.Ok? {
      assert [] + rest.bytes == rest.bytes;
    }
  }

  lemma {:induction false} NothingLeft(prefix: Encoded)
    ensures Then(prefix, Ok([])) == prefix
  {
    if prefix.Ok? {
      assert prefix.bytes + [] == prefix.bytes;
    }
  }

  /** pb_get_encoded_size: what it returns is what any large enough buffer receives. */
  method GetEncodedSize(d: Descriptor, m: Value) returns (size: nat, status: Status)
    requires TypedMessage(d, m)
    ensures status.Done? <==> EncodeMessage(d, m).Ok?
    ensures status.Done? ==> size == |EncodeMessage(d, m).bytes|
  {
    var stream := new OStream.Sizing();
    status := stream.Encode(d, m);
    size := stream.written;
  }
}
