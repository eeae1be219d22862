/** Little-endian fixed-width integers, varints and length-prefixed slices. */
module Coding {
  type Byte = b: int | 0 <= b < 0x100
  type Word = w: int | 0 <= w < 0x1_0000_0000
  type DoubleWord = w: int | 0 <= w < 0x1_0000_0000_0000_0000

  /** The outcome of taking something off the front of a slice. */
  datatype Parsed<T> = Failed | Got(value: T, rest: seq<Byte>)

  function Zeros(n: nat): (r: seq<Byte>)
    ensures |r| == n
  {
    seq(n, _ => 0)
  }

  // ---------- fixed width ----------

  function EncodeFixed32(w: Word): (r: seq<Byte>)
    ensures |r| == 4
  {
    [w % 0x100, w / 0x100 % 0x100, w / 0x1_0000 % 0x100, w / 0x100_0000]
  }

  function DecodeFixed32(b: seq<Byte>): Word
    requires |b| >= 4
  {
    (b[0] as int) + 0x100 * (b[1] as int) + 0x1_0000 * (b[2] as int) + 0x100_0000 * (b[3] as int)
  }

  function EncodeFixed64(w: DoubleWord): (r: seq<Byte>)
    ensures |r| == 8
  {
    EncodeFixed32(w % 0x1_0000_0000) + EncodeFixed32(w / 0x1_0000_0000)
  }

  function DecodeFixed64(b: seq<Byte>): DoubleWord
    requires |b| >= 8
  {
    (DecodeFixed32(b) as int) + 0x1_0000_0000 * (DecodeFixed32(b[4..]) as int)
  }

  lemma {:induction false} Fixed32RoundTrip(w: Word)
    ensures DecodeFixed32(EncodeFixed32(w)) == w
  {
    assert w / 0x1_0000 == w / 0x100 / 0x100 && w / 0x100_0000 == w / 0x1_0000 / 0x100;
  }

  lemma {:induction false} Fixed64RoundTrip(w: DoubleWord)
    ensures DecodeFixed64(EncodeFixed64(w)) == w
  {
    hide EncodeFixed32;
    var low, high := EncodeFixed32(w % 0x1_0000_0000), EncodeFixed32(w / 0x1_0000_0000);
    Fixed32RoundTrip(w % 0x1_0000_0000);
    Fixed32RoundTrip(w / 0x1_0000_0000);
    assert (low + high)[4..] == high;
  }

  /** Numbers one after the other. */
  function Fixed32Array(numbers: seq<nat>): seq<Byte> {
    if numbers == [] then []
    else Fixed32Array(numbers[..|numbers| - 1]) + EncodeFixed32(numbers[|numbers| - 1] % 0x1_0000_0000)
  }

  lemma {:induction false} Fixed32ArrayAt(numbers: seq<nat>, i: nat)
    ensures |Fixed32Array(numbers)| == 4 * |numbers|
    ensures i < |numbers| ==> Fixed32Array(numbers)[4 * i..4 * i + 4] == EncodeFixed32(numbers[i] % 0x1_0000_0000)
    decreases |numbers|
  {
    hide EncodeFixed32;
    if numbers != [] {
      var n := |numbers| - 1;
      Fixed32ArrayAt(numbers[..n], i);
      var before, last := Fixed32Array(numbers[..n]), EncodeFixed32(numbers[n] % 0x1_0000_0000);
      if i < n {
        assert (before + last)[4 * i..4 * i + 4] == before[4 * i..4 * i + 4];
      } else if i == n {
        assert (before + last)[4 * i..4 * i + 4] == last;
      }
    }
  }

  // ---------- varints ----------

  /** Seven bits to a byte, least significant first, the high bit set on all bytes but the last. */
  function Varint(v: nat): (r: seq<Byte>)
    ensures 0 < |r|
  {
    if v < 128 then [v] else [v % 128 + 128] + Varint(v / 128)
  }

  /** The number a slice of at most `limit` varint bytes starts with. */
  function ParseVarint(input: seq<Byte>, limit: nat): (r: Parsed<nat>)
    ensures r.Got? ==> |r.rest| < |input|
    decreases limit
  {
    if limit == 0 || input == [] then Failed
    else if input[0] < 128 then Got(input[0], input[1..])
    else
      match ParseVarint(input[1..], limit - 1)
      case Failed => Failed
      case Got(v, rest) => Got(input[0] - 128 + 128 * v, rest)
  }

  function Power128(n: nat): (r: nat)
    ensures r > 0
  {
    if n == 0 then 1 else 128 * Power128(n - 1)
  }

  lemma {:induction false} VarintRoundTrip(v: nat, limit: nat, tail: seq<Byte>)
    requires v < Power128(limit) && limit > 0
    ensures ParseVarint(Varint(v) + tail, limit) == Got(v, tail)
    decreases limit
  {
    if v < 128 {
      assert (Varint(v) + tail)[1..] == tail;
    } else {
      assert (Varint(v) + tail)[1..] == Varint(v / 128) + tail;
      VarintRoundTrip(v / 128, limit - 1, tail);
    }
  }

  /** EncodeVarint32, with its loop unrolled by hand. */
  function Varint32(v: Word): (r: seq<Byte>) {
    if v < 0x80 then [v]
    else if v < 0x4000 then [v % 128 + 128, v / 0x80]
    else if v < 0x20_0000 then [v % 128 + 128, v / 0x80 % 128 + 128, v / 0x4000]
    else if v < 0x1000_0000 then
      [v % 128 + 128, v / 0x80 % 128 + 128, v / 0x4000 % 128 + 128, v / 0x20_0000]
    else
      [v % 128 + 128, v / 0x80 % 128 + 128, v / 0x4000 % 128 + 128, v / 0x20_0000 % 128 + 128, v / 0x1000_0000]
  }

  /** The unrolled encoder writes what the loop writes. */
  lemma {:induction false} UnrolledVarint(v: Word)
    ensures Varint32(v) == Varint(v)
  {
    var a := v / 128;
    var b := a / 128;
    var c := b / 128;
    assert b == v / 0x4000 && c == v / 0x20_0000 && c / 128 == v / 0x1000_0000;
    assert Varint(c) == if c < 128 then [c] else [c % 128 + 128, c / 128];
    assert Varint(b) == if b < 128 then [b] else [b % 128 + 128] + Varint(c);
    assert Varint(a) == if a < 128 then [a] else [a % 128 + 128] + Varint(b);
  }

  /** What GetVarint32 takes off a slice: at most five bytes, and bits beyond the word are lost. */
  function GetVarint32(input: seq<Byte>): (r: Parsed<Word>)
    ensures r.Got? ==> |r.rest| < |input|
  {
    match ParseVarint(input, 5)
    case Failed => Failed
    case Got(v, rest) => Got(v % 0x1_0000_0000, rest)
  }

  function GetVarint64(input: seq<Byte>): (r: Parsed<DoubleWord>)
    ensures r.Got? ==> |r.rest| < |input|
  {
    match ParseVarint(input, 10)
    case Failed => Failed
    case Got(v, rest) => Got(v % 0x1_0000_0000_0000_0000, rest)
  }

  lemma {:induction false} Varint32RoundTrip(v: Word, tail: seq<Byte>)
    ensures GetVarint32(Varint32(v) + tail) == Got(v, tail)
  {
    UnrolledVarint(v);
    assert Power128(5) == 128 * Power128(4) == 128 * (128 * Power128(3)) == 0x8_0000_0000;
    VarintRoundTrip(v, 5, tail);
  }

  lemma {:induction false} Varint64RoundTrip(v: DoubleWord, tail: seq<Byte>)
    ensures GetVarint64(Varint(v) + tail) == Got(v, tail)
  {
    assert Power128(5) == 128 * Power128(4) == 128 * (128 * Power128(3)) == 0x8_0000_0000;
    assert Power128(10) == 128 * Power128(9) == 128 * (128 * Power128(8));
    assert Power128(8) == 128 * Power128(7) == 128 * (128 * Power128(6));
    VarintRoundTrip(v, 10, tail);
  }

  /** A varint fails to parse exactly when none of the bytes it may have is a last one. */
  lemma {:induction false} VarintFails(input: seq<Byte>, limit: nat)
    ensures ParseVarint(input, limit).Failed? <==> forall i | 0 <= i < limit && i < |input| :: input[i] >= 128
    decreases limit
  {
    if limit > 0 && input != [] && input[0] >= 128 {
      VarintFails(input[1..], limit - 1);
      forall i | 0 <= i < limit && i < |input| ensures i == 0 || input[i] == input[1..][i - 1] {
      }
    }
  }

  /** A varint that is cut short does not parse. */
  lemma {:induction false} VarintCut(v: nat, n: nat, limit: nat)
    requires n < |Varint(v)|
    ensures ParseVarint(Varint(v)[..n], limit) == Failed
    decreases v
  {
    if n > 0 && limit > 0 {
      VarintCut(v / 128, n - 1, limit - 1);
      assert Varint(v)[..n][1..] == Varint(v / 128)[..n - 1];
    }
  }

  /** `digit` at the place of `scale`, above what has been read. */
  function Placed(result: nat, scale: nat, digit: nat): nat {
    result + scale * digit
  }

  function Remainder(n: nat, modulus: nat): nat
    requires modulus > 0
  {
    n % modulus
  }

  /** A parsed number read as the digits from `scale` up, with `result` below them. */
  function Above(r: Parsed<nat>, result: nat, scale: nat): Parsed<nat> {
    match r
    case Failed => Failed
    case Got(v, rest) => Got(Placed(result, scale, v), rest)
  }

  lemma {:induction false} OneMoreByte(input: seq<Byte>, limit: nat, result: nat, scale: nat)
    requires input != [] && limit > 0
    ensures Above(ParseVarint(input, limit), result, scale)
         == if input[0] < 128 then Got(Placed(result, scale, input[0]), input[1..])
            else Above(ParseVarint(input[1..], limit - 1), Placed(result, scale, input[0] - 128), scale * 128)
  {
    var byte: int := input[0];
    match ParseVarint(input[1..], limit - 1)
    case Failed =>
    case Got(v, _) =>
      assert scale * (byte - 128 + 128 * v) == scale * (byte - 128) + scale * 128 * v;
  }

  /** A word keeps the low bits. */
  function Reduced(r: Parsed<nat>, modulus: nat): Parsed<nat>
    requires modulus > 0
  {
    match r
    case Failed => Failed
    case Got(v, rest) => Got(Remainder(v, modulus), rest)
  }

  lemma {:induction false} AboveNothing(r: Parsed<nat>)
    ensures Above(r, 0, 1) == r
  {
  }

  lemma {:induction false} NoMoreBytes(input: seq<Byte>, limit: nat)
    requires input == [] || limit == 0
    ensures ParseVarint(input, limit) == Failed
  {
  }

  /**
   * GetVarint32Ptr and GetVarint64Ptr: up to `limit` bytes are or-ed into a word of `modulus`
   * values.  Only bits of the last byte can fall outside the word.
   */
  method GetVarintPtr(input: seq<Byte>, limit: nat, modulus: nat) returns (r: Parsed<nat>)
    requires modulus > 0
    ensures r == Reduced(ParseVarint(input, limit), modulus)
  {
    hide ParseVarint, Placed, Remainder;
    var result: nat, scale: nat, p: nat := 0, 1, 0;
    assert input[p..] == input;
    AboveNothing(ParseVarint(input, limit));
    while p < limit && p < |input|
      invariant p <= limit && p <= |input|
      invariant ParseVarint(input, limit) == Above(ParseVarint(input[p..], limit - p), result, scale)
    {
      hide Above;
      OneMoreByte(input[p..], limit - p, result, scale);
      assert input[p..][1..] == input[p + 1..] && input[p..][0] == input[p];
      var byte: int := input[p];
      p := p + 1;
      if byte >= 128 {
        result, scale := Placed(result, scale, byte - 128), scale * 128;
      } else {
        return Got(Remainder(Placed(result, scale, byte), modulus), input[p..]);
      }
    }
    NoMoreBytes(input[p..], limit - p);
    return Failed;
  }

  // ---------- length-prefixed slices ----------

  /** PutLengthPrefixedSlice; a length that does not fit a word is truncated. */
  function LengthPrefixed(s: seq<Byte>): seq<Byte> {
    Varint32(|s| % 0x1_0000_0000) + s
  }

  function GetLengthPrefixedSlice(input: seq<Byte>): (r: Parsed<seq<Byte>>)
    ensures r.Got? ==> |r.rest| < |input|
  {
    match GetVarint32(input)
    case Failed => Failed
    case Got(length, rest) => if |rest| >= length then Got(rest[..length], rest[length..]) else Failed
  }

  lemma {:induction false} SliceRoundTrip(s: seq<Byte>, tail: seq<Byte>)
    requires |s| < 0x1_0000_0000
    ensures GetLengthPrefixedSlice(LengthPrefixed(s) + tail) == Got(s, tail)
  {
    hide GetVarint32, Varint32;
    assert LengthPrefixed(s) + tail == Varint32(|s|) + (s + tail);
    Varint32RoundTrip(|s|, s + tail);
    assert (s + tail)[..|s|] == s && (s + tail)[|s|..] == tail;
  }

  /** A slice that is cut short does not parse. */
  lemma {:induction false} SliceCut(s: seq<Byte>, n: nat)
    requires |s| < 0x1_0000_0000 && n < |LengthPrefixed(s)|
    ensures GetLengthPrefixedSlice(LengthPrefixed(s)[..n]) == Failed
  {
    hide ParseVarint, Varint;
    var prefix := Varint32(|s|);
    UnrolledVarint(|s|);
    if n < |prefix| {
      VarintCut(|s|, n, 5);
      assert LengthPrefixed(s)[..n] == prefix[..n];
    } else {
      Varint32RoundTrip(|s|, s[..n - |prefix|]);
      assert LengthPrefixed(s)[..n] == prefix + s[..n - |prefix|];
    }
  }
}
