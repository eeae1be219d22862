/**
 * Blocks: entries with prefix-compressed keys, and an array of restart points at which keys are
 * stored whole.
 */
module Blocks {
  import opened Coding

  datatype KeyValue = KeyValue(key: seq<Byte>, value: seq<Byte>)

  /** How the comparator ranks keys. */
  type Order = seq<Byte> -> real

  // ---------- one entry ----------

  function EncodedEntry(shared: nat, e: KeyValue): (r: seq<Byte>)
    requires shared <= |e.key|
  {
    Varint32(shared % 0x1_0000_0000)
    + (Varint32((|e.key| - shared) % 0x1_0000_0000)
       + (Varint32(|e.value| % 0x1_0000_0000) + (e.key[shared..] + e.value)))
  }

  datatype Lengths = Lengths(shared: nat, nonShared: nat, value: nat)

  /** The three lengths in front of an entry. */
  function ParseLengths(input: seq<Byte>): (r: Parsed<Lengths>)
    ensures r.Got? ==> |r.rest| < |input|
  {
    match GetVarint32(input)
    case Failed => Failed
    case Got(shared, rest) =>
      match GetVarint32(rest)
      case Failed => Failed
      case Got(nonShared, rest) =>
        match GetVarint32(rest)
        case Failed => Failed
        case Got(value, rest) => Got(Lengths(shared, nonShared, value), rest)
  }

  /** DecodeEntry: the lengths, the shortcut for one-byte lengths, and the check that the entry fits. */
  function DecodeEntry(input: seq<Byte>): (r: Parsed<Lengths>)
    ensures r.Got? ==> |r.rest| >= (r.value.nonShared + r.value.value) % 0x1_0000_0000
  {
    if |input| < 3 then Failed
    else
      var header :=
        if input[0] < 128 && input[1] < 128 && input[2] < 128 then
          Got(Lengths(input[0], input[1], input[2]), input[3..])
        else ParseLengths(input);
      match header
      case Failed => Failed
      case Got(n, rest) =>
        if |rest| % 0x1_0000_0000 < (n.nonShared + n.value) % 0x1_0000_0000 then Failed else Got(n, rest)
  }

  lemma {:induction false} OneByte(input: seq<Byte>)
    requires input != [] && input[0] < 128
    ensures GetVarint32(input) == Got(input[0], input[1..])
  {
  }

  /** The shortcut reads what three varints read. */
  lemma {:induction false} ShortcutAgrees(input: seq<Byte>)
    requires |input| >= 3 && input[0] < 128 && input[1] < 128 && input[2] < 128
    ensures ParseLengths(input) == Got(Lengths(input[0], input[1], input[2]), input[3..])
  {
    hide GetVarint32;
    OneByte(input);
    OneByte(input[1..]);
    OneByte(input[1..][1..]);
    assert input[1..][1..][1..] == input[3..];
  }

  lemma {:induction false} VarintNotEmpty(v: Word)
    ensures |Varint32(v)| >= 1
  {
  }

  lemma {:induction false} EntryRoundTrip(shared: nat, e: KeyValue, tail: seq<Byte>)
    requires shared <= |e.key|
    requires |e.key| + |e.value| + |tail| < 0x1_0000_0000
    ensures DecodeEntry(EncodedEntry(shared, e) + tail)
         == Got(Lengths(shared, |e.key| - shared, |e.value|), e.key[shared..] + e.value + tail)
    ensures |EncodedEntry(shared, e)| >= 3
  {
    hide Varint32, GetVarint32, ParseLengths, DecodeEntry;
    var body := e.key[shared..] + e.value;
    LengthsRoundTrip(shared, |e.key| - shared, |e.value|, body, tail);
    DecodeIsParse(EncodedEntry(shared, e) + tail);
  }

  /** DecodeEntry without its shortcut. */
  lemma {:induction false} DecodeIsParse(input: seq<Byte>)
    requires |input| >= 3
    ensures DecodeEntry(input)
         == match ParseLengths(input)
            case Failed => Failed
            case Got(n, rest) =>
              if |rest| % 0x1_0000_0000 < (n.nonShared + n.value) % 0x1_0000_0000 then Failed else Got(n, rest)
  {
    hide ParseLengths;
    if input[0] < 128 && input[1] < 128 && input[2] < 128 {
      ShortcutAgrees(input);
    }
  }

  /** Three lengths come back from the front of a stretch of bytes. */
  lemma {:induction false} LengthsRoundTrip(x: Word, y: Word, z: Word, body: seq<Byte>, tail: seq<Byte>)
    ensures var entry := Varint32(x) + (Varint32(y) + (Varint32(z) + body));
            && |entry| >= 3 + |body|
            && ParseLengths(entry + tail) == Got(Lengths(x, y, z), body + tail)
  {
    hide Varint32, GetVarint32;
    var a, b, c := Varint32(x), Varint32(y), Varint32(z);
    VarintNotEmpty(x);
    VarintNotEmpty(y);
    VarintNotEmpty(z);
    assert a + (b + (c + body)) + tail == a + (b + (c + (body + tail)));
    Varint32RoundTrip(x, b + (c + (body + tail)));
    Varint32RoundTrip(y, c + (body + tail));
    Varint32RoundTrip(z, body + tail);
  }

  // ---------- layouts ----------

  /** What a block holds: entries, how much of each key is shared, and which entries are restart points. */
  datatype Layout = Layout(entries: seq<KeyValue>, shared: seq<nat>, restarts: seq<nat>)

  ghost predicate LayoutOk(l: Layout) {
    && |l.shared| == |l.entries|
    && (forall i | 0 <= i < |l.entries| :: SharesPrefix(l, i))
    && |l.restarts| > 0 && l.restarts[0] == 0
    && (forall r | 0 <= r < |l.restarts| :: IsRestart(l, r))
    && (forall r, r' | 0 <= r < r' < |l.restarts| :: l.restarts[r] < l.restarts[r'])
  }

  ghost predicate SharesPrefix(l: Layout, i: nat)
    requires i < |l.entries| == |l.shared|
  {
    && l.shared[i] <= |l.entries[i].key|
    && if i == 0 then l.shared[i] == 0
       else l.shared[i] <= |l.entries[i - 1].key|
            && l.entries[i - 1].key[..l.shared[i]] == l.entries[i].key[..l.shared[i]]
  }

  ghost predicate IsRestart(l: Layout, r: nat)
    requires r < |l.restarts| && |l.entries| == |l.shared|
  {
    var i := l.restarts[r];
    if i < |l.entries| then l.shared[i] == 0 else i == 0
  }

  /** The bytes of the first n entries. */
  ghost function Data(l: Layout, n: nat): seq<Byte>
    requires LayoutOk(l) && n <= |l.entries|
  {
    if n == 0 then []
    else
      assert SharesPrefix(l, n - 1);
      Data(l, n - 1) + EncodedEntry(l.shared[n - 1], l.entries[n - 1])
  }

  /** Where entry n begins. */
  ghost function Off(l: Layout, n: nat): nat
    requires LayoutOk(l) && n <= |l.entries|
  {
    |Data(l, n)|
  }

  ghost function Offsets(l: Layout): (r: seq<nat>)
    requires LayoutOk(l)
    ensures |r| == |l.restarts|
  {
    seq(|l.restarts|, r requires 0 <= r < |l.restarts| => assert IsRestart(l, r); Off(l, l.restarts[r]))
  }

  /** A finished block. */
  ghost function Image(l: Layout): seq<Byte>
    requires LayoutOk(l)
  {
    Data(l, |l.entries|) + Fixed32Array(Offsets(l)) + EncodeFixed32(|l.restarts| % 0x1_0000_0000)
  }

  // ---------- building ----------

  /** `l` with one more entry behind it. */
  function Extended(l: Layout, e: KeyValue, shared: nat, restart: bool): Layout {
    Layout(l.entries + [e], l.shared + [shared], if restart then l.restarts + [|l.entries|] else l.restarts)
  }

  ghost predicate MayExtend(l: Layout, e: KeyValue, shared: nat, restart: bool)
    requires LayoutOk(l)
  {
    && shared <= |e.key|
    && (if l.entries == [] then shared == 0
        else
          var last := l.entries[|l.entries| - 1].key;
          shared <= |last| && last[..shared] == e.key[..shared])
    && (restart ==> l.entries != [] && shared == 0)
  }

  lemma {:induction false} ExtendedOk(l: Layout, e: KeyValue, shared: nat, restart: bool)
    requires LayoutOk(l) && MayExtend(l, e, shared, restart)
    ensures LayoutOk(Extended(l, e, shared, restart))
  {
    var l' := Extended(l, e, shared, restart);
    forall i | 0 <= i < |l'.entries| ensures SharesPrefix(l', i) {
      assert i < |l.entries| ==> SharesPrefix(l, i);
    }
    forall r | 0 <= r < |l'.restarts| ensures IsRestart(l', r) {
      assert r < |l.restarts| ==> IsRestart(l, r);
    }
    forall r, r' | 0 <= r < r' < |l'.restarts| ensures l'.restarts[r] < l'.restarts[r'] {
      assert IsRestart(l, r);
    }
  }

  /** Adding an entry leaves what was there in place. */
  lemma {:induction false} DataStays(l: Layout, l': Layout, n: nat)
    requires LayoutOk(l) && LayoutOk(l') && n <= |l.entries|
    requires l.entries <= l'.entries && l.shared <= l'.shared
    ensures Data(l', n) == Data(l, n)
  {
    if n > 0 {
      DataStays(l, l', n - 1);
    }
  }

  lemma {:induction false} ExtendedData(l: Layout, e: KeyValue, shared: nat, restart: bool)
    requires LayoutOk(l) && MayExtend(l, e, shared, restart) && LayoutOk(Extended(l, e, shared, restart))
    ensures (
      var l' := Extended(l, e, shared, restart);
      && Data(l', |l'.entries|) == Data(l, |l.entries|) + EncodedEntry(shared, e)
      && Offsets(l') == if restart then Offsets(l) + [Off(l, |l.entries|)] else Offsets(l))
  {
    hide LayoutOk, EncodedEntry;
    var l', n := Extended(l, e, shared, restart), |l.entries|;
    DataStays(l, l', n);
    SameLength(l);
    assert l'.shared[n] == shared && l'.entries[n] == e;
    assert Data(l', n + 1) == Data(l', n) + EncodedEntry(shared, e);
    forall r | 0 <= r < |l.restarts| ensures Offsets(l')[r] == Offsets(l)[r] {
      RestartInside(l, r);
      DataStays(l, l', l.restarts[r]);
    }
  }

  lemma {:induction false} SameLength(l: Layout)
    requires LayoutOk(l)
    ensures |l.shared| == |l.entries|
  {
  }

  lemma {:induction false} RestartInside(l: Layout, r: nat)
    requires LayoutOk(l) && r < |l.restarts|
    ensures l.restarts[r] <= |l.entries| && (l.entries != [] ==> l.restarts[r] < |l.entries|)
  {
    assert IsRestart(l, r);
  }

  /** The length of the longest common prefix. */
  function SharedLength(a: seq<Byte>, b: seq<Byte>): (n: nat)
    ensures n <= |a| && n <= |b| && a[..n] == b[..n]
    ensures n < |a| && n < |b| ==> a[n] != b[n]
  {
    if a == [] || b == [] || a[0] != b[0] then 0
    else
      var n := 1 + SharedLength(a[1..], b[1..]);
      assert a[..n] == [a[0]] + a[1..][..n - 1] && b[..n] == [b[0]] + b[1..][..n - 1];
      n
  }

  lemma {:induction false} SharedLengthIs(a: seq<Byte>, b: seq<Byte>, n: nat)
    requires n <= |a| && n <= |b| && a[..n] == b[..n] && (n < |a| && n < |b| ==> a[n] != b[n])
    ensures SharedLength(a, b) == n
  {
    var m := SharedLength(a, b);
    forall i | 0 <= i < n ensures a[i] == b[i] {
      assert a[..n][i] == b[..n][i];
    }
    forall i | 0 <= i < m ensures a[i] == b[i] {
      assert a[..m][i] == b[..m][i];
    }
  }

  /** See how much sharing to do with the previous string. */
  method CountShared(lastKey: seq<Byte>, key: seq<Byte>) returns (shared: nat)
    ensures shared == SharedLength(lastKey, key)
  {
    var minLength := if |lastKey| < |key| then |lastKey| else |key|;
    shared := 0;
    while shared < minLength && lastKey[shared] == key[shared]
      invariant shared <= minLength && lastKey[..shared] == key[..shared]
    {
      shared := shared + 1;
    }
    SharedLengthIs(lastKey, key, shared);
  }

  /** Every `interval` entries there is a restart point, and `counter` entries have come since the last. */
  ghost predicate RestartsEvery(l: Layout, interval: nat, counter: nat) {
    && |l.restarts| > 0
    && (forall r | 0 <= r < |l.restarts| :: l.restarts[r] == r * interval)
    && counter == |l.entries| - (|l.restarts| - 1) * interval
  }

  lemma {:induction false} RestartsGoOn(l: Layout, e: KeyValue, shared: nat, interval: nat, counter: nat)
    requires RestartsEvery(l, interval, counter) && counter <= interval
    ensures counter < interval ==> RestartsEvery(Extended(l, e, shared, false), interval, counter + 1)
    ensures counter == interval ==> RestartsEvery(Extended(l, e, shared, true), interval, 1)
  {
    var n := |l.restarts|;
    assert n * interval == (n - 1) * interval + interval;
    var next := Extended(l, e, shared, true);
    assert next.restarts[..n] == l.restarts;
  }

  class BlockBuilder {
    const interval: nat
    var buffer: seq<Byte>
    var restarts: seq<nat>
    var counter: nat
    var finished: bool
    var lastKey: seq<Byte>
    ghost var layout: Layout

    ghost predicate Valid()
      reads this
    {
      && !finished && counter <= interval
      && LayoutOk(layout)
      && buffer == Data(layout, |layout.entries|)
      && restarts == Offsets(layout)
      && lastKey == (if layout.entries == [] then [] else layout.entries[|layout.entries| - 1].key)
      && (layout.entries == [] ==> counter == 0)
      && RestartsEvery(layout, interval, counter)
    }

    constructor (interval: nat)
      requires interval >= 1
      ensures Valid() && layout.entries == [] && this.interval == interval
    {
      this.interval := interval;
      buffer, restarts, counter, finished, lastKey := [], [0], 0, false, [];
      layout := Layout([], [], [0]);
    }

    /** One more entry, which shares as much of its key as it can with the one before; every `interval` entries it shares
        nothing and is a restart point.  Keys must ascend, which the format itself does not need. */
    method Add(key: seq<Byte>, value: seq<Byte>)
      requires Valid() && interval >= 1
      modifies this
      ensures Valid()
      ensures (
        var restart := old(counter) >= interval;
        layout == Extended(old(layout), KeyValue(key, value), if restart then 0 else SharedLength(old(lastKey), key), restart))
    {
      hide LayoutOk, Data, Offsets, EncodedEntry, SharedLength, RestartsEvery;
      var shared, restart := 0, counter >= interval;
      if !restart {
        shared := CountShared(lastKey, key);
      } else {
        restarts := restarts + [|buffer|];
        counter := 0;
      }
      var e := KeyValue(key, value);
      RestartsGoOn(layout, e, shared, interval, old(counter));
      ExtendedOk(layout, e, shared, restart);
      ExtendedData(layout, e, shared, restart);
      buffer := buffer + EncodedEntry(shared, e);
      lastKey := key;
      counter := counter + 1;
      layout := Extended(layout, e, shared, restart);
    }

    method Finish() returns (block: seq<Byte>)
      requires Valid()
      modifies this
      ensures finished && block == Image(old(layout))
    {
      hide LayoutOk, Data, Offsets, EncodeFixed32;
      var i := 0;
      ghost var data := buffer;
      while i < |restarts|
        invariant i <= |restarts| && restarts == old(restarts)
        invariant buffer == data + Fixed32Array(restarts[..i])
      {
        assert restarts[..i + 1][..i] == restarts[..i] && restarts[..i + 1][i] == restarts[i];
        buffer := buffer + EncodeFixed32(restarts[i] % 0x1_0000_0000);
        i := i + 1;
      }
      assert restarts[..i] == restarts;
      buffer := buffer + EncodeFixed32(|restarts| % 0x1_0000_0000);
      finished := true;
      block := buffer;
    }
  }

  // ---------- offsets ----------

  lemma {:induction false} EntryLength(shared: nat, e: KeyValue)
    requires shared <= |e.key|
    ensures |EncodedEntry(shared, e)| >= 3 + |e.key| - shared + |e.value|
  {
    hide Varint32;
    VarintNotEmpty(shared % 0x1_0000_0000);
    VarintNotEmpty((|e.key| - shared) % 0x1_0000_0000);
    VarintNotEmpty(|e.value| % 0x1_0000_0000);
  }

  lemma {:induction false} OffGrows(l: Layout, m: nat, n: nat)
    requires LayoutOk(l) && m <= n <= |l.entries|
    ensures Off(l, m) + (n - m) <= Off(l, n)
    ensures Data(l, m) <= Data(l, n)
    decreases n
  {
    hide LayoutOk, Data;
    if m < n {
      OffGrows(l, m, n - 1);
      DataStep(l, n);
      PrefixesChain(Data(l, m), Data(l, n - 1), Data(l, n));
    }
  }

  lemma {:induction false} PrefixesChain(a: seq<Byte>, b: seq<Byte>, c: seq<Byte>)
    requires a <= b <= c
    ensures a <= c
  {
    assert c[..|b|] == b && b[..|a|] == a;
  }

  lemma {:induction false} DataStep(l: Layout, n: nat)
    requires LayoutOk(l) && 0 < n <= |l.entries|
    ensures Data(l, n - 1) < Data(l, n)
  {
    hide EncodedEntry;
    assert SharesPrefix(l, n - 1);
    EntryLength(l.shared[n - 1], l.entries[n - 1]);
  }

  /** The bytes from an entry on begin with that entry. */
  lemma {:induction false} DataFrom(l: Layout, n: nat)
    requires LayoutOk(l) && n < |l.entries|
    ensures SharesPrefix(l, n)
    ensures (
      var all, bytes := Data(l, |l.entries|), EncodedEntry(l.shared[n], l.entries[n]);
      && Off(l, n) + |bytes| == Off(l, n + 1) <= |all|
      && all[Off(l, n)..] == bytes + all[Off(l, n + 1)..])
  {
    hide EncodedEntry;
    assert SharesPrefix(l, n);
    OffGrows(l, n + 1, |l.entries|);
    var all, front, bytes := Data(l, |l.entries|), Data(l, n), EncodedEntry(l.shared[n], l.entries[n]);
    assert Data(l, n + 1) == front + bytes;
    assert all == front + bytes + all[|front + bytes|..];
  }

  /** A key is no longer than all that has been written. */
  lemma {:induction false} KeyFits(l: Layout, n: nat)
    requires LayoutOk(l) && n < |l.entries|
    ensures |l.entries[n].key| + |l.entries[n].value| <= Off(l, n + 1)
  {
    hide EncodedEntry;
    assert SharesPrefix(l, n);
    EntryLength(l.shared[n], l.entries[n]);
    assert Data(l, n + 1) == Data(l, n) + EncodedEntry(l.shared[n], l.entries[n]);
    if n > 0 {
      KeyFits(l, n - 1);
    }
  }

  /** Decoding at the place of an entry gives its lengths and its bytes. */
  lemma {:induction false} DecodeAt(l: Layout, n: nat)
    requires LayoutOk(l) && n < |l.entries| && |Data(l, |l.entries|)| < 0x1_0000_0000
    ensures SharesPrefix(l, n)
    ensures (
      var all, e, shared := Data(l, |l.entries|), l.entries[n], l.shared[n];
      && Off(l, n) < Off(l, n + 1) <= |all|
      && DecodeEntry(all[Off(l, n)..])
         == Got(Lengths(shared, |e.key| - shared, |e.value|), e.key[shared..] + e.value + all[Off(l, n + 1)..]))
  {
    hide EncodedEntry, DecodeEntry, Data;
    DataFrom(l, n);
    var all, e, shared := Data(l, |l.entries|), l.entries[n], l.shared[n];
    KeyFits(l, n);
    EntryRoundTrip(shared, e, all[Off(l, n + 1)..]);
  }

  // ---------- iterating ----------

  /** Where the restart array of a block begins, and how long it is. */
  function NumRestarts(block: seq<Byte>): nat
    requires |block| >= 4
  {
    DecodeFixed32(block[|block| - 4..])
  }

  lemma {:induction false} ImageParses(l: Layout)
    requires LayoutOk(l) && |Image(l)| < 0x1_0000_0000
    ensures |Image(l)| >= 4 && NumRestarts(Image(l)) == |l.restarts|
    ensures |Image(l)| == |Data(l, |l.entries|)| + 4 * |l.restarts| + 4
    ensures Image(l)[..|Data(l, |l.entries|)|] == Data(l, |l.entries|)
  {
    hide EncodeFixed32, DecodeFixed32, Data;
    var data, offsets, count := Data(l, |l.entries|), Fixed32Array(Offsets(l)), EncodeFixed32(|l.restarts| % 0x1_0000_0000);
    Fixed32ArrayAt(Offsets(l), 0);
    assert Image(l)[|Image(l)| - 4..] == count;
    Fixed32RoundTrip(|l.restarts|);
  }

  lemma {:induction false} RestartParses(l: Layout, r: nat)
    requires LayoutOk(l) && |Image(l)| < 0x1_0000_0000 && r < |l.restarts|
    ensures l.restarts[r] <= |l.entries|
    ensures (
      var at := |Data(l, |l.entries|)| + 4 * r;
      at + 4 <= |Image(l)| && DecodeFixed32(Image(l)[at..at + 4]) == Off(l, l.restarts[r]))
  {
    hide EncodeFixed32, DecodeFixed32, Data;
    RestartInside(l, r);
    var data, offsets, count := Data(l, |l.entries|), Fixed32Array(Offsets(l)), EncodeFixed32(|l.restarts| % 0x1_0000_0000);
    Fixed32ArrayAt(Offsets(l), r);
    assert Image(l)[|data| + 4 * r..|data| + 4 * r + 4] == offsets[4 * r..4 * r + 4];
    OffGrows(l, l.restarts[r], |l.entries|);
    Fixed32RoundTrip(Off(l, l.restarts[r]));
  }

  class BlockIter {
    const order: Order
    const block: seq<Byte>
    /** Offset of the restart array, and its length. */
    const restarts: nat
    const numRestarts: nat
    /** Offset of the current entry; the offset of the restart array when there is none. */
    var current: nat
    var restartIndex: nat
    var key: seq<Byte>
    /** The value as a stretch of the block. */
    var valueStart: nat
    var valueSize: nat
    var corrupt: bool
    ghost const layout: Layout
    /** The entry the iterator is on. */
    ghost var pos: nat

    /** The block is the image of the layout. */
    ghost predicate BlockOk() {
      && LayoutOk(layout)
      && block == Image(layout) && |block| < 0x1_0000_0000
      && restarts == |Data(layout, |layout.entries|)|
      && numRestarts == |layout.restarts|
    }

    ghost predicate Ok()
      reads this
    {
      && BlockOk() && !corrupt
      && pos <= |layout.entries|
      && current == Off(layout, pos)
      && (pos < |layout.entries| ==>
          && valueStart + valueSize == Off(layout, pos + 1) && valueStart <= |block| && valueStart + valueSize <= |block|
          && key == layout.entries[pos].key
          && block[valueStart..valueStart + valueSize] == layout.entries[pos].value
          && restartIndex < numRestarts && layout.restarts[restartIndex] <= pos)
    }

    constructor (order: Order, block: seq<Byte>, ghost layout: Layout)
      requires LayoutOk(layout) && block == Image(layout) && |block| < 0x1_0000_0000
      ensures Ok() && pos == |layout.entries|
      ensures this.order == order && this.block == block && this.layout == layout
    {
      ImageParses(layout);
      this.order, this.block, this.layout := order, block, layout;
      restarts := |block| - (1 + NumRestarts(block)) * 4;
      numRestarts := NumRestarts(block);
      current := |block| - (1 + NumRestarts(block)) * 4;
      restartIndex := NumRestarts(block);
      key, valueStart, valueSize, corrupt, pos := [], 0, 0, false, |layout.entries|;
    }

    predicate Valid()
      reads this
    {
      current < restarts
    }

    lemma {:induction false} ValidIsInside()
      requires Ok()
      ensures Valid() <==> pos < |layout.entries|
    {
      OffGrows(layout, pos, |layout.entries|);
    }

    method Current() returns (e: KeyValue)
      requires Ok() && Valid()
      ensures pos < |layout.entries| && e == layout.entries[pos]
    {
      ValidIsInside();
      e := KeyValue(key, block[valueStart..valueStart + valueSize]);
    }

    function NextEntryOffset(): nat
      reads this
    {
      valueStart + valueSize
    }

    method GetRestartPoint(index: nat) returns (offset: nat)
      requires BlockOk() && index < numRestarts
      ensures layout.restarts[index] <= |layout.entries| && offset == Off(layout, layout.restarts[index])
    {
      RestartParses(layout, index);
      offset := DecodeFixed32(block[restarts + 4 * index..restarts + 4 * index + 4]);
    }

    /** About to parse entry n: the value ends where it begins, and the key holds what it shares. */
    ghost predicate Before(n: nat)
      reads this
    {
      && BlockOk() && !corrupt && n <= |layout.entries|
      && NextEntryOffset() == Off(layout, n)
      && restartIndex < numRestarts && layout.restarts[restartIndex] <= n
      && (n < |layout.entries| ==>
          && SharesPrefix(layout, n)
          && layout.shared[n] <= |key| && key[..layout.shared[n]] == layout.entries[n].key[..layout.shared[n]])
    }

    method SeekToRestartPoint(index: nat)
      requires BlockOk() && !corrupt && index < numRestarts
      modifies this`key, this`restartIndex, this`valueStart, this`valueSize
      ensures Before(layout.restarts[index]) && restartIndex == index
    {
      hide LayoutOk, Data, Image;
      key := [];
      restartIndex := index;
      var offset := GetRestartPoint(index);
      valueStart, valueSize := offset, 0;
      RestartSharesNothing(layout, index);
    }

    method ParseNextKey(ghost n: nat) returns (ok: bool)
      requires Before(n)
      modifies this
      ensures Ok() && pos == n
      ensures ok == (n < |layout.entries|)
      ensures ok ==> Before(n + 1)
    {
      hide LayoutOk, Data, Image, DecodeEntry;
      OffsetsInside(layout, n);
      current := NextEntryOffset();
      pos := n;
      if current >= restarts {
        current := restarts;
        restartIndex := numRestarts;
        return false;
      }
      DataIsFront(layout, current);
      DecodeAt(layout, n);
      var input := block[current..restarts];
      var parsed := DecodeEntry(input);
      assert parsed.Got?;
      var lengths, p := parsed.value, restarts - |parsed.rest|;
      EntryBytes(layout, n, block);
      key := key[..lengths.shared] + block[p..p + lengths.nonShared];
      valueStart, valueSize := p + lengths.nonShared, lengths.value;
      AdvanceRestart(n);
      NextShares(layout, n + 1);
      return true;
    }

    /** The restart index follows the entry. */
    method AdvanceRestart(ghost n: nat)
      requires BlockOk() && n < |layout.entries| && current == Off(layout, n)
      requires restartIndex < numRestarts && layout.restarts[restartIndex] <= n
      modifies this`restartIndex
      ensures restartIndex < numRestarts && layout.restarts[restartIndex] <= n
    {
      hide LayoutOk, Data, Image;
      while restartIndex + 1 < numRestarts
        invariant restartIndex < numRestarts && layout.restarts[restartIndex] <= n
        decreases numRestarts - restartIndex
      {
        var next := GetRestartPoint(restartIndex + 1);
        if next >= current {
          break;
        }
        EarlierByOffset(layout, layout.restarts[restartIndex + 1], n);
        restartIndex := restartIndex + 1;
      }
    }

    method Next()
      requires Ok() && Valid()
      modifies this
      ensures Ok() && pos == old(pos) + 1
    {
      hide LayoutOk, Data, Image;
      ValidIsInside();
      NextShares(layout, pos + 1);
      var _ := ParseNextKey(pos + 1);
    }

    /** There are no links back: scan forward again from the last restart point before the current entry. */
    method Prev()
      requires Ok() && Valid()
      modifies this
      ensures Ok() && pos == if old(pos) > 0 then old(pos) - 1 else |layout.entries|
    {
      hide LayoutOk, Data, Image;
      ValidIsInside();
      ghost var n := pos;
      var original := current;
      var point := GetRestartPoint(restartIndex);
      while point >= original
        invariant restartIndex < numRestarts && layout.restarts[restartIndex] <= n
        invariant point == Off(layout, layout.restarts[restartIndex])
        invariant BlockOk() && !corrupt && current == original
        decreases restartIndex
      {
        if restartIndex == 0 {
          FirstAtZero(layout, n);
          current := restarts;
          restartIndex := numRestarts;
          pos := |layout.entries|;
          return;
        }
        RestartsAscend(layout, restartIndex - 1, restartIndex);
        restartIndex := restartIndex - 1;
        point := GetRestartPoint(restartIndex);
      }
      EarlierByOffset(layout, layout.restarts[restartIndex], n);
      SeekToRestartPoint(restartIndex);
      ghost var m := layout.restarts[restartIndex];
      while true
        invariant Before(m) && m < n < |layout.entries|
        decreases n - m
      {
        var ok := ParseNextKey(m);
        if NextEntryOffset() >= original {
          NotBeforeByOffset(layout, n, m + 1);
          return;
        }
        EarlierByOffset(layout, m + 1, n);
        m := m + 1;
      }
    }

    method SeekToFirst()
      requires Ok() && numRestarts > 0
      modifies this
      ensures Ok() && pos == 0
    {
      hide LayoutOk, Data, Image;
      FirstRestart(layout);
      SeekToRestartPoint(0);
      var _ := ParseNextKey(0);
    }

    method SeekToLast()
      requires Ok()
      modifies this
      ensures Ok() && pos == if layout.entries == [] then 0 else |layout.entries| - 1
    {
      hide LayoutOk, Data, Image;
      FirstRestart(layout);
      SeekToRestartPoint(numRestarts - 1);
      ghost var m := layout.restarts[numRestarts - 1];
      RestartSharesNothing(layout, numRestarts - 1);
      RestartInside(layout, numRestarts - 1);
      while true
        invariant Before(m) && m <= |layout.entries| && (layout.entries != [] ==> m < |layout.entries|)
        decreases |layout.entries| - m
      {
        var ok := ParseNextKey(m);
        if !ok {
          return;
        }
        OffsetsInside(layout, m + 1);
        if NextEntryOffset() >= restarts {
          return;
        }
        m := m + 1;
      }
    }

    /** Keys at restart points are stored whole; in a block that was written properly nothing else is found there. */
    method KeyAtRestart(index: nat) returns (restartKey: seq<Byte>)
      requires BlockOk() && index < numRestarts && layout.restarts[index] < |layout.entries|
      ensures restartKey == layout.entries[layout.restarts[index]].key
    {
      hide LayoutOk, Data, Image, DecodeEntry;
      ghost var n := layout.restarts[index];
      var offset := GetRestartPoint(index);
      RestartSharesNothing(layout, index);
      OffsetsInside(layout, n);
      DataIsFront(layout, offset);
      DecodeAt(layout, n);
      var parsed := DecodeEntry(block[offset..restarts]);
      if parsed.Failed? || parsed.value.shared != 0 {
        assert false;
      }
      restartKey := parsed.rest[..parsed.value.nonShared];
      assert layout.entries[n].key[0..] == layout.entries[n].key;
    }

    /** Binary search for the last restart point with a smaller key, then a scan: the first entry at or after the target. */
    method Seek(target: seq<Byte>)
      requires Ok() && Ascending(order, layout.entries)
      modifies this
      ensures Ok()
      ensures forall i | 0 <= i < pos :: order(layout.entries[i].key) < order(target)
      ensures pos < |layout.entries| ==> order(layout.entries[pos].key) >= order(target)
    {
      hide LayoutOk, Data, Image, DecodeEntry;
      FirstRestart(layout);
      var left, right := 0, numRestarts - 1;
      while left < right
        invariant 0 <= left <= right < numRestarts
        invariant Ok() && pos == old(pos)
        invariant forall i | 0 <= i < layout.restarts[left] && i < |layout.entries| :: order(layout.entries[i].key) < order(target)
        invariant layout.restarts[left] <= |layout.entries|
      {
        var mid := (left + right + 1) / 2;
        ManyRestarts(layout, mid);
        var midKey := KeyAtRestart(mid);
        if order(midKey) < order(target) {
          left := mid;
        } else {
          right := mid - 1;
        }
      }
      SeekToRestartPoint(left);
      ghost var m := layout.restarts[left];
      while true
        invariant Before(m) && m <= |layout.entries|
        invariant forall i | 0 <= i < m :: order(layout.entries[i].key) < order(target)
        decreases |layout.entries| - m
      {
        var ok := ParseNextKey(m);
        if !ok {
          return;
        }
        if order(key) >= order(target) {
          return;
        }
        m := m + 1;
      }
    }
  }

  /** Keys ascend in the order of the comparator. */
  ghost predicate Ascending(order: Order, entries: seq<KeyValue>) {
    forall i, j | 0 <= i < j < |entries| :: order(entries[i].key) < order(entries[j].key)
  }

  lemma {:induction false} EarlierByOffset(l: Layout, m: nat, n: nat)
    requires LayoutOk(l) && m <= |l.entries| && n <= |l.entries| && Off(l, m) < Off(l, n)
    ensures m < n
  {
    if n <= m {
      OffGrows(l, n, m);
    }
  }

  lemma {:induction false} RestartSharesNothing(l: Layout, r: nat)
    requires LayoutOk(l) && r < |l.restarts|
    ensures (
      var n := l.restarts[r];
      n <= |l.entries| && (n < |l.entries| ==> |l.shared| == |l.entries| && SharesPrefix(l, n) && l.shared[n] == 0))
  {
    assert IsRestart(l, r);
    var n := l.restarts[r];
    assert n < |l.entries| ==> SharesPrefix(l, n);
  }

  lemma {:induction false} NextShares(l: Layout, n: nat)
    requires LayoutOk(l)
    ensures |l.shared| == |l.entries| && (n < |l.entries| ==> SharesPrefix(l, n))
  {
  }

  lemma {:induction false} OffsetsInside(l: Layout, n: nat)
    requires LayoutOk(l) && n <= |l.entries|
    ensures Off(l, n) <= |Data(l, |l.entries|)|
    ensures Off(l, n) < |Data(l, |l.entries|)| <==> n < |l.entries|
  {
    OffGrows(l, n, |l.entries|);
  }

  lemma {:induction false} DataIsFront(l: Layout, from: nat)
    requires LayoutOk(l) && |Image(l)| < 0x1_0000_0000 && from <= |Data(l, |l.entries|)|
    ensures |Data(l, |l.entries|)| <= |Image(l)|
    ensures Image(l)[from..|Data(l, |l.entries|)|] == Data(l, |l.entries|)[from..]
  {
    hide Data;
    ImageParses(l);
    var data := Data(l, |l.entries|);
    assert Image(l)[from..|data|] == Image(l)[..|data|][from..];
  }

  /** Key delta and value of an entry, found by counting back from its end. */
  lemma {:induction false} EntryBytes(l: Layout, n: nat, block: seq<Byte>)
    requires LayoutOk(l) && n < |l.entries| && block == Image(l) && |block| < 0x1_0000_0000
    ensures SharesPrefix(l, n)
    ensures (
      var e, shared, end := l.entries[n], l.shared[n], Off(l, n + 1);
      var rest := |e.key| - shared + |e.value|;
      && rest <= end <= |block|
      && block[end - rest..end - |e.value|] == e.key[shared..]
      && block[end - |e.value|..end] == e.value)
  {
    hide Data, LayoutOk, EncodedEntry;
    SameLength(l);
    DataFrom(l, n);
    DataIsFront(l, Off(l, n));
    ImageParses(l);
    EntryTail(l.shared[n], l.entries[n]);
    var all, bytes := Data(l, |l.entries|), EncodedEntry(l.shared[n], l.entries[n]);
    TailOfWindow(block, Off(l, n), |all|, bytes, all[Off(l, n + 1)..], l.entries[n].key[l.shared[n]..], l.entries[n].value);
  }

  /** Stretches of a block that holds `bytes` at `start`, where `bytes` ends with x and then y. */
  lemma {:induction false} TailOfWindow(
      block: seq<Byte>, start: nat, limit: nat, bytes: seq<Byte>, more: seq<Byte>, x: seq<Byte>, y: seq<Byte>)
    requires start <= limit <= |block| && block[start..limit] == bytes + more
    requires |x| + |y| <= |bytes| && bytes[|bytes| - |x| - |y|..] == x + y
    ensures (
      var end := start + |bytes|;
      && end <= |block|
      && block[end - |x| - |y|..end - |y|] == x
      && block[end - |y|..end] == y)
  {
    var end := start + |bytes|;
    var from := |bytes| - |x| - |y|;
    assert block[start..end] == block[start..limit][..|bytes|] == bytes;
    assert block[end - |x| - |y|..end] == block[start..end][from..] == x + y;
    assert block[end - |x| - |y|..end - |y|] == block[end - |x| - |y|..end][..|x|] == (x + y)[..|x|];
    assert block[end - |y|..end] == block[end - |x| - |y|..end][|x|..] == (x + y)[|x|..];
  }

  lemma {:induction false} EntryTail(shared: nat, e: KeyValue)
    requires shared <= |e.key|
    ensures (
      var bytes, rest := EncodedEntry(shared, e), |e.key| - shared + |e.value|;
      rest <= |bytes| && bytes[|bytes| - rest..] == e.key[shared..] + e.value)
  {
    hide Varint32;
  }

  lemma {:induction false} FirstRestart(l: Layout)
    requires LayoutOk(l)
    ensures |l.restarts| > 0 && l.restarts[0] == 0
  {
  }

  lemma {:induction false} FirstAtZero(l: Layout, n: nat)
    requires LayoutOk(l) && n <= |l.entries| && Off(l, l.restarts[0]) >= Off(l, n)
    ensures n == 0
  {
    OffGrows(l, 0, n);
  }

  lemma {:induction false} RestartsAscend(l: Layout, r: nat, r': nat)
    requires LayoutOk(l) && r < r' < |l.restarts|
    ensures l.restarts[r] < l.restarts[r'] <= |l.entries|
  {
    RestartInside(l, r');
  }

  /** A restart point other than the first is an entry. */
  lemma {:induction false} ManyRestarts(l: Layout, r: nat)
    requires LayoutOk(l) && 0 < r < |l.restarts|
    ensures 0 < l.restarts[r] < |l.entries|
  {
    assert l.restarts[0] < l.restarts[r];
    assert IsRestart(l, r);
  }

  lemma {:induction false} NotBeforeByOffset(l: Layout, n: nat, m: nat)
    requires LayoutOk(l) && n <= |l.entries| && m <= n && Off(l, m) >= Off(l, n)
    ensures m == n
  {
    OffGrows(l, m, n);
  }
}
