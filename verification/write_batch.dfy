/** Write batches as bytes: building, joining, iterating, and inserting into a memtable. */
module WriteBatches {
  import opened Coding

  const HEADER_SIZE := 12
  const DELETION: Byte := 0
  const VALUE: Byte := 1

  datatype BatchOp =
    | Put(key: seq<Byte>, value: seq<Byte>)
    | Delete(key: seq<Byte>)
  {
    /** Lengths are stored in 32 bits. */
    predicate Fits() {
      |key| < 0x1_0000_0000 && (Put? ==> |value| < 0x1_0000_0000)
    }
  }

  datatype Status = OK | Corruption(message: string)

  // ---------- the byte format ----------

  function Encoded(op: BatchOp): (r: seq<Byte>)
    ensures 0 < |r|
  {
    match op
    case Put(key, value) => [VALUE] + LengthPrefixed(key) + LengthPrefixed(value)
    case Delete(key) => [DELETION] + LengthPrefixed(key)
  }

  function EncodedAll(ops: seq<BatchOp>): seq<Byte> {
    if ops == [] then [] else Encoded(ops[0]) + EncodedAll(ops[1..])
  }

  /** A batch as it is stored in a log record. */
  function Image(first: DoubleWord, ops: seq<BatchOp>): seq<Byte> {
    EncodedPrefix(first, |ops|) + EncodedAll(ops)
  }

  function EncodedPrefix(first: DoubleWord, count: nat): (r: seq<Byte>)
    ensures |r| == HEADER_SIZE
  {
    EncodeFixed64(first) + EncodeFixed32(count % 0x1_0000_0000)
  }

  /** What Iterate hands to its handler before it stops, and how it stops. */
  datatype Handled = Handled(ops: seq<BatchOp>, status: Status)

  /** One operation off the front of the input. */
  function ParseOp(input: seq<Byte>): (r: Parsed<BatchOp>)
    requires input != []
    ensures r.Got? ==> |r.rest| < |input|
  {
    if input[0] == VALUE then
      match GetLengthPrefixedSlice(input[1..])
      case Failed => Failed
      case Got(key, rest) =>
        match GetLengthPrefixedSlice(rest)
        case Failed => Failed
        case Got(value, further) => Got(Put(key, value), further)
    else if input[0] == DELETION then
      match GetLengthPrefixedSlice(input[1..])
      case Failed => Failed
      case Got(key, rest) => Got(Delete(key), rest)
    else
      Failed
  }

  function Complaint(tag: Byte): string {
    if tag == VALUE then "bad WriteBatch Put"
    else if tag == DELETION then "bad WriteBatch Delete"
    else "unknown WriteBatch tag"
  }

  function ParseOps(input: seq<Byte>): Handled
    decreases |input|
  {
    if input == [] then Handled([], OK)
    else
      match ParseOp(input)
      case Failed => Handled([], Corruption(Complaint(input[0])))
      case Got(op, rest) =>
        var further := ParseOps(rest);
        Handled([op] + further.ops, further.status)
  }

  /** The stored count, read back as a signed 32-bit number. */
  function StoredCount(rep: seq<Byte>): int
    requires |rep| >= HEADER_SIZE
  {
    var w := DecodeFixed32(rep[8..]);
    if w < 0x8000_0000 then w else w - 0x1_0000_0000
  }

  function StoredSequence(rep: seq<Byte>): DoubleWord
    requires |rep| >= HEADER_SIZE
  {
    DecodeFixed64(rep)
  }

  /** WriteBatch::Iterate, for any bytes whatever. */
  function IterateOver(rep: seq<Byte>): Handled {
    if |rep| < HEADER_SIZE then
      Handled([], Corruption("malformed WriteBatch (too small)"))
    else
      var handled := ParseOps(rep[HEADER_SIZE..]);
      if handled.status != OK || |handled.ops| == StoredCount(rep) then handled
      else handled.(status := Corruption("WriteBatch has wrong count"))
  }

  // ---------- round trips ----------

  lemma {:induction false} OpRoundTrip(op: BatchOp, tail: seq<Byte>)
    requires op.Fits()
    ensures ParseOp(Encoded(op) + tail) == Got(op, tail)
  {
    hide LengthPrefixed, GetLengthPrefixedSlice;
    match op
    case Put(key, value) =>
      assert (Encoded(op) + tail)[1..] == LengthPrefixed(key) + (LengthPrefixed(value) + tail);
      SliceRoundTrip(key, LengthPrefixed(value) + tail);
      SliceRoundTrip(value, tail);
    case Delete(key) =>
      assert (Encoded(op) + tail)[1..] == LengthPrefixed(key) + tail;
      SliceRoundTrip(key, tail);
  }

  lemma {:induction false} OpsRoundTrip(ops: seq<BatchOp>)
    requires forall op | op in ops :: op.Fits()
    ensures ParseOps(EncodedAll(ops)) == Handled(ops, OK)
  {
    hide Encoded, ParseOp;
    if ops != [] {
      OpRoundTrip(ops[0], EncodedAll(ops[1..]));
      OpsRoundTrip(ops[1..]);
    }
  }

  /** The fixed-width decoders look at the front of a slice only. */
  lemma {:induction false} FixedPrefixes(b: seq<Byte>)
    ensures |b| >= 4 ==> DecodeFixed32(b) == DecodeFixed32(b[..4])
    ensures |b| >= 8 ==> DecodeFixed64(b) == DecodeFixed64(b[..8])
  {
    hide DecodeFixed64;
    if |b| >= 8 {
      LongPrefix(b);
    }
  }

  lemma {:induction false} LongPrefix(b: seq<Byte>)
    requires |b| >= 8
    ensures DecodeFixed64(b) == DecodeFixed64(b[..8])
  {
  }

  lemma {:induction false} HeaderRoundTrip(first: DoubleWord, count: nat, body: seq<Byte>)
    ensures StoredSequence(EncodedPrefix(first, count) + body) == first
    ensures DecodeFixed32((EncodedPrefix(first, count) + body)[8..]) == count % 0x1_0000_0000
    ensures (EncodedPrefix(first, count) + body)[HEADER_SIZE..] == body
  {
    hide EncodeFixed64, EncodeFixed32, DecodeFixed32, DecodeFixed64;
    var rep := EncodedPrefix(first, count) + body;
    var low, high := EncodeFixed64(first), EncodeFixed32(count % 0x1_0000_0000);
    assert rep[..8] == low && rep[8..][..4] == high;
    FixedPrefixes(rep);
    FixedPrefixes(rep[8..]);
    Fixed32RoundTrip(count % 0x1_0000_0000);
    Fixed64RoundTrip(first);
  }

  /** A batch built from operations is iterated completely exactly when its count fits a signed word. */
  lemma {:induction false} ImageRoundTrip(first: DoubleWord, ops: seq<BatchOp>)
    requires forall op | op in ops :: op.Fits()
    requires |ops| < 0x1_0000_0000
    ensures StoredSequence(Image(first, ops)) == first
    ensures IterateOver(Image(first, ops)).ops == ops
    ensures IterateOver(Image(first, ops)).status == OK <==> |ops| < 0x8000_0000
  {
    hide EncodedPrefix, DecodeFixed32, StoredSequence, EncodedAll, ParseOps;
    HeaderRoundTrip(first, |ops|, EncodedAll(ops));
    OpsRoundTrip(ops);
  }

  // ---------- damaged batches ----------

  /** Operations in front of anything are handed over, and then it is its turn. */
  lemma {:induction false} OpsThen(ops: seq<BatchOp>, tail: seq<Byte>)
    requires forall op | op in ops :: op.Fits()
    ensures ParseOps(EncodedAll(ops) + tail) == Handled(ops + ParseOps(tail).ops, ParseOps(tail).status)
  {
    hide Encoded, ParseOp;
    if ops == [] {
      assert [] + tail == tail && [] + ParseOps(tail).ops == ParseOps(tail).ops;
    } else {
      var rest := EncodedAll(ops[1..]) + tail;
      assert EncodedAll(ops) + tail == Encoded(ops[0]) + rest;
      OpRoundTrip(ops[0], rest);
      OpsThen(ops[1..], tail);
      assert [ops[0]] + (ops[1..] + ParseOps(tail).ops) == ops + ParseOps(tail).ops;
    }
  }

  /** An operation that is cut short does not parse. */
  lemma {:induction false} OpCut(op: BatchOp, n: nat)
    requires op.Fits() && 0 < n < |Encoded(op)|
    ensures ParseOp(Encoded(op)[..n]) == Failed
  {
    hide LengthPrefixed, GetLengthPrefixedSlice;
    var bytes := Encoded(op)[..n];
    var key := LengthPrefixed(op.key);
    if n - 1 < |key| {
      assert bytes[1..] == key[..n - 1];
      SliceCut(op.key, n - 1);
    } else {
      var value := LengthPrefixed(op.value);
      assert bytes[1..] == key + value[..n - 1 - |key|];
      SliceRoundTrip(op.key, value[..n - 1 - |key|]);
      SliceCut(op.value, n - 1 - |key|);
    }
  }

  /** A batch cut anywhere is refused, and the operations that are whole are handed over: the first k, when the cut falls
      behind them and before the end of the next one. */
  lemma {:induction false} CutBatchIsRefused(first: DoubleWord, ops: seq<BatchOp>, k: nat, n: nat)
    requires (forall op | op in ops :: op.Fits()) && |ops| < 0x8000_0000 && k < |ops|
    requires HEADER_SIZE + |EncodedAll(ops[..k])| <= n < HEADER_SIZE + |EncodedAll(ops[..k + 1])|
    ensures n <= |Image(first, ops)|
    ensures var handled := IterateOver(Image(first, ops)[..n]);
            && handled.ops == ops[..k]
            && handled.status == if n == HEADER_SIZE + |EncodedAll(ops[..k])| then Corruption("WriteBatch has wrong count")
                                 else Corruption(if ops[k].Put? then "bad WriteBatch Put" else "bad WriteBatch Delete")
  {
    hide EncodedPrefix, ParseOps, Encoded, DecodeFixed32, EncodedAll;
    var before, op := EncodedAll(ops[..k]), Encoded(ops[k]);
    var m := n - HEADER_SIZE - |before|;
    CutBody(ops, k);
    CutImage(first, ops, n);
    assert EncodedAll(ops)[..n - HEADER_SIZE] == before + op[..m];
    HeaderRoundTrip(first, |ops|, before + op[..m]);
    OpsThen(ops[..k], op[..m]);
    CutOpComplains(ops[k], m);
    assert ops[..k] + [] == ops[..k];
  }

  lemma {:induction false} CutBody(ops: seq<BatchOp>, k: nat)
    requires k < |ops|
    ensures EncodedAll(ops[..k + 1]) == EncodedAll(ops[..k]) + Encoded(ops[k])
    ensures EncodedAll(ops) == EncodedAll(ops[..k]) + Encoded(ops[k]) + EncodedAll(ops[k + 1..])
  {
    hide Encoded, EncodedAll;
    assert ops[k..k + 1] == [ops[k]] && ops[..k + 1] == ops[..k] + ops[k..k + 1] && ops == ops[..k + 1] + ops[k + 1..];
    EncodedAllAppend(ops[..k], ops[k..k + 1]);
    EncodedOne(ops[k]);
    EncodedAllAppend(ops[..k + 1], ops[k + 1..]);
  }

  lemma {:induction false} CutImage(first: DoubleWord, ops: seq<BatchOp>, n: nat)
    requires HEADER_SIZE <= n <= HEADER_SIZE + |EncodedAll(ops)|
    ensures n <= |Image(first, ops)|
    ensures Image(first, ops)[..n] == EncodedPrefix(first, |ops|) + EncodedAll(ops)[..n - HEADER_SIZE]
  {
    hide EncodedAll, EncodeFixed64, EncodeFixed32;
  }

  lemma {:induction false} CutOpComplains(op: BatchOp, m: nat)
    requires op.Fits() && m < |Encoded(op)|
    ensures ParseOps(Encoded(op)[..m])
         == Handled([], if m == 0 then OK else Corruption(if op.Put? then "bad WriteBatch Put" else "bad WriteBatch Delete"))
  {
    hide LengthPrefixed, ParseOp;
    if m > 0 {
      OpCut(op, m);
    }
  }

  /** A byte that is no tag ends the batch with a complaint. */
  lemma {:induction false} UnknownTagIsRefused(ops: seq<BatchOp>, tag: Byte, rest: seq<Byte>)
    requires (forall op | op in ops :: op.Fits()) && tag != VALUE && tag != DELETION
    ensures ParseOps(EncodedAll(ops) + ([tag] + rest)) == Handled(ops, Corruption("unknown WriteBatch tag"))
  {
    OpsThen(ops, [tag] + rest);
    assert ops + [] == ops;
  }

  // ---------- building ----------

  lemma {:induction false} EncodedAllAppend(a: seq<BatchOp>, b: seq<BatchOp>)
    ensures EncodedAll(a + b) == EncodedAll(a) + EncodedAll(b)
    decreases |a|
  {
    hide Encoded;
    if a == [] {
      assert a + b == b;
    } else {
      assert (a + b)[1..] == a[1..] + b;
      EncodedAllAppend(a[1..], b);
    }
  }

  lemma {:induction false} EncodedOne(op: BatchOp)
    ensures EncodedAll([op]) == Encoded(op)
  {
    hide Encoded;
    assert EncodedAll([op][1..]) == [];
  }

  lemma {:induction false} WrappedSum(a: nat, b: nat)
    ensures (a % 0x1_0000_0000 + b % 0x1_0000_0000) % 0x1_0000_0000 == (a + b) % 0x1_0000_0000
  {
  }

  class WriteBatch {
    var rep: seq<Byte>
    /** The operations put in so far. */
    ghost var ops: seq<BatchOp>

    ghost predicate Valid()
      reads this
    {
      && |rep| >= HEADER_SIZE
      && rep[8..HEADER_SIZE] == EncodeFixed32(|ops| % 0x1_0000_0000)
      && rep[HEADER_SIZE..] == EncodedAll(ops)
    }

    constructor ()
      ensures Valid() && ops == []
    {
      rep := seq(HEADER_SIZE, _ => 0);
      ops := [];
    }

    method Clear()
      modifies this
      ensures Valid() && ops == []
    {
      rep := seq(HEADER_SIZE, _ => 0);
      ops := [];
    }

    function ByteSize(): nat
      reads this
    {
      |rep|
    }

    function Count(): Word
      requires |rep| >= HEADER_SIZE
      reads this
    {
      DecodeFixed32(rep[8..HEADER_SIZE])
    }

    method SetCount(n: nat)
      requires |rep| >= HEADER_SIZE
      modifies this`rep
      ensures |rep| == |old(rep)| && rep[HEADER_SIZE..] == old(rep[HEADER_SIZE..])
      ensures rep[8..HEADER_SIZE] == EncodeFixed32(n % 0x1_0000_0000)
    {
      hide EncodeFixed32;
      var count := EncodeFixed32(n % 0x1_0000_0000);
      rep := rep[..8] + count + rep[HEADER_SIZE..];
    }

    /** The stored count is the number of operations, as far as it fits. */
    lemma {:induction false} CountIsNumberOfOps()
      requires Valid()
      ensures Count() == |ops| % 0x1_0000_0000
    {
      hide EncodeFixed32, DecodeFixed32, EncodedAll;
      Fixed32RoundTrip(|ops| % 0x1_0000_0000);
    }

    method Add(op: BatchOp)
      requires Valid()
      modifies this
      ensures Valid() && ops == old(ops) + [op]
    {
      hide EncodeFixed32, DecodeFixed32, EncodedAll, Encoded;
      CountIsNumberOfOps();
      var count: int := Count();
      SetCount(count + 1);
      WrappedSum(|ops|, 1);
      rep := rep + Encoded(op);
      EncodedAllAppend(ops, [op]);
      EncodedOne(op);
      ops := ops + [op];
    }

    /** Append the operations of another batch. */
    method Append(src: WriteBatch)
      requires Valid() && src.Valid()
      modifies this
      ensures Valid() && ops == old(ops) + old(src.ops)
    {
      hide EncodeFixed32, DecodeFixed32, EncodedAll;
      CountIsNumberOfOps();
      src.CountIsNumberOfOps();
      var count: int, more: int := Count(), src.Count();
      var body := src.rep[HEADER_SIZE..];
      SetCount(count + more);
      WrappedSum(|ops|, |old(src.ops)|);
      rep := rep + body;
      EncodedAllAppend(ops, old(src.ops));
      ops := ops + old(src.ops);
    }

    /** After this the batch is what goes into the log. */
    method SetSequence(first: DoubleWord)
      requires Valid()
      modifies this`rep
      ensures Valid() && rep == Image(first, ops)
    {
      hide EncodeFixed32, EncodeFixed64, EncodedAll;
      var sequence := EncodeFixed64(first);
      rep := sequence + rep[8..];
      assert rep == sequence + rep[8..HEADER_SIZE] + rep[HEADER_SIZE..];
    }
  }

  // ---------- inserting into a memtable ----------

  /** One call of MemTable::Add. */
  datatype Addition = Addition(sequence: DoubleWord, op: BatchOp)

  function Additions(first: DoubleWord, ops: seq<BatchOp>): (r: seq<Addition>)
    ensures |r| == |ops|
  {
    seq(|ops|, i requires 0 <= i < |ops| => Addition((first + i) % 0x1_0000_0000_0000_0000, ops[i]))
  }

  lemma {:induction false} OneMoreAddition(first: DoubleWord, ops: seq<BatchOp>, n: nat, sequence: int)
    requires n < |ops| && sequence == (first + n) % 0x1_0000_0000_0000_0000
    ensures Additions(first, ops[..n + 1]) == Additions(first, ops[..n]) + [Addition(sequence, ops[n])]
    ensures (sequence + 1) % 0x1_0000_0000_0000_0000 == (first + (n + 1)) % 0x1_0000_0000_0000_0000
  {
  }

  /** WriteBatchInternal::InsertInto: whatever the bytes are, the operations before the first bad one are added. */
  method InsertInto(rep: seq<Byte>) returns (added: seq<Addition>, status: Status)
    requires |rep| >= HEADER_SIZE
    ensures added == Additions(StoredSequence(rep), IterateOver(rep).ops)
    ensures status == IterateOver(rep).status
  {
    hide StoredSequence, StoredCount, ParseOp, Additions;
    var sequence: int := StoredSequence(rep);
    var input := rep[HEADER_SIZE..];
    var found := 0;
    ghost var whole := ParseOps(input);
    added, status := [], OK;
    assert whole.ops[..0] == [] && whole.ops[0..] == whole.ops;
    while input != []
      invariant found == |added| <= |whole.ops|
      invariant added == Additions(StoredSequence(rep), whole.ops[..found])
      invariant sequence == (StoredSequence(rep) + found) % 0x1_0000_0000_0000_0000
      invariant status == OK && ParseOps(input) == Handled(whole.ops[found..], whole.status)
      decreases |input|
    {
      match ParseOp(input)
      case Failed =>
        assert whole.ops[..found] == whole.ops;
        return added, Corruption(Complaint(input[0]));
      case Got(op, rest) =>
        OneMoreAddition(StoredSequence(rep), whole.ops, found, sequence);
        added := added + [Addition(sequence, op)];
        found, sequence := found + 1, (sequence + 1) % 0x1_0000_0000_0000_0000;
        input := rest;
    }
    assert whole.ops[..found] == whole.ops;
    if found != StoredCount(rep) {
      status := Corruption("WriteBatch has wrong count");
    }
  }
}
