/**
 * Reading back a log that stops anywhere: the records wholly inside it come back, in order, and
 * nothing is reported as corrupt.
 */
module LogRoundTrip {
  import opened Coding
  import opened Crc32c
  import opened LogFormat

  // ---------- one fragment ----------

  ghost predicate Holds(file: seq<Byte>, p: nat, bytes: seq<Byte>) {
    p + |bytes| <= |file| && file[p..p + |bytes|] == bytes
  }

  /** The file ends inside `bytes`, which start at p. */
  ghost predicate StopsIn(file: seq<Byte>, p: nat, bytes: seq<Byte>) {
    p <= |file| < p + |bytes| && file[p..] == bytes[..|file| - p]
  }

  lemma {:induction false} HoldsParts(file: seq<Byte>, p: nat, a: seq<Byte>, b: seq<Byte>)
    requires Holds(file, p, a + b)
    ensures Holds(file, p, a) && Holds(file, p + |a|, b)
  {
    assert (a + b)[..|a|] == a && (a + b)[|a|..] == b;
  }

  lemma {:induction false} StopsInParts(file: seq<Byte>, p: nat, a: seq<Byte>, b: seq<Byte>)
    requires StopsIn(file, p, a + b)
    ensures if |file| < p + |a| then StopsIn(file, p, a) else Holds(file, p, a) && StopsIn(file, p + |a|, b)
  {
    var k := |file| - p;
    if k < |a| {
      assert (a + b)[..k] == a[..k];
    } else {
      assert file[p..p + |a|] == file[p..][..|a|] == (a + b)[..k][..|a|] == a;
      assert file[p + |a|..] == file[p..][|a|..] == (a + b)[..k][|a|..] == b[..k - |a|];
    }
  }

  lemma {:induction false} HeaderParses(
      crc: Checksum, buffer: seq<Byte>, torn: bool, kind: Byte, payload: seq<Byte>)
    requires |payload| <= 0xffff && kind != 0
    requires FragmentBytes(crc, kind, payload) <= buffer
    ensures ParseFragment(crc, buffer, torn) == Piece(kind, payload, HEADER + |payload|)
  {
    var bytes := FragmentBytes(crc, kind, payload);
    assert buffer[4] == bytes[4] && buffer[5] == bytes[5] && buffer[6] == bytes[6];
    assert buffer[..4] == bytes[..4] == EncodeFixed32(Mask(crc([kind] + payload)));
    assert buffer[6..HEADER + |payload|] == bytes[6..] == [kind] + payload;
    assert buffer[HEADER..HEADER + |payload|] == bytes[HEADER..] == payload;
    assert DecodeFixed32(buffer) == DecodeFixed32(buffer[..4]);
    Fixed32RoundTrip(Mask(crc([kind] + payload)));
    UnmaskOfMask(crc([kind] + payload));
  }

  lemma {:induction false} TornHeaderParses(crc: Checksum, buffer: seq<Byte>, kind: Byte, payload: seq<Byte>)
    requires |payload| <= 0xffff && |buffer| >= HEADER
    requires buffer < FragmentBytes(crc, kind, payload)
    ensures ParseFragment(crc, buffer, true) == Eof
  {
    var bytes := FragmentBytes(crc, kind, payload);
    assert buffer[4] == bytes[4] && buffer[5] == bytes[5];
  }

  lemma {:induction false} FragmentReads(crc: Checksum, file: seq<Byte>, q: nat, kind: Byte, payload: seq<Byte>)
    requires |payload| <= 0xffff && q + HEADER + |payload| <= BlockEnd(q)
    requires kind != 0
    requires Holds(file, q, FragmentBytes(crc, kind, payload))
    ensures ReadPhysical(crc, file, q) == Piece(kind, payload, q + HEADER + |payload|)
  {
    hide ParseFragment, FragmentBytes;
    var bytes := FragmentBytes(crc, kind, payload);
    assert bytes <= file[q..BufferEnd(file, q)];
    HeaderParses(crc, file[q..BufferEnd(file, q)], BlockEnd(q) > |file|, kind, payload);
  }

  lemma {:induction false} TornFragmentIsEnd(crc: Checksum, file: seq<Byte>, q: nat, kind: Byte, payload: seq<Byte>)
    requires |payload| <= 0xffff && q + HEADER + |payload| <= BlockEnd(q)
    requires StopsIn(file, q, FragmentBytes(crc, kind, payload))
    ensures ReadPhysical(crc, file, q) == Eof
  {
    hide ParseFragment, FragmentBytes;
    if |file| - q >= HEADER {
      assert file[q..|file|] == file[q..];
      TornHeaderParses(crc, file[q..], kind, payload);
    }
  }

  lemma {:induction false} PaddingIsSkipped(crc: Checksum, file: seq<Byte>, p: nat)
    requires p + Padding(p) <= |file|
    ensures ReadPhysical(crc, file, p) == ReadPhysical(crc, file, p + Padding(p))
  {
  }

  lemma {:induction false} TornPaddingIsEnd(crc: Checksum, file: seq<Byte>, p: nat)
    requires p <= |file| < p + Padding(p)
    ensures ReadPhysical(crc, file, p) == Eof
  {
  }

  /** Padding and fragment fit into the block they are meant for. */
  lemma {:induction false} StepFits(p: nat, left: nat)
    ensures p + Padding(p) + HEADER + Taken(p, left) <= BlockEnd(p + Padding(p))
    ensures Taken(p, left) <= 0xffff
  {
  }

  lemma {:induction false} StepHoldsFragment(
      crc: Checksum, file: seq<Byte>, p: nat, left: seq<Byte>, begin: bool, n: nat)
    requires n == Taken(p, |left|)
    requires Holds(file, p, Step(crc, p, left, begin))
    ensures n <= 0xffff
    ensures Holds(file, p + Padding(p), FragmentBytes(crc, KindOf(begin, n == |left|), left[..n]))
  {
    hide FragmentBytes, Zeros, Padding;
    HoldsParts(file, p, Zeros(Padding(p)), FragmentBytes(crc, KindOf(begin, n == |left|), left[..n]));
  }

  lemma {:induction false} StepReads(crc: Checksum, file: seq<Byte>, p: nat, left: seq<Byte>, begin: bool, n: nat)
    requires n == Taken(p, |left|)
    requires Holds(file, p, Step(crc, p, left, begin))
    ensures ReadPhysical(crc, file, p)
         == Piece(KindOf(begin, n == |left|), left[..n], p + |Step(crc, p, left, begin)|)
  {
    hide ReadPhysical, FragmentBytes, Step, Padding, Taken;
    StepHoldsFragment(crc, file, p, left, begin, n);
    PaddingIsSkipped(crc, file, p);
    StepFits(p, |left|);
    FragmentReads(crc, file, p + Padding(p), KindOf(begin, n == |left|), left[..n]);
  }

  lemma {:induction false} TornStepIsEnd(crc: Checksum, file: seq<Byte>, p: nat, left: seq<Byte>, begin: bool)
    requires StopsIn(file, p, Step(crc, p, left, begin))
    ensures ReadPhysical(crc, file, p) == Eof
  {
    var n := Taken(p, |left|);
    var fragment := FragmentBytes(crc, KindOf(begin, n == |left|), left[..n]);
    StopsInParts(file, p, Zeros(Padding(p)), fragment);
    if |file| < p + Padding(p) {
      TornPaddingIsEnd(crc, file, p);
    } else {
      PaddingIsSkipped(crc, file, p);
      StepFits(p, |left|);
      TornFragmentIsEnd(crc, file, p + Padding(p), KindOf(begin, n == |left|), left[..n]);
    }
  }

  // ---------- one record ----------

  /** Why the fragmentation loop ends: a fragment without room for payload is followed by one with room. */
  lemma {:induction false} StepProgress(p: nat, left: nat)
    requires Taken(p, left) == 0 < left
    ensures Room(p) == 0 && Room(p + Padding(p) + HEADER) > 0
  {
  }

  lemma {:induction false} LastPieceEnds(
      crc: Checksum, file: seq<Byte>, p: nat, begin: bool, scratch: seq<Byte>, payload: seq<Byte>, next: nat)
    requires p <= |file|
    requires begin ==> scratch == []
    requires ReadPhysical(crc, file, p) == Piece(KindOf(begin, true), payload, next)
    ensures ReadLogical(crc, file, p, !begin, scratch) == Record(scratch + payload, next, [])
  {
  }

  lemma {:induction false} EofEnds(crc: Checksum, file: seq<Byte>, p: nat, inside: bool, scratch: seq<Byte>)
    requires p <= |file|
    requires !inside ==> scratch == []
    requires ReadPhysical(crc, file, p) == Eof
    ensures ReadLogical(crc, file, p, inside, scratch) == End(|file|, [])
  {
  }

  lemma {:induction false} EarlierPieceGoesOn(
      crc: Checksum, file: seq<Byte>, p: nat, begin: bool, scratch: seq<Byte>, payload: seq<Byte>, next: nat)
    requires p <= |file|
    requires begin ==> scratch == []
    requires ReadPhysical(crc, file, p) == Piece(KindOf(begin, false), payload, next)
    ensures ReadLogical(crc, file, p, !begin, scratch) == ReadLogical(crc, file, next, true, scratch + payload)
  {
    assert begin ==> scratch + payload == payload;
  }

  lemma {:induction false} LastPieceReads(
      crc: Checksum, file: seq<Byte>, p: nat, left: seq<Byte>, begin: bool, scratch: seq<Byte>)
    requires Taken(p, |left|) == |left| && (begin ==> scratch == [])
    requires Holds(file, p, Step(crc, p, left, begin))
    ensures ReadLogical(crc, file, p, !begin, scratch) == Record(scratch + left, p + |Step(crc, p, left, begin)|, [])
  {
    hide Step, ReadLogical, ReadPhysical, Taken, KindOf;
    StepReads(crc, file, p, left, begin, |left|);
    assert left[..|left|] == left;
    LastPieceEnds(crc, file, p, begin, scratch, left, p + |Step(crc, p, left, begin)|);
  }

  lemma {:induction false} EarlierPieceReads(
      crc: Checksum, file: seq<Byte>, p: nat, left: seq<Byte>, begin: bool, scratch: seq<Byte>)
    requires Taken(p, |left|) < |left| && (begin ==> scratch == [])
    requires Holds(file, p, Step(crc, p, left, begin))
    ensures ReadLogical(crc, file, p, !begin, scratch)
         == ReadLogical(crc, file, p + |Step(crc, p, left, begin)|, true, scratch + left[..Taken(p, |left|)])
  {
    hide Step, ReadLogical, ReadPhysical, Taken, KindOf;
    var n := Taken(p, |left|);
    StepReads(crc, file, p, left, begin, n);
    EarlierPieceGoesOn(crc, file, p, begin, scratch, left[..n], p + |Step(crc, p, left, begin)|);
  }

  /** A record wholly in the file is read back, whatever follows it, and the reader stands right behind it. */
  lemma {:induction false} RecordReads(
      crc: Checksum, file: seq<Byte>, p: nat, left: seq<Byte>, begin: bool, scratch: seq<Byte>)
    requires Holds(file, p, Emit(crc, p, left, begin))
    requires begin ==> scratch == []
    ensures ReadLogical(crc, file, p, !begin, scratch)
         == Record(scratch + left, p + |Emit(crc, p, left, begin)|, [])
    decreases |left|, if Room(p) == 0 then 1 else 0
  {
    hide Holds;
    hide Step, ReadLogical, Taken, Room, Padding;
    var n := Taken(p, |left|);
    if n == 0 < |left| {
      StepProgress(p, |left|);
    }
    var bytes := Step(crc, p, left, begin);
    if n == |left| {
      LastPieceReads(crc, file, p, left, begin, scratch);
    } else {
      HoldsParts(file, p, bytes, Emit(crc, p + |bytes|, left[n..], false));
      EarlierPieceReads(crc, file, p, left, begin, scratch);
      RecordReads(crc, file, p + |bytes|, left[n..], false, scratch + left[..n]);
      assert scratch + left[..n] + left[n..] == scratch + left;
    }
  }

  /** A record the file stops in is given up without a report. */
  lemma {:induction false} TornRecordIsEnd(
      crc: Checksum, file: seq<Byte>, p: nat, left: seq<Byte>, begin: bool, scratch: seq<Byte>)
    requires StopsIn(file, p, Emit(crc, p, left, begin))
    requires begin ==> scratch == []
    ensures ReadLogical(crc, file, p, !begin, scratch) == End(|file|, [])
    decreases |left|, if Room(p) == 0 then 1 else 0
  {
    hide Step, ReadLogical, Taken, Room, Padding;
    var n := Taken(p, |left|);
    if n == 0 < |left| {
      StepProgress(p, |left|);
    }
    var bytes := Step(crc, p, left, begin);
    if n < |left| {
      StopsInParts(file, p, bytes, Emit(crc, p + |bytes|, left[n..], false));
    }
    if |file| < p + |bytes| {
      TornStepIsEnd(crc, file, p, left, begin);
      EofEnds(crc, file, p, !begin, scratch);
    } else {
      EarlierPieceReads(crc, file, p, left, begin, scratch);
      TornRecordIsEnd(crc, file, p + |bytes|, left[n..], false, scratch + left[..n]);
    }
  }

  // ---------- whole logs ----------

  /** The file stops inside record k of the log that starts at p. */
  ghost predicate StopsInRecord(crc: Checksum, file: seq<Byte>, p: nat, records: seq<seq<Byte>>, k: nat)
    requires k <= |records|
  {
    && p + |WriteAll(crc, p, records[..k])| <= |file|
    && (k < |records| ==> |file| < p + |WriteAll(crc, p, records[..k + 1])|)
  }

  lemma {:induction false} WriteAllAppend(crc: Checksum, p: nat, a: seq<seq<Byte>>, b: seq<seq<Byte>>)
    ensures WriteAll(crc, p, a + b) == WriteAll(crc, p, a) + WriteAll(crc, p + |WriteAll(crc, p, a)|, b)
    decreases |a|
  {
    hide Emit;
    if a == [] {
      assert a + b == b;
    } else {
      assert (a + b)[1..] == a[1..] + b;
      WriteAllAppend(crc, p + |Emit(crc, p, a[0], true)|, a[1..], b);
    }
  }

  lemma {:induction false} OneRecordLog(crc: Checksum, p: nat, records: seq<seq<Byte>>)
    requires |records| >= 1
    ensures WriteAll(crc, p, records[..1]) == Emit(crc, p, records[0], true)
  {
    hide Emit;
    assert records[..1] == [records[0]] && records[..1][1..] == [];
  }

  /** The first record of a log, and what is left behind it. */
  lemma {:induction false} FirstRecordReads(
      crc: Checksum, file: seq<Byte>, p: nat, record: seq<Byte>, rest: seq<Byte>)
    requires p + |Emit(crc, p, record, true)| <= |file| <= p + |Emit(crc, p, record, true)| + |rest|
    requires file[p..] == (Emit(crc, p, record, true) + rest)[..|file| - p]
    ensures ReadLogical(crc, file, p, false, []) == Record(record, p + |Emit(crc, p, record, true)|, [])
    ensures (
      var next := p + |Emit(crc, p, record, true)|;
      file[next..] == rest[..|file| - next])
  {
    hide Emit, ReadLogical;
    var bytes := Emit(crc, p, record, true);
    assert file[p..p + |bytes|] == file[p..][..|bytes|] == bytes;
    RecordReads(crc, file, p, record, true, []);
    assert [] + record == record;
    assert file[p + |bytes|..] == file[p..][|bytes|..];
  }

  lemma {:induction false} NothingToRead(crc: Checksum, file: seq<Byte>, p: nat)
    requires p == |file|
    ensures ReadLogical(crc, file, p, false, []) == End(p, [])
  {
    assert ReadPhysical(crc, file, p) == Eof;
    EofEnds(crc, file, p, false, []);
  }

  /** Reading from p a log of `records` that is cut off inside record k. */
  lemma {:induction false} CutLogReads(crc: Checksum, file: seq<Byte>, p: nat, records: seq<seq<Byte>>, k: nat)
    requires k <= |records| && StopsInRecord(crc, file, p, records, k)
    requires p <= |file| <= p + |WriteAll(crc, p, records)|
    requires file[p..] == WriteAll(crc, p, records)[..|file| - p]
    ensures ReadAll(crc, file, p) == Contents(records[..k], [])
    decreases |records|
  {
    hide Emit, ReadLogical, StopsInRecord;
    if records == [] {
      NothingToRead(crc, file, p);
    } else {
      var bytes := Emit(crc, p, records[0], true);
      var rest := WriteAll(crc, p + |bytes|, records[1..]);
      assert WriteAll(crc, p, records) == bytes + rest;
      hide WriteAll, ReadAll;
      StopsInRest(crc, file, p, records, k);
      if k == 0 {
        CutFirstRecord(crc, file, p, records[0], rest);
      } else {
        FirstRecordReads(crc, file, p, records[0], rest);
        CutLogReads(crc, file, p + |bytes|, records[1..], k - 1);
        OneMoreRead(crc, file, p, records, k);
      }
    }
  }

  lemma {:induction false} CutFirstRecord(crc: Checksum, file: seq<Byte>, p: nat, record: seq<Byte>, rest: seq<Byte>)
    requires p <= |file| < p + |Emit(crc, p, record, true)|
    requires file[p..] == (Emit(crc, p, record, true) + rest)[..|file| - p]
    ensures ReadAll(crc, file, p) == Contents([], [])
  {
    hide Emit, ReadLogical;
    StopsInParts(file, p, Emit(crc, p, record, true), rest);
    TornRecordIsEnd(crc, file, p, record, true, []);
  }

  lemma {:induction false} OneMoreRead(crc: Checksum, file: seq<Byte>, p: nat, records: seq<seq<Byte>>, k: nat)
    requires 0 < k <= |records|
    requires p <= |file| && ReadLogical(crc, file, p, false, []) == Record(records[0], ReadLogical(crc, file, p, false, []).next, [])
    requires ReadAll(crc, file, ReadLogical(crc, file, p, false, []).next) == Contents(records[1..][..k - 1], [])
    ensures ReadAll(crc, file, p) == Contents(records[..k], [])
  {
    hide ReadLogical;
    assert ReadAll(crc, file, p).records == [records[0]] + records[1..][..k - 1] == records[..k];
  }

  /** Where the file stops, seen from behind the first record. */
  lemma {:induction false} StopsInRest(crc: Checksum, file: seq<Byte>, p: nat, records: seq<seq<Byte>>, k: nat)
    requires records != [] && k <= |records| && StopsInRecord(crc, file, p, records, k)
    ensures (
      var next := p + |Emit(crc, p, records[0], true)|;
      if k == 0 then |file| < next else next <= |file| && StopsInRecord(crc, file, next, records[1..], k - 1))
  {
    hide Emit;
    if k == 0 {
      OneRecordLog(crc, p, records);
    } else {
      assert records[..k][1..] == records[1..][..k - 1];
      assert k < |records| ==> records[..k + 1][1..] == records[1..][..k];
    }
  }

  /**
   * A log cut off at any byte yields exactly the records it holds completely: those before record k
   * when the cut falls at or behind the end of record k - 1 and before the end of record k.
   */
  lemma {:induction false} TruncatedLogYieldsWholeRecords(
      crc: Checksum, records: seq<seq<Byte>>, n: nat, k: nat)
    requires n <= |WriteAll(crc, 0, records)|
    requires k <= |records| && |WriteAll(crc, 0, records[..k])| <= n
    requires k < |records| ==> n < |WriteAll(crc, 0, records[..k + 1])|
    ensures ReadAll(crc, WriteAll(crc, 0, records)[..n], 0) == Contents(records[..k], [])
  {
    CutLogReads(crc, WriteAll(crc, 0, records)[..n], 0, records, k);
  }

  /** The whole file gives all records back. */
  lemma {:induction false} WholeLogYieldsAllRecords(crc: Checksum, records: seq<seq<Byte>>)
    ensures ReadAll(crc, WriteAll(crc, 0, records), 0) == Contents(records, [])
  {
    var file := WriteAll(crc, 0, records);
    assert records[..|records|] == records && file[..|file|] == file;
    TruncatedLogYieldsWholeRecords(crc, records, |file|, |records|);
  }

  /** Records that end at or before the cut are among those that come back. */
  lemma {:induction false} CutBehind(crc: Checksum, records: seq<seq<Byte>>, n: nat, m: nat) returns (k: nat)
    requires m <= |records| && |WriteAll(crc, 0, records[..m])| <= n <= |WriteAll(crc, 0, records)|
    ensures m <= k <= |records|
    ensures ReadAll(crc, WriteAll(crc, 0, records)[..n], 0) == Contents(records[..k], [])
  {
    hide WriteAll, ReadAll;
    k := m;
    while k < |records| && |WriteAll(crc, 0, records[..k + 1])| <= n
      invariant m <= k <= |records| && |WriteAll(crc, 0, records[..k])| <= n
    {
      k := k + 1;
    }
    TruncatedLogYieldsWholeRecords(crc, records, n, k);
  }
}
