/**
 * What the log reader makes of an arbitrary file: only fragments that stand in the file with their checksum are used, records
 * are whole runs of them, and what is dropped is reported.
 */
module LogSoundness {
  import opened Common
  import opened Coding
  import opened Crc32c
  import opened LogFormat
  import opened LogRoundTrip

  // ---------- fragments ----------

  /** Where the next header at or after p starts: block trailers are too short for one. */
  function HeaderAt(file: seq<Byte>, p: nat): (q: Option<nat>)
    requires p <= |file|
    ensures q.Some? ==> p <= q.value && q.value + HEADER <= BufferEnd(file, q.value)
    decreases |file| - p
  {
    if BufferEnd(file, p) - p >= HEADER then Some(p)
    else if BlockEnd(p) > |file| then None
    else HeaderAt(file, BlockEnd(p))
  }

  /** The bytes that the header at q announces as its payload. */
  function Announced(file: seq<Byte>, q: nat): seq<Byte>
    requires q + HEADER <= |file|
    requires q + HEADER + StoredLength(file[q..]) <= |file|
  {
    file[q + HEADER..q + HEADER + StoredLength(file[q..])]
  }

  lemma {:induction false} LowDigit(high: nat, low: nat)
    requires low < 0x100
    ensures (low + 0x100 * high) % 0x100 == low && (low + 0x100 * high) / 0x100 == high
  {
  }

  lemma {:induction false} Shifted(w: nat)
    ensures w / 0x1_0000 == w / 0x100 / 0x100 && w / 0x100_0000 == w / 0x100 / 0x100 / 0x100
  {
  }

  lemma {:induction false} FixedIsItsBytes(b: seq<Byte>)
    requires |b| >= 4
    ensures EncodeFixed32(DecodeFixed32(b)) == b[..4]
  {
    var b1: nat, b2: nat, b3: nat := b[1], b[2], b[3];
    LowDigit(b1 + 0x100 * (b2 + 0x100 * b3), b[0]);
    LowDigit(b2 + 0x100 * b3, b1);
    LowDigit(b3, b2);
    Shifted(DecodeFixed32(b));
  }

  /** The checksum test compares the whole fragment with what would have been written. */
  lemma {:induction false} ChecksumDecides(crc: Checksum, buffer: seq<Byte>)
    requires |buffer| >= HEADER && HEADER + StoredLength(buffer) <= |buffer|
    ensures var end := HEADER + StoredLength(buffer);
            crc(buffer[6..end]) == Unmask(DecodeFixed32(buffer))
            <==> buffer[..end] == FragmentBytes(crc, buffer[6], buffer[HEADER..end])
  {
    hide DecodeFixed32, EncodeFixed32, Mask, Unmask;
    var n := StoredLength(buffer);
    var end := HEADER + n;
    var stored := DecodeFixed32(buffer);
    var kind, payload := buffer[6], buffer[HEADER..end];
    assert buffer[6..end] == [kind] + payload;
    assert [buffer[4], buffer[5]] == [n % 0x100, n / 0x100];
    FixedIsItsBytes(buffer);
    assert buffer[..end] == buffer[..4] + [buffer[4], buffer[5], kind] + payload;
    var actual := crc([kind] + payload);
    if actual == Unmask(stored) {
      MaskOfUnmask(stored);
    }
    if buffer[..end] == FragmentBytes(crc, kind, payload) {
      assert buffer[..4] == buffer[..end][..4] == EncodeFixed32(Mask(actual));
      SameFixed(Mask(actual), stored);
      UnmaskOfMask(actual);
    }
  }

  lemma {:induction false} SameFixed(a: Word, b: Word)
    requires EncodeFixed32(a) == EncodeFixed32(b)
    ensures a == b
  {
    Fixed32RoundTrip(a);
    Fixed32RoundTrip(b);
  }

  /**
   * What stands at a header: the payload it announces, if that ends inside the block and the fragment is byte for byte what
   * the writer writes for it.  Otherwise the rest of the block is dropped.
   */
  function AtHeader(crc: Checksum, file: seq<Byte>, q: nat): Physical
    requires q + HEADER <= BufferEnd(file, q) <= |file|
  {
    var end, n, kind := BufferEnd(file, q), StoredLength(file[q..]), file[q + 6];
    if q + HEADER + n > end then
      if BlockEnd(q) > |file| then Eof else Bad(end, [Report(end - q, "bad record length")])
    else if kind == 0 && n == 0 then Bad(end, [])
    else if file[q..q + HEADER + n] == FragmentBytes(crc, kind, Announced(file, q)) then
      Piece(kind, Announced(file, q), q + HEADER + n)
    else Bad(end, [Report(end - q, "checksum mismatch")])
  }

  lemma {:induction false} HeaderIsParsed(crc: Checksum, file: seq<Byte>, q: nat)
    requires q + HEADER <= BufferEnd(file, q) <= |file|
    ensures ParseFragment(crc, file[q..BufferEnd(file, q)], BlockEnd(q) > |file|).From(q) == AtHeader(crc, file, q)
  {
    hide FragmentBytes, DecodeFixed32, Unmask;
    var buffer := file[q..BufferEnd(file, q)];
    assert StoredLength(buffer) == StoredLength(file[q..]);
    var end := HEADER + StoredLength(buffer);
    if end <= |buffer| {
      assert buffer[..end] == file[q..q + end];
      assert buffer[HEADER..end] == Announced(file, q);
      ChecksumDecides(crc, buffer);
    }
  }

  /** For any file: blocks are searched for the next header, and what stands there decides. */
  lemma {:induction false} WhatIsRead(crc: Checksum, file: seq<Byte>, p: nat)
    requires p <= |file|
    ensures ReadPhysical(crc, file, p)
         == match HeaderAt(file, p) case None => Eof case Some(q) => AtHeader(crc, file, q)
    decreases |file| - p
  {
    hide FragmentBytes, ParseFragment, StoredLength;
    var end := BufferEnd(file, p);
    if end - p >= HEADER {
      HeaderIsParsed(crc, file, p);
    } else if BlockEnd(p) <= |file| {
      WhatIsRead(crc, file, end);
    }
  }

  /** What the reader uses stands in the file, with its checksum. */
  lemma {:induction false} PiecesAreFragments(crc: Checksum, file: seq<Byte>, p: nat)
    requires p <= |file| && ReadPhysical(crc, file, p).Piece?
    ensures var piece := ReadPhysical(crc, file, p);
            var start := piece.next - HEADER - |piece.payload|;
            && p <= start && piece.next <= BlockEnd(start) && |piece.payload| <= 0xffff
            && file[start..piece.next] == FragmentBytes(crc, piece.kind, piece.payload)
  {
    hide FragmentBytes, ReadPhysical;
    WhatIsRead(crc, file, p);
  }

  /** A fragment that differs from what is written for its payload is dropped with the rest of its block, and reported. */
  lemma {:induction false} DamageIsReported(crc: Checksum, file: seq<Byte>, q: nat, kind: Byte, payload: seq<Byte>)
    requires q + HEADER + |payload| <= BufferEnd(file, q) <= |file|
    requires |payload| <= 0xffff && (kind != 0 || payload != [])
    requires file[q + 4..q + HEADER + |payload|] == [|payload| % 0x100, |payload| / 0x100, kind] + payload
    ensures file[q..q + HEADER + |payload|] == FragmentBytes(crc, kind, payload)
            ==> ReadPhysical(crc, file, q) == Piece(kind, payload, q + HEADER + |payload|)
    ensures file[q..q + HEADER + |payload|] != FragmentBytes(crc, kind, payload)
            ==> ReadPhysical(crc, file, q) == Bad(BufferEnd(file, q), [Report(BufferEnd(file, q) - q, "checksum mismatch")])
  {
    hide FragmentBytes, ReadPhysical;
    var header := file[q + 4..q + HEADER + |payload|];
    assert file[q..][4] == header[0] && file[q..][5] == header[1] && file[q + 6] == header[2];
    assert Announced(file, q) == header[3..] == payload;
    WhatIsRead(crc, file, q);
  }

  lemma {:induction false} SameFragmentSameSum(crc: Checksum, kind: Byte, payload: seq<Byte>, kind': Byte, payload': seq<Byte>)
    requires |payload| == |payload'| <= 0xffff
    requires FragmentBytes(crc, kind, payload)[..4] == FragmentBytes(crc, kind', payload')[..4]
    ensures crc([kind] + payload) == crc([kind'] + payload')
  {
    hide EncodeFixed32, Mask;
    var a, b := crc([kind] + payload), crc([kind'] + payload');
    assert FragmentBytes(crc, kind, payload)[..4] == EncodeFixed32(Mask(a));
    assert FragmentBytes(crc, kind', payload')[..4] == EncodeFixed32(Mask(b));
    SameFixed(Mask(a), Mask(b));
    UnmaskOfMask(a);
    UnmaskOfMask(b);
  }

  /** A fragment whose type or payload was changed behind its checksum is not used, unless the two have the same sum. */
  lemma {:induction false} ChangedByteIsCaught(
      crc: Checksum, file: seq<Byte>, q: nat, kind: Byte, payload: seq<Byte>, kind': Byte, payload': seq<Byte>)
    requires |payload| == |payload'| <= 0xffff && (kind' != 0 || payload' != [])
    requires crc([kind] + payload) != crc([kind'] + payload')
    requires q + HEADER + |payload| <= BufferEnd(file, q) <= |file|
    requires file[q..q + HEADER + |payload|] == FragmentBytes(crc, kind, payload)[..6] + [kind'] + payload'
    ensures ReadPhysical(crc, file, q) == Bad(BufferEnd(file, q), [Report(BufferEnd(file, q) - q, "checksum mismatch")])
  {
    hide ReadPhysical, EncodeFixed32, Mask;
    var bytes := FragmentBytes(crc, kind, payload)[..6] + [kind'] + payload';
    var header := file[q + 4..q + HEADER + |payload|];
    assert header == bytes[4..] == [|payload| % 0x100, |payload| / 0x100, kind'] + payload';
    if bytes == FragmentBytes(crc, kind', payload') {
      assert bytes[..4] == FragmentBytes(crc, kind, payload)[..4];
      SameFragmentSameSum(crc, kind, payload, kind', payload');
    }
    DamageIsReported(crc, file, q, kind', payload');
  }

  // ---------- records ----------

  /** The outcomes of all physical reads from p on. */
  function Outcomes(crc: Checksum, file: seq<Byte>, p: nat): seq<Physical>
    requires p <= |file|
    decreases |file| - p
  {
    var outcome := ReadPhysical(crc, file, p);
    if outcome.Eof? then [] else [outcome] + Outcomes(crc, file, outcome.next)
  }

  predicate Is(outcome: Physical, kind: Byte) {
    outcome.Piece? && outcome.kind == kind
  }

  /** A run of fragments that makes one record: a full one, or a first, any number of middles, and a last. */
  ghost predicate Whole(run: seq<Physical>) {
    || (|run| == 1 && Is(run[0], FULL))
    || (|run| >= 2 && Is(run[0], FIRST) && Is(run[|run| - 1], LAST) && forall i | 1 <= i < |run| - 1 :: Is(run[i], MIDDLE))
  }

  function PayloadOf(run: seq<Physical>): seq<Byte> {
    if run == [] then []
    else PayloadOf(run[..|run| - 1]) + if run[|run| - 1].Piece? then run[|run| - 1].payload else []
  }

  /** The payloads of the whole runs, in order; whatever is not part of one is passed over, and a fragment of the type that
      the code uses for the end of the file ends the search. */
  ghost function WholeRuns(outcomes: seq<Physical>): seq<seq<Byte>> {
    if outcomes == [] || Is(outcomes[0], EOF) then []
    else if n: nat :| n <= |outcomes| && Whole(outcomes[..n]) then
      [PayloadOf(outcomes[..n])] + WholeRuns(outcomes[n..])
    else WholeRuns(outcomes[1..])
  }

  /** No run is the beginning of another. */
  lemma {:induction false} RunEnds(outcomes: seq<Physical>, n: nat)
    requires n <= |outcomes| && Whole(outcomes[..n])
    ensures WholeRuns(outcomes) == [PayloadOf(outcomes[..n])] + WholeRuns(outcomes[n..])
  {
    hide PayloadOf;
    var whole := outcomes[..n];
    assert outcomes[0] == whole[0] && outcomes[n - 1] == whole[n - 1];
    forall m: nat | m <= |outcomes| && Whole(outcomes[..m]) ensures m == n {
      var other := outcomes[..m];
      assert outcomes[0] == other[0] && outcomes[m - 1] == other[m - 1];
      assert m <= n ==> whole[m - 1] == outcomes[m - 1];
      assert n <= m ==> other[n - 1] == outcomes[n - 1];
    }
  }

  /** A run that has begun: at most its first fragment is not in the middle. */
  ghost predicate Begun(run: seq<Physical>) {
    forall i | 0 <= i < |run| :: Is(run[i], MIDDLE) || (i == 0 && Is(run[i], FIRST))
  }

  /** What has begun is passed over if it does not go on. */
  lemma {:induction false} PassedOver(run: seq<Physical>, rest: seq<Physical>)
    requires Begun(run) && (rest != [] ==> !Is(rest[0], MIDDLE) && !Is(rest[0], LAST))
    ensures WholeRuns(run + rest) == WholeRuns(rest)
  {
    hide PayloadOf;
    var all := run + rest;
    if run == [] {
      assert all == rest;
    } else {
      assert all[0] == run[0] && all[1..] == run[1..] + rest;
      forall n: nat | n <= |all| ensures !Whole(all[..n]) {
        if 0 < n <= |run| {
          assert all[..n][n - 1] == run[n - 1];
        } else if n > |run| {
          assert all[..n][|run|] == rest[0];
        }
      }
      PassedOver(run[1..], rest);
    }
  }

  /** A fragment that begins nothing is passed over. */
  lemma {:induction false} BeginsNothing(outcome: Physical, rest: seq<Physical>)
    requires !Is(outcome, FULL) && !Is(outcome, FIRST) && !Is(outcome, EOF)
    ensures WholeRuns([outcome] + rest) == WholeRuns(rest)
  {
    hide PayloadOf;
    var all := [outcome] + rest;
    assert all[1..] == rest;
    forall n: nat | n <= |all| ensures !Whole(all[..n]) {
      assert n > 0 ==> all[..n][0] == outcome;
    }
  }

  lemma {:induction false} OneMorePayload(run: seq<Physical>, outcome: Physical)
    requires outcome.Piece?
    ensures PayloadOf(run + [outcome]) == PayloadOf(run) + outcome.payload
  {
    assert (run + [outcome])[..|run|] == run;
  }

  /** The run that has begun once an outcome that ends no record is read. */
  function Continued(outcome: Physical, run: seq<Physical>): seq<Physical> {
    if Is(outcome, FIRST) then [outcome] else if Is(outcome, MIDDLE) && run != [] then run + [outcome] else []
  }

  lemma {:induction false} LastEndsRun(outcome: Physical, run: seq<Physical>, rest: seq<Physical>)
    requires Begun(run) && run != [] && Is(run[0], FIRST) && Is(outcome, LAST)
    ensures WholeRuns(run + [outcome] + rest) == [PayloadOf(run) + outcome.payload] + WholeRuns(rest)
  {
    hide WholeRuns, PayloadOf;
    var all := run + [outcome] + rest;
    assert all[..|run| + 1] == run + [outcome] && all[|run| + 1..] == rest;
    RunEnds(all, |run| + 1);
    OneMorePayload(run, outcome);
  }

  lemma {:induction false} FullIsRun(outcome: Physical, rest: seq<Physical>)
    requires Is(outcome, FULL)
    ensures WholeRuns([outcome] + rest) == [outcome.payload] + WholeRuns(rest)
  {
    hide WholeRuns;
    var all := [outcome] + rest;
    assert all[..1] == [outcome] && all[1..] == rest;
    RunEnds(all, 1);
    assert PayloadOf([]) == [];
    OneMorePayload([], outcome);
    assert [] + [outcome] == [outcome] && [] + outcome.payload == outcome.payload;
  }

  lemma {:induction false} FirstBegins(outcome: Physical)
    requires Is(outcome, FIRST)
    ensures PayloadOf([outcome]) == outcome.payload
  {
    assert [outcome][..0] == [];
    assert [] + outcome.payload == outcome.payload;
  }

  /** What one outcome does to a run that has begun. */
  lemma {:induction false} TurnOfRuns(outcome: Physical, run: seq<Physical>, rest: seq<Physical>, size: nat)
    requires Begun(run) && (run != [] ==> Is(run[0], FIRST)) && !outcome.Eof?
    ensures match Assemble(outcome, run != [], PayloadOf(run), size)
            case Stop(End(_, _)) => WholeRuns(run + [outcome] + rest) == []
            case Stop(Record(payload, _, _)) => WholeRuns(run + [outcome] + rest) == [payload] + WholeRuns(rest)
            case Go(_, inside, scratch, _) =>
              var run' := Continued(outcome, run);
              && Begun(run') && (run' != [] ==> Is(run'[0], FIRST)) && inside == (run' != []) && scratch == PayloadOf(run')
              && WholeRuns(run + [outcome] + rest) == WholeRuns(run' + rest)
  {
    assert run + [outcome] + rest == run + ([outcome] + rest);
    assert [] + rest == rest && (run == [] ==> run + [outcome] + rest == [outcome] + rest);
    if Is(outcome, MIDDLE) || Is(outcome, LAST) {
      hide WholeRuns, PayloadOf;
      if run == [] {
        BeginsNothing(outcome, rest);
        NoPayload();
      } else if Is(outcome, LAST) {
        LastEndsRun(outcome, run, rest);
      } else {
        OneMorePayload(run, outcome);
      }
    } else {
      PassedOver(run, [outcome] + rest);
      NoPayload();
      if Is(outcome, FULL) {
        hide WholeRuns, PayloadOf;
        FullIsRun(outcome, rest);
      } else if Is(outcome, FIRST) {
        hide WholeRuns, PayloadOf;
        FirstBegins(outcome);
      } else if !Is(outcome, EOF) {
        hide WholeRuns, PayloadOf;
        BeginsNothing(outcome, rest);
      }
    }
  }

  lemma {:induction false} NoPayload()
    ensures PayloadOf([]) == []
  {
  }

  lemma {:induction false} LogicalIsRun(crc: Checksum, file: seq<Byte>, p: nat, run: seq<Physical>)
    requires p <= |file| && Begun(run) && (run != [] ==> Is(run[0], FIRST))
    requires run == [] ==> PayloadOf(run) == []
    ensures match ReadLogical(crc, file, p, run != [], PayloadOf(run))
            case End(_, _) => WholeRuns(run + Outcomes(crc, file, p)) == []
            case Record(payload, next, _) =>
              WholeRuns(run + Outcomes(crc, file, p)) == [payload] + WholeRuns(Outcomes(crc, file, next))
    decreases |file| - p
  {
    hide ReadPhysical, WholeRuns, PayloadOf, Assemble, Begun;
    var outcome := ReadPhysical(crc, file, p);
    if outcome.Eof? {
      EndOfRuns(run, |file|);
    } else {
      var rest := Outcomes(crc, file, outcome.next);
      assert run + ([outcome] + rest) == run + [outcome] + rest;
      TurnOfRuns(outcome, run, rest, |file|);
      NextIsBehind(outcome, run != [], PayloadOf(run), |file|);
      NoPayload();
      match Assemble(outcome, run != [], PayloadOf(run), |file|) {
        case Stop(result) =>
        case Go(next, inside, scratch, _) => LogicalIsRun(crc, file, next, Continued(outcome, run));
      }
    }
  }

  lemma {:induction false} EndOfRuns(run: seq<Physical>, size: nat)
    requires Begun(run)
    ensures WholeRuns(run + []) == [] && Assemble(Eof, run != [], PayloadOf(run), size) == Stop(End(size, []))
  {
    PassedOver(run, []);
  }

  lemma {:induction false} NextIsBehind(outcome: Physical, inside: bool, scratch: seq<Byte>, size: nat)
    requires !outcome.Eof?
    ensures match Assemble(outcome, inside, scratch, size)
            case Stop(result) => result.next == outcome.next
            case Go(next, _, _, _) => next == outcome.next
  {
  }

  /** For any file: the records read are the whole runs of fragments in it, in file order. */
  lemma {:induction false} RecordsAreWholeRuns(crc: Checksum, file: seq<Byte>, p: nat)
    requires p <= |file|
    ensures ReadAll(crc, file, p).records == WholeRuns(Outcomes(crc, file, p))
    decreases |file| - p
  {
    hide ReadPhysical, ReadLogical, WholeRuns, Outcomes;
    NoPayload();
    LogicalIsRun(crc, file, p, []);
    assert [] + Outcomes(crc, file, p) == Outcomes(crc, file, p);
    match ReadLogical(crc, file, p, false, [])
    case End(_, _) =>
    case Record(payload, next, _) => RecordsAreWholeRuns(crc, file, next);
  }

  /** The fragments that make up records stand in the file one behind the other. */
  lemma {:induction false} OutcomesStand(crc: Checksum, file: seq<Byte>, p: nat, i: nat)
    requires p <= |file| && i < |Outcomes(crc, file, p)| && Outcomes(crc, file, p)[i].Piece?
    ensures var outcomes := Outcomes(crc, file, p);
            var start := outcomes[i].next - HEADER - |outcomes[i].payload|;
            && (if i == 0 then p else Behind(outcomes[i - 1])) <= start && outcomes[i].next <= |file|
            && |outcomes[i].payload| <= 0xffff
            && file[start..outcomes[i].next] == FragmentBytes(crc, outcomes[i].kind, outcomes[i].payload)
    decreases |file| - p
  {
    hide ReadPhysical, FragmentBytes;
    if i == 0 {
      PiecesAreFragments(crc, file, p);
    } else {
      OutcomesStand(crc, file, ReadPhysical(crc, file, p).next, i - 1);
    }
  }

  function Behind(outcome: Physical): nat {
    if outcome.Eof? then 0 else outcome.next
  }

  // ---------- nothing is lost in silence ----------

  function BytesOf(reports: seq<Report>): nat {
    if reports == [] then 0 else reports[0].bytes + BytesOf(reports[1..])
  }

  function Total(records: seq<seq<Byte>>): nat {
    if records == [] then 0 else |records[0]| + Total(records[1..])
  }

  /** The payload of a fragment, or what was dropped with a damaged one. */
  function Weight(outcome: Physical): nat {
    if outcome.Piece? then |outcome.payload| else BytesOf(outcome.Reported())
  }

  function Weights(outcomes: seq<Physical>): nat {
    if outcomes == [] then 0 else Weight(outcomes[0]) + Weights(outcomes[1..])
  }

  /** The fragments of the record in which the outcomes end, `run` being what had begun before. */
  function Unended(run: seq<Physical>, outcomes: seq<Physical>): seq<Physical>
    decreases |outcomes|
  {
    if outcomes == [] then run else Unended(Continued(outcomes[0], run), outcomes[1..])
  }

  /** Types that ReadPhysicalRecord uses as return codes; the writer never writes them. */
  ghost predicate NoCodes(outcomes: seq<Physical>) {
    forall o | o in outcomes :: !Is(o, EOF) && !Is(o, BAD)
  }

  lemma {:induction false} MoreBytes(a: seq<Report>, b: seq<Report>)
    ensures BytesOf(a + b) == BytesOf(a) + BytesOf(b)
  {
    if a == [] {
      assert a + b == b;
    } else {
      MoreBytes(a[1..], b);
      assert (a + b)[1..] == a[1..] + b;
    }
  }

  lemma {:induction false} OneReport(r: Report)
    ensures BytesOf([r]) == r.bytes && BytesOf([]) == 0
  {
  }

  lemma {:induction false} TurnConserves(outcome: Physical, run: seq<Physical>, size: nat)
    requires Begun(run) && (run != [] ==> Is(run[0], FIRST)) && !outcome.Eof? && !Is(outcome, EOF) && !Is(outcome, BAD)
    ensures var before := |PayloadOf(run)| + Weight(outcome);
            match Assemble(outcome, run != [], PayloadOf(run), size)
            case Stop(End(_, _)) => false
            case Stop(Record(payload, _, more)) =>
              before == |payload| + BytesOf(more) && Continued(outcome, run) == []
            case Go(_, _, scratch, more) =>
              && scratch == PayloadOf(Continued(outcome, run))
              && before == |scratch| + BytesOf(outcome.Reported()) + BytesOf(more)
  {
    hide PayloadOf;
    NoPayload();
    var scratch := PayloadOf(run);
    OneReport(Report(|scratch|, "partial record without end(1)"));
    OneReport(Report(|scratch|, "partial record without end(2)"));
    OneReport(Report(|scratch|, "error in middle of record"));
    if outcome.Piece? {
      OneReport(Report(|outcome.payload|, "missing start of fragmented record(1)"));
      OneReport(Report(|outcome.payload|, "missing start of fragmented record(2)"));
      OneReport(Report(|outcome.payload| + |scratch|, "unknown record type"));
      OneMorePayload(run, outcome);
      if outcome.kind == FIRST {
        FirstBegins(outcome);
      }
    }
  }

  lemma {:induction false} LogicalConserves(crc: Checksum, file: seq<Byte>, p: nat, run: seq<Physical>)
    requires p <= |file| && Begun(run) && (run != [] ==> Is(run[0], FIRST))
    requires run == [] ==> PayloadOf(run) == []
    requires NoCodes(Outcomes(crc, file, p))
    ensures var outcomes := Outcomes(crc, file, p);
            match ReadLogical(crc, file, p, run != [], PayloadOf(run))
            case End(_, reports) =>
              |PayloadOf(run)| + Weights(outcomes) == BytesOf(reports) + |PayloadOf(Unended(run, outcomes))|
            case Record(payload, next, reports) =>
              && NoCodes(Outcomes(crc, file, next))
              && |PayloadOf(run)| + Weights(outcomes) == |payload| + BytesOf(reports) + Weights(Outcomes(crc, file, next))
              && Unended(run, outcomes) == Unended([], Outcomes(crc, file, next))
    decreases |file| - p
  {
    hide ReadPhysical, PayloadOf, Assemble, Begun, Weight, BytesOf, Continued;
    var outcome := ReadPhysical(crc, file, p);
    if outcome.Eof? {
      EndOfRuns(run, |file|);
      OneReport(Report(0, ""));
    } else {
      var outcomes, rest := Outcomes(crc, file, p), Outcomes(crc, file, outcome.next);
      assert outcomes[0] == outcome && outcomes[1..] == rest;
      assert forall o | o in rest :: o in outcomes;
      TurnConserves(outcome, run, |file|);
      TurnOfRuns(outcome, run, rest, |file|);
      NextIsBehind(outcome, run != [], PayloadOf(run), |file|);
      NoPayload();
      match Assemble(outcome, run != [], PayloadOf(run), |file|) {
        case Stop(result) =>
        case Go(next, inside, scratch, more) =>
          LogicalConserves(crc, file, next, Continued(outcome, run));
          var reports := ReadLogical(crc, file, next, inside, scratch).reports;
          MoreBytes(outcome.Reported() + more, reports);
          MoreBytes(outcome.Reported(), more);
      }
    }
  }

  /**
   * For any file without fragments of those types: every payload byte of a fragment, and every byte dropped with a damaged
   * one, is in a record or counted in a report, except for a record that the file ends in.
   */
  lemma {:induction false} NothingIsLostSilently(crc: Checksum, file: seq<Byte>, p: nat)
    requires p <= |file| && NoCodes(Outcomes(crc, file, p))
    ensures var contents, outcomes := ReadAll(crc, file, p), Outcomes(crc, file, p);
            Weights(outcomes) == Total(contents.records) + BytesOf(contents.reports) + |PayloadOf(Unended([], outcomes))|
    decreases |file| - p
  {
    hide ReadPhysical, ReadLogical, Outcomes, PayloadOf, Weights, BytesOf, Unended;
    NoPayload();
    LogicalConserves(crc, file, p, []);
    match ReadLogical(crc, file, p, false, [])
    case End(_, _) =>
    case Record(payload, next, reports) =>
      NothingIsLostSilently(crc, file, next);
      var rest := ReadAll(crc, file, next);
      MoreBytes(reports, rest.reports);
      assert ReadAll(crc, file, p).records[1..] == rest.records;
  }
}
