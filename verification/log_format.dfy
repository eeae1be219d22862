/**
 * The write-ahead log format: fixed-size blocks holding checksummed fragments of records.  Both
 * the writer and the reader are described here as functions of an absolute file position; the
 * classes in log_writer.dfy and log_reader.dfy keep block buffers and offsets and refine them.
 */
module LogFormat {
  import opened Coding
  import opened Crc32c

  const BLOCK := 32768
  const HEADER := 7

  const FULL: Byte := 1
  const FIRST: Byte := 2
  const MIDDLE: Byte := 3
  const LAST: Byte := 4
  /** The codes ReadPhysicalRecord returns beside record types; nothing keeps a stored type byte from equalling them. */
  const EOF := 5
  const BAD := 6

  // ---------- writing ----------

  function FragmentBytes(crc: Checksum, kind: Byte, payload: seq<Byte>): (r: seq<Byte>)
    requires |payload| <= 0xffff
    ensures |r| == HEADER + |payload|
  {
    EncodeFixed32(Mask(crc([kind] + payload))) + [|payload| % 0x100, |payload| / 0x100, kind] + payload
  }

  /** Where the block holding position p ends. */
  function BlockEnd(p: nat): (r: nat)
    ensures p < r <= p + BLOCK
  {
    p - p % 32768 + 32768
  }

  /** Bytes of zero filling before a fragment written at position p: a block never ends in a partial header. */
  function Padding(p: nat): (r: nat)
    ensures r < HEADER
  {
    var leftover := BlockEnd(p) - p;
    if leftover < HEADER then leftover else 0
  }

  /** Room for payload behind a header written at position p after padding; it can be zero. */
  function Room(p: nat): (r: nat)
    ensures r <= 0xffff
    ensures p + Padding(p) + HEADER + r == BlockEnd(p + Padding(p))
  {
    BlockEnd(p + Padding(p)) - p - Padding(p) - HEADER
  }

  function KindOf(begin: bool, end: bool): Byte {
    if begin && end then FULL else if begin then FIRST else if end then LAST else MIDDLE
  }

  /** How much of what is left goes into the next fragment: a record is cut only where a block ends. */
  function Taken(p: nat, left: nat): (r: nat)
    ensures r <= left
    ensures r < left ==> p + Padding(p) + HEADER + r == BlockEnd(p + Padding(p))
  {
    if left < Room(p) then left else Room(p)
  }

  /** One fragment with the padding before it. */
  function Step(crc: Checksum, p: nat, left: seq<Byte>, begin: bool): (r: seq<Byte>)
    ensures |r| == Padding(p) + HEADER + Taken(p, |left|)
  {
    var n := Taken(p, |left|);
    Zeros(Padding(p)) + FragmentBytes(crc, KindOf(begin, n == |left|), left[..n])
  }

  /** What AddRecord appends when the file ends at p and `left` is the unwritten rest of the record. */
  function Emit(crc: Checksum, p: nat, left: seq<Byte>, begin: bool): (r: seq<Byte>)
    ensures |r| >= HEADER
    decreases |left|, if Room(p) == 0 then 1 else 0
  {
    var n := Taken(p, |left|);
    var bytes := Step(crc, p, left, begin);
    if n == |left| then bytes
    else bytes + Emit(crc, p + |bytes|, left[n..], false)
  }

  function WriteAll(crc: Checksum, p: nat, records: seq<seq<Byte>>): seq<Byte>
    decreases |records|
  {
    if records == [] then []
    else
      var bytes := Emit(crc, p, records[0], true);
      bytes + WriteAll(crc, p + |bytes|, records[1..])
  }

  // ---------- reading ----------

  datatype Report = Report(bytes: nat, reason: string)

  /** The end of the block holding p, or of a file that stops inside that block. */
  function BufferEnd(file: seq<Byte>, p: nat): nat {
    if BlockEnd(p) <= |file| then BlockEnd(p) else |file|
  }

  datatype Physical =
    | Eof
    | Bad(next: nat, reports: seq<Report>)
    | Piece(kind: Byte, payload: seq<Byte>, next: nat)
  {
    function From(p: nat): Physical {
      if Eof? then Eof else this.(next := p + next)
    }

    /** What the physical read itself reports. */
    function Reported(): seq<Report> {
      if Bad? then reports else []
    }
  }

  function StoredLength(buffer: seq<Byte>): nat
    requires |buffer| >= HEADER
  {
    (buffer[4] as int) + 0x100 * (buffer[5] as int)
  }

  /** What the front of a buffer holds; `torn` says that the file ended while the buffer was read. */
  function ParseFragment(crc: Checksum, buffer: seq<Byte>, torn: bool): (r: Physical)
    requires |buffer| >= HEADER
    ensures if r.Eof? then torn else 0 < r.next <= |buffer|
  {
    var length := StoredLength(buffer);
    var kind := buffer[6];
    if HEADER + length > |buffer| then
      if torn then Eof else Bad(|buffer|, [Report(|buffer|, "bad record length")])
    else if kind == 0 && length == 0 then
      Bad(|buffer|, [])
    else if crc(buffer[6..HEADER + length]) != Unmask(DecodeFixed32(buffer)) then
      Bad(|buffer|, [Report(|buffer|, "checksum mismatch")])
    else
      Piece(kind, buffer[HEADER..HEADER + length], HEADER + length)
  }

  /** The next physical record at or after p, for any bytes whatever. */
  function ReadPhysical(crc: Checksum, file: seq<Byte>, p: nat): (r: Physical)
    requires p <= |file|
    ensures !r.Eof? ==> p < r.next <= |file|
    decreases |file| - p
  {
    var end := BufferEnd(file, p);
    var torn := BlockEnd(p) > |file|;
    if end - p >= HEADER then ParseFragment(crc, file[p..end], torn).From(p)
    else if torn then Eof
    else ReadPhysical(crc, file, end)
  }

  datatype Logical =
    | End(next: nat, reports: seq<Report>)
    | Record(payload: seq<Byte>, next: nat, reports: seq<Report>)
  {
    function After(earlier: seq<Report>): Logical {
      this.(reports := earlier + reports)
    }
  }

  /** A fragmented record that is dropped because another record starts. */
  function Unfinished(scratch: seq<Byte>, reason: string): seq<Report> {
    if scratch == [] then [] else [Report(|scratch|, reason)]
  }

  /** What one physical record does to a record being put together: it may end the call, or the search goes on. */
  datatype Turn =
    | Stop(result: Logical)
    | Go(next: nat, inside: bool, scratch: seq<Byte>, reports: seq<Report>)

  /** `inside` says that a record has begun, `scratch` is what it holds, `size` is the length of the file. */
  function Assemble(outcome: Physical, inside: bool, scratch: seq<Byte>, size: nat): Turn {
    match outcome
    case Eof => Stop(End(size, []))
    case Bad(next, _) =>
      Go(next, false, [], if inside then [Report(|scratch|, "error in middle of record")] else [])
    case Piece(kind, payload, next) =>
      if kind == FULL then
        Stop(Record(payload, next, Unfinished(scratch, "partial record without end(1)")))
      else if kind == FIRST then
        Go(next, true, payload, Unfinished(scratch, "partial record without end(2)"))
      else if kind == MIDDLE then
        if inside then Go(next, true, scratch + payload, [])
        else Go(next, false, [], [Report(|payload|, "missing start of fragmented record(1)")])
      else if kind == LAST then
        if inside then Stop(Record(scratch + payload, next, []))
        else Go(next, false, [], [Report(|payload|, "missing start of fragmented record(2)")])
      else if kind == EOF then
        Stop(End(next, []))
      else if kind == BAD then
        Go(next, false, [], if inside then [Report(|scratch|, "error in middle of record")] else [])
      else
        Go(next, false, [], [Report(|payload| + |scratch|, "unknown record type")])
  }

  /** The next whole record at or after p. */
  function ReadLogical(crc: Checksum, file: seq<Byte>, p: nat, inside: bool, scratch: seq<Byte>): (r: Logical)
    requires p <= |file|
    requires !inside ==> scratch == []
    ensures r.next <= |file|
    ensures r.Record? ==> p < r.next
    decreases |file| - p
  {
    var outcome := ReadPhysical(crc, file, p);
    match Assemble(outcome, inside, scratch, |file|)
    case Stop(result) => result
    case Go(next, now, held, more) => ReadLogical(crc, file, next, now, held).After(outcome.Reported() + more)
  }

  /** Everything a reader yields from p until it first says there is no more, and what it reported on the way. */
  datatype Contents = Contents(records: seq<seq<Byte>>, reports: seq<Report>) {
    /** These contents are `earlier` records and reports followed by the rest. */
    ghost predicate Splits(earlier: seq<seq<Byte>>, reported: seq<Report>, rest: Contents) {
      records == earlier + rest.records && reports == reported + rest.reports
    }
  }

  function ReadAll(crc: Checksum, file: seq<Byte>, p: nat): Contents
    requires p <= |file|
    decreases |file| - p
  {
    match ReadLogical(crc, file, p, false, [])
    case End(_, reports) => Contents([], reports)
    case Record(payload, next, reports) =>
      var rest := ReadAll(crc, file, next);
      Contents([payload] + rest.records, reports + rest.reports)
  }
}
