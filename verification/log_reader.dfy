/** log::Reader: reads a log file block by block and puts the fragments of each record together. */
module LogReading {
  import opened Coding
  import opened Crc32c
  import opened LogFormat
  import opened LogRoundTrip

  /** The buffer is the unread rest of one block, and eof says that this block was cut short. */
  ghost predicate IsWindow(file: seq<Byte>, filePos: nat, buffer: seq<Byte>, eof: bool) {
    && |buffer| <= filePos <= |file|
    && buffer == file[filePos - |buffer|..filePos]
    && (eof ==> filePos == |file|)
    && (!eof ==> filePos % 32768 == 0)
    && (buffer != [] ==>
        && filePos == BufferEnd(file, filePos - |buffer|)
        && (eof <==> BlockEnd(filePos - |buffer|) > |file|))
  }

  lemma {:induction false} WindowConsumed(file: seq<Byte>, filePos: nat, buffer: seq<Byte>, eof: bool, n: nat)
    requires IsWindow(file, filePos, buffer, eof) && n <= |buffer|
    ensures IsWindow(file, filePos, buffer[n..], eof)
  {
  }

  lemma {:induction false} WindowParses(
      crc: Checksum, file: seq<Byte>, filePos: nat, buffer: seq<Byte>, eof: bool)
    requires IsWindow(file, filePos, buffer, eof) && |buffer| >= HEADER
    ensures ReadPhysical(crc, file, filePos - |buffer|)
         == ParseFragment(crc, buffer, eof).From(filePos - |buffer|)
  {
    hide ParseFragment;
  }

  /** How ReadPhysicalRecord tells an outcome by its return code. */
  predicate Tells(outcome: Physical, code: nat, fragment: seq<Byte>) {
    match outcome
    case Eof => code == EOF
    case Bad(_, _) => code == BAD
    case Piece(kind, payload, _) => code == kind && fragment == payload
  }

  /** Where the reader stands after an outcome. */
  function Behind(outcome: Physical, size: nat): nat {
    if outcome.Eof? then size else outcome.next
  }

  /** One turn of the loop in ReadRecord, as the specification sees it; `more` is what was reported before. */
  lemma {:induction false} TurnTaken(
      crc: Checksum, file: seq<Byte>, p: nat, inside: bool, scratch: seq<Byte>, more: seq<Report>)
    requires p <= |file|
    requires !inside ==> scratch == []
    ensures (
      var outcome := ReadPhysical(crc, file, p);
      var whole := ReadLogical(crc, file, p, inside, scratch).After(more);
      match Assemble(outcome, inside, scratch, |file|)
      case Stop(result) =>
        whole == result.After(more) && result.next == Behind(outcome, |file|) && outcome.Reported() == []
      case Go(next, now, held, further) =>
        && p < next == Behind(outcome, |file|) <= |file|
        && (!now ==> held == [])
        && whole == ReadLogical(crc, file, next, now, held).After(more + outcome.Reported() + further))
  {
    hide ReadPhysical;
    var outcome := ReadPhysical(crc, file, p);
    match Assemble(outcome, inside, scratch, |file|)
    case Stop(_) =>
    case Go(next, now, held, further) =>
      var rest := ReadLogical(crc, file, next, now, held).reports;
      assert more + (outcome.Reported() + further + rest) == more + outcome.Reported() + further + rest;
  }

  class LogReader {
    const crc: Checksum
    const file: seq<Byte>
    /** How much of the file has been read into the buffer so far. */
    var filePos: nat
    var buffer: seq<Byte>
    var eof: bool
    var reports: seq<Report>

    ghost predicate Valid()
      reads this`filePos, this`buffer, this`eof
    {
      IsWindow(file, filePos, buffer, eof)
    }

    /** The position in the file of the first byte not yet consumed. */
    ghost function Position(): (r: nat)
      requires Valid()
      reads this`filePos, this`buffer, this`eof
      ensures r <= |file|
    {
      filePos - |buffer|
    }

    constructor (crc: Checksum, file: seq<Byte>)
      ensures Valid() && Position() == 0 && reports == []
      ensures this.crc == crc && this.file == file
    {
      this.crc, this.file, filePos, buffer, eof, reports := crc, file, 0, [], false, [];
    }

    method ReportCorruption(bytes: nat, reason: string)
      modifies this`reports
      ensures reports == old(reports) + [Report(bytes, reason)]
    {
      reports := reports + [Report(bytes, reason)];
    }

    /** Read the next block; a short one is the last. */
    method FillBuffer()
      requires Valid() && !eof && |buffer| < HEADER
      modifies this`filePos, this`buffer, this`eof
      ensures Valid() && |buffer| == filePos - old(filePos)
      ensures filePos == BufferEnd(file, old(filePos)) && (eof <==> BlockEnd(old(filePos)) > |file|)
    {
      var end := if filePos + BLOCK <= |file| then filePos + BLOCK else |file|;
      buffer := file[filePos..end];
      filePos := end;
      if |buffer| < BLOCK {
        eof := true;
      }
    }

    /** Check and take the fragment at the front of the buffer. */
    method TakeFragment() returns (code: nat, fragment: seq<Byte>)
      requires |buffer| >= HEADER
      modifies this`buffer, this`reports
      ensures match ParseFragment(crc, old(buffer), eof)
              case Eof => code == EOF && buffer == [] && reports == old(reports)
              case Bad(next, more) =>
                code == BAD && buffer == [] && next == |old(buffer)| && reports == old(reports) + more
              case Piece(kind, payload, next) =>
                code == kind && fragment == payload && buffer == old(buffer[next..]) && reports == old(reports)
    {
      hide DecodeFixed32, Unmask;
      fragment := [];
      var length := (buffer[4] as int) + 0x100 * (buffer[5] as int);
      var kind := buffer[6];
      var size := |buffer|;
      if HEADER + length > size {
        buffer := [];
        if !eof {
          ReportCorruption(size, "bad record length");
          return BAD, [];
        }
        return EOF, [];
      }
      if kind == 0 && length == 0 {
        buffer := [];
        return BAD, [];
      }
      if crc(buffer[6..HEADER + length]) != Unmask(DecodeFixed32(buffer)) {
        buffer := [];
        ReportCorruption(size, "checksum mismatch");
        return BAD, [];
      }
      code, fragment := kind, buffer[HEADER..HEADER + length];
      buffer := buffer[HEADER + length..];
    }

    /** Skip block trailers until the buffer holds a header; false at the end of the file. */
    method FindHeader() returns (found: bool)
      requires Valid()
      modifies this`filePos, this`buffer, this`eof
      ensures Valid()
      ensures if found then |buffer| >= HEADER && ReadPhysical(crc, file, Position()) == ReadPhysical(crc, file, old(Position()))
              else Position() == |file| && ReadPhysical(crc, file, old(Position())).Eof?
    {
      hide ParseFragment;
      while |buffer| < HEADER
        invariant Valid()
        invariant ReadPhysical(crc, file, Position()) == ReadPhysical(crc, file, old(Position()))
        decreases |file| - filePos, !eof
      {
        if !eof {
          FillBuffer();
        } else {
          buffer := [];
          return false;
        }
      }
      return true;
    }

    /** The type byte of the next fragment, or EOF or BAD. */
    method ReadPhysicalRecord() returns (code: nat, fragment: seq<Byte>)
      requires Valid()
      modifies this
      ensures Valid()
      ensures (
        var outcome := ReadPhysical(crc, file, old(Position()));
        && Tells(outcome, code, fragment)
        && Position() == Behind(outcome, |file|)
        && reports == old(reports) + outcome.Reported())
    {
      hide ParseFragment, ReadPhysical, IsWindow;
      var found := FindHeader();
      if !found {
        return EOF, [];
      }
      ghost var p, window := Position(), buffer;
      WindowParses(crc, file, filePos, window, eof);
      code, fragment := TakeFragment();
      WindowConsumed(file, filePos, window, eof, |window| - |buffer|);
    }

    /** The body of the loop in ReadRecord, once a physical record has been read. */
    method Dispatch(code: nat, fragment: seq<Byte>, inside: bool, scratch: seq<Byte>, ghost outcome: Physical)
      returns (done: bool, ok: bool, record: seq<Byte>, nowInside: bool, held: seq<Byte>)
      requires Tells(outcome, code, fragment)
      requires !inside ==> scratch == []
      modifies this`reports
      ensures match Assemble(outcome, inside, scratch, |file|)
              case Stop(End(_, more)) => done && !ok && reports == old(reports) + more
              case Stop(Record(payload, _, more)) => done && ok && record == payload && reports == old(reports) + more
              case Go(_, now, kept, more) => !done && nowInside == now && held == kept && reports == old(reports) + more
    {
      done, ok, record, nowInside, held := false, false, [], inside, scratch;
      if code == FULL {
        if inside && scratch != [] {
          ReportCorruption(|scratch|, "partial record without end(1)");
        }
        done, ok, record := true, true, fragment;
      } else if code == FIRST {
        if inside && scratch != [] {
          ReportCorruption(|scratch|, "partial record without end(2)");
        }
        nowInside, held := true, fragment;
      } else if code == MIDDLE {
        if !inside {
          ReportCorruption(|fragment|, "missing start of fragmented record(1)");
        } else {
          held := scratch + fragment;
        }
      } else if code == LAST {
        if !inside {
          ReportCorruption(|fragment|, "missing start of fragmented record(2)");
        } else {
          done, ok, record := true, true, scratch + fragment;
        }
      } else if code == EOF {
        done := true;
      } else if code == BAD {
        if inside {
          ReportCorruption(|scratch|, "error in middle of record");
        }
        nowInside, held := false, [];
      } else {
        ReportCorruption(|fragment| + |scratch|, "unknown record type");
        nowInside, held := false, [];
      }
    }
  
    /** The next record, its fragments put together; false when there are no more. */
    method ReadRecord() returns (ok: bool, record: seq<Byte>)
      requires Valid()
      modifies this
      ensures Valid()
      ensures match ReadLogical(crc, file, old(Position()), false, []).After(old(reports))
              case End(next, all) => !ok && Position() == next && reports == all
              case Record(payload, next, all) => ok && record == payload && Position() == next && reports == all
    {
      hide ReadPhysical, ReadLogical, Assemble, Valid, Position, Tells;
      var inside, scratch, done := false, [], false;
      ghost var whole := ReadLogical(crc, file, Position(), false, []).After(reports);
      while true
        invariant Valid()
        invariant !inside ==> scratch == []
        invariant whole == ReadLogical(crc, file, Position(), inside, scratch).After(reports)
        decreases |file| - Position()
      {
        ghost var p := Position();
        ghost var outcome := ReadPhysical(crc, file, p);
        TurnTaken(crc, file, p, inside, scratch, reports);
        var code, fragment := ReadPhysicalRecord();
        done, ok, record, inside, scratch := Dispatch(code, fragment, inside, scratch, outcome);
        if done {
          return ok, record;
        }
      }
    }
  }

  /** The loop with which recovery consumes a log file. */
  method ReadWholeLog(crc: Checksum, file: seq<Byte>) returns (records: seq<seq<Byte>>, reports: seq<Report>)
    ensures Contents(records, reports) == ReadAll(crc, file, 0)
  {
    hide ReadLogical, ReadPhysical, IsWindow;
    var reader := new LogReader(crc, file);
    records := [];
    var ok, record := reader.ReadRecord();
    ghost var p := 0;
    ghost var before: seq<Report> := [];
    while ok
      invariant reader.Valid() && fresh(reader) && reader.crc == crc && reader.file == file
      invariant p <= |file|
      invariant match ReadLogical(crc, file, p, false, []).After(before)
                case End(_, all) => !ok && reader.reports == all
                case Record(payload, next, all) =>
                  ok && record == payload && reader.Position() == next && reader.reports == all
      invariant ReadAll(crc, file, 0).Splits(records, before, ReadAll(crc, file, p))
      decreases |file| - p
    {
      records := records + [record];
      p, before := reader.Position(), reader.reports;
      ok, record := reader.ReadRecord();
    }
    reports := reader.reports;
  }
}
