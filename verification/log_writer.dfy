/** log::Writer: appends records to a log file, keeping only the offset inside the current block. */
module LogWriting {
  import opened Coding
  import opened Crc32c
  import opened LogFormat
  import opened LogRoundTrip

  /** One turn of the loop in AddRecord, as the specification sees it. */
  lemma {:induction false} FragmentAppended(
      crc: Checksum, file: seq<Byte>, left: seq<Byte>, begin: bool, n: nat, extended: seq<Byte>)
    requires n == Taken(|file|, |left|)
    requires extended
          == file + Zeros(Padding(|file|)) + FragmentBytes(crc, KindOf(begin, |left| == n), left[..n])
    ensures file + Emit(crc, |file|, left, begin)
         == if n == |left| then extended else extended + Emit(crc, |extended|, left[n..], false)
  {
    hide FragmentBytes, Padding, Zeros, Taken;
    assert extended == file + Step(crc, |file|, left, begin);
  }

  lemma {:induction false} AppendRecord(crc: Checksum, records: seq<seq<Byte>>, record: seq<Byte>)
    ensures (
      var file := WriteAll(crc, 0, records);
      WriteAll(crc, 0, records + [record]) == file + Emit(crc, |file|, record, true))
  {
    hide Emit;
    WriteAllAppend(crc, 0, records, [record]);
    OneRecordLog(crc, |WriteAll(crc, 0, records)|, [record]);
    assert [record][..1] == [record];
  }

  class LogWriter {
    const crc: Checksum
    var dest: seq<Byte>
    var blockOffset: nat
    /** The records added so far. */
    ghost var records: seq<seq<Byte>>

    ghost predicate OffsetOk()
      reads this
    {
      blockOffset <= |dest| && blockOffset <= BLOCK && (|dest| - blockOffset) % 32768 == 0
    }

    ghost predicate Valid()
      reads this
    {
      OffsetOk() && dest == WriteAll(crc, 0, records)
    }

    constructor (crc: Checksum)
      ensures Valid() && records == [] && this.crc == crc
    {
      this.crc, dest, blockOffset, records := crc, [], 0, [];
    }

    method EmitPhysicalRecord(kind: Byte, payload: seq<Byte>)
      requires OffsetOk()
      requires |payload| <= 0xffff && blockOffset + HEADER + |payload| <= BLOCK
      modifies this`dest, this`blockOffset
      ensures OffsetOk()
      ensures dest == old(dest) + FragmentBytes(crc, kind, payload)
    {
      var header := [|payload| % 0x100, |payload| / 0x100, kind];
      var checksum := EncodeFixed32(Mask(crc([kind] + payload)));
      dest := dest + (checksum + header) + payload;
      blockOffset := blockOffset + HEADER + |payload|;
      assert checksum + header + payload == FragmentBytes(crc, kind, payload);
    }

    /** Fill the rest of a block that has no room for a header. */
    method SwitchBlock()
      requires OffsetOk()
      modifies this`dest, this`blockOffset
      ensures OffsetOk() && blockOffset + HEADER <= BLOCK
      ensures dest == old(dest) + Zeros(Padding(|old(dest)|))
      ensures BLOCK - blockOffset - HEADER == Room(|old(dest)|)
    {
      var leftover := BLOCK - blockOffset;
      if leftover < HEADER {
        if leftover > 0 {
          dest := dest + Zeros(leftover);
        }
        blockOffset := 0;
      }
    }

    /** Appends the record, cut into fragments that never cross a block boundary. */
    method AddRecord(record: seq<Byte>)
      requires Valid()
      modifies this
      ensures Valid() && records == old(records) + [record]
      ensures dest == old(dest) + Emit(crc, |old(dest)|, record, true)
    {
      hide Emit, Step, Padding, Room, Zeros, FragmentBytes, WriteAll;
      ghost var file := dest + Emit(crc, |dest|, record, true);
      var left, begin, more := record, true, true;
      while more
        invariant OffsetOk() && records == old(records)
        invariant file == if more then dest + Emit(crc, |dest|, left, begin) else dest
        decreases more, |left|, if Room(|dest|) == 0 then 1 else 0
      {
        ghost var start := dest;
        SwitchBlock();
        var avail := BLOCK - blockOffset - HEADER;
        var n := if |left| < avail then |left| else avail;
        var end := |left| == n;
        EmitPhysicalRecord(KindOf(begin, end), left[..n]);
        FragmentAppended(crc, start, left, begin, n, dest);
        if n == 0 < |left| {
          StepProgress(|start|, |left|);
        }
        left, begin, more := left[n..], false, !end;
      }
      AppendRecord(crc, old(records), record);
      records := records + [record];
    }
  }
}
