/** The manifest as a file: its records decode to the edits, and folding them gives the current version. */
module ManifestRecords {
  import opened Common
  import opened InternalKeys
  import opened Version
  import opened Builder
  import opened Tables
  import opened Manifests
  import Database
  import DatabaseReads
  import Coding
  import Crc32c
  import LogFormat
  import Records = VersionEdits

  type Bytes = seq<Coding.Byte>

  /** Internal keys as bytes, and back. */
  datatype Codec = Codec(encode: InternalKey -> Bytes, decode: Bytes -> InternalKey)

  /** The table files on disk by number. */
  type Disk = map<nat, seq<Entry>>

  predicate FitsWord(n: nat) { n < 0x1_0000_0000_0000_0000 }

  /** What the manifest can say about a file: numbers of 64 bits, keys that the codec brings back, and a table on disk. */
  ghost predicate Recordable(c: Codec, disk: Disk, f: FileMetaData) {
    && FitsWord(f.number) && FitsWord(f.fileSize)
    && c.decode(c.encode(f.smallest)) == f.smallest && c.decode(c.encode(f.largest)) == f.largest
    && f.number in disk && disk[f.number] == f.entries
  }

  // ---------------------------------------------------------------- one record

  function FileEntry(c: Codec, level: nat, f: FileMetaData): Records.NewFileEntry {
    Records.NewFileEntry(level, f.number % 0x1_0000_0000_0000_0000, f.fileSize % 0x1_0000_0000_0000_0000,
                         c.encode(f.smallest), c.encode(f.largest))
  }

  function FileEntries(c: Codec, level: nat, files: Level): seq<Records.NewFileEntry> {
    if files == [] then [] else [FileEntry(c, level, files[0])] + FileEntries(c, level, files[1..])
  }

  /** The files that an edit adds, level by level. */
  function AddedEntries(c: Codec, changes: seq<LevelEdit>, n: nat): seq<Records.NewFileEntry>
    requires n <= |changes|
  {
    if n == 0 then [] else AddedEntries(c, changes, n - 1) + FileEntries(c, n - 1, changes[n - 1].added)
  }

  /** The record holds these changes. */
  ghost predicate RecordsChanges(c: Codec, changes: seq<LevelEdit>, record: Records.Edit) {
    && |changes| == NUM_LEVELS
    && Records.FieldsFit(record) && Records.Sorted(record.deleted)
    && (forall level: nat, number: Coding.DoubleWord :: (level, number) in record.deleted <==> level < NUM_LEVELS && number in changes[level].deleted)
    && (forall i, n | 0 <= i < NUM_LEVELS && n in changes[i].deleted :: FitsWord(n))
    && record.added == AddedEntries(c, changes, NUM_LEVELS)
  }

  /** LogAndApply: an edit with all its counters. */
  ghost predicate IsRecordOf(c: Codec, e: Edit, record: Records.Edit) {
    && RecordsChanges(c, e.changes, record)
    && record.logNumber == Some(e.logNumber) && record.nextFileNumber == Some(e.nextFile)
    && record.lastSequence == Some(e.lastSequence)
  }

  /** WriteSnapshot: the files of the version, without counters. */
  ghost predicate IsSnapshotRecord(c: Codec, levels: Levels, record: Records.Edit) {
    && |levels| == NUM_LEVELS && RecordsChanges(c, SnapshotChanges(levels), record)
    && record.logNumber == None && record.nextFileNumber == None && record.lastSequence == None
  }

  function SnapshotChanges(levels: Levels): (r: seq<LevelEdit>)
    ensures |r| == |levels| && forall i | 0 <= i < |levels| :: r[i] == Builder.Snapshot(levels[i])
  {
    seq(|levels|, i requires 0 <= i < |levels| => Builder.Snapshot(levels[i]))
  }

  // ---------------------------------------------------------------- and back

  function FileOf(c: Codec, disk: Disk, entry: Records.NewFileEntry): FileMetaData {
    FileMetaData(entry.number, entry.size, c.decode(entry.smallest), c.decode(entry.largest),
                 if entry.number in disk then disk[entry.number] else [])
  }

  function FilesAt(c: Codec, disk: Disk, added: seq<Records.NewFileEntry>, level: nat): Level {
    if added == [] then []
    else (if added[0].level == level then [FileOf(c, disk, added[0])] else []) + FilesAt(c, disk, added[1..], level)
  }

  /** What Builder::Apply takes from a decoded record for one level. */
  ghost function ChangesAt(c: Codec, disk: Disk, record: Records.Edit, level: nat): LevelEdit {
    LevelEdit(set p | p in record.deleted && p.0 == level :: p.1, FilesAt(c, disk, record.added, level))
  }

  lemma {:induction false} FilesAtSum(c: Codec, disk: Disk, a: seq<Records.NewFileEntry>, b: seq<Records.NewFileEntry>, level: nat)
    ensures FilesAt(c, disk, a + b, level) == FilesAt(c, disk, a, level) + FilesAt(c, disk, b, level)
  {
    if a == [] {
      assert a + b == b;
    } else {
      assert (a + b)[1..] == a[1..] + b;
      FilesAtSum(c, disk, a[1..], b, level);
    }
  }

  lemma {:induction false} FilesComeBack(c: Codec, disk: Disk, level: nat, files: Level, other: nat)
    requires forall f | f in files :: Recordable(c, disk, f)
    ensures FilesAt(c, disk, FileEntries(c, level, files), other) == if level == other then files else []
  {
    if files != [] {
      FilesComeBack(c, disk, level, files[1..], other);
      var f := files[0];
      assert Recordable(c, disk, f);
      assert f.number % 0x1_0000_0000_0000_0000 == f.number && f.fileSize % 0x1_0000_0000_0000_0000 == f.fileSize;
      assert FileOf(c, disk, FileEntry(c, level, f)) == f;
      assert FileEntries(c, level, files)[1..] == FileEntries(c, level, files[1..]);
    }
  }

  ghost predicate AddsRecordable(c: Codec, disk: Disk, changes: seq<LevelEdit>) {
    forall i, f | 0 <= i < |changes| && f in changes[i].added :: Recordable(c, disk, f)
  }

  lemma {:induction false} AddedComeBack(c: Codec, disk: Disk, changes: seq<LevelEdit>, n: nat, level: nat)
    requires n <= |changes| && AddsRecordable(c, disk, changes)
    ensures FilesAt(c, disk, AddedEntries(c, changes, n), level) == if level < n then changes[level].added else []
  {
    hide Recordable, FilesAt, FileEntries;
    if n > 0 {
      AddedComeBack(c, disk, changes, n - 1, level);
      FilesComeBack(c, disk, n - 1, changes[n - 1].added, level);
      FilesAtSum(c, disk, AddedEntries(c, changes, n - 1), FileEntries(c, n - 1, changes[n - 1].added), level);
      if level == n - 1 {
        assert [] + changes[level].added == changes[level].added;
      } else if level < n - 1 {
        assert changes[level].added + [] == changes[level].added;
      }
    } else {
      NoFilesAt(c, disk, level);
    }
  }

  lemma {:induction false} NoFilesAt(c: Codec, disk: Disk, level: nat)
    ensures FilesAt(c, disk, [], level) == []
  {
  }

  lemma {:induction false} ChangesComeBack(c: Codec, disk: Disk, changes: seq<LevelEdit>, record: Records.Edit, level: nat)
    requires RecordsChanges(c, changes, record) && level < NUM_LEVELS && AddsRecordable(c, disk, changes)
    ensures ChangesAt(c, disk, record, level) == changes[level]
  {
    AddedComeBack(c, disk, changes, NUM_LEVELS, level);
    var deleted := ChangesAt(c, disk, record, level).deleted;
    forall n ensures n in deleted <==> n in changes[level].deleted {
      if n in changes[level].deleted {
        assert FitsWord(n);
        var word: Coding.DoubleWord := n;
        assert (level, word) in record.deleted;
      }
    }
  }

  // ---------------------------------------------------------------- all records

  /** The first record is the snapshot; the others are the edits. */
  ghost predicate AreRecordsOf(c: Codec, m: Manifest, records: seq<Records.Edit>) {
    && Complete(m) && |records| == |m.edits| + 1
    && IsSnapshotRecord(c, m.snapshot, records[0])
    && forall k | 0 <= k < |m.edits| :: IsRecordOf(c, m.edits[k], records[k + 1])
  }

  ghost predicate AllRecordable(c: Codec, disk: Disk, m: Manifest)
    requires Complete(m)
  {
    && (forall i, f | 0 <= i < NUM_LEVELS && f in Mentioned(m, i) :: Recordable(c, disk, f))
    && forall k | 0 <= k < |m.edits| ::
         FitsWord(m.edits[k].logNumber) && FitsWord(m.edits[k].nextFile) && FitsWord(m.edits[k].lastSequence)
  }

  ghost function ColumnAt(c: Codec, disk: Disk, records: seq<Records.Edit>, level: nat): (r: seq<LevelEdit>)
    ensures |r| == |records|
  {
    if records == [] then []
    else ColumnAt(c, disk, records[..|records| - 1], level) + [ChangesAt(c, disk, records[|records| - 1], level)]
  }

  /** VersionSet::Recover on decoded records: apply all, save once. */
  ghost function RecoveredLevel(c: Codec, disk: Disk, records: seq<Records.Edit>, level: nat): Level {
    SaveLevel([], ApplyAll(NO_CHANGE, ColumnAt(c, disk, records, level)))
  }

  /** The last record that has a value counts. */
  function LastOf(values: seq<Option<Coding.DoubleWord>>): Option<Coding.DoubleWord> {
    if values == [] then None
    else if values[|values| - 1].Some? then values[|values| - 1] else LastOf(values[..|values| - 1])
  }

  lemma {:induction false} AddedAreMentioned(m: Manifest, k: nat, i: nat)
    requires Complete(m) && k < |m.edits| && i < NUM_LEVELS
    ensures forall f | f in m.edits[k].changes[i].added :: f in Mentioned(m, i)
  {
    AddedInColumn(m.edits, k, i);
  }

  lemma {:induction false} AddedInColumn(edits: seq<Edit>, k: nat, i: nat)
    requires k < |edits| && i < NUM_LEVELS && forall j | 0 <= j < |edits| :: |edits[j].changes| == NUM_LEVELS
    ensures forall f | f in edits[k].changes[i].added :: f in AllAdded(Column(edits, i))
  {
    var n := |edits| - 1;
    var column := Column(edits, i);
    assert column[..n] == Column(edits[..n], i);
    if k < n {
      AddedInColumn(edits[..n], k, i);
    }
  }

  lemma {:induction false} EditRecordable(c: Codec, disk: Disk, m: Manifest, k: nat)
    requires Complete(m) && AllRecordable(c, disk, m) && k < |m.edits|
    ensures AddsRecordable(c, disk, m.edits[k].changes)
  {
    hide Recordable, Mentioned;
    var changes := m.edits[k].changes;
    forall i, f | 0 <= i < |changes| && f in changes[i].added ensures Recordable(c, disk, f) {
      AddedAreMentioned(m, k, i);
    }
  }

  lemma {:induction false} SnapshotRecordable(c: Codec, disk: Disk, m: Manifest)
    requires Complete(m) && AllRecordable(c, disk, m)
    ensures AddsRecordable(c, disk, SnapshotChanges(m.snapshot))
  {
    hide Recordable;
    var changes := SnapshotChanges(m.snapshot);
    forall i, f | 0 <= i < |changes| && f in changes[i].added ensures Recordable(c, disk, f) {
      assert f in m.snapshot[i];
      assert f in Mentioned(m, i);
    }
  }

  /** The decoded columns are those of the manifest, the snapshot in front. */
  lemma {:induction false} ColumnComesBack(c: Codec, disk: Disk, m: Manifest, records: seq<Records.Edit>, n: nat, level: nat)
    requires AreRecordsOf(c, m, records) && AllRecordable(c, disk, m) && n <= |m.edits| && level < NUM_LEVELS
    ensures ColumnAt(c, disk, records[..n + 1], level) == [Builder.Snapshot(m.snapshot[level])] + Column(m.edits[..n], level)
    decreases n
  {
    hide Records.FieldsFit, Records.Sorted, AddedEntries, AllRecordable, AddsRecordable, RecordsChanges, ChangesAt;
    var part := records[..n + 1];
    assert part[..n] == records[..n] && part[n] == records[n];
    if n == 0 {
      assert part[..0] == [];
      SnapshotRecordable(c, disk, m);
      ChangesComeBack(c, disk, SnapshotChanges(m.snapshot), records[0], level);
      assert ColumnAt(c, disk, [], level) + [ChangesAt(c, disk, records[0], level)] == [Builder.Snapshot(m.snapshot[level])];
      assert Column(m.edits[..0], level) == [];
    } else {
      ColumnComesBack(c, disk, m, records, n - 1, level);
      assert m.edits[..n][..n - 1] == m.edits[..n - 1];
      EditRecordable(c, disk, m, n - 1);
      ChangesComeBack(c, disk, m.edits[n - 1].changes, records[n], level);
    }
  }

  lemma {:induction false} RecordsRebuildLevel(c: Codec, disk: Disk, m: Manifest, records: seq<Records.Edit>, level: nat)
    requires AreRecordsOf(c, m, records) && AllRecordable(c, disk, m) && level < NUM_LEVELS
    ensures RecoveredLevel(c, disk, records, level) == ReplayedLevel(m, level)
  {
    ColumnComesBack(c, disk, m, records, |m.edits|, level);
    assert records[..|m.edits| + 1] == records && m.edits[..|m.edits|] == m.edits;
  }

  /** A number names one table, so the tables that a manifest mentions can be on disk all at once. */
  lemma {:induction false} DiskExists(m: Manifest, levels: Levels, bound: nat) returns (disk: Disk)
    requires Tracks(m, levels, bound)
    ensures forall i, f | 0 <= i < NUM_LEVELS && f in Mentioned(m, i) :: f.number in disk && disk[f.number] == f.entries
  {
    hide Mentioned, LevelTracks;
    var all := set i, f | 0 <= i < NUM_LEVELS && f in Mentioned(m, i) :: f;
    disk := DiskOf(all);
  }

  lemma {:induction false} DiskOf(files: set<FileMetaData>) returns (disk: Disk)
    requires forall f, g | f in files && g in files && f.number == g.number :: f == g
    ensures forall f | f in files :: f.number in disk && disk[f.number] == f.entries
    ensures forall n | n in disk :: exists f :: f in files && f.number == n
    decreases |files|
  {
    if files == {} {
      disk := map[];
    } else {
      var g :| g in files;
      var rest := DiskOf(files - {g});
      disk := rest[g.number := g.entries];
    }
  }

  // ---------------------------------------------------------------- the file

  /**
   * A crash while the next edit is being logged: the manifest file is cut somewhere behind the records that were complete.
   * What is left decodes without a report, and folding it gives the current version and its counters.
   */
  lemma {:induction false} ManifestFileRebuildsVersion(
      crc: Crc32c.Checksum, c: Codec, disk: Disk, m: Manifest, levels: Levels, bound: nat,
      records: seq<Records.Edit>, next: Records.Edit, n: nat)
    requires Tracks(m, levels, bound) && m.edits != []
    requires AreRecordsOf(c, m, records) && AllRecordable(c, disk, m)
    requires Records.FieldsFit(next) && Records.Sorted(next.deleted)
    requires |LogFormat.WriteAll(crc, 0, Records.EncodedAll(records))| <= n
    requires n < |LogFormat.WriteAll(crc, 0, Records.EncodedAll(records + [next]))|
    ensures (
      var file := LogFormat.WriteAll(crc, 0, Records.EncodedAll(records + [next]))[..n];
      var contents := LogFormat.ReadAll(crc, file, 0);
      && contents.reports == []
      && |contents.records| == |records|
      && var decoded := DecodedAll(contents.records);
         && (forall i | 0 <= i < NUM_LEVELS :: RecoveredLevel(c, disk, decoded, i) == levels[i])
         && LastOf(LogNumbers(decoded)) == Some(m.LogNumber())
         && LastOf(NextFiles(decoded)) == Some(m.NextFile())
         && LastOf(LastSequences(decoded)) == Some(m.LastSequence()))
  {
    hide LogFormat.WriteAll, LogFormat.ReadAll, Records.Encoded, Records.Decoded, Records.ParseFields;
    hide AllRecordable, LevelTracks, Tracks, RecoveredLevel, Records.FieldsFit;
    var all := records + [next];
    RecordsFit(c, m, records);
    assert Records.EncodedAll(all)[..|records|] == Records.EncodedAll(records);
    assert Records.EncodedAll(all)[..|records| + 1] == Records.EncodedAll(all);
    Records.ManifestRoundTrip(crc, all, n, |records|);
    var contents := LogFormat.ReadAll(crc, LogFormat.WriteAll(crc, 0, Records.EncodedAll(all))[..n], 0);
    assert DecodedAll(contents.records) == records;
    ReplayGivesVersion(m, levels, bound);
    forall i | 0 <= i < NUM_LEVELS ensures RecoveredLevel(c, disk, records, i) == levels[i] {
      RecordsRebuildLevel(c, disk, m, records, i);
    }
    LastRecordCounts(c, m, records);
  }

  function DecodedAll(images: seq<Bytes>): (r: seq<Records.Edit>)
    ensures |r| == |images| && forall k | 0 <= k < |images| :: r[k] == Records.Decoded(Records.EMPTY, images[k])
  {
    seq(|images|, k requires 0 <= k < |images| => Records.Decoded(Records.EMPTY, images[k]))
  }

  function LogNumbers(records: seq<Records.Edit>): (r: seq<Option<Coding.DoubleWord>>)
    ensures |r| == |records| && forall k | 0 <= k < |records| :: r[k] == records[k].logNumber
  {
    seq(|records|, k requires 0 <= k < |records| => records[k].logNumber)
  }

  function NextFiles(records: seq<Records.Edit>): (r: seq<Option<Coding.DoubleWord>>)
    ensures |r| == |records| && forall k | 0 <= k < |records| :: r[k] == records[k].nextFileNumber
  {
    seq(|records|, k requires 0 <= k < |records| => records[k].nextFileNumber)
  }

  function LastSequences(records: seq<Records.Edit>): (r: seq<Option<Coding.DoubleWord>>)
    ensures |r| == |records| && forall k | 0 <= k < |records| :: r[k] == records[k].lastSequence
  {
    seq(|records|, k requires 0 <= k < |records| => records[k].lastSequence)
  }

  lemma {:induction false} RecordsFit(c: Codec, m: Manifest, records: seq<Records.Edit>)
    requires AreRecordsOf(c, m, records)
    ensures forall e | e in records :: Records.FieldsFit(e) && Records.Sorted(e.deleted)
  {
    hide Records.FieldsFit, Records.Sorted;
    forall k | 0 <= k < |records| ensures Records.FieldsFit(records[k]) && Records.Sorted(records[k].deleted) {
      if k > 0 {
        assert IsRecordOf(c, m.edits[k - 1], records[k]);
      }
    }
  }

  lemma {:induction false} LastRecordCounts(c: Codec, m: Manifest, records: seq<Records.Edit>)
    requires AreRecordsOf(c, m, records) && m.edits != []
    ensures LastOf(LogNumbers(records)) == Some(m.LogNumber())
    ensures LastOf(NextFiles(records)) == Some(m.NextFile())
    ensures LastOf(LastSequences(records)) == Some(m.LastSequence())
  {
    var k := |m.edits| - 1;
    assert IsRecordOf(c, m.edits[k], records[k + 1]);
    assert records[|records| - 1] == records[k + 1];
  }

  /** In every run: whatever edit a crash interrupts, the manifest file brings back the version of that moment, with its
      levels in order. */
  lemma {:induction false} CrashedManifestRecovers(
      states: seq<Database.State>, steps: seq<Database.Step>, i: nat,
      crc: Crc32c.Checksum, c: Codec, disk: Disk, records: seq<Records.Edit>, next: Records.Edit, n: nat)
    requires DatabaseReads.IsRun(states, steps) && i < |states|
    requires forall j | 0 <= j < i :: DatabaseReads.Guarded(states[j], steps[j])
    requires AreRecordsOf(c, states[i].manifest, records) && AllRecordable(c, disk, states[i].manifest)
    requires Records.FieldsFit(next) && Records.Sorted(next.deleted)
    requires |LogFormat.WriteAll(crc, 0, Records.EncodedAll(records))| <= n
    requires n < |LogFormat.WriteAll(crc, 0, Records.EncodedAll(records + [next]))|
    ensures (
      var st := states[i];
      var contents := LogFormat.ReadAll(crc, LogFormat.WriteAll(crc, 0, Records.EncodedAll(records + [next]))[..n], 0);
      var decoded := DecodedAll(contents.records);
      && contents.reports == [] && |st.levels| == NUM_LEVELS
      && (forall l | 0 <= l < NUM_LEVELS :: RecoveredLevel(c, disk, decoded, l) == st.levels[l])
      && (forall l | 1 <= l < NUM_LEVELS :: Ordered(st.levels[l]))
      && LastOf(LogNumbers(decoded)) == Some(st.manifest.LogNumber()))
  {
    hide LogFormat.WriteAll, LogFormat.ReadAll, RecoveredLevel, AreRecordsOf, AllRecordable, Records.FieldsFit;
    hide DatabaseReads.IsRun, DatabaseReads.Guarded, LevelTracks;
    var st := states[i];
    DatabaseReads.RunsReadMap(states, steps, i);
    DatabaseReads.ReplayRebuildsVersion(states, steps, i);
    TrackedState(st);
    ManifestFileRebuildsVersion(crc, c, disk, st.manifest, st.levels, st.nextFile, records, next, n);
  }

  lemma {:induction false} TrackedState(st: Database.State)
    requires Database.Inv(st)
    ensures Tracks(st.manifest, st.levels, st.nextFile) && st.manifest.edits != [] && |st.levels| == NUM_LEVELS
  {
  }
}
