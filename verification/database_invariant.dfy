/** Every step of the database keeps its invariant. */
module DatabaseInvariant {
  import opened Common
  import opened InternalKeys
  import opened Version
  import opened Ranges
  import opened CompactionInputs
  import opened CompactionWork
  import opened Builder
  import opened Tables
  import opened RunningCompaction
  import opened Manifests
  import opened Database

  lemma {:induction false} TablesOfLongerHistory(levels: Levels, h: History, h': History, n: nat, floor: nat, nextFile: nat)
    requires TablesOk(levels, h, n, floor, nextFile) && h <= h'
    ensures TablesOk(levels, h', n, floor, nextFile)
  {
    RecordedPrefix(h, h', 0, n);
  }

  lemma {:induction false} ArrangedAtHigherBound(levels: Levels, a: nat, b: nat)
    requires Arranged(levels, a) && a <= b
    ensures Arranged(levels, b)
  {
    forall i | 0 <= i < NUM_LEVELS ensures LevelOk(levels[i], b, i > 0) {
      LevelBound(levels, a, i, b);
    }
  }

  lemma {:induction false} MemOfLongerHistory(es: seq<Entry>, h: History, h': History, a: nat, b: nat)
    requires MemOk(es, h, a, b) && h <= h'
    ensures MemOk(es, h', a, b)
  {
    RecordedPrefix(h, h', a, b);
  }

  // ---------------------------------------------------------------- the manifest

  lemma {:induction false} LevelsAreSorted(levels: Levels, nextFile: nat)
    requires Arranged(levels, nextFile)
    ensures |levels| == NUM_LEVELS && forall i | 0 <= i < NUM_LEVELS :: SortedFiles(levels[i])
  {
    assert forall i | 0 <= i < NUM_LEVELS :: LevelOk(levels[i], nextFile, i > 0);
  }

  lemma {:induction false} TracksAtHigherBound(m: Manifest, levels: Levels, a: nat, b: nat)
    requires Tracks(m, levels, a) && a <= b
    ensures Tracks(m, levels, b)
  {
  }

  /** A flushed table has a number of its own. */
  lemma {:induction false} FlushTracks(m: Manifest, levels: Levels, n: nat, p: nat, f: FileMetaData, edit: Edit, levels': Levels)
    requires Tracks(m, levels, n) && Arranged(levels, n) && p < NUM_LEVELS && f.number == n
    requires edit.changes == OneLevel(p, LevelEdit({}, [f])) && levels' == Install(levels, p, LevelEdit({}, [f]))
    requires Arranged(levels', n + 1) && HasAdded(levels, levels', p, f)
    ensures Tracks(m.With(edit), levels', n + 1)
    ensures forall o | IsNew(m, o) && o.number != n :: IsNew(m.With(edit), o)
  {
    hide LevelTracks, Mentioned, Install, LevelOk, Recent;
    LevelsAreSorted(levels, n);
    OneLevelChanges(levels, p, LevelEdit({}, [f]));
    LogKeepsTrack(m, levels, n, edit, levels', n + 1);
    StillNew(m, edit, f);
  }

  lemma {:induction false} StillNew(m: Manifest, edit: Edit, f: FileMetaData)
    requires Complete(m) && |edit.changes| == NUM_LEVELS
    requires forall i, g | 0 <= i < NUM_LEVELS && g in edit.changes[i].added :: g.number == f.number
    ensures Complete(m.With(edit)) && forall o | IsNew(m, o) && o.number != f.number :: IsNew(m.With(edit), o)
  {
    hide Mentioned;
    forall i | 0 <= i < NUM_LEVELS
      ensures forall g :: g in Mentioned(m.With(edit), i) <==> g in Mentioned(m, i) || g in edit.changes[i].added
    {
      ColumnSnoc(m, edit, i);
    }
  }

  lemma {:induction false} EmptyFlushTracks(m: Manifest, levels: Levels, n: nat, edit: Edit)
    requires Tracks(m, levels, n) && Arranged(levels, n) && edit.changes == OneLevel(0, NO_CHANGE)
    ensures Tracks(m.With(edit), levels, n + 1)
    ensures forall o | IsNew(m, o) :: IsNew(m.With(edit), o)
  {
    hide LevelTracks, Mentioned, LevelOk, Recent;
    LevelsAreSorted(levels, n);
    NoChangeKeeps(levels[0]);
    OneLevelChanges(levels, 0, NO_CHANGE);
    assert Install(levels, 0, NO_CHANGE) == levels;
    LogKeepsTrack(m, levels, n, edit, levels, n + 1);
    forall i | 0 <= i < NUM_LEVELS
      ensures forall g :: g in Mentioned(m.With(edit), i) <==> g in Mentioned(m, i)
    {
      ColumnSnoc(m, edit, i);
    }
  }

  lemma {:induction false} MoveAddsWell(m: Manifest, levels: Levels, from: nat, f: FileMetaData, levels': Levels, n: nat)
    requires Complete(m) && |levels| == |levels'| == NUM_LEVELS && from + 1 < NUM_LEVELS
    requires f in levels[from] && f in levels'[from + 1] && f.number < n
    ensures AddsWell(m, levels, TwoLevels(from, LevelEdit({f.number}, []), LevelEdit({}, [f])), levels', n)
  {
    hide IsNew, TwoLevels;
  }

  lemma {:induction false} FileNumberBelow(levels: Levels, n: nat, i: nat, f: FileMetaData)
    requires Arranged(levels, n) && i < NUM_LEVELS && f in levels[i]
    ensures f.number < n
  {
    LevelBound(levels, n, i, n);
  }

  /** A moved file keeps its number, and goes where it has never been. */
  lemma {:induction false} MoveTracks(m: Manifest, levels: Levels, n: nat, from: nat, f: FileMetaData, edit: Edit)
    requires Tracks(m, levels, n) && Arranged(levels, n) && from + 1 < NUM_LEVELS && f in levels[from]
    requires edit.changes == TwoLevels(from, LevelEdit({f.number}, []), LevelEdit({}, [f]))
    requires Arranged(MoveDown(levels, from, f), n) && HasMoved(levels, MoveDown(levels, from, f), from, f)
    ensures Tracks(m.With(edit), MoveDown(levels, from, f), n)
  {
    LevelsAreSorted(levels, n);
    FileNumberBelow(levels, n, from, f);
    MoveAddsWell(m, levels, from, f, MoveDown(levels, from, f), n);
    hide Tracks, LevelTracks, Install, Recent, LevelOk, SaveLevel, AddsWell, NumbersApart;
    TwoLevelsChange(levels, from, LevelEdit({f.number}, []), LevelEdit({}, [f]));
    LogKeepsTrack(m, levels, n, edit, MoveDown(levels, from, f), n);
  }

  /** The outputs of a compaction have numbers of their own. */
  lemma {:induction false} FinishTracks(m: Manifest, levels: Levels, n: nat, r: Running, edit: Edit)
    requires Tracks(m, levels, n) && Arranged(levels, n) && RunningOk(r, levels, n)
    requires forall o | o in r.outputs :: IsNew(m, o)
    requires edit.changes == TwoLevels(r.inputs.level, LevelEdit(Numbers(r.inputs.upper), []),
                                       LevelEdit(Numbers(r.inputs.lower), r.outputs))
    requires Arranged(Replace(levels, r), n) && HasReplaced(levels, Replace(levels, r), r)
    ensures Tracks(m.With(edit), Replace(levels, r), n)
  {
    hide LevelTracks, Mentioned, Install, LevelOk, Recent, WorkOk, PlaceOk, IsNew;
    LevelsAreSorted(levels, n);
    assert r.inputs.level + 1 < NUM_LEVELS by { assert WorkOk(r); ReachesDown(r); }
    TwoLevelsChange(levels, r.inputs.level, LevelEdit(Numbers(r.inputs.upper), []),
                    LevelEdit(Numbers(r.inputs.lower), r.outputs));
    LogKeepsTrack(m, levels, n, edit, Replace(levels, r), n);
  }

  lemma {:induction false} ReachesDown(r: Running)
    requires WorkOk(r)
    ensures r.inputs.level + 1 < NUM_LEVELS
  {
  }

  // ---------------------------------------------------------------- writes

  lemma {:induction false} LogAppendKeeps(st: State, ops: seq<Op>, st': State)
    requires Inv(st) && LogsGroup(st, ops, st')
    ensures Inv(st')
  {
    hide TablesOk, RunningOk, MemOk, Arranged, LogsOk;
    LogAppendKeepsLogs(st, ops, st');
  }

  lemma {:induction false} LogAppendKeepsLogs(st: State, ops: seq<Op>, st': State)
    requires MemoryOk(st) && LogsOk(st) && LogsGroup(st, ops, st')
    ensures LogsOk(st')
  {
    hide MemOk, Covers;
    var b := Batch(st.lastSequence + 1, ops);
    var d := Durable(st');
    assert d == st.history + ops;
    CoversLonger(st.logs[st.logNumber], st.history, d, st.memStart, |st.history|);
    assert d[|st.history|..|d|] == ops;
    CoversOne(b, d, |st.history|, |d|);
    CoversAppend(st.logs[st.logNumber], [b], d, st.memStart, |st.history|, |d|);
  }

  lemma {:induction false} CoversOne(batch: Batch, h: seq<Op>, a: nat, b: nat)
    requires a + |batch.ops| == b <= |h| && batch.first == a + 1 && h[a..b] == batch.ops
    ensures Covers([batch], h, a, b)
  {
    assert [batch][1..] == [];
  }

  lemma {:induction false} MemApplyKeeps(st: State, st': State)
    requires Inv(st) && AppliesGroup(st, st')
    ensures Inv(st')
  {
    hide TablesOk, MemOk, Covers, Tracks, Arranged, RunningOk, MemoryOk, LogsOk;
    TablesOfLongerHistory(st.levels, st.history, st'.history, st.immStart, st.floor, st.nextFile);
    MemApplyKeepsMemory(st, st');
    MemApplyKeepsLogs(st, st');
  }

  lemma {:induction false} MemApplyKeepsMemory(st: State, st': State)
    requires MemoryOk(st) && AppliesGroup(st, st')
    ensures MemoryOk(st') && st.history <= st'.history
  {
    hide MemOk;
    var ops := st.pending.value;
    MemOfLongerHistory(st.mem, st.history, st'.history, st.memStart, |st.history|);
    assert st'.history[|st.history|..|st.history| + |ops|] == ops;
    AddOpsOk(st.mem, st'.history, st.memStart, |st.history|, ops);
    if st.imm.Some? {
      MemOfLongerHistory(st.imm.value, st.history, st'.history, st.immStart, st.memStart);
    }
  }

  lemma {:induction false} MemApplyKeepsLogs(st: State, st': State)
    requires MemoryOk(st) && LogsOk(st) && AppliesGroup(st, st')
    ensures LogsOk(st')
  {
    hide MemOk, Covers;
    if st.imm.Some? {
      CoversLonger(st.logs[st.immLog], st.history, st'.history, st.immStart, st.memStart);
    }
  }

  lemma {:induction false} RunningAtHigherBound(r: Running, levels: Levels, a: nat, b: nat)
    requires RunningOk(r, levels, a) && a <= b
    ensures RunningOk(r, levels, b)
  {
    assert NumbersBelow(r.outputs, b);
  }

  lemma {:induction false} SwitchKeeps(st: State, st': State)
    requires Inv(st) && SwitchesMemTable(st, st')
    ensures Inv(st')
  {
    assert SetOf<Entry>([]) == {} == Recorded(st.history, st.lastSequence, st.lastSequence);
    assert Durable(st') == Durable(st) == st.history;
    assert MemoryOk(st');
    ArrangedAtHigherBound(st.levels, st.nextFile, st'.nextFile);
    TracksAtHigherBound(st.manifest, st.levels, st.nextFile, st'.nextFile);
    if st.running.Some? {
      RunningAtHigherBound(st.running.value, st.levels, st.nextFile, st'.nextFile);
    }
    assert LogsOk(st');
  }

  // ---------------------------------------------------------------- flush

  lemma {:induction false} FlushMayPlace(levels: Levels, f: FileMetaData, level: nat)
    requires WellShaped(levels) && f.Valid() && level < NUM_LEVELS && IsFlushLevel(levels, f.Lo(), f.Hi(), level)
    ensures MayPlace(levels, f, level)
  {
    FlushLevelIsClear(levels, f.Lo(), f.Hi(), level);
    if level > 0 {
      forall i, g | 0 <= i <= level && g in levels[i] ensures Apart(f, g) {
        ValidMember(levels[i], g);
        FileBounds(f, f.entries[0]);
        assert !OverlapInLevel(levels[i], f.Lo(), f.Hi());
        assert !Meets(g, Some(f.Lo()), Some(f.Hi()));
      }
    }
  }

  lemma {:induction false} AddedNumbers(levels: Levels, levels': Levels, p: nat, f: FileMetaData, tables: set<nat>)
    requires HasAdded(levels, levels', p, f) && TableNumbers(levels) <= tables
    ensures TableNumbers(levels') <= tables + {f.number}
  {
    forall n | n in TableNumbers(levels') ensures n in tables + {f.number} {
      var i: int, g: FileMetaData :| 0 <= i < |levels'| && g in levels'[i] && g.number == n;
      assert g in levels[i] || g == f;
      assert g in levels[i] ==> n in TableNumbers(levels);
    }
  }

  lemma {:induction false} RecordedHasFirst(h: History, a: nat, b: nat)
    requires b <= |h|
    ensures a < b ==> EntryAt(h, a) in Recorded(h, a, b)
  {
  }

  /** An empty memtable leaves no table; only the log number moves on. */
  lemma {:induction false} EmptyFlushKeeps(st: State, size: nat, level: nat, st': State)
    requires Inv(st) && FlushesMemTable(st, size, level, st') && st.imm.value == []
    ensures Inv(st')
  {
    RecordedHasFirst(st.history, st.immStart, st.memStart);
    assert st.immStart == st.memStart;
    hide TablesOk, ManifestOk, RunOk, MemoryOk, SnapshotsOk, LogsOk;
    EmptyFlushKeepsTables(st, size, level, st');
    EmptyFlushKeepsManifest(st, size, level, st');
    EmptyFlushKeepsLogs(st, size, level, st');
  }

  lemma {:induction false} EmptyFlushKeepsTables(st: State, size: nat, level: nat, st': State)
    requires Inv(st) && FlushesMemTable(st, size, level, st') && st.imm.value == [] && st.immStart == st.memStart
    ensures TablesOk(st'.levels, st'.history, st'.immStart, st'.floor, st'.nextFile) && RunOk(st')
  {
    hide AnswersLike, Arranged, RunningOk, MemoryOk, LogsOk, ManifestOk;
    ArrangedAtHigherBound(st.levels, st.nextFile, st'.nextFile);
    if st.running.Some? {
      RunningAtHigherBound(st.running.value, st.levels, st.nextFile, st'.nextFile);
    }
  }

  lemma {:induction false} EmptyFlushKeepsManifest(st: State, size: nat, level: nat, st': State)
    requires Inv(st) && FlushesMemTable(st, size, level, st') && st.imm.value == [] && st.immStart == st.memStart
    ensures ManifestOk(st')
  {
    hide AnswersLike, Arranged, RunOk, MemOk, LogsOk, Tracks, IsNew, TableNumbers;
    ArrangedAtHigherBound(st.levels, st.nextFile, st'.nextFile);
    EmptyFlushTracks(st.manifest, st.levels, st.nextFile, st'.manifest.Last());
  }

  lemma {:induction false} EmptyFlushKeepsLogs(st: State, size: nat, level: nat, st': State)
    requires Inv(st) && FlushesMemTable(st, size, level, st') && st.imm.value == [] && st.immStart == st.memStart
    ensures MemoryOk(st') && SnapshotsOk(st') && LogsOk(st')
  {
    hide TablesOk, ManifestOk, RunOk, Covers, MemOk;
  }

  /** A flush inside a running compaction may not land inside the range of one of its outputs. */
  ghost predicate FlushFits(st: State, size: nat, level: nat) {
    st.running.Some? && st.imm.Some? && st.imm.value != [] ==>
      MayFlush(st.running.value, OutputFile(st.nextFile, size, st.imm.value), level)
  }

  lemma {:induction false} FlushKeeps(st: State, size: nat, level: nat, st': State)
    requires Inv(st) && FlushesMemTable(st, size, level, st') && FlushFits(st, size, level)
    ensures Inv(st')
  {
    if st.imm.value == [] {
      EmptyFlushKeeps(st, size, level, st');
    } else {
      hide TablesOk, ManifestOk, RunOk, FlushFits, MemoryOk, SnapshotsOk, LogsOk, Install;
      var f := OutputFile(st.nextFile, size, st.imm.value);
      FlushKeepsTables(st, size, level, st', f);
      FlushKeepsManifest(st, size, level, st', f);
      FlushKeepsLogs(st, size, level, st');
    }
  }

  lemma {:induction false} FlushKeepsLogs(st: State, size: nat, level: nat, st': State)
    requires Inv(st) && FlushesMemTable(st, size, level, st') && st.imm.value != []
    ensures MemoryOk(st') && SnapshotsOk(st') && LogsOk(st')
  {
    hide TablesOk, ManifestOk, RunOk, Install, IsFlushLevel, Covers, MemOk;
  }

  lemma {:induction false} FlushKeepsTables(st: State, size: nat, level: nat, st': State, f: FileMetaData)
    requires Inv(st) && FlushesMemTable(st, size, level, st') && FlushFits(st, size, level)
    requires st.imm.value != [] && f == OutputFile(st.nextFile, size, st.imm.value)
    ensures TablesOk(st'.levels, st'.history, st'.immStart, st'.floor, st'.nextFile) && RunOk(st')
    ensures HasAdded(st.levels, st'.levels, level, f)
  {
    hide LogsOk, ManifestOk;
    ArrangedIsReadable(st.levels, st.nextFile);
    FlushMayPlace(st.levels, f, level);
    AddTable(st.levels, st.history, st.immStart, st.memStart, st.floor, st.nextFile, f, level);
    if st.running.Some? {
      AddedIsNewer(st.levels, st.history, st.immStart, st.memStart, f);
      FlushKeepsRunning(st.running.value, st.levels, st'.levels, st.nextFile, f, level);
    }
  }

  lemma {:induction false} FlushKeepsManifest(st: State, size: nat, level: nat, st': State, f: FileMetaData)
    requires Inv(st) && FlushesMemTable(st, size, level, st')
    requires st.imm.value != [] && f == OutputFile(st.nextFile, size, st.imm.value)
    requires TablesOk(st'.levels, st'.history, st'.immStart, st'.floor, st'.nextFile)
    requires HasAdded(st.levels, st'.levels, level, f)
    ensures ManifestOk(st')
  {
    hide LogsOk, AnswersLike, WorkOk, PlaceOk, MemOk, Install, Tracks, Arranged, IsNew;
    AddedNumbers(st.levels, st'.levels, level, f, st.tables);
    FlushTracks(st.manifest, st.levels, st.nextFile, level, f, st'.manifest.Last(), st'.levels);
    if st.running.Some? {
      assert forall o | o in st.running.value.outputs :: o.number != f.number;
    }
  }

  // ---------------------------------------------------------------- moves and compactions

  lemma {:induction false} MoveKeeps(st: State, from: nat, file: FileMetaData, st': State)
    requires Inv(st) && MovesFile(st, from, file, st') && EndsKeys(st.levels, Inputs(from, [file], []))
    ensures Inv(st')
  {
    hide Install, Tracks, TablesOk, MemOk, Covers, EndsKeys;
    MoveTable(st.levels, st.history, st.immStart, st.floor, st.nextFile, from, file);
    MoveKeepsManifest(st, from, file, st');
    assert LogsOk(st');
  }

  lemma {:induction false} MoveKeepsManifest(st: State, from: nat, file: FileMetaData, st': State)
    requires Inv(st) && MovesFile(st, from, file, st')
    requires TablesOk(st'.levels, st.history, st.immStart, st.floor, st.nextFile)
    requires HasMoved(st.levels, st'.levels, from, file)
    ensures ManifestOk(st')
  {
    hide Install, Mentioned, LevelTracks, LogsOk, MemOk, AnswersLike, LevelOk, Recent;
    assert file in [file];
    MoveTracks(st.manifest, st.levels, st.nextFile, from, file, st'.manifest.Last());
    forall n | n in TableNumbers(st'.levels) ensures n in st.tables {
      var i: int, g: FileMetaData :| 0 <= i < |st'.levels| && g in st'.levels[i] && g.number == n;
      assert g in st.levels[i] || (g == file && file in st.levels[from]);
      assert n in TableNumbers(st.levels);
    }
  }

  lemma {:induction false} StartKeeps(st: State, r: Running, st': State)
    requires Inv(st) && StartsCompaction(st, r, st') && EndsKeys(st.levels, r.inputs)
    ensures Inv(st')
  {
    hide Tracks, EndsKeys, Arranged, MemOk, Covers, AnswersLike, RunningOk, IsNew;
    RecordedBounds(st.history, 0, st.immStart);
    assert UniqueSequences(EntriesFrom(st.levels, 0));
    StartIsOk(r, st.levels, st.nextFile);
    ArrangedAtHigherBound(st.levels, st.nextFile, st'.nextFile);
    TracksAtHigherBound(st.manifest, st.levels, st.nextFile, st'.nextFile);
    OutputsAreNew(st.manifest, st.levels, st.nextFile, r);
    hide Starts, UniqueSequences;
    assert LogsOk(st');
  }

  lemma {:induction false} OutputsAreNew(m: Manifest, levels: Levels, n: nat, r: Running)
    requires Tracks(m, levels, n) && Starts(r, levels, n)
    ensures forall o | o in r.outputs :: IsNew(m, o)
  {
    hide Mentioned, LevelTracks, NamesOne, OnlyDown;
    forall o | o in r.outputs ensures IsNew(m, o) {
      assert o.number >= n;
    }
  }

  lemma {:induction false} ReplacedTableNumbers(levels: Levels, r: Running, levels': Levels)
    requires HasReplaced(levels, levels', r)
    ensures TableNumbers(levels') <= TableNumbers(levels) + Numbers(r.outputs)
  {
    forall n | n in TableNumbers(levels') ensures n in TableNumbers(levels) + Numbers(r.outputs) {
      var i: int, g: FileMetaData :| 0 <= i < |levels'| && g in levels'[i] && g.number == n;
      WhereFrom(levels, levels', r, i, g);
    }
  }

  lemma {:induction false} FinishKeeps(st: State, st': State)
    requires Inv(st) && FinishesCompaction(st, st')
    ensures Inv(st')
  {
    hide Install, Tracks, TablesOk, MemOk, Covers, RunningOk;
    var r := st.running.value;
    FinishKeepsTables(st.levels, r, st.history, st.immStart, st.floor, st.nextFile);
    FinishKeepsManifest(st, st');
    assert LogsOk(st');
  }

  lemma {:induction false} FinishKeepsManifest(st: State, st': State)
    requires Inv(st) && FinishesCompaction(st, st')
    ensures ManifestOk(st')
  {
    hide Install, Tracks, LogsOk, MemOk, AnswersLike, RunningOk, IsNew, Arranged;
    var r := st.running.value;
    FinishArranged(st.levels, r, st.nextFile);
    ReplacedTableNumbers(st.levels, r, st'.levels);
    FinishTracks(st.manifest, st.levels, st.nextFile, r, st'.manifest.Last());
  }

  // ---------------------------------------------------------------- snapshots and garbage

  lemma {:induction false} SnapshotsKeep(st: State, i: nat, st': State)
    requires Inv(st) && (TakesSnapshot(st, st') || ReleasesSnapshot(st, i, st'))
    ensures Inv(st')
  {
    hide TablesOk, RunningOk, MemOk, Arranged, Covers;
    assert LogsOk(st');
  }

  /** The live snapshots are those taken and not yet released, and the oldest of them bounds what a compaction may drop. */
  lemma {:induction false} SnapshotsAreCounted(st: State, i: nat, st': State)
    requires Inv(st)
    ensures TakesSnapshot(st, st') ==> multiset(st'.snapshots) == multiset(st.snapshots) + multiset{st.lastSequence}
    ensures ReleasesSnapshot(st, i, st') ==>
              && st.snapshots[i] in st.snapshots
              && multiset(st'.snapshots) == multiset(st.snapshots) - multiset{st.snapshots[i]}
    ensures forall s | s in st.snapshots :: SmallestSnapshot(st) <= s
    ensures SmallestSnapshot(st) in (if st.snapshots == [] then [st.lastSequence] else st.snapshots)
  {
    hide TablesOk, RunOk, LogsOk, ManifestOk, MemoryOk;
    if ReleasesSnapshot(st, i, st') {
      assert st.snapshots == st.snapshots[..i] + [st.snapshots[i]] + st.snapshots[i + 1..];
    }
  }

  lemma {:induction false} DeleteKeeps(st: State, pinned: set<nat>, st': State)
    requires Inv(st) && DeletesObsolete(st, pinned, st')
    ensures Inv(st')
  {
    hide TablesOk, RunningOk, MemOk, Arranged, Covers, Tracks, IsNew;
    assert LogsOk(st');
  }

  /** After it, the disk holds exactly what somebody needs: the logs of the two memtables, and of the tables that were there
      those of the version, those being written, and those pinned. */
  lemma {:induction false} DeleteLeavesNoGarbage(st: State, pinned: set<nat>, st': State)
    requires Inv(st) && DeletesObsolete(st, pinned, st')
    ensures forall n :: n in st'.logs <==> n == st.logNumber || (st.imm.Some? && n == st.immLog)
    ensures forall n | n in st'.logs :: st'.logs[n] == st.logs[n]
    ensures forall n :: n in st'.tables <==>
              || (exists i, f :: 0 <= i < |st.levels| && f in st.levels[i] && f.number == n)
              || (st.running.Some? && exists o :: o in st.running.value.outputs && o.number == n)
              || (n in pinned && n in st.tables)
  {
    hide TablesOk, RunningOk, MemOk, Arranged, Covers, Tracks, IsNew;
    assert LogsOk(st) && ManifestOk(st);
    forall i, f | 0 <= i < |st.levels| && f in st.levels[i] ensures f.number in st.tables {
      assert f.number in TableNumbers(st.levels);
    }
    if st.running.Some? {
      forall o | o in st.running.value.outputs ensures o.number in st.tables {
        assert o.number in Numbers(st.running.value.outputs);
      }
    }
  }
}
