/** Iterating over the database: the sorted runs of a state merge into one, and its live list is the plain map. */
module DatabaseIteration {
  import opened Common
  import opened InternalKeys
  import opened Version
  import opened CompactionWork
  import opened Tables
  import opened RunningCompaction
  import opened Database
  import opened DatabaseReads
  import opened DbIter
  import opened Merger

  // ---------- the runs an internal iterator merges ----------

  function TableRuns(files: Level): seq<seq<Entry>> {
    seq(|files|, i requires 0 <= i < |files| => files[i].entries)
  }

  /** Version::AddIterators below level 0: one concatenating iterator for each level that has files. */
  function LevelRuns(levels: Levels, i: nat): seq<seq<Entry>>
    requires i <= |levels|
    decreases |levels| - i
  {
    if i == |levels| then []
    else (if levels[i] == [] then [] else [Flatten(levels[i])]) + LevelRuns(levels, i + 1)
  }

  /** NewInternalIterator. */
  function Runs(st: State): seq<seq<Entry>>
    requires |st.levels| == NUM_LEVELS
  {
    [st.mem] + (if st.imm.Some? then [st.imm.value] else []) + TableRuns(st.levels[0]) + LevelRuns(st.levels, 1)
  }

  ghost function Union(runs: seq<seq<Entry>>): set<Entry> {
    set run, e | run in runs && e in run :: e
  }

  /** Runs that a MergingIterator can merge: sorted, with no entry in two of them. */
  ghost predicate Mergeable(runs: seq<seq<Entry>>) {
    && (forall i | 0 <= i < |runs| :: SortedRun(runs[i]))
    && (forall i, j | 0 <= i < j < |runs| :: SetOf(runs[i]) !! SetOf(runs[j]))
  }

  lemma {:induction false} UnionAppend(a: seq<seq<Entry>>, b: seq<seq<Entry>>)
    ensures Union(a + b) == Union(a) + Union(b)
  {
  }

  lemma {:induction false} MergeableAppend(a: seq<seq<Entry>>, b: seq<seq<Entry>>)
    requires Mergeable(a) && Mergeable(b) && Union(a) !! Union(b)
    ensures Mergeable(a + b)
  {
    var runs := a + b;
    forall i, j | 0 <= i < j < |runs| ensures SetOf(runs[i]) !! SetOf(runs[j]) {
      if i < |a| <= j {
        assert a[i] in a && b[j - |a|] in b;
        assert SetOf(a[i]) <= Union(a) && SetOf(b[j - |a|]) <= Union(b);
      }
    }
  }

  lemma {:induction false} OneRun(run: seq<Entry>)
    requires SortedRun(run)
    ensures Mergeable([run]) && Union([run]) == SetOf(run)
  {
  }

  lemma {:induction false} NewerIsApart(a: set<Entry>, b: set<Entry>)
    requires Newer(a, b)
    ensures a !! b
  {
  }

  /** Disjoint files in order make one sorted run. */
  lemma {:induction false} ConcatenationIsSorted(files: Level)
    requires AllValid(files) && Ordered(files)
    ensures SortedRun(Flatten(files)) && SetOf(Flatten(files)) == EntriesOf(files)
  {
    FlattenMembers(files);
    if files != [] {
      var rest := Flatten(files[1..]);
      ConcatenationIsSorted(files[1..]);
      var all, head := Flatten(files), files[0].entries;
      forall a, b | 0 <= a < b < |all| ensures Less(all[a].key, all[b].key) {
        if a < |head| <= b {
          assert rest[b - |head|] in rest;
          assert all[b] in EntriesOf(files[1..]);
          var i :| 0 <= i < |files[1..]| && all[b] in files[1..][i].entries;
          FileBounds(files[0], all[a]);
          FileBounds(files[i + 1], all[b]);
          assert Less(files[0].largest, files[i + 1].smallest);
        }
      }
    }
  }

  lemma {:induction false} TableRunsMerge(files: Level)
    requires AllValid(files)
    requires forall i, j | 0 <= i < j < |files| :: SetOf(files[i].entries) !! SetOf(files[j].entries)
    ensures Mergeable(TableRuns(files)) && Union(TableRuns(files)) == EntriesOf(files)
  {
    var runs := TableRuns(files);
    forall e ensures e in Union(runs) <==> e in EntriesOf(files) {
      if e in Union(runs) {
        var i :| 0 <= i < |runs| && e in runs[i];
        assert files[i] in files;
      }
      if e in EntriesOf(files) {
        var i :| 0 <= i < |files| && e in files[i].entries;
        assert runs[i] in runs;
      }
    }
  }

  lemma {:induction false} LevelZeroRuns(levels: Levels, nextFile: nat)
    requires Arranged(levels, nextFile)
    ensures Mergeable(TableRuns(levels[0])) && Union(TableRuns(levels[0])) == EntriesOf(levels[0])
  {
    var files := levels[0];
    assert LevelOk(files, nextFile, false);
    forall i, j | 0 <= i < j < |files| ensures SetOf(files[i].entries) !! SetOf(files[j].entries) {
      assert files[i] in files && files[j] in files;
      assert files[i].number != files[j].number;
      if files[i].number > files[j].number {
        NewerIsApart(SetOf(files[i].entries), SetOf(files[j].entries));
      } else {
        NewerIsApart(SetOf(files[j].entries), SetOf(files[i].entries));
      }
    }
    TableRunsMerge(files);
  }

  /** What a level holds is disjoint from what the deeper levels hold. */
  lemma {:induction false} LevelsApart(levels: Levels, i: nat)
    requires Recent(levels) && i < |levels|
    ensures EntriesFrom(levels, i) == EntriesOf(levels[i]) + EntriesFrom(levels, i + 1)
    ensures Newer(EntriesOf(levels[i]), EntriesFrom(levels, i + 1))
  {
    var a, b := EntriesOf(levels[i]), EntriesFrom(levels, i + 1);
    forall x, y | x in a && y in b && x.key.user == y.key.user ensures x.key.sequence > y.key.sequence {
      var f: FileMetaData :| f in levels[i] && x in f.entries;
      var j: int, g: FileMetaData :| i + 1 <= j < |levels| && g in levels[j] && y in g.entries;
      assert NewerFile(f, g);
    }
  }

  lemma {:induction false} RunOfLevel(files: Level)
    requires AllValid(files) && Ordered(files)
    ensures var runs := if files == [] then [] else [Flatten(files)];
            Mergeable(runs) && Union(runs) == EntriesOf(files)
  {
    ConcatenationIsSorted(files);
    OneRun(Flatten(files));
  }

  lemma {:induction false} NothingDeeper(levels: Levels)
    requires |levels| == NUM_LEVELS
    ensures Mergeable(LevelRuns(levels, NUM_LEVELS)) && Union(LevelRuns(levels, NUM_LEVELS)) == EntriesFrom(levels, NUM_LEVELS)
  {
  }

  lemma {:induction false} DeeperRuns(levels: Levels, nextFile: nat, i: nat)
    requires Arranged(levels, nextFile) && 1 <= i <= NUM_LEVELS
    ensures Mergeable(LevelRuns(levels, i)) && Union(LevelRuns(levels, i)) == EntriesFrom(levels, i)
    decreases NUM_LEVELS - i
  {
    hide Mergeable, Union, EntriesOf, EntriesFrom, Recent, Newer, NumbersApart, AllValid, Ordered, DistinctNumbers,
      NumbersBelow, Flatten;
    if i == NUM_LEVELS {
      NothingDeeper(levels);
    } else {
      DeeperRuns(levels, nextFile, i + 1);
      LevelsApart(levels, i);
      NewerIsApart(EntriesOf(levels[i]), EntriesFrom(levels, i + 1));
      assert LevelOk(levels[i], nextFile, true);
      RunOfLevel(levels[i]);
      var runs := if levels[i] == [] then [] else [Flatten(levels[i])];
      MergeableAppend(runs, LevelRuns(levels, i + 1));
      UnionAppend(runs, LevelRuns(levels, i + 1));
    }
  }

  lemma {:induction false} TableRunsAll(levels: Levels, nextFile: nat)
    requires Arranged(levels, nextFile)
    ensures (
      var runs := TableRuns(levels[0]) + LevelRuns(levels, 1);
      Mergeable(runs) && Union(runs) == EntriesFrom(levels, 0))
  {
    LevelZeroRuns(levels, nextFile);
    DeeperRuns(levels, nextFile, 1);
    LevelsApart(levels, 0);
    NewerIsApart(EntriesOf(levels[0]), EntriesFrom(levels, 1));
    MergeableAppend(TableRuns(levels[0]), LevelRuns(levels, 1));
    UnionAppend(TableRuns(levels[0]), LevelRuns(levels, 1));
  }

  ghost function ImmSet(st: State): set<Entry> {
    if st.imm.Some? then SetOf(st.imm.value) else {}
  }

  /** The entries of a state, newest layer first. */
  ghost function Stored(st: State): set<Entry> {
    SetOf(st.mem) + (ImmSet(st) + EntriesFrom(st.levels, 0))
  }

  lemma {:induction false} LayersAreNewer(st: State)
    requires StoredOk(st)
    ensures SetOf(st.mem) == Recorded(st.history, st.memStart, |st.history|)
    ensures ImmSet(st) == Recorded(st.history, st.immStart, st.memStart)
    ensures EntriesFrom(st.levels, 0) <= Recorded(st.history, 0, st.immStart)
    ensures Newer(ImmSet(st), EntriesFrom(st.levels, 0))
    ensures Newer(SetOf(st.mem), ImmSet(st) + EntriesFrom(st.levels, 0))
  {
    RecordedBounds(st.history, st.memStart, |st.history|);
    RecordedBounds(st.history, st.immStart, st.memStart);
    RecordedBounds(st.history, 0, st.immStart);
    assert Recorded(st.history, st.memStart, st.memStart) == {};
  }

  lemma {:induction false} MemtablesSorted(st: State)
    requires StoredOk(st)
    ensures SortedRun(st.mem) && (st.imm.Some? ==> SortedRun(st.imm.value))
    ensures Arranged(st.levels, st.nextFile)
  {
  }

  /** NewInternalIterator hands the merging iterator runs it can merge, and they hold everything stored. */
  lemma {:induction false} RunsMerge(st: State)
    requires StoredOk(st)
    ensures Mergeable(Runs(st)) && Union(Runs(st)) == Stored(st)
  {
    hide Mergeable, Union, Newer, SortedRun, Recorded, AnswersLike;
    var tables := TableRuns(st.levels[0]) + LevelRuns(st.levels, 1);
    MemtablesSorted(st);
    TableRunsAll(st.levels, st.nextFile);
    LayersAreNewer(st);
    NewerIsApart(ImmSet(st), EntriesFrom(st.levels, 0));
    NewerIsApart(SetOf(st.mem), ImmSet(st) + EntriesFrom(st.levels, 0));
    var below := tables;
    if st.imm.Some? {
      OneRun(st.imm.value);
      MergeableAppend([st.imm.value], tables);
      UnionAppend([st.imm.value], tables);
      below := [st.imm.value] + tables;
    }
    OneRun(st.mem);
    MergeableAppend([st.mem], below);
    UnionAppend([st.mem], below);
    assert [st.mem] + below == Runs(st);
  }

  // ---------- the merged run and its live list ----------

  /** The merged run that the MergingIterator stands for exists. */
  lemma {:induction false} MergedExists(es: set<Entry>) returns (m: seq<Entry>)
    requires UniqueSequences(es)
    ensures SortedRun(m) && SetOf(m) == es
    decreases |es|
  {
    if es == {} {
      m := [];
    } else {
      var e :| e in es;
      var rest := MergedExists(es - {e});
      forall x | x in rest ensures x.key != e.key {
        assert x in SetOf(rest);
      }
      MemInsertSorted(rest, e);
      m := MemInsert(rest, e);
    }
  }

  lemma {:induction false} StoredReadsHistory(st: State, s: SequenceNumber, k: UserKey, v: Payload)
    requires StoredOk(st) && st.floor <= s <= |st.history|
    ensures Yields(Stored(st), k, s, v) <==> Yields(Recorded(st.history, 0, |st.history|), k, s, v)
  {
    LayersAreNewer(st);
    var h := st.history;
    var tables, past := EntriesFrom(st.levels, 0), Recorded(h, 0, st.immStart);
    assert Yields(tables, k, s, v) <==> Yields(past, k, s, v);
    RecordedSplit(h, 0, st.immStart, st.memStart);
    RecordedSplit(h, 0, st.memStart, |h|);
    YieldsOfLayers(ImmSet(st), tables, k, s, v);
    YieldsOfLayers(ImmSet(st), past, k, s, v);
    YieldsOfLayers(SetOf(st.mem), ImmSet(st) + tables, k, s, v);
    YieldsOfLayers(SetOf(st.mem), ImmSet(st) + past, k, s, v);
  }

  /**
   * A database iterator at sequence s runs over the plain map as of s: the list its cursor moves
   * on is sorted by key and holds exactly the entries of the map.
   */
  lemma {:induction false} IteratorReadsMap(st: State, m: seq<Entry>, s: SequenceNumber)
    requires StoredOk(st) && st.floor <= s <= |st.history|
    requires SortedRun(m) && SetOf(m) == Union(Runs(st))
    ensures (
      var l := LiveList(m, s);
      && (forall i, j | 0 <= i < j < |l| :: l[i].0 < l[j].0)
      && (forall k, v :: (k, v) in l <==> k in MapAt(st.history, s) && MapAt(st.history, s)[k] == v))
  {
    RunsMerge(st);
    LiveListIsVisibleMap(m, s);
    forall k, v
      ensures (k, v) in LiveList(m, s) <==> k in MapAt(st.history, s) && MapAt(st.history, s)[k] == v
    {
      StoredReadsHistory(st, s, k, v);
      HistoryAt(st.history, s, k, v);
      HistoryIsMap(st.history, s, k, v);
    }
  }
}
