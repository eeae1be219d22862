/** A crash loses nothing that was in the log: reopening rebuilds the history. */
module DatabaseRecovery {
  import opened Common
  import opened InternalKeys
  import opened Version
  import opened CompactionWork
  import opened Builder
  import opened Tables
  import opened Database
  import opened DatabaseInvariant
  import opened Manifests
  import opened RunningCompaction

  // ---------------------------------------------------------------- which logs are replayed

  lemma {:induction false} OrderOfOne(order: seq<nat>, a: nat)
    requires forall i, j | 0 <= i < j < |order| :: order[i] < order[j]
    requires forall n :: n in order <==> n == a
    ensures order == [a]
  {
    assert a in order;
    assert order[0] in order && order[|order| - 1] in order;
  }

  lemma {:induction false} OrderOfTwo(order: seq<nat>, a: nat, b: nat)
    requires forall i, j | 0 <= i < j < |order| :: order[i] < order[j]
    requires forall n :: n in order <==> n == a || n == b
    requires a < b
    ensures order == [a, b]
  {
    assert forall i | 0 <= i < |order| :: order[i] in order;
    assert a in order && b in order;
    var i :| 0 <= i < |order| && order[i] == a;
    var j :| 0 <= j < |order| && order[j] == b;
    assert i == 0;
    assert order[1..][j - 1] == b;
    forall n ensures n in order[1..] <==> n == b {
      if n in order[1..] {
        var l :| 0 <= l < |order[1..]| && order[1..][l] == n;
        assert order[l + 1] == n && order[0] < n;
      }
    }
    OrderOfOne(order[1..], b);
  }

  /** The logs the manifest still counts hold exactly the writes that are in no table, those of
      an unacknowledged group included. */
  lemma {:induction false} ReplayedLogsCover(st: State, order: seq<nat>)
    requires Inv(st) && ReplayOrder(order, st.logs, st.manifest.LogNumber())
    ensures Covers(InOrder(st.logs, order), Durable(st), st.immStart, |Durable(st)|)
    ensures st.logNumber in order
  {
    var current := st.logs[st.logNumber];
    if st.imm.Some? {
      OrderOfTwo(order, st.immLog, st.logNumber);
      assert order[1..] == [st.logNumber] && order[1..][1..] == [];
      assert InOrder(st.logs, order[1..]) == current + [] == current;
      CoversLonger(st.logs[st.immLog], st.history, Durable(st), st.immStart, st.memStart);
      CoversAppend(st.logs[st.immLog], current, Durable(st), st.immStart, st.memStart, |Durable(st)|);
    } else {
      OrderOfOne(order, st.logNumber);
      assert order[1..] == [];
      assert InOrder(st.logs, order) == current + [] == current;
    }
  }

  /** Sequence numbers go on where they stopped. */
  lemma {:induction false} RecoveredSequence(batches: seq<Batch>, h: seq<Op>, a: nat, b: nat, least: nat)
    requires Covers(batches, h, a, b) && a <= least <= b
    ensures MaxSequence(batches, least) == b
    decreases |batches|
  {
    if batches != [] {
      var last := batches[0].first + |batches[0].ops| - 1;
      RecoveredSequence(batches[1..], h, a + |batches[0].ops|, b, if last > least then last else least);
    }
  }

  // ---------------------------------------------------------------- replaying into tables

  lemma {:induction false} AddBatchesOk(es: seq<Entry>, h: History, start: nat, a: nat, b: nat, batches: seq<Batch>)
    requires MemOk(es, h, start, a) && Covers(batches, h, a, b) && Fits(batches)
    ensures MemOk(AddBatches(es, batches), h, start, b)
    decreases |batches|
  {
    if batches != [] {
      var ops := batches[0].ops;
      AddOpsOk(es, h, start, a, ops);
      AddBatchesOk(AddOps(es, a + 1, ops), h, start, a + |ops|, b, batches[1..]);
    }
  }

  lemma {:induction false} RecoveredNumbers(chunks: seq<seq<Batch>>, numbers: seq<nat>, sizes: seq<nat>, low: nat, high: nat)
    requires |numbers| == |sizes| == |chunks|
    requires forall i | 0 <= i < |chunks| :: Fits(chunks[i])
    requires forall i | 0 <= i < |numbers| :: low <= numbers[i] < high
    requires forall i, j | 0 <= i < j < |numbers| :: numbers[i] < numbers[j]
    ensures var r := RecoveredTables(chunks, numbers, sizes);
            && DistinctNumbers(r) && NumbersBelow(r, high)
            && forall f | f in r :: f.number >= low
  {
    if chunks != [] {
      RecoveredNumbers(chunks[1..], numbers[1..], sizes[1..], numbers[0] + 1, high);
      var rest := RecoveredTables(chunks[1..], numbers[1..], sizes[1..]);
      forall i | 0 <= i < |rest| ensures rest[i].number > numbers[0] {
        assert rest[i] in rest;
      }
    }
  }

  /** Adding tables in one edit is adding them one at a time. */
  lemma {:induction false} InstallTwice(files: Level, f: FileMetaData, rest: Level, bound: nat)
    requires SortedFiles(files) && NumbersBelow(files, bound) && bound <= f.number
    requires DistinctNumbers(rest) && forall g | g in rest :: g.number > f.number
    ensures SaveLevel(SaveLevel(files, Apply(LevelEdit({}, []), LevelEdit({}, [f]))),
                      Apply(LevelEdit({}, []), LevelEdit({}, rest)))
         == SaveLevel(files, Apply(LevelEdit({}, []), LevelEdit({}, [f] + rest)))
  {
    hide SaveLevel, Before;
    var one := SaveLevel(files, Apply(LevelEdit({}, []), LevelEdit({}, [f])));
    var edit1, edit2, edit3 := LevelEdit({}, [f]), LevelEdit({}, rest), LevelEdit({}, [f] + rest);
    assert forall g :: g in [f] + rest <==> g == f || g in rest;
    assert forall j | 0 <= j < |rest| :: rest[j] in rest;
    SaveLevelMembers(files, edit1);
    SaveLevelMembers(one, edit2);
    SaveLevelMembers(files, edit3);
    SortedFilesUnique(SaveLevel(one, Apply(LevelEdit({}, []), edit2)), SaveLevel(files, Apply(LevelEdit({}, []), edit3)));
  }

  lemma {:induction false} InstallNothing(levels: Levels, i: nat)
    requires i < |levels| && SortedFiles(levels[i])
    ensures Install(levels, i, LevelEdit({}, [])) == levels
  {
    var r := SaveLevel(levels[i], Apply(LevelEdit({}, []), LevelEdit({}, [])));
    SaveLevelMembers(levels[i], LevelEdit({}, []));
    SortedFilesUnique(r, levels[i]);
  }

  lemma {:induction false} TablesAtHigherBound(levels: Levels, h: History, n: nat, floor: nat, a: nat, b: nat)
    requires TablesOk(levels, h, n, floor, a) && a <= b
    ensures TablesOk(levels, h, n, floor, b)
  {
    ArrangedAtHigherBound(levels, a, b);
  }

  /** One replayed memtable. */
  lemma {:induction false} ReplayOneTable(levels: Levels, h: History, a: nat, c: nat, floor: nat, nextFile: nat,
                                          es: seq<Entry>, number: nat, size: nat, rest: Level)
    requires TablesOk(levels, h, a, floor, nextFile) && MemOk(es, h, a, c) && es != []
    requires nextFile <= number && DistinctNumbers(rest) && forall g | g in rest :: g.number > number
    ensures var f := OutputFile(number, size, es);
            && TablesOk(Install(levels, 0, LevelEdit({}, [f])), h, c, floor, number + 1)
            && Install(Install(levels, 0, LevelEdit({}, [f])), 0, LevelEdit({}, rest))
               == Install(levels, 0, LevelEdit({}, [f] + rest))
  {
    LevelBound(levels, nextFile, 0, nextFile);
    AddTable(levels, h, a, c, floor, nextFile, OutputFile(number, size, es), 0);
    InstallTwice(levels[0], OutputFile(number, size, es), rest, nextFile);
  }

  /** Cutting the replayed records into memtables anywhere, and writing each as a level-0 table,
      extends what the tables answer for to the whole history. */
  lemma {:induction false} ReplayExtendsTables(
      levels: Levels, h: History, a: nat, b: nat, floor: nat, nextFile: nat,
      chunks: seq<seq<Batch>>, numbers: seq<nat>, sizes: seq<nat>, bound: nat)
    requires TablesOk(levels, h, a, floor, nextFile)
    requires Covers(Concat(chunks), h, a, b)
    requires |numbers| == |sizes| == |chunks|
    requires forall i | 0 <= i < |chunks| :: Fits(chunks[i])
    requires forall i | 0 <= i < |numbers| :: nextFile <= numbers[i] < bound
    requires forall i, j | 0 <= i < j < |numbers| :: numbers[i] < numbers[j]
    requires nextFile <= bound
    ensures TablesOk(Install(levels, 0, LevelEdit({}, RecoveredTables(chunks, numbers, sizes))), h, b, floor, bound)
    decreases |chunks|
  {
    if chunks == [] {
      LevelBound(levels, nextFile, 0, nextFile);
      InstallNothing(levels, 0);
      TablesAtHigherBound(levels, h, b, floor, nextFile, bound);
    } else {
      var c := CoversSplit(chunks[0], Concat(chunks[1..]), h, a, b);
      var es := AddBatches([], chunks[0]);
      EmptyMem(h, a);
      AddBatchesOk([], h, a, a, c, chunks[0]);
      if es == [] {
        RecordedHasFirst(h, a, c);
        ReplayExtendsTables(levels, h, c, b, floor, nextFile, chunks[1..], numbers[1..], sizes[1..], bound);
      } else {
        var f := OutputFile(numbers[0], sizes[0], es);
        RecoveredNumbers(chunks[1..], numbers[1..], sizes[1..], numbers[0] + 1, bound);
        ReplayOneTable(levels, h, a, c, floor, nextFile, es, numbers[0], sizes[0],
                       RecoveredTables(chunks[1..], numbers[1..], sizes[1..]));
        ReplayExtendsTables(Install(levels, 0, LevelEdit({}, [f])), h, c, b, floor, numbers[0] + 1,
                            chunks[1..], numbers[1..], sizes[1..], bound);
      }
    }
  }

  lemma {:induction false} EmptyMem(h: History, a: nat)
    requires a <= |h|
    ensures MemOk([], h, a, a)
  {
    assert SetOf<Entry>([]) == {} == Recorded(h, a, a);
  }

  lemma {:induction false} RecoveredTableNumbers(levels: Levels, added: Level)
    requires |levels| > 0 && SortedFiles(levels[0]) && DistinctNumbers(added)
    requires forall f, g | f in levels[0] && g in added :: f.number != g.number
    ensures TableNumbers(Install(levels, 0, LevelEdit({}, added))) <= TableNumbers(levels) + Numbers(added)
  {
    var levels' := Install(levels, 0, LevelEdit({}, added));
    SaveLevelMembers(levels[0], LevelEdit({}, added));
    forall n | n in TableNumbers(levels') ensures n in TableNumbers(levels) + Numbers(added) {
      var i: int, g: FileMetaData :| 0 <= i < |levels'| && g in levels'[i] && g.number == n;
      assert g in levels[i] || g in added;
    }
  }

  /** The recovered version answers for every logged write, and the next sequence number follows them. */
  lemma {:induction false} ReopenTables(st: State, rec: Recovery, st': State)
    requires Inv(st) && Reopens(st, rec, st')
    ensures Replayed(st.manifest) == st.levels
    ensures st'.history == Durable(st) && st'.lastSequence == |st'.history|
    ensures TablesOk(st'.levels, st'.history, |st'.history|, st.floor, rec.newLog + 1)
  {
    hide AnswersLike, MemOk, SnapshotsOk, LogsOk, Tracks;
    var m := st.manifest;
    var h := Durable(st);
    ReplayGivesVersion(m, st.levels, st.nextFile);
    ReplayedLogsCover(st, rec.order);
    RecoveredSequence(InOrder(st.logs, rec.order), h, st.immStart, |h|, m.LastSequence());
    TablesOfLongerHistory(st.levels, st.history, h, st.immStart, st.floor, st.nextFile);
    assert TablesOk(st.levels, h, st.immStart, st.floor, m.NextFile());
    ReplayExtendsTables(st.levels, h, st.immStart, |h|, st.floor, m.NextFile(), rec.chunks, rec.numbers, rec.sizes,
                        rec.newLog + 1);
  }

  /** Reopening after a crash: replaying the manifest gives the version, every logged write is back, and the next
      sequence number is the one that follows the last write. */
  lemma {:induction false} ReopenKeeps(st: State, rec: Recovery, st': State)
    requires Inv(st) && Reopens(st, rec, st')
    ensures Inv(st') && st'.history == Durable(st) && st'.floor == st.floor
    ensures Replayed(st.manifest) == st.levels
  {
    hide TablesOk, LogsOk, ManifestOk, RecoveredTables, ReplayOrder, Replayed;
    ReopenTables(st, rec, st');
    ReopenManifest(st, rec, st');
    EmptyMem(st'.history, |st'.history|);
    assert MemoryOk(st');
    ReopenLogs(st, rec, st');
  }

  /** The manifest written on reopening names only tables on disk. */
  lemma {:induction false} ReopenManifest(st: State, rec: Recovery, st': State)
    requires Inv(st) && Reopens(st, rec, st') && st'.lastSequence == |st'.history|
    requires Replayed(st.manifest) == st.levels
    requires TablesOk(st'.levels, st'.history, |st'.history|, st.floor, rec.newLog + 1)
    ensures ManifestOk(st')
  {
    hide AnswersLike, Arranged, Tracks, Replayed, Install, MemoryOk, SnapshotsOk, RunOk, LogsOk, InOrder, ReplayOrder;
    hide RecoveredTables;
    var m := st.manifest;
    NewTables(st.levels, m.NextFile(), rec, st'.levels);
    var added := RecoveredTables(rec.chunks, rec.numbers, rec.sizes);
    ReopenTracks(st.levels, m.NextFile(), added, st'.manifest.Last(), st'.levels, rec.newLog + 1);
  }

  lemma {:induction false} NewTables(levels: Levels, low: nat, rec: Recovery, levels': Levels)
    requires Arranged(levels, low) && |rec.numbers| == |rec.sizes| == |rec.chunks|
    requires forall i | 0 <= i < |rec.chunks| :: Fits(rec.chunks[i])
    requires forall i | 0 <= i < |rec.numbers| :: low < rec.numbers[i] < rec.newLog
    requires forall i, j | 0 <= i < j < |rec.numbers| :: rec.numbers[i] < rec.numbers[j]
    requires levels' == Install(levels, 0, LevelEdit({}, RecoveredTables(rec.chunks, rec.numbers, rec.sizes)))
    ensures (
      var added := RecoveredTables(rec.chunks, rec.numbers, rec.sizes);
      && DistinctNumbers(added) && (forall f | f in added :: low <= f.number < rec.newLog)
      && TableNumbers(levels') <= TableNumbers(levels) + Numbers(added))
  {
    hide Install, Arranged, RecoveredTables;
    var added := RecoveredTables(rec.chunks, rec.numbers, rec.sizes);
    RecoveredNumbers(rec.chunks, rec.numbers, rec.sizes, low, rec.newLog);
    RecoveredApart(levels, low, added);
    assert |levels| > 0 by { assert Arranged(levels, low); LevelsAreSorted(levels, low); }
    RecoveredTableNumbers(levels, added);
  }

  lemma {:induction false} RecoveredApart(levels: Levels, low: nat, added: Level)
    requires Arranged(levels, low) && forall f | f in added :: f.number >= low
    ensures SortedFiles(levels[0]) && forall f, g | f in levels[0] && g in added :: f.number != g.number
  {
    LevelBound(levels, low, 0, low);
  }

  lemma {:induction false} ReopenTracks(levels: Levels, low: nat, added: Level, edit: Edit, levels': Levels, bound: nat)
    requires Arranged(levels, low) && DistinctNumbers(added) && forall f | f in added :: low <= f.number < bound
    requires edit.changes == OneLevel(0, LevelEdit({}, added)) && levels' == Install(levels, 0, LevelEdit({}, added))
    requires Arranged(levels', bound) && low <= bound
    ensures Tracks(Manifest(levels, [edit]), levels', bound)
  {
    hide Tracks, Install, Recent;
    LevelsAreSorted(levels, low);
    OneLevelChanges(levels, 0, LevelEdit({}, added));
    RecoveredApart(levels, low, added);
    SaveLevelMembers(levels[0], LevelEdit({}, added));
    NewManifestTracks(levels, low, edit, levels', bound);
  }

  /** A new, empty log stands behind all others. */
  lemma {:induction false} ReopenLogs(st: State, rec: Recovery, st': State)
    requires Inv(st) && Reopens(st, rec, st')
    requires st'.lastSequence == |st'.history|
    ensures LogsOk(st')
  {
    hide TablesOk, MemOk, Arranged, RecoveredTables;
    forall n | n in st.logs ensures n < rec.newLog {
      if n >= st.manifest.LogNumber() { assert n in rec.order; }
    }
    assert st'.logs[st'.logNumber] == [];
  }

  // ---------------------------------------------------------------- recovery is always possible

  /** One memtable for all replayed records. */
  ghost function WholeRecovery(st: State, order: seq<nat>): Recovery
    requires forall n | n in order :: n in st.logs
  {
    var number := st.nextFile + st.manifest.NextFile() + 1;
    Recovery(order, [InOrder(st.logs, order)], [number], [0], number + 1)
  }

  lemma {:induction false} CoveredFits(batches: seq<Batch>, h: seq<Op>, a: nat, b: nat)
    requires Covers(batches, h, a, b) && |h| < MAX_SEQUENCE
    ensures Fits(batches)
    decreases |batches|
  {
    if batches != [] {
      CoveredFits(batches[1..], h, a + |batches[0].ops|, b);
      assert forall i | 0 < i < |batches| :: batches[i] == batches[1..][i - 1];
    }
  }

  lemma {:induction false} SomeOrder(st: State) returns (order: seq<nat>)
    requires Inv(st)
    ensures ReplayOrder(order, st.logs, st.manifest.LogNumber())
    ensures forall n | n in order :: n in st.logs && n < st.nextFile
  {
    hide TablesOk, MemOk, ManifestOk, Covers;
    order := if st.imm.Some? then [st.immLog, st.logNumber] else [st.logNumber];
  }

  /** From every state a crash may find, DB::Open can go through: the tables that the replayed manifest names are on disk,
      and the logs it counts can be replayed. */
  lemma {:induction false} ReopenIsEnabled(st: State) returns (rec: Recovery, st': State)
    requires Inv(st)
    ensures Reopens(st, rec, st')
  {
    hide TablesOk, MemOk, Replayed, Tracks, RecoveredTables, Install, LogsOk, InOrder;
    var order := SomeOrder(st);
    assert Complete(st.manifest) by { assert Tracks(st.manifest, st.levels, st.nextFile); TracksComplete(st); }
    ReplayGivesVersion(st.manifest, st.levels, st.nextFile);
    ReplayedLogsCover(st, order);
    CoveredFits(InOrder(st.logs, order), Durable(st), st.immStart, |Durable(st)|);
    rec := WholeRecovery(st, order);
    assert rec.chunks[1..] == [];
    assert Concat(rec.chunks) == InOrder(st.logs, order) + Concat([]);
    var levels := Replayed(st.manifest);
    var added := RecoveredTables(rec.chunks, rec.numbers, rec.sizes);
    var last' := MaxSequence(InOrder(st.logs, order), st.manifest.LastSequence());
    st' := State(Durable(st), None, last', [], last', None, last', Install(levels, 0, LevelEdit({}, added)), [], None,
                 rec.newLog + 1, st.floor, st.tables + Numbers(added), st.logs[rec.newLog := []], rec.newLog, 0,
                 Manifest(levels, [Edit(OneLevel(0, LevelEdit({}, added)), rec.newLog, rec.newLog + 1, last')]));
  }

  lemma {:induction false} TracksComplete(st: State)
    requires Tracks(st.manifest, st.levels, st.nextFile)
    ensures Complete(st.manifest)
  {
  }
}
