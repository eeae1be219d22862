/** Runs whose compactions split no user key over two outputs: everything they pick holds whole keys. */
module UnsplitRuns {
  import opened Common
  import opened InternalKeys
  import opened Version
  import opened Ranges
  import opened CompactionInputs
  import opened CompactionWork
  import opened Builder
  import opened Tables
  import opened RunningCompaction
  import opened Database
  import opened DatabaseInvariant
  import opened DatabaseRecovery
  import opened DatabaseReads
  import opened Manifests

  // ---------------------------------------------------------------- levels with whole keys

  ghost predicate UnsplitLevels(levels: Levels) {
    forall i | 1 <= i < |levels| :: UserDisjoint(levels[i])
  }

  /** The outputs of a running compaction split no key among themselves, nor with the files they come to lie between. */
  ghost predicate UnsplitOutputs(r: Running, levels: Levels) {
    && UserDisjoint(r.outputs)
    && (r.inputs.level + 1 < |levels| ==>
          forall g, o | g in levels[r.inputs.level + 1] && g !in r.inputs.lower && o in r.outputs :: Apart(g, o))
  }

  ghost predicate Unsplit(st: State) {
    UnsplitLevels(st.levels) && (st.running.Some? ==> UnsplitOutputs(st.running.value, st.levels))
  }

  /** Then no pick can divide a key. */
  lemma {:induction false} UnsplitPicksWhole(levels: Levels, nextFile: nat, c: Inputs)
    requires Arranged(levels, nextFile) && UnsplitLevels(levels) && LegalInputs(levels, c)
    ensures EndsKeys(levels, c)
  {
    ArrangedIsReadable(levels, nextFile);
    LegalInputsAreValid(levels, c);
    hide Arranged, Version.Readable, LegalInputs, Continues, UserDisjoint;
    forall f, g | f in c.upper && g in levels[c.level] && g !in c.upper ensures !Continues(f, g) {
      if c.level == 0 {
        LeftIsApart(levels, c, 0, g, f);
      } else {
        DisjointMembers(levels[c.level], f, g);
      }
      ApartEndsKey(levels, c.level, f, g);
    }
    forall f, g | f in c.lower && g in levels[c.level + 1] && g !in c.lower ensures !Continues(f, g) {
      DisjointMembers(levels[c.level + 1], f, g);
      ApartEndsKey(levels, c.level + 1, f, g);
    }
  }

  lemma {:induction false} ApartEndsKey(levels: Levels, i: nat, f: FileMetaData, g: FileMetaData)
    requires WellShaped(levels) && i < |levels| && f in levels[i] && g in levels[i] && Apart(f, g)
    ensures !Continues(f, g)
  {
    ValidMember(levels[i], f);
    ValidMember(levels[i], g);
  }

  // ---------------------------------------------------------------- steps keep keys whole

  lemma {:induction false} StaysDisjoint(files: Level, r: Level)
    requires AllValid(r) && Ordered(r)
    requires forall f, g | f in r && g in r && f != g :: Apart(f, g)
    ensures UserDisjoint(r)
  {
    forall i, j | 0 <= i < j < |r| ensures r[i].Hi() < r[j].Lo() {
      assert Less(r[i].largest, r[j].smallest);
      assert r[i] in r && r[j] in r;
      ValidMember(r, r[i]);
      ValidMember(r, r[j]);
    }
  }

  lemma {:induction false} AddedUnsplit(levels: Levels, levels': Levels, p: nat, f: FileMetaData, nextFile: nat)
    requires Arranged(levels', nextFile) && UnsplitLevels(levels) && HasAdded(levels, levels', p, f) && MayPlace(levels, f, p)
    ensures UnsplitLevels(levels')
  {
    forall i | 1 <= i < |levels'| ensures UserDisjoint(levels'[i]) {
      assert LevelOk(levels'[i], nextFile, true);
      forall a, b | a in levels'[i] && b in levels'[i] && a != b ensures Apart(a, b) {
        assert a in levels[i] || (i == p && a == f);
        assert b in levels[i] || (i == p && b == f);
        if a in levels[i] && b in levels[i] {
          DisjointMembers(levels[i], a, b);
        } else if a in levels[i] {
          assert b == f && Apart(f, a);
        } else {
          assert a == f && Apart(f, b);
        }
      }
      StaysDisjoint(levels[i], levels'[i]);
    }
  }

  lemma {:induction false} MovedUnsplit(levels: Levels, levels': Levels, from: nat, f: FileMetaData, nextFile: nat)
    requires Arranged(levels', nextFile) && UnsplitLevels(levels) && HasMoved(levels, levels', from, f)
    requires from + 1 < |levels| && forall g | g in levels[from + 1] :: Apart(f, g)
    ensures UnsplitLevels(levels')
  {
    forall i | 1 <= i < |levels'| ensures UserDisjoint(levels'[i]) {
      assert LevelOk(levels'[i], nextFile, true);
      forall a, b | a in levels'[i] && b in levels'[i] && a != b ensures Apart(a, b) {
        assert a in levels[i] || (i == from + 1 && a == f);
        assert b in levels[i] || (i == from + 1 && b == f);
        if a in levels[i] && b in levels[i] {
          DisjointMembers(levels[i], a, b);
        } else if a in levels[i] {
          assert b == f && Apart(f, a);
        } else {
          assert a == f && Apart(f, b);
        }
      }
      StaysDisjoint(levels[i], levels'[i]);
    }
  }

  lemma {:induction false} ReplacedUnsplit(levels: Levels, levels': Levels, r: Running, nextFile: nat)
    requires Arranged(levels', nextFile) && UnsplitLevels(levels) && HasReplaced(levels, levels', r)
    requires r.inputs.level + 1 < |levels| && UnsplitOutputs(r, levels)
    ensures UnsplitLevels(levels')
  {
    forall i | 1 <= i < |levels'| ensures UserDisjoint(levels'[i]) {
      assert LevelOk(levels'[i], nextFile, true);
      forall a, b | a in levels'[i] && b in levels'[i] && a != b ensures Apart(a, b) {
        WhereFrom(levels, levels', r, i, a);
        WhereFrom(levels, levels', r, i, b);
        if a in levels[i] && b in levels[i] {
          DisjointMembers(levels[i], a, b);
        } else if a in r.outputs && b in r.outputs {
          DisjointMembers(r.outputs, a, b);
        }
      }
      StaysDisjoint(levels[i], levels'[i]);
    }
  }

  lemma {:induction false} FlushUnsplit(st: State, size: nat, level: nat, st': State)
    requires Inv(st) && Inv(st') && Unsplit(st) && FlushesMemTable(st, size, level, st') && FlushFits(st, size, level)
    ensures Unsplit(st')
  {
    hide LogsOk, ManifestOk, AnswersLike, Install, LevelOk, Recent, WorkOk, PlaceOk;
    if st.imm.value != [] {
      var f := OutputFile(st.nextFile, size, st.imm.value);
      ArrangedIsReadable(st.levels, st.nextFile);
      FlushMayPlace(st.levels, f, level);
      FlushKeepsTables(st, size, level, st', f);
      AddedUnsplit(st.levels, st'.levels, level, f, st'.nextFile);
    }
  }

  lemma {:induction false} MoveUnsplit(st: State, from: nat, file: FileMetaData, st': State)
    requires Inv(st) && Inv(st') && Unsplit(st) && MovesFile(st, from, file, st')
    ensures Unsplit(st')
  {
    hide LogsOk, ManifestOk, AnswersLike, Install, LevelOk, Recent;
    ArrangedIsReadable(st.levels, st.nextFile);
    MovedIsApart(st.levels, from, file);
    MoveLevels(st.levels, st.nextFile, from, file);
    MovedUnsplit(st.levels, st'.levels, from, file, st'.nextFile);
  }

  lemma {:induction false} StartUnsplit(st: State, r: Running, st': State)
    requires Inv(st) && Unsplit(st) && StartsCompaction(st, r, st') && UserDisjoint(r.outputs)
    ensures Unsplit(st')
  {
    hide MemoryOk, SnapshotsOk, RunOk, LogsOk, ManifestOk, AnswersLike, Arranged, Starts, UserDisjoint;
    StartOutputsUnsplit(st.levels, st.nextFile, r);
  }

  lemma {:induction false} StartOutputsUnsplit(levels: Levels, nextFile: nat, r: Running)
    requires Arranged(levels, nextFile) && UnsplitLevels(levels) && Starts(r, levels, nextFile) && UserDisjoint(r.outputs)
    ensures UnsplitOutputs(r, levels)
  {
    hide Recent, LevelOk, NumbersApart, OutputNumbersOk, StillBase, LeftoversFit, InputsPresent, WorkOk;
    ArrangedIsReadable(levels, nextFile);
    StartParts(r, levels, nextFile);
    forall g, o | g in levels[r.inputs.level + 1] && g !in r.inputs.lower && o in r.outputs ensures Apart(g, o) {
      LeftoversAvoidHull(levels, r.inputs, g);
      OutputInHull(r, o);
    }
  }

  lemma {:induction false} FinishUnsplit(st: State, st': State)
    requires Inv(st) && Inv(st') && Unsplit(st) && FinishesCompaction(st, st')
    ensures Unsplit(st')
  {
    hide LogsOk, ManifestOk, AnswersLike, Install, LevelOk, Recent, RunningOk, MemOk;
    FinishArranged(st.levels, st.running.value, st.nextFile);
    ReplacedUnsplit(st.levels, st'.levels, st.running.value, st'.nextFile);
  }

  lemma {:induction false} ReopenUnsplit(st: State, rec: Recovery, st': State)
    requires Inv(st) && Unsplit(st) && Reopens(st, rec, st')
    ensures Unsplit(st')
  {
    hide Replayed, RecoveredTables, InOrder, Tracks, TablesOk;
    ReplayGivesVersion(st.manifest, st.levels, st.nextFile);
  }

  /** No output splits a user key. */
  ghost predicate SplitsNothing(st: State, step: Step) {
    match step
    case StartCompaction(r) => UserDisjoint(r.outputs)
    case Flush(size, level) => FlushGuard(st, size, level)
    case _ => true
  }

  lemma {:induction false} UnsplitGuards(st: State, step: Step, st': State)
    requires Inv(st) && Unsplit(st) && Next(st, step, st') && SplitsNothing(st, step)
    ensures Guarded(st, step)
  {
    hide MemoryOk, LogsOk, ManifestOk, SnapshotsOk, RunOk, AnswersLike, Arranged, EndsKeys;
    if step.StartCompaction? {
      UnsplitPicksWhole(st.levels, st.nextFile, step.compaction.inputs);
    } else if step.TrivialMove? {
      UnsplitPicksWhole(st.levels, st.nextFile, Inputs(step.from, [step.file], []));
    }
  }

  lemma {:induction false} StepUnsplit(st: State, step: Step, st': State)
    requires Inv(st) && Inv(st') && Unsplit(st) && Next(st, step, st') && SplitsNothing(st, step)
    ensures Unsplit(st')
  {
    hide Inv, UnsplitLevels, UnsplitOutputs, Reopens, FlushesMemTable, MovesFile, StartsCompaction, FinishesCompaction;
    match step
    case Flush(size, level) =>
      FlushesFit(st, size, level, st');
      FlushUnsplit(st, size, level, st');
    case TrivialMove(from, file) => MoveUnsplit(st, from, file, st');
    case StartCompaction(r) => StartUnsplit(st, r, st');
    case FinishCompaction => FinishUnsplit(st, st');
    case Reopen(rec) => ReopenUnsplit(st, rec, st');
    case _ =>
  }

  /** Runs whose outputs split no user key read correctly, whatever is picked. */
  lemma {:induction false} UnsplitRunsReadMap(states: seq<State>, steps: seq<Step>, n: nat)
    requires IsRun(states, steps) && n < |states|
    requires forall i | 0 <= i < n :: SplitsNothing(states[i], steps[i])
    ensures Inv(states[n]) && Unsplit(states[n]) && ReadsMap(states[n])
  {
    hide Inv, SplitsNothing, Next, Guarded;
    if n == 0 {
      InitOk(states[0]);
      assert forall i | 0 <= i < NUM_LEVELS :: states[0].levels[i] == [];
    } else {
      UnsplitRunsReadMap(states, steps, n - 1);
      var st, step, st' := states[n - 1], steps[n - 1], states[n];
      UnsplitGuards(st, step, st');
      StepKeeps(st, step, st');
      StepUnsplit(st, step, st');
    }
    InvReadsMap(states[n]);
  }

  // ---------------------------------------------------------------- no snapshot, no split

  /** Outputs that hold one entry per user key cannot split one. */
  lemma {:induction false} OneEntryIsUnsplit(outputs: Level)
    requires AllValid(outputs) && SortedRun(Flatten(outputs))
    requires forall a, b | a in Flatten(outputs) && b in Flatten(outputs) && a.key.user == b.key.user :: a == b
    ensures UserDisjoint(outputs)
  {
    FlattenMembers(outputs);
    forall i, j | 0 <= i < j < |outputs| ensures outputs[i].Hi() < outputs[j].Lo() {
      var f, g := outputs[i], outputs[j];
      var x, y := f.entries[|f.entries| - 1], g.entries[0];
      PiecesInOrder(outputs, i, j, x, y);
      assert f in outputs && g in outputs;
      assert x in EntriesOf(outputs) && y in EntriesOf(outputs);
      assert x in Flatten(outputs) && y in Flatten(outputs);
    }
  }

  /** A compaction started while no snapshot is alive never splits a user key. */
  lemma {:induction false} StartWithoutSnapshots(st: State, r: Running, st': State)
    requires Inv(st) && StartsCompaction(st, r, st') && st.snapshots == []
    ensures UserDisjoint(r.outputs)
  {
    var c := r.inputs;
    ArrangedIsReadable(st.levels, st.nextFile);
    LegalInputsAreValid(st.levels, c);
    assert EntriesOf(r.All()) <= EntriesFrom(st.levels, 0) by {
      forall f, e | f in r.All() && e in f.entries ensures e in EntriesFrom(st.levels, 0) {
        assert f in st.levels[c.level] || f in st.levels[c.level + 1];
      }
    }
    RecordedBounds(st.history, 0, st.immStart);
    assert forall e | e in r.merged :: e in SetOf(r.merged);
    OneEntryPerKey(r.base, c.level, r.merged, r.snapshot);
    KeptIsSorted(r.base, c.level, r.merged, |r.merged|, r.snapshot);
    OutputsAreValid(r.outputs, Flatten(r.outputs), st.nextFile);
    OneEntryIsUnsplit(r.outputs);
  }

  /** Runs that start compactions only while no snapshot is alive: nothing is assumed about how
      outputs are cut. */
  ghost predicate Undisturbed(st: State, step: Step) {
    match step
    case StartCompaction(_) => st.snapshots == []
    case Flush(size, level) => FlushGuard(st, size, level)
    case _ => true
  }

  lemma {:induction false} UndisturbedRunsReadMap(states: seq<State>, steps: seq<Step>, n: nat)
    requires IsRun(states, steps) && n < |states|
    requires forall i | 0 <= i < n :: Undisturbed(states[i], steps[i])
    ensures Inv(states[n]) && ReadsMap(states[n])
    ensures forall i | 0 <= i < n :: SplitsNothing(states[i], steps[i])
  {
    hide Inv, Next, Undisturbed, SplitsNothing;
    if n > 0 {
      UndisturbedRunsReadMap(states, steps, n - 1);
      UndisturbedSplitsNothing(states[n - 1], steps[n - 1], states[n]);
    }
    UnsplitRunsReadMap(states, steps, n);
  }

  lemma {:induction false} UndisturbedSplitsNothing(st: State, step: Step, st': State)
    requires Inv(st) && Next(st, step, st') && Undisturbed(st, step)
    ensures SplitsNothing(st, step)
  {
    if step.StartCompaction? {
      StartWithoutSnapshots(st, step.compaction, st');
    }
  }
}
