/** Runs whose compactions pick their inputs and cut their outputs exactly as the code does. */
module CodedRuns {
  import opened Common
  import opened InternalKeys
  import opened Version
  import opened Ranges
  import opened CompactionInputs
  import opened CompactionWork
  import opened Builder
  import opened Tables
  import opened RunningCompaction
  import opened Database
  import opened DatabaseReads
  import opened Manifests

  /** What DoCompactionWork does with the inputs of `r`. */
  function TaskOf(r: Running, sizes: Sizes, firstNumber: nat): Task
    requires r.inputs.upper != []
  {
    Task(r.base, r.inputs.level, Grandparents(r.base, r.inputs), r.merged, r.snapshot, sizes, firstNumber)
  }

  /** A pick of DB::CompactRange: a range of a level that has a file of the range below it, or of level 0. */
  ghost predicate ManualPick(levels: Levels, begin: Bound, end: Bound, c: Inputs) {
    && c.level + 1 < |levels| && RangePick(levels, c.level, begin, end, c)
    && (c.level == 0 || exists i, f :: c.level < i < |levels| && f in levels[i] && Meets(f, begin, end))
  }

  /** A move is made when one file is picked, no lower file goes with it, and it would not overlap too much below. */
  ghost predicate IsTrivialMove(levels: Levels, c: Inputs)
    requires c.upper != []
  {
    |c.upper| == 1 && c.lower == [] && TotalFileSize(Grandparents(levels, c)) <= MAX_GRANDPARENT_OVERLAP_BYTES
  }

  ghost predicate AsCoded(sizes: Sizes, st: State, step: Step) {
    match step
    case Flush(size, _) => st.imm.Some? && st.imm.value != [] ==> size == sizes.finished(st.imm.value)
    case StartCompaction(r) =>
      && r.inputs.upper != [] && r.inputs.level + 1 < |st.levels|
      && r.outputs == Outputs(TaskOf(r, sizes, st.nextFile))
      && if r.manual then exists begin, end :: ManualPick(st.levels, begin, end, r.inputs)
         else (exists first :: FirstPick(st.levels, r.inputs.level, first, r.inputs)) && !IsTrivialMove(st.levels, r.inputs)
    case TrivialMove(from, file) =>
      && from + 1 < |st.levels|
      && FirstPick(st.levels, from, file, Inputs(from, [file], []))
      && IsTrivialMove(st.levels, Inputs(from, [file], []))
    case _ => true
  }

  datatype Run = Run(states: seq<State>, steps: seq<Step>) {
    ghost predicate Ok(sizes: Sizes) {
      && IsRun(states, steps)
      && forall i | 0 <= i < |steps| :: AsCoded(sizes, states[i], steps[i])
    }

    function Last(): State {
      if states == [] then Opened() else states[|states| - 1]
    }
  }

  lemma {:induction false} Extend(sizes: Sizes, run: Run, step: Step, st: State) returns (run': Run)
    requires run.Ok(sizes) && Next(run.Last(), step, st) && AsCoded(sizes, run.Last(), step)
    ensures run'.Ok(sizes) && run'.Last() == st
  {
    hide Next, Init, AsCoded;
    var states, steps := run.states + [st], run.steps + [step];
    forall i | 0 <= i < |steps| ensures Next(states[i], steps[i], states[i + 1]) && AsCoded(sizes, states[i], steps[i]) {
      assert i < |run.steps| ==> Next(run.states[i], run.steps[i], run.states[i + 1]);
    }
    run' := Run(states, steps);
  }

  // ---------------------------------------------------------------- a database just opened

  function Empty(): Levels { [[], [], [], [], [], [], []] }

  function Opened(): State {
    State([], None, 0, [], 0, None, 0, Empty(), [], None, 4, 0, {}, map[3 := []], 3, 0,
          Manifest(Empty(), [Edit(OneLevel(0, NO_CHANGE), 3, 4, 0)]))
  }

  lemma {:induction false} Open(sizes: Sizes) returns (run: Run)
    ensures run.Ok(sizes) && run.Last() == Opened() && Quiet(run.Last())
  {
    assert seq(NUM_LEVELS, i => []) == Empty();
    run := Run([Opened()], []);
  }

  /** No group under way and no immutable memtable. */
  ghost predicate Quiet(st: State) {
    && st.pending == None && st.imm == None && st.logNumber in st.logs && |st.levels| == NUM_LEVELS
    && st.lastSequence == |st.history|
  }

  // ---------------------------------------------------------------- stretches of a run

  /** One batch is written. */
  lemma {:induction false} Write(sizes: Sizes, run: Run, ops: seq<Op>) returns (run': Run)
    requires run.Ok(sizes) && Quiet(run.Last()) && run.Last().lastSequence + |ops| < MAX_SEQUENCE
    ensures run'.Ok(sizes) && Quiet(run'.Last())
    ensures var st, st' := run.Last(), run'.Last();
            && st'.mem == AddOps(st.mem, st.lastSequence + 1, ops) && st'.history == st.history + ops
            && st'.levels == st.levels && st'.running == st.running && st'.snapshots == st.snapshots
            && st'.nextFile == st.nextFile && st'.lastSequence == st.lastSequence + |ops|
  {
    hide AsCoded;
    var st := run.Last();
    var logged := st.(pending := Some(ops),
                      logs := st.logs[st.logNumber := st.logs[st.logNumber] + [Batch(st.lastSequence + 1, ops)]]);
    assert AsCoded(sizes, st, LogAppend(ops)) by { NothingToCode(sizes, st, LogAppend(ops)); }
    var one := Extend(sizes, run, LogAppend(ops), logged);
    var applied := logged.(pending := None, history := st.history + ops,
                           mem := AddOps(st.mem, st.lastSequence + 1, ops), lastSequence := st.lastSequence + |ops|);
    assert AsCoded(sizes, logged, MemApply) by { NothingToCode(sizes, logged, MemApply); }
    run' := Extend(sizes, one, MemApply, applied);
  }

  lemma {:induction false} NothingToCode(sizes: Sizes, st: State, step: Step)
    requires !step.Flush? && !step.StartCompaction? && !step.TrivialMove?
    ensures AsCoded(sizes, st, step)
  {
  }

  lemma {:induction false} Snapshot(sizes: Sizes, run: Run) returns (run': Run)
    requires run.Ok(sizes) && Quiet(run.Last())
    ensures run'.Ok(sizes) && Quiet(run'.Last())
    ensures run'.Last() == run.Last().(snapshots := run.Last().snapshots + [run.Last().lastSequence])
  {
    NothingToCode(sizes, run.Last(), TakeSnapshot);
    run' := Extend(sizes, run, TakeSnapshot, run.Last().(snapshots := run.Last().snapshots + [run.Last().lastSequence]));
  }

  /** The memtable is switched and flushed; the table gets the second of two numbers, the first being the new log's. */
  lemma {:induction false} SwitchAndFlush(sizes: Sizes, run: Run, level: nat) returns (run': Run)
    requires run.Ok(sizes) && Quiet(run.Last()) && run.Last().mem != [] && level < NUM_LEVELS
    requires var mem := run.Last().mem;
             IsFlushLevel(run.Last().levels, mem[0].key.user, mem[|mem| - 1].key.user, level)
    ensures run'.Ok(sizes) && Quiet(run'.Last())
    ensures var st, st' := run.Last(), run'.Last();
            && st'.levels == Install(st.levels, level, LevelEdit({}, [OutputFile(st.nextFile + 1, sizes.finished(st.mem), st.mem)]))
            && st'.mem == [] && st'.history == st.history && st'.running == st.running && st'.snapshots == st.snapshots
            && st'.nextFile == st.nextFile + 2 && st'.lastSequence == st.lastSequence
  {
    hide IsFlushLevel, SaveLevel;
    var st := run.Last();
    var switched := st.(imm := Some(st.mem), immStart := st.memStart, immLog := st.logNumber,
                        mem := [], memStart := st.lastSequence,
                        logNumber := st.nextFile, logs := st.logs[st.nextFile := []], nextFile := st.nextFile + 1);
    NothingToCode(sizes, st, Switch);
    var one := Extend(sizes, run, Switch, switched);
    var size := sizes.finished(st.mem);
    var f := OutputFile(st.nextFile + 1, size, st.mem);
    var flushed := switched.(imm := None, immStart := switched.memStart, nextFile := switched.nextFile + 1,
                             levels := Install(st.levels, level, LevelEdit({}, [f])), tables := st.tables + {f.number},
                             manifest := st.manifest.With(
                               Edit(OneLevel(level, LevelEdit({}, [f])), switched.logNumber, switched.nextFile + 1, st.lastSequence)));
    assert Next(switched, Flush(size, level), flushed);
    run' := Extend(sizes, one, Flush(size, level), flushed);
  }

  /** A batch is written into an empty memtable, which is then flushed. */
  lemma {:induction false} PutAndFlush(sizes: Sizes, run: Run, ops: seq<Op>, es: seq<Entry>, level: nat, levels': Levels)
    returns (run': Run)
    requires run.Ok(sizes) && Quiet(run.Last()) && run.Last().mem == [] && level < NUM_LEVELS
    requires run.Last().lastSequence + |ops| < MAX_SEQUENCE
    requires AddOps([], run.Last().lastSequence + 1, ops) == es != []
    requires IsFlushLevel(run.Last().levels, es[0].key.user, es[|es| - 1].key.user, level)
    requires levels' == Install(run.Last().levels, level,
                                LevelEdit({}, [OutputFile(run.Last().nextFile + 1, sizes.finished(es), es)]))
    ensures run'.Ok(sizes) && Quiet(run'.Last())
    ensures var st, st' := run.Last(), run'.Last();
            && st'.levels == levels' && st'.mem == [] && st'.history == st.history + ops
            && st'.running == st.running && st'.snapshots == st.snapshots
            && st'.nextFile == st.nextFile + 2 && st'.lastSequence == st.lastSequence + |ops|
  {
    hide Run.Ok, Quiet, IsFlushLevel, Install, AddOps;
    run' := Write(sizes, run, ops);
    run' := SwitchAndFlush(sizes, run', level);
  }

  lemma {:induction false} Start(sizes: Sizes, run: Run, r: Running) returns (run': Run)
    requires run.Ok(sizes) && Quiet(run.Last()) && run.Last().running == None
    requires Starts(r, run.Last().levels, run.Last().nextFile) && r.snapshot == SmallestSnapshot(run.Last())
    requires AsCoded(sizes, run.Last(), StartCompaction(r))
    ensures run'.Ok(sizes) && Quiet(run'.Last())
    ensures var st, st' := run.Last(), run'.Last();
            && st'.levels == st.levels && st'.mem == st.mem && st'.history == st.history && st'.running == Some(r)
            && st'.snapshots == st.snapshots && st'.nextFile == st.nextFile + |r.outputs| && st'.lastSequence == st.lastSequence
  {
    hide AsCoded, Starts;
    var st := run.Last();
    run' := Extend(sizes, run, StartCompaction(r),
                   st.(running := Some(r), nextFile := st.nextFile + |r.outputs|, tables := st.tables + Numbers(r.outputs)));
  }

  lemma {:induction false} Finish(sizes: Sizes, run: Run) returns (run': Run)
    requires run.Ok(sizes) && Quiet(run.Last()) && run.Last().running.Some?
    requires run.Last().running.value.inputs.level + 1 < NUM_LEVELS
    ensures run'.Ok(sizes) && Quiet(run'.Last())
    ensures var st, st' := run.Last(), run'.Last();
            && st'.levels == Replace(st.levels, st.running.value) && st'.mem == st.mem && st'.history == st.history
            && st'.running == None && st'.snapshots == st.snapshots && st'.nextFile == st.nextFile
            && st'.lastSequence == st.lastSequence
  {
    hide AsCoded, SaveLevel;
    var st := run.Last();
    var r := st.running.value;
    NothingToCode(sizes, st, FinishCompaction);
    var after := Logged(st, TwoLevels(r.inputs.level, LevelEdit(Numbers(r.inputs.upper), []),
                                      LevelEdit(Numbers(r.inputs.lower), r.outputs)),
                        Replace(st.levels, r)).(running := None, floor := r.snapshot);
    run' := Extend(sizes, run, FinishCompaction, after);
  }

  // ---------------------------------------------------------------- levels of known files

  /** A level of known files is what SaveTo makes of an edit with those members. */
  lemma {:induction false} SavedIs(base: Level, edit: LevelEdit, r: Level)
    requires SortedFiles(base) && DistinctNumbers(edit.added) && SortedFiles(r)
    requires forall f, g | f in base && g in edit.added :: f.number != g.number
    requires forall f :: f in r <==> (f in base && f.number !in edit.deleted) || f in edit.added
    ensures SaveLevel(base, Apply(LevelEdit({}, []), edit)) == r
  {
    SaveLevelMembers(base, edit);
    SortedFilesUnique(SaveLevel(base, Apply(LevelEdit({}, []), edit)), r);
  }
}
