/** The database read against its specification: a map per sequence number. */
module DatabaseReads {
  import opened Common
  import opened InternalKeys
  import opened Version
  import opened Ranges
  import opened CompactionInputs
  import opened CompactionWork
  import opened Builder
  import opened Tables
  import opened RunningCompaction
  import opened Database
  import opened DatabaseInvariant
  import opened DatabaseRecovery
  import opened Manifests

  /** The plain map after the first `s` writes. */
  function MapAt(h: History, s: nat): map<UserKey, Payload>
    requires s <= |h|
  {
    if s == 0 then map[]
    else
      var m := MapAt(h, s - 1);
      if h[s - 1].kind == TypeValue then m[h[s - 1].key := h[s - 1].value] else m - {h[s - 1].key}
  }

  /** One more write on top: a visible entry of the key decides. */
  lemma {:induction false} WriteOnTop(h: History, s: nat, k: UserKey, v: Payload)
    requires s < |h|
    ensures Yields(Recorded(h, 0, s + 1), k, s + 1, v)
       <==> if h[s].key == k then h[s].kind == TypeValue && h[s].value == v else Yields(Recorded(h, 0, s), k, s, v)
  {
    var e := EntryAt(h, s);
    RecordedSplit(h, 0, s, s + 1);
    assert Recorded(h, s, s + 1) == {e};
    YieldsOfLayers({e}, Recorded(h, 0, s), k, s + 1, v);
    LaterSequence(h, s, k, v);
    OneEntryYields(e, k, s + 1, v);
  }

  lemma {:induction false} OneEntryYields(e: Entry, k: UserKey, s: SequenceNumber, v: Payload)
    requires e.key.sequence <= s
    ensures NoneVisible({e}, k, s) <==> e.key.user != k
    ensures e.key.user == k ==> (Yields({e}, k, s, v) <==> e.key.kind == TypeValue && e.value == v)
  {
    if e.key.user == k {
      assert e in {e};
      assert IsNewest({e}, k, s, e);
    }
  }

  /** Reading the history at `s` is looking the key up in the map at `s`. */
  lemma {:induction false} HistoryIsMap(h: History, s: nat, k: UserKey, v: Payload)
    requires s <= |h|
    ensures Yields(Recorded(h, 0, s), k, s, v) <==> k in MapAt(h, s) && MapAt(h, s)[k] == v
  {
    if s == 0 {
      assert Recorded(h, 0, 0) == {};
    } else {
      hide Yields, Recorded;
      HistoryIsMap(h, s - 1, k, v);
      WriteOnTop(h, s - 1, k, v);
    }
  }

  lemma {:induction false} LaterSequence(h: History, s: nat, k: UserKey, v: Payload)
    requires s < |h|
    ensures Yields(Recorded(h, 0, s), k, s + 1, v) <==> Yields(Recorded(h, 0, s), k, s, v)
  {
    RecordedBounds(h, 0, s);
    var es := Recorded(h, 0, s);
    forall e ensures IsNewest(es, k, s + 1, e) <==> IsNewest(es, k, s, e) {
    }
  }

  /** Writes after `s` are invisible at `s`. */
  lemma {:induction false} HistoryAt(h: History, s: nat, k: UserKey, v: Payload)
    requires s <= |h|
    ensures Yields(Recorded(h, 0, |h|), k, s, v) <==> Yields(Recorded(h, 0, s), k, s, v)
  {
    RecordedSplit(h, 0, s, |h|);
    RecordedBounds(h, s, |h|);
    assert NoneVisible(Recorded(h, s, |h|), k, s);
    YieldsOfLayers(Recorded(h, s, |h|), Recorded(h, 0, s), k, s, v);
  }

  /** DBImpl::Get: memtable, immutable memtable, version. */
  function DbGet(st: State, k: UserKey, s: SequenceNumber): Probe {
    var p := Lookup(st.mem, k, s);
    if p.Hit? then p
    else
      var q := if st.imm.Some? then Lookup(st.imm.value, k, s) else Miss;
      if q.Hit? then q else ProbeLevels(st.levels, 0, k, s)
  }

  /** What Get reports: a value, or not found. */
  function Found(p: Probe): Option<Payload> {
    if p.Hit? && p.entry.key.kind == TypeValue then Some(p.entry.value) else None
  }

  /** Sequences a reader can ask for: the last one and those of live snapshots. */
  ghost predicate Readable(st: State, s: nat) {
    s == st.lastSequence || s in st.snapshots
  }

  lemma {:induction false} ReadableIsPromised(st: State, s: nat)
    requires Inv(st) && Readable(st, s)
    ensures st.floor <= s <= |st.history|
  {
    if s in st.snapshots {
      var i :| 0 <= i < |st.snapshots| && st.snapshots[i] == s;
    }
  }

  /** The part of the invariant that reads rest on: memtables and tables hold the writes in layers, newest first. */
  ghost predicate StoredOk(st: State) {
    MemoryOk(st) && TablesOk(st.levels, st.history, st.immStart, st.floor, st.nextFile)
  }

  lemma {:induction false} TablesAnswer(st: State, k: UserKey, s: SequenceNumber, v: Payload)
    requires StoredOk(st) && st.floor <= s
    ensures Found(ProbeLevels(st.levels, 0, k, s)) == Some(v) <==> Yields(Recorded(st.history, 0, st.immStart), k, s, v)
  {
    ArrangedIsReadable(st.levels, st.nextFile);
    ProbeLevelsFindsNewest(st.levels, 0, k, s);
    RecordedBounds(st.history, 0, st.immStart);
    AnswerIsYield(ProbeLevels(st.levels, 0, k, s), EntriesFrom(st.levels, 0), k, s, v);
  }

  lemma {:induction false} MemAnswers(es: seq<Entry>, h: History, a: nat, b: nat, below: Probe, k: UserKey, s: SequenceNumber, v: Payload)
    requires MemOk(es, h, a, b)
    requires Found(below) == Some(v) <==> Yields(Recorded(h, 0, a), k, s, v)
    ensures var p := Lookup(es, k, s);
            Found(if p.Hit? then p else below) == Some(v) <==> Yields(Recorded(h, 0, b), k, s, v)
  {
    var p := Lookup(es, k, s);
    LookupFindsNewest(es, k, s);
    RecordedSplit(h, 0, a, b);
    RecordedBounds(h, a, b);
    AnswerIsYield(p, SetOf(es), k, s, v);
    YieldsOfLayers(Recorded(h, a, b), Recorded(h, 0, a), k, s, v);
  }

  /** In every state that stores its writes in layers, a read at any promised sequence returns what the plain map held at
      that sequence. */
  lemma {:induction false} GetReadsMap(st: State, k: UserKey, s: SequenceNumber, v: Payload)
    requires StoredOk(st) && st.floor <= s <= |st.history|
    ensures Found(DbGet(st, k, s)) == Some(v) <==> k in MapAt(st.history, s) && MapAt(st.history, s)[k] == v
  {
    TablesAnswer(st, k, s, v);
    var below := ProbeLevels(st.levels, 0, k, s);
    if st.imm.Some? {
      MemAnswers(st.imm.value, st.history, st.immStart, st.memStart, below, k, s, v);
      var q := Lookup(st.imm.value, k, s);
      below := if q.Hit? then q else below;
    }
    MemAnswers(st.mem, st.history, st.memStart, |st.history|, below, k, s, v);
    HistoryAt(st.history, s, k, v);
    HistoryIsMap(st.history, s, k, v);
  }

  // ---------------------------------------------------------------- runs

  lemma {:induction false} InitOk(st: State)
    requires Init(st)
    ensures Inv(st)
  {
    var levels := st.levels;
    assert forall i | 0 <= i < NUM_LEVELS :: levels[i] == [];
    assert forall i | 0 <= i < NUM_LEVELS :: LevelOk(levels[i], 4, i > 0);
    assert forall i, f | 0 <= i < NUM_LEVELS :: f !in levels[i];
    assert EntriesFrom(levels, 0) == {} == Recorded(st.history, 0, 0);
    assert TableNumbers(levels) == {};
    EmptyMem(st.history, 0);
    InitTracks(st);
    assert LogsOk(st);
  }

  lemma {:induction false} InitTracks(st: State)
    requires Init(st) && Arranged(st.levels, 4)
    ensures Tracks(st.manifest, st.levels, 4)
  {
    hide Tracks;
    LevelsAreSorted(st.levels, 4);
    NoChangeKeeps([]);
    OneLevelChanges(st.levels, 0, NO_CHANGE);
    assert Install(st.levels, 0, NO_CHANGE) == st.levels;
    NewManifestTracks(st.levels, 4, st.manifest.Last(), st.levels, 4);
  }

  /** A memtable flushed inside a manual compaction does not land inside the range of one of its outputs.  (Flushes
      inside automatic ones never do.) */
  ghost predicate FlushGuard(st: State, size: nat, level: nat) {
    st.running.Some? && st.running.value.manual ==> FlushFits(st, size, level)
  }

  /** What is picked holds the older entries of a user key together with the newer ones: no file left behind goes on with
      the last user key of a picked one. */
  ghost predicate PicksWholeKeys(levels: Levels, c: Inputs) {
    c.level + 1 < |levels| ==> EndsKeys(levels, c)
  }

  /** The hypotheses under which reads are promised. */
  ghost predicate Guarded(st: State, step: Step) {
    match step
    case StartCompaction(r) => PicksWholeKeys(st.levels, r.inputs)
    case TrivialMove(from, file) => PicksWholeKeys(st.levels, Inputs(from, [file], []))
    case Flush(size, level) => FlushGuard(st, size, level)
    case _ => true
  }

  /** The guard on flushes concerns manual compactions only. */
  lemma {:induction false} FlushesFit(st: State, size: nat, level: nat, st': State)
    requires Inv(st) && FlushesMemTable(st, size, level, st') && FlushGuard(st, size, level)
    ensures FlushFits(st, size, level)
  {
    hide AnswersLike, LogsOk, ManifestOk, LevelOk;
    if st.running.Some? && !st.running.value.manual && st.imm.value != [] {
      var f := OutputFile(st.nextFile, size, st.imm.value);
      ArrangedIsReadable(st.levels, st.nextFile);
      FlushMayPlace(st.levels, f, level);
      NoGapMayFlush(st.running.value, st.levels, f, level);
    }
  }

  lemma {:induction false} StepKeeps(st: State, step: Step, st': State)
    requires Inv(st) && Next(st, step, st') && Guarded(st, step)
    ensures Inv(st')
  {
    hide MemoryOk, TablesOk, LogsOk, ManifestOk, SnapshotsOk;
    match step
    case LogAppend(ops) => LogAppendKeeps(st, ops, st');
    case MemApply => MemApplyKeeps(st, st');
    case Switch => SwitchKeeps(st, st');
    case Flush(size, level) =>
      FlushesFit(st, size, level, st');
      FlushKeeps(st, size, level, st');
    case TrivialMove(from, file) => MoveKeeps(st, from, file, st');
    case StartCompaction(r) => StartKeeps(st, r, st');
    case FinishCompaction => FinishKeeps(st, st');
    case TakeSnapshot => SnapshotsKeep(st, 0, st');
    case ReleaseSnapshot(i) => SnapshotsKeep(st, i, st');
    case DeleteObsoleteFiles(pinned) => DeleteKeeps(st, pinned, st');
    case Reopen(rec) => ReopenKeeps(st, rec, st');
  }

  ghost predicate IsRun(states: seq<State>, steps: seq<Step>) {
    && |states| == |steps| + 1
    && Init(states[0])
    && forall i | 0 <= i < |steps| :: Next(states[i], steps[i], states[i + 1])
  }

  /** Get at `s` finds `v` exactly when the plain map held it then. */
  ghost predicate ReadsMapAt(st: State, k: UserKey, s: SequenceNumber, v: Payload) {
    && s <= |st.history|
    && (Found(DbGet(st, k, s)) == Some(v) <==> k in MapAt(st.history, s) && MapAt(st.history, s)[k] == v)
  }

  /** Every reader sees the plain map. */
  ghost predicate ReadsMap(st: State) {
    forall k: UserKey, s: SequenceNumber, v: Payload | Readable(st, s) :: ReadsMapAt(st, k, s, v)
  }

  lemma {:induction false} InvReadsMap(st: State)
    requires Inv(st)
    ensures ReadsMap(st)
  {
    forall k: UserKey, s: SequenceNumber, v: Payload | Readable(st, s) ensures ReadsMapAt(st, k, s, v) {
      ReadableIsPromised(st, s);
      GetReadsMap(st, k, s, v);
    }
  }

  /** Safety over whole runs: through any interleaving of writes, switches, flushes, moves, background compactions,
      snapshots, garbage collection, crashes and reopenings, every read at the last sequence or at a live snapshot
      returns what the plain map held then.  Compactions may split user keys over several files, as long as none of
      them picks the newer part of such a key without the older. */
  lemma {:induction false} RunsReadMap(states: seq<State>, steps: seq<Step>, n: nat)
    requires IsRun(states, steps) && n < |states|
    requires forall i | 0 <= i < n :: Guarded(states[i], steps[i])
    ensures Inv(states[n]) && ReadsMap(states[n])
  {
    if n == 0 {
      InitOk(states[0]);
    } else {
      RunsReadMap(states, steps, n - 1);
      StepKeeps(states[n - 1], steps[n - 1], states[n]);
    }
    InvReadsMap(states[n]);
  }

  /** A crash at any point of a run keeps every acknowledged write, and brings back the group that
      was in the log but not yet acknowledged. */
  lemma {:induction false} CrashKeepsWrites(states: seq<State>, steps: seq<Step>, n: nat, rec: Recovery, st': State)
    requires IsRun(states, steps) && n < |states|
    requires forall i | 0 <= i < n :: Guarded(states[i], steps[i])
    requires Reopens(states[n], rec, st')
    ensures states[n].history <= st'.history == Durable(states[n])
    ensures ReadsMap(st') && st'.lastSequence == |st'.history|
  {
    RunsReadMap(states, steps, n);
    ReopenKeeps(states[n], rec, st');
    InvReadsMap(st');
  }

  /** In every run, replaying the manifest gives the current version, with its levels in order. */
  lemma {:induction false} ReplayRebuildsVersion(states: seq<State>, steps: seq<Step>, n: nat)
    requires IsRun(states, steps) && n < |states|
    requires forall i | 0 <= i < n :: Guarded(states[i], steps[i])
    ensures Complete(states[n].manifest) && Replayed(states[n].manifest) == states[n].levels
    ensures forall i | 1 <= i < NUM_LEVELS :: Ordered(states[n].levels[i])
    ensures exists rec, st' :: Reopens(states[n], rec, st')
  {
    hide IsRun, Guarded, Reopens, MemoryOk, SnapshotsOk, RunOk, LogsOk, LevelOk;
    RunsReadMap(states, steps, n);
    var st := states[n];
    ReplayGivesVersion(st.manifest, st.levels, st.nextFile);
    ArrangedIsReadable(st.levels, st.nextFile);
    var _, _ := ReopenIsEnabled(st);
  }
}
