/** The database as a state machine over writes, memtable switches, flushes, file moves,
    compactions that run in the background, snapshots, garbage collection, crashes and recovery. */
module Database {
  import opened Common
  import opened InternalKeys
  import opened Version
  import opened Ranges
  import opened CompactionInputs
  import opened CompactionWork
  import opened Builder
  import opened Tables
  import opened RunningCompaction
  import opened Manifests

  /** One log record: a write batch with the sequence number of its first operation. */
  datatype Batch = Batch(first: nat, ops: seq<Op>)

  datatype State = State(
    /** Every write that took effect, in sequence order; `history`, `floor`, `memStart` and
        `immStart` only record what happened. */
    history: History,
    /** A group that is in the log but not yet in the memtable. */
    pending: Option<seq<Op>>,
    lastSequence: nat,
    mem: seq<Entry>,
    memStart: nat,
    imm: Option<seq<Entry>>,
    immStart: nat,
    levels: Levels,
    snapshots: seq<nat>,
    running: Option<Running>,
    nextFile: nat,
    /** Reads are promised from this sequence on: the oldest snapshot of the last compaction. */
    floor: nat,
    /** On disk: table files, logs, the manifest.  `logNumber` and `immLog` name the logs of the
        two memtables. */
    tables: set<nat>,
    logs: map<nat, seq<Batch>>,
    logNumber: nat,
    immLog: nat,
    manifest: Manifest)

  // ---------------------------------------------------------------- memtables

  /** MemTable::Add: insertion at the place the skip list gives it. */
  function MemInsert(es: seq<Entry>, e: Entry): seq<Entry> {
    if es == [] || Less(e.key, es[0].key) then [e] + es else [es[0]] + MemInsert(es[1..], e)
  }

  /** InsertInto: operation i of the batch gets sequence number first + i. */
  function AddOps(es: seq<Entry>, first: nat, ops: seq<Op>): seq<Entry>
    requires first + |ops| <= MAX_SEQUENCE
    decreases |ops|
  {
    if ops == [] then es
    else AddOps(MemInsert(es, Entry(InternalKey(ops[0].key, first, ops[0].kind), ops[0].value)), first + 1, ops[1..])
  }

  /** A memtable holding exactly the writes with sequence numbers in (a, b]. */
  ghost predicate MemOk(es: seq<Entry>, h: History, a: nat, b: nat) {
    a <= b <= |h| && SortedRun(es) && SetOf(es) == Recorded(h, a, b)
  }

  lemma {:induction false} MemInsertSorted(es: seq<Entry>, e: Entry)
    requires SortedRun(es) && forall x | x in es :: x.key != e.key
    ensures SortedRun(MemInsert(es, e)) && SetOf(MemInsert(es, e)) == SetOf(es) + {e}
  {
    if es != [] && !Less(e.key, es[0].key) {
      MemInsertSorted(es[1..], e);
      assert es[0] in es;
      var rest := MemInsert(es[1..], e);
      forall j | 0 <= j < |rest| ensures Less(es[0].key, rest[j].key) {
        assert rest[j] in SetOf(rest);
        if rest[j] in es[1..] {
          var i :| 0 <= i < |es[1..]| && es[1..][i] == rest[j];
          assert Less(es[0].key, es[i + 1].key);
        } else {
          KeysDiffer(es[0].key, e.key);
        }
      }
      assert SetOf(es) == {es[0]} + SetOf(es[1..]);
      assert SetOf([es[0]] + rest) == {es[0]} + SetOf(rest);
    } else if es != [] {
      forall j | 0 <= j < |es| ensures Less(e.key, es[j].key) {
        assert j == 0 || Less(es[0].key, es[j].key);
      }
      assert SetOf([e] + es) == SetOf(es) + {e};
    }
  }

  lemma {:induction false} KeysDiffer(a: InternalKey, b: InternalKey)
    requires a != b
    ensures Less(a, b) || Less(b, a)
  {
  }

  lemma {:induction false} AddOpOk(es: seq<Entry>, h: History, a: nat, b: nat)
    requires MemOk(es, h, a, b) && b < |h|
    ensures MemOk(MemInsert(es, EntryAt(h, b)), h, a, b + 1)
  {
    RecordedBounds(h, a, b);
    assert forall x | x in es :: x in SetOf(es);
    MemInsertSorted(es, EntryAt(h, b));
    RecordedSplit(h, a, b, b + 1);
    assert Recorded(h, b, b + 1) == {EntryAt(h, b)};
  }

  lemma {:induction false} AddOpsOk(es: seq<Entry>, h: History, a: nat, b: nat, ops: seq<Op>)
    requires MemOk(es, h, a, b) && b + |ops| <= |h| && h[b..b + |ops|] == ops
    ensures MemOk(AddOps(es, b + 1, ops), h, a, b + |ops|)
    decreases |ops|
  {
    if ops != [] {
      assert h[b] == ops[0];
      AddOpOk(es, h, a, b);
      assert h[b + 1..b + |ops|] == ops[1..];
      AddOpsOk(MemInsert(es, EntryAt(h, b)), h, a, b + 1, ops[1..]);
    }
  }

  // ---------------------------------------------------------------- logs

  /** The batches hold, one after the other, exactly the writes with sequence numbers in (a, b]. */
  ghost predicate Covers(batches: seq<Batch>, h: seq<Op>, a: nat, b: nat)
    decreases |batches|
  {
    a <= b <= |h| &&
    if batches == [] then a == b
    else
      var n := a + |batches[0].ops|;
      batches[0].first == a + 1 && n <= b && h[a..n] == batches[0].ops && Covers(batches[1..], h, n, b)
  }

  lemma {:induction false} CoversAppend(x: seq<Batch>, y: seq<Batch>, h: seq<Op>, a: nat, b: nat, c: nat)
    requires Covers(x, h, a, b) && Covers(y, h, b, c)
    ensures Covers(x + y, h, a, c)
    decreases |x|
  {
    if x == [] {
      assert x + y == y;
    } else {
      CoversAppend(x[1..], y, h, a + |x[0].ops|, b, c);
      assert (x + y)[1..] == x[1..] + y;
    }
  }

  lemma {:induction false} CoversSplit(x: seq<Batch>, y: seq<Batch>, h: seq<Op>, a: nat, c: nat) returns (b: nat)
    requires Covers(x + y, h, a, c)
    ensures Covers(x, h, a, b) && Covers(y, h, b, c)
    decreases |x|
  {
    if x == [] {
      assert x + y == y;
      b := a;
    } else {
      assert (x + y)[1..] == x[1..] + y;
      b := CoversSplit(x[1..], y, h, a + |x[0].ops|, c);
    }
  }

  lemma {:induction false} CoversLonger(x: seq<Batch>, h: seq<Op>, h': seq<Op>, a: nat, b: nat)
    requires Covers(x, h, a, b) && h <= h'
    ensures Covers(x, h', a, b)
    decreases |x|
  {
    if x != [] {
      assert h'[a..a + |x[0].ops|] == h[a..a + |x[0].ops|];
      CoversLonger(x[1..], h, h', a + |x[0].ops|, b);
    }
  }

  // ---------------------------------------------------------------- steps

  datatype Step =
    | LogAppend(ops: seq<Op>)
    | MemApply
    | Switch
    | Flush(size: nat, level: nat)
    | TrivialMove(from: nat, file: FileMetaData)
    | StartCompaction(compaction: Running)
    | FinishCompaction
    | TakeSnapshot
    | ReleaseSnapshot(index: nat)
    | DeleteObsoleteFiles(pinned: set<nat>)
    | Reopen(recovery: Recovery)

  ghost function TableNumbers(levels: Levels): set<nat> {
    set i, f | 0 <= i < |levels| && f in levels[i] :: f.number
  }

  /** LogAndApply outside a flush: the changes are logged together with the counters. */
  function Logged(st: State, changes: seq<LevelEdit>, levels: Levels): State {
    st.(levels := levels,
        manifest := st.manifest.With(Edit(changes, st.manifest.LogNumber(), st.nextFile, st.lastSequence)))
  }

  /** The front writer appends its group to the log. */
  ghost predicate LogsGroup(st: State, ops: seq<Op>, st': State) {
    && st.pending == None
    && st.lastSequence + |ops| < MAX_SEQUENCE
    && st.logNumber in st.logs
    && st' == st.(pending := Some(ops),
                  logs := st.logs[st.logNumber := st.logs[st.logNumber] + [Batch(st.lastSequence + 1, ops)]])
  }

  /** ... and then inserts it into the memtable and publishes the new last sequence. */
  ghost predicate AppliesGroup(st: State, st': State) {
    && st.pending.Some?
    && |st.history| + |st.pending.value| < MAX_SEQUENCE
    && st.lastSequence + |st.pending.value| < MAX_SEQUENCE
    && st' == st.(pending := None,
                  history := st.history + st.pending.value,
                  mem := AddOps(st.mem, st.lastSequence + 1, st.pending.value),
                  lastSequence := st.lastSequence + |st.pending.value|)
  }

  /** MakeRoomForWrite: a new log and an empty memtable; the old one becomes immutable. */
  ghost predicate SwitchesMemTable(st: State, st': State) {
    && st.imm == None && st.pending == None
    && st' == st.(imm := Some(st.mem), immStart := st.memStart, immLog := st.logNumber,
                  mem := [], memStart := st.lastSequence,
                  logNumber := st.nextFile, logs := st.logs[st.nextFile := []], nextFile := st.nextFile + 1)
  }

  /** CompactMemTable.  The current log is the first one still needed afterwards. */
  ghost predicate FlushesMemTable(st: State, size: nat, level: nat, st': State) {
    && st.imm.Some?
    && |st.levels| == NUM_LEVELS
    && if st.imm.value == [] then
         st' == st.(imm := None, immStart := st.memStart, nextFile := st.nextFile + 1,
                    manifest := st.manifest.With(Edit(OneLevel(0, NO_CHANGE), st.logNumber, st.nextFile + 1, st.lastSequence)))
       else
         var f := OutputFile(st.nextFile, size, st.imm.value);
         && level < NUM_LEVELS
         && IsFlushLevel(st.levels, f.Lo(), f.Hi(), level)
         && var levels' := Install(st.levels, level, LevelEdit({}, [f]));
            st' == st.(imm := None, immStart := st.memStart, nextFile := st.nextFile + 1,
                       levels := levels', tables := st.tables + {f.number},
                       manifest := st.manifest.With(
                         Edit(OneLevel(level, LevelEdit({}, [f])), st.logNumber, st.nextFile + 1, st.lastSequence)))
  }

  ghost predicate MovesFile(st: State, from: nat, file: FileMetaData, st': State) {
    && st.running == None && st.imm == None
    && |st.levels| == NUM_LEVELS && MayMove(st.levels, from, file)
    && st' == Logged(st, TwoLevels(from, LevelEdit({file.number}, []), LevelEdit({}, [file])), MoveDown(st.levels, from, file))
  }

  /** The oldest sequence any reader may still ask for. */
  function SmallestSnapshot(st: State): nat {
    if st.snapshots == [] then st.lastSequence else st.snapshots[0]
  }

  ghost predicate StartsCompaction(st: State, r: Running, st': State) {
    && st.running == None && st.imm == None
    && |st.levels| == NUM_LEVELS
    && Starts(r, st.levels, st.nextFile)
    && r.snapshot == SmallestSnapshot(st)
    && st' == st.(running := Some(r), nextFile := st.nextFile + |r.outputs|,
                  tables := st.tables + Numbers(r.outputs))
  }

  ghost predicate FinishesCompaction(st: State, st': State) {
    && st.running.Some?
    && st.running.value.inputs.level + 1 < |st.levels|
    && var r := st.running.value;
       st' == Logged(st, TwoLevels(r.inputs.level, LevelEdit(Numbers(r.inputs.upper), []),
                                   LevelEdit(Numbers(r.inputs.lower), r.outputs)),
                     Replace(st.levels, r)).(running := None, floor := r.snapshot)
  }

  ghost predicate TakesSnapshot(st: State, st': State) {
    st' == st.(snapshots := st.snapshots + [st.lastSequence])
  }

  ghost predicate ReleasesSnapshot(st: State, i: nat, st': State) {
    i < |st.snapshots| && st' == st.(snapshots := st.snapshots[..i] + st.snapshots[i + 1..])
  }

  /** `pinned` are the tables of older versions that iterators still hold. */
  ghost predicate DeletesObsolete(st: State, pinned: set<nat>, st': State) {
    var live := TableNumbers(st.levels) + pinned
              + if st.running.Some? then Numbers(st.running.value.outputs) else {};
    st' == st.(tables := st.tables * live,
               logs := map n | n in st.logs && n >= st.manifest.LogNumber() :: st.logs[n])
  }

  /** What recovery reads and produces: the logs in the order they are replayed, the memtables
      they are cut into, and a number and size for the table of each. */
  datatype Recovery = Recovery(order: seq<nat>, chunks: seq<seq<Batch>>, numbers: seq<nat>, sizes: seq<nat>, newLog: nat)

  ghost predicate ReplayOrder(order: seq<nat>, logs: map<nat, seq<Batch>>, minLog: nat) {
    && (forall i, j | 0 <= i < j < |order| :: order[i] < order[j])
    && (forall n :: n in order <==> n in logs && n >= minLog)
  }

  ghost function InOrder(logs: map<nat, seq<Batch>>, order: seq<nat>): seq<Batch>
    requires forall n | n in order :: n in logs
  {
    if order == [] then [] else logs[order[0]] + InOrder(logs, order[1..])
  }

  predicate Fits(batches: seq<Batch>) {
    forall i | 0 <= i < |batches| :: batches[i].first + |batches[i].ops| <= MAX_SEQUENCE
  }

  function AddBatches(es: seq<Entry>, batches: seq<Batch>): seq<Entry>
    requires Fits(batches)
    decreases |batches|
  {
    if batches == [] then es else AddBatches(AddOps(es, batches[0].first, batches[0].ops), batches[1..])
  }

  /** The level-0 tables written for the replayed memtables; an empty one leaves no file. */
  function RecoveredTables(chunks: seq<seq<Batch>>, numbers: seq<nat>, sizes: seq<nat>): Level
    requires |numbers| == |sizes| == |chunks|
    requires forall i | 0 <= i < |chunks| :: Fits(chunks[i])
  {
    if chunks == [] then []
    else
      var es := AddBatches([], chunks[0]);
      var rest := RecoveredTables(chunks[1..], numbers[1..], sizes[1..]);
      if es == [] then rest else [OutputFile(numbers[0], sizes[0], es)] + rest
  }

  /** The largest sequence number in some log records, or `least`. */
  function MaxSequence(batches: seq<Batch>, least: nat): nat
    decreases |batches|
  {
    if batches == [] then least
    else
      var last := batches[0].first + |batches[0].ops| - 1;
      MaxSequence(batches[1..], if last > least then last else least)
  }

  /** A crash followed by DB::Open: everything in memory is lost; the version comes from replaying the manifest, and the
      logs from its log number on are replayed into level-0 tables.  A new manifest starts with what was recovered. */
  ghost predicate Reopens(st: State, rec: Recovery, st': State) {
    var m := st.manifest;
    && Complete(m) && m.edits != []
    && var levels := Replayed(m);
    && TableNumbers(levels) <= st.tables
    && ReplayOrder(rec.order, st.logs, m.LogNumber())
    && |rec.numbers| == |rec.sizes| == |rec.chunks|
    && (forall i | 0 <= i < |rec.chunks| :: Fits(rec.chunks[i]))
    && Concat(rec.chunks) == InOrder(st.logs, rec.order)
    && (forall i | 0 <= i < |rec.numbers| :: m.NextFile() < rec.numbers[i] < rec.newLog)
    && (forall i, j | 0 <= i < j < |rec.numbers| :: rec.numbers[i] < rec.numbers[j])
    && (forall n | n in rec.order :: n < rec.newLog)
    && m.NextFile() < rec.newLog
    && var added := RecoveredTables(rec.chunks, rec.numbers, rec.sizes);
       var levels' := Install(levels, 0, LevelEdit({}, added));
       var history' := if st.pending.Some? then st.history + st.pending.value else st.history;
       var last' := MaxSequence(InOrder(st.logs, rec.order), m.LastSequence());
       && |history'| < MAX_SEQUENCE
       && st' == State(history', None, last', [], last', None, last', levels', [], None, rec.newLog + 1, st.floor,
                       st.tables + Numbers(added), st.logs[rec.newLog := []], rec.newLog, 0,
                       Manifest(levels, [Edit(OneLevel(0, LevelEdit({}, added)), rec.newLog, rec.newLog + 1, last')]))
  }

  ghost predicate Next(st: State, step: Step, st': State) {
    match step
    case LogAppend(ops) => LogsGroup(st, ops, st')
    case MemApply => AppliesGroup(st, st')
    case Switch => SwitchesMemTable(st, st')
    case Flush(size, level) => FlushesMemTable(st, size, level, st')
    case TrivialMove(from, file) => MovesFile(st, from, file, st')
    case StartCompaction(r) => StartsCompaction(st, r, st')
    case FinishCompaction => FinishesCompaction(st, st')
    case TakeSnapshot => TakesSnapshot(st, st')
    case ReleaseSnapshot(i) => ReleasesSnapshot(st, i, st')
    case DeleteObsoleteFiles(pinned) => DeletesObsolete(st, pinned, st')
    case Reopen(rec) => Reopens(st, rec, st')
  }

  /** A database just created and opened: manifest 2, log 3. */
  ghost predicate Init(st: State) {
    var levels := seq(NUM_LEVELS, i => []);
    st == State([], None, 0, [], 0, None, 0, levels, [], None, 4, 0, {}, map[3 := []], 3, 0,
                Manifest(levels, [Edit(OneLevel(0, NO_CHANGE), 3, 4, 0)]))
  }

  // ---------------------------------------------------------------- the invariant

  ghost function Durable(st: State): seq<Op> {
    if st.pending.Some? then st.history + st.pending.value else st.history
  }

  ghost predicate MemoryOk(st: State) {
    && st.immStart <= st.memStart <= |st.history| == st.lastSequence
    && |Durable(st)| < MAX_SEQUENCE
    && MemOk(st.mem, st.history, st.memStart, |st.history|)
    && (if st.imm.Some? then MemOk(st.imm.value, st.history, st.immStart, st.memStart) else st.immStart == st.memStart)
  }

  ghost predicate SnapshotsOk(st: State) {
    && st.floor <= st.lastSequence
    && (forall i | 0 <= i < |st.snapshots| :: st.floor <= st.snapshots[i] <= st.lastSequence)
    && (forall i, j | 0 <= i < j < |st.snapshots| :: st.snapshots[i] <= st.snapshots[j])
  }

  ghost predicate RunOk(st: State) {
    st.running.Some? ==>
      var r := st.running.value;
      && RunningOk(r, st.levels, st.nextFile)
      && st.floor <= r.snapshot <= st.lastSequence
      && (forall i | 0 <= i < |st.snapshots| :: r.snapshot <= st.snapshots[i])
  }

  /** What survives a crash: the manifest describes the current version, and the logs it still
      counts hold exactly the writes that are in no table. */
  ghost predicate LogsOk(st: State) {
    && st.manifest.LogNumber() <= st.logNumber < st.nextFile
    && st.logNumber in st.logs
    && (forall n | n in st.logs :: n < st.nextFile)
    && Covers(st.logs[st.logNumber], Durable(st), st.memStart, |Durable(st)|)
    && (st.imm.Some? ==>
          && st.manifest.LogNumber() <= st.immLog < st.logNumber
          && st.immLog in st.logs
          && Covers(st.logs[st.immLog], st.history, st.immStart, st.memStart))
    && (forall n | n in st.logs && n >= st.manifest.LogNumber() :: n == st.logNumber || (st.imm.Some? && n == st.immLog))
  }

  /** The manifest replays to the current version, with counters that are good for it. */
  ghost predicate ManifestOk(st: State) {
    && st.manifest.edits != []
    && Tracks(st.manifest, st.levels, st.nextFile)
    && st.manifest.NextFile() <= st.nextFile
    && Arranged(st.levels, st.manifest.NextFile())
    && st.immStart <= st.manifest.LastSequence() <= st.lastSequence
    && TableNumbers(st.levels) <= st.tables
    && (st.running.Some? ==>
          && Numbers(st.running.value.outputs) <= st.tables
          && forall o | o in st.running.value.outputs :: IsNew(st.manifest, o))
  }

  ghost predicate Inv(st: State) {
    && MemoryOk(st)
    && TablesOk(st.levels, st.history, st.immStart, st.floor, st.nextFile)
    && SnapshotsOk(st)
    && RunOk(st)
    && LogsOk(st)
    && ManifestOk(st)
  }
}
