/** Readers that keep the memtables and the version they started from, while the database goes on. */
module HeldReads {
  import opened Common
  import opened InternalKeys
  import opened Version
  import opened CompactionInputs
  import opened CompactionWork
  import opened Builder
  import opened Tables
  import opened RunningCompaction
  import opened Manifests
  import opened Database
  import opened DatabaseInvariant
  import opened DatabaseReads
  import opened DatabaseIteration
  import opened DbIter

  // ---------- what is held ----------

  /** No switch takes the memtable of state n out of use before state m. */
  ghost predicate InUse(steps: seq<Step>, n: nat, m: nat)
    requires n <= m <= |steps|
  {
    forall i | n <= i < m :: !steps[i].Switch?
  }

  /** The memtable of state n as it is in state m: writes go into it as long as it is in use, and then it stays as it is. */
  ghost function MemLater(states: seq<State>, steps: seq<Step>, n: nat, m: nat): seq<Entry>
    requires n <= m < |states| == |steps| + 1
    decreases m
  {
    if InUse(steps, n, m) then states[m].mem else MemLater(states, steps, n, m - 1)
  }

  /** What a reader of state n finds in state m: its memtables and its version. */
  ghost function Held(states: seq<State>, steps: seq<Step>, n: nat, m: nat): State
    requires n <= m < |states| == |steps| + 1
  {
    states[n].(mem := MemLater(states, steps, n, m))
  }

  /** A run whose compactions pick whole keys, in which a reader starts in state n and is still there in state m. */
  ghost predicate Reading(states: seq<State>, steps: seq<Step>, n: nat, m: nat) {
    && IsRun(states, steps) && n <= m < |states|
    && (forall i | 0 <= i < m :: Guarded(states[i], steps[i]))
    && (forall i | n <= i < m :: !steps[i].Reopen?)
  }

  // ---------- what later steps leave alone ----------

  lemma {:induction false} StepGoesOn(st: State, step: Step, st': State)
    requires Next(st, step, st') && !step.Reopen?
    ensures st.history <= st'.history
    ensures !step.Switch? ==> st'.memStart == st.memStart
  {
  }

  /** The memtable of state n holds all the writes from its start up to some point behind state n. */
  lemma {:induction false} MemGoesOn(states: seq<State>, steps: seq<Step>, n: nat, m: nat) returns (b: nat)
    requires Reading(states, steps, n, m)
    ensures states[n].history <= states[m].history && |states[n].history| <= b <= |states[m].history|
    ensures MemOk(MemLater(states, steps, n, m), states[m].history, states[n].memStart, b)
    ensures InUse(steps, n, m) ==> states[m].memStart == states[n].memStart
    decreases m
  {
    hide Guarded, Init, Next, TablesOk, SnapshotsOk, RunOk, LogsOk, ManifestOk, MemOk, ReadsMap;
    RunsReadMap(states, steps, m);
    b := |states[m].history|;
    if n < m {
      var b' := MemGoesOn(states, steps, n, m - 1);
      StepGoesOn(states[m - 1], steps[m - 1], states[m]);
      if !InUse(steps, n, m) {
        b := b';
        MemOfLongerHistory(MemLater(states, steps, n, m - 1), states[m - 1].history, states[m].history, states[n].memStart, b);
      }
    }
  }

  /** So what is held stores, in layers, the writes up to that point. */
  lemma {:induction false} HeldIsStored(states: seq<State>, steps: seq<Step>, n: nat, m: nat) returns (view: State)
    requires Reading(states, steps, n, m)
    ensures StoredOk(view) && view.floor == states[n].floor
    ensures states[n].history <= view.history <= states[m].history
    ensures view.mem == MemLater(states, steps, n, m) && view.imm == states[n].imm && view.levels == states[n].levels
    ensures states[n].lastSequence == |states[n].history| && SnapshotsOk(states[n])
  {
    hide Guarded, Init, Next, AnswersLike, Arranged, RunOk, LogsOk, ManifestOk, MemOk, ReadsMap;
    RunsReadMap(states, steps, n);
    RunsReadMap(states, steps, m);
    var b := MemGoesOn(states, steps, n, m);
    var st, es, h := states[n], MemLater(states, steps, n, m), states[m].history[..b];
    MemOfShorterHistory(es, h, states[m].history, st.memStart, b);
    if st.imm.Some? {
      MemOfLongerHistory(st.imm.value, st.history, h, st.immStart, st.memStart);
    }
    TablesOfLongerHistory(st.levels, st.history, h, st.immStart, st.floor, st.nextFile);
    view := st.(mem := es, history := h, lastSequence := b, pending := None);
  }

  lemma {:induction false} MemOfShorterHistory(es: seq<Entry>, h: History, h': History, a: nat, b: nat)
    requires MemOk(es, h', a, b) && h <= h' && b <= |h|
    ensures MemOk(es, h, a, b)
  {
    RecordedPrefix(h, h', a, b);
  }

  lemma {:induction false} MapOfLongerHistory(h: History, h': History, s: nat)
    requires h <= h' && s <= |h|
    ensures MapAt(h, s) == MapAt(h', s)
  {
    if s > 0 {
      MapOfLongerHistory(h, h', s - 1);
    }
  }

  // ---------- reading ----------

  /** A Get that started in state n may look at its memtables and tables in any later state, whatever was written, flushed,
      moved, compacted and deleted in between: it returns what the plain map held at its sequence. */
  lemma {:induction false} HeldGetReadsMap(
      states: seq<State>, steps: seq<Step>, n: nat, m: nat, k: UserKey, s: SequenceNumber, v: Payload)
    requires Reading(states, steps, n, m) && DatabaseReads.Readable(states[n], s)
    ensures s <= |states[n].history| && states[n].history <= states[m].history
    ensures Found(DbGet(Held(states, steps, n, m), k, s)) == Some(v)
       <==> k in MapAt(states[n].history, s) && MapAt(states[n].history, s)[k] == v
  {
    hide Guarded, Next, Init, StoredOk;
    var view := HeldIsStored(states, steps, n, m);
    SequencesInside(states[n], s);
    GetReadsMap(view, k, s, v);
    MapOfLongerHistory(states[n].history, view.history, s);
    assert DbGet(Held(states, steps, n, m), k, s) == DbGet(view, k, s);
  }

  lemma {:induction false} SequencesInside(st: State, s: nat)
    requires SnapshotsOk(st) && DatabaseReads.Readable(st, s) && st.lastSequence == |st.history|
    ensures st.floor <= s <= |st.history|
  {
    if s in st.snapshots {
      var i :| 0 <= i < |st.snapshots| && st.snapshots[i] == s;
    }
  }

  /** The list that an iterator of state n moves over is in every later state the map as of its sequence. */
  lemma {:induction false} HeldIteratorReadsMap(
      states: seq<State>, steps: seq<Step>, n: nat, m: nat, run: seq<Entry>, s: SequenceNumber)
    requires Reading(states, steps, n, m) && DatabaseReads.Readable(states[n], s) && |states[n].levels| == NUM_LEVELS
    requires SortedRun(run) && SetOf(run) == Union(Runs(Held(states, steps, n, m)))
    ensures Mergeable(Runs(Held(states, steps, n, m))) && s <= |states[n].history|
    ensures (
      var l := LiveList(run, s);
      && (forall i, j | 0 <= i < j < |l| :: l[i].0 < l[j].0)
      && (forall k, v :: (k, v) in l <==> k in MapAt(states[n].history, s) && MapAt(states[n].history, s)[k] == v))
  {
    hide Guarded, Next, Init, StoredOk, LiveList, SortedRun, Mergeable;
    var view := HeldIsStored(states, steps, n, m);
    SequencesInside(states[n], s);
    assert Runs(view) == Runs(Held(states, steps, n, m));
    RunsMerge(view);
    IteratorReadsMap(view, run, s);
    MapOfLongerHistory(states[n].history, view.history, s);
  }

  // ---------- the files ----------

  /** Whoever removes files knows the tables of the version that is held. */
  ghost predicate Pinned(states: seq<State>, steps: seq<Step>, n: nat, m: nat)
    requires n <= m < |states| == |steps| + 1
  {
    forall i | n <= i < m && steps[i].DeleteObsoleteFiles? :: TableNumbers(states[n].levels) <= steps[i].pinned
  }

  /** What a manifest mentions it mentions for good. */
  ghost predicate MentionsStay(m: Manifest, m': Manifest) {
    && Complete(m) && Complete(m')
    && forall i, f | 0 <= i < NUM_LEVELS && f in Mentioned(m, i) :: f in Mentioned(m', i)
  }

  lemma {:induction false} EditMentionsStay(m: Manifest, edit: Edit)
    requires Complete(m) && |edit.changes| == NUM_LEVELS
    ensures MentionsStay(m, m.With(edit))
  {
    hide Mentioned;
    forall i, f | 0 <= i < NUM_LEVELS && f in Mentioned(m, i) ensures f in Mentioned(m.With(edit), i) {
      ColumnSnoc(m, edit, i);
    }
    ColumnSnoc(m, edit, 0);
  }

  lemma {:induction false} StepMentionsStay(st: State, step: Step, st': State)
    requires Next(st, step, st') && !step.Reopen? && Complete(st.manifest)
    ensures MentionsStay(st.manifest, st'.manifest)
  {
    hide Mentioned, Install, Replace, MoveDown, Starts, MayMove, Complete;
    if st'.manifest != st.manifest {
      assert |st'.manifest.Last().changes| == NUM_LEVELS;
      EditMentionsStay(st.manifest, st'.manifest.Last());
    }
  }

  /** Everything there is has its name from the manifest. */
  lemma {:induction false} InvNames(st: State)
    requires Inv(st)
    ensures Complete(st.manifest) && |st.levels| == NUM_LEVELS && NamesOne(st.manifest, st.levels)
    ensures st.running.Some? ==> forall o | o in st.running.value.outputs :: IsNew(st.manifest, o)
    ensures TableNumbers(st.levels) <= st.tables
  {
    hide TablesOk, MemoryOk, SnapshotsOk, RunOk, LogsOk, Mentioned, Arranged, LevelTracks, OnlyDown, NamesOne, IsNew;
  }

  lemma {:induction false} RunMentionsStay(states: seq<State>, steps: seq<Step>, n: nat, m: nat)
    requires Reading(states, steps, n, m)
    ensures MentionsStay(states[n].manifest, states[m].manifest)
    decreases m
  {
    hide Guarded, Init, Next, Inv, ReadsMap, Mentioned, Complete;
    RunsReadMap(states, steps, n);
    InvNames(states[n]);
    if n < m {
      RunMentionsStay(states, steps, n, m - 1);
      StepMentionsStay(states[m - 1], steps[m - 1], states[m]);
    }
  }

  /** The tables of the version that is held stay on disk ... */
  lemma {:induction false} HeldTablesStay(states: seq<State>, steps: seq<Step>, n: nat, m: nat)
    requires Reading(states, steps, n, m) && Pinned(states, steps, n, m)
    ensures TableNumbers(states[n].levels) <= states[m].tables
    decreases m
  {
    hide Guarded, Init, Next, Inv, ReadsMap, TableNumbers;
    if n == m {
      RunsReadMap(states, steps, n);
      InvNames(states[n]);
    } else {
      HeldTablesStay(states, steps, n, m - 1);
      StepKeepsTables(states[m - 1], steps[m - 1], states[m], TableNumbers(states[n].levels));
    }
  }

  lemma {:induction false} StepKeepsTables(st: State, step: Step, st': State, held: set<nat>)
    requires Next(st, step, st') && held <= st.tables && !step.Reopen?
    requires step.DeleteObsoleteFiles? ==> held <= step.pinned
    ensures held <= st'.tables
  {
    hide Install, Replace, MoveDown, Starts, MayMove;
  }

  /** ... and their numbers stay theirs: no later table of a version, and no output being written, takes one of them. */
  lemma {:induction false} NumbersStayTaken(states: seq<State>, steps: seq<Step>, n: nat, m: nat, i: nat, f: FileMetaData)
    requires Reading(states, steps, n, m) && i < |states[n].levels| && f in states[n].levels[i]
    ensures forall j, g | 0 <= j < |states[m].levels| && g in states[m].levels[j] && g.number == f.number :: g == f
    ensures states[m].running.Some? ==> forall o | o in states[m].running.value.outputs :: o.number != f.number
  {
    hide Guarded, Init, Next, Inv, ReadsMap, Mentioned, Complete;
    RunMentionsStay(states, steps, n, m);
    RunsReadMap(states, steps, n);
    RunsReadMap(states, steps, m);
    InvNames(states[n]);
    InvNames(states[m]);
  }
}
