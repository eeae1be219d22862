/**
 * What the writer queue amounts to: writes carried out one at a time, in order of arrival, whatever
 * groups they were committed in.
 */
module SerialCommit {
  import opened Common
  import opened Coding
  import Crc32c
  import LogFormat
  import LogRoundTrip
  import opened WriteBatches
  import opened BatchGroups
  import opened GroupCommit

  // ---------- one write at a time ----------

  /** The last sequence number, the memtable additions and the additions the log replays to. */
  datatype Effect = Effect(last: nat, mem: seq<Addition>, logged: seq<Addition>) {
    /** A single write with its outcome. */
    function Then(ops: seq<BatchOp>, outcome: Outcome): Effect {
      var added := Additions(Wrapped(last + 1), ops);
      match outcome
      case Refused => this
      case Applied => Effect(last + |ops|, mem + added, logged + added)
      case NotLogged => Effect(last + |ops|, mem, logged)
      case NotSynced => Effect(last + |ops|, mem, logged + added)
    }
  }

  /** Writes carried out singly, in order of arrival. */
  function Serial(requests: seq<Request>, outcomes: seq<Outcome>): Effect
    requires |requests| == |outcomes|
  {
    if requests == [] then Effect(0, [], [])
    else
      var n := |requests| - 1;
      Serial(requests[..n], outcomes[..n]).Then(requests[n].Ops(), outcomes[n])
  }

  ghost function Outcomes(st: State): (r: seq<Outcome>)
    requires QueueOk(st) && ThreadsOk(st)
    ensures |r| == Front(st)
  {
    seq(Front(st), i requires 0 <= i < Front(st) => st.threads[i].outcome)
  }

  /** What has happened to the writes that have left the queue. */
  ghost function Past(st: State): Effect
    requires QueueOk(st) && ThreadsOk(st)
  {
    Serial(st.requests[..Front(st)], Outcomes(st))
  }

  /** What recovery makes of the records of a log: a record too short to be a batch is skipped. */
  function Replayed(log: seq<seq<Byte>>): seq<Addition> {
    if log == [] then []
    else (if |log[0]| < HEADER_SIZE then [] else Additions(StoredSequence(log[0]), IterateOver(log[0]).ops))
         + Replayed(log[1..])
  }

  /** Whether the group of the front writer is in the memtable, or in the log. */
  predicate InMem(t: Thread) {
    t.Finishing? && t.outcome == Applied
  }

  predicate InLog(t: Thread) {
    t.Syncing? || t.Inserting? || (t.Finishing? && (t.outcome == Applied || t.outcome == NotSynced))
  }

  ghost predicate EffectOk(st: State)
    requires QueueOk(st) && ThreadsOk(st)
  {
    var t, past := InFlight(st), Past(st);
    var more := if t.HasGroup() then Additions(Wrapped(st.lastSequence + 1), t.ops) else [];
    && st.lastSequence == past.last
    && st.mem == past.mem + (if InMem(t) then more else [])
    && Replayed(st.log) == past.logged + (if InLog(t) then more else [])
  }

  /** A synchronous write that was applied is in a part of the log that has been synced. */
  ghost predicate SyncOk(st: State)
    requires QueueOk(st) && ThreadsOk(st)
  {
    && st.synced <= |st.log|
    && (forall i | 0 <= i < Front(st) && SyncedWrite(st, i) ::
          |SerialTo(st, i + 1).logged| <= |Replayed(st.log[..st.synced])|)
    && (InFlight(st).Inserting? || InMem(InFlight(st)) ==>
          st.requests[Front(st)].sync && st.requests[Front(st)].batch.Some? ==> st.synced == |st.log|)
  }

  ghost predicate SyncedWrite(st: State, i: nat)
    requires i < |st.requests| && i < |st.threads| && st.threads[i].Done()
  {
    st.requests[i].sync && st.requests[i].batch.Some? && st.threads[i].outcome == Applied
  }

  /** The effect of the first n writes. */
  ghost function SerialTo(st: State, n: nat): Effect
    requires QueueOk(st) && ThreadsOk(st) && n <= Front(st)
  {
    Serial(st.requests[..n], Outcomes(st)[..n])
  }

  ghost predicate Inv(st: State) {
    ShapeOk(st) && EffectOk(st) && SyncOk(st)
  }

  // ---------- groups and single writes ----------

  lemma {:induction false} WrapOnce(a: nat, b: nat)
    ensures (Wrapped(a) as int + b) % 0x1_0000_0000_0000_0000 == Wrapped(a + b)
  {
  }

  lemma {:induction false} AdditionsAppend(n: nat, a: seq<BatchOp>, b: seq<BatchOp>)
    ensures Additions(Wrapped(n), a + b) == Additions(Wrapped(n), a) + Additions(Wrapped(n + |a|), b)
  {
    hide Wrapped;
    var whole, left, right := Additions(Wrapped(n), a + b), Additions(Wrapped(n), a), Additions(Wrapped(n + |a|), b);
    forall i | 0 <= i < |a| + |b| ensures whole[i] == (left + right)[i] {
      WrapOnce(n, i);
      if i >= |a| {
        WrapOnce(n + |a|, i - |a|);
      }
    }
  }

  lemma {:induction false} ThenJoins(e: Effect, a: seq<BatchOp>, b: seq<BatchOp>, outcome: Outcome)
    ensures e.Then(a, outcome).Then(b, outcome) == e.Then(a + b, outcome)
  {
    hide Additions, Wrapped;
    AdditionsAppend(e.last + 1, a, b);
    var x, y := Additions(Wrapped(e.last + 1), a), Additions(Wrapped(e.last + 1 + |a|), b);
    assert e.mem + (x + y) == e.mem + x + y && e.logged + (x + y) == e.logged + x + y;
  }

  lemma {:induction false} OneMoreWrite(requests: seq<Request>, outcomes: seq<Outcome>, n: nat)
    requires n < |requests| == |outcomes|
    ensures Serial(requests[..n + 1], outcomes[..n + 1])
         == Serial(requests[..n], outcomes[..n]).Then(requests[n].Ops(), outcomes[n])
  {
    hide Effect.Then;
    assert requests[..n + 1][..n] == requests[..n] && outcomes[..n + 1][..n] == outcomes[..n];
  }

  /** Committing a group does what committing its members one by one does. */
  lemma {:induction false} GroupIsSerial(
      requests: seq<Request>, outcomes: seq<Outcome>, f: nat, n: nat, outcome: Outcome)
    requires f + n <= |requests| == |outcomes|
    requires forall i | f <= i < f + n :: outcomes[i] == outcome
    ensures Serial(requests[..f + n], outcomes[..f + n])
         == Serial(requests[..f], outcomes[..f]).Then(Joined(requests[f..f + n]), outcome)
    decreases n
  {
    hide Effect.Then, Serial;
    var past := Serial(requests[..f], outcomes[..f]);
    if n == 0 {
      ThenNothing(past, outcome);
    } else {
      GroupIsSerial(requests, outcomes, f, n - 1, outcome);
      LongerGroupIsSerial(requests, outcomes, past, f, f + n - 1, outcome);
    }
  }

  lemma {:induction false} LongerGroupIsSerial(
      requests: seq<Request>, outcomes: seq<Outcome>, past: Effect, f: nat, m: nat, outcome: Outcome)
    requires f <= m < |requests| == |outcomes| && outcomes[m] == outcome
    requires Serial(requests[..m], outcomes[..m]) == past.Then(Joined(requests[f..m]), outcome)
    ensures Serial(requests[..m + 1], outcomes[..m + 1]) == past.Then(Joined(requests[f..m + 1]), outcome)
  {
    hide Effect.Then, Serial, Joined;
    OneMoreWrite(requests, outcomes, m);
    var group := requests[f..m + 1];
    assert group[..m - f] == requests[f..m] && group[..m - f + 1] == group;
    OneMoreRequest(group, m - f);
    ThenJoins(past, Joined(requests[f..m]), requests[m].Ops(), outcome);
  }

  lemma {:induction false} ThenNothing(e: Effect, outcome: Outcome)
    ensures e.Then([], outcome) == e
  {
  }

  // ---------- the log ----------

  lemma {:induction false} ReplayedAppend(a: seq<seq<Byte>>, b: seq<seq<Byte>>)
    ensures Replayed(a + b) == Replayed(a) + Replayed(b)
    decreases |a|
  {
    hide Additions, StoredSequence, IterateOver;
    if a == [] {
      assert a + b == b;
    } else {
      assert (a + b)[1..] == a[1..] + b;
      ReplayedAppend(a[1..], b);
    }
  }

  /** A record written for a group replays to the additions the group made to the memtable. */
  lemma {:induction false} RecordReplays(first: DoubleWord, ops: seq<BatchOp>)
    requires Sane(ops)
    ensures Replayed([Image(first, ops)]) == Additions(first, ops)
  {
    hide Additions, StoredSequence, IterateOver, Image;
    ImageRoundTrip(first, ops);
    ImageLength(first, ops);
    assert Replayed([Image(first, ops)][1..]) == [];
  }

  lemma {:induction false} ImageLength(first: DoubleWord, ops: seq<BatchOp>)
    ensures |Image(first, ops)| >= HEADER_SIZE
  {
  }

  // ---------- steps ----------

  /** Nobody has left the queue, and those who had are as they were. */
  ghost predicate SamePast(st: State, st': State)
    requires QueueOk(st) && ThreadsOk(st) && QueueOk(st') && ThreadsOk(st')
  {
    && Front(st') == Front(st)
    && st'.requests[..Front(st)] == st.requests[..Front(st)]
    && Outcomes(st') == Outcomes(st)
  }

  lemma {:induction false} SamePastSameEffect(st: State, st': State)
    requires QueueOk(st) && ThreadsOk(st) && QueueOk(st') && ThreadsOk(st')
    requires SamePast(st, st')
    ensures Past(st') == Past(st)
    ensures forall n | 0 <= n <= Front(st) :: SerialTo(st', n) == SerialTo(st, n)
    ensures forall i | 0 <= i < Front(st) ::
              st'.requests[i] == st.requests[i] && st'.threads[i].outcome == st.threads[i].outcome
  {
    hide Serial;
    forall n | 0 <= n <= Front(st) ensures SerialTo(st', n) == SerialTo(st, n) {
      assert st'.requests[..n] == st'.requests[..Front(st)][..n] == st.requests[..n];
    }
    forall i | 0 <= i < Front(st)
      ensures st'.requests[i] == st.requests[i] && st'.threads[i].outcome == st.threads[i].outcome
    {
      assert st'.requests[..Front(st)][i] == st.requests[..Front(st)][i];
      assert Outcomes(st')[i] == Outcomes(st)[i];
    }
  }

  lemma {:induction false} QuietStepKeepsPast(st: State, step: Step)
    requires ShapeOk(st) && Enabled(st, step) && !step.Finish?
    ensures ShapeOk(Perform(st, step)) && SamePast(st, Perform(st, step))
  {
    hide GroupFor, Image, Additions, Joined, Sane, Group;
    StepKeepsShape(st, step);
    var st' := Perform(st, step);
    if !step.Enter? && !step.Return? && !step.Lead? {
      LeaderIsFront(st, step.w);
    }
    assert Outcomes(st') == Outcomes(st);
  }

  lemma {:induction false} AppendKeepsEffect(st: State, w: nat)
    requires Inv(st) && Enabled(st, AppendLog(w, true))
    ensures ShapeOk(Perform(st, AppendLog(w, true))) && EffectOk(Perform(st, AppendLog(w, true)))
    ensures Replayed(Perform(st, AppendLog(w, true)).log)
         == Replayed(st.log) + Additions(Wrapped(st.lastSequence + 1), st.threads[w].ops)
  {
    hide Image, Additions, Serial, Wrapped, Joined, Sane, Replayed;
    QuietStepKeepsPast(st, AppendLog(w, true));
    SamePastSameEffect(st, Perform(st, AppendLog(w, true)));
    LeaderIsFront(st, w);
    var record := Image(Wrapped(st.lastSequence + 1), st.threads[w].ops);
    ReplayedAppend(st.log, [record]);
    RecordReplays(Wrapped(st.lastSequence + 1), st.threads[w].ops);
  }

  lemma {:induction false} QuietStepKeepsEffect(st: State, step: Step)
    requires Inv(st) && Enabled(st, step) && !step.Finish?
    ensures ShapeOk(Perform(st, step)) && EffectOk(Perform(st, step))
  {
    hide Image, Additions, Serial, Wrapped, Joined, Sane, Replayed, Group;
    if step.AppendLog? && step.ok {
      AppendKeepsEffect(st, step.w);
    } else {
      QuietStepKeepsPast(st, step);
      SamePastSameEffect(st, Perform(st, step));
      if !step.Enter? && !step.Return? && !step.Lead? {
        LeaderIsFront(st, step.w);
      }
      NothingAdded(Wrapped(st.lastSequence + 1));
    }
  }

  lemma {:induction false} NothingAdded(first: DoubleWord)
    ensures Additions(first, []) == []
  {
  }

  // ---------- finishing ----------

  /** The writers before and in the group, once it has been released. */
  lemma {:induction false} FinishOutcomes(st: State, w: nat)
    requires ShapeOk(st) && Enabled(st, Finish(w))
    ensures (
      var st', t, f := Perform(st, Finish(w)), st.threads[w], Front(st);
      && ShapeOk(st') && Front(st') == f + t.count && st.queue != [] && w == f
      && st'.requests == st.requests
      && Outcomes(st')[..f] == Outcomes(st)
      && forall i | f <= i < f + t.count :: Outcomes(st')[i] == t.outcome)
  {
    hide GroupOk, RequestsOk;
    FinishKeepsShape(st, w);
    LeaderIsFront(st, w);
    assert ThreadsOk(st) && QueueOk(st);
    var st', t, f := Perform(st, Finish(w)), st.threads[w], Front(st);
    forall i | f <= i < f + t.count ensures Outcomes(st')[i] == t.outcome {
      assert st.queue[..t.count][i - f] == i;
    }
    forall i | 0 <= i < f ensures Outcomes(st')[i] == Outcomes(st)[i] {
      assert i !in st.queue[..t.count];
    }
  }

  lemma {:induction false} FinishKeepsEffect(st: State, w: nat)
    requires Inv(st) && Enabled(st, Finish(w))
    ensures ShapeOk(Perform(st, Finish(w))) && EffectOk(Perform(st, Finish(w)))
    ensures Past(Perform(st, Finish(w))) == Past(st).Then(st.threads[w].ops, st.threads[w].outcome)
    ensures InFlight(Perform(st, Finish(w))).HasGroup() == false
  {
    hide Additions, Serial, Wrapped, Joined, Sane, Replayed;
    FinishOutcomes(st, w);
    var st', t, f := Perform(st, Finish(w)), st.threads[w], Front(st);
    var left := st.requests[..Front(st')];
    GroupIsSerial(left, Outcomes(st'), f, t.count, t.outcome);
    assert left[..f] == st.requests[..f] && left[f..f + t.count] == st.requests[f..f + t.count];
    assert left[..f + t.count] == left && Outcomes(st')[..f + t.count] == Outcomes(st');
    assert Past(st') == Past(st).Then(Joined(st.requests[f..f + t.count]), t.outcome);
    NothingAdded(Wrapped(st.lastSequence + 1));
  }

  // ---------- syncs ----------

  lemma {:induction false} SerialGrows(requests: seq<Request>, outcomes: seq<Outcome>, m: nat, n: nat)
    requires m <= n <= |requests| == |outcomes|
    ensures Serial(requests[..m], outcomes[..m]).logged <= Serial(requests[..n], outcomes[..n]).logged
    ensures Serial(requests[..m], outcomes[..m]).last <= Serial(requests[..n], outcomes[..n]).last
    decreases n
  {
    hide Serial, Additions;
    if m < n {
      SerialGrows(requests, outcomes, m, n - 1);
      OneMoreWrite(requests, outcomes, n - 1);
    }
  }

  lemma {:induction false} PrefixReplays(log: seq<seq<Byte>>, n: nat)
    requires n <= |log|
    ensures Replayed(log[..n]) <= Replayed(log)
  {
    hide Replayed;
    assert log == log[..n] + log[n..];
    ReplayedAppend(log[..n], log[n..]);
  }

  lemma {:induction false} QuietStepKeepsSync(st: State, step: Step)
    requires Inv(st) && Enabled(st, step) && !step.Finish?
    ensures ShapeOk(Perform(st, step)) && SyncOk(Perform(st, step))
  {
    hide Image, Additions, Serial, Wrapped, Joined, Sane, Replayed, Group, EffectOk;
    QuietStepKeepsPast(st, step);
    var st' := Perform(st, step);
    SamePastSameEffect(st, st');
    if !step.Enter? && !step.Return? && !step.Lead? {
      LeaderIsFront(st, step.w);
    }
    assert st'.log[..st.synced] == st.log[..st.synced];
    assert st'.log[..|st'.log|] == st'.log;
    PrefixReplays(st.log, st.synced);
    forall i | 0 <= i < Front(st') && SyncedWrite(st', i)
      ensures |SerialTo(st', i + 1).logged| <= |Replayed(st'.log[..st'.synced])|
    {
      assert SyncedWrite(st, i);
    }
  }

  lemma {:induction false} FinishKeepsSync(st: State, w: nat)
    requires Inv(st) && Enabled(st, Finish(w))
    ensures ShapeOk(Perform(st, Finish(w))) && SyncOk(Perform(st, Finish(w)))
  {
    hide Additions, Serial, Wrapped, Joined, Sane, Replayed, Effect.Then;
    FinishKeepsEffect(st, w);
    FinishOutcomes(st, w);
    var st', t, f := Perform(st, Finish(w)), st.threads[w], Front(st);
    forall i | 0 <= i < Front(st') && SyncedWrite(st', i)
      ensures |SerialTo(st', i + 1).logged| <= |Replayed(st'.log[..st'.synced])|
    {
      if i < f {
        assert Outcomes(st')[..f][i] == Outcomes(st)[i];
        assert SyncedWrite(st, i);
        assert Outcomes(st')[..i + 1] == Outcomes(st')[..f][..i + 1] == Outcomes(st)[..i + 1];
      } else {
        GroupSyncIsFront(st, w, i);
        assert st.log[..st.synced] == st.log;
        var left := st.requests[..Front(st')];
        SerialGrows(left, Outcomes(st'), i + 1, Front(st'));
        assert left[..i + 1] == st.requests[..i + 1] && left[..Front(st')] == left;
        assert Outcomes(st')[..Front(st')] == Outcomes(st');
      }
    }
  }

  /** A synchronous write in a group that was applied found its whole log synced by the front writer. */
  lemma {:induction false} GroupSyncIsFront(st: State, w: nat, i: nat)
    requires Inv(st) && Enabled(st, Finish(w)) && w == Front(st)
    requires st.threads[w].outcome == Applied
    requires w <= i < w + st.threads[w].count && st.queue != []
    requires i < |st.requests| && st.requests[i].sync && st.requests[i].batch.Some?
    ensures st.synced == |st.log|
  {
    hide EffectOk, Joined, Sane, Serial, Replayed;
    assert st.requests[w].sync;
  }

  // ---------- runs ----------

  /** The state after a run, or nothing when some step of it is not possible. */
  ghost function Run(steps: seq<Step>): (r: Option<State>)
    ensures r.Some? ==> Inv(r.value)
  {
    if steps == [] then
      Some(INIT)
    else
      var before, step := Run(steps[..|steps| - 1]), steps[|steps| - 1];
      if before.Some? && Enabled(before.value, step) then
        StepKeepsInv(before.value, step);
        Some(Perform(before.value, step))
      else None
  }

  /** Every step of every thread keeps the invariant. */
  lemma {:induction false} StepKeepsInv(st: State, step: Step)
    requires Inv(st) && Enabled(st, step)
    ensures Inv(Perform(st, step))
  {
    hide EffectOk, SyncOk, ShapeOk;
    if step.Finish? {
      FinishKeepsEffect(st, step.w);
      FinishKeepsSync(st, step.w);
    } else {
      QuietStepKeepsEffect(st, step);
      QuietStepKeepsSync(st, step);
    }
  }

  /**
   * In every run: writers stand in the queue in order of arrival, everybody before the front is
   * done, nobody else is, and whenever no group is being committed the sequence number, the memtable
   * and the log are those of the same writes carried out one by one.
   */
  lemma {:induction false} RunsCommitSerially(steps: seq<Step>)
    requires Run(steps).Some?
    ensures (
      var st := Run(steps).value;
      && QueueOk(st) && ThreadsOk(st)
      && (forall i | 0 <= i < |st.threads| :: st.threads[i].Done() <==> i < Front(st))
      && (!InFlight(st).HasGroup() ==>
            Serial(st.requests[..Front(st)], Outcomes(st)) == Effect(st.lastSequence, st.mem, Replayed(st.log))))
  {
    hide Serial, Replayed, SyncOk, GroupOk, RequestsOk, Additions;
    var st := Run(steps).value;
    assert Inv(st);
  }

  /** Without failures the writes get contiguous sequence numbers, and the log replays to the memtable. */
  lemma {:induction false} SequencesAreContiguous(st: State)
    requires Inv(st) && !InFlight(st).HasGroup()
    requires forall i | 0 <= i < Front(st) :: st.threads[i].outcome == Applied
    ensures st.mem == Additions(1, Joined(st.requests[..Front(st)]))
    ensures Replayed(st.log) == st.mem
    ensures st.lastSequence == |Joined(st.requests[..Front(st)])|
  {
    hide Replayed, SyncOk, GroupOk, RequestsOk, Joined, Additions;
    var done := st.requests[..Front(st)];
    GroupIsSerial(done, Outcomes(st), 0, Front(st), Applied);
    assert done[0..0 + Front(st)] == done == done[..0 + Front(st)];
    assert Outcomes(st)[..0 + Front(st)] == Outcomes(st);
    assert Serial(done[..0], Outcomes(st)[..0]) == Effect(0, [], []);
  }

  /** A writer completes once: its outcome never changes, and no later writer completes before it. */
  lemma {:induction false} OutcomesAreFinal(st: State, step: Step, i: nat)
    requires Inv(st) && Enabled(st, step) && i < |st.threads| && st.threads[i].Done()
    ensures (
      var st' := Perform(st, step);
      && i < |st'.threads| && st'.threads[i].Done() && st'.threads[i].outcome == st.threads[i].outcome
      && st'.requests[i] == st.requests[i])
    ensures forall j | 0 <= j < i :: st.threads[j].Done()
  {
    hide EffectOk, SyncOk, GroupOk, RequestsOk;
    if step.Finish? {
      FinishOutcomes(st, step.w);
      assert Outcomes(Perform(st, step))[..Front(st)][i] == Outcomes(st)[i];
    } else {
      QuietStepKeepsPast(st, step);
      SamePastSameEffect(st, Perform(st, step));
    }
  }

  /** Only the front writer touches the log, the memtable and the sequence number. */
  lemma {:induction false} OnlyFrontWrites(st: State, step: Step)
    requires Inv(st) && Enabled(st, step)
    requires (
      var st' := Perform(st, step);
      st'.log != st.log || st'.mem != st.mem || st'.lastSequence != st.lastSequence || st'.synced != st.synced)
    ensures !step.Enter? && st.queue != [] && step.w == st.queue[0]
  {
    LeaderIsFront(st, step.w);
  }

  /** The queue never gets stuck: the front writer always has a step, and so has every woken writer. */
  lemma {:induction false} FrontCanMove(st: State)
    requires Inv(st)
    ensures st.queue != [] ==> exists step :: Enabled(st, step) && !step.Enter? && step.w == st.queue[0]
    ensures forall w | 0 <= w < |st.threads| && st.threads[w].Woken? :: Enabled(st, Return(w))
  {
    if st.queue != [] {
      var w := st.queue[0];
      var step :=
        match st.threads[w]
        case Queued => Lead(w)
        case MakingRoom => RoomMade(w, false)
        case Logging(_, _) => AppendLog(w, true)
        case Syncing(_, _) => SyncLog(w, true)
        case Inserting(_, _) => Insert(w)
        case _ => Finish(w);
      assert Enabled(st, step);
    }
  }

  /**
   * A crash leaves a log file cut off anywhere behind its synced records.  What recovery replays is
   * a prefix of everything logged that holds all additions of every synchronous write reported as
   * applied, and of all writes before it.
   */
  lemma {:induction false} SyncedWritesSurvive(crc: Crc32c.Checksum, st: State, n: nat, i: nat)
    requires Inv(st) && i < Front(st) && SyncedWrite(st, i)
    requires |LogFormat.WriteAll(crc, 0, st.log[..st.synced])| <= n <= |LogFormat.WriteAll(crc, 0, st.log)|
    ensures (
      var contents := LogFormat.ReadAll(crc, LogFormat.WriteAll(crc, 0, st.log)[..n], 0);
      && contents.reports == []
      && SerialTo(st, i + 1).logged <= Replayed(contents.records) <= Replayed(st.log))
  {
    hide Serial, Replayed, LogFormat.WriteAll, LogFormat.ReadAll, GroupOk, RequestsOk, Additions;
    var k := LogRoundTrip.CutBehind(crc, st.log, n, st.synced);
    PrefixReplays(st.log, k);
    PrefixReplays(st.log[..k], st.synced);
    assert st.log[..k][..st.synced] == st.log[..st.synced];
    SerialGrows(st.requests[..Front(st)], Outcomes(st), i + 1, Front(st));
    assert st.requests[..Front(st)][..i + 1] == st.requests[..i + 1];
    assert Outcomes(st)[..Front(st)] == Outcomes(st);
    assert st.requests[..Front(st)][..Front(st)] == st.requests[..Front(st)];
    assert SerialTo(st, i + 1).logged <= Past(st).logged <= Replayed(st.log);
  }
}
