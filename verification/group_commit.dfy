/**
 * The writer queue as a step protocol.  Each thread in Write is a small machine; a step is one
 * thread running up to the point where it releases the mutex or waits.  Condition variables are
 * the guards of the steps, and failures of the file system are arguments of the steps.
 */
module GroupCommit {
  import opened Common
  import opened Coding
  import opened WriteBatches
  import opened BatchGroups

  /** The status a writer gets: success, no room made, the log append failed, or the sync failed. */
  datatype Outcome = Applied | Refused | NotLogged | NotSynced

  datatype Thread =
    | Queued
    | MakingRoom
    | Logging(count: nat, ops: seq<BatchOp>)
    | Syncing(count: nat, ops: seq<BatchOp>)
    | Inserting(count: nat, ops: seq<BatchOp>)
    | Finishing(count: nat, ops: seq<BatchOp>, outcome: Outcome)
    | Woken(outcome: Outcome)
    | Returned(outcome: Outcome)
  {
    predicate Done() {
      Woken? || Returned?
    }

    predicate Leads() {
      MakingRoom? || HasGroup()
    }

    predicate HasGroup() {
      Logging? || Syncing? || Inserting? || Finishing?
    }
  }

  datatype State = State(
    /** Calls of Write in order of arrival, and what each thread is doing. */
    requests: seq<Request>,
    threads: seq<Thread>,
    queue: seq<nat>,
    lastSequence: nat,
    /** Records of the log, and how many of them have been synced. */
    log: seq<seq<Byte>>,
    synced: nat,
    /** Everything added to the memtables, in order. */
    mem: seq<Addition>,
    /** A background error makes all later writes fail. */
    broken: bool)

  datatype Step =
    | Enter(request: Request)
    | Lead(w: nat)
    | RoomMade(w: nat, ok: bool)
    | AppendLog(w: nat, ok: bool)
    | SyncLog(w: nat, ok: bool)
    | Insert(w: nat)
    | Finish(w: nat)
    | Return(w: nat)

  /** Lengths fit their fields and the count fits a signed word. */
  ghost predicate Sane(ops: seq<BatchOp>) {
    |ops| < 0x8000_0000 && forall op | op in ops :: op.Fits()
  }

  function Wrapped(n: nat): DoubleWord {
    n % 0x1_0000_0000_0000_0000
  }

  // ---------- the queue ----------

  /** Writers stand in the queue in order of arrival. */
  ghost predicate QueueOk(st: State) {
    && |st.threads| == |st.requests|
    && |st.queue| <= |st.requests|
    && forall i | 0 <= i < |st.queue| :: st.queue[i] == Front(st) + i
  }

  /** The number of calls that have left the queue, which is also the number of the front writer. */
  ghost function Front(st: State): int {
    |st.requests| - |st.queue|
  }

  /** Everybody before the front has an outcome; only the front writer may do more than wait. */
  ghost predicate ThreadsOk(st: State)
    requires QueueOk(st)
  {
    && (forall i | 0 <= i < Front(st) :: st.threads[i].Done())
    && (forall i | Front(st) < i < |st.threads| :: st.threads[i] == Queued)
    && (st.queue != [] ==> !st.threads[Front(st)].Done())
  }

  /** What the front writer is doing. */
  ghost function InFlight(st: State): Thread
    requires QueueOk(st)
  {
    if st.queue == [] then Queued else st.threads[Front(st)]
  }

  /** The group of the front writer is a run of the queue, and a sync in it is the front writer's own. */
  ghost predicate GroupOk(st: State)
    requires QueueOk(st)
  {
    var t, f := InFlight(st), Front(st);
    t.HasGroup() ==>
      && 0 < t.count <= |st.queue|
      && Sane(t.ops)
      && (t.Finishing? && t.outcome == Refused ==> t.count == 1 && t.ops == [])
      && (!(t.Finishing? && t.outcome == Refused) ==>
          && t.ops == Joined(st.requests[f..f + t.count])
          && forall i | f <= i < f + t.count && st.requests[i].sync :: st.requests[f].sync)
      && (st.requests[f].batch.None? ==> t.Finishing? && t.count == 1)
  }

  ghost predicate RequestsOk(st: State) {
    forall i | 0 <= i < |st.requests| :: Sane(st.requests[i].Ops())
  }

  ghost predicate ShapeOk(st: State) {
    QueueOk(st) && ThreadsOk(st) && GroupOk(st) && RequestsOk(st)
  }

  // ---------- steps ----------

  const INIT := State([], [], [], 0, [], 0, [], false)

  ghost predicate Enabled(st: State, step: Step) {
    if step.Enter? then Sane(step.request.Ops())
    else
      step.w < |st.threads| &&
      var t := st.threads[step.w];
      match step
      case Lead(w) => t.Queued? && st.queue != [] && st.queue[0] == w
      case RoomMade(_, ok) => t.MakingRoom? && (st.broken ==> !ok)
      case AppendLog(_, _) => t.Logging?
      case SyncLog(_, _) => t.Syncing?
      case Insert(_) => t.Inserting?
      case Finish(_) => t.Finishing?
      case Return(_) => t.Woken?
  }

  /** Write, after MakeRoomForWrite has succeeded. */
  ghost function GroupFor(st: State, w: nat): Thread
    requires QueueOk(st) && st.queue != [] && w == st.queue[0]
  {
    if st.requests[w].batch.None? then Finishing(1, [], Applied)
    else
      var waiting := st.requests[Front(st)..];
      Logging(Group(waiting), Joined(waiting[..Group(waiting)]))
  }

  /** The loop at the end of Write: the group leaves the queue, and its members are told the outcome. */
  ghost function Release(st: State, w: nat, count: nat, outcome: Outcome): State
    requires count <= |st.queue| && w < |st.threads|
  {
    var group := st.queue[..count];
    st.(
      queue := st.queue[count..],
      threads := seq(|st.threads|, i requires 0 <= i < |st.threads| =>
        if i == w then Returned(outcome) else if i in group then Woken(outcome) else st.threads[i]))
  }

  ghost function Perform(st: State, step: Step): State
    requires ShapeOk(st) && Enabled(st, step)
  {
    match step
    case Enter(request) =>
      st.(requests := st.requests + [request], threads := st.threads + [Queued],
          queue := st.queue + [|st.requests|])
    case Lead(w) => st.(threads := st.threads[w := MakingRoom])
    case RoomMade(w, ok) =>
      st.(threads := st.threads[w := if ok then GroupFor(st, w) else Finishing(1, [], Refused)])
    case AppendLog(w, ok) =>
      var t := st.threads[w];
      if ok then
        st.(log := st.log + [Image(Wrapped(st.lastSequence + 1), t.ops)],
            threads := st.threads[w := if st.requests[w].sync then Syncing(t.count, t.ops) else Inserting(t.count, t.ops)])
      else st.(threads := st.threads[w := Finishing(t.count, t.ops, NotLogged)])
    case SyncLog(w, ok) =>
      var t := st.threads[w];
      if ok then st.(synced := |st.log|, threads := st.threads[w := Inserting(t.count, t.ops)])
      else st.(broken := true, threads := st.threads[w := Finishing(t.count, t.ops, NotSynced)])
    case Insert(w) =>
      var t := st.threads[w];
      st.(mem := st.mem + Additions(Wrapped(st.lastSequence + 1), t.ops),
          threads := st.threads[w := Finishing(t.count, t.ops, Applied)])
    case Finish(w) =>
      var t := st.threads[w];
      Release(st, w, t.count, t.outcome).(lastSequence := st.lastSequence + |t.ops|)
    case Return(w) => st.(threads := st.threads[w := Returned(st.threads[w].outcome)])
  }

  // ---------- the shape is kept ----------

  /** Whoever is past waiting and not done is the front writer. */
  lemma {:induction false} LeaderIsFront(st: State, w: nat)
    requires QueueOk(st) && ThreadsOk(st)
    requires w < |st.threads| && st.threads[w].Leads()
    ensures st.queue != [] && w == st.queue[0] == Front(st)
  {
  }

  lemma {:induction false} JoinedIsSane(requests: seq<Request>, n: nat)
    requires n <= |requests| && forall i | 0 <= i < n :: Sane(requests[i].Ops())
    ensures forall op | op in Joined(requests[..n]) :: op.Fits()
    ensures |Joined(requests[..n])| <= TotalSize(requests[..n])
  {
    if n > 0 {
      JoinedIsSane(requests, n - 1);
      OneMoreRequest(requests, n - 1);
      EncodedAllLength(requests[n - 1].Ops());
    }
  }

  lemma {:induction false} EncodedAllLength(ops: seq<BatchOp>)
    ensures |EncodedAll(ops)| >= |ops|
  {
    hide Encoded;
    if ops != [] {
      EncodedAllLength(ops[1..]);
    }
  }

  lemma {:induction false} JoinedAlone(requests: seq<Request>, n: nat)
    requires 0 < n <= |requests|
    requires TotalSize(requests[..n]) == requests[0].Size() && requests[0].batch.Some?
    ensures Joined(requests[..n]) == requests[0].Ops()
  {
    if n == 1 {
      FrontAlone(requests);
    } else {
      OneMoreRequest(requests, n - 1);
      FrontIsLeast(requests, n - 1);
      JoinedAlone(requests, n - 1);
    }
  }

  lemma {:induction false} FrontIsLeast(requests: seq<Request>, n: nat)
    requires 0 < n <= |requests|
    ensures TotalSize(requests[..n]) >= requests[0].Size()
  {
    if n == 1 {
      FrontAlone(requests);
    } else {
      OneMoreRequest(requests, n - 1);
      FrontIsLeast(requests, n - 1);
    }
  }

  /** A group is small enough to be counted in a signed word. */
  lemma {:induction false} GroupIsSane(requests: seq<Request>)
    requires requests != [] && requests[0].batch.Some?
    requires forall i | 0 <= i < |requests| :: Sane(requests[i].Ops())
    ensures Sane(Joined(requests[..Group(requests)]))
  {
    hide Request.Size, GroupCount, EncodedAll;
    var n := Group(requests);
    GroupIsMaximal(requests);
    JoinedIsSane(requests, n);
    if TotalSize(requests[..n]) == requests[0].Size() {
      JoinedAlone(requests, n);
    }
  }

  lemma {:induction false} EnterKeepsShape(st: State, request: Request)
    requires ShapeOk(st) && Sane(request.Ops())
    ensures ShapeOk(Perform(st, Enter(request)))
  {
    hide Joined, Sane;
    var st' := Perform(st, Enter(request));
    var f := Front(st);
    var t := InFlight(st);
    if st.queue != [] && t.HasGroup() {
      assert st'.requests[f..f + t.count] == st.requests[f..f + t.count];
    }
  }

  lemma {:induction false} GroupOfWaiting(requests: seq<Request>, w: nat)
    requires w < |requests| && requests[w].batch.Some?
    requires forall i | 0 <= i < |requests| :: Sane(requests[i].Ops())
    ensures (
      var n := Group(requests[w..]);
      && requests[w..][..n] == requests[w..w + n]
      && Sane(Joined(requests[w..w + n]))
      && forall i | w <= i < w + n && requests[i].sync :: requests[w].sync)
  {
    hide Joined, Sane, GroupCount, TotalSize, Request.Size;
    var waiting := requests[w..];
    var n := Group(waiting);
    GroupIsMaximal(waiting);
    GroupIsSane(waiting);
    forall i | w <= i < w + n && requests[i].sync ensures requests[w].sync {
      assert !NeedsOwnSync(waiting, i - w);
    }
  }

  lemma {:induction false} GroupStarts(st: State, w: nat)
    requires ShapeOk(st) && w < |st.threads| && st.threads[w].MakingRoom?
    ensures w == Front(st) && st.queue != [] && w == st.queue[0]
    ensures (
      var t := GroupFor(st, w);
      && t.HasGroup() && !(t.Finishing? && t.outcome == Refused)
      && 0 < t.count <= |st.queue|
      && t.ops == Joined(st.requests[w..w + t.count])
      && Sane(t.ops)
      && (forall i | w <= i < w + t.count && st.requests[i].sync :: st.requests[w].sync)
      && (st.requests[w].batch.None? ==> t.Finishing? && t.count == 1))
  {
    hide Joined, Group, Sane;
    LeaderIsFront(st, w);
    if st.requests[w].batch.Some? {
      GroupOfWaiting(st.requests, w);
    } else {
      FrontAlone(st.requests[w..]);
      assert st.requests[w..w + 1] == st.requests[w..][..1];
      EmptyIsSane();
    }
  }

  /** Steps of the front writer before it finishes. */
  lemma {:induction false} FrontKeepsShape(st: State, step: Step)
    requires ShapeOk(st) && Enabled(st, step)
    requires step.Lead? || step.RoomMade? || step.AppendLog? || step.SyncLog? || step.Insert?
    ensures ShapeOk(Perform(st, step))
  {
    hide Joined, Sane, Image, Additions, GroupFor;
    var st' := Perform(st, step);
    assert Front(st') == Front(st);
    if step.RoomMade? {
      GroupStarts(st, step.w);
      EmptyIsSane();
    } else if !step.Lead? {
      LeaderIsFront(st, step.w);
    }
  }

  lemma {:induction false} EmptyIsSane()
    ensures Sane([])
  {
  }

  lemma {:induction false} FinishKeepsShape(st: State, w: nat)
    requires ShapeOk(st) && Enabled(st, Finish(w))
    ensures ShapeOk(Perform(st, Finish(w)))
    ensures Front(Perform(st, Finish(w))) == Front(st) + st.threads[w].count
  {
    hide Joined, Sane;
    LeaderIsFront(st, w);
    var st' := Perform(st, Finish(w));
    var n := st.threads[w].count;
    assert |st'.queue| == |st.queue| - n;
    forall i | 0 <= i < n ensures st.queue[i] in st.queue[..n] {
      assert st.queue[..n][i] == st.queue[i];
    }
    forall i | Front(st) <= i < Front(st) + n ensures st'.threads[i].Done() {
      assert st.queue[i - Front(st)] == i;
    }
  }

  lemma {:induction false} ReturnKeepsShape(st: State, w: nat)
    requires ShapeOk(st) && Enabled(st, Return(w))
    ensures ShapeOk(Perform(st, Return(w)))
  {
    assert w < Front(st);
  }

  lemma {:induction false} StepKeepsShape(st: State, step: Step)
    requires ShapeOk(st) && Enabled(st, step)
    ensures ShapeOk(Perform(st, step))
  {
    match step
    case Enter(request) => EnterKeepsShape(st, request);
    case Finish(w) => FinishKeepsShape(st, w);
    case Return(w) => ReturnKeepsShape(st, w);
    case _ => FrontKeepsShape(st, step);
  }
}
