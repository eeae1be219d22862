/** After a failed sync nobody knows what the log holds: every write that follows is refused. */
module SyncFailures {
  import opened Common
  import opened WriteBatches
  import opened BatchGroups
  import opened GroupCommit
  import opened SerialCommit

  predicate Failed(outcome: Outcome) {
    outcome == NotSynced || outcome == Refused
  }

  /** No write behind a failed sync has any other outcome than that failure, shared with its group, or a refusal. */
  ghost predicate Stopped(outcomes: seq<Outcome>) {
    forall i, j | 0 <= i < j < |outcomes| && outcomes[i] == NotSynced :: Failed(outcomes[j])
  }

  /** Once a sync has failed nobody is given room. */
  ghost predicate StoppedOk(outcomes: seq<Outcome>, t: Thread, broken: bool) {
    && Stopped(outcomes)
    && (NotSynced in outcomes ==> broken)
    && (t.Finishing? && t.outcome == NotSynced ==> broken)
    && (broken ==> !t.Logging? && !t.Syncing? && !t.Inserting? && (t.Finishing? ==> Failed(t.outcome)))
  }

  lemma {:induction false} QuietKeepsStopped(st: State, step: Step)
    requires Inv(st) && Enabled(st, step) && !step.Finish? && StoppedOk(Outcomes(st), InFlight(st), st.broken)
    ensures ShapeOk(Perform(st, step))
    ensures var st' := Perform(st, step); StoppedOk(Outcomes(st'), InFlight(st'), st'.broken)
  {
    hide GroupOk, RequestsOk, EffectOk, SyncOk, Stopped, Joined, Group;
    QuietStepKeepsPast(st, step);
    if step.RoomMade? || step.AppendLog? || step.SyncLog? || step.Insert? {
      LeaderIsFront(st, step.w);
    }
  }

  lemma {:induction false} FinishKeepsStopped(st: State, w: nat)
    requires Inv(st) && Enabled(st, Finish(w)) && StoppedOk(Outcomes(st), InFlight(st), st.broken)
    ensures ShapeOk(Perform(st, Finish(w)))
    ensures var st' := Perform(st, Finish(w)); StoppedOk(Outcomes(st'), InFlight(st'), st'.broken)
  {
    hide GroupOk, RequestsOk, EffectOk, SyncOk;
    FinishOutcomes(st, w);
    FinishKeepsEffect(st, w);
    LeaderIsFront(st, w);
    var st', f := Perform(st, Finish(w)), Front(st);
    var before, after := Outcomes(st), Outcomes(st');
    forall i | 0 <= i < |after| ensures after[i] == if i < f then before[i] else st.threads[w].outcome {
      assert i < f ==> after[..f][i] == before[i];
    }
  }

  lemma {:induction false} RunsStop(steps: seq<Step>)
    requires Run(steps).Some?
    ensures var st := Run(steps).value; StoppedOk(Outcomes(st), InFlight(st), st.broken)
    decreases |steps|
  {
    hide Inv, Perform, Enabled, StoppedOk;
    if steps == [] {
      StartsUnstopped();
    } else {
      var before, step := Run(steps[..|steps| - 1]).value, steps[|steps| - 1];
      RunsStop(steps[..|steps| - 1]);
      if step.Finish? {
        FinishKeepsStopped(before, step.w);
      } else {
        QuietKeepsStopped(before, step);
      }
    }
  }

  lemma {:induction false} StartsUnstopped()
    ensures ShapeOk(INIT) && StoppedOk(Outcomes(INIT), InFlight(INIT), INIT.broken)
  {
  }

  /**
   * In every run: once a write has failed because its sync did, every write behind it fails too, by the same failure or by
   * being refused; none of them is acknowledged.
   */
  lemma {:induction false} FailedSyncStopsWrites(steps: seq<Step>, i: nat, j: nat)
    requires Run(steps).Some?
    requires var st := Run(steps).value; i < j < Front(st) && st.threads[i].outcome == NotSynced
    ensures var st := Run(steps).value; st.threads[j].outcome == NotSynced || st.threads[j].outcome == Refused
  {
    hide GroupOk, RequestsOk, EffectOk, SyncOk, Perform, Enabled;
    var st := Run(steps).value;
    RunsStop(steps);
    assert Outcomes(st)[i] == NotSynced;
    assert Failed(Outcomes(st)[j]);
  }
}
