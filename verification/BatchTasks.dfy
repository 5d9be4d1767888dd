/** The batch rows as the orchestration service updates them, and the task that drives a batch. */
module BatchTasks {
  import opened Option
  import opened BatchState
  import BatchProtocol
  import RunTable

  class BatchJob {
    var status: BatchStatus
    const mode: Mode
    var steps: seq<Step>
    const totalSteps: nat
    var completedSteps: nat
    var failedSteps: nat
    var skippedSteps: nat

    /** The row and its steps as one value. */
    ghost function State(): Batch
      reads this
    {
      Batch(status, mode, steps, totalSteps, completedSteps, failedSteps, skippedSteps)
    }

    ghost predicate Valid()
      reads this
    {
      BatchProtocol.Inv(State())
    }

    constructor (mode: Mode, nodes: seq<nat>)
      requires nodes != []
      ensures State() == NewBatch(mode, nodes) && Valid()
    {
      this.mode := mode;
      status := BatchPending;
      totalSteps := |nodes|;
      completedSteps, failedSteps, skippedSteps := 0, 0, 0;
      steps := seq(|nodes|, i requires 0 <= i < |nodes| => Step(nodes[i], Pending, None));
      new;
      assert State() == NewBatch(mode, nodes);
      BatchProtocol.NewBatchInv(mode, nodes);
    }

    /** `_maybe_finalize_batch` */
    method MaybeFinalizeBatch()
      modifies this
      ensures State() == MaybeFinalize(old(State()))
      ensures steps == old(steps)
      ensures status == if && old(status) in {BatchPending, BatchRunning}
                           && forall k | 0 <= k < |steps| :: steps[k].status !in {Pending, Running}
                        then BatchCompleted else old(status)
    {
      if Closed(status) {
        return;
      }
      var i := 0;
      while i < |steps|
        invariant 0 <= i <= |steps|
        invariant forall k | 0 <= k < i :: Terminal(steps[k].status)
      {
        if steps[i].status == Pending || steps[i].status == Running {
          assert !Terminal(steps[i].status);
          return;
        }
        i := i + 1;
      }
      status := BatchCompleted;
    }

    /** `claim_next_step` */
    method ClaimNextStep(facts: nat -> NodeFacts) returns (taken: Option<nat>)
      modifies this
      ensures (State(), taken) == Claim(old(State()), facts)
    {
      hide ClaimLoop, Count, FirstWith;
      if Closed(status) {
        return None;
      }
      if FirstWith(steps, Running) < |steps| {
        return None;
      }
      if status == BatchPending {
        status := BatchRunning;
      }
      while true
        invariant Claim(old(State()), facts) == ClaimLoop(State(), facts)
        decreases Count(steps, Pending)
      {
        var i := FirstWith(steps, Pending);
        if i == |steps| {
          ClaimLoopOnce(State(), facts);
          MaybeFinalizeBatch();
          return None;
        }
        ghost var was := State();
        ClaimLoopOnce(was, facts);
        var f := facts(steps[i].node);
        if mode == SkipExisting && (f.hasLive || f.hasWorkspaceDraft) {
          steps := steps[i := steps[i].(status := Skipped)];
          skippedSteps := skippedSteps + 1;
          assert State() == Settle(was, i, Skipped);
          continue;
        }
        if mode == RegenerateAll && f.hasVersion {
          if f.canClear {
            // the drafts are cleared and the step is taken
          } else if f.quizCount > 0 || f.hasLive {
            steps := steps[i := steps[i].(status := Failed)];
            failedSteps := failedSteps + 1;
            assert State() == Settle(was, i, Failed);
            continue;
          }
        }
        steps := steps[i := steps[i].(status := Running)];
        return Some(i);
      }
    }

    /** `finalize_step` */
    method FinalizeStep(i: nat, runStatus: RunTable.Status)
      requires i < |steps|
      modifies this
      ensures State() == Finalize(old(State()), i, runStatus)
      ensures old(steps)[i].status != Running ==> State() == old(State())
      ensures |steps| == |old(steps)| && forall k | 0 <= k < |steps| && k != i :: steps[k] == old(steps)[k]
      ensures old(steps)[i].status == Running ==>
                && steps[i].status == (if runStatus == RunTable.Completed then Completed else Failed)
                && steps[i].node == old(steps)[i].node && steps[i].run == old(steps)[i].run
                && completedSteps == old(completedSteps) + (if runStatus == RunTable.Completed then 1 else 0)
                && failedSteps == old(failedSteps) + (if runStatus == RunTable.Completed then 0 else 1)
                && skippedSteps == old(skippedSteps)
                && status == (if && old(status) in {BatchPending, BatchRunning}
                                 && forall k | 0 <= k < |steps| :: steps[k].status !in {Pending, Running}
                              then BatchCompleted else old(status))
    {
      if steps[i].status != Running {
        return;
      }
      if runStatus.Completed? {
        steps := steps[i := steps[i].(status := Completed)];
        completedSteps := completedSteps + 1;
      } else {
        steps := steps[i := steps[i].(status := Failed)];
        failedSteps := failedSteps + 1;
      }
      MaybeFinalizeBatch();
    }

    /** `attach_generation_run` */
    method AttachGenerationRun(i: nat, run: RunTable.RunId)
      requires i < |steps|
      modifies this
      ensures State() == Attach(old(State()), i, run)
      ensures |steps| == |old(steps)| && steps[i].run == Some(run) && steps[i].status == old(steps)[i].status
      ensures forall k | 0 <= k < |steps| && k != i :: steps[k] == old(steps)[k]
    {
      steps := steps[i := steps[i].(run := Some(run))];
    }

    /** `_reset_step_to_pending` */
    method ResetStepToPending(i: nat)
      requires i < |steps|
      modifies this
      ensures State() == Reset(old(State()), i)
      ensures |steps| == |old(steps)| && steps[i].status == Pending && steps[i].run == None
      ensures forall k | 0 <= k < |steps| && k != i :: steps[k] == old(steps)[k]
    {
      steps := steps[i := steps[i].(status := Pending, run := None)];
    }

    /** `cancel_batch`; `abandoned` are the runs it tries to abandon on the way. */
    method CancelBatch() returns (abandoned: seq<RunTable.RunId>)
      modifies this
      ensures State() == Cancel(old(State()))
      ensures old(status) in {BatchCompleted, BatchFailed, BatchCancelled} ==> State() == old(State())
      ensures old(status) in {BatchPending, BatchRunning} ==>
                && status == BatchCancelled && |steps| == |old(steps)|
                && forall k | 0 <= k < |steps| ::
                     && steps[k].run == old(steps)[k].run
                     && steps[k].status == match old(steps)[k].status
                                           case Running => Failed
                                           case Pending => Skipped
                                           case other => other
      ensures forall r :: r in abandoned <==>
                && !Closed(old(status))
                && exists k | 0 <= k < |old(steps)| :: old(steps)[k].status.Running? && old(steps)[k].run == Some(r)
    {
      abandoned := [];
      if Closed(status) {
        return;
      }
      status := BatchCancelled;
      ghost var before := steps;
      var i := 0;
      while i < |steps|
        invariant 0 <= i <= |steps| == |before|
        invariant status == BatchCancelled && completedSteps == old(completedSteps)
        invariant forall k | 0 <= k < |before| :: steps[k] == if k < i then CancelledStep(before[k]) else before[k]
        invariant failedSteps == old(failedSteps) + Count(before[..i], Running)
        invariant skippedSteps == old(skippedSteps) + Count(before[..i], Pending)
        invariant forall r :: r in abandoned <==>
                    exists k | 0 <= k < i :: before[k].status.Running? && before[k].run == Some(r)
      {
        CountTake(before, i, Running);
        CountTake(before, i, Pending);
        var step := steps[i];
        if step.status == Running {
          if step.run.Some? {
            abandoned := abandoned + [step.run.value];
          }
          steps := steps[i := step.(status := Failed)];
          failedSteps := failedSteps + 1;
        } else if step.status == Pending {
          steps := steps[i := step.(status := Skipped)];
          skippedSteps := skippedSteps + 1;
        }
        i := i + 1;
      }
      assert before[..i] == before;
      assert steps == Cancel(old(State())).steps;
    }
  }

  /** `create_batch`: no row is written for an empty plan. */
  method CreateBatch(mode: Mode, nodes: seq<nat>) returns (job: BatchJob?)
    ensures job == null <==> nodes == []
    ensures job != null ==> fresh(job) && job.State() == NewBatch(mode, nodes) && job.Valid()
    ensures job != null ==>
              && job.status == BatchPending && job.mode == mode && job.totalSteps == |job.steps| == |nodes|
              && job.completedSteps == job.failedSteps == job.skippedSteps == 0
              && forall i | 0 <= i < |nodes| :: job.steps[i] == Step(nodes[i], Pending, None)
  {
    if nodes == [] {
      return null;
    }
    job := new BatchJob(mode, nodes);
  }

  /** What starting the step's generation run came to. */
  datatype StartOutcome = StartedRun(run: RunTable.RunId) | StartConflict | StartError

  /**
   Everything one task call learns from outside; `ended` is the run's row once its job is over, and
   `jobRaises` says that the job's exception leaves the task.
   */
  datatype CallInput = CallInput(
    facts: nat -> NodeFacts,
    start: StartOutcome,
    runs: map<RunTable.RunId, RunTable.Status>,
    ended: Option<RunTable.Status>,
    jobRaises: bool,
    cancelledMeanwhile: bool)

  datatype CallOutcome = Chained | Stopped | Requeued | Escaped

  /** `_finalize_from_run`: a missing run counts as failed. */
  function EndStatus(ended: Option<RunTable.Status>): RunTable.Status {
    if ended.None? then RunTable.Failed else ended.value
  }

  predicate RunIsOver(s: RunTable.Status) {
    s.Completed? || s.Failed? || s.Abandoned? || s.Superseded?
  }

  /** How `_reconcile_running_step` treats the running step it finds. */
  datatype Repair = Reopened | Settled | LeftAlone | Escapes | NothingRunning

  function PlanRepair(b: Batch, input: CallInput): Repair {
    var i := FirstWith(b.steps, Running);
    if i == |b.steps| then NothingRunning
    else if b.steps[i].run.None? || b.steps[i].run.value !in input.runs then Reopened
    else if input.runs[b.steps[i].run.value].Paused? then LeftAlone
    else if input.runs[b.steps[i].run.value].Running? && input.jobRaises then Escapes
    else Settled
  }

  /** A job whose exception escapes settles nothing; a mentor may have cancelled while it ran. */
  function AfterEscape(b: Batch, input: CallInput): Batch {
    if input.cancelledMeanwhile then Cancel(b) else b
  }

  /** A step is running and knows its run, so the next call can look that run up. */
  predicate RunsAttached(steps: seq<Step>) {
    exists k | 0 <= k < |steps| :: steps[k].status.Running? && steps[k].run.Some?
  }

  method EscapeJob(job: BatchJob, input: CallInput)
    requires job.Valid() && !Closed(job.status)
    modifies job
    ensures job.Valid() && job.State() == AfterEscape(old(job.State()), input)
    ensures Open(job.steps) <= Open(old(job.steps))
  {
    if input.cancelledMeanwhile {
      BatchProtocol.CancelKeeps(job.State());
      CancelLeavesNothing(job.State());
      var _ := job.CancelBatch();
    }
  }

  /** `_reconcile_running_step` */
  method ReconcileRunningStep(job: BatchJob, input: CallInput) returns (reconciled: bool, escaped: bool)
    requires job.Valid()
    modifies job
    ensures job.Valid()
    ensures escaped <==> PlanRepair(old(job.State()), input).Escapes?
    ensures escaped ==> !reconciled && job.State() == AfterEscape(old(job.State()), input)
    ensures escaped && !input.cancelledMeanwhile ==> RunsAttached(job.steps)
    ensures Open(job.steps) <= Open(old(job.steps))
    ensures reconciled <==> PlanRepair(old(job.State()), input) in {Reopened, Settled}
    ensures !reconciled && !escaped ==> job.State() == old(job.State())
    ensures reconciled ==> !HasRunning(job.steps)
    ensures PlanRepair(old(job.State()), input).Reopened? ==> Open(job.steps) == Open(old(job.steps))
    ensures PlanRepair(old(job.State()), input).Settled? ==> Open(job.steps) < Open(old(job.steps))
    // what becomes of the step found running, by what its run has come to
    ensures !HasRunning(old(job.steps)) ==> !reconciled && !escaped
    ensures HasRunning(old(job.steps)) ==>
              var i := FirstWith(old(job.steps), Running);
              var run := old(job.steps)[i].run;
              && |job.steps| == |old(job.steps)|
              && if run.None? || run.value !in input.runs then
                   reconciled && job.steps[i].status == Pending && job.steps[i].run == None
                 else
                   match input.runs[run.value]
                   case Paused => !reconciled && !escaped
                   case Running =>
                     if input.jobRaises then escaped
                     else
                       && reconciled
                       && job.steps[i].status == if input.ended == Some(RunTable.Completed) && !input.cancelledMeanwhile
                                                 then Completed else Failed
                   case over => reconciled && job.steps[i].status == if over.Completed? then Completed else Failed
    ensures !input.cancelledMeanwhile && !Closed(old(job.status)) ==> !Closed(job.status) || job.status.BatchCompleted?
  {
    escaped := false;
    var i := FirstWith(job.steps, Running);
    if i == |job.steps| {
      return false, false;
    }
    OnlyOneRuns(job.State(), i);
    if job.steps[i].run.None? || job.steps[i].run.value !in input.runs {
      BatchProtocol.ResetKeeps(job.State(), i);
      job.ResetStepToPending(i);
      NoneRunsAfter(old(job.State()), i, job.steps);
      return true, false;
    }
    var status := input.runs[job.steps[i].run.value];
    if RunIsOver(status) {
      BatchProtocol.FinalizeKeeps(job.State(), i, status);
      job.FinalizeStep(i, status);
      NoneRunsAfter(old(job.State()), i, job.steps);
      return true, false;
    }
    if status != RunTable.Running {
      return false, false;
    }
    if input.jobRaises {
      RunningMeansOpen(job.State(), i);
      assert RunsAttached(job.steps);
      EscapeJob(job, input);
      return false, true;
    }
    SettleFromRun(job, i, input);
    NoneRunsAfterAll(old(job.State()), i, job.State());
    reconciled := true;
  }

  /** The run has been executed; a mentor may have cancelled meanwhile; the step is settled from its row. */
  method SettleFromRun(job: BatchJob, i: nat, input: CallInput)
    requires job.Valid() && i < |job.steps| && job.steps[i].status.Running?
    modifies job
    ensures job.Valid() && |job.steps| == |old(job.steps)|
    ensures Open(job.steps) < Open(old(job.steps))
    ensures !job.steps[i].status.Running?
    ensures forall k | 0 <= k < |job.steps| && job.steps[k].status.Running? ::
              k != i && job.steps[k] == old(job.steps)[k]
    ensures input.cancelledMeanwhile ==> job.State() == Cancel(old(job.State())) && job.status.BatchCancelled?
    ensures !input.cancelledMeanwhile ==> job.State() == Finalize(old(job.State()), i, EndStatus(input.ended))
    ensures job.steps[i].status == if input.ended == Some(RunTable.Completed) && !input.cancelledMeanwhile
                                   then Completed else Failed
    ensures job.steps[i].run == old(job.steps)[i].run
  {
    RunningMeansOpen(job.State(), i);
    if input.cancelledMeanwhile {
      BatchProtocol.CancelKeeps(job.State());
      CancelLeavesNothing(job.State());
      var _ := job.CancelBatch();
    } else {
      BatchProtocol.FinalizeKeeps(job.State(), i, EndStatus(input.ended));
    }
    job.FinalizeStep(i, EndStatus(input.ended));
  }

  lemma RunningMeansOpen(b: Batch, i: nat)
    requires BatchProtocol.Inv(b) && i < |b.steps| && b.steps[i].status.Running?
    ensures !Closed(b.status) && Open(b.steps) > 0
  {
    assert !Terminal(b.steps[i].status);
    BatchProtocol.OpenIffPositive(b.steps);
  }

  lemma CancelLeavesNothing(b: Batch)
    requires BatchProtocol.Inv(b) && !Closed(b.status)
    ensures Open(Cancel(b).steps) == 0
    ensures forall k | 0 <= k < |b.steps| :: Terminal(Cancel(b).steps[k].status)
  {
    BatchProtocol.OpenIffPositive(Cancel(b).steps);
  }

  lemma NoneRunsAfterAll(b: Batch, i: nat, after: Batch)
    requires BatchProtocol.Inv(b) && i < |b.steps| && b.steps[i].status.Running?
    requires |after.steps| == |b.steps|
    requires forall k | 0 <= k < |b.steps| && after.steps[k].status.Running? :: k != i && after.steps[k] == b.steps[k]
    ensures !HasRunning(after.steps)
  {
    OnlyOneRuns(b, i);
    assert forall k | 0 <= k < |b.steps| :: !after.steps[k].status.Running?;
  }

  /** In a frontier the first running step is the only one. */
  lemma OnlyOneRuns(b: Batch, i: nat)
    requires BatchProtocol.Inv(b) && i < |b.steps| && b.steps[i].status.Running?
    ensures forall k | 0 <= k < |b.steps| && k != i :: !b.steps[k].status.Running?
  {
    forall k | 0 <= k < |b.steps| && k != i
      ensures !b.steps[k].status.Running?
    {
      assert k < i ==> Terminal(b.steps[k].status);
      assert k > i ==> b.steps[k].status.Pending?;
    }
  }

  lemma NoneRunsAfter(b: Batch, i: nat, steps: seq<Step>)
    requires i < |b.steps| && |steps| == |b.steps| && !steps[i].status.Running?
    requires forall k | 0 <= k < |b.steps| && k != i :: !b.steps[k].status.Running? && steps[k] == b.steps[k]
    ensures !HasRunning(steps)
  {
    assert forall k | 0 <= k < |steps| :: !steps[k].status.Running?;
  }

  /** `_maybe_chain_next_step` */
  method MaybeChainNextStep(job: BatchJob) returns (outcome: CallOutcome)
    ensures outcome == if !Closed(job.status) && FirstWith(job.steps, Pending) < |job.steps| then Chained else Stopped
  {
    if Closed(job.status) {
      return Stopped;
    }
    outcome := if FirstWith(job.steps, Pending) < |job.steps| then Chained else Stopped;
  }

  /** With work left and nothing running, some step is pending. */
  lemma WorkLeftIsPending(b: Batch)
    requires BatchProtocol.Inv(b) && !HasRunning(b.steps)
    ensures !Closed(b.status) <==> FirstWith(b.steps, Pending) < |b.steps|
  {
    if HasOpen(b.steps) {
      var k :| 0 <= k < |b.steps| && !Terminal(b.steps[k].status);
      assert b.steps[k].status.Pending?;
    }
    var i := FirstWith(b.steps, Pending);
    assert i < |b.steps| ==> !Terminal(b.steps[i].status);
  }

  /** A claim from a quiet batch either takes the only running step or closes the batch. */
  lemma ClaimFromQuiet(b: Batch, facts: nat -> NodeFacts)
    requires BatchProtocol.Inv(b) && !Closed(b.status) && !HasRunning(b.steps)
    ensures var (b', taken) := Claim(b, facts);
            && BatchProtocol.Inv(b') && |b'.steps| == |b.steps| && Open(b'.steps) <= Open(b.steps)
            && (taken.Some? ==> taken.value < |b'.steps| && b'.steps[taken.value].status.Running?)
            && (taken.None? ==> b'.status.BatchCompleted? && Open(b'.steps) == 0 && !HasRunning(b'.steps))
    ensures Open(b.steps) > 0
  {
    var start := if b.status.BatchPending? then b.(status := BatchRunning) else b;
    BatchProtocol.ClaimLoopKeeps(start, facts);
    var (b', taken) := Claim(b, facts);
    BatchProtocol.OpenIffPositive(b.steps);
    BatchProtocol.OpenIffPositive(b'.steps);
    if HasRunning(b'.steps) {
      assert !Terminal(b'.steps[FirstWith(b'.steps, Running)].status);
    }
  }

  /** `process_batch`: claim, start, execute and settle one step, then chain. */
  method ProcessBatch(job: BatchJob, input: CallInput) returns (outcome: CallOutcome)
    requires job.Valid()
    modifies job
    ensures job.Valid() && Open(job.steps) <= Open(old(job.steps))
    ensures Closed(old(job.status)) ==> outcome.Stopped? && job.State() == old(job.State())
    // progress: from a quiet open batch a call without a start conflict settles at least one step
    ensures !Closed(old(job.status)) && !HasRunning(old(job.steps)) && !outcome.Escaped? ==>
              && !HasRunning(job.steps)
              && (!input.start.StartConflict? ==>
                    && Open(job.steps) < Open(old(job.steps))
                    && (outcome.Chained? <==> !Closed(job.status)) && !outcome.Requeued?)
    // a conflict puts the claimed step back, after whatever was skipped before it
    ensures !Closed(old(job.status)) && !HasRunning(old(job.steps)) && input.start.StartConflict? ==>
              && (outcome.Requeued? <==> !Closed(job.status))
              && (!outcome.Requeued? ==> Open(job.steps) < Open(old(job.steps)))
    ensures outcome.Requeued? ==> input.start.StartConflict?
    // recovery: a step found running is reopened or settled, unless its run is paused or raises again
    ensures HasRunning(old(job.steps)) && PlanRepair(old(job.State()), input).LeftAlone? ==>
              outcome.Stopped? && job.State() == old(job.State())
    ensures HasRunning(old(job.steps)) && PlanRepair(old(job.State()), input) in {Reopened, Settled} ==>
              !HasRunning(job.steps) && (outcome.Chained? <==> !Closed(job.status))
    // the claimed step completes exactly if its run was started and ended completed
    ensures var taken := Claim(old(job.State()), input.facts).1;
            taken.Some? ==>
              && taken.value < |job.steps|
              && (job.steps[taken.value].status == Completed <==>
                    input.start.StartedRun? && !input.jobRaises && !input.cancelledMeanwhile
                    && input.ended == Some(RunTable.Completed))
    // an exception of the job leaves its step running with its run attached, for the next call to repair
    ensures outcome.Escaped? ==> input.jobRaises
    ensures outcome.Escaped? && !input.cancelledMeanwhile ==>
              RunsAttached(job.steps)
    ensures !input.cancelledMeanwhile && !Closed(old(job.status)) ==> !Closed(job.status) || job.status.BatchCompleted?
  {
    hide RunsAttached, BatchProtocol.Frontier, BatchProtocol.CountersAgree, AfterEscape, Count;
    if Closed(job.status) {
      return Stopped;
    }
    if !HasRunning(job.steps) {
      ClaimFromQuiet(job.State(), input.facts);
    }
    var taken := job.ClaimNextStep(input.facts);
    if taken.None? {
      var reconciled, escaped := ReconcileRunningStep(job, input);
      if escaped {
        return Escaped;
      }
      if reconciled {
        WorkLeftIsPending(job.State());
        outcome := MaybeChainNextStep(job);
        return;
      }
      return Stopped;
    }
    outcome := RunClaimedStep(job, taken.value, input);
  }

  /** The rest of `process_batch` once a step is claimed: start its run, execute it, settle, chain. */
  method RunClaimedStep(job: BatchJob, i: nat, input: CallInput) returns (outcome: CallOutcome)
    requires job.Valid() && i < |job.steps| && job.steps[i].status.Running?
    modifies job
    ensures job.Valid()
    ensures Open(job.steps) <= Open(old(job.steps))
    ensures outcome.Escaped? <==> input.start.StartedRun? && input.jobRaises
    ensures outcome.Escaped? ==> job.State() == AfterEscape(Attach(old(job.State()), i, input.start.run), input)
    ensures outcome.Escaped? && !input.cancelledMeanwhile ==> RunsAttached(job.steps)
    ensures !outcome.Escaped? ==> !HasRunning(job.steps)
    ensures input.start.StartConflict? ==> outcome.Requeued? && job.State() == Reset(old(job.State()), i)
    // what becomes of the claimed step
    ensures |job.steps| == |old(job.steps)|
    ensures match input.start
            case StartConflict => job.steps[i].status == Pending && job.steps[i].run == None
            case StartError => job.steps[i].status == Failed
            case StartedRun(run) =>
              && job.steps[i].run == Some(run)
              && job.steps[i].status
                 == if input.jobRaises then (if input.cancelledMeanwhile then Failed else Running)
                    else if input.ended == Some(RunTable.Completed) && !input.cancelledMeanwhile then Completed
                    else Failed
    ensures !input.start.StartConflict? && !outcome.Escaped? ==>
              && Open(job.steps) < Open(old(job.steps))
              && outcome == if Closed(job.status) then Stopped else Chained
    ensures !input.cancelledMeanwhile ==> !Closed(job.status) || job.status.BatchCompleted?
  {
    hide Count, FirstWith;
    RunningMeansOpen(job.State(), i);
    match input.start {
      case StartConflict =>
        BatchProtocol.ResetKeeps(job.State(), i);
        OnlyOneRuns(job.State(), i);
        job.ResetStepToPending(i);
        NoneRunsAfter(old(job.State()), i, job.steps);
        return Requeued;
      case StartError =>
        BatchProtocol.FinalizeKeeps(job.State(), i, RunTable.Failed);
        OnlyOneRuns(job.State(), i);
        job.FinalizeStep(i, RunTable.Failed);
        NoneRunsAfter(old(job.State()), i, job.steps);
      case StartedRun(run) =>
        BatchProtocol.AttachKeeps(job.State(), i, run);
        job.AttachGenerationRun(i, run);
        if input.jobRaises {
          assert job.steps[i].status.Running? && job.steps[i].run.Some?;
          EscapeJob(job, input);
          return Escaped;
        }
        ghost var attached := job.State();
        SettleFromRun(job, i, input);
        NoneRunsAfterAll(attached, i, job.State());
    }
    WorkLeftIsPending(job.State());
    outcome := MaybeChainNextStep(job);
  }

  /** How many of the first `n` calls found their step's generation in conflict. */
  function Conflicts(inputs: nat -> CallInput, n: nat): nat {
    if n == 0 then 0 else Conflicts(inputs, n - 1) + if inputs(n - 1).start.StartConflict? then 1 else 0
  }

  /** `calls` calls are enough for this many steps when each may be tried `retries` times more. */
  function TriesFor(steps: nat, retries: nat): nat {
    (retries + 1) * steps
  }

  lemma OneStepTries(steps: nat, retries: nat)
    ensures TriesFor(steps + 1, retries) == TriesFor(steps, retries) + retries + 1
  {
  }

  lemma {:induction false} FewerStepsTries(a: nat, b: nat, retries: nat)
    requires a <= b
    ensures TriesFor(a, retries) <= TriesFor(b, retries)
    decreases b
  {
    if a < b {
      FewerStepsTries(a, b - 1, retries);
      OneStepTries(b - 1, retries);
    }
  }

  /** The account of a chain between calls; `failures` counts the calls that raised in a row. */
  ghost predicate ChainSoFar(
    was: nat, left: nat, inputs: nat -> CallInput, retries: nat, calls: nat, failures: nat)
  {
    && left <= was
    && calls + left <= was + Conflicts(inputs, calls)
    && calls + TriesFor(left, retries) <= TriesFor(was, retries) + failures
    && failures <= calls
    && forall k: nat | calls - failures <= k < calls :: inputs(k).start.StartConflict?
  }

  lemma ChainSettles(
    was: nat, left: nat, now: nat, inputs: nat -> CallInput, retries: nat, calls: nat, failures: nat)
    requires ChainSoFar(was, left, inputs, retries, calls, failures) && failures <= retries && now < left
    ensures ChainSoFar(was, now, inputs, retries, calls + 1, 0)
  {
    FewerStepsTries(now, left - 1, retries);
    OneStepTries(left - 1, retries);
    hide TriesFor;
  }

  lemma ChainConflicts(
    was: nat, left: nat, now: nat, inputs: nat -> CallInput, retries: nat, calls: nat, failures: nat)
    requires ChainSoFar(was, left, inputs, retries, calls, failures) && now <= left
    requires inputs(calls).start.StartConflict?
    ensures ChainSoFar(was, now, inputs, retries, calls + 1, failures + 1)
  {
    FewerStepsTries(now, left, retries);
    hide TriesFor;
  }

  /** With work left, even a chain that is given up has made no more calls than its steps allow. */
  lemma ChainBound(was: nat, left: nat, inputs: nat -> CallInput, retries: nat, calls: nat, failures: nat)
    requires ChainSoFar(was, left, inputs, retries, calls, failures)
    requires failures <= retries || (failures == retries + 1 && left > 0)
    ensures calls <= TriesFor(was, retries) + (if left > 0 then 0 else failures)
    ensures left == 0 && failures == 0 ==> calls <= TriesFor(was, retries)
  {
    if left > 0 {
      FewerStepsTries(1, left, retries);
      OneStepTries(0, retries);
    }
  }

  /**
   The chain of tasks from a new or quiet batch, when no job raises.  A call that meets a conflict is
   tried again by the queue, `retries` times in a row at most.  Each call but those settles a step; so
   the chain either closes the batch, within one call per open step and one per conflict, or is given
   up after `retries + 1` conflicts in a row.
   */
  method RunChain(job: BatchJob, inputs: nat -> CallInput, retries: nat) returns (calls: nat, gaveUp: bool)
    requires job.Valid() && !Closed(job.status) && !HasRunning(job.steps)
    requires forall k: nat :: !inputs(k).jobRaises
    modifies job
    ensures job.Valid() && (gaveUp <==> !Closed(job.status))
    ensures 1 <= calls
    ensures calls + Open(job.steps) <= Open(old(job.steps)) + Conflicts(inputs, calls)
    ensures calls <= TriesFor(Open(old(job.steps)), retries)
    ensures gaveUp ==>
              calls > retries && forall k: nat | calls - retries - 1 <= k < calls :: inputs(k).start.StartConflict?
    ensures !gaveUp && (forall k: nat :: !inputs(k).cancelledMeanwhile) ==> job.status.BatchCompleted?
  {
    ghost var was := Open(job.steps);
    calls := 0;
    var failures := 0;
    OpenBatchHasWork(job.State());
    while !Closed(job.status) && failures <= retries
      invariant job.Valid() && !HasRunning(job.steps)
      invariant Closed(job.status) ==> calls >= 1 && failures == 0
      invariant failures <= retries + 1
      invariant ChainSoFar(was, Open(job.steps), inputs, retries, calls, failures)
      invariant (forall k: nat :: !inputs(k).cancelledMeanwhile) && Closed(job.status) ==> job.status.BatchCompleted?
      decreases Open(job.steps), retries + 1 - failures
    {
      hide ChainSoFar, Conflicts, TriesFor;
      ghost var left := Open(job.steps);
      var outcome := ProcessBatch(job, inputs(calls));
      if outcome.Requeued? {
        ChainConflicts(was, left, Open(job.steps), inputs, retries, calls, failures);
        failures := failures + 1;
      } else {
        ChainSettles(was, left, Open(job.steps), inputs, retries, calls, failures);
        failures := 0;
      }
      calls := calls + 1;
    }
    if !Closed(job.status) {
      OpenBatchHasWork(job.State());
    }
    ChainBound(was, Open(job.steps), inputs, retries, calls, failures);
    gaveUp := !Closed(job.status);
  }

  /** An open batch has open steps. */
  lemma OpenBatchHasWork(b: Batch)
    requires BatchProtocol.Inv(b) && !Closed(b.status)
    ensures Open(b.steps) > 0
  {
    BatchProtocol.OpenIffPositive(b.steps);
  }

  /** One turn of the claim loop. */
  lemma ClaimLoopOnce(b: Batch, facts: nat -> NodeFacts)
    ensures var i := FirstWith(b.steps, Pending);
            if i == |b.steps| then ClaimLoop(b, facts) == (MaybeFinalize(b), None)
            else
              && Count(SetStatus(b.steps, i, Skipped), Pending) < Count(b.steps, Pending)
              && Count(SetStatus(b.steps, i, Failed), Pending) < Count(b.steps, Pending)
              && match Decide(b.mode, facts(b.steps[i].node))
                 case SkipIt => ClaimLoop(b, facts) == ClaimLoop(Settle(b, i, Skipped), facts)
                 case BlockIt => ClaimLoop(b, facts) == ClaimLoop(Settle(b, i, Failed), facts)
                 case TakeIt => ClaimLoop(b, facts) == (b.(steps := SetStatus(b.steps, i, Running)), Some(i))
  {
    var i := FirstWith(b.steps, Pending);
    if i < |b.steps| {
      CountSomewhere(b.steps, i);
      CountSet(b.steps, i, b.steps[i].(status := Skipped), Pending);
      CountSet(b.steps, i, b.steps[i].(status := Failed), Pending);
    }
  }

  lemma {:induction false} CountTake(steps: seq<Step>, i: nat, s: StepStatus)
    requires i < |steps|
    ensures Count(steps[..i + 1], s) == Count(steps[..i], s) + (if steps[i].status == s then 1 else 0)
  {
    if i > 0 {
      CountTake(steps[1..], i - 1, s);
      assert steps[..i + 1][1..] == steps[1..][..i];
      assert steps[..i][1..] == steps[1..][..i - 1];
    } else {
      assert steps[..1][1..] == [] && steps[..0] == [];
    }
  }
}
