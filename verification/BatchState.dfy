/** A generate-all batch as a value: its steps, its redundant counters, and each committed transition. */
module BatchState {
  import opened Option
  import RunTable

  datatype StepStatus = Pending | Running | Completed | Failed | Skipped

  predicate Terminal(s: StepStatus) {
    s.Completed? || s.Failed? || s.Skipped?
  }

  /** A step, in position order; `run` is the generation run attached to it. */
  datatype Step = Step(node: nat, status: StepStatus, run: Option<RunTable.RunId>)

  datatype BatchStatus = BatchPending | BatchRunning | BatchCompleted | BatchFailed | BatchCancelled

  predicate Closed(s: BatchStatus) {
    s.BatchCompleted? || s.BatchFailed? || s.BatchCancelled?
  }

  datatype Mode = SkipExisting | RegenerateAll | OtherMode

  /** What the claim loop looks up about a topic. */
  datatype NodeFacts = NodeFacts(hasLive: bool, hasWorkspaceDraft: bool, hasVersion: bool,
                                 canClear: bool, quizCount: nat)

  datatype Choice = SkipIt | BlockIt | TakeIt

  function Decide(mode: Mode, f: NodeFacts): Choice {
    if mode.SkipExisting? && (f.hasLive || f.hasWorkspaceDraft) then SkipIt
    else if mode.RegenerateAll? && f.hasVersion && !f.canClear && (f.quizCount > 0 || f.hasLive) then BlockIt
    else TakeIt
  }

  datatype Batch = Batch(status: BatchStatus, mode: Mode, steps: seq<Step>, total: nat,
                         completed: nat, failed: nat, skipped: nat)

  function Count(steps: seq<Step>, s: StepStatus): nat {
    if steps == [] then 0 else (if steps[0].status == s then 1 else 0) + Count(steps[1..], s)
  }

  /** Steps not yet settled. */
  function Open(steps: seq<Step>): nat {
    Count(steps, Pending) + Count(steps, Running)
  }

  /** The claim query: the pending step with the lowest position, or the length. */
  function FirstWith(steps: seq<Step>, s: StepStatus): (i: nat)
    ensures i <= |steps|
    ensures i < |steps| ==> steps[i].status == s
    ensures forall k | 0 <= k < i :: steps[k].status != s
  {
    if steps == [] then 0
    else if steps[0].status == s then 0
    else
      var i := FirstWith(steps[1..], s);
      assert forall k | 1 <= k < i + 1 :: steps[k] == steps[1..][k - 1];
      i + 1
  }

  function SetStatus(steps: seq<Step>, i: nat, s: StepStatus): seq<Step>
    requires i < |steps|
  {
    steps[i := steps[i].(status := s)]
  }

  predicate HasOpen(steps: seq<Step>) {
    exists i | 0 <= i < |steps| :: !Terminal(steps[i].status)
  }

  function MaybeFinalize(b: Batch): Batch {
    if Closed(b.status) || HasOpen(b.steps) then b else b.(status := BatchCompleted)
  }

  /** A step settles as failed or skipped, or completed, and its counter follows. */
  function Settle(b: Batch, i: nat, s: StepStatus): Batch
    requires i < |b.steps| && Terminal(s)
  {
    var steps := SetStatus(b.steps, i, s);
    match s
    case Completed => b.(steps := steps, completed := b.completed + 1)
    case Failed => b.(steps := steps, failed := b.failed + 1)
    case Skipped => b.(steps := steps, skipped := b.skipped + 1)
  }

  lemma {:induction false} CountSet(steps: seq<Step>, i: nat, row: Step, s: StepStatus)
    requires i < |steps|
    ensures Count(steps[i := row], s) ==
            Count(steps, s) - (if steps[i].status == s then 1 else 0) + (if row.status == s then 1 else 0)
  {
    if i > 0 {
      CountSet(steps[1..], i - 1, row, s);
      assert steps[i := row][1..] == steps[1..][i - 1 := row];
    } else {
      assert steps[i := row][1..] == steps[1..];
    }
  }

  lemma {:induction false} CountSomewhere(steps: seq<Step>, i: nat)
    requires i < |steps|
    ensures Count(steps, steps[i].status) >= 1
  {
    if i > 0 {
      CountSomewhere(steps[1..], i - 1);
    }
  }

  /** The claim loop: skip or block pending steps in order until one can be taken. */
  function ClaimLoop(b: Batch, facts: nat -> NodeFacts): (Batch, Option<nat>)
    decreases Count(b.steps, Pending)
  {
    var i := FirstWith(b.steps, Pending);
    if i == |b.steps| then (MaybeFinalize(b), None)
    else
      CountSomewhere(b.steps, i);
      CountSet(b.steps, i, b.steps[i].(status := Skipped), Pending);
      CountSet(b.steps, i, b.steps[i].(status := Failed), Pending);
      match Decide(b.mode, facts(b.steps[i].node))
      case SkipIt => ClaimLoop(Settle(b, i, Skipped), facts)
      case BlockIt => ClaimLoop(Settle(b, i, Failed), facts)
      case TakeIt => (b.(steps := SetStatus(b.steps, i, Running)), Some(i))
  }

  predicate HasRunning(steps: seq<Step>) {
    FirstWith(steps, Running) < |steps|
  }

  function Claim(b: Batch, facts: nat -> NodeFacts): (Batch, Option<nat>) {
    if Closed(b.status) || HasRunning(b.steps) then (b, None)
    else ClaimLoop(if b.status.BatchPending? then b.(status := BatchRunning) else b, facts)
  }

  function Finalize(b: Batch, i: nat, runStatus: RunTable.Status): Batch
    requires i < |b.steps|
  {
    if !b.steps[i].status.Running? then b
    else MaybeFinalize(Settle(b, i, if runStatus.Completed? then Completed else Failed))
  }

  function Attach(b: Batch, i: nat, run: RunTable.RunId): Batch
    requires i < |b.steps|
  {
    b.(steps := b.steps[i := b.steps[i].(run := Some(run))])
  }

  /** `_reset_step_to_pending`; its callers have just read the step as running. */
  function Reset(b: Batch, i: nat): Batch
    requires i < |b.steps|
  {
    b.(steps := b.steps[i := b.steps[i].(status := Pending, run := None)])
  }

  function CancelledStep(s: Step): Step {
    if s.status.Running? then s.(status := Failed)
    else if s.status.Pending? then s.(status := Skipped)
    else s
  }

  function Cancel(b: Batch): Batch {
    if Closed(b.status) then b
    else b.(status := BatchCancelled,
            steps := seq(|b.steps|, i requires 0 <= i < |b.steps| => CancelledStep(b.steps[i])),
            failed := b.failed + Count(b.steps, Running),
            skipped := b.skipped + Count(b.steps, Pending))
  }

  /** A new batch over the planned topics. */
  function NewBatch(mode: Mode, nodes: seq<nat>): Batch {
    Batch(BatchPending, mode,
          seq(|nodes|, i requires 0 <= i < |nodes| => Step(nodes[i], Pending, None)), |nodes|, 0, 0, 0)
  }
}
