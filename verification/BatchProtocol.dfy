/** What every transition of a batch keeps, over any interleaving of claims, finalisations and cancels. */
module BatchProtocol {
  import opened Option
  import opened BatchState
  import RunTable

  /** In position order: settled steps, then at most one running step, then pending steps. */
  ghost predicate Frontier(steps: seq<Step>) {
    forall i, j | 0 <= i < j < |steps| && !steps[j].status.Pending? :: Terminal(steps[i].status)
  }

  predicate CountersAgree(b: Batch) {
    && b.completed == Count(b.steps, Completed)
    && b.failed == Count(b.steps, Failed)
    && b.skipped == Count(b.steps, Skipped)
    && b.total == |b.steps|
  }

  /** A batch is open exactly while it has work left. */
  predicate OpenWhileWork(b: Batch) {
    !Closed(b.status) <==> HasOpen(b.steps)
  }

  ghost predicate Inv(b: Batch) {
    Frontier(b.steps) && CountersAgree(b) && OpenWhileWork(b)
  }

  datatype Event =
    | ClaimStep(facts: nat -> NodeFacts)
    | FinalizeStep(index: nat, runStatus: RunTable.Status)
    | AttachRun(index: nat, run: RunTable.RunId)
    | ResetStep(index: nat)
    | CancelBatch

  predicate Enabled(b: Batch, e: Event) {
    match e
    case ClaimStep(_) => true
    case FinalizeStep(i, _) => i < |b.steps|
    case AttachRun(i, _) => i < |b.steps|
    case ResetStep(i) => i < |b.steps| && b.steps[i].status.Running?
    case CancelBatch => true
  }

  function Step(b: Batch, e: Event): Batch
    requires Enabled(b, e)
  {
    match e
    case ClaimStep(facts) => Claim(b, facts).0
    case FinalizeStep(i, runStatus) => Finalize(b, i, runStatus)
    case AttachRun(i, run) => Attach(b, i, run)
    case ResetStep(i) => Reset(b, i)
    case CancelBatch => Cancel(b)
  }

  predicate Playable(b: Batch, es: seq<Event>)
    decreases |es|
  {
    es == [] || (Enabled(b, es[0]) && Playable(Step(b, es[0]), es[1..]))
  }

  function Play(b: Batch, es: seq<Event>): Batch
    requires Playable(b, es)
    decreases |es|
  {
    if es == [] then b else Play(Step(b, es[0]), es[1..])
  }

  // ---------------------------------------------------------------- counting

  lemma {:induction false} CountsPartition(steps: seq<BatchState.Step>)
    ensures Count(steps, Pending) + Count(steps, Running) + Count(steps, Completed)
          + Count(steps, Failed) + Count(steps, Skipped) == |steps|
  {
    if steps != [] {
      CountsPartition(steps[1..]);
    }
  }

  lemma {:induction false} OpenIffPositive(steps: seq<BatchState.Step>)
    ensures HasOpen(steps) <==> Open(steps) > 0
  {
    if steps != [] {
      OpenIffPositive(steps[1..]);
      if HasOpen(steps[1..]) {
        var i :| 0 <= i < |steps[1..]| && !Terminal(steps[1..][i].status);
        assert !Terminal(steps[i + 1].status);
      }
      if HasOpen(steps) {
        var i :| 0 <= i < |steps| && !Terminal(steps[i].status);
        assert i > 0 ==> steps[1..][i - 1] == steps[i];
      }
    }
  }

  /** How settling one open step moves the counts. */
  lemma SettleCounts(b: Batch, i: nat, s: StepStatus)
    requires i < |b.steps| && Terminal(s) && !Terminal(b.steps[i].status)
    ensures CountersAgree(b) ==> CountersAgree(Settle(b, i, s))
    ensures Open(Settle(b, i, s).steps) == Open(b.steps) - 1
  {
    var row := b.steps[i].(status := s);
    CountSet(b.steps, i, row, Pending);
    CountSet(b.steps, i, row, Running);
    CountSet(b.steps, i, row, Completed);
    CountSet(b.steps, i, row, Failed);
    CountSet(b.steps, i, row, Skipped);
  }

  /** Moving an open step between pending and running leaves the counters and the open count alone. */
  lemma ReopenCounts(b: Batch, i: nat, row: BatchState.Step)
    requires i < |b.steps| && !Terminal(b.steps[i].status) && !Terminal(row.status)
    ensures CountersAgree(b) ==> CountersAgree(b.(steps := b.steps[i := row]))
    ensures Open(b.steps[i := row]) == Open(b.steps)
  {
    CountSet(b.steps, i, row, Pending);
    CountSet(b.steps, i, row, Running);
    CountSet(b.steps, i, row, Completed);
    CountSet(b.steps, i, row, Failed);
    CountSet(b.steps, i, row, Skipped);
  }

  // ---------------------------------------------------------------- the invariant, transition by transition

  lemma FinalizeStateKeeps(b: Batch)
    requires Frontier(b.steps) && CountersAgree(b) && (Closed(b.status) ==> !HasOpen(b.steps))
    ensures Inv(MaybeFinalize(b))
  {
  }

  lemma SettleKeepsFrontier(steps: seq<BatchState.Step>, i: nat, s: StepStatus)
    requires Frontier(steps) && i < |steps| && Terminal(s)
    requires forall k | 0 <= k < i :: Terminal(steps[k].status)
    ensures Frontier(SetStatus(steps, i, s))
  {
  }

  /** In a frontier, everything before the first pending step, if nothing runs, is settled. */
  lemma BeforeFirstPending(steps: seq<BatchState.Step>)
    requires Frontier(steps) && !HasRunning(steps)
    ensures forall k | 0 <= k < FirstWith(steps, Pending) :: Terminal(steps[k].status)
  {
    forall k | 0 <= k < FirstWith(steps, Pending)
      ensures Terminal(steps[k].status)
    {
      assert steps[k].status != Pending && steps[k].status != Running;
    }
  }

  lemma SettleKeepsNoRunning(steps: seq<BatchState.Step>, i: nat, s: StepStatus)
    requires i < |steps| && !s.Running? && !HasRunning(steps)
    ensures !HasRunning(SetStatus(steps, i, s))
  {
    var steps' := SetStatus(steps, i, s);
    assert forall k | 0 <= k < |steps'| && k != i :: steps'[k] == steps[k];
    assert forall k | 0 <= k < |steps'| :: !steps'[k].status.Running?;
  }

  /** What the claim loop does from a state with work left and nothing running. */
  lemma {:induction false} ClaimLoopKeeps(b: Batch, facts: nat -> NodeFacts)
    requires Frontier(b.steps) && CountersAgree(b) && !Closed(b.status) && !HasRunning(b.steps)
    ensures Inv(ClaimLoop(b, facts).0)
    ensures ClaimLoop(b, facts).0.mode == b.mode && |ClaimLoop(b, facts).0.steps| == |b.steps|
    ensures var (b', taken) := ClaimLoop(b, facts);
            && Open(b'.steps) <= Open(b.steps)
            && (taken.Some? ==>
                  && taken.value < |b'.steps| && b'.steps[taken.value].status.Running?
                  && !Closed(b'.status))
            && (taken.None? ==> b'.status.BatchCompleted? && !HasOpen(b'.steps))
    decreases Count(b.steps, Pending)
  {
    var i := FirstWith(b.steps, Pending);
    if i == |b.steps| {
      assert !HasOpen(b.steps) by {
        forall k | 0 <= k < |b.steps| ensures Terminal(b.steps[k].status) {
          assert b.steps[k].status != Pending && b.steps[k].status != Running;
        }
      }
    } else {
      BeforeFirstPending(b.steps);
      CountSomewhere(b.steps, i);
      CountSet(b.steps, i, b.steps[i].(status := Skipped), Pending);
      CountSet(b.steps, i, b.steps[i].(status := Failed), Pending);
      match Decide(b.mode, facts(b.steps[i].node))
      case SkipIt => ClaimSettleStep(b, i, Skipped); ClaimLoopKeeps(Settle(b, i, Skipped), facts);
      case BlockIt => ClaimSettleStep(b, i, Failed); ClaimLoopKeeps(Settle(b, i, Failed), facts);
      case TakeIt => ClaimTakeStep(b, i);
    }
  }

  lemma ClaimSettleStep(b: Batch, i: nat, s: StepStatus)
    requires Frontier(b.steps) && CountersAgree(b) && !HasRunning(b.steps)
    requires i < |b.steps| && b.steps[i].status.Pending? && Terminal(s)
    requires forall k | 0 <= k < i :: Terminal(b.steps[k].status)
    ensures var b' := Settle(b, i, s);
            && Frontier(b'.steps) && CountersAgree(b') && !HasRunning(b'.steps)
            && b'.status == b.status && b'.mode == b.mode && Open(b'.steps) == Open(b.steps) - 1
  {
    SettleKeepsFrontier(b.steps, i, s);
    SettleCounts(b, i, s);
    SettleKeepsNoRunning(b.steps, i, s);
  }

  lemma ClaimTakeStep(b: Batch, i: nat)
    requires Frontier(b.steps) && CountersAgree(b) && !Closed(b.status)
    requires i < |b.steps| && b.steps[i].status.Pending?
    requires forall k | 0 <= k < i :: Terminal(b.steps[k].status)
    ensures var b' := b.(steps := SetStatus(b.steps, i, Running));
            Inv(b') && Open(b'.steps) == Open(b.steps)
  {
    var row := b.steps[i].(status := Running);
    ReopenCounts(b, i, row);
    assert !Terminal(SetStatus(b.steps, i, Running)[i].status);
  }

  lemma ClaimKeeps(b: Batch, facts: nat -> NodeFacts)
    requires Inv(b)
    ensures Inv(Claim(b, facts).0)
  {
    if !Closed(b.status) && !HasRunning(b.steps) {
      ClaimLoopKeeps(if b.status.BatchPending? then b.(status := BatchRunning) else b, facts);
    }
  }

  lemma FinalizeKeeps(b: Batch, i: nat, runStatus: RunTable.Status)
    requires Inv(b) && i < |b.steps|
    ensures Inv(Finalize(b, i, runStatus))
    ensures b.steps[i].status.Running? ==> Open(Finalize(b, i, runStatus).steps) == Open(b.steps) - 1
  {
    if b.steps[i].status.Running? {
      var s := if runStatus.Completed? then Completed else Failed;
      SettleKeepsFrontier(b.steps, i, s);
      SettleCounts(b, i, s);
      assert !Terminal(b.steps[i].status);
      FinalizeStateKeeps(Settle(b, i, s));
    }
  }

  lemma ResetKeeps(b: Batch, i: nat)
    requires Inv(b) && i < |b.steps| && b.steps[i].status.Running?
    ensures Inv(Reset(b, i))
    ensures Open(Reset(b, i).steps) == Open(b.steps)
  {
    var row := b.steps[i].(status := Pending, run := None);
    ReopenCounts(b, i, row);
    assert !Terminal(b.steps[i].status) && !Terminal(Reset(b, i).steps[i].status);
  }

  lemma AttachKeeps(b: Batch, i: nat, run: RunTable.RunId)
    requires Inv(b) && i < |b.steps|
    ensures Inv(Attach(b, i, run))
    ensures Open(Attach(b, i, run).steps) == Open(b.steps)
  {
    var row := b.steps[i].(run := Some(run));
    CountSet(b.steps, i, row, Pending);
    CountSet(b.steps, i, row, Running);
    CountSet(b.steps, i, row, Completed);
    CountSet(b.steps, i, row, Failed);
    CountSet(b.steps, i, row, Skipped);
    var steps' := Attach(b, i, run).steps;
    assert forall k | 0 <= k < |steps'| :: steps'[k].status == b.steps[k].status;
    if HasOpen(b.steps) {
      var k :| 0 <= k < |b.steps| && !Terminal(b.steps[k].status);
      assert !Terminal(steps'[k].status);
    }
  }

  lemma {:induction false} CancelCounts(steps: seq<BatchState.Step>, done: seq<BatchState.Step>)
    requires |done| == |steps| && forall i | 0 <= i < |steps| :: done[i] == CancelledStep(steps[i])
    ensures Count(done, Completed) == Count(steps, Completed)
    ensures Count(done, Failed) == Count(steps, Failed) + Count(steps, Running)
    ensures Count(done, Skipped) == Count(steps, Skipped) + Count(steps, Pending)
  {
    if steps != [] {
      CancelCounts(steps[1..], done[1..]);
    }
  }

  lemma CancelKeeps(b: Batch)
    requires Inv(b)
    ensures Inv(Cancel(b))
  {
    if !Closed(b.status) {
      CancelCounts(b.steps, Cancel(b).steps);
    }
  }

  lemma StepKeepsInv(b: Batch, e: Event)
    requires Inv(b) && Enabled(b, e)
    ensures Inv(Step(b, e))
  {
    match e
    case ClaimStep(facts) => ClaimKeeps(b, facts);
    case FinalizeStep(i, runStatus) => FinalizeKeeps(b, i, runStatus);
    case AttachRun(i, run) => AttachKeeps(b, i, run);
    case ResetStep(i) => ResetKeeps(b, i);
    case CancelBatch => CancelKeeps(b);
  }

  lemma {:induction false} NewBatchCounts(steps: seq<BatchState.Step>)
    requires forall i | 0 <= i < |steps| :: steps[i].status.Pending?
    ensures Count(steps, Pending) == |steps| && Count(steps, Running) == 0
    ensures Count(steps, Completed) == 0 && Count(steps, Failed) == 0 && Count(steps, Skipped) == 0
  {
    if steps != [] {
      NewBatchCounts(steps[1..]);
    }
  }

  lemma NewBatchInv(mode: Mode, nodes: seq<nat>)
    requires nodes != []
    ensures Inv(NewBatch(mode, nodes)) && Open(NewBatch(mode, nodes).steps) == |nodes|
    ensures !HasRunning(NewBatch(mode, nodes).steps)
  {
    var b := NewBatch(mode, nodes);
    NewBatchCounts(b.steps);
    assert !Terminal(b.steps[0].status);
  }

  // ---------------------------------------------------------------- whole runs

  lemma {:induction false} InvAlways(b: Batch, es: seq<Event>)
    requires Inv(b) && Playable(b, es)
    ensures Inv(Play(b, es))
    decreases |es|
  {
    if es != [] {
      StepKeepsInv(b, es[0]);
      InvAlways(Step(b, es[0]), es[1..]);
    }
  }

  /** Steps run one at a time and in order, at every reachable state. */
  lemma OneAtATimeInOrder(mode: Mode, nodes: seq<nat>, es: seq<Event>, i: nat)
    requires nodes != [] && Playable(NewBatch(mode, nodes), es)
    requires i < |Play(NewBatch(mode, nodes), es).steps|
    requires Play(NewBatch(mode, nodes), es).steps[i].status.Running?
    ensures var steps := Play(NewBatch(mode, nodes), es).steps;
            && (forall k | 0 <= k < i :: Terminal(steps[k].status))
            && (forall k | i < k < |steps| :: steps[k].status.Pending?)
  {
    NewBatchInv(mode, nodes);
    InvAlways(NewBatch(mode, nodes), es);
    var steps := Play(NewBatch(mode, nodes), es).steps;
    forall k | i < k < |steps| ensures steps[k].status.Pending? {
      assert !Terminal(steps[i].status);
    }
  }

  /** Conservation: the counters are the true counts, and a closed batch accounts for every step. */
  lemma CountersAreExact(mode: Mode, nodes: seq<nat>, es: seq<Event>)
    requires nodes != [] && Playable(NewBatch(mode, nodes), es)
    ensures var b := Play(NewBatch(mode, nodes), es);
            && CountersAgree(b)
            && (Closed(b.status) <==> b.completed + b.failed + b.skipped == b.total)
            && (Closed(b.status) ==> forall i | 0 <= i < |b.steps| :: Terminal(b.steps[i].status))
  {
    NewBatchInv(mode, nodes);
    InvAlways(NewBatch(mode, nodes), es);
    var b := Play(NewBatch(mode, nodes), es);
    CountsPartition(b.steps);
    OpenIffPositive(b.steps);
  }

  // ---------------------------------------------------------------- what happens to a step

  /** When the claim loop passes a pending step over, and how. */
  lemma DecideMeans(mode: Mode, f: NodeFacts)
    ensures Decide(mode, f) == SkipIt <==> mode == SkipExisting && (f.hasLive || f.hasWorkspaceDraft)
    ensures Decide(mode, f) == BlockIt <==>
              mode == RegenerateAll && f.hasVersion && !f.canClear && (f.quizCount > 0 || f.hasLive)
  {
  }

  /** What a claim makes of one step: pending steps are passed over up to the first that can be taken. */
  ghost predicate Claimed(s: BatchState.Step, after: BatchState.Step, i: nat, taken: Option<nat>, choice: Choice) {
    if s.status != Pending || (taken.Some? && taken.value < i) then after == s
    else if taken == Some(i) then choice == TakeIt && after == s.(status := Running)
    else choice != TakeIt && after == s.(status := if choice == SkipIt then Skipped else Failed)
  }

  ghost predicate ClaimedAll(b: Batch, facts: nat -> NodeFacts, after: Batch, taken: Option<nat>) {
    && |after.steps| == |b.steps| && after.mode == b.mode
    && (forall i | 0 <= i < |b.steps| ::
          Claimed(b.steps[i], after.steps[i], i, taken, Decide(b.mode, facts(b.steps[i].node))))
    && (taken.Some? ==> taken.value < |b.steps| && b.steps[taken.value].status == Pending && after.status == b.status)
  }

  lemma ClaimedLater(b: Batch, facts: nat -> NodeFacts, k: nat, s: StepStatus, after: Batch, taken: Option<nat>)
    requires k < |b.steps| && b.steps[k].status == Pending && (forall j | 0 <= j < k :: b.steps[j].status != Pending)
    requires Decide(b.mode, facts(b.steps[k].node)) == if s == Skipped then SkipIt else BlockIt
    requires s in {Skipped, Failed} && ClaimedAll(Settle(b, k, s), facts, after, taken)
    ensures ClaimedAll(b, facts, after, taken)
  {
    hide Decide;
    var b' := Settle(b, k, s);
    assert taken.Some? ==> b'.steps[taken.value].status == Pending && taken.value != k;
    forall i | 0 <= i < |b.steps|
      ensures Claimed(b.steps[i], after.steps[i], i, taken, Decide(b.mode, facts(b.steps[i].node)))
    {
      assert Claimed(b'.steps[i], after.steps[i], i, taken, Decide(b'.mode, facts(b'.steps[i].node)));
    }
  }

  lemma {:induction false} ClaimLoopMeans(b: Batch, facts: nat -> NodeFacts)
    ensures ClaimedAll(b, facts, ClaimLoop(b, facts).0, ClaimLoop(b, facts).1)
    decreases Count(b.steps, Pending)
  {
    hide Decide, ClaimedAll;
    var k := FirstWith(b.steps, Pending);
    var (after, taken) := ClaimLoop(b, facts);
    if k == |b.steps| {
      NothingClaimed(b, facts, after);
    } else {
      CountSomewhere(b.steps, k);
      CountSet(b.steps, k, b.steps[k].(status := Skipped), Pending);
      CountSet(b.steps, k, b.steps[k].(status := Failed), Pending);
      match Decide(b.mode, facts(b.steps[k].node))
      case SkipIt =>
        ClaimLoopMeans(Settle(b, k, Skipped), facts);
        ClaimedLater(b, facts, k, Skipped, after, taken);
      case BlockIt =>
        ClaimLoopMeans(Settle(b, k, Failed), facts);
        ClaimedLater(b, facts, k, Failed, after, taken);
      case TakeIt =>
        FirstClaimed(b, facts, k);
    }
  }

  lemma NothingClaimed(b: Batch, facts: nat -> NodeFacts, after: Batch)
    requires forall j | 0 <= j < |b.steps| :: b.steps[j].status != Pending
    requires after.steps == b.steps && after.mode == b.mode
    ensures ClaimedAll(b, facts, after, None)
  {
  }

  lemma FirstClaimed(b: Batch, facts: nat -> NodeFacts, k: nat)
    requires k < |b.steps| && b.steps[k].status == Pending && (forall j | 0 <= j < k :: b.steps[j].status != Pending)
    requires Decide(b.mode, facts(b.steps[k].node)) == TakeIt
    ensures ClaimedAll(b, facts, b.(steps := SetStatus(b.steps, k, Running)), Some(k))
  {
    hide Decide;
  }

  /** A claim on an open batch with nothing running, step by step; any other claim does nothing. */
  lemma ClaimMeans(b: Batch, facts: nat -> NodeFacts, i: nat)
    requires i < |b.steps|
    ensures var (b', taken) := Claim(b, facts);
            && |b'.steps| == |b.steps|
            && if Closed(b.status) || HasRunning(b.steps) then b' == b && taken == None
               else
                 var s, after, choice := b.steps[i], b'.steps[i], Decide(b.mode, facts(b.steps[i].node));
                 && (taken == Some(i) <==> after.status == Running)
                 && (taken == Some(i) ==>
                       b'.status == if b.status == BatchPending then BatchRunning else b.status)
                 && if s.status != Pending || (taken.Some? && taken.value < i) then after == s
                    else if taken == Some(i) then choice == TakeIt && after == s.(status := Running)
                    else choice != TakeIt && after == s.(status := if choice == SkipIt then Skipped else Failed)
  {
    if !(Closed(b.status) || HasRunning(b.steps)) {
      var start := if b.status.BatchPending? then b.(status := BatchRunning) else b;
      ClaimLoopMeans(start, facts);
      assert Claimed(start.steps[i], ClaimLoop(start, facts).0.steps[i], i, ClaimLoop(start, facts).1,
                     Decide(b.mode, facts(b.steps[i].node)));
      hide ClaimLoop, Decide;
    }
  }

  /** The life of a step: what each event other than a claim does to it. */
  lemma StepMoves(b: Batch, e: Event, i: nat)
    requires Enabled(b, e) && i < |b.steps| && !e.ClaimStep?
    ensures |Step(b, e).steps| == |b.steps|
    ensures var s, s' := b.steps[i], Step(b, e).steps[i];
            && s'.node == s.node
            && s'.run == (if e == ResetStep(i) then None
                          else if e.AttachRun? && e.index == i then Some(e.run) else s.run)
            && match e
               case FinalizeStep(k, runStatus) =>
                 s'.status == if k != i || s.status != Running then s.status
                              else if runStatus == RunTable.Completed then Completed else Failed
               case AttachRun(_, _) => s'.status == s.status
               case ResetStep(k) => s'.status == if k == i then Pending else s.status
               case CancelBatch =>
                 s'.status == if b.status in {BatchCompleted, BatchFailed, BatchCancelled} then s.status
                              else if s.status == Running then Failed
                              else if s.status == Pending then Skipped
                              else s.status
  {
    hide Count;
  }

  /** Why a step settled, at the event that settled it. */
  ghost predicate SettledBy(b: Batch, e: Event, i: nat, outcome: StepStatus)
    requires i < |b.steps|
  {
    match outcome
    case Completed => e == FinalizeStep(i, RunTable.Completed) && b.steps[i].status == Running
    case Failed =>
      || (e.FinalizeStep? && e.index == i && e.runStatus != RunTable.Completed && b.steps[i].status == Running)
      || (e == CancelBatch && b.steps[i].status == Running)
      || (e.ClaimStep? && b.steps[i].status == Pending
          && b.mode == RegenerateAll && e.facts(b.steps[i].node).hasVersion)
    case Skipped =>
      || (e == CancelBatch && b.steps[i].status == Pending)
      || (e.ClaimStep? && b.steps[i].status == Pending
          && b.mode == SkipExisting
          && (e.facts(b.steps[i].node).hasLive || e.facts(b.steps[i].node).hasWorkspaceDraft))
    case _ => false
  }

  lemma SettlesBecause(b: Batch, e: Event, i: nat)
    requires Enabled(b, e) && i < |b.steps| && !Terminal(b.steps[i].status)
    ensures i < |Step(b, e).steps|
    ensures Terminal(Step(b, e).steps[i].status) ==> SettledBy(b, e, i, Step(b, e).steps[i].status)
  {
    if e.ClaimStep? {
      ClaimMeans(b, e.facts, i);
      DecideMeans(b.mode, e.facts(b.steps[i].node));
    } else {
      StepMoves(b, e, i);
    }
    hide Claim, Finalize, Attach, Reset, Cancel, Decide;
  }

  /**
   Over any run of events, a settled step was settled by one event that explains it: a completed step
   was running and was finalised by a completed run; a failed one by a run that did not complete, by a
   cancel while it ran or by a blocked claim; a skipped one by a claim or by a cancel while it waited.
   */
  lemma {:induction false} SettledForAReason(b: Batch, es: seq<Event>, i: nat) returns (j: nat)
    requires Playable(b, es) && i < |b.steps| && !Terminal(b.steps[i].status)
    requires i < |Play(b, es).steps| && Terminal(Play(b, es).steps[i].status)
    ensures j < |es| && Playable(b, es[..j]) && i < |Play(b, es[..j]).steps|
    ensures SettledBy(Play(b, es[..j]), es[j], i, Play(b, es).steps[i].status)
    decreases |es|
  {
    var b' := Step(b, es[0]);
    SettlesBecause(b, es[0], i);
    if Terminal(b'.steps[i].status) {
      SettledForEver(b', es[1..], i);
      j := 0;
      assert es[..0] == [];
    } else {
      var k := SettledForAReason(b', es[1..], i);
      j := k + 1;
      assert es[..j][1..] == es[1..][..k];
    }
  }

  lemma CompletedByItsRun(mode: Mode, nodes: seq<nat>, es: seq<Event>, i: nat) returns (j: nat)
    requires Playable(NewBatch(mode, nodes), es)
    requires i < |nodes| && i < |Play(NewBatch(mode, nodes), es).steps|
    requires Play(NewBatch(mode, nodes), es).steps[i].status == Completed
    ensures j < |es| && es[j] == FinalizeStep(i, RunTable.Completed)
    ensures Playable(NewBatch(mode, nodes), es[..j])
    ensures i < |Play(NewBatch(mode, nodes), es[..j]).steps|
            && Play(NewBatch(mode, nodes), es[..j]).steps[i].status == Running
  {
    j := SettledForAReason(NewBatch(mode, nodes), es, i);
  }

  predicate SameProgress(a: Batch, b: Batch) {
    && a.status == b.status && |a.steps| == |b.steps|
    && a.completed == b.completed && a.failed == b.failed && a.skipped == b.skipped
    && forall i | 0 <= i < |a.steps| :: a.steps[i].status == b.steps[i].status
  }

  /** A closed batch is frozen: a worker that finalises after a cancel changes nothing. */
  lemma {:induction false} ClosedIsFrozen(b: Batch, es: seq<Event>)
    requires Inv(b) && Closed(b.status) && Playable(b, es)
    ensures SameProgress(b, Play(b, es))
    decreases |es|
  {
    if es != [] {
      var e := es[0];
      StepKeepsInv(b, e);
      if e.FinalizeStep? || e.ResetStep? {
        assert Terminal(b.steps[e.index].status);
      }
      ClosedIsFrozen(Step(b, e), es[1..]);
    }
  }

  lemma {:induction false} ClaimLoopKeepsSettled(b: Batch, facts: nat -> NodeFacts, i: nat)
    requires i < |b.steps| && Terminal(b.steps[i].status)
    ensures |ClaimLoop(b, facts).0.steps| == |b.steps|
    ensures ClaimLoop(b, facts).0.steps[i].status == b.steps[i].status
    decreases Count(b.steps, Pending)
  {
    var k := FirstWith(b.steps, Pending);
    if k < |b.steps| {
      CountSomewhere(b.steps, k);
      CountSet(b.steps, k, b.steps[k].(status := Skipped), Pending);
      CountSet(b.steps, k, b.steps[k].(status := Failed), Pending);
      match Decide(b.mode, facts(b.steps[k].node))
      case SkipIt => ClaimLoopKeepsSettled(Settle(b, k, Skipped), facts, i);
      case BlockIt => ClaimLoopKeepsSettled(Settle(b, k, Failed), facts, i);
      case TakeIt =>
    }
  }

  /** A settled step keeps its outcome for ever. */
  lemma {:induction false} SettledForEver(b: Batch, es: seq<Event>, i: nat)
    requires Playable(b, es) && i < |b.steps| && Terminal(b.steps[i].status)
    ensures i < |Play(b, es).steps| && Play(b, es).steps[i].status == b.steps[i].status
    decreases |es|
  {
    if es != [] {
      var e := es[0];
      if e.ClaimStep? {
        ClaimLoopKeepsSettled(if b.status.BatchPending? then b.(status := BatchRunning) else b, e.facts, i);
      }
      SettledForEver(Step(b, e), es[1..], i);
    }
  }
}
