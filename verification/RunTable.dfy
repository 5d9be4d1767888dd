/**
 The `generationruns` table as a value, and what each statement of the repository does to it.

 Every guarded UPDATE is a function from table to table; the repository class is proved against
 these functions and the protocol theorems are about them.
 */
module RunTable {
  import opened Option

  type RunId = nat
  type Token = nat
  type Mentor = nat

  datatype Pipeline = StudyMaterial | Quiz | Hint

  /** One generation slot: at most one run may be live on it. */
  datatype Key = Key(pipeline: Pipeline, resource: nat)

  datatype Status = Running | Paused | Failed | Completed | Abandoned | Superseded

  predicate Active(s: Status) {
    s.Running? || s.Paused? || s.Failed?
  }

  predicate Resumable(s: Status) {
    s.Paused? || s.Failed?
  }

  const MAX_RESUME_ATTEMPTS: nat := 5

  datatype RunError = RunError(message: string, errorType: Option<string>)

  const STALE_ERROR := RunError(
    "Generation stopped responding. You can resume from the last completed step.", Some("stale_worker"))

  datatype Run = Run(
    key: Key,
    mentor: Mentor,
    status: Status,
    token: Option<Token>,
    attempts: nat,
    lastNode: Option<string>,
    checkpoint: Option<string>,
    progressStep: nat,
    artifactRunId: Option<string>,
    error: Option<RunError>,
    nextRetryAt: Option<int>,
    pausedAt: Option<int>,
    completedAt: Option<int>,
    abandonedAt: Option<int>,
    createdAt: int,
    updatedAt: int)

  type Table = map<RunId, Run>

  /** The row a fresh start writes. */
  function NewRun(key: Key, mentor: Mentor, token: Token, now: int): Run {
    Run(key, mentor, Running, Some(token), 0, None, None, 0, None, None, None, None, None, None, now, now)
  }

  predicate Has(t: Table, id: RunId, s: Status) {
    id in t && t[id].status == s
  }

  function PauseIn(t: Table, id: RunId, now: int): Table {
    if Has(t, id, Running) then t[id := t[id].(status := Paused, pausedAt := Some(now), updatedAt := now)] else t
  }

  predicate MayAbandon(t: Table, id: RunId) {
    id in t && Active(t[id].status)
  }

  function AbandonIn(t: Table, id: RunId, now: int): Table {
    if MayAbandon(t, id) then t[id := t[id].(status := Abandoned, abandonedAt := Some(now), updatedAt := now)] else t
  }

  predicate TokenMatches(r: Run, expected: Option<Token>) {
    expected.None? || r.token == expected
  }

  predicate MayFail(t: Table, id: RunId, expected: Option<Token>) {
    Has(t, id, Running) && TokenMatches(t[id], expected)
  }

  function FailIn(t: Table, id: RunId, expected: Option<Token>, error: RunError,
                  retryAt: Option<int>, now: int): Table
  {
    if MayFail(t, id, expected) then
      t[id := t[id].(status := Failed, error := Some(error), nextRetryAt := retryAt, updatedAt := now)]
    else t
  }

  predicate MayMarkStale(t: Table, id: RunId, before: Option<int>, expected: Option<Token>) {
    MayFail(t, id, expected) && (before.None? || t[id].updatedAt < before.value)
  }

  function StaleFailIn(t: Table, id: RunId, before: Option<int>, expected: Option<Token>, now: int): Table {
    if MayMarkStale(t, id, before, expected) then
      t[id := t[id].(status := Failed, error := Some(STALE_ERROR), nextRetryAt := None, updatedAt := now)]
    else t
  }

  predicate MayComplete(t: Table, id: RunId) {
    Has(t, id, Running) || Has(t, id, Paused)
  }

  function CompleteIn(t: Table, id: RunId, now: int): Table {
    if MayComplete(t, id) then
      t[id := t[id].(status := Completed, error := None, completedAt := Some(now), updatedAt := now)]
    else t
  }

  /** What a checkpoint writes; a progress step or artifact id that is not given stays as it was. */
  datatype Mark = Mark(node: string, state: string, progressStep: Option<nat>, artifactRunId: Option<string>)

  function CheckpointIn(t: Table, id: RunId, mark: Mark, now: int): Table {
    if Has(t, id, Running) then
      t[id := t[id].(lastNode := Some(mark.node), checkpoint := Some(mark.state), updatedAt := now,
                     progressStep := if mark.progressStep.Some? then mark.progressStep.value else t[id].progressStep,
                     artifactRunId := if mark.artifactRunId.Some? then mark.artifactRunId else t[id].artifactRunId)]
    else t
  }

  /** `mark_running` looks at the run id only. */
  function MarkRunningIn(t: Table, id: RunId, token: Option<Token>, now: int): Table {
    if id in t then
      t[id := t[id].(status := Running, error := None, pausedAt := None, updatedAt := now,
                     token := if token.Some? then token else t[id].token)]
    else t
  }

  function BumpAttemptsIn(t: Table, id: RunId, now: int): Table {
    if id in t then t[id := t[id].(attempts := t[id].attempts + 1, updatedAt := now)] else t
  }

  predicate MaySupersede(r: Run, key: Key) {
    r.key == key && Resumable(r.status)
  }

  function SupersedeRow(r: Run, key: Key, now: int): Run {
    if MaySupersede(r, key) then r.(status := Superseded, updatedAt := now) else r
  }

  function SupersedeIn(t: Table, key: Key, now: int): Table {
    map id | id in t :: SupersedeRow(t[id], key, now)
  }

  function SupersedeUnless(t: Table, id: RunId, key: Key, except: Option<RunId>, now: int): Run
    requires id in t
  {
    if Some(id) == except then t[id] else SupersedeRow(t[id], key, now)
  }

  /** `supersede_stale_runs`, which can spare one run. */
  function SupersedeExcept(t: Table, key: Key, except: Option<RunId>, now: int): Table {
    map id | id in t :: SupersedeUnless(t, id, key, except, now)
  }

  /** `get_active_run`: a live run of the slot with the latest creation time. */
  ghost predicate IsLatestActive(t: Table, key: Key, seen: Option<RunId>) {
    match seen
    case None => forall i | i in t :: !(t[i].key == key && Active(t[i].status))
    case Some(id) =>
      && id in t && t[id].key == key && Active(t[id].status)
      && forall i | i in t && t[i].key == key && Active(t[i].status) :: t[i].createdAt <= t[id].createdAt
  }

  datatype StartResult = Started | StartConflict(running: RunId) | DuplicateRunId

  predicate SeenRunning(t: Table, seen: Option<RunId>) {
    seen.Some? && Has(t, seen.value, Running)
  }

  /** The table that a start looks at: with the paused and failed runs of the slot superseded, or as it is. */
  function StartBase(t: Table, key: Key, supersede: bool, now: int): Table {
    if supersede then SupersedeIn(t, key, now) else t
  }

  function StartVerdict(t: Table, id: RunId, key: Key, supersede: bool, seen: Option<RunId>, now: int): StartResult {
    if SeenRunning(StartBase(t, key, supersede, now), seen) then StartConflict(seen.value)
    else if id in t then DuplicateRunId
    else Started
  }

  /**
   `start_run`.  A conflict is raised after the supersede, whose effect is kept here; a duplicate
   primary key rolls the statement group back.
   */
  function StartIn(t: Table, id: RunId, key: Key, mentor: Mentor, token: Token, supersede: bool,
                   seen: Option<RunId>, now: int): Table
  {
    match StartVerdict(t, id, key, supersede, seen, now)
    case Started => StartBase(t, key, supersede, now)[id := NewRun(key, mentor, token, now)]
    case StartConflict(_) => StartBase(t, key, supersede, now)
    case DuplicateRunId => t
  }

  datatype ResumeVerdict =
    | MayResume
    | ResumeNotFound
    | NotResumable
    | InputsChanged
    | AttemptsExhausted
    | TooEarly
    | ResumeConflict(running: RunId)

  /** `_get_run_for_mentor`, `_validate_resumable` and `_assert_no_resume_conflict`, in that order. */
  function CheckResume(t: Table, id: RunId, mentor: Mentor, inputsMatch: bool,
                       seen: Option<RunId>, now: int): ResumeVerdict
  {
    if id !in t || t[id].mentor != mentor then ResumeNotFound
    else if !Resumable(t[id].status) then NotResumable
    else if !inputsMatch then InputsChanged
    else if t[id].attempts >= MAX_RESUME_ATTEMPTS then AttemptsExhausted
    else if t[id].status.Failed? && t[id].nextRetryAt.Some? && now < t[id].nextRetryAt.value then TooEarly
    else if seen.Some? && seen.value != id && Has(t, seen.value, Running) then ResumeConflict(seen.value)
    else MayResume
  }

  /**
   A resume is permitted exactly to the owner of a paused or failed run whose inputs are unchanged, that
   has attempts left and has cooled down, while no other run is seen running.
   */
  lemma MayResumeExactlyWhen(t: Table, id: RunId, mentor: Mentor, inputsMatch: bool, seen: Option<RunId>, now: int)
    ensures CheckResume(t, id, mentor, inputsMatch, seen, now).MayResume? <==>
              && id in t && t[id].mentor == mentor && t[id].status in {Paused, Failed}
              && inputsMatch && t[id].attempts < 5
              && (t[id].status == Failed && t[id].nextRetryAt.Some? ==> t[id].nextRetryAt.value <= now)
              && (seen.Some? && seen.value != id && seen.value in t ==> t[seen.value].status != Running)
  {
  }

  /** What each refusal tells. */
  lemma RefusalsMean(t: Table, id: RunId, mentor: Mentor, inputsMatch: bool, seen: Option<RunId>, now: int)
    ensures match CheckResume(t, id, mentor, inputsMatch, seen, now)
            case ResumeNotFound => id in t ==> t[id].mentor != mentor
            case NotResumable => id in t && t[id].mentor == mentor && t[id].status !in {Paused, Failed}
            case InputsChanged => !inputsMatch
            case AttemptsExhausted => id in t && t[id].status in {Paused, Failed} && t[id].attempts >= 5
            case TooEarly =>
              id in t && t[id].status == Failed && t[id].nextRetryAt.Some? && now < t[id].nextRetryAt.value
            case ResumeConflict(other) => other != id && seen == Some(other) && other in t && t[other].status == Running
            case MayResume => true
  {
  }

  /** Waiting never costs the permission, and a run that only has to wait gets it in time. */
  lemma WaitingNeverHurts(t: Table, id: RunId, mentor: Mentor, inputsMatch: bool, seen: Option<RunId>,
                          now: int, later: int)
    requires now <= later
    ensures CheckResume(t, id, mentor, inputsMatch, seen, now).MayResume? ==>
              CheckResume(t, id, mentor, inputsMatch, seen, later).MayResume?
    ensures CheckResume(t, id, mentor, inputsMatch, seen, now).TooEarly? && t[id].nextRetryAt.value <= later ==>
              !CheckResume(t, id, mentor, inputsMatch, seen, later).TooEarly?
  {
  }

  /** The write half of `resume_run`. */
  function WriteResume(t: Table, id: RunId, token: Token, now: int): Table {
    MarkRunningIn(BumpAttemptsIn(t, id, now), id, Some(token), now)
  }

  function ResumeIn(t: Table, id: RunId, mentor: Mentor, inputsMatch: bool, token: Token,
                    seen: Option<RunId>, now: int): Table
  {
    if CheckResume(t, id, mentor, inputsMatch, seen, now).MayResume? then WriteResume(t, id, token, now) else t
  }

  /** `should_continue_execution` */
  predicate ShouldContinue(t: Table, id: RunId, jobToken: Token) {
    Has(t, id, Running) && t[id].token == Some(jobToken)
  }
}
