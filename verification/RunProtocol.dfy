/**
 Safety of the generation-run protocol over every interleaving.

 API calls, workers and the stale sweeper are events on one table; each event is one committed
 transaction.  Tokens are fresh when issued.  What an event may have sampled earlier (a token, the
 row it saw) is an input of the event, so any number of events can happen in between.
 */
module RunProtocol {
  import opened Option
  import opened RunTable

  datatype World = World(table: Table, issued: set<Token>)

  datatype Event =
    | Start(id: RunId, key: Key, mentor: Mentor, token: Token, seen: Option<RunId>, now: int)
    | Resume(id: RunId, mentor: Mentor, inputsMatch: bool, token: Token, seen: Option<RunId>, now: int)
    | Pause(id: RunId, mentor: Mentor, now: int)
    | Abandon(id: RunId, mentor: Mentor, now: int)
    | Checkpoint(id: RunId, mark: Mark, now: int)
    | Fail(id: RunId, expected: Option<Token>, error: RunError, retryAt: Option<int>, now: int)
    | StaleFail(id: RunId, before: Option<int>, expected: Option<Token>, now: int)
    | Complete(id: RunId, now: int)

  /** What the database and `uuid4` guarantee about an event's inputs. */
  ghost predicate Legal(w: World, e: Event) {
    match e
    case Start(_, key, _, token, seen, now) =>
      token !in w.issued && IsLatestActive(SupersedeIn(w.table, key, now), key, seen)
    case Resume(id, _, _, token, seen, _) =>
      token !in w.issued && (id in w.table ==> IsLatestActive(w.table, w.table[id].key, seen))
    case _ => true
  }

  function OwnedBy(t: Table, id: RunId, mentor: Mentor): bool {
    id in t && t[id].mentor == mentor
  }

  function Apply(t: Table, e: Event): Table {
    match e
    case Start(id, key, mentor, token, seen, now) => StartIn(t, id, key, mentor, token, true, seen, now)
    case Resume(id, mentor, ok, token, seen, now) => ResumeIn(t, id, mentor, ok, token, seen, now)
    case Pause(id, mentor, now) => if OwnedBy(t, id, mentor) then PauseIn(t, id, now) else t
    case Abandon(id, mentor, now) => if OwnedBy(t, id, mentor) then AbandonIn(t, id, now) else t
    case Checkpoint(id, mark, now) => CheckpointIn(t, id, mark, now)
    case Fail(id, expected, error, retryAt, now) => FailIn(t, id, expected, error, retryAt, now)
    case StaleFail(id, before, expected, now) => StaleFailIn(t, id, before, expected, now)
    case Complete(id, now) => CompleteIn(t, id, now)
  }

  function Step(w: World, e: Event): World {
    World(Apply(w.table, e), if e.Start? || e.Resume? then w.issued + {e.token} else w.issued)
  }

  ghost predicate LegalRun(w: World, es: seq<Event>)
    decreases |es|
  {
    es == [] || (Legal(w, es[0]) && LegalRun(Step(w, es[0]), es[1..]))
  }

  function Exec(w: World, es: seq<Event>): World
    decreases |es|
  {
    if es == [] then w else Exec(Step(w, es[0]), es[1..])
  }

  const EMPTY := World(map[], {})

  // ---------------------------------------------------------------- one live run per slot

  /** No two rows of one slot are both running, paused or failed. */
  ghost predicate OneActive(t: Table) {
    forall i, j | i in t && j in t && i != j && t[i].key == t[j].key ::
      !(Active(t[i].status) && Active(t[j].status))
  }

  /** Every row carries an issued token of its own, and no run was resumed too often. */
  ghost predicate TokensOwned(w: World) {
    && (forall i | i in w.table ::
          && w.table[i].token.Some? && w.table[i].token.value in w.issued
          && w.table[i].attempts <= MAX_RESUME_ATTEMPTS)
    && (forall i, j | i in w.table && j in w.table && i != j :: w.table[i].token != w.table[j].token)
  }

  ghost predicate Inv(w: World) {
    OneActive(w.table) && TokensOwned(w)
  }

  /** Events other than start and resume: rows keep their identity and nothing comes back to life. */
  ghost predicate Tame(t: Table, t': Table) {
    && t'.Keys == t.Keys
    && forall i | i in t ::
         && t'[i].key == t[i].key && t'[i].token == t[i].token && t'[i].attempts == t[i].attempts
         && (Active(t'[i].status) ==> Active(t[i].status))
         && (t'[i].status.Running? ==> t[i].status.Running?)
  }

  lemma OrdinaryEventsAreTame(t: Table, e: Event)
    requires !e.Start? && !e.Resume?
    ensures Tame(t, Apply(t, e))
  {
  }

  lemma SupersedeIsTame(t: Table, key: Key, now: int)
    ensures Tame(t, SupersedeIn(t, key, now))
  {
  }

  lemma TameKeepsInv(w: World, t': Table)
    requires Inv(w) && Tame(w.table, t')
    ensures Inv(World(t', w.issued))
  {
  }

  /** A new run on a free slot, under a fresh token. */
  lemma NewRunKeepsInv(w: World, id: RunId, key: Key, mentor: Mentor, token: Token, now: int)
    requires Inv(w) && id !in w.table && token !in w.issued
    requires forall i | i in w.table && w.table[i].key == key :: !Active(w.table[i].status)
    ensures Inv(World(w.table[id := NewRun(key, mentor, token, now)], w.issued + {token}))
  {
  }

  lemma MoreIssuedKeepsInv(w: World, token: Token)
    requires Inv(w)
    ensures Inv(World(w.table, w.issued + {token}))
  {
  }

  lemma StartKeepsInv(w: World, e: Event)
    requires Inv(w) && e.Start? && Legal(w, e)
    ensures Inv(Step(w, e))
  {
    var w1 := World(SupersedeIn(w.table, e.key, e.now), w.issued);
    SupersedeIsTame(w.table, e.key, e.now);
    TameKeepsInv(w, w1.table);
    if StartVerdict(w.table, e.id, e.key, true, e.seen, e.now).Started? {
      SupersededSlotIsFree(w.table, e.key, e.seen, e.now);
      NewRunKeepsInv(w1, e.id, e.key, e.mentor, e.token, e.now);
    } else {
      MoreIssuedKeepsInv(w, e.token);
      MoreIssuedKeepsInv(w1, e.token);
    }
    hide Inv, SupersedeIn, NewRun, IsLatestActive;
  }

  /** After the supersede only running runs of the slot are live, so a latest live one that does not run is none. */
  lemma SupersededSlotIsFree(t: Table, key: Key, seen: Option<RunId>, now: int)
    requires OneActive(t) && IsLatestActive(SupersedeIn(t, key, now), key, seen)
    requires !SeenRunning(SupersedeIn(t, key, now), seen)
    ensures forall i | i in SupersedeIn(t, key, now) && SupersedeIn(t, key, now)[i].key == key ::
              !Active(SupersedeIn(t, key, now)[i].status)
  {
  }

  lemma ResumeKeepsInv(w: World, e: Event)
    requires Inv(w) && e.Resume? && Legal(w, e)
    ensures Inv(Step(w, e))
  {
    var v := CheckResume(w.table, e.id, e.mentor, e.inputsMatch, e.seen, e.now);
    if v.MayResume? {
      assert Active(w.table[e.id].status);
    }
  }

  lemma StepKeepsInv(w: World, e: Event)
    requires Inv(w) && Legal(w, e)
    ensures Inv(Step(w, e))
  {
    if e.Start? {
      StartKeepsInv(w, e);
    } else if e.Resume? {
      ResumeKeepsInv(w, e);
    } else {
      OrdinaryEventsAreTame(w.table, e);
      TameKeepsInv(w, Apply(w.table, e));
    }
  }

  /** At every reachable state at most one run per slot is running, paused or failed. */
  lemma {:induction false} OneActiveAlways(w: World, es: seq<Event>)
    requires Inv(w) && LegalRun(w, es)
    ensures Inv(Exec(w, es))
    decreases |es|
  {
    if es != [] {
      StepKeepsInv(w, es[0]);
      OneActiveAlways(Step(w, es[0]), es[1..]);
    }
  }

  lemma ReachableIsSafe(es: seq<Event>)
    requires LegalRun(EMPTY, es)
    ensures OneActive(Exec(EMPTY, es).table) && TokensOwned(Exec(EMPTY, es))
  {
    OneActiveAlways(EMPTY, es);
  }

  /** A start rejected with a conflict superseded nothing: the table is untouched. */
  lemma ConflictingStartIsNoop(w: World, e: Event)
    requires Inv(w) && e.Start? && Legal(w, e)
    requires StartVerdict(w.table, e.id, e.key, true, e.seen, e.now).StartConflict?
    ensures Step(w, e).table == w.table
  {
  }

  /** The default of `start_run` is needed: without it a start keeps one live run exactly on a free slot. */
  lemma StartWithoutSupersedeKeepsOneActive(
    t: Table, id: RunId, key: Key, mentor: Mentor, token: Token, seen: Option<RunId>, now: int)
    requires OneActive(t) && IsLatestActive(t, key, seen)
    requires StartVerdict(t, id, key, false, seen, now).Started?
    ensures OneActive(StartIn(t, id, key, mentor, token, false, seen, now))
       <==> !(exists i | i in t :: t[i].key == key && Resumable(t[i].status))
  {
    var t' := StartIn(t, id, key, mentor, token, false, seen, now);
    if i :| i in t && t[i].key == key && Resumable(t[i].status) {
      assert t'[i] == t[i] && Active(t'[id].status) && t'[id].key == key;
    } else {
      assert forall i | i in t && t[i].key == key :: !Active(t[i].status);
    }
  }

  // ---------------------------------------------------------------- what a step does to a row

  /** A start is refused with a conflict exactly while a run of the slot is running. */
  lemma StartConflictsExactlyWhen(w: World, e: Event)
    requires Inv(w) && e.Start? && Legal(w, e)
    ensures StartVerdict(w.table, e.id, e.key, true, e.seen, e.now).StartConflict? <==>
              exists i | i in w.table :: w.table[i].key == e.key && w.table[i].status == Running
    ensures StartVerdict(w.table, e.id, e.key, true, e.seen, e.now).Started? <==>
              && (forall i | i in w.table :: w.table[i].key == e.key ==> w.table[i].status != Running)
              && e.id !in w.table
  {
    var t := SupersedeIn(w.table, e.key, e.now);
    if i :| i in w.table && w.table[i].key == e.key && w.table[i].status == Running {
      assert t[i] == w.table[i] && Active(t[i].status);
      assert e.seen.Some?;
      assert t[e.seen.value].status == Running;
    }
  }

  /** With one live run per slot, no conflict can stand in the way of a resume. */
  lemma ResumesExactlyWhen(w: World, e: Event)
    requires Inv(w) && e.Resume? && Legal(w, e)
    ensures CheckResume(w.table, e.id, e.mentor, e.inputsMatch, e.seen, e.now).MayResume? <==>
              && e.id in w.table && w.table[e.id].mentor == e.mentor && w.table[e.id].status in {Paused, Failed}
              && e.inputsMatch && w.table[e.id].attempts < 5
              && (w.table[e.id].status == Failed && w.table[e.id].nextRetryAt.Some? ==>
                    w.table[e.id].nextRetryAt.value <= e.now)
    ensures !CheckResume(w.table, e.id, e.mentor, e.inputsMatch, e.seen, e.now).ResumeConflict?
  {
    MayResumeExactlyWhen(w.table, e.id, e.mentor, e.inputsMatch, e.seen, e.now);
    if e.id in w.table && w.table[e.id].status in {Paused, Failed} {
      assert Active(w.table[e.id].status);
    }
  }

  /** The life cycle: where each event takes the status of each run, and where it leaves it alone. */
  lemma StatusMoves(w: World, e: Event, id: RunId)
    requires Inv(w) && Legal(w, e) && id in w.table
    ensures id in Step(w, e).table
    ensures var r, s' := w.table[id], Step(w, e).table[id].status;
            match e
            case Start(i, key, _, _, _, _) =>
              s' == if r.key == key && r.status in {Paused, Failed} && i !in w.table then Superseded else r.status
            case Resume(i, mentor, ok, _, _, now) =>
              s' == if && i == id && r.mentor == mentor && ok && r.status in {Paused, Failed} && r.attempts < 5
                       && (r.status == Failed && r.nextRetryAt.Some? ==> r.nextRetryAt.value <= now)
                    then Running else r.status
            case Pause(i, mentor, _) =>
              s' == if i == id && r.mentor == mentor && r.status == Running then Paused else r.status
            case Abandon(i, mentor, _) =>
              s' == if i == id && r.mentor == mentor && r.status in {Running, Paused, Failed}
                    then Abandoned else r.status
            case Checkpoint(_, _, _) => s' == r.status
            case Fail(i, expected, _, _, _) =>
              s' == if i == id && r.status == Running && expected in [None, r.token] then Failed else r.status
            case StaleFail(i, before, expected, _) =>
              s' == if && i == id && r.status == Running && expected in [None, r.token]
                       && (before.Some? ==> r.updatedAt < before.value)
                    then Failed else r.status
            case Complete(i, _) =>
              s' == if i == id && r.status in {Running, Paused} then Completed else r.status
  {
    match e
    case Start(i, key, _, _, seen, now) =>
      StartMoves(w, e, id);
    case Resume(_, _, _, _, _, _) =>
      ResumesExactlyWhen(w, e);
      hide Inv, IsLatestActive;
    case _ =>
      hide Inv;
  }

  lemma StartMoves(w: World, e: Event, id: RunId)
    requires Inv(w) && Legal(w, e) && id in w.table && e.Start?
    ensures id in Step(w, e).table
    ensures var r, r' := w.table[id], Step(w, e).table[id];
            if r.key == e.key && r.status in {Paused, Failed} && e.id !in w.table
            then r' == r.(status := Superseded, updatedAt := e.now) else r' == r
  {
    StartConflictsExactlyWhen(w, e);
    var r := w.table[id];
    if r.key == e.key && r.status in {Paused, Failed} {
      assert Active(r.status);
      assert forall i | i in w.table && w.table[i].key == e.key && i != id :: !Active(w.table[i].status);
    }
    hide Inv, IsLatestActive;
  }

  /** What else of a row a step may write, and that its identity never changes. */
  lemma RowMoves(w: World, e: Event, id: RunId)
    requires Inv(w) && Legal(w, e) && id in w.table
    ensures id in Step(w, e).table
    ensures var r, r' := w.table[id], Step(w, e).table[id];
            var moved := r'.status != r.status;
            && r'.key == r.key && r'.mentor == r.mentor && r'.createdAt == r.createdAt
            && (r'.token, r'.attempts)
               == (if e.Resume? && moved then (Some(e.token), r.attempts + 1) else (r.token, r.attempts))
            && (r'.lastNode, r'.checkpoint)
               == (if e.Checkpoint? && e.id == id && r.status == Running
                   then (Some(e.mark.node), Some(e.mark.state)) else (r.lastNode, r.checkpoint))
            && r'.nextRetryAt
               == (if moved && e.Fail? then e.retryAt else if moved && e.StaleFail? then None else r.nextRetryAt)
            && r'.error
               == (if moved && e.Fail? then Some(e.error)
                   else if moved && e.StaleFail? then Some(STALE_ERROR)
                   else if moved && (e.Complete? || e.Resume?) then None else r.error)
  {
    if e.Start? {
      StartMoves(w, e, id);
    } else if e.Resume? {
      ResumesExactlyWhen(w, e);
    }
    hide Inv, IsLatestActive;
  }

  /** A start makes one new row; no other step makes any, and none is ever deleted. */
  lemma RowsAppear(w: World, e: Event, id: RunId)
    requires Inv(w) && Legal(w, e) && id !in w.table
    ensures id in Step(w, e).table <==>
              && e.Start? && e.id == id
              && forall i | i in w.table :: w.table[i].key == e.key ==> w.table[i].status != Running
    ensures id in Step(w, e).table ==>
              var r := Step(w, e).table[id];
              && r.key == e.key && r.mentor == e.mentor && r.status == Running && r.token == Some(e.token)
              && r.attempts == 0 && r.lastNode == None && r.checkpoint == None && r.nextRetryAt == None
  {
    if e.Start? {
      StartConflictsExactlyWhen(w, e);
    }
    hide Inv, IsLatestActive;
  }

  /** The attempt that a start or a resume hands its token to may go on; nobody else's may. */
  lemma HandedOutAttemptContinues(w: World, e: Event, job: Token)
    requires Inv(w) && Legal(w, e)
    ensures e.Start? && StartVerdict(w.table, e.id, e.key, true, e.seen, e.now).Started? ==>
              (ShouldContinue(Step(w, e).table, e.id, job) <==> job == e.token)
    ensures e.Resume? && CheckResume(w.table, e.id, e.mentor, e.inputsMatch, e.seen, e.now).MayResume? ==>
              (ShouldContinue(Step(w, e).table, e.id, job) <==> job == e.token)
  {
    hide Inv, IsLatestActive;
  }

  // ---------------------------------------------------------------- the resume race

  /**
   `resume_run` validates before it takes the coordinator lock.  Were anything allowed between its
   check and its write, the write alone would keep one live run per slot exactly when no other
   run of the slot is live at that moment, which is what a check repeated under the lock tests.
   */
  lemma LateResumeWriteKeepsOneActive(t: Table, id: RunId, token: Token, now: int)
    requires OneActive(t) && id in t
    ensures OneActive(WriteResume(t, id, token, now)) <==>
            !(exists j | j in t && j != id :: t[j].key == t[id].key && Active(t[j].status))
  {
    var t' := WriteResume(t, id, token, now);
    if j :| j in t && j != id && t[j].key == t[id].key && Active(t[j].status) {
      assert t'[j] == t[j] && Active(t'[id].status);
    }
  }

  /** The interleaving that breaks it: resume checks run 0, a start replaces it, resume writes. */
  lemma LateResumeWriteCanRace(key: Key, mentor: Mentor)
    ensures
      var t0: Table := map[0 := NewRun(key, mentor, 10, 0).(status := Paused)];
      var t1 := StartIn(t0, 1, key, mentor, 11, true, None, 1);
      && OneActive(t0)
      && CheckResume(t0, 0, mentor, true, Some(0), 1).MayResume? && IsLatestActive(t0, key, Some(0))
      && IsLatestActive(SupersedeIn(t0, key, 1), key, None)
      && OneActive(t1) && Has(t1, 1, Running)
      && !OneActive(WriteResume(t1, 0, 12, 2))
  {
    var t0: Table := map[0 := NewRun(key, mentor, 10, 0).(status := Paused)];
    var t1 := StartIn(t0, 1, key, mentor, 11, true, None, 1);
    assert StartVerdict(t0, 1, key, true, None, 1).Started?;
    LateResumeWriteKeepsOneActive(t1, 0, 12, 2);
    assert 1 in t1 && t1[1].key == t1[0].key && Active(t1[1].status);
  }

  // ---------------------------------------------------------------- token epochs

  /** One step never hands an already issued token to a row that did not hold it. */
  lemma StepIssuesFreshTokens(w: World, e: Event, id: RunId, job: Token)
    requires Legal(w, e) && job in w.issued
    ensures ShouldContinue(Step(w, e).table, id, job) ==> ShouldContinue(w.table, id, job)
    ensures id in Step(w, e).table && Step(w, e).table[id].token == Some(job) ==>
              id in w.table && w.table[id].token == Some(job)
  {
    if !e.Start? && !e.Resume? {
      OrdinaryEventsAreTame(w.table, e);
    } else if e.Start? {
      SupersedeIsTame(w.table, e.key, e.now);
    }
  }

  /** Once a job's token is refused it is refused for ever. */
  lemma {:induction false} RefusedForEver(w: World, es: seq<Event>, id: RunId, job: Token)
    requires LegalRun(w, es) && job in w.issued
    requires !ShouldContinue(w.table, id, job)
    ensures !ShouldContinue(Exec(w, es).table, id, job)
    decreases |es|
  {
    if es != [] {
      StepIssuesFreshTokens(w, es[0], id, job);
      RefusedForEver(Step(w, es[0]), es[1..], id, job);
    }
  }

  lemma {:induction false} LostTokenNeverReturns(w: World, es: seq<Event>, id: RunId, job: Token)
    requires LegalRun(w, es) && job in w.issued
    requires !(id in w.table && w.table[id].token == Some(job))
    ensures !(id in Exec(w, es).table && Exec(w, es).table[id].token == Some(job))
    decreases |es|
  {
    if es != [] {
      StepIssuesFreshTokens(w, es[0], id, job);
      LostTokenNeverReturns(Step(w, es[0]), es[1..], id, job);
    }
  }

  predicate Resumes(t: Table, e: Event, id: RunId) {
    && e.Resume? && e.id == id
    && CheckResume(t, id, e.mentor, e.inputsMatch, e.seen, e.now).MayResume?
  }

  /** How many times the events resume this run. */
  function CountResumes(w: World, es: seq<Event>, id: RunId): nat
    decreases |es|
  {
    if es == [] then 0
    else (if Resumes(w.table, es[0], id) then 1 else 0) + CountResumes(Step(w, es[0]), es[1..], id)
  }

  /** While a row still holds a sampled token, it is still in the sampled attempt. */
  lemma {:induction false} TokenNamesAttempt(w: World, es: seq<Event>, id: RunId, sampled: Token)
    requires LegalRun(w, es)
    requires id in w.table && w.table[id].token == Some(sampled) && sampled in w.issued
    requires id in Exec(w, es).table && Exec(w, es).table[id].token == Some(sampled)
    ensures Exec(w, es).table[id].attempts == w.table[id].attempts
    ensures CountResumes(w, es, id) == 0
    decreases |es|
  {
    if es != [] {
      var e, w1 := es[0], Step(w, es[0]);
      if Resumes(w.table, e, id) {
        LostTokenNeverReturns(w1, es[1..], id, sampled);
      } else {
        StepMovesOneRow(w, e, id);
        TokenNamesAttempt(w1, es[1..], id, sampled);
      }
    }
  }

  /** Without a resume of this run, a step keeps its key, token and attempt number. */
  lemma StepMovesOneRow(w: World, e: Event, id: RunId)
    requires id in w.table && !Resumes(w.table, e, id)
    ensures id in Step(w, e).table
    ensures Step(w, e).table[id].token == w.table[id].token
    ensures Step(w, e).table[id].attempts == w.table[id].attempts
    ensures Step(w, e).table[id].key == w.table[id].key
    ensures Step(w, e).table[id].status.Running? ==> w.table[id].status.Running?
  {
    if !e.Start? && !e.Resume? {
      OrdinaryEventsAreTame(w.table, e);
    } else if e.Start? {
      SupersedeIsTame(w.table, e.key, e.now);
    }
  }

  /**
   A sweeper or reconciler that sampled a run, and writes after any number of other events, can
   only ever fail the attempt it sampled: if its guarded write matches, the run was not resumed.
   The token it sampled is never missing, so its guard is never dropped.
   */
  lemma SampledWriteHitsSampledAttempt(w: World, es: seq<Event>, id: RunId, before: Option<int>, now: int)
    requires Inv(w) && LegalRun(w, es) && id in w.table
    ensures w.table[id].token.Some?
    ensures
      var later := Exec(w, es).table;
      StaleFailIn(later, id, before, w.table[id].token, now) != later ==>
        && later[id].attempts == w.table[id].attempts
        && later[id].status.Running?
        && CountResumes(w, es, id) == 0
    ensures
      var later := Exec(w, es).table;
      MayFail(later, id, w.table[id].token) ==> CountResumes(w, es, id) == 0
  {
    var sampled := w.table[id].token.value;
    var later := Exec(w, es).table;
    if MayFail(later, id, Some(sampled)) {
      TokenNamesAttempt(w, es, id, sampled);
    }
  }

  // ---------------------------------------------------------------- every run's life is finite

  function Rank(s: Status): nat {
    if s.Running? then 2 else if Resumable(s) then 1 else 0
  }

  /** Falls with every change of status: the lexicographic pair of attempts left and rank, as one number. */
  function LifeLeft(r: Run): int {
    2 * (MAX_RESUME_ATTEMPTS - r.attempts) + Rank(r.status)
  }

  lemma StepSpendsLife(w: World, e: Event, id: RunId)
    requires Inv(w) && Legal(w, e) && id in w.table
    ensures id in Step(w, e).table
    ensures var r, r' := w.table[id], Step(w, e).table[id];
            && LifeLeft(r') <= LifeLeft(r)
            && (r'.status != r.status ==> LifeLeft(r') < LifeLeft(r))
            && (Rank(r.status) == 0 ==> r'.status == r.status && r'.attempts == r.attempts)
            && r'.attempts == r.attempts + (if Resumes(w.table, e, id) then 1 else 0)
  {
    if e.Start? {
      SupersedeSpendsLife(w.table, e.key, e.now, id);
    }
  }

  lemma SupersedeSpendsLife(t: Table, key: Key, now: int, id: RunId)
    requires id in t
    ensures SupersedeIn(t, key, now)[id] == SupersedeRow(t[id], key, now)
    ensures LifeLeft(SupersedeRow(t[id], key, now)) <= LifeLeft(t[id])
  {
  }

  function CountChanges(w: World, es: seq<Event>, id: RunId): nat
    requires id in w.table
    decreases |es|
  {
    if es == [] then 0
    else
      var w1 := Step(w, es[0]);
      StepKeepsRows(w, es[0], id);
      (if w1.table[id].status != w.table[id].status then 1 else 0) + CountChanges(w1, es[1..], id)
  }

  lemma StepKeepsRows(w: World, e: Event, id: RunId)
    requires id in w.table
    ensures id in Step(w, e).table
  {
  }

  /** The life a run has left bounds the changes of status and the resumes still to come. */
  lemma {:induction false} LifeBoundsChanges(w: World, es: seq<Event>, id: RunId)
    requires Inv(w) && LegalRun(w, es) && id in w.table
    ensures id in Exec(w, es).table
    ensures CountChanges(w, es, id) + LifeLeft(Exec(w, es).table[id]) <= LifeLeft(w.table[id])
    ensures Exec(w, es).table[id].attempts == w.table[id].attempts + CountResumes(w, es, id)
    decreases |es|
  {
    if es != [] {
      StepSpendsLife(w, es[0], id);
      StepKeepsInv(w, es[0]);
      LifeBoundsChanges(Step(w, es[0]), es[1..], id);
    }
  }

  /** From its creation on, a run changes status at most 12 times and is resumed at most 5 times. */
  lemma LifeIsFinite(w: World, start: Event, es: seq<Event>)
    requires Inv(w) && start.Start? && LegalRun(w, [start] + es)
    requires StartVerdict(w.table, start.id, start.key, true, start.seen, start.now).Started?
    ensures var born := Step(w, start);
            && start.id in born.table
            && CountChanges(born, es, start.id) <= 12
            && CountResumes(born, es, start.id) <= 5
  {
    assert ([start] + es)[1..] == es;
    var born := Step(w, start);
    StepKeepsInv(w, start);
    LifeBoundsChanges(born, es, start.id);
    OneActiveAlways(born, es);
  }

  /** A completed, abandoned or superseded run never changes status again. */
  lemma {:induction false} TerminalForEver(w: World, es: seq<Event>, id: RunId)
    requires Inv(w) && LegalRun(w, es) && id in w.table && Rank(w.table[id].status) == 0
    ensures id in Exec(w, es).table && Exec(w, es).table[id].status == w.table[id].status
    decreases |es|
  {
    if es != [] {
      StepSpendsLife(w, es[0], id);
      StepKeepsInv(w, es[0]);
      TerminalForEver(Step(w, es[0]), es[1..], id);
    }
  }
}
