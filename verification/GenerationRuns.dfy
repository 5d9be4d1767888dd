/** The repository over `generationruns` and the service that sequences its statements. */
module GenerationRuns {
  import opened Option
  import opened RunTable
  import opened AdvisoryLocks

  class GenerationRunRepository {
    var rows: Table

    constructor ()
      ensures rows == map[]
    {
      rows := map[];
    }

    method Create(id: RunId, key: Key, mentor: Mentor, token: Token, now: int) returns (created: bool)
      modifies this
      ensures created <==> id !in old(rows)
      ensures rows == if created then old(rows)[id := NewRun(key, mentor, token, now)] else old(rows)
    {
      created := id !in rows;
      if created {
        rows := rows[id := NewRun(key, mentor, token, now)];
      }
    }

    /** `get_active_run`: newest first, at most one. */
    method GetActiveRun(key: Key) returns (seen: Option<RunId>)
      ensures IsLatestActive(rows, key, seen)
      ensures seen.None? <==> forall i | i in rows && rows[i].key == key :: rows[i].status !in {Running, Paused, Failed}
      ensures seen.Some? ==>
                && seen.value in rows && rows[seen.value].key == key
                && rows[seen.value].status in {Running, Paused, Failed}
                && forall i | i in rows && rows[i].key == key && rows[i].status in {Running, Paused, Failed} ::
                     rows[i].createdAt <= rows[seen.value].createdAt
    {
      seen := None;
      var todo := rows.Keys;
      while todo != {}
        invariant todo <= rows.Keys
        invariant seen.None? ==> forall i | i in rows.Keys - todo :: !(rows[i].key == key && Active(rows[i].status))
        invariant seen.Some? ==>
                    && seen.value in rows && rows[seen.value].key == key && Active(rows[seen.value].status)
                    && forall i | i in rows.Keys - todo && rows[i].key == key && Active(rows[i].status) ::
                         rows[i].createdAt <= rows[seen.value].createdAt
        decreases |todo|
      {
        var id :| id in todo;
        todo := todo - {id};
        if rows[id].key == key && Active(rows[id].status) {
          if seen.None? || rows[id].createdAt > rows[seen.value].createdAt {
            seen := Some(id);
          }
        }
      }
    }

    method CheckpointAfterNode(id: RunId, mark: Mark, now: int)
      modifies this
      ensures rows == CheckpointIn(old(rows), id, mark, now)
      ensures Has(old(rows), id, Running) ==>
                && rows[id].lastNode == Some(mark.node) && rows[id].checkpoint == Some(mark.state)
                && mark.progressStep in [None, Some(rows[id].progressStep)]
                && mark.artifactRunId in [None, rows[id].artifactRunId]
                && (mark.progressStep == None ==> rows[id].progressStep == old(rows)[id].progressStep)
                && (mark.artifactRunId == None ==> rows[id].artifactRunId == old(rows)[id].artifactRunId)
    {
      if id in rows && rows[id].status == Running {
        var row := rows[id].(lastNode := Some(mark.node), checkpoint := Some(mark.state), updatedAt := now);
        if mark.progressStep.Some? {
          row := row.(progressStep := mark.progressStep.value);
        }
        if mark.artifactRunId.Some? {
          row := row.(artifactRunId := mark.artifactRunId);
        }
        rows := rows[id := row];
      }
    }

    method FailRun(id: RunId, expected: Option<Token>, error: RunError,
                   retryAt: Option<int>, now: int) returns (changed: bool)
      modifies this
      ensures changed <==> MayFail(old(rows), id, expected)
      ensures rows == FailIn(old(rows), id, expected, error, retryAt, now)
      ensures changed ==> Has(old(rows), id, Running) && Has(rows, id, Failed) && rows[id].nextRetryAt == retryAt
    {
      changed := false;
      if id in rows && rows[id].status == Running {
        if expected.None? || rows[id].token == expected {
          rows := rows[id := rows[id].(status := Failed, error := Some(error),
                                       nextRetryAt := retryAt, updatedAt := now)];
          changed := true;
        }
      }
    }

    method CompleteRun(id: RunId, now: int) returns (changed: bool)
      modifies this
      ensures changed <==> MayComplete(old(rows), id)
      ensures rows == CompleteIn(old(rows), id, now)
      ensures changed ==> Has(rows, id, Completed) && rows[id].completedAt == Some(now) && rows[id].error == None
    {
      changed := id in rows && (rows[id].status == Running || rows[id].status == Paused);
      if changed {
        rows := rows[id := rows[id].(status := Completed, error := None, completedAt := Some(now), updatedAt := now)];
      }
    }

    method MarkRunning(id: RunId, token: Option<Token>, now: int)
      modifies this
      ensures rows == MarkRunningIn(old(rows), id, token, now)
      ensures id in old(rows) ==>
                && Has(rows, id, Running) && rows[id].attempts == old(rows)[id].attempts
                && rows[id].token == (if token.Some? then token else old(rows)[id].token)
      ensures id !in old(rows) ==> rows == old(rows)
    {
      if id in rows {
        var row := rows[id].(status := Running, error := None, pausedAt := None, updatedAt := now);
        if token.Some? {
          row := row.(token := token);
        }
        rows := rows[id := row];
      }
    }

    method PauseRun(id: RunId, now: int) returns (changed: bool)
      modifies this
      ensures changed <==> Has(old(rows), id, Running)
      ensures rows == PauseIn(old(rows), id, now)
      ensures changed ==> Has(rows, id, Paused) && rows[id].pausedAt == Some(now)
    {
      changed := id in rows && rows[id].status == Running;
      if changed {
        rows := rows[id := rows[id].(status := Paused, pausedAt := Some(now), updatedAt := now)];
      }
    }

    method AbandonRun(id: RunId, now: int) returns (changed: bool)
      modifies this
      ensures changed <==> MayAbandon(old(rows), id)
      ensures rows == AbandonIn(old(rows), id, now)
      ensures changed ==> Has(rows, id, Abandoned) && rows[id].abandonedAt == Some(now)
    {
      changed := id in rows && Active(rows[id].status);
      if changed {
        rows := rows[id := rows[id].(status := Abandoned, abandonedAt := Some(now), updatedAt := now)];
      }
    }

    method FindStaleRunningRuns(threshold: int) returns (stale: seq<RunId>)
      ensures forall i | i in rows :: i in stale <==> (rows[i].status == Running && rows[i].updatedAt < threshold)
      ensures forall k | 0 <= k < |stale| :: stale[k] in rows
      ensures forall j, k | 0 <= j < k < |stale| :: stale[j] != stale[k]
    {
      stale := [];
      var todo := rows.Keys;
      while todo != {}
        invariant todo <= rows.Keys
        invariant forall k | 0 <= k < |stale| :: stale[k] in rows && stale[k] !in todo
        invariant forall i | i in rows.Keys - todo ::
                    i in stale <==> (rows[i].status == Running && rows[i].updatedAt < threshold)
        invariant forall j, k | 0 <= j < k < |stale| :: stale[j] != stale[k]
        decreases |todo|
      {
        var id :| id in todo;
        todo := todo - {id};
        if rows[id].status == Running && rows[id].updatedAt < threshold {
          stale := stale + [id];
        }
      }
    }

    method MarkStaleFailed(id: RunId, before: Option<int>, expected: Option<Token>, now: int)
      returns (changed: bool)
      modifies this
      ensures changed <==> MayMarkStale(old(rows), id, before, expected)
      ensures rows == StaleFailIn(old(rows), id, before, expected, now)
      ensures changed ==> Has(old(rows), id, Running) && Has(rows, id, Failed) && rows[id].nextRetryAt == None
    {
      changed := && id in rows && rows[id].status == Running
                 && (before.None? || rows[id].updatedAt < before.value)
                 && (expected.None? || rows[id].token == expected);
      if changed {
        rows := rows[id := rows[id].(status := Failed, error := Some(STALE_ERROR),
                                     nextRetryAt := None, updatedAt := now)];
      }
    }

    method IncrementAttemptCount(id: RunId, now: int) returns (count: nat)
      modifies this
      ensures rows == BumpAttemptsIn(old(rows), id, now)
      ensures count == if id in old(rows) then old(rows)[id].attempts + 1 else 0
    {
      if id !in rows {
        return 0;
      }
      count := rows[id].attempts + 1;
      rows := rows[id := rows[id].(attempts := count, updatedAt := now)];
    }

    method SupersedeStaleRuns(key: Key, except: Option<RunId>, now: int) returns (changed: bool)
      modifies this
      ensures rows == SupersedeExcept(old(rows), key, except, now)
      ensures changed <==> rows != old(rows)
      ensures rows.Keys == old(rows).Keys
      ensures forall i | i in old(rows) ::
                rows[i].status == if && Some(i) != except && old(rows)[i].key == key
                                     && old(rows)[i].status in {Paused, Failed}
                                  then Superseded else old(rows)[i].status
    {
      ghost var before := rows;
      ghost var changedRow: Option<RunId> := None;
      var todo := rows.Keys;
      changed := false;
      while todo != {}
        invariant todo <= rows.Keys == before.Keys
        invariant forall i | i in rows ::
                    rows[i] == if i in todo then before[i] else SupersedeUnless(before, i, key, except, now)
        invariant if changed then changedRow.Some? && changedRow.value in before
                                  && rows[changedRow.value] != before[changedRow.value]
                  else rows == before
        decreases |todo|
      {
        hide SupersedeUnless;
        var id :| id in todo;
        SupersedeUnlessMeans(before, id, key, except, now);
        todo := todo - {id};
        if Some(id) != except && rows[id].key == key && (rows[id].status == Paused || rows[id].status == Failed) {
          rows := rows[id := rows[id].(status := Superseded, updatedAt := now)];
          changed := true;
          changedRow := Some(id);
        }
      }
      hide SupersedeUnless;
      SupersedeStatuses(before, key, except, now);
    }
  }

  lemma SupersedeUnlessMeans(t: Table, id: RunId, key: Key, except: Option<RunId>, now: int)
    requires id in t
    ensures SupersedeUnless(t, id, key, except, now)
         == if Some(id) != except && t[id].key == key && (t[id].status == Paused || t[id].status == Failed)
            then t[id].(status := Superseded, updatedAt := now) else t[id]
  {
  }

  lemma SupersedeStatuses(t: Table, key: Key, except: Option<RunId>, now: int)
    ensures var t' := SupersedeExcept(t, key, except, now);
            && t'.Keys == t.Keys
            && forall i | i in t ::
                 t'[i].status == if Some(i) != except && t[i].key == key && t[i].status in {Paused, Failed}
                                 then Superseded else t[i].status
  {
  }

  datatype PauseResult = PauseDone | PauseNotFound | NotPausable
  datatype AbandonResult = AbandonDone | AbandonNotFound | NotAbandonable

  class GenerationRunService {
    const repo: GenerationRunRepository
    const session: Session

    constructor (repo: GenerationRunRepository, session: Session)
      ensures this.repo == repo && this.session == session
    {
      this.repo := repo;
      this.session := session;
    }

    /** `start_run`, under the coordinator lock. */
    method StartRun(id: RunId, key: Key, mentor: Mentor, token: Token, supersedeExisting: bool, now: int)
      returns (result: StartResult, ghost seen: Option<RunId>)
      modifies repo
      ensures IsLatestActive(StartBase(old(repo.rows), key, supersedeExisting, now), key, seen)
      ensures result == StartVerdict(old(repo.rows), id, key, supersedeExisting, seen, now)
      ensures repo.rows == StartIn(old(repo.rows), id, key, mentor, token, supersedeExisting, seen, now)
      ensures result.Started? ==>
                && id !in old(repo.rows) && Has(repo.rows, id, Running)
                && repo.rows[id].key == key && repo.rows[id].mentor == mentor
                && repo.rows[id].token == Some(token) && repo.rows[id].attempts == 0
      ensures result.StartConflict? ==> seen == Some(result.running) && Has(repo.rows, result.running, Running)
      ensures forall i | i in old(repo.rows) :: i in repo.rows &&
                repo.rows[i].status == if && supersedeExisting && old(repo.rows)[i].key == key
                                          && old(repo.rows)[i].status in {Paused, Failed}
                                          && !result.DuplicateRunId?
                                       then Superseded else old(repo.rows)[i].status
    {
      var before := repo.rows;
      if supersedeExisting {
        var _ := repo.SupersedeStaleRuns(key, None, now);
      }
      assert repo.rows == StartBase(before, key, supersedeExisting, now);
      var active := repo.GetActiveRun(key);
      seen := active;
      if active.Some? && repo.rows[active.value].status == Running {
        return StartConflict(active.value), seen;
      }
      var created := repo.Create(id, key, mentor, token, now);
      if !created {
        repo.rows := before;  // the failed insert rolls the transaction back
        return DuplicateRunId, seen;
      }
      result := Started;
    }

    /** `resume_run`, taken as one transaction. */
    method ResumeRun(id: RunId, mentor: Mentor, inputsMatch: bool, token: Token, now: int)
      returns (verdict: ResumeVerdict, ghost seen: Option<RunId>)
      modifies repo
      ensures id in old(repo.rows) ==> IsLatestActive(old(repo.rows), old(repo.rows)[id].key, seen)
      ensures verdict == CheckResume(old(repo.rows), id, mentor, inputsMatch, seen, now)
      ensures repo.rows == ResumeIn(old(repo.rows), id, mentor, inputsMatch, token, seen, now)
      ensures verdict.MayResume? <==>
                && id in old(repo.rows) && old(repo.rows)[id].mentor == mentor
                && old(repo.rows)[id].status in {Paused, Failed} && inputsMatch && old(repo.rows)[id].attempts < 5
                && (old(repo.rows)[id].status == Failed && old(repo.rows)[id].nextRetryAt.Some? ==>
                      old(repo.rows)[id].nextRetryAt.value <= now)
                && (seen.Some? && seen.value != id && seen.value in old(repo.rows) ==>
                      old(repo.rows)[seen.value].status != Running)
      ensures verdict.TooEarly? ==>
                && id in old(repo.rows) && old(repo.rows)[id].nextRetryAt.Some?
                && now < old(repo.rows)[id].nextRetryAt.value
      ensures verdict.MayResume? ==>
                && Has(repo.rows, id, Running) && repo.rows[id].token == Some(token)
                && repo.rows[id].attempts == old(repo.rows)[id].attempts + 1
                && repo.rows[id].checkpoint == old(repo.rows)[id].checkpoint
                && repo.rows[id].lastNode == old(repo.rows)[id].lastNode
                && repo.rows - {id} == old(repo.rows) - {id}
      ensures !verdict.MayResume? ==> repo.rows == old(repo.rows)
    {
      seen := None;
      if id !in repo.rows {
        return ResumeNotFound, seen;
      }
      var run := repo.rows[id];
      var active := repo.GetActiveRun(run.key);
      seen := active;
      if run.mentor != mentor {
        return ResumeNotFound, seen;
      }
      if run.status != Paused && run.status != Failed {
        return NotResumable, seen;
      }
      if !inputsMatch {
        return InputsChanged, seen;
      }
      if run.attempts >= MAX_RESUME_ATTEMPTS {
        return AttemptsExhausted, seen;
      }
      if run.status == Failed && run.nextRetryAt.Some? && now < run.nextRetryAt.value {
        return TooEarly, seen;
      }
      if active.Some? && active.value != id && repo.rows[active.value].status == Running {
        return ResumeConflict(active.value), seen;
      }
      var _ := repo.IncrementAttemptCount(id, now);
      repo.MarkRunning(id, Some(token), now);
      verdict := MayResume;
    }

    method ShouldContinueExecution(id: RunId, jobToken: Token) returns (go: bool)
      ensures go <==> ShouldContinue(repo.rows, id, jobToken)
      ensures go <==> id in repo.rows && repo.rows[id].status == Running && repo.rows[id].token == Some(jobToken)
    {
      if id !in repo.rows {
        return false;
      }
      var run := repo.rows[id];
      if run.status != Running {
        return false;
      }
      if run.token.None? {
        return false;
      }
      go := run.token.value == jobToken;
    }

    method PauseRun(id: RunId, mentor: Mentor, now: int) returns (result: PauseResult)
      modifies repo
      ensures result.PauseNotFound? <==> !(id in old(repo.rows) && old(repo.rows)[id].mentor == mentor)
      ensures result.PauseDone? <==>
                && id in old(repo.rows) && old(repo.rows)[id].mentor == mentor
                && old(repo.rows)[id].status in {Running, Paused}
      ensures repo.rows == if result.PauseDone? then PauseIn(old(repo.rows), id, now) else old(repo.rows)
      ensures result.PauseDone? ==> Has(repo.rows, id, Paused)
    {
      if id !in repo.rows || repo.rows[id].mentor != mentor {
        return PauseNotFound;
      }
      if repo.rows[id].status == Paused {
        return PauseDone;
      }
      if repo.rows[id].status != Running {
        return NotPausable;
      }
      var paused := repo.PauseRun(id, now);
      result := if paused then PauseDone else NotPausable;
    }

    /** `abandon_run`, with the release that frees a lock only if this very session holds it. */
    method AbandonRun(id: RunId, mentor: Mentor, now: int) returns (result: AbandonResult)
      modifies repo, session, session.server
      ensures result.AbandonNotFound? <==> !(id in old(repo.rows) && old(repo.rows)[id].mentor == mentor)
      ensures result.AbandonDone? <==>
                && id in old(repo.rows) && old(repo.rows)[id].mentor == mentor
                && (Active(old(repo.rows)[id].status) || old(repo.rows)[id].status.Abandoned?)
      ensures repo.rows == if result.AbandonDone? then AbandonIn(old(repo.rows), id, now) else old(repo.rows)
      ensures result.AbandonDone? ==> Has(repo.rows, id, Abandoned)
      ensures (session.server.held, session.tracked)
           == if result.AbandonDone? && !Has(old(repo.rows), id, Abandoned)
              then ReleaseOn(old(session.server.held), old(session.tracked), session.conn, old(repo.rows)[id].key)
              else (old(session.server.held), old(session.tracked))
      ensures id in old(repo.rows) && Synced(old(session.server.held), session.conn, old(session.tracked))
              && !HeldBy(old(session.server.held), session.conn, old(repo.rows)[id].key) ==>
                session.server.held == old(session.server.held)
    {
      if id !in repo.rows || repo.rows[id].mentor != mentor {
        return AbandonNotFound;
      }
      if repo.rows[id].status == Abandoned {
        return AbandonDone;
      }
      if !Active(repo.rows[id].status) {
        return NotAbandonable;
      }
      var key := repo.rows[id].key;
      var abandoned := repo.AbandonRun(id, now);
      if !abandoned {
        return NotAbandonable;
      }
      var _ := session.ReleaseGenerationLock(key);
      result := AbandonDone;
    }

    /** The sweeper's effect on one row. */
    static function Swept(r: Run, threshold: int, now: int): Run {
      if r.status.Running? && r.updatedAt < threshold then
        r.(status := Failed, error := Some(STALE_ERROR), nextRetryAt := None, updatedAt := now)
      else r
    }

    /** The slots of the rows that a sweep fails. */
    static function SweptKeys(t: Table, threshold: int): set<Key> {
      set i | i in t && t[i].status.Running? && t[i].updatedAt < threshold :: t[i].key
    }

    /**
     `recover_stale_runs`: exactly the stale running rows fail, each once, and the sweeping session
     gives up the locks of their slots that it holds itself, nobody else's.
     */
    method RecoverStaleRuns(threshold: int, now: int) returns (recovered: nat)
      modifies repo, session, session.server
      ensures repo.rows == map i | i in old(repo.rows) :: Swept(old(repo.rows)[i], threshold, now)
      ensures forall i | i in old(repo.rows) ::
                repo.rows[i].status == if old(repo.rows)[i].status == Running && old(repo.rows)[i].updatedAt < threshold
                                       then Failed else old(repo.rows)[i].status
      ensures recovered == |set i | i in old(repo.rows) && repo.rows[i] != old(repo.rows)[i]|
      ensures GaveUp(old(session.server.held), old(session.tracked), session.server.held, session.tracked,
                     session.conn, SweptKeys(old(repo.rows), threshold))
    {
      hide Synced, OthersKept, ReleaseOn;
      ghost var before, c := repo.rows, session.conn;
      ghost var held, tracked := session.server.held, session.tracked;
      assert GaveUp(held, tracked, held, tracked, c, {}) by { GaveUpNothing(held, tracked, c); }
      var stale := repo.FindStaleRunningRuns(threshold);
      recovered := 0;
      for k := 0 to |stale|
        invariant repo.rows.Keys == before.Keys
        invariant forall i | i in before ::
                    repo.rows[i] == if i in stale[..k] then Swept(before[i], threshold, now) else before[i]
        invariant recovered == k
        invariant GaveUp(held, tracked, session.server.held, session.tracked, c, KeysOf(before, stale[..k]))
      {
        hide GaveUp, KeysOf, StaleFailIn, MayMarkStale, GenerationRunService.Swept;
        var run := repo.rows[stale[k]];
        assert stale[k] !in stale[..k] && stale[k] in stale;
        assert stale[..k + 1] == stale[..k] + [stale[k]];
        KeysOfStep(before, stale, k);
        SampledFailSweeps(repo.rows, stale[k], threshold, now);
        var marked := repo.MarkStaleFailed(stale[k], Some(threshold), run.token, now);
        if marked {
          recovered := recovered + 1;
          GiveUpOneMore(held, tracked, session.server.held, session.tracked, c, KeysOf(before, stale[..k]), run.key);
          var _ := session.ReleaseGenerationLock(run.key);
        }
      }
      assert stale[..|stale|] == stale;
      assert KeysOf(before, stale) == SweptKeys(before, threshold);
      DistinctCount(stale);
      assert Elements(stale) == set i | i in before && repo.rows[i] != before[i];
    }
  }

  /** Failing a stale row by the token it carries is sweeping it. */
  lemma SampledFailSweeps(t: Table, id: RunId, threshold: int, now: int)
    requires id in t && t[id].status.Running? && t[id].updatedAt < threshold
    ensures MayMarkStale(t, id, Some(threshold), t[id].token)
    ensures StaleFailIn(t, id, Some(threshold), t[id].token, now)
         == t[id := GenerationRunService.Swept(t[id], threshold, now)]
  {
  }

  lemma GaveUpNothing(held: Held, tracked: set<Key>, c: Conn)
    ensures GaveUp(held, tracked, held, tracked, c, {})
  {
  }

  function KeysOf(t: Table, ids: seq<RunId>): set<Key> {
    set i | i in ids && i in t :: t[i].key
  }

  lemma KeysOfStep(t: Table, ids: seq<RunId>, k: nat)
    requires k < |ids| && ids[k] in t
    ensures KeysOf(t, ids[..k + 1]) == KeysOf(t, ids[..k]) + {t[ids[k]].key}
  {
    assert ids[..k + 1] == ids[..k] + [ids[k]];
  }

  function Elements(s: seq<RunId>): set<RunId> {
    set i | i in s
  }

  lemma {:induction false} DistinctCount(s: seq<RunId>)
    requires forall j, k | 0 <= j < k < |s| :: s[j] != s[k]
    ensures |Elements(s)| == |s|
  {
    if s != [] {
      DistinctCount(s[1..]);
      assert s[0] !in s[1..];
      assert Elements(s) == {s[0]} + Elements(s[1..]);
    }
  }
}
