/** How a background worker enters a run: retry the slot's lock while the run stays live. */
module WorkerEntry {
  import opened Option
  import opened RunTable
  import opened AdvisoryLocks
  import opened GenerationRuns

  const LOCK_ACQUIRE_MAX_ATTEMPTS: nat := 25

  const LOCK_ERROR := RunError("Could not acquire generation lock for this resource.", Some("lock_unavailable"))

  /**
   Whatever other sessions do while this one sleeps or waits for the database: rows and other
   connections' locks may change arbitrarily, this connection's locks may not.
   */
  method OtherSessionsRun(repo: GenerationRunRepository, session: Session)
    modifies repo, session.server
    ensures forall k | HeldBy(old(session.server.held), session.conn, k) ::
              k in session.server.held && session.server.held[k] == old(session.server.held)[k]
    ensures forall k | HeldBy(session.server.held, session.conn, k) :: HeldBy(old(session.server.held), session.conn, k)
  {
  }

  lemma OwnLocksKept(was: Held, held: Held, c: Conn, tracked: set<Key>)
    requires Synced(was, c, tracked)
    requires forall k | HeldBy(was, c, k) :: k in held && held[k] == was[k]
    requires forall k | HeldBy(held, c, k) :: HeldBy(was, c, k)
    ensures Synced(held, c, tracked)
  {
  }

  /** `fail_run` of the service: read the row, then a write guarded by the token just read. */
  method FailRunAndRelease(repo: GenerationRunRepository, session: Session, id: RunId, error: RunError, now: int)
    modifies repo, session, session.server
    requires Synced(session.server.held, session.conn, session.tracked)
    ensures Synced(session.server.held, session.conn, session.tracked)
    ensures OthersKept(old(session.server.held), session.server.held, session.conn)
    ensures id !in old(repo.rows) ==> repo.rows == old(repo.rows) && session.tracked == old(session.tracked)
    ensures Has(old(repo.rows), id, Running) ==>
              && Has(repo.rows, id, Failed) && repo.rows[id].error == Some(error)
              && repo.rows - {id} == old(repo.rows) - {id}
    ensures !Has(old(repo.rows), id, Running) ==> repo.rows == old(repo.rows)
    ensures id in old(repo.rows) ==>
              && repo.rows == FailIn(old(repo.rows), id, old(repo.rows)[id].token, error, None, now)
              && session.tracked == old(session.tracked) - {old(repo.rows)[id].key}
  {
    if id in repo.rows {
      var run := repo.rows[id];
      ReleaseKeepsSynced(session.server.held, session.tracked, session.conn, run.key);
      var _ := repo.FailRun(id, run.token, error, None, now);
      var _ := session.ReleaseGenerationLock(run.key);
    }
  }

  /**
   `acquire_lock_for_run`: a run is handed to the worker only while this session holds the lock of
   the run's slot, so no other session does, and only if the run was running when last read.  A
   worker that finds a running run and a lock it may have enters at once; one that comes back without
   a run leaves it not running, and gives up only after the full number of attempts.
   */
  method AcquireLockForRun(repo: GenerationRunRepository, session: Session, id: RunId, now: int)
    returns (entered: Option<Run>, exhausted: bool, ghost tries: nat)
    modifies repo, session, session.server
    requires Synced(session.server.held, session.conn, session.tracked)
    ensures Synced(session.server.held, session.conn, session.tracked)
    ensures entered.Some? ==>
              && entered.value.status == Running
              && entered.value.key in session.tracked
              && HeldBy(session.server.held, session.conn, entered.value.key)
    ensures entered.Some? ==> session.tracked == old(session.tracked) + {entered.value.key}
    ensures entered.None? ==> session.tracked <= old(session.tracked)
    ensures !(id in old(repo.rows) && old(repo.rows)[id].status == Running) ==>
              entered.None? && !exhausted && repo.rows == old(repo.rows)
    ensures exhausted ==> entered.None? && tries == 25
    ensures entered.None? ==> !Has(repo.rows, id, Running)
    ensures Has(old(repo.rows), id, Running)
            && (old(repo.rows)[id].key !in old(session.server.held)
                || old(session.server.held)[old(repo.rows)[id].key].owner == session.conn) ==>
              entered == Some(old(repo.rows)[id]) && !exhausted && repo.rows == old(repo.rows) && tries == 1
  {
    exhausted, tries := false, 0;
    if id !in repo.rows || repo.rows[id].status != Running {
      return None, false, 0;
    }
    var run := repo.rows[id];
    var attempt := 0;
    while attempt < LOCK_ACQUIRE_MAX_ATTEMPTS
      invariant run.status == Running
      invariant session.tracked == old(session.tracked)
      invariant Synced(session.server.held, session.conn, session.tracked)
      invariant tries == attempt <= LOCK_ACQUIRE_MAX_ATTEMPTS
      invariant attempt == 0 ==>
                  && run == old(repo.rows)[id] && repo.rows == old(repo.rows)
                  && session.server.held == old(session.server.held)
      invariant attempt > 0 ==>
                  !PgGrants(old(session.server.held), session.conn, old(repo.rows)[id].key)
    {
      tries := tries + 1;
      var acquired := session.TryAcquireGenerationLock(run.key);
      if acquired {
        return Some(run), false, tries;
      }
      ghost var held := session.server.held;
      OtherSessionsRun(repo, session);
      OwnLocksKept(held, session.server.held, session.conn, session.tracked);
      if attempt < LOCK_ACQUIRE_MAX_ATTEMPTS - 1 {
        if id !in repo.rows || repo.rows[id].status != Running {
          return None, false, tries;
        }
        run := repo.rows[id];
      }
      attempt := attempt + 1;
    }
    FailRunAndRelease(repo, session, id, LOCK_ERROR, now);
    return None, true, tries;
  }

  /**
   `_fail_run_if_left_running`: settles the sampled attempt if it is still running, and only that
   one.  A database error on the way is logged and swallowed, and then nothing is settled.
   */
  method FailRunIfLeftRunning(
    repo: GenerationRunRepository, id: RunId, expected: Option<Token>, databaseFails: bool, now: int)
    modifies repo
    ensures forall i | i in old(repo.rows) && !(i == id && expected.Some? && old(repo.rows)[i].token == expected) ::
              i in repo.rows && repo.rows[i] == old(repo.rows)[i]
    ensures expected.Some? && !databaseFails ==> !(Has(repo.rows, id, Running) && repo.rows[id].token == expected)
    ensures expected.Some? && !databaseFails && Has(old(repo.rows), id, Running)
            && old(repo.rows)[id].token == expected ==>
              Has(repo.rows, id, Failed) && repo.rows[id].error == Some(STALE_ERROR)
    ensures repo.rows.Keys == old(repo.rows).Keys
    ensures forall i | i in old(repo.rows) && !old(repo.rows)[i].status.Running? :: repo.rows[i] == old(repo.rows)[i]
    ensures expected.None? || databaseFails ==> repo.rows == old(repo.rows)
  {
    if expected.None? {
      return;
    }
    if databaseFails {
      return;
    }
    var _ := repo.MarkStaleFailed(id, None, expected, now);
  }

  /**
   `execute_generation_run_job`: the job reads its row first and works after that.  However it ends
   and whatever others do meanwhile, its connection goes back without a lock, and the attempt whose
   token it read is not left running unless the database fails again when that is to be settled.
   */
  method ExecuteGenerationRunJob(
    repo: GenerationRunRepository, session: Session, id: RunId, readFails: bool, script: seq<JobStep>,
    databaseFails: bool, now: int) returns (raised: bool, sampled: Option<Token>)
    modifies repo, session, session.server
    ensures raised <==> readFails || Raise in script
    ensures session.tracked == {} && forall k :: !HeldBy(session.server.held, session.conn, k)
    ensures sampled == if !readFails && id in old(repo.rows) then old(repo.rows)[id].token else None
    ensures sampled.Some? && !databaseFails ==> !(Has(repo.rows, id, Running) && repo.rows[id].token == sampled)
  {
    sampled := None;
    if readFails {
      raised := RunGenerationJob(session, [Raise]);
    } else {
      if id in repo.rows {
        sampled := repo.rows[id].token;
      }
      raised := RunGenerationJob(session, script);
    }
    OtherSessionsRun(repo, session);
    FailRunIfLeftRunning(repo, id, sampled, databaseFails, now);
  }
}
