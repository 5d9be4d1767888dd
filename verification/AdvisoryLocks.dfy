/**
 Session-level advisory locks: what Postgres holds, what a session believes it holds, and why the
 two agree for every interleaving of sessions.
 */
module AdvisoryLocks {
  import opened RunTable

  /** A database connection; session-level locks belong to one. */
  type Conn = nat

  datatype Hold = Hold(owner: Conn, count: nat)

  /** The server's lock table. */
  type Held = map<Key, Hold>

  predicate HeldBy(held: Held, c: Conn, k: Key) {
    k in held && held[k].owner == c
  }

  /** `pg_try_advisory_lock` grants a free lock, and stacks on a lock of the same connection. */
  predicate PgGrants(held: Held, c: Conn, k: Key) {
    k in held ==> held[k].owner == c
  }

  function PgTry(held: Held, c: Conn, k: Key): Held {
    if k !in held then held[k := Hold(c, 1)]
    else if held[k].owner == c then held[k := Hold(c, held[k].count + 1)]
    else held
  }

  /** `pg_advisory_unlock` gives back one level, if this connection holds the lock. */
  function PgUnlock(held: Held, c: Conn, k: Key): Held {
    if !HeldBy(held, c, k) then held
    else if held[k].count <= 1 then held - {k}
    else held[k := Hold(c, held[k].count - 1)]
  }

  function PgUnlockAll(held: Held, c: Conn): Held {
    map k | k in held && held[k].owner != c :: held[k]
  }

  /** The session's own record is exactly what its connection holds, each lock once. */
  predicate Synced(held: Held, c: Conn, tracked: set<Key>) {
    && (forall k | k in tracked :: HeldBy(held, c, k))
    && (forall k | k in held && held[k].owner == c :: k in tracked && held[k].count == 1)
  }

  /** Nothing another connection holds has changed. */
  predicate OthersKept(was: Held, held: Held, c: Conn) {
    && (forall k | k in was && was[k].owner != c :: k in held && held[k] == was[k])
    && (forall k | k in held && held[k].owner != c :: k in was && was[k] == held[k])
  }

  class LockServer {
    var held: Held

    constructor ()
      ensures held == map[]
    {
      held := map[];
    }

    method PgTryAdvisoryLock(c: Conn, k: Key) returns (granted: bool)
      modifies this
      ensures granted <==> PgGrants(old(held), c, k)
      ensures granted <==> k !in old(held) || old(held)[k].owner == c
      ensures granted ==> HeldBy(held, c, k) && held - {k} == old(held) - {k}
      ensures granted ==> held[k].count == if k in old(held) then old(held)[k].count + 1 else 1
      ensures !granted ==> held == old(held)
      ensures held == PgTry(old(held), c, k)
    {
      if k !in held {
        held := held[k := Hold(c, 1)];
        return true;
      }
      granted := held[k].owner == c;
      if granted {
        held := held[k := Hold(c, held[k].count + 1)];
      }
    }

    method PgAdvisoryUnlock(c: Conn, k: Key) returns (released: bool)
      modifies this
      ensures released <==> HeldBy(old(held), c, k)
      ensures held - {k} == old(held) - {k}
      ensures released ==> (k in held <==> old(held)[k].count > 1)
      ensures released && k in held ==> held[k] == Hold(c, old(held)[k].count - 1)
      ensures !released ==> held == old(held)
      ensures held == PgUnlock(old(held), c, k)
    {
      released := k in held && held[k].owner == c;
      if released {
        if held[k].count <= 1 {
          held := held - {k};
        } else {
          held := held[k := Hold(c, held[k].count - 1)];
        }
      }
    }

    method PgAdvisoryUnlockAll(c: Conn)
      modifies this
      ensures held == PgUnlockAll(old(held), c)
      ensures forall k :: k in held <==> k in old(held) && old(held)[k].owner != c
      ensures forall k | k in held :: held[k] == old(held)[k]
    {
      held := map k | k in held && held[k].owner != c :: held[k];
    }
  }

  /** What a session's own steps do: the lock table and the tracked set afterwards. */
  function TryAcquireOn(held: Held, tracked: set<Key>, c: Conn, k: Key): (Held, set<Key>) {
    if k in tracked then (held, tracked)
    else (PgTry(held, c, k), if PgGrants(held, c, k) then tracked + {k} else tracked)
  }

  function ReleaseOn(held: Held, tracked: set<Key>, c: Conn, k: Key): (Held, set<Key>) {
    if k !in tracked then (held, tracked)
    else (PgUnlock(held, c, k), if HeldBy(held, c, k) then tracked - {k} else tracked)
  }

  lemma AcquireKeepsSynced(held: Held, tracked: set<Key>, c: Conn, k: Key)
    requires Synced(held, c, tracked)
    ensures var (held', tracked') := TryAcquireOn(held, tracked, c, k);
            && Synced(held', c, tracked') && OthersKept(held, held', c)
            && (k in tracked' <==> PgGrants(held, c, k))
  {
  }

  lemma ReleaseKeepsSynced(held: Held, tracked: set<Key>, c: Conn, k: Key)
    requires Synced(held, c, tracked)
    ensures var (held', tracked') := ReleaseOn(held, tracked, c, k);
            && Synced(held', c, tracked') && OthersKept(held, held', c)
            && !HeldBy(held', c, k) && tracked' == tracked - {k}
  {
  }

  /** A session that agreed with the server has given up just these keys, and still agrees. */
  predicate GaveUp(was: Held, wasTracked: set<Key>, held: Held, tracked: set<Key>, c: Conn, keys: set<Key>) {
    Synced(was, c, wasTracked) ==>
      Synced(held, c, tracked) && OthersKept(was, held, c) && tracked == wasTracked - keys
  }

  lemma GiveUpOneMore(was: Held, wasTracked: set<Key>, held: Held, tracked: set<Key>, c: Conn, keys: set<Key>, k: Key)
    requires GaveUp(was, wasTracked, held, tracked, c, keys)
    ensures var (held', tracked') := ReleaseOn(held, tracked, c, k);
            GaveUp(was, wasTracked, held', tracked', c, keys + {k})
  {
    if Synced(was, c, wasTracked) {
      ReleaseKeepsSynced(held, tracked, c, k);
    }
  }

  /** What a job does with locks and transactions on its way. */
  datatype JobStep = Acquire(key: Key) | Release(key: Key) | Commit | Raise

  class Session {
    const conn: Conn
    const server: LockServer
    var tracked: set<Key>

    /** A fresh `session.info` on a connection that may still hold anything. */
    constructor (conn: Conn, server: LockServer)
      ensures this.conn == conn && this.server == server && tracked == {}
    {
      this.conn := conn;
      this.server := server;
      tracked := {};
    }

    /** `try_acquire_generation_lock` */
    method TryAcquireGenerationLock(k: Key) returns (acquired: bool)
      modifies this, server
      ensures (server.held, tracked) == TryAcquireOn(old(server.held), old(tracked), conn, k)
      ensures acquired <==> k in tracked
      ensures acquired <==> k in old(tracked) || k !in old(server.held) || old(server.held)[k].owner == conn
      ensures tracked == if acquired then old(tracked) + {k} else old(tracked)
      ensures Synced(old(server.held), conn, old(tracked)) ==>
                Synced(server.held, conn, tracked) && OthersKept(old(server.held), server.held, conn)
    {
      if Synced(server.held, conn, tracked) {
        AcquireKeepsSynced(server.held, tracked, conn, k);
      }
      if k in tracked {
        return true;
      }
      acquired := server.PgTryAdvisoryLock(conn, k);
      if acquired {
        tracked := tracked + {k};
      }
    }

    /** `release_generation_lock` */
    method ReleaseGenerationLock(k: Key) returns (released: bool)
      modifies this, server
      ensures (server.held, tracked) == ReleaseOn(old(server.held), old(tracked), conn, k)
      ensures released <==> k in old(tracked) && k !in tracked
      ensures released <==> k in old(tracked) && HeldBy(old(server.held), conn, k)
      ensures tracked == if released then old(tracked) - {k} else old(tracked)
      ensures Synced(old(server.held), conn, old(tracked)) ==>
                Synced(server.held, conn, tracked) && OthersKept(old(server.held), server.held, conn)
    {
      if Synced(server.held, conn, tracked) {
        ReleaseKeepsSynced(server.held, tracked, conn, k);
      }
      if k !in tracked {
        return false;
      }
      released := server.PgAdvisoryUnlock(conn, k);
      if released {
        tracked := tracked - {k};
      }
    }

    /** `release_all_generation_locks`, also what `prepare_session_for_generation` does. */
    method ReleaseAllGenerationLocks()
      modifies this, server
      ensures tracked == {} && server.held == PgUnlockAll(old(server.held), conn)
      ensures Synced(server.held, conn, tracked) && OthersKept(old(server.held), server.held, conn)
    {
      tracked := {};
      server.PgAdvisoryUnlockAll(conn);
    }
  }

  /**
   `run_generation_job`: whatever the job acquires, releases, commits or raises, and whatever its
   pooled connection still held before, the connection ends with no lock and nobody else's lock
   has moved.
   */
  method RunGenerationJob(session: Session, script: seq<JobStep>) returns (raised: bool)
    modifies session, session.server
    ensures raised <==> Raise in script
    ensures session.tracked == {}
    ensures forall k :: !HeldBy(session.server.held, session.conn, k)
    ensures OthersKept(old(session.server.held), session.server.held, session.conn)
  {
    session.ReleaseAllGenerationLocks();
    raised := false;
    var i := 0;
    while i < |script| && !raised
      invariant 0 <= i <= |script|
      invariant raised <==> Raise in script[..i]
      invariant Synced(session.server.held, session.conn, session.tracked)
      invariant OthersKept(old(session.server.held), session.server.held, session.conn)
    {
      match script[i] {
        case Acquire(k) => var _ := session.TryAcquireGenerationLock(k);
        case Release(k) => var _ := session.ReleaseGenerationLock(k);
        case Commit =>
        case Raise => raised := true;
      }
      assert script[..i + 1] == script[..i] + [script[i]];
      i := i + 1;
    }
    assert !raised ==> script[..i] == script;
    session.ReleaseAllGenerationLocks();
  }

  // ---------------------------------------------------------------- every interleaving

  /** All sessions at once.  A connection is live from the start of a job to its end. */
  datatype LockWorld = LockWorld(held: Held, tracked: map<Conn, set<Key>>)

  datatype LockEvent =
    | Begin(c: Conn)             // a new session on a pooled connection, and its preparation
    | TryLock(c: Conn, k: Key)
    | Unlock(c: Conn, k: Key)
    | End(c: Conn)               // final clean-up, connection back to the pool

  predicate Enabled(w: LockWorld, e: LockEvent) {
    if e.Begin? then e.c !in w.tracked else e.c in w.tracked
  }

  function LockStep(w: LockWorld, e: LockEvent): LockWorld
    requires Enabled(w, e)
  {
    match e
    case Begin(c) => LockWorld(PgUnlockAll(w.held, c), w.tracked[c := {}])
    case TryLock(c, k) =>
      var (held, mine) := TryAcquireOn(w.held, w.tracked[c], c, k);
      LockWorld(held, w.tracked[c := mine])
    case Unlock(c, k) =>
      var (held, mine) := ReleaseOn(w.held, w.tracked[c], c, k);
      LockWorld(held, w.tracked[c := mine])
    case End(c) => LockWorld(PgUnlockAll(w.held, c), w.tracked - {c})
  }

  predicate AllSynced(w: LockWorld) {
    forall c | c in w.tracked :: Synced(w.held, c, w.tracked[c])
  }

  predicate Playable(w: LockWorld, es: seq<LockEvent>)
    decreases |es|
  {
    es == [] || (Enabled(w, es[0]) && Playable(LockStep(w, es[0]), es[1..]))
  }

  function Play(w: LockWorld, es: seq<LockEvent>): LockWorld
    requires Playable(w, es)
    decreases |es|
  {
    if es == [] then w else Play(LockStep(w, es[0]), es[1..])
  }

  /** A session's agreement survives steps that leave its connection's locks alone. */
  lemma SyncedFrame(was: Held, held: Held, actor: Conn, c: Conn, tracked: set<Key>)
    requires Synced(was, c, tracked) && OthersKept(was, held, actor) && c != actor
    ensures Synced(held, c, tracked)
  {
  }

  lemma LockStepKeepsSynced(w: LockWorld, e: LockEvent)
    requires AllSynced(w) && Enabled(w, e)
    ensures AllSynced(LockStep(w, e)) && OthersKept(w.held, LockStep(w, e).held, e.c)
  {
    var w' := LockStep(w, e);
    if e.TryLock? {
      AcquireKeepsSynced(w.held, w.tracked[e.c], e.c, e.k);
    } else if e.Unlock? {
      ReleaseKeepsSynced(w.held, w.tracked[e.c], e.c, e.k);
    }
    assert OthersKept(w.held, w'.held, e.c);
    forall c | c in w'.tracked && c != e.c
      ensures Synced(w'.held, c, w'.tracked[c])
    {
      SyncedFrame(w.held, w'.held, e.c, c, w.tracked[c]);
    }
  }

  lemma {:induction false} SyncedAlways(w: LockWorld, es: seq<LockEvent>)
    requires AllSynced(w) && Playable(w, es)
    ensures AllSynced(Play(w, es))
    decreases |es|
  {
    if es != [] {
      LockStepKeepsSynced(w, es[0]);
      SyncedAlways(LockStep(w, es[0]), es[1..]);
    }
  }

  /**
   Lock exclusion, starting from pooled connections in any state and no job yet: whatever the
   sessions do, each one tracks exactly what it holds, once, and no key is tracked by two.
   */
  lemma NoKeyInTwoSessions(leftovers: Held, es: seq<LockEvent>)
    requires Playable(LockWorld(leftovers, map[]), es)
    ensures AllSynced(Play(LockWorld(leftovers, map[]), es))
    ensures var w := Play(LockWorld(leftovers, map[]), es);
            forall c, d, k | c in w.tracked && d in w.tracked && k in w.tracked[c] && k in w.tracked[d] :: c == d
  {
    SyncedAlways(LockWorld(leftovers, map[]), es);
    var w := Play(LockWorld(leftovers, map[]), es);
    forall c, d, k | c in w.tracked && d in w.tracked && k in w.tracked[c] && k in w.tracked[d]
      ensures c == d
    {
      assert HeldBy(w.held, c, k) && HeldBy(w.held, d, k);
    }
  }

  /** A release from a session that does not hold the key, such as the API's abandon, frees nothing. */
  lemma ForeignReleaseFreesNothing(w: LockWorld, c: Conn, k: Key)
    requires AllSynced(w) && c in w.tracked && !HeldBy(w.held, c, k)
    ensures LockStep(w, Unlock(c, k)) == w
  {
    assert k !in w.tracked[c];
    assert w.tracked[c := w.tracked[c]] == w.tracked;
  }
}
