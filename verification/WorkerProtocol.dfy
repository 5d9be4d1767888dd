/** Worker sessions at work: at most one of them is inside the runs of a slot at any moment. */
module WorkerProtocol {
  import opened RunTable
  import opened AdvisoryLocks

  /** A run that a session has entered, with the slot it read when it did. */
  datatype Entry = Entry(run: RunId, slot: Key)

  datatype WorkerWorld = WorkerWorld(rows: Table, locks: LockWorld, inside: map<Conn, set<Entry>>)

  /**
   Anybody may change the rows at any time.  A session steps on its locks; releasing a slot, or
   ending, is leaving its runs.  An entry is one successful turn of `acquire_lock_for_run`.
   */
  datatype WorkerEvent =
    | ChangeRows(rows: Table)
    | OnLocks(step: LockEvent)
    | TryEnter(c: Conn, id: RunId)

  function EntriesOf(w: WorkerWorld, c: Conn): set<Entry> {
    if c in w.inside then w.inside[c] else {}
  }

  predicate Possible(w: WorkerWorld, e: WorkerEvent) {
    match e
    case ChangeRows(_) => true
    case OnLocks(step) => Enabled(w.locks, step)
    case TryEnter(c, id) => c in w.locks.tracked
  }

  /** The entries a session keeps over a step on its locks. */
  function Remaining(entries: set<Entry>, step: LockEvent): set<Entry> {
    match step
    case Begin(_) => {}
    case TryLock(_, _) => entries
    case Unlock(_, k) => set e | e in entries && e.slot != k
    case End(_) => {}
  }

  function WorkerStep(w: WorkerWorld, e: WorkerEvent): WorkerWorld
    requires Possible(w, e)
  {
    match e
    case ChangeRows(rows) => w.(rows := rows)
    case OnLocks(step) =>
      w.(locks := LockStep(w.locks, step),
         inside := w.inside[step.c := Remaining(EntriesOf(w, step.c), step)])
    case TryEnter(c, id) =>
      if !Has(w.rows, id, Running) then w
      else
        var slot := w.rows[id].key;
        var locks := LockStep(w.locks, TryLock(c, slot));
        if slot in locks.tracked[c]
        then w.(locks := locks, inside := w.inside[c := EntriesOf(w, c) + {Entry(id, slot)}])
        else w.(locks := locks)
  }

  /** Whoever is inside a run tracks the lock of its slot. */
  predicate InsideWithLock(w: WorkerWorld) {
    forall c | c in w.inside :: forall e | e in w.inside[c] :: c in w.locks.tracked && e.slot in w.locks.tracked[c]
  }

  predicate WorkerInv(w: WorkerWorld) {
    AllSynced(w.locks) && InsideWithLock(w)
  }

  /** A step on the locks of one session touches no other session's record, and forgets only what it releases. */
  lemma LockStepTracks(w: LockWorld, step: LockEvent)
    requires AllSynced(w) && Enabled(w, step)
    ensures var after := LockStep(w, step);
            && (forall d | d != step.c :: (d in after.tracked <==> d in w.tracked)
                                          && (d in w.tracked ==> after.tracked[d] == w.tracked[d]))
            && (step.TryLock? ==> step.c in after.tracked && w.tracked[step.c] <= after.tracked[step.c])
            && (step.Unlock? ==> step.c in after.tracked && w.tracked[step.c] - {step.k} <= after.tracked[step.c])
  {
  }

  lemma WorkerStepKeepsInv(w: WorkerWorld, e: WorkerEvent)
    requires WorkerInv(w) && Possible(w, e)
    ensures WorkerInv(WorkerStep(w, e))
  {
    hide LockStep, AllSynced;
    match e
    case ChangeRows(_) =>
    case OnLocks(step) =>
      LockStepKeepsSynced(w.locks, step);
      LockStepTracks(w.locks, step);
    case TryEnter(c, id) =>
      if Has(w.rows, id, Running) {
        LockStepKeepsSynced(w.locks, TryLock(c, w.rows[id].key));
        LockStepTracks(w.locks, TryLock(c, w.rows[id].key));
      }
  }

  /** A worker that tries a running run enters it exactly if the slot's lock is free or its own. */
  lemma EntersExactlyWhen(w: WorkerWorld, c: Conn, id: RunId)
    requires WorkerInv(w) && Possible(w, TryEnter(c, id)) && id in w.rows
    ensures var slot, after := w.rows[id].key, WorkerStep(w, TryEnter(c, id));
            && (w.rows[id].status == Running ==>
                  (Entry(id, slot) in EntriesOf(after, c) <==>
                     slot !in w.locks.held || w.locks.held[slot].owner == c))
            && (w.rows[id].status != Running ==> after == w)
            && EntriesOf(after, c) <= EntriesOf(w, c) + {Entry(id, slot)}
            && forall d | d != c :: EntriesOf(after, d) == EntriesOf(w, d)
  {
    var slot := w.rows[id].key;
    assert Synced(w.locks.held, c, w.locks.tracked[c]);
    if Entry(id, slot) in EntriesOf(w, c) {
      assert slot in w.locks.tracked[c];
    }
    AcquireKeepsSynced(w.locks.held, w.locks.tracked[c], c, slot);
    hide Synced, OthersKept, AllSynced, InsideWithLock, PgTry;
  }

  /** A session leaves a run only by releasing its slot, by ending, or by starting afresh. */
  lemma StaysInside(w: WorkerWorld, e: WorkerEvent, c: Conn, entry: Entry)
    requires Possible(w, e) && entry in EntriesOf(w, c)
    ensures entry in EntriesOf(WorkerStep(w, e), c) <==>
              !(e.OnLocks? && e.step in [Begin(c), End(c), Unlock(c, entry.slot)])
  {
    hide LockStep;
  }

  predicate Runnable(w: WorkerWorld, es: seq<WorkerEvent>)
    decreases |es|
  {
    es == [] || (Possible(w, es[0]) && Runnable(WorkerStep(w, es[0]), es[1..]))
  }

  function Run(w: WorkerWorld, es: seq<WorkerEvent>): WorkerWorld
    requires Runnable(w, es)
    decreases |es|
  {
    if es == [] then w else Run(WorkerStep(w, es[0]), es[1..])
  }

  lemma {:induction false} WorkerInvAlways(w: WorkerWorld, es: seq<WorkerEvent>)
    requires WorkerInv(w) && Runnable(w, es)
    ensures WorkerInv(Run(w, es))
    decreases |es|
  {
    if es != [] {
      WorkerStepKeepsInv(w, es[0]);
      WorkerInvAlways(WorkerStep(w, es[0]), es[1..]);
    }
  }

  /**
   However workers, mentors and sweepers interleave, and whatever locks dead connections left behind,
   two sessions that are inside runs of one slot are one session, and it holds the slot's lock.
   */
  lemma OneWorkerPerSlot(rows: Table, leftovers: Held, es: seq<WorkerEvent>, c: Conn, d: Conn, a: Entry, b: Entry)
    requires Runnable(WorkerWorld(rows, LockWorld(leftovers, map[]), map[]), es)
    requires var w := Run(WorkerWorld(rows, LockWorld(leftovers, map[]), map[]), es);
             a in EntriesOf(w, c) && b in EntriesOf(w, d) && a.slot == b.slot
    ensures c == d
    ensures HeldBy(Run(WorkerWorld(rows, LockWorld(leftovers, map[]), map[]), es).locks.held, c, a.slot)
  {
    var start := WorkerWorld(rows, LockWorld(leftovers, map[]), map[]);
    WorkerInvAlways(start, es);
    var w := Run(start, es);
    assert a.slot in w.locks.tracked[c] && b.slot in w.locks.tracked[d];
    assert Synced(w.locks.held, c, w.locks.tracked[c]) && Synced(w.locks.held, d, w.locks.tracked[d]);
  }
}
