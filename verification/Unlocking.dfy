/** Progressive unlocking: who may open a node now, and which permissions are durable. */
module Unlocking {
  import opened Option
  import opened Completion
  import opened TopicForest
  import opened LearningUnits

  type Trainee = nat

  datatype Key = Key(trainee: Trainee, node: Id)

  datatype UnlockSource = ParentCompleted | Backfill

  datatype Grant = Grant(gate: Id, source: UnlockSource)

  type Grants = map<Key, Grant>

  /** The tables of one space: its tree, publications, progress rows and durable grants. */
  datatype Space = Space(
    forest: Forest, published: set<Id>, rows: map<Key, ProgressRow>, quizNodes: set<Id>, grants: Grants)

  datatype Access = ComingSoon | PrerequisiteLocked(blockedBy: Id) | Available

  /** What one request loads for one trainee before it decides. */
  datatype ProgressContext = ProgressContext(snapshots: Progress, quizNodes: set<Id>, unlocked: set<Id>)

  /** The direct parent, when it has published material of its own. */
  function Gate(f: Forest, published: set<Id>, n: Id): Option<Id> {
    if ParentOf(f, n).Some? && ParentOf(f, n).value in published then ParentOf(f, n) else None
  }

  predicate IsProgressComplete(ctx: ProgressContext, n: Id) {
    n in ctx.snapshots && IsLearningUnitComplete(ctx.snapshots[n].facts, n in ctx.quizNodes)
  }

  /** `resolve_node_access`, on what the request loaded. */
  function Resolve(f: Forest, published: set<Id>, ctx: ProgressContext, n: Id): Access {
    if !Accessible(f, published, n) then ComingSoon
    else if Gate(f, published, n).None? then Available
    else if n in ctx.unlocked then Available
    else if IsProgressComplete(ctx, Gate(f, published, n).value) then Available
    else PrerequisiteLocked(Gate(f, published, n).value)
  }

  method ResolveNodeAccess(f: Forest, published: set<Id>, ctx: ProgressContext, n: Id) returns (a: Access)
    ensures a == Resolve(f, published, ctx, n)
    ensures a == ComingSoon <==> forall x | x in published :: !InSubtree(f, x, n)
    ensures forall g: Id :: a == PrerequisiteLocked(g) <==>
              && (exists x | x in published :: InSubtree(f, x, n))
              && ParentOf(f, n) == Some(g) && g in published && n !in ctx.unlocked
              && !(g in ctx.snapshots && ctx.snapshots[g].facts.studyCompleted
                   && (g in ctx.quizNodes ==> ctx.snapshots[g].facts.quizPassed))
  {
    hide InSubtree;
    var accessible := HasAccessibleLearningContent(f, n, published);
    if !accessible {
      return ComingSoon;
    }
    var parent := ParentOf(f, n);
    if parent.None? || parent.value !in published {
      return Available;
    }
    if n in ctx.unlocked {
      return Available;
    }
    if IsProgressComplete(ctx, parent.value) {
      return Available;
    }
    return PrerequisiteLocked(parent.value);
  }

  predicate CompleteFor(w: Space, t: Trainee, n: Id) {
    Key(t, n) in w.rows && IsLearningUnitComplete(w.rows[Key(t, n)], n in w.quizNodes)
  }

  function GateIn(w: Space, n: Id): Option<Id> {
    Gate(w.forest, w.published, n)
  }

  predicate AccessibleIn(w: Space, n: Id) {
    Accessible(w.forest, w.published, n)
  }

  /** The product rule, read off the tables themselves: locked exactly behind an unfinished gate with no grant. */
  predicate LockedBy(w: Space, t: Trainee, n: Id, gate: Id) {
    AccessibleIn(w, n) && GateIn(w, n) == Some(gate) && Key(t, n) !in w.grants && !CompleteFor(w, t, gate)
  }

  function AccessFor(w: Space, t: Trainee, n: Id): (a: Access)
    ensures a == ComingSoon <==> !AccessibleIn(w, n)
    ensures forall g :: a == PrerequisiteLocked(g) <==> LockedBy(w, t, n, g)
  {
    if !AccessibleIn(w, n) then ComingSoon
    else if GateIn(w, n).Some? && LockedBy(w, t, n, GateIn(w, n).value) then PrerequisiteLocked(GateIn(w, n).value)
    else Available
  }

  /** The rule in the words of the tables: published material below, the parent's own, a grant, finished or not. */
  lemma AccessMeans(w: Space, t: Trainee, n: Id)
    ensures AccessFor(w, t, n) == ComingSoon <==> forall x | x in w.published :: !InSubtree(w.forest, x, n)
    ensures forall g: Id :: AccessFor(w, t, n) == PrerequisiteLocked(g) <==>
              && (exists x | x in w.published :: InSubtree(w.forest, x, n))
              && ParentOf(w.forest, n) == Some(g) && g in w.published
              && Key(t, n) !in w.grants
              && !(Key(t, g) in w.rows && w.rows[Key(t, g)].studyCompleted
                   && (g in w.quizNodes ==> w.rows[Key(t, g)].quizPassed))
  {
    hide InSubtree, ParentOf;
  }

  /** What `build_unlock_progress_context` loads. */
  function LiveContext(w: Space, t: Trainee, ids: set<Id>): ProgressContext {
    ProgressContext(
      map x | x in ids && Key(t, x) in w.rows :: SnapshotFromRow(w.rows[Key(t, x)], x in w.quizNodes),
      w.quizNodes * ids,
      set x | x in ids && Key(t, x) in w.grants)
  }

  predicate Covers(w: Space, ids: set<Id>, n: Id) {
    n in ids && (ParentOf(w.forest, n).Some? ==> ParentOf(w.forest, n).value in ids)
  }

  /** A context that covers a node and its parent decides as the tables do. */
  lemma LiveContextDecides(w: Space, t: Trainee, ids: set<Id>, n: Id)
    requires Covers(w, ids, n)
    ensures Resolve(w.forest, w.published, LiveContext(w, t, ids), n) == AccessFor(w, t, n)
  {
    var ctx := LiveContext(w, t, ids);
    if GateIn(w, n).Some? {
      var g := GateIn(w, n).value;
      assert IsProgressComplete(ctx, g) <==> CompleteFor(w, t, g);
    }
  }

  /** Insert, doing nothing on a conflict: what is already there wins. */
  function AddGrants(grants: Grants, added: set<Key>, g: Grant): Grants {
    (map k | k in added :: g) + grants
  }

  function EligibleChildren(w: Space, p: Id): set<Id> {
    set x | x in Kids(w.forest, p) && AccessibleIn(w, x)
  }

  function KeysOf(ts: set<Trainee>, nodes: set<Id>): set<Key> {
    set t, x | t in ts && x in nodes :: Key(t, x)
  }

  function CompletedTrainees(w: Space, p: Id): set<Trainee> {
    set k | k in w.rows && k.node == p && CompleteFor(w, k.trainee, p) :: k.trainee
  }

  function GrantChildren(w: Space, ts: set<Trainee>, p: Id): Space {
    w.(grants := AddGrants(w.grants, KeysOf(ts, EligibleChildren(w, p)), Grant(p, ParentCompleted)))
  }

  /**
   The steps of a space.  `Drift` is anything that leaves the grants alone: progress made or
   reset, quizzes and thresholds changed, material published or unpublished, the tree reshaped.
   */
  datatype Event =
    | Drift(forest: Forest, published: set<Id>, rows: map<Key, ProgressRow>, quizNodes: set<Id>)
    | Open(trainee: Trainee, node: Id)
    | CompleteNode(trainee: Trainee, node: Id)
    | Regrant(node: Id)
    | ChildPublished(node: Id)
    | ClearReparented(node: Id)

  function Next(w: Space, e: Event): Space {
    match e
    case Drift(forest, published, rows, quizNodes) => Space(forest, published, rows, quizNodes, w.grants)
    case Open(t, n) =>
      if AccessFor(w, t, n) == Available && GateIn(w, n).Some?
      then w.(grants := AddGrants(w.grants, {Key(t, n)}, Grant(GateIn(w, n).value, Backfill)))
      else w
    case CompleteNode(t, p) => GrantChildren(w, {t}, p)
    case Regrant(p) => GrantChildren(w, CompletedTrainees(w, p), p)
    case ChildPublished(n) =>
      if AccessibleIn(w, n) && GateIn(w, n).Some?
      then GrantChildren(w, CompletedTrainees(w, GateIn(w, n).value), GateIn(w, n).value)
      else w
    case ClearReparented(n) => w.(grants := map k | k in w.grants && k.node != n :: w.grants[k])
  }

  predicate Finished(w: Space, t: Trainee, p: Id) {
    && Key(t, p) in w.rows && w.rows[Key(t, p)].studyCompleted
    && (p in w.quizNodes ==> w.rows[Key(t, p)].quizPassed)
  }

  lemma GrantChildrenMeans(w: Space, ts: set<Trainee>, p: Id, k: Key)
    ensures k in GrantChildren(w, ts, p).grants <==>
              || k in w.grants
              || (k.trainee in ts && k.node in Kids(w.forest, p) && AccessibleIn(w, k.node))
    ensures k in w.grants ==> GrantChildren(w, ts, p).grants[k] == w.grants[k]
    ensures k in GrantChildren(w, ts, p).grants && k !in w.grants ==>
              GrantChildren(w, ts, p).grants[k] == Grant(p, ParentCompleted)
  {
    hide Accessible;
    assert k in KeysOf(ts, EligibleChildren(w, p)) <==> k.trainee in ts && k.node in EligibleChildren(w, p) by {
      assert k == Key(k.trainee, k.node);
    }
    hide KeysOf, EligibleChildren;
  }

  /** Every step but drift leaves the tree, the publications, the rows and the quizzes alone. */
  lemma OnlyDriftMovesTables(w: Space, e: Event)
    ensures e.Drift? ==> Next(w, e) == Space(e.forest, e.published, e.rows, e.quizNodes, w.grants)
    ensures !e.Drift? ==> Next(w, e) == w.(grants := Next(w, e).grants)
  {
    hide AddGrants, KeysOf, EligibleChildren, CompletedTrainees, AccessFor, Accessible, Gate;
  }

  /** Which grants exist after a step, and what a new one records. */
  lemma GrantsMove(w: Space, e: Event, k: Key)
    ensures var after := Next(w, e).grants;
            && (k in after ==> after[k] == if k in w.grants then w.grants[k]
                                           else match e
                                                case Open(_, n) => Grant(ParentOf(w.forest, n).value, Backfill)
                                                case CompleteNode(_, p) => Grant(p, ParentCompleted)
                                                case Regrant(p) => Grant(p, ParentCompleted)
                                                case ChildPublished(n) =>
                                                  Grant(ParentOf(w.forest, n).value, ParentCompleted)
                                                case _ => after[k])
            && match e
               case Drift(_, _, _, _) => k in after <==> k in w.grants
               case Open(t, n) =>
                 k in after <==>
                   || k in w.grants
                   || (k == Key(t, n) && AccessFor(w, t, n) == Available
                       && ParentOf(w.forest, n).Some? && ParentOf(w.forest, n).value in w.published)
               case CompleteNode(t, p) =>
                 k in after <==>
                   k in w.grants || (k.trainee == t && k.node in Kids(w.forest, p) && AccessibleIn(w, k.node))
               case Regrant(p) =>
                 k in after <==>
                   || k in w.grants
                   || (Finished(w, k.trainee, p) && k.node in Kids(w.forest, p) && AccessibleIn(w, k.node))
               case ChildPublished(n) =>
                 k in after <==>
                   || k in w.grants
                   || (AccessibleIn(w, n) && ParentOf(w.forest, n).Some? && ParentOf(w.forest, n).value in w.published
                       && Finished(w, k.trainee, ParentOf(w.forest, n).value)
                       && k.node in Kids(w.forest, ParentOf(w.forest, n).value) && AccessibleIn(w, k.node))
               case ClearReparented(n) => k in after <==> k in w.grants && k.node != n
  {
    hide AccessFor, Accessible, GrantChildren;
    match e
    case CompleteNode(t, p) => GrantChildrenMeans(w, {t}, p, k);
    case Regrant(p) =>
      CompletedMeans(w, k.trainee, p);
      GrantChildrenMeans(w, CompletedTrainees(w, p), p, k);
    case ChildPublished(n) =>
      if GateIn(w, n).Some? {
        CompletedMeans(w, k.trainee, GateIn(w, n).value);
        GrantChildrenMeans(w, CompletedTrainees(w, GateIn(w, n).value), GateIn(w, n).value, k);
      }
    case _ =>
  }

  lemma CompletedMeans(w: Space, t: Trainee, p: Id)
    ensures t in CompletedTrainees(w, p) <==> Finished(w, t, p)
  {
    assert Finished(w, t, p) ==> Key(t, p) in w.rows;
  }

  /** The batch grant is only called for a trainee who has just completed the node. */
  predicate Enabled(w: Space, e: Event) {
    e.CompleteNode? ==> CompleteFor(w, e.trainee, e.node)
  }

  predicate IsTrace(ws: seq<Space>, es: seq<Event>) {
    && |ws| == |es| + 1
    && forall i | 0 <= i < |es| :: Enabled(ws[i], es[i]) && ws[i + 1] == Next(ws[i], es[i])
  }

  /** Only the clearing of that node removes a grant, and no step rewrites one. */
  lemma StepKeepsGrants(w: Space, e: Event, k: Key)
    requires k in w.grants
    requires e != ClearReparented(k.node)
    ensures k in Next(w, e).grants && Next(w, e).grants[k] == w.grants[k]
  {
  }

  lemma {:induction false} GrantIsDurable(ws: seq<Space>, es: seq<Event>, k: Key, i: nat, j: nat)
    requires IsTrace(ws, es) && i <= j <= |es|
    requires k in ws[i].grants
    requires forall m | i <= m < j :: es[m] != ClearReparented(k.node)
    ensures k in ws[j].grants && ws[j].grants[k] == ws[i].grants[k]
    decreases j
  {
    hide Next, Enabled;
    if i < j {
      GrantIsDurable(ws, es, k, i, j - 1);
      assert ws[j - 1 + 1] == Next(ws[j - 1], es[j - 1]);
      StepKeepsGrants(ws[j - 1], es[j - 1], k);
    }
  }

  /** A granted node is never locked, whatever the tables say: it is open as soon as it has content. */
  lemma GrantedIsNeverLocked(w: Space, t: Trainee, n: Id)
    requires Key(t, n) in w.grants
    ensures AccessFor(w, t, n) == if AccessibleIn(w, n) then Available else ComingSoon
  {
  }

  /**
   Access through a gate is sticky: let through a published parent once, a trainee is never
   locked out of that node by any later change, until the node's grants are cleared.
   */
  lemma AccessIsSticky(ws: seq<Space>, es: seq<Event>, t: Trainee, n: Id, i: nat, j: nat)
    requires IsTrace(ws, es) && i < j <= |es|
    requires es[i] == Open(t, n) && AccessFor(ws[i], t, n) == Available && GateIn(ws[i], n).Some?
    requires forall m | i < m < j :: es[m] != ClearReparented(n)
    ensures AccessFor(ws[j], t, n) == if AccessibleIn(ws[j], n) then Available else ComingSoon
  {
    assert ws[i + 1] == Next(ws[i], es[i]);
    assert Key(t, n) in ws[i + 1].grants;
    GrantIsDurable(ws, es, Key(t, n), i + 1, j);
    GrantedIsNeverLocked(ws[j], t, n);
  }

  /** The same for every eligible child of a node when its completion is processed. */
  lemma CompletionOpensChildren(ws: seq<Space>, es: seq<Event>, t: Trainee, p: Id, n: Id, i: nat, j: nat)
    requires IsTrace(ws, es) && i < j <= |es|
    requires es[i] == CompleteNode(t, p) || (es[i] == Regrant(p) && CompleteFor(ws[i], t, p))
    requires n in EligibleChildren(ws[i], p)
    requires forall m | i < m < j :: es[m] != ClearReparented(n)
    ensures AccessFor(ws[j], t, n) == if AccessibleIn(ws[j], n) then Available else ComingSoon
  {
    var ts := if es[i].CompleteNode? then {t} else CompletedTrainees(ws[i], p);
    assert t in ts;
    assert Key(t, n) in KeysOf(ts, EligibleChildren(ws[i], p));
    assert ws[i + 1] == GrantChildren(ws[i], ts, p);
    GrantIsDurable(ws, es, Key(t, n), i + 1, j);
    GrantedIsNeverLocked(ws[j], t, n);
  }

  /** Opening a node writes exactly when it lets a trainee through a gate without a grant. */
  lemma OpenWritesExactlyWhen(w: Space, t: Trainee, n: Id)
    ensures Next(w, Open(t, n)) != w
       <==> AccessFor(w, t, n) == Available && GateIn(w, n).Some? && Key(t, n) !in w.grants
  {
    var key := Key(t, n);
    if AccessFor(w, t, n) == Available && GateIn(w, n).Some? {
      var after := Next(w, Open(t, n)).grants;
      assert key in after;
      if key in w.grants {
        assert after == w.grants;
      }
    }
  }

  /** The moment that justifies a grant: its recorded gate was the parent, and complete. */
  predicate EarnedAt(w: Space, k: Key, gate: Id) {
    ParentOf(w.forest, k.node) == Some(gate) && CompleteFor(w, k.trainee, gate) && AccessibleIn(w, k.node)
  }

  lemma KidHasParent(f: Forest, p: Id, x: Id)
    requires x in Kids(f, p)
    ensures ParentOf(f, x) == Some(p)
  {
  }

  lemma GrantChildrenIsEarned(w: Space, ts: set<Trainee>, p: Id, k: Key)
    requires forall t | t in ts :: CompleteFor(w, t, p)
    requires k in GrantChildren(w, ts, p).grants && k !in w.grants
    ensures EarnedAt(w, k, p) && GrantChildren(w, ts, p).grants[k] == Grant(p, ParentCompleted)
  {
    assert k in KeysOf(ts, EligibleChildren(w, p));
    KidHasParent(w.forest, p, k.node);
  }

  lemma OpenGrantIsEarned(w: Space, t: Trainee, n: Id, k: Key)
    requires k in Next(w, Open(t, n)).grants && k !in w.grants
    ensures EarnedAt(w, k, Next(w, Open(t, n)).grants[k].gate)
  {
    assert k == Key(t, n);
    assert !LockedBy(w, t, n, GateIn(w, n).value);
  }

  /** A grant that a step writes is earned in the state before that step. */
  lemma NewGrantIsEarned(w: Space, e: Event, k: Key)
    requires Enabled(w, e)
    requires k in Next(w, e).grants && k !in w.grants
    ensures EarnedAt(w, k, Next(w, e).grants[k].gate)
  {
    hide EarnedAt, GrantChildren, AccessFor;
    match e
    case Drift(_, _, _, _) =>
    case Open(t, n) =>
      OpenGrantIsEarned(w, t, n, k);
    case CompleteNode(t, p) =>
      GrantChildrenIsEarned(w, {t}, p, k);
    case Regrant(p) =>
      GrantChildrenIsEarned(w, CompletedTrainees(w, p), p, k);
    case ChildPublished(n) =>
      GrantChildrenIsEarned(w, CompletedTrainees(w, GateIn(w, n).value), GateIn(w, n).value, k);
    case ClearReparented(n) =>
  }

  lemma GrantIsNotRewritten(w: Space, e: Event, k: Key)
    requires k in w.grants && k in Next(w, e).grants
    ensures Next(w, e).grants[k] == w.grants[k]
  {
  }

  /** No free passes: every grant of a run that began with none was earned through its recorded gate. */
  lemma {:induction false} GrantsAreEarned(ws: seq<Space>, es: seq<Event>, j: nat, k: Key)
    requires IsTrace(ws, es) && j <= |es|
    requires ws[0].grants == map[]
    requires k in ws[j].grants
    ensures exists i | 0 <= i < j :: EarnedAt(ws[i], k, ws[j].grants[k].gate)
    decreases j
  {
    hide Next, EarnedAt, Enabled;
    if j > 0 {
      assert Enabled(ws[j - 1], es[j - 1]) && ws[j - 1 + 1] == Next(ws[j - 1], es[j - 1]);
      if k in ws[j - 1].grants {
        GrantsAreEarned(ws, es, j - 1, k);
        GrantIsNotRewritten(ws[j - 1], es[j - 1], k);
      } else {
        NewGrantIsEarned(ws[j - 1], es[j - 1], k);
      }
    }
  }

  /** Everyone who has finished `p` holds a grant for every child of `p` with content. */
  predicate EagerlyGranted(w: Space, p: Id) {
    forall t, c | t in CompletedTrainees(w, p) && c in EligibleChildren(w, p) :: Key(t, c) in w.grants
  }

  /** Publishing `n` makes the grants below gate `p` complete exactly when `p` gates `n` itself. */
  lemma PublishGrantsOwnGateOnly(w: Space, n: Id, p: Id)
    requires AccessibleIn(w, n)
    ensures EagerlyGranted(Next(w, ChildPublished(n)), p) <==> (GateIn(w, n) == Some(p) || EagerlyGranted(w, p))
  {
    var after := Next(w, ChildPublished(n));
    assert CompletedTrainees(after, p) == CompletedTrainees(w, p);
    assert EligibleChildren(after, p) == EligibleChildren(w, p);
    if GateIn(w, n) == Some(p) {
      forall t, c | t in CompletedTrainees(w, p) && c in EligibleChildren(w, p) ensures Key(t, c) in after.grants {
        assert Key(t, c) in KeysOf(CompletedTrainees(w, p), EligibleChildren(w, p));
      }
    } else {
      forall t, c | c in EligibleChildren(w, p) ensures Key(t, c) in after.grants <==> Key(t, c) in w.grants {
        KidHasParent(w.forest, p, c);
        if GateIn(w, n).Some? && c in EligibleChildren(w, GateIn(w, n).value) {
          KidHasParent(w.forest, GateIn(w, n).value, c);
        }
      }
    }
  }

  /** The tables once material of `n` is published, before any grant. */
  function Published(w: Space, n: Id): Space {
    w.(published := w.published + {n})
  }

  lemma PublicationOpens(w: Space, n: Id, c: Id)
    ensures AccessibleIn(Published(w, n), c) <==> AccessibleIn(w, c) || InSubtree(w.forest, n, c)
  {
    if InSubtree(w.forest, n, c) {
      assert n in Published(w, n).published;
    }
    if x :| x in w.published && InSubtree(w.forest, x, c) {
      assert x in Published(w, n).published;
    }
  }

  /**
   Which publication breaks the eager grants below `p`: exactly one that opens a child of `p`, not
   itself published as a child of the gate `p`, while somebody who has finished `p` has no grant for
   that child.  Everything is read from the tables before the publication.
   */
  lemma PublicationKeepsEagerGrantsExactlyWhen(w: Space, n: Id, p: Id)
    requires EagerlyGranted(w, p)
    ensures EagerlyGranted(Next(Published(w, n), ChildPublished(n)), p)
       <==> (ParentOf(w.forest, n) == Some(p) && p in w.published)
            || forall t, c | t in CompletedTrainees(w, p) && c in Kids(w.forest, p)
                             && InSubtree(w.forest, n, c) && !AccessibleIn(w, c) :: Key(t, c) in w.grants
  {
    var w1 := Published(w, n);
    PublicationOpens(w, n, n);
    NotOwnParent(w.forest, n);
    PublishGrantsOwnGateOnly(w1, n, p);
    assert CompletedTrainees(w1, p) == CompletedTrainees(w, p);
    forall c ensures c in EligibleChildren(w1, p)
                <==> c in EligibleChildren(w, p) || (c in Kids(w.forest, p) && InSubtree(w.forest, n, c)) {
      PublicationOpens(w, n, c);
    }
    hide Next, Accessible, InSubtree, CompletedTrainees, Gate;
    assert EagerlyGranted(w1, p)
      <==> forall t, c | t in CompletedTrainees(w, p) && c in Kids(w.forest, p)
                         && InSubtree(w.forest, n, c) && !AccessibleIn(w, c) :: Key(t, c) in w.grants;
  }

  lemma NotOwnParent(f: Forest, n: Id)
    ensures ParentOf(f, n) != Some(n)
  {
  }

  function Chain(): Forest {
    Shape(map[1 := None, 2 := Some(1), 3 := Some(2)], map[1 := [2], 2 := [3]], map[1 := 0, 2 := 1, 3 := 2], 2)
  }

  lemma ChainFacts()
    ensures ParentOf(Chain(), 3) == Some(2) && ParentOf(Chain(), 2) == Some(1)
    ensures InSubtree(Chain(), 3, 2)
    ensures Kids(Chain(), 1) == [2] && !InSubtree(Chain(), 1, 2)
  {
    assert Below(Chain(), 3, 2);
  }

  /**
   A gate 1, a plain child 2 and a grandchild 3 that is published late: nobody is granted node 2, so
   a reset of the gate locks a trainee out of a node that was open to them, though every eligible
   child had been granted before the publication.
   */
  lemma LatePublishedGrandchildCanRelock()
    ensures exists ws: seq<Space>, es: seq<Event> ::
      && IsTrace(ws, es) && |es| == 3
      && EagerlyGranted(ws[0], 1) && CompleteFor(ws[0], 0, 1) && AccessFor(ws[0], 0, 2) == ComingSoon
      && ws[1] == Published(ws[0], 3) && es[1] == ChildPublished(3)
      && AccessFor(ws[2], 0, 2) == Available && GateIn(ws[2], 2) == Some(1) && !EagerlyGranted(ws[2], 1)
      && AccessFor(ws[3], 0, 2) == PrerequisiteLocked(1)
  {
    ChainFacts();
    hide IsForest, Below, Chain;
    var f, rows := Chain(), map[Key(0, 1) := ProgressRow(100, true, false, 0)];
    var w := Space(f, {1}, rows, {}, map[]);
    var publish, reset := Drift(f, {1, 3}, rows, {}), Drift(f, {1, 3}, map[], {});
    var w1 := Published(w, 3);
    var ws, es := [w, w1, w1, Next(w1, reset)], [publish, ChildPublished(3), reset];
    assert w1.published == {1, 3};
    assert AccessibleIn(w1, 2);
    assert 0 in CompletedTrainees(w1, 1) by { assert Key(0, 1) in w1.rows; }
    assert 2 in EligibleChildren(w1, 1);
    assert EligibleChildren(w, 1) == {} by {
      forall x | x in Kids(f, 1) ensures !AccessibleIn(w, x) {
        assert !InSubtree(f, 1, x);
      }
    }
    assert IsTrace(ws, es);
    assert LockedBy(ws[3], 0, 2, 1);
  }
}
