/** Runs of the study-material graph that are checkpointed, crash and resume, any number of times. */
module GraphRuns {
  import opened Option
  import opened StudyGraph

  /** What a node returned: a dictionary to merge, or nothing. */
  type Update = Option<State>

  datatype Visit = Visit(node: GraphNode, input: State, update: Update)

  /** The checkpoint columns of the run row, and how many visits they stand for. */
  datatype Checkpoint = Checkpoint(node: GraphNode, state: State, length: nat)

  /**
   `next` is the node to run, on `state`; `visits` is the history that the state accounts for, from
   the state `start` on.
   */
  datatype Machine = Machine(
    next: GraphNode, state: State, start: State, visits: seq<Visit>, saved: Option<Checkpoint>)

  /** A crashed run is taken up again by a mentor's resume request, or by the worker that reruns its row. */
  datatype Event = RunNode(update: Update, recorded: bool) | CrashAndResume(requested: bool)

  function Merge(s: State, u: Update): State {
    if u.Some? then s + u.value else s
  }

  function Output(v: Visit): State {
    Merge(v.input, v.update)
  }

  predicate NodeSucceeded(u: Update) {
    u.Some? && !Has(u.value, ErrorKey) && !Has(u.value, TerminalLlmFailure)
  }

  function Start(init: State): Machine {
    Machine(RouteFromEntry(init), init, init, [], None)
  }

  /** Without a checkpoint a resume request hydrates an empty one; the worker starts over as at first. */
  function Restart(m: Machine, requested: bool, init: State, request: State): Machine {
    match m.saved
    case None => Start(if requested then Hydrate(map[], None, request) else init)
    case Some(c) =>
      var state := Hydrate(c.state, Some(c.node), request);
      Machine(RouteFromEntry(state), state, m.start,
              if c.length <= |m.visits| then m.visits[..c.length] else m.visits, m.saved)
  }

  /** One node runs: merge, checkpoint if it succeeded and the row was still running, follow the edge. */
  function RunOne(m: Machine, u: Update, recorded: bool): Machine {
    if m.next == End then m
    else
      var out := Merge(m.state, u);
      var visits := m.visits + [Visit(m.next, m.state, u)];
      Machine(Forward(m.next, out), out, m.start, visits,
              if NodeSucceeded(u) && recorded then Some(Checkpoint(m.next, out, |visits|)) else m.saved)
  }

  function Next(m: Machine, e: Event, init: State, request: State): Machine {
    match e
    case RunNode(u, recorded) => RunOne(m, u, recorded)
    case CrashAndResume(requested) => Restart(m, requested, init, request)
  }

  /** What is known of the nodes: who sets the failure flag, and that a concept plan is never empty. */
  predicate NodeContract(n: GraphNode, u: Update) {
    && (n == Resolver && u.Some? ==> !Has(u.value, TerminalLlmFailure))
    && (n == ConceptChecklist && NodeSucceeded(u) ==> Has(u.value, MustCoverChecklist))
  }

  /** A crash is covered unless it follows a checkpoint of `quality_check` where the routers differ. */
  predicate Covered(m: Machine, e: Event) {
    match e
    case RunNode(u, _) => NodeContract(m.next, u)
    case CrashAndResume(_) =>
      m.saved.Some? && m.saved.value.node == QualityCheck ==> RoutersAgree(QualityCheck, m.saved.value.state)
  }

  /** A fresh request: no failure, not a resume, and everything the request could fill is in the state. */
  predicate IsInitial(init: State, request: State) {
    && !Has(init, ErrorKey) && !Has(init, TerminalLlmFailure) && !Has(init, IsResume)
    && NothingToFill(init, request)
  }

  /** A state from which a walk may begin: at `resolver`, with no failure on record. */
  predicate CanStart(start: State, request: State) {
    && RouteFromEntry(start) == Resolver
    && !Has(start, ErrorKey) && !Has(start, TerminalLlmFailure)
    && NothingToFill(start, request)
  }

  function NextAfter(visits: seq<Visit>): GraphNode {
    if visits == [] then Resolver else Forward(visits[|visits| - 1].node, Output(visits[|visits| - 1]))
  }

  function StateAfter(start: State, visits: seq<Visit>): State {
    if visits == [] then start else Output(visits[|visits| - 1])
  }

  /** Each visit is where the forward edges lead from the one before, on that one's own data. */
  predicate IsWalk(start: State, visits: seq<Visit>) {
    forall i | 0 <= i < |visits| ::
      && visits[i].node == NextAfter(visits[..i]) != End
      && SameData(visits[i].input, StateAfter(start, visits[..i]))
  }

  /** The failure flags that the nodes before generation may start with. */
  predicate Clean(n: GraphNode, s: State) {
    && (n in {Resolver, ConceptChecklist, ReferenceRouter, LlamaParse, ExternalResearch, ChecklistRealign}
        ==> !Has(s, ErrorKey))
    && (n in {Resolver, ConceptChecklist, ReferenceRouter} ==> !Has(s, TerminalLlmFailure))
  }

  predicate GoodCheckpoint(c: Checkpoint, visits: seq<Visit>, request: State) {
    && 0 < c.length <= |visits|
    && visits[c.length - 1].node == c.node != End
    && c.state == Output(visits[c.length - 1])
    && NothingToFill(c.state, request)
    && Clean(c.node, c.state)
    && (c.node == ConceptChecklist ==> Has(c.state, MustCoverChecklist))
  }

  predicate Inv(m: Machine, request: State) {
    && CanStart(m.start, request)
    && IsWalk(m.start, m.visits)
    && m.next == NextAfter(m.visits)
    && SameData(m.state, StateAfter(m.start, m.visits))
    && NothingToFill(m.state, request)
    && Clean(m.next, m.state)
    && (m.saved.Some? ==> GoodCheckpoint(m.saved.value, m.visits, request))
  }

  lemma HasMerged(s: State, u: Update, k: StateKey)
    ensures u.Some? && !Has(u.value, k) && !Has(s, k) ==> !Has(Merge(s, u), k)
    ensures u.Some? && Has(u.value, k) ==> Has(Merge(s, u), k)
    ensures u.None? ==> Merge(s, u) == s
  {
  }

  /** Following an edge keeps the failure flags clean: the forward guards see to it. */
  lemma EdgeKeepsClean(n: GraphNode, s: State, u: Update)
    requires n != End && Clean(n, s) && NodeContract(n, u)
    ensures Clean(Forward(n, Merge(s, u)), Merge(s, u))
  {
    HasMerged(s, u, TerminalLlmFailure);
    hide Merge;
  }

  /** A successful node leaves the flags it started with clean. */
  lemma SuccessKeepsClean(n: GraphNode, s: State, u: Update)
    requires Clean(n, s) && NodeContract(n, u) && NodeSucceeded(u)
    ensures Clean(n, Merge(s, u))
    ensures n == ConceptChecklist ==> Has(Merge(s, u), MustCoverChecklist)
  {
    HasMerged(s, u, ErrorKey);
    HasMerged(s, u, TerminalLlmFailure);
    HasMerged(s, u, MustCoverChecklist);
  }

  lemma WalkExtends(init: State, visits: seq<Visit>, v: Visit)
    requires IsWalk(init, visits)
    requires v.node == NextAfter(visits) != End && SameData(v.input, StateAfter(init, visits))
    ensures IsWalk(init, visits + [v])
    ensures NextAfter(visits + [v]) == Forward(v.node, Output(v)) && StateAfter(init, visits + [v]) == Output(v)
  {
    hide SameData, Forward, Output;
    var longer := visits + [v];
    forall i | 0 <= i < |longer|
      ensures longer[i].node == NextAfter(longer[..i]) != End
              && SameData(longer[i].input, StateAfter(init, longer[..i]))
    {
      if i < |visits| {
        assert longer[..i] == visits[..i];
      } else {
        assert longer[..i] == visits;
      }
    }
  }

  lemma WalkPrefix(init: State, visits: seq<Visit>, n: nat)
    requires IsWalk(init, visits) && n <= |visits|
    ensures IsWalk(init, visits[..n])
  {
    hide NextAfter, StateAfter, SameData;
    forall i | 0 <= i < n ensures visits[..n][..i] == visits[..i] {
    }
  }

  lemma MergeSettles(s: State, u: Update, request: State)
    requires NothingToFill(s, request)
    ensures NothingToFill(Merge(s, u), request)
  {
    hide Supplies;
  }

  lemma CheckpointKept(c: Checkpoint, visits: seq<Visit>, v: Visit, request: State)
    requires GoodCheckpoint(c, visits, request)
    ensures GoodCheckpoint(c, visits + [v], request)
  {
    hide Output, Clean, NothingToFill, Has;
  }

  /** The checkpoint of a successful visit is one from which the walk can go on. */
  lemma CheckpointMade(visits: seq<Visit>, v: Visit, request: State)
    requires v.node != End && Clean(v.node, v.input) && NothingToFill(v.input, request)
    requires NodeContract(v.node, v.update) && NodeSucceeded(v.update)
    ensures GoodCheckpoint(Checkpoint(v.node, Output(v), |visits| + 1), visits + [v], request)
  {
    SuccessKeepsClean(v.node, v.input, v.update);
    MergeSettles(v.input, v.update, request);
    hide Clean, NothingToFill, Has, NodeContract, NodeSucceeded, Merge;
  }

  lemma RunKeepsInv(m: Machine, request: State, u: Update, recorded: bool)
    requires Inv(m, request) && NodeContract(m.next, u)
    ensures Inv(RunOne(m, u, recorded), request) && RunOne(m, u, recorded).start == m.start
  {
    if m.next != End {
      var v := Visit(m.next, m.state, u);
      hide NextAfter, StateAfter, Forward, Clean, IsWalk, NodeContract, Has, SameData, NothingToFill, CanStart;
      hide GoodCheckpoint, Merge, NodeSucceeded;
      WalkExtends(m.start, m.visits, v);
      EdgeKeepsClean(m.next, m.state, u);
      MergeSettles(m.state, u, request);
      SameDataReflexive(Output(v));
      if NodeSucceeded(u) && recorded {
        CheckpointMade(m.visits, v, request);
      } else if m.saved.Some? {
        CheckpointKept(m.saved.value, m.visits, v, request);
      }
    }
  }

  lemma SameDataReflexive(s: State)
    ensures SameData(s, s)
  {
  }

  /** Outside `quality_check`, a checkpoint is always one at which the routers agree. */
  lemma CheckpointsAgree(c: Checkpoint, visits: seq<Visit>, request: State)
    requires GoodCheckpoint(c, visits, request) && c.node != QualityCheck
    ensures RoutersAgree(c.node, c.state)
  {
  }

  lemma ResumedIsClean(c: Checkpoint, visits: seq<Visit>, request: State, h: State)
    requires GoodCheckpoint(c, visits, request) && SameData(h, c.state)
    ensures Clean(Forward(c.node, c.state), h)
  {
    SameDataGet(h, c.state, ErrorKey);
    SameDataGet(h, c.state, TerminalLlmFailure);
    var nothing: Update := Some(map[]);
    assert Merge(c.state, nothing) == c.state;
    if c.node == ConceptChecklist {
      assert Clean(Forward(c.node, c.state), c.state);
    } else {
      EdgeKeepsClean(c.node, c.state, nothing);
    }
  }

  /** A covered resume enters the graph exactly where the checkpointed walk would have gone on. */
  lemma ResumeEntersWalk(c: Checkpoint, visits: seq<Visit>, start: State, request: State)
    requires GoodCheckpoint(c, visits, request) && (c.node == QualityCheck ==> RoutersAgree(QualityCheck, c.state))
    ensures var h, prefix := Hydrate(c.state, Some(c.node), request), visits[..c.length];
            && RouteFromEntry(h) == NextAfter(prefix)
            && SameData(h, StateAfter(start, prefix))
            && NothingToFill(h, request) && Clean(NextAfter(prefix), h)
  {
    var h, prefix := Hydrate(c.state, Some(c.node), request), visits[..c.length];
    if c.node != QualityCheck {
      CheckpointsAgree(c, visits, request);
    }
    HydratedEntersAtResumeEdge(c.state, Some(c.node), request);
    ResumeTakesForwardEdge(c.node, c.state);
    ResumedIsClean(c, visits, request, h);
    HydrationSettles(c.state, Some(c.node), request);
    hide Hydrate, RoutersAgree, Forward, ResumeNext, Clean, Has, SameData, RouteFromEntry, NothingToFill, Output;
    assert prefix[|prefix| - 1] == visits[c.length - 1];
  }

  lemma StartIsInv(start: State, request: State)
    requires CanStart(start, request)
    ensures Inv(Start(start), request) && Start(start).start == start
  {
    SameDataReflexive(start);
  }

  lemma ResumeKeepsInv(m: Machine, requested: bool, init: State, request: State)
    requires IsInitial(init, request) && Inv(m, request) && Covered(m, CrashAndResume(requested))
    ensures Inv(Restart(m, requested, init, request), request)
  {
    match m.saved
    case None =>
      HydratedFromNothing(request);
      hide Hydrate, Inv;
      StartIsInv(if requested then Hydrate(map[], None, request) else init, request);
    case Some(c) =>
      ResumeEntersWalk(c, m.visits, m.start, request);
      WalkPrefix(m.start, m.visits, c.length);
      hide Hydrate, RoutersAgree, IsWalk, Clean, SameData, RouteFromEntry, NothingToFill, CanStart;
      hide NextAfter, StateAfter, Output;
      assert m.visits[..c.length][c.length - 1] == m.visits[c.length - 1];
  }

  ghost predicate IsTrace(ms: seq<Machine>, es: seq<Event>, init: State, request: State) {
    && |ms| == |es| + 1
    && ms[0] == Start(init)
    && forall i | 0 <= i < |es| :: Covered(ms[i], es[i]) && ms[i + 1] == Next(ms[i], es[i], init, request)
  }

  /** Where the walk of a run can have begun: the fresh request, or the request hydrated from nothing. */
  predicate IsStart(start: State, init: State, request: State) {
    start == init || start == Hydrate(map[], None, request)
  }

  lemma {:induction false} InvAlways(ms: seq<Machine>, es: seq<Event>, init: State, request: State, j: nat)
    requires IsInitial(init, request) && IsTrace(ms, es, init, request) && j <= |es|
    ensures Inv(ms[j], request) && IsStart(ms[j].start, init, request)
    decreases j
  {
    if j == 0 {
      StartIsInv(init, request);
    } else {
      hide Inv, Covered, IsInitial, IsStart;
      InvAlways(ms, es, init, request, j - 1);
      StepKeepsInv(ms[j - 1], es[j - 1], init, request);
      assert ms[j - 1 + 1] == Next(ms[j - 1], es[j - 1], init, request);
    }
  }

  lemma StepKeepsInv(m: Machine, e: Event, init: State, request: State)
    requires IsInitial(init, request) && Inv(m, request) && Covered(m, e) && IsStart(m.start, init, request)
    ensures Inv(Next(m, e, init, request), request) && IsStart(Next(m, e, init, request).start, init, request)
  {
    hide Inv, RunOne, Hydrate;
    match e
    case RunNode(u, recorded) => RunKeepsInv(m, request, u, recorded);
    case CrashAndResume(requested) => ResumeKeepsInv(m, requested, init, request);
  }

  /**
   However often a run crashes and resumes, what it has to show is one walk of the forward graph
   from `resolver`, each node on the data the node before left, and it goes on along that walk.  The
   walk begins on the fresh request, or on the request parameters alone once a run that had no
   checkpoint yet was resumed.
   */
  lemma CrashesFollowForwardGraph(ms: seq<Machine>, es: seq<Event>, init: State, request: State)
    requires IsInitial(init, request) && IsTrace(ms, es, init, request)
    ensures var m := ms[|es|];
            && IsStart(m.start, init, request)
            && IsWalk(m.start, m.visits)
            && m.next == NextAfter(m.visits)
            && SameData(m.state, StateAfter(m.start, m.visits))
  {
    InvAlways(ms, es, init, request, |es|);
  }

  // ---------------------------------------------------------------- what a run does

  /** A node's dictionary wins over the state, key by key; no dictionary changes nothing. */
  lemma OutputMeans(v: Visit, k: StateKey)
    ensures Get(Output(v), k) == if v.update.Some? && k in v.update.value then v.update.value[k] else Get(v.input, k)
    ensures k in Output(v) <==> k in v.input || (v.update.Some? && k in v.update.value)
  {
  }

  /** One visit is recorded, and it is checkpointed exactly if it succeeded on a running row. */
  lemma RunOneMeans(m: Machine, u: Update, recorded: bool)
    requires m.next != End
    ensures var r, v := RunOne(m, u, recorded), Visit(m.next, m.state, u);
            && r.visits == m.visits + [v] && r.state == Output(v) && r.start == m.start
            && r.next == Forward(v.node, Output(v))
            && r.saved == if recorded && u.Some? && !Has(u.value, ErrorKey) && !Has(u.value, TerminalLlmFailure)
                          then Some(Checkpoint(v.node, Output(v), |m.visits| + 1)) else m.saved
  {
    hide Has, Forward, Merge;
  }

  /** A covered resume keeps exactly the checkpointed visits and goes on behind the last of them. */
  lemma ResumeKeepsPrefix(m: Machine, requested: bool, init: State, request: State)
    requires IsInitial(init, request) && Inv(m, request) && Covered(m, CrashAndResume(requested)) && m.saved.Some?
    ensures var r, c := Restart(m, requested, init, request), m.saved.value;
            && 0 < c.length <= |m.visits| && r.visits == m.visits[..c.length]
            && m.visits[c.length - 1].node == c.node && c.state == Output(m.visits[c.length - 1])
            && r.saved == m.saved && r.start == m.start
            && r.next == Forward(c.node, c.state) && SameData(r.state, c.state)
  {
    var c := m.saved.value;
    assert GoodCheckpoint(c, m.visits, request);
    assert c.length <= |m.visits| && m.visits[c.length - 1].node == c.node && c.state == Output(m.visits[c.length - 1]);
    assert c.node == QualityCheck ==> RoutersAgree(QualityCheck, c.state);
    hide Inv, IsInitial, Covered, GoodCheckpoint;
    hide Hydrate, RouteFromEntry, Forward, SameData, NothingToFill, Clean, RoutersAgree, Output, NextAfter, StateAfter;
    ResumeEntersWalk(c, m.visits, m.start, request);
    PrefixEnd(m.start, m.visits, c.length);
  }

  lemma PrefixEnd(start: State, visits: seq<Visit>, n: nat)
    requires 0 < n <= |visits|
    ensures NextAfter(visits[..n]) == Forward(visits[n - 1].node, Output(visits[n - 1]))
    ensures StateAfter(start, visits[..n]) == Output(visits[n - 1])
  {
    assert visits[..n][n - 1] == visits[n - 1];
  }

  /** Without a checkpoint a resumed or rerun run starts over, with nothing to its name. */
  lemma RestartStartsOver(m: Machine, requested: bool, init: State, request: State)
    requires m.saved.None? && IsInitial(init, request)
    ensures var r := Restart(m, requested, init, request);
            && r.visits == [] && r.saved == None && r.start == r.state && r.next == Resolver
            && r.state == if requested then Hydrate(map[], None, request) else init
  {
    HydratedFromNothing(request);
    hide Hydrate, NothingToFill;
  }

  /** Behind every visit that generated a study document stands its quality check. */
  lemma DocumentIsChecked(start: State, visits: seq<Visit>, i: nat)
    requires IsWalk(start, visits) && i < |visits| && visits[i].node == StudyAgent
    requires !Has(Output(visits[i]), ErrorKey) && !Has(Output(visits[i]), TerminalLlmFailure)
    requires Get(Output(visits[i]), GenerationOutcome) == OutcomeValue(StudyDocument)
    ensures (if i + 1 < |visits| then visits[i + 1].node else NextAfter(visits)) == QualityCheck
  {
    EntersCheck(StudyAgent, Output(visits[i]));
    hide Forward, Output, Has, SameData;
    if i + 1 < |visits| {
      assert visits[i + 1].node == NextAfter(visits[..i + 1]);
      assert visits[..i + 1][i] == visits[i];
    }
  }

  /** A walk ends without a failure on a verdict that is final, or on an outcome that is no document. */
  lemma EndIsEarned(start: State, visits: seq<Visit>)
    requires IsWalk(start, visits) && NextAfter(visits) == End
    requires !Has(StateAfter(start, visits), ErrorKey) && !Has(StateAfter(start, visits), TerminalLlmFailure)
    ensures visits != []
    ensures var v, s := visits[|visits| - 1], Output(visits[|visits| - 1]);
            || (v.node == QualityCheck && (Has(s, QcPassed) || Has(s, QcFailedPermanently)))
            || (v.node == StudyAgent && Get(s, GenerationOutcome) != NoneValue
                && Get(s, GenerationOutcome) != OutcomeValue(StudyDocument)
                && (Get(s, GenerationOutcome) == OutcomeValue(MalformedDocument) ==>
                      Get(s, FormatAttempt).NumberValue? && Get(s, FormatAttempt).number >= 3))
  {
    var v := visits[|visits| - 1];
    Ends(v.node, Output(v));
    assert v.node != End;
    hide Forward, Output, Has, SameData;
  }

  /**
   However often it crashed and was resumed, a run that has reached the end with no failure flag ends
   behind a quality check that passed or failed for good, or behind an outcome that is no document.
   */
  lemma FinishedRunWasChecked(ms: seq<Machine>, es: seq<Event>, init: State, request: State)
    requires IsInitial(init, request) && IsTrace(ms, es, init, request)
    requires ms[|es|].next == End
    requires !Has(ms[|es|].state, ErrorKey) && !Has(ms[|es|].state, TerminalLlmFailure)
    ensures var m := ms[|es|];
            && m.visits != []
            && var v, s := m.visits[|m.visits| - 1], m.state;
            || (v.node == QualityCheck && (Has(s, QcPassed) || Has(s, QcFailedPermanently)))
            || (v.node == StudyAgent && Get(s, GenerationOutcome) != NoneValue
                && Get(s, GenerationOutcome) != OutcomeValue(StudyDocument))
  {
    var m := ms[|es|];
    hide *;
    CrashesFollowForwardGraph(ms, es, init, request);
    SameFlags(m.state, StateAfter(m.start, m.visits));
    EndIsEarned(m.start, m.visits);
    LastOutput(m.start, m.visits);
  }

  lemma LastOutput(start: State, visits: seq<Visit>)
    requires visits != []
    ensures StateAfter(start, visits) == Output(visits[|visits| - 1])
  {
  }

  lemma SameFlags(a: State, b: State)
    requires SameData(a, b)
    ensures Has(a, ErrorKey) == Has(b, ErrorKey) && Has(a, TerminalLlmFailure) == Has(b, TerminalLlmFailure)
    ensures Has(a, QcPassed) == Has(b, QcPassed) && Has(a, QcFailedPermanently) == Has(b, QcFailedPermanently)
    ensures Get(a, GenerationOutcome) == Get(b, GenerationOutcome)
  {
    hide IsTruthy, Get, SameData;
    SameDataGet(a, b, ErrorKey);
    SameDataGet(a, b, TerminalLlmFailure);
    SameDataGet(a, b, QcPassed);
    SameDataGet(a, b, QcFailedPermanently);
    SameDataGet(a, b, GenerationOutcome);
  }

  /** One chunk of the stream: a node's update, or an exception, which fails the row if it is still running. */
  datatype Chunk =
    | Yielded(update: Update, mayContinue: bool, recorded: bool)
    | NodeRaised(running: bool)

  /** The fold that one invocation performs; it stops at the end, when superseded, or when it dies. */
  function Play(m: Machine, chunks: seq<Chunk>): Machine
    decreases |chunks|
  {
    if chunks == [] || m.next == End || chunks[0].NodeRaised? || !chunks[0].mayContinue then m
    else Play(RunOne(m, chunks[0].update, chunks[0].recorded), chunks[1..])
  }

  datatype Invocation = Finished(state: State) | Aborted | Raised(running: bool) | Interrupted

  /** Why that fold stopped. */
  function Ending(m: Machine, chunks: seq<Chunk>): Invocation
    decreases |chunks|
  {
    if m.next == End then Finished(m.state)
    else if chunks == [] then Interrupted
    else if chunks[0].NodeRaised? then Raised(chunks[0].running)
    else if !chunks[0].mayContinue then Aborted
    else Ending(RunOne(m, chunks[0].update, chunks[0].recorded), chunks[1..])
  }

  /** How many chunks an invocation consumed. */
  function Consumed(m: Machine, chunks: seq<Chunk>): (n: nat)
    ensures n <= |chunks|
    decreases |chunks|
  {
    if chunks == [] || m.next == End || chunks[0].NodeRaised? || !chunks[0].mayContinue then 0
    else 1 + Consumed(RunOne(m, chunks[0].update, chunks[0].recorded), chunks[1..])
  }

  /** The consumed chunks are the visits added, in order; what stopped the invocation is the chunk behind them. */
  lemma {:induction false} PlayMeans(m: Machine, chunks: seq<Chunk>)
    ensures var p, n := Play(m, chunks), Consumed(m, chunks);
            && |p.visits| == |m.visits| + n && m.visits <= p.visits
            && (forall i | 0 <= i < n ::
                  chunks[i].Yielded? && chunks[i].mayContinue && p.visits[|m.visits| + i].update == chunks[i].update)
            && match Ending(m, chunks)
               case Finished(s) => p.next == End && s == p.state
               case Raised(running) => p.next != End && n < |chunks| && chunks[n] == NodeRaised(running)
               case Aborted => p.next != End && n < |chunks| && chunks[n].Yielded? && !chunks[n].mayContinue
               case Interrupted => p.next != End && n == |chunks|
    decreases |chunks|
  {
    if !(chunks == [] || m.next == End || chunks[0].NodeRaised? || !chunks[0].mayContinue) {
      var m' := RunOne(m, chunks[0].update, chunks[0].recorded);
      RunOneMeans(m, chunks[0].update, chunks[0].recorded);
      hide RunOne;
      PlayMeans(m', chunks[1..]);
      var p := Play(m, chunks);
      forall i | 0 <= i < Consumed(m, chunks)
        ensures chunks[i].Yielded? && chunks[i].mayContinue && p.visits[|m.visits| + i].update == chunks[i].update
      {
        if i == 0 {
          assert p.visits[|m.visits|] == m'.visits[|m.visits|];
        } else {
          assert chunks[i] == chunks[1..][i - 1];
        }
      }
    }
  }

  predicate Saves(c: Chunk) {
    c.Yielded? && c.recorded && c.update.Some?
    && !Has(c.update.value, ErrorKey) && !Has(c.update.value, TerminalLlmFailure)
  }

  /** The checkpoint an invocation leaves is that of the last successful visit made on a running row. */
  lemma {:induction false} PlaySaves(m: Machine, chunks: seq<Chunk>, i: nat)
    requires i <= Consumed(m, chunks)
    requires forall j | i <= j < Consumed(m, chunks) :: !Saves(chunks[j])
    ensures i == 0 ==> Play(m, chunks).saved == m.saved
    ensures i > 0 && Saves(chunks[i - 1]) ==>
              var p, j := Play(m, chunks), |m.visits| + i - 1;
              && j < |p.visits|
              && p.saved == Some(Checkpoint(p.visits[j].node, Output(p.visits[j]), j + 1))
    decreases |chunks|
  {
    if Consumed(m, chunks) > 0 {
      var m' := RunOne(m, chunks[0].update, chunks[0].recorded);
      RunOneMeans(m, chunks[0].update, chunks[0].recorded);
      PlayMeans(m', chunks[1..]);
      hide RunOne, Has, Output;
      assert forall j | 1 <= j < |chunks| :: chunks[j] == chunks[1..][j - 1];
      var k := if i == 0 then 0 else i - 1;
      assert forall j | k <= j < Consumed(m', chunks[1..]) :: chunks[1..][j] == chunks[j + 1];
      PlaySaves(m', chunks[1..], k);
      if i == 1 {
        assert Play(m, chunks).visits[|m.visits|] == m'.visits[|m.visits|];
      }
    }
  }

  predicate ChunksContract(m: Machine, chunks: seq<Chunk>)
    decreases |chunks|
  {
    chunks != [] && m.next != End && chunks[0].Yielded? && chunks[0].mayContinue ==>
      && NodeContract(m.next, chunks[0].update)
      && ChunksContract(RunOne(m, chunks[0].update, chunks[0].recorded), chunks[1..])
  }

  /** A whole invocation, however it stops, leaves a checkpoint from which the walk can go on. */
  lemma {:induction false} PlayKeepsInv(m: Machine, chunks: seq<Chunk>, request: State)
    requires Inv(m, request) && ChunksContract(m, chunks)
    ensures Inv(Play(m, chunks), request) && Play(m, chunks).start == m.start
    decreases |chunks|
  {
    hide Inv, RunOne, NodeContract;
    if chunks != [] && m.next != End && chunks[0].Yielded? && chunks[0].mayContinue {
      RunKeepsInv(m, request, chunks[0].update, chunks[0].recorded);
      PlayKeepsInv(RunOne(m, chunks[0].update, chunks[0].recorded), chunks[1..], request);
    }
  }

  /** The checkpoint columns of a generation run, written in place by the runner. */
  class RunRow {
    var lastCompletedNode: Option<GraphNode>
    var checkpointState: State
    var failed: bool

    predicate Holds(saved: Option<Checkpoint>)
      reads this
    {
      match saved
      case None => lastCompletedNode == None
      case Some(c) => lastCompletedNode == Some(c.node) && checkpointState == c.state
    }

    constructor ()
      ensures Holds(None) && !failed
    {
      lastCompletedNode, checkpointState, failed := None, map[], false;
    }

    method CheckpointAfterNode(node: GraphNode, state: State, running: bool)
      modifies this`lastCompletedNode, this`checkpointState
      ensures running ==> lastCompletedNode == Some(node) && checkpointState == state
      ensures !running ==> lastCompletedNode == old(lastCompletedNode) && checkpointState == old(checkpointState)
    {
      if running {
        lastCompletedNode, checkpointState := Some(node), state;
      }
    }

    method FailRun(running: bool)
      modifies this`failed
      ensures failed <==> old(failed) || running
    {
      if running {
        failed := true;
      }
    }

    /** `invoke_graph_with_progress` from a fresh or hydrated state whose row holds `m.saved`. */
    method InvokeGraphWithProgress(initial: State, chunks: seq<Chunk>, ghost m: Machine) returns (outcome: Invocation)
      requires m.state == initial && m.next == RouteFromEntry(initial) && Holds(m.saved)
      modifies this
      ensures Holds(Play(m, chunks).saved)
      ensures outcome == Ending(m, chunks)
      ensures failed <==> old(failed) || (outcome.Raised? && outcome.running)
    {
      hide RouteFromEntry, NodeSucceeded, Forward, Merge;
      var runningState := initial;
      var node := RouteFromEntry(initial);
      ghost var now := m;
      for i := 0 to |chunks|
        invariant now.state == runningState && now.next == node && Holds(now.saved) && failed == old(failed)
        invariant Play(m, chunks) == Play(now, chunks[i..]) && Ending(m, chunks) == Ending(now, chunks[i..])
      {
        assert chunks[i] in chunks && chunks[i..][0] == chunks[i];
        assert chunks[i..][1..] == chunks[i + 1..];
        if node == End {
          return Finished(runningState);
        }
        match chunks[i] {
          case NodeRaised(running) =>
            FailRun(running);
            return Raised(running);
          case Yielded(update, mayContinue, recorded) =>
            if !mayContinue {
              return Aborted;
            }
            runningState := Merge(runningState, update);
            if NodeSucceeded(update) {
              CheckpointAfterNode(node, runningState, recorded);
            }
            now := RunOne(now, update, recorded);
            node := Forward(node, runningState);
        }
      }
      outcome := if node == End then Finished(runningState) else Interrupted;
    }
  }
}
