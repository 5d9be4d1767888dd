/** The study-material graph: its forward edges, its resume router, and the state they read. */
module StudyGraph {
  import opened Option

  datatype GraphNode =
    | Resolver | ConceptChecklist | ReferenceRouter | LlamaParse | ExternalResearch | ChecklistRealign
    | StudyAgent | QualityCheck | End

  datatype ReferenceMode = Pdf | External | NoReference

  datatype Outcome = StudyDocument | ReferenceRequired | VagueFeedback | MalformedDocument | GeneratorError

  datatype RetryMode = NoRetry | SectionPatch | SectionInsert | SectionPatchThenInsert | FullRegeneration

  /** The state keys that routing reads; a nested field that is read has a key of its own. */
  datatype StateKey =
    | ErrorKey | TerminalLlmFailure | MustCoverChecklist
    | HasReferenceMaterial | ReferenceMaterialId | ReferenceFilePath | SkipLlamaparse | ParsedSections
    | ExternalResearchEnabled | ReferenceModeKey | CacheHit | ResearchStatus
    | GenerationOutcome | FormatAttempt | GeneratedContent
    | QcPassed | QcFailedPermanently | QcInfraError | QcRetryMode
    | NodeId | MentorRegenerationGoal | MentorFeedback | IsResume | LastCompletedNode | OtherKey(name: string)

  datatype Value =
    | NoneValue | BoolValue(flag: bool) | NumberValue(number: int) | ListValue(items: nat) | TextValue(text: string)
    | ModeValue(mode: ReferenceMode) | OutcomeValue(outcome: Outcome) | RetryValue(retry: RetryMode)
    | NodeValue(node: GraphNode)

  type State = map<StateKey, Value>

  const MAX_GENERATOR_FORMAT_ATTEMPTS := 3

  /** `state.get(key)` */
  function Get(s: State, k: StateKey): Value {
    if k in s then s[k] else NoneValue
  }

  predicate IsTruthy(v: Value) {
    match v
    case NoneValue => false
    case BoolValue(b) => b
    case NumberValue(n) => n != 0
    case ListValue(n) => n > 0
    case TextValue(t) => t != ""
    case _ => true
  }

  predicate Has(s: State, k: StateKey) {
    IsTruthy(Get(s, k))
  }

  function ResolveReferenceMode(s: State): ReferenceMode {
    if Has(s, ExternalResearchEnabled) then External
    else if Get(s, ReferenceModeKey).ModeValue? then Get(s, ReferenceModeKey).mode
    else if Has(s, HasReferenceMaterial) || Has(s, ReferenceMaterialId) then Pdf
    else NoReference
  }

  predicate NeedsLlamaparse(s: State) {
    !Has(s, SkipLlamaparse) && Has(s, HasReferenceMaterial) && Has(s, ReferenceFilePath) && !Has(s, ParsedSections)
  }

  function Attempts(s: State): int {
    if Get(s, FormatAttempt).NumberValue? then Get(s, FormatAttempt).number else 0
  }

  function RouteAfterStudyAgent(s: State): GraphNode {
    if Has(s, TerminalLlmFailure) || Has(s, ErrorKey) then End
    else
      match Get(s, GenerationOutcome)
      case OutcomeValue(StudyDocument) => QualityCheck
      case OutcomeValue(MalformedDocument) =>
        if Attempts(s) < MAX_GENERATOR_FORMAT_ATTEMPTS then StudyAgent else End
      case NoneValue => if Has(s, GeneratedContent) then QualityCheck else StudyAgent
      case _ => End
  }

  function RouteAfterReferenceRouter(s: State): GraphNode {
    if Has(s, TerminalLlmFailure) then End
    else if Has(s, ErrorKey) then End
    else if ResolveReferenceMode(s) == External then
      if Has(s, CacheHit) || Has(s, ResearchStatus) then ChecklistRealign else ExternalResearch
    else if ResolveReferenceMode(s) == Pdf && NeedsLlamaparse(s) then LlamaParse
    else StudyAgent
  }

  function RouteAfterQualityCheck(s: State): GraphNode {
    if Has(s, QcPassed) then End
    else if Has(s, QcFailedPermanently) then End
    else if Has(s, QcInfraError) then QualityCheck
    else StudyAgent
  }

  /** The edges of the graph: where a live run goes after a node. */
  function Forward(n: GraphNode, s: State): GraphNode {
    match n
    case Resolver => if Has(s, ErrorKey) then End else ConceptChecklist
    case ConceptChecklist => if Has(s, TerminalLlmFailure) || Has(s, ErrorKey) then End else ReferenceRouter
    case ReferenceRouter => RouteAfterReferenceRouter(s)
    case LlamaParse => if Has(s, ErrorKey) then End else StudyAgent
    case ExternalResearch => if Has(s, ErrorKey) then End else ChecklistRealign
    case ChecklistRealign => if Has(s, ErrorKey) then End else StudyAgent
    case StudyAgent => RouteAfterStudyAgent(s)
    case QualityCheck => RouteAfterQualityCheck(s)
    case End => End
  }

  predicate IsTerminalOutcome(v: Value) {
    v.OutcomeValue? && v.outcome != StudyDocument
  }

  predicate RetriesGeneration(s: State) {
    Get(s, QcRetryMode).RetryValue? && Get(s, QcRetryMode).retry != NoRetry
  }

  /** `_route_after_reference_mode` of the resume router, which looks at no failure flag. */
  function ResumeAfterReferenceMode(s: State): GraphNode {
    match ResolveReferenceMode(s)
    case External => if Has(s, CacheHit) || Has(s, ResearchStatus) then ChecklistRealign else ExternalResearch
    case Pdf => if NeedsLlamaparse(s) then LlamaParse else StudyAgent
    case NoReference => StudyAgent
  }

  /** `resolve_resume_next_node` */
  function ResumeNext(s: State, last: Option<GraphNode>): GraphNode {
    if last.None? then Resolver
    else
      match last.value
      case Resolver => ConceptChecklist
      case ConceptChecklist => if Has(s, MustCoverChecklist) then ReferenceRouter else ConceptChecklist
      case ReferenceRouter => ResumeAfterReferenceMode(s)
      case LlamaParse => StudyAgent
      case ExternalResearch => ChecklistRealign
      case ChecklistRealign => StudyAgent
      case StudyAgent => RouteAfterStudyAgent(s)
      case QualityCheck =>
        if IsTerminalOutcome(Get(s, GenerationOutcome)) then End
        else if Has(s, QcInfraError) then QualityCheck
        else if RetriesGeneration(s) then StudyAgent
        else if Has(s, GeneratedContent) then QualityCheck
        else Resolver
      case End => Resolver
  }

  /**
   The states in which the two routers take the same edge after a node: the guards that only the
   forward edges have must be off and, after the checklist node, the checklist must be there.
   */
  predicate RoutersAgree(n: GraphNode, s: State) {
    match n
    case Resolver => !Has(s, ErrorKey)
    case ConceptChecklist => !Has(s, TerminalLlmFailure) && !Has(s, ErrorKey) && Has(s, MustCoverChecklist)
    case ReferenceRouter => !Has(s, TerminalLlmFailure) && !Has(s, ErrorKey)
    case LlamaParse => !Has(s, ErrorKey)
    case ExternalResearch => !Has(s, ErrorKey)
    case ChecklistRealign => !Has(s, ErrorKey)
    case StudyAgent => true
    case QualityCheck =>
      if Has(s, QcPassed) || Has(s, QcFailedPermanently) then IsTerminalOutcome(Get(s, GenerationOutcome))
      else !IsTerminalOutcome(Get(s, GenerationOutcome)) && (Has(s, QcInfraError) || RetriesGeneration(s))
    case End => false
  }

  /** The exact condition, node by node, under which a resumed run takes the forward edge. */
  lemma ResumeTakesForwardEdge(n: GraphNode, s: State)
    ensures ResumeNext(s, Some(n)) == Forward(n, s) <==> RoutersAgree(n, s)
  {
    match n
    case Resolver =>
    case ConceptChecklist =>
    case ReferenceRouter =>
      assert ResumeAfterReferenceMode(s) != End;
    case LlamaParse =>
    case ExternalResearch =>
    case ChecklistRealign =>
    case StudyAgent =>
    case QualityCheck =>
    case End =>
  }

  /** A document that has passed its check is checked again when the run resumes there. */
  lemma PassedDocumentIsCheckedAgain(s: State)
    requires Has(s, QcPassed) && !Has(s, QcInfraError) && !RetriesGeneration(s)
    requires Get(s, GenerationOutcome) == OutcomeValue(StudyDocument) && Has(s, GeneratedContent)
    ensures Forward(QualityCheck, s) == End && ResumeNext(s, Some(QualityCheck)) == QualityCheck
  {
  }

  // ---------------------------------------------------------------- the edges, read from their targets

  /** Python's truth value of a looked-up key. */
  lemma HasMeans(s: State, k: StateKey)
    ensures Has(s, k) <==>
              && k in s
              && s[k] !in [NoneValue, BoolValue(false), NumberValue(0), ListValue(0), TextValue("")]
  {
  }

  lemma ModeMeans(s: State)
    ensures ResolveReferenceMode(s) == External <==>
              Has(s, ExternalResearchEnabled) || Get(s, ReferenceModeKey) == ModeValue(External)
    ensures ResolveReferenceMode(s) == Pdf <==>
              && !Has(s, ExternalResearchEnabled)
              && (Get(s, ReferenceModeKey) == ModeValue(Pdf)
                  || (!Get(s, ReferenceModeKey).ModeValue?
                      && (Has(s, HasReferenceMaterial) || Has(s, ReferenceMaterialId))))
    ensures NeedsLlamaparse(s) <==>
              && Has(s, HasReferenceMaterial) && Has(s, ReferenceFilePath)
              && !Has(s, SkipLlamaparse) && !Has(s, ParsedSections)
  {
    hide IsTruthy;
  }

  /** When a live run enters the nodes before generation. */
  lemma EntersPreparation(n: GraphNode, s: State)
    ensures Forward(n, s) != Resolver
    ensures Forward(n, s) == ConceptChecklist <==> n == Resolver && !Has(s, ErrorKey)
    ensures Forward(n, s) == ReferenceRouter <==>
              n == ConceptChecklist && !Has(s, ErrorKey) && !Has(s, TerminalLlmFailure)
    ensures Forward(n, s) == LlamaParse <==>
              && n == ReferenceRouter && !Has(s, ErrorKey) && !Has(s, TerminalLlmFailure)
              && ResolveReferenceMode(s) == Pdf && NeedsLlamaparse(s)
    ensures Forward(n, s) == ExternalResearch <==>
              && n == ReferenceRouter && !Has(s, ErrorKey) && !Has(s, TerminalLlmFailure)
              && ResolveReferenceMode(s) == External && !Has(s, CacheHit) && !Has(s, ResearchStatus)
    ensures Forward(n, s) == ChecklistRealign <==>
              || (n == ExternalResearch && !Has(s, ErrorKey))
              || (n == ReferenceRouter && !Has(s, ErrorKey) && !Has(s, TerminalLlmFailure)
                  && ResolveReferenceMode(s) == External && (Has(s, CacheHit) || Has(s, ResearchStatus)))
  {
    hide Has, ResolveReferenceMode, NeedsLlamaparse;
  }

  /** When it generates: for the first time, over a malformed or missing document, or after a failed check. */
  lemma EntersGeneration(n: GraphNode, s: State)
    ensures Forward(n, s) == StudyAgent <==>
              || (n in {LlamaParse, ChecklistRealign} && !Has(s, ErrorKey))
              || (n == ReferenceRouter && !Has(s, ErrorKey) && !Has(s, TerminalLlmFailure)
                  && ResolveReferenceMode(s) != External
                  && (ResolveReferenceMode(s) == Pdf ==> !NeedsLlamaparse(s)))
              || (n == StudyAgent && !Has(s, ErrorKey) && !Has(s, TerminalLlmFailure)
                  && Get(s, GenerationOutcome) == OutcomeValue(MalformedDocument)
                  && (Get(s, FormatAttempt).NumberValue? ==> Get(s, FormatAttempt).number < 3))
              || (n == StudyAgent && !Has(s, ErrorKey) && !Has(s, TerminalLlmFailure)
                  && Get(s, GenerationOutcome) == NoneValue && !Has(s, GeneratedContent))
              || (n == QualityCheck && !Has(s, QcPassed) && !Has(s, QcFailedPermanently) && !Has(s, QcInfraError))
  {
    hide Has, ResolveReferenceMode, NeedsLlamaparse, IsTruthy;
  }

  /** When it checks: a document that was generated, and again after an infrastructure failure of the check. */
  lemma EntersCheck(n: GraphNode, s: State)
    ensures Forward(n, s) == QualityCheck <==>
              || (n == StudyAgent && !Has(s, ErrorKey) && !Has(s, TerminalLlmFailure)
                  && (Get(s, GenerationOutcome) == OutcomeValue(StudyDocument)
                      || (Get(s, GenerationOutcome) == NoneValue && Has(s, GeneratedContent))))
              || (n == QualityCheck && !Has(s, QcPassed) && !Has(s, QcFailedPermanently) && Has(s, QcInfraError))
  {
    hide Has, ResolveReferenceMode, NeedsLlamaparse, IsTruthy;
  }

  /** When it ends: on a failure flag, behind a final verdict, or on an outcome that is no document. */
  lemma Ends(n: GraphNode, s: State)
    ensures Forward(n, s) == End <==>
              || n == End
              || (n in {Resolver, LlamaParse, ExternalResearch, ChecklistRealign} && Has(s, ErrorKey))
              || (n in {ConceptChecklist, ReferenceRouter, StudyAgent}
                  && (Has(s, ErrorKey) || Has(s, TerminalLlmFailure)))
              || (n == StudyAgent && Get(s, GenerationOutcome) !in [NoneValue, OutcomeValue(StudyDocument)]
                  && (Get(s, GenerationOutcome) == OutcomeValue(MalformedDocument) ==>
                        Get(s, FormatAttempt).NumberValue? && Get(s, FormatAttempt).number >= 3))
              || (n == QualityCheck && (Has(s, QcPassed) || Has(s, QcFailedPermanently)))
  {
    hide Has, ResolveReferenceMode, NeedsLlamaparse, IsTruthy;
  }

  /** Where a resume goes on, checkpoint by checkpoint; behind generation it takes the forward edge. */
  lemma ResumeMeans(s: State, last: Option<GraphNode>)
    ensures last in [None, Some(End)] ==> ResumeNext(s, last) == Resolver
    ensures last == Some(Resolver) ==> ResumeNext(s, last) == ConceptChecklist
    ensures last == Some(ConceptChecklist) ==>
              ResumeNext(s, last) == if Has(s, MustCoverChecklist) then ReferenceRouter else ConceptChecklist
    ensures last in [Some(LlamaParse), Some(ChecklistRealign)] ==> ResumeNext(s, last) == StudyAgent
    ensures last == Some(ExternalResearch) ==> ResumeNext(s, last) == ChecklistRealign
    ensures last == Some(StudyAgent) ==> ResumeNext(s, last) == Forward(StudyAgent, s)
  {
    hide Has, ResolveReferenceMode, NeedsLlamaparse;
  }

  lemma ResumeAfterRouterMeans(s: State)
    ensures var m := ResumeNext(s, Some(ReferenceRouter));
            && (m == ChecklistRealign <==>
                  ResolveReferenceMode(s) == External && (Has(s, CacheHit) || Has(s, ResearchStatus)))
            && (m == ExternalResearch <==>
                  ResolveReferenceMode(s) == External && !Has(s, CacheHit) && !Has(s, ResearchStatus))
            && (m == LlamaParse <==> ResolveReferenceMode(s) == Pdf && NeedsLlamaparse(s))
            && m in {ChecklistRealign, ExternalResearch, LlamaParse, StudyAgent}
  {
    hide Has, NeedsLlamaparse;
  }

  lemma ResumeAfterCheckMeans(s: State)
    ensures var m, outcome := ResumeNext(s, Some(QualityCheck)), Get(s, GenerationOutcome);
            && (m == End <==> outcome.OutcomeValue? && outcome != OutcomeValue(StudyDocument))
            && (m == StudyAgent <==>
                  && (outcome.OutcomeValue? ==> outcome == OutcomeValue(StudyDocument))
                  && !Has(s, QcInfraError)
                  && Get(s, QcRetryMode).RetryValue? && Get(s, QcRetryMode) != RetryValue(NoRetry))
            && (m == Resolver <==>
                  && (outcome.OutcomeValue? ==> outcome == OutcomeValue(StudyDocument))
                  && !Has(s, QcInfraError) && !Has(s, GeneratedContent)
                  && (Get(s, QcRetryMode).RetryValue? ==> Get(s, QcRetryMode) == RetryValue(NoRetry)))
            && m in {End, StudyAgent, Resolver, QualityCheck}
  {
    hide Has;
  }

  /** The keys that hydration writes and no edge reads. */
  const UNROUTED := {MentorFeedback, IsResume, LastCompletedNode}

  predicate SameData(a: State, b: State) {
    a - UNROUTED == b - UNROUTED
  }

  lemma SameDataGet(a: State, b: State, k: StateKey)
    requires SameData(a, b) && k !in UNROUTED
    ensures Get(a, k) == Get(b, k)
  {
    assert k in a - UNROUTED <==> k in a;
    assert k in b - UNROUTED <==> k in b;
    if k in a {
      assert (a - UNROUTED)[k] == (b - UNROUTED)[k];
    }
  }

  ghost predicate SameReads(a: State, b: State) {
    forall k | k !in UNROUTED :: Get(a, k) == Get(b, k)
  }

  lemma SameReadsForward(a: State, b: State, n: GraphNode)
    requires SameReads(a, b)
    ensures Forward(n, a) == Forward(n, b)
  {
    hide IsTruthy, Get;
  }

  lemma SameReadsResume(a: State, b: State, last: Option<GraphNode>)
    requires SameReads(a, b)
    ensures ResumeNext(a, last) == ResumeNext(b, last)
  {
    hide IsTruthy, Get;
  }

  lemma SameDataRoutesSame(a: State, b: State, n: GraphNode, last: Option<GraphNode>)
    requires SameData(a, b)
    ensures Forward(n, a) == Forward(n, b)
    ensures ResumeNext(a, last) == ResumeNext(b, last)
  {
    assert SameReads(a, b) by {
      forall k | k !in UNROUTED ensures Get(a, k) == Get(b, k) {
        SameDataGet(a, b, k);
      }
    }
    SameReadsForward(a, b, n);
    SameReadsResume(a, b, last);
  }

  /** A request parameter that can fill a state key, either whenever it is given or only if truthy. */
  datatype Fill = Fill(param: StateKey, key: StateKey, onlyTruthy: bool)

  /** The two filling loops of `hydrate_checkpoint_state`, in order. */
  const FILLS := [
    Fill(NodeId, NodeId, true),
    Fill(ReferenceMaterialId, ReferenceMaterialId, true),
    Fill(MentorRegenerationGoal, MentorFeedback, false),
    Fill(MentorFeedback, MentorFeedback, false),
    Fill(ReferenceMaterialId, ReferenceMaterialId, false),
    Fill(ExternalResearchEnabled, ExternalResearchEnabled, false),
    Fill(ReferenceModeKey, ReferenceModeKey, false)]

  predicate Supplies(request: State, f: Fill) {
    f.param in request && (if f.onlyTruthy then IsTruthy(request[f.param]) else request[f.param] != NoneValue)
  }

  function FillOne(s: State, f: Fill, request: State): State {
    if f.key !in s && Supplies(request, f) then s[f.key := request[f.param]] else s
  }

  function FillAll(s: State, fills: seq<Fill>, request: State): State {
    if fills == [] then s else FillOne(FillAll(s, fills[..|fills| - 1], request), fills[|fills| - 1], request)
  }

  /** The first fill that supplies a key, or the number of fills. */
  function FirstSupply(fills: seq<Fill>, k: StateKey, request: State): (j: nat)
    ensures j <= |fills|
    ensures j < |fills| ==> fills[j].key == k && Supplies(request, fills[j])
    ensures forall i | 0 <= i < j :: !(fills[i].key == k && Supplies(request, fills[i]))
  {
    if fills == [] then 0
    else
      var j := FirstSupply(fills[..|fills| - 1], k, request);
      if j < |fills| - 1 then j
      else if fills[|fills| - 1].key == k && Supplies(request, fills[|fills| - 1]) then |fills| - 1
      else |fills|
  }

  /** The state wins over the request, and of the request's parameters the first that is supplied. */
  lemma {:induction false} FillAllMeaning(s: State, fills: seq<Fill>, request: State, k: StateKey)
    ensures var r, j := FillAll(s, fills, request), FirstSupply(fills, k, request);
            && (k in s ==> k in r && r[k] == s[k])
            && (k !in s ==> (k in r <==> j < |fills|))
            && (k !in s && j < |fills| ==> r[k] == request[fills[j].param])
  {
    hide Supplies;
    if fills != [] {
      FillAllMeaning(s, fills[..|fills| - 1], request, k);
    }
  }

  /** What `hydrate_checkpoint_state` hands to the graph. */
  function Hydrate(s: State, last: Option<GraphNode>, request: State): State {
    FillAll(s, FILLS, request)[IsResume := BoolValue(true)]
      [LastCompletedNode := if last.Some? then NodeValue(last.value) else NoneValue]
  }

  /** Whether a request parameter is given at all. */
  predicate Given(request: State, k: StateKey) {
    k in request && request[k] != NoneValue
  }

  /** What hydration leaves under a key that the checkpoint does not hold. */
  lemma HydrateFills(s: State, last: Option<GraphNode>, request: State)
    ensures var h := Hydrate(s, last, request);
            && (MentorFeedback !in s ==>
                  if Given(request, MentorRegenerationGoal)
                  then MentorFeedback in h && h[MentorFeedback] == request[MentorRegenerationGoal]
                  else Get(h, MentorFeedback) == Get(request, MentorFeedback))
            && (NodeId !in s ==>
                  Get(h, NodeId) == if Has(request, NodeId) then request[NodeId] else NoneValue)
            && (ReferenceMaterialId !in s ==> Get(h, ReferenceMaterialId) == Get(request, ReferenceMaterialId))
            && (ExternalResearchEnabled !in s ==>
                  Get(h, ExternalResearchEnabled) == Get(request, ExternalResearchEnabled))
            && (ReferenceModeKey !in s ==> Get(h, ReferenceModeKey) == Get(request, ReferenceModeKey))
  {
    forall k ensures k !in s && k !in [IsResume, LastCompletedNode] ==>
                       Get(Hydrate(s, last, request), k) == Filled(k, request) {
      FillAllMeaning(s, FILLS, request, k);
      hide FillAll, FirstSupply;
    }
    hide FillAll, Hydrate;
    FilledMeans(request);
  }

  function Filled(k: StateKey, request: State): Value {
    var j := FirstSupply(FILLS, k, request);
    if j < |FILLS| then request[FILLS[j].param] else NoneValue
  }

  lemma FilledMeans(request: State)
    ensures Filled(MentorFeedback, request)
         == if Given(request, MentorRegenerationGoal) then request[MentorRegenerationGoal]
            else Get(request, MentorFeedback)
    ensures Filled(NodeId, request) == if Has(request, NodeId) then request[NodeId] else NoneValue
    ensures forall k | k in {ReferenceMaterialId, ExternalResearchEnabled, ReferenceModeKey} ::
              Filled(k, request) == Get(request, k)
  {
    var a, b := FirstSupply(FILLS, MentorFeedback, request), FirstSupply(FILLS, NodeId, request);
    assert !(FILLS[2].key == MentorFeedback && Supplies(request, FILLS[2])) || a <= 2;
    assert !(FILLS[3].key == MentorFeedback && Supplies(request, FILLS[3])) || a <= 3;
    assert a in [2, 3, 7] && b in [0, 7];
    assert !(FILLS[0].key == NodeId && Supplies(request, FILLS[0])) || b == 0;
    forall k | k in {ReferenceMaterialId, ExternalResearchEnabled, ReferenceModeKey}
      ensures Filled(k, request) == Get(request, k)
    {
      OwnParameter(k, request);
    }
  }

  lemma OwnParameter(k: StateKey, request: State)
    requires k in {ReferenceMaterialId, ExternalResearchEnabled, ReferenceModeKey}
    ensures Filled(k, request) == Get(request, k)
  {
    hide FirstSupply;
    var j := FirstSupply(FILLS, k, request);
    var i := if k == ReferenceMaterialId then 4 else if k == ExternalResearchEnabled then 5 else 6;
    assert FILLS[i] == Fill(k, k, false);
    assert !Supplies(request, FILLS[i]) || j <= i;
    assert j < |FILLS| ==> FILLS[j].key == k && FILLS[j].param == k;
  }

  /** What the checkpoint holds stays; the resume keys are set; nothing else appears. */
  lemma HydrateKeeps(s: State, last: Option<GraphNode>, request: State, k: StateKey)
    ensures var h := Hydrate(s, last, request);
            && (k in s && k !in [IsResume, LastCompletedNode] ==> k in h && h[k] == s[k])
            && Get(h, IsResume) == BoolValue(true)
            && Get(h, LastCompletedNode) == (if last.Some? then NodeValue(last.value) else NoneValue)
            && (k in h ==> k in s || k in [IsResume, LastCompletedNode, NodeId, MentorFeedback,
                                           ReferenceMaterialId, ExternalResearchEnabled, ReferenceModeKey])
  {
    FillAllMeaning(s, FILLS, request, k);
    hide FillAll, FirstSupply;
  }

  /** `hydrate_checkpoint_state`, which fills the dictionary in place. */
  method HydrateCheckpointState(checkpoint: State, last: Option<GraphNode>, request: State) returns (state: State)
    ensures state == Hydrate(checkpoint, last, request)
  {
    state := checkpoint;
    for i := 0 to |FILLS|
      invariant state == FillAll(checkpoint, FILLS[..i], request)
    {
      assert FILLS[..i + 1][..i] == FILLS[..i];
      var f := FILLS[i];
      if f.key !in state {
        if Supplies(request, f) {
          state := state[f.key := request[f.param]];
        }
      }
    }
    assert FILLS[..|FILLS|] == FILLS;
    state := state[IsResume := BoolValue(true)];
    state := state[LastCompletedNode := if last.Some? then NodeValue(last.value) else NoneValue];
  }

  function LastNodeOf(s: State): Option<GraphNode> {
    if Get(s, LastCompletedNode).NodeValue? then Some(Get(s, LastCompletedNode).node) else None
  }

  /** `_route_from_entry` */
  function RouteFromEntry(s: State): GraphNode {
    if !Has(s, IsResume) then Resolver else ResumeNext(s, LastNodeOf(s))
  }

  /** The request has nothing to add that an edge could read. */
  predicate NothingToFill(s: State, request: State) {
    forall f | f in FILLS && f.key !in UNROUTED :: f.key in s || !Supplies(request, f)
  }

  /** Filling is done once: a hydrated state leaves nothing to fill. */
  lemma HydrationSettles(s: State, last: Option<GraphNode>, request: State)
    ensures NothingToFill(Hydrate(s, last, request), request)
  {
    hide Supplies, FillAll;
    forall f | f in FILLS && Supplies(request, f) ensures f.key in FillAll(s, FILLS, request) {
      var i :| 0 <= i < |FILLS| && FILLS[i] == f;
      FillAllMeaning(s, FILLS, request, f.key);
      assert FirstSupply(FILLS, f.key, request) <= i;
    }
  }

  /** A state with nothing to fill enters the graph at its own resume edge, data unchanged. */
  lemma HydratedEntersAtResumeEdge(s: State, last: Option<GraphNode>, request: State)
    requires NothingToFill(s, request)
    ensures SameData(Hydrate(s, last, request), s)
    ensures RouteFromEntry(Hydrate(s, last, request)) == ResumeNext(s, last)
  {
    var h := Hydrate(s, last, request);
    HydrationKeepsData(s, last, request);
    HydratedRoute(s, last, request);
    SameDataRoutesSame(h, s, Resolver, last);
  }

  lemma HydrationKeepsData(s: State, last: Option<GraphNode>, request: State)
    requires NothingToFill(s, request)
    ensures SameData(Hydrate(s, last, request), s)
  {
    hide Supplies, FillAll;
    var filled, h := FillAll(s, FILLS, request), Hydrate(s, last, request);
    forall k | k !in UNROUTED ensures (k in h <==> k in s) && (k in s ==> h[k] == s[k]) {
      FillAllMeaning(s, FILLS, request, k);
      var j := FirstSupply(FILLS, k, request);
      assert j < |FILLS| ==> FILLS[j] in FILLS;
    }
    assert h - UNROUTED == s - UNROUTED;
  }

  lemma NeverFilled(k: StateKey, request: State)
    requires forall i | 0 <= i < |FILLS| :: FILLS[i].key != k
    ensures k !in FillAll(map[], FILLS, request)
  {
    hide Supplies, FillAll;
    FillAllMeaning(map[], FILLS, request, k);
  }

  lemma FailureFlagsNeverFilled(request: State)
    ensures ErrorKey !in FillAll(map[], FILLS, request) && TerminalLlmFailure !in FillAll(map[], FILLS, request)
  {
    hide FillAll, Supplies;
    NeverFilled(ErrorKey, request);
    NeverFilled(TerminalLlmFailure, request);
  }

  lemma HydratedRoute(s: State, last: Option<GraphNode>, request: State)
    ensures RouteFromEntry(Hydrate(s, last, request)) == ResumeNext(Hydrate(s, last, request), last)
  {
    hide FillAll, ResumeNext;
    assert LastNodeOf(Hydrate(s, last, request)) == last;
  }

  /** With no checkpoint at all, a resume starts over at `resolver` with no failure on record. */
  lemma HydratedFromNothing(request: State)
    ensures var h := Hydrate(map[], None, request);
            && RouteFromEntry(h) == Resolver && !Has(h, ErrorKey) && !Has(h, TerminalLlmFailure)
            && NothingToFill(h, request)
  {
    HydrationSettles(map[], None, request);
    FailureFlagsNeverFilled(request);
    HydratedRoute(map[], None, request);
    hide Supplies, FillAll, NothingToFill, RouteFromEntry;
  }
}
