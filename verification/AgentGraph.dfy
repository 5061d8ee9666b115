/**
  The bounded agent: six nodes, budgets for steps, tool calls and retries, a deadline, and
  degradation that sticks (app/agent/graph.py:133-717).
 */
module AgentGraph {
  import opened Wrappers
  import opened Order
  import PyText

  type Id = string

  datatype Group = Group(id: Id, findings: seq<Id>)

  datatype Reason =
    | NoModel | ReviewDisabled | GroupLimit | LlmTimeout | LlmInvalid | LlmError
    | ToolError | ToolCallLimit | StepLimit | AgentTimeout | ToolObservation | RequestedByModel

  datatype Tool = SearchDocs | OtherTool

  datatype Decision =
    | CallTool(group: Id, tool: Tool)
    | FinishGroup(group: Id, text: string)
    | RequestReview(group: Id, detail: string)

  datatype Node = Prepare | LlmDecide | ValidateAction | ExecuteTool | CompleteGroup | Finalize | End

  datatype Step = Step(node: Node, group: Option<Id>, tool: Option<Tool>)

  datatype Explanation = Explanation(group: Id, findings: seq<Id>, text: string, model: string)
  datatype DocCandidate = DocCandidate(group: Id, findings: seq<Id>, chunk: Id)
  datatype HumanItem = HumanItem(group: Option<Id>, findings: seq<Id>, reason: Reason)
  datatype Draft = Draft(explanations: seq<Explanation>, candidates: seq<DocCandidate>, human: seq<HumanItem>)

  datatype Binding = Binding(group: Id, findings: seq<Id>, chunks: seq<Id>)

  /**
    What a node raises and nothing catches: internal errors, and the refusal of an explanation whose
    model name has surrounding whitespace (graph_models.py:253-258).
   */
  datatype Crash =
    | GroupOutOfRange | ReviewedTwice | ClientGone | NotAToolDecision | UnsupportedDecision | NoModelIdentity
    | PaddedModelName

  datatype Limits = Limits(maxGroups: nat, maxToolCalls: nat, maxSteps: nat, maxRetries: nat) {
    /** The ranges of app/agent/graph_models.py:93-117. */
    predicate Valid() {
      1 <= maxGroups <= 8 && 1 <= maxToolCalls <= 8 && 1 <= maxSteps <= 32 && maxRetries <= 1
    }
  }

  const DEFAULT_LIMITS := Limits(8, 8, 32, 1)

  const MAX_ERRORS := 32
  const MAX_FINDINGS_PER_ITEM := 100

  /** What one model call brings back; an answer comes under the name the provider gives its model. */
  datatype Reply = TimedOut | ClientFailed | Malformed | Answer(decision: Decision, model: string)

  const MAX_MODEL_NAME := 128

  /** `value == value.strip()`. */
  predicate Stripped(value: string) {
    value != "" ==> !PyText.IsSpace(value[0]) && !PyText.IsSpace(value[|value| - 1])
  }

  /** What one tool call brings back; `chunks` matter only for a documentation search. */
  datatype ToolReply = ToolFailed | ToolDone(chunks: seq<Id>)

  /**
    The world: whether the deadline has passed at the n-th look at the clock, the n-th model reply,
    the n-th tool reply. A documentation search returns at most five distinct chunks; a model name has
    1 to 128 characters, any of them (app/core/llm.py:30-35).
   */
  datatype World = World(expired: nat -> bool, llm: nat -> Reply, tool: nat -> ToolReply) {
    ghost predicate Honest() {
      (forall n :: tool(n).ToolDone? ==> |tool(n).chunks| <= 5 && NoDuplicates(tool(n).chunks)) &&
      (forall n :: llm(n).Answer? ==> 1 <= |llm(n).model| <= MAX_MODEL_NAME)
    }

    /** No explanation comes under a name with surrounding whitespace. */
    ghost predicate Tidy() {
      forall n :: llm(n).Answer? && llm(n).decision.FinishGroup? ==> Stripped(llm(n).model)
    }
  }

  /** One request: the prepared groups, the overflow, and whether a model may and can be used. */
  datatype Request = Request(groups: seq<Group>, overflow: seq<Id>, llmReview: bool, hasClient: bool, limits: Limits)

  datatype State = State(
    groups: seq<Group>,
    overflow: seq<Id>,
    index: nat,
    steps: seq<Step>,
    draft: Draft,
    reason: Option<Reason>,
    reviewed: seq<Id>,
    retrieved: seq<Id>,
    bindings: seq<Binding>,
    errors: seq<Step>,
    toolCalls: nat,
    llmCalls: nat,
    retries: nat,
    looks: nat,
    pending: Option<Decision>,
    model: Option<string>,
    finished: bool)

  const EMPTY_DRAFT := Draft([], [], [])
  const INITIAL_STATE := State([], [], 0, [], EMPTY_DRAFT, None, [], [], [], [], 0, 0, 0, 0, None, None, false)

  // ----- draft helpers (graph.py:761-848) -----

  function AddCandidate(d: Draft, c: DocCandidate): Draft {
    if exists k :: 0 <= k < |d.candidates| && d.candidates[k].group == c.group && d.candidates[k].chunk == c.chunk
    then d else d.(candidates := d.candidates + [c])
  }

  function AddCandidates(d: Draft, g: Group, chunks: seq<Id>): Draft
    decreases chunks
  {
    if chunks == [] then d
    else AddCandidates(AddCandidate(d, DocCandidate(g.id, g.findings, chunks[0])), g, chunks[1..])
  }

  function AddHuman(d: Draft, item: HumanItem): Draft {
    if item in d.human then d else d.(human := d.human + [item])
  }

  function AddHumanGroups(d: Draft, groups: seq<Group>, reason: Reason): Draft
    decreases groups
  {
    if groups == [] then d
    else AddHumanGroups(AddHuman(d, HumanItem(Some(groups[0].id), groups[0].findings, reason)), groups[1..], reason)
  }

  /** Overflow findings, a hundred to an item. */
  function AddHumanFindings(d: Draft, ids: seq<Id>, reason: Reason): Draft
    decreases |ids|
  {
    if ids == [] then d
    else
      var n := if |ids| < MAX_FINDINGS_PER_ITEM then |ids| else MAX_FINDINGS_PER_ITEM;
      AddHumanFindings(AddHuman(d, HumanItem(None, ids[..n], reason)), ids[n..], reason)
  }

  function AppendError(errors: seq<Step>, e: Step): (r: seq<Step>)
    ensures |errors| <= MAX_ERRORS ==> |r| <= MAX_ERRORS
  {
    if |errors| >= MAX_ERRORS then errors else errors + [e]
  }

  // ----- steps and degradation (graph.py:611-675) -----

  function GroupIdAt(st: State): Option<Id> {
    if st.index < |st.groups| then Some(st.groups[st.index].id) else None
  }

  function BeginStep(lim: Limits, st: State, node: Node, tool: Option<Tool>): Option<seq<Step>> {
    if |st.steps| >= lim.maxSteps then None else Some(st.steps + [Step(node, GroupIdAt(st), tool)])
  }

  /** `_degraded_update`: the rest of the groups go to human review and the run ends. */
  function Degrade(st: State, reason: Reason): State {
    var current := if st.reason == Some(GroupLimit) then Some(reason) else st.reason;
    st.(draft := AddHumanGroups(st.draft, if st.index <= |st.groups| then st.groups[st.index..] else [], reason),
        reason := if current.None? then Some(reason) else current,
        pending := None, model := None, finished := true)
  }

  function LimitError(st: State, node: Node): seq<Step> {
    AppendError(st.errors, Step(node, GroupIdAt(st), None))
  }

  // ----- nodes -----

  function PrepareNode(req: Request, st: State): State {
    match BeginStep(req.limits, st, Prepare, None)
    case None => Degrade(st, StepLimit)
    case Some(steps) =>
      var d0 := if req.overflow == [] then st.draft else AddHumanFindings(st.draft, req.overflow, GroupLimit);
      var r0 := if req.overflow == [] then st.reason else Some(GroupLimit);
      var blocked := if req.groups == [] then None
                     else if !req.llmReview then Some(ReviewDisabled)
                     else if !req.hasClient then Some(NoModel)
                     else None;
      st.(groups := req.groups, overflow := req.overflow, steps := steps,
          draft := if blocked.None? then d0 else AddHumanGroups(d0, req.groups, blocked.value),
          reason := if blocked.None? then r0 else blocked,
          finished := req.groups == [] || blocked.Some?)
  }

  /** How the model loop ended, with its counters. */
  datatype Tries = Tries(looks: nat, calls: nat, retries: nat, errors: seq<Step>)

  datatype Attempted =
    | Decided(tries: Tries, decision: Decision, model: string)
    | GaveUp(tries: Tries, reason: Reason)

  datatype Tried = Stop(outcome: Attempted) | Again(tries: Tries)

  /** One pass of the retry loop (graph.py:320-385): look at the clock, call, judge, maybe look again. */
  function TryOnce(w: World, lim: Limits, gid: Id, attempt: nat, t: Tries): (r: Tried)
    ensures r.Again? ==> attempt < lim.maxRetries && r.tries.calls == t.calls + 1 && r.tries.retries == t.retries + 1
    ensures r.Stop? ==> r.outcome.tries.retries == t.retries
    ensures r.Stop? ==>
      r.outcome.tries.calls == t.calls + if r.outcome.GaveUp? && r.outcome.reason == AgentTimeout then 0 else 1
    ensures r.Stop? && r.outcome.Decided? ==>
      r.outcome.decision.group == gid && w.llm(t.calls) == Answer(r.outcome.decision, r.outcome.model)
    ensures r.Stop? && r.outcome.GaveUp? ==> IsModelFailure(r.outcome.reason)
    ensures |t.errors| <= MAX_ERRORS ==> |(if r.Stop? then r.outcome.tries else r.tries).errors| <= MAX_ERRORS
  {
    var error := Step(LlmDecide, Some(gid), None);
    if w.expired(t.looks)
    then Stop(GaveUp(t.(looks := t.looks + 1, errors := AppendError(t.errors, error)), AgentTimeout))
    else
      var reply := w.llm(t.calls);
      var called := t.(looks := t.looks + 1, calls := t.calls + 1);
      if reply.Answer? && reply.decision.group == gid then Stop(Decided(called, reply.decision, reply.model))
      else
        var last := if reply.TimedOut? then LlmTimeout else if reply.ClientFailed? then LlmError else LlmInvalid;
        var failed := called.(errors := AppendError(called.errors, error));
        if attempt >= lim.maxRetries then Stop(GaveUp(failed, last))
        else if w.expired(failed.looks) then Stop(GaveUp(failed.(looks := failed.looks + 1), last))
        else Again(failed.(looks := failed.looks + 1, retries := failed.retries + 1))
  }

  predicate IsModelFailure(r: Reason) {
    r == AgentTimeout || r == LlmTimeout || r == LlmError || r == LlmInvalid
  }

  /** The whole loop: its calls are one more than its retries, unless the deadline came first. */
  function Attempts(w: World, lim: Limits, gid: Id, attempt: nat, t: Tries): (r: Attempted)
    requires attempt <= lim.maxRetries
    ensures t.retries <= r.tries.retries <= t.retries + lim.maxRetries - attempt
    ensures r.tries.calls - t.calls ==
            r.tries.retries - t.retries + if r.GaveUp? && r.reason == AgentTimeout then 0 else 1
    ensures r.Decided? ==>
      r.decision.group == gid && r.tries.calls > 0 && w.llm(r.tries.calls - 1) == Answer(r.decision, r.model)
    ensures r.GaveUp? ==> IsModelFailure(r.reason)
    ensures |t.errors| <= MAX_ERRORS ==> |r.tries.errors| <= MAX_ERRORS
    decreases lim.maxRetries - attempt
  {
    match TryOnce(w, lim, gid, attempt, t)
    case Stop(outcome) => outcome
    case Again(t') => Attempts(w, lim, gid, attempt + 1, t')
  }

  /** The retry loop as the source runs it, updating its counters. */
  method RunAttempts(w: World, lim: Limits, gid: Id, start: Tries) returns (r: Attempted)
    ensures r == Attempts(w, lim, gid, 0, start)
  {
    var attempt: nat, tries := 0, start;
    while true
      invariant attempt <= lim.maxRetries
      invariant Attempts(w, lim, gid, attempt, tries) == Attempts(w, lim, gid, 0, start)
      decreases lim.maxRetries - attempt
    {
      var tried := TryOnce(w, lim, gid, attempt, tries);
      if tried.Stop? {
        return tried.outcome;
      }
      tries := tried.tries;
      attempt := attempt + 1;
    }
  }

  function LlmDecideNode(w: World, req: Request, st: State): Result<State, Crash> {
    if st.finished then Ok(st.(pending := None, model := None))
    else match BeginStep(req.limits, st, LlmDecide, None)
      case None => Ok(Degrade(st, StepLimit).(errors := LimitError(st, LlmDecide)))
      case Some(steps) =>
        if st.index >= |st.groups| then Err(GroupOutOfRange)
        else
          var g := st.groups[st.index];
          if exists k :: 0 <= k < |g.findings| && g.findings[k] in st.reviewed then Err(ReviewedTwice)
          else if !req.hasClient then Err(ClientGone)
          else
            var r := Attempts(w, req.limits, g.id, 0, Tries(st.looks, st.llmCalls, st.retries, st.errors));
            var st' := if r.Decided?
                       then st.(pending := Some(r.decision), model := Some(r.model))
                       else Degrade(st, r.reason);
            Ok(st'.(steps := steps, reviewed := st.reviewed + g.findings, looks := r.tries.looks,
                    llmCalls := r.tries.calls, retries := r.tries.retries, errors := r.tries.errors))
  }

  function ValidateActionNode(w: World, req: Request, st: State): State {
    if st.finished || st.pending.None? then st.(pending := None)
    else match BeginStep(req.limits, st, ValidateAction, None)
      case None => Degrade(st, StepLimit).(errors := LimitError(st, ValidateAction))
      case Some(steps) =>
        var st' := st.(steps := steps, looks := st.looks + 1);
        if w.expired(st.looks) then Degrade(st', AgentTimeout).(errors := LimitError(st, ValidateAction))
        else if st.pending.value.CallTool? && st.toolCalls >= req.limits.maxToolCalls
        then Degrade(st', ToolCallLimit).(errors := LimitError(st, ValidateAction))
        else st'
  }

  /** The chunks not retrieved before, in order. */
  function NewChunks(retrieved: seq<Id>, chunks: seq<Id>): seq<Id> {
    if chunks == [] then []
    else (if chunks[0] in retrieved then [] else [chunks[0]]) + NewChunks(retrieved, chunks[1..])
  }

  function ExecuteToolNode(w: World, req: Request, st: State): Result<State, Crash> {
    if st.pending.None? || !st.pending.value.CallTool? then Err(NotAToolDecision)
    else
      var tool := st.pending.value.tool;
      match BeginStep(req.limits, st, ExecuteTool, Some(tool))
      case None => Ok(Degrade(st, StepLimit).(errors := LimitError(st, ExecuteTool)))
      case Some(steps) =>
        if st.index >= |st.groups| then Err(GroupOutOfRange)
        else
          var g := st.groups[st.index];
          var reply := w.tool(st.toolCalls);
          var st' := st.(steps := steps, toolCalls := st.toolCalls + 1);
          if reply.ToolFailed?
          then Ok(Degrade(st', ToolError).(errors := AppendError(st.errors, Step(ExecuteTool, Some(g.id), None))))
          else
            var done := st'.(index := st.index + 1, pending := None, model := None);
            if tool == SearchDocs then
              Ok(done.(retrieved := st.retrieved + NewChunks(st.retrieved, reply.chunks),
                       draft := AddCandidates(st.draft, g, reply.chunks),
                       bindings := if reply.chunks == [] then st.bindings
                                   else st.bindings + [Binding(g.id, g.findings, reply.chunks)]))
            else
              Ok(done.(draft := AddHuman(st.draft, HumanItem(Some(g.id), g.findings, ToolObservation))))
  }

  function CompleteGroupNode(req: Request, st: State): Result<State, Crash> {
    if st.pending.None? || st.pending.value.CallTool? then Err(UnsupportedDecision)
    else match BeginStep(req.limits, st, CompleteGroup, None)
      case None => Ok(Degrade(st, StepLimit).(errors := LimitError(st, CompleteGroup)))
      case Some(steps) =>
        if st.index >= |st.groups| then Err(GroupOutOfRange)
        else
          var g, d := st.groups[st.index], st.pending.value;
          var done := st.(steps := steps, index := st.index + 1, pending := None, model := None);
          if d.FinishGroup? then
            if st.model.None? then Err(NoModelIdentity)
            else if !Stripped(st.model.value) then Err(PaddedModelName)
            else
              var x := Explanation(g.id, g.findings, d.text, st.model.value);
              Ok(done.(draft := st.draft.(explanations := st.draft.explanations + [x])))
          else
            Ok(done.(draft := AddHuman(st.draft, HumanItem(Some(g.id), g.findings, RequestedByModel))))
  }

  // ----- the graph (graph.py:179-214, 586-609) -----

  function RouteAfterGroup(st: State): Node {
    if st.finished || (st.reason.Some? && st.reason.value != GroupLimit) || st.index >= |st.groups|
    then Finalize else LlmDecide
  }

  function RouteAfterValidation(st: State): Node {
    if st.finished || st.pending.None? then Finalize
    else if st.pending.value.CallTool? then ExecuteTool else CompleteGroup
  }

  datatype Config = Config(node: Node, state: State)

  const START := Config(Prepare, INITIAL_STATE)

  function Then(r: Result<State, Crash>, next: State -> Node): Result<Config, Crash> {
    match r
    case Ok(st) => Ok(Config(next(st), st))
    case Err(c) => Err(c)
  }

  /** One node visit and the route out of it. */
  function Visit(w: World, req: Request, c: Config): Result<Config, Crash> {
    match c.node
    case Prepare => Then(Ok(PrepareNode(req, c.state)), RouteAfterGroup)
    case LlmDecide => Then(LlmDecideNode(w, req, c.state), st => ValidateAction)
    case ValidateAction => Then(Ok(ValidateActionNode(w, req, c.state)), RouteAfterValidation)
    case ExecuteTool => Then(ExecuteToolNode(w, req, c.state), RouteAfterGroup)
    case CompleteGroup => Then(CompleteGroupNode(req, c.state), RouteAfterGroup)
    case Finalize => Ok(Config(End, c.state.(finished := true, pending := None, model := None)))
    case End => Ok(c)
  }
}
