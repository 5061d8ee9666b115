/**
  Why a run was degraded: every reason is tied to what the request, the model, the tools and the clock
  did, and the human items of the groups left over carry it (app/agent/graph.py:249-534, 611-675).
 */
module AgentReasons {
  import opened Wrappers
  import opened AgentGraph
  import opened AgentInvariants
  import opened AgentRun

  /** What is wrong with a reply to a question about a group, if anything. */
  function Fault(reply: Reply, group: Id): Option<Reason> {
    match reply
    case TimedOut => Some(LlmTimeout)
    case ClientFailed => Some(LlmError)
    case Malformed => Some(LlmInvalid)
    case Answer(d, _) => if d.group == group then None else Some(LlmInvalid)
  }

  /** The group the model was last asked about. */
  function LastAsked(steps: seq<Step>): Option<Id> {
    if steps == [] then None
    else
      var s := steps[|steps| - 1];
      if s.node == LlmDecide then s.group else LastAsked(steps[..|steps| - 1])
  }

  /** What was wrong with the last reply of the model. */
  function LastFault(w: World, st: State): Option<Reason> {
    if st.llmCalls == 0 || LastAsked(st.steps).None? then None
    else Fault(w.llm(st.llmCalls - 1), LastAsked(st.steps).value)
  }

  /** The last tool call failed. */
  predicate LastToolFailed(w: World, st: State) { st.toolCalls > 0 && w.tool(st.toolCalls - 1).ToolFailed? }

  /** A reason of the model's, the last reply's fault. */
  predicate OfModel(r: Reason) { r == LlmTimeout || r == LlmError || r == LlmInvalid }

  /** What has to be the case for a run to end with the reason. */
  predicate Cause(w: World, req: Request, st: State, r: Reason) {
    match r
    case ReviewDisabled => req.groups != [] && !req.llmReview
    case NoModel => req.groups != [] && req.llmReview && !req.hasClient
    case GroupLimit => req.overflow != [] && st.index == |st.groups|
    case LlmTimeout => LastFault(w, st) == Some(LlmTimeout)
    case LlmInvalid => LastFault(w, st) == Some(LlmInvalid)
    case LlmError => LastFault(w, st) == Some(LlmError)
    case ToolError => LastToolFailed(w, st)
    case ToolCallLimit => st.toolCalls >= req.limits.maxToolCalls
    case StepLimit => |st.steps| >= req.limits.maxSteps
    case AgentTimeout => st.looks > 0 && w.expired(st.looks - 1)
    case _ => false
  }

  /** Every group not done is with a human, for the reason. */
  ghost predicate LeftToHuman(st: State) {
    st.index < |st.groups| ==>
      st.reason.Some? && forall i :: st.index <= i < |st.groups| ==>
        HumanItem(Some(st.groups[i].id), st.groups[i].findings, st.reason.value) in st.draft.human
  }

  /** A run that is over says why, and only the reasons for it stand in the way of a good last reply and tool call. */
  ghost predicate Explained(w: World, req: Request, st: State) {
    (st.reason.Some? ==> Cause(w, req, st, st.reason.value)) && LeftToHuman(st) &&
    (LastFault(w, st).None? || (st.reason.Some? && (OfModel(st.reason.value) || st.reason.value == AgentTimeout))) &&
    (!LastToolFailed(w, st) || st.reason == Some(ToolError)) &&
    (st.groups != [] && !req.llmReview ==> st.reason == Some(ReviewDisabled)) &&
    (st.groups != [] && req.llmReview && !req.hasClient ==> st.reason == Some(NoModel)) &&
    (st.reason.None? ==> req.overflow == [])
  }

  ghost predicate Fine(w: World, st: State) { LastFault(w, st).None? && !LastToolFailed(w, st) }

  ghost predicate ReasonInv(w: World, req: Request, c: Config) {
    match c.node
    case Prepare => true
    case LlmDecide => Fine(w, c.state)
    case ValidateAction => if c.state.finished then Explained(w, req, c.state) else Fine(w, c.state)
    case ExecuteTool => Fine(w, c.state)
    case CompleteGroup => Fine(w, c.state)
    case Finalize => Explained(w, req, c.state)
    case End => Explained(w, req, c.state)
  }

  lemma AskedMore(steps: seq<Step>, s: Step)
    ensures LastAsked(steps + [s]) == if s.node == LlmDecide then s.group else LastAsked(steps)
  {
    assert (steps + [s])[..|steps|] == steps;
  }

  /** How the retry loop ends: the fault of its last reply, or the deadline. */
  lemma {:induction false} AttemptsCause(w: World, lim: Limits, gid: Id, attempt: nat, t: Tries)
    requires attempt <= lim.maxRetries
    ensures var r := Attempts(w, lim, gid, attempt, t);
            r.Decided? ==> r.tries.calls > 0 && Fault(w.llm(r.tries.calls - 1), gid).None?
    ensures var r := Attempts(w, lim, gid, attempt, t);
            r.GaveUp? && r.reason != AgentTimeout ==>
              r.tries.calls > 0 && Fault(w.llm(r.tries.calls - 1), gid) == Some(r.reason)
    ensures var r := Attempts(w, lim, gid, attempt, t);
            r.GaveUp? && r.reason == AgentTimeout ==> r.tries.looks > 0 && w.expired(r.tries.looks - 1)
    decreases lim.maxRetries - attempt
  {
    hide AppendError;
    match TryOnce(w, lim, gid, attempt, t)
    case Stop(outcome) =>
    case Again(t') => AttemptsCause(w, lim, gid, attempt + 1, t');
  }

  /** The k-th attempt from here ended in a fault, in time for another. */
  ghost predicate RetriedAfter(w: World, gid: Id, t: Tries, k: nat) {
    !w.expired(t.looks + 2 * k) && Fault(w.llm(t.calls + k), gid).Some? && !w.expired(t.looks + 2 * k + 1)
  }

  /**
    The retry loop, look by look: before each call the clock allowed it, each retry follows a fault that
    the clock still allowed to be made good, and the loop ends with a decision, at the deadline, or with
    a fault after the last attempt allowed or in time for no other.
   */
  ghost predicate Tried(w: World, lim: Limits, gid: Id, attempt: nat, t: Tries, r: Attempted)
    requires attempt <= lim.maxRetries
  {
    var n := r.tries.retries - t.retries;
    0 <= n <= lim.maxRetries - attempt &&
    (forall k: nat :: k < n ==> RetriedAfter(w, gid, t, k)) &&
    if r.GaveUp? && r.reason == AgentTimeout
    then w.expired(t.looks + 2 * n) && r.tries.looks == t.looks + 2 * n + 1 && r.tries.calls == t.calls + n
    else
      !w.expired(t.looks + 2 * n) && r.tries.calls == t.calls + n + 1 &&
      if r.Decided?
      then w.llm(t.calls + n) == Answer(r.decision, r.model) && r.decision.group == gid &&
        r.tries.looks == t.looks + 2 * n + 1
      else
        Fault(w.llm(t.calls + n), gid) == Some(r.reason) &&
        if n == lim.maxRetries - attempt then r.tries.looks == t.looks + 2 * n + 1
        else w.expired(t.looks + 2 * n + 1) && r.tries.looks == t.looks + 2 * n + 2
  }

  lemma {:induction false} AttemptsTried(w: World, lim: Limits, gid: Id, attempt: nat, t: Tries)
    requires attempt <= lim.maxRetries
    ensures Tried(w, lim, gid, attempt, t, Attempts(w, lim, gid, attempt, t))
    decreases lim.maxRetries - attempt
  {
    hide AppendError;
    match TryOnce(w, lim, gid, attempt, t)
    case Stop(outcome) =>
    case Again(t') =>
      AttemptsTried(w, lim, gid, attempt + 1, t');
      TriedBefore(w, lim, gid, attempt, t, t', Attempts(w, lim, gid, attempt + 1, t'));
  }

  lemma TriedBefore(w: World, lim: Limits, gid: Id, attempt: nat, t: Tries, t': Tries, r: Attempted)
    requires attempt < lim.maxRetries && Tried(w, lim, gid, attempt + 1, t', r)
    requires t'.looks == t.looks + 2 && t'.calls == t.calls + 1 && t'.retries == t.retries + 1
    requires !w.expired(t.looks) && Fault(w.llm(t.calls), gid).Some? && !w.expired(t.looks + 1)
    ensures Tried(w, lim, gid, attempt, t, r)
  {
    var n := r.tries.retries - t.retries;
    forall k: nat | k < n
      ensures RetriedAfter(w, gid, t, k)
    {
      if k > 0 { RetriedLater(w, gid, t, t', k - 1); }
    }
    hide RetriedAfter;
    assert t'.looks + 2 * (n - 1) == t.looks + 2 * n;
  }

  lemma RetriedLater(w: World, gid: Id, t: Tries, t': Tries, k: nat)
    requires t'.looks == t.looks + 2 && t'.calls == t.calls + 1 && RetriedAfter(w, gid, t', k)
    ensures RetriedAfter(w, gid, t, k + 1)
  {
    assert t'.looks + 2 * k == t.looks + 2 * (k + 1) && t'.calls + k == t.calls + (k + 1);
  }

  /** Degrading a running state leaves every group not done to a human, for the reason. */
  lemma DegradeLeaves(st: State, reason: Reason)
    requires st.index <= |st.groups| && (st.reason.None? || st.reason == Some(GroupLimit))
    ensures var r := Degrade(st, reason);
            r.reason == Some(reason) && r.finished && LeftToHuman(r) && r.index == st.index && r.groups == st.groups &&
            r.steps == st.steps && r.llmCalls == st.llmCalls && r.toolCalls == st.toolCalls && r.looks == st.looks &&
            r.overflow == st.overflow
  {
    var rest := st.groups[st.index..];
    HumanGroupsAdded(st.draft, rest, reason);
    hide AddHumanGroups;
    forall i | st.index <= i < |st.groups|
      ensures HumanItem(Some(st.groups[i].id), st.groups[i].findings, reason) in Degrade(st, reason).draft.human
    {
      assert rest[i - st.index] == st.groups[i];
    }
  }

  lemma PrepareReasons(w: World, req: Request)
    requires WellPrepared(req)
    ensures ReasonInv(w, req, Visit(w, req, START).value)
  {
    hide AddHumanGroups, AddHumanFindings;
    var st := INITIAL_STATE;
    var d0 := if req.overflow == [] then st.draft else AddHumanFindings(st.draft, req.overflow, GroupLimit);
    HumanGroupsAdded(d0, req.groups, ReviewDisabled);
    HumanGroupsAdded(d0, req.groups, NoModel);
  }

  /** The parts of the log the reasons are read from are the same. */
  ghost predicate SameLog(st: State, r: State) {
    r.llmCalls == st.llmCalls && r.toolCalls == st.toolCalls && LastAsked(r.steps) == LastAsked(st.steps)
  }

  lemma SameIsFine(w: World, st: State, r: State)
    requires Fine(w, st) && SameLog(st, r)
    ensures Fine(w, r)
  {}

  /** A running state degraded with a cause is explained. */
  lemma DegradedIsExplained(w: World, req: Request, st: State, reason: Reason, r: State)
    requires Running(req, st) && reason != GroupLimit
    requires r.reason == Some(reason) && LeftToHuman(r) && r.groups == st.groups && Cause(w, req, r, reason)
    requires LastFault(w, r).Some? ==> OfModel(reason) || reason == AgentTimeout
    requires LastToolFailed(w, r) ==> reason == ToolError
    ensures Explained(w, req, r)
  {
    hide LeftToHuman, Cause, DraftOf, LogOf, AccountOf, OverflowToHuman, LastFault;
  }

  lemma RunningReason(req: Request, st: State)
    requires Running(req, st)
    ensures st.index < |st.groups| && (st.reason.None? || st.reason == Some(GroupLimit)) && !st.finished
    ensures req.hasClient && st.groups == req.groups && st.overflow == req.overflow
    ensures st.reason.Some? <==> st.overflow != []
  {
    hide DraftOf, LogOf, AccountOf, OverflowToHuman;
  }

  /** The three ways through the deciding node. */
  lemma DecideCases(w: World, req: Request, st: State)
    requires !st.finished && st.index < |st.groups| && LlmDecideNode(w, req, st).Ok?
    ensures var r, g := LlmDecideNode(w, req, st).value, st.groups[st.index];
            var a := Attempts(w, req.limits, g.id, 0, Tries(st.looks, st.llmCalls, st.retries, st.errors));
            var s := Step(LlmDecide, Some(g.id), None);
            if |st.steps| >= req.limits.maxSteps
            then r == Degrade(st, StepLimit).(errors := LimitError(st, LlmDecide))
            else
              var r0 := if a.Decided? then st.(pending := Some(a.decision), model := Some(a.model))
                        else Degrade(st, a.reason);
              r == r0.(steps := st.steps + [s], reviewed := st.reviewed + g.findings, looks := a.tries.looks,
                       llmCalls := a.tries.calls, retries := a.tries.retries, errors := a.tries.errors)
  {
    hide Attempts, Degrade, LimitError;
  }

  /** The run ends with the model. */
  lemma GaveUpReasons(w: World, req: Request, st: State, a: Attempted, r: State)
    requires Running(req, st) && Fine(w, st) && a.GaveUp?
    requires a == Attempts(w, req.limits, st.groups[st.index].id, 0,
                           Tries(st.looks, st.llmCalls, st.retries, st.errors))
    requires r == Degrade(st, a.reason).(steps := st.steps + [Step(LlmDecide, Some(st.groups[st.index].id), None)],
                                         reviewed := r.reviewed, looks := a.tries.looks, llmCalls := a.tries.calls,
                                         retries := a.tries.retries, errors := a.tries.errors)
    ensures Explained(w, req, r)
  {
    hide Running, Degrade, LeftToHuman, LastFault, LastToolFailed, Fault, Attempts, LastAsked, Fine, Explained;
    RunningReason(req, st);
    var g := st.groups[st.index];
    AttemptsCause(w, req.limits, g.id, 0, Tries(st.looks, st.llmCalls, st.retries, st.errors));
    DegradeLeaves(st, a.reason);
    SameReason(w, Degrade(st, a.reason), r);
    AskedMore(st.steps, Step(LlmDecide, Some(g.id), None));
    NoMoreTools(w, st, r);
    FaultIs(w, r, g.id);
    DegradedIsExplained(w, req, st, a.reason, r);
  }

  lemma DecidedReasons(w: World, req: Request, st: State)
    requires Running(req, st) && Fine(w, st) && LlmDecideNode(w, req, st).Ok?
    ensures var r := LlmDecideNode(w, req, st).value; if r.finished then Explained(w, req, r) else Fine(w, r)
  {
    hide AppendError, Attempts, Degrade, LimitError, LeftToHuman, LastFault, LastToolFailed, Running, Explained;
    hide LastAsked, Fault;
    RunningReason(req, st);
    DecideCases(w, req, st);
    var r, g := LlmDecideNode(w, req, st).value, st.groups[st.index];
    hide LlmDecideNode;
    var a := Attempts(w, req.limits, g.id, 0, Tries(st.looks, st.llmCalls, st.retries, st.errors));
    if |st.steps| >= req.limits.maxSteps {
      CutShort(w, req, st, st, StepLimit, r);
    } else if a.GaveUp? {
      GaveUpReasons(w, req, st, a, r);
      DegradeLeaves(st, a.reason);
    } else {
      AttemptsCause(w, req.limits, g.id, 0, Tries(st.looks, st.llmCalls, st.retries, st.errors));
      AskedMore(st.steps, Step(LlmDecide, Some(g.id), None));
      NoMoreTools(w, st, r);
      FaultIs(w, r, g.id);
    }
  }

  lemma LlmDecideReasons(w: World, req: Request, st: State)
    requires WellPrepared(req) && Deciding(req, st) && Fine(w, st)
    ensures Visit(w, req, Config(LlmDecide, st)).Ok?
    ensures ReasonInv(w, req, Visit(w, req, Config(LlmDecide, st)).value)
  {
    LlmDecideKeeps(w, req, st);
    hide Inv, Running, Explained, Fine, LlmDecideNode, WellPrepared;
    assert LlmDecideNode(w, req, st).Ok?;
    DecideVisit(w, req, st);
    DecidedReasons(w, req, st);
  }

  lemma SameReason(w: World, st: State, r: State)
    requires LeftToHuman(st) && r.groups == st.groups && r.index == st.index
    requires r.reason == st.reason && r.draft == st.draft
    ensures LeftToHuman(r)
  {}

  lemma SameFault(w: World, st: State, r: State)
    requires SameLog(st, r)
    ensures LastFault(w, r) == LastFault(w, st) && LastToolFailed(w, r) == LastToolFailed(w, st)
  {}

  lemma NoMoreTools(w: World, st: State, r: State)
    requires Fine(w, st) && r.toolCalls == st.toolCalls
    ensures !LastToolFailed(w, r)
  {}

  lemma FaultIs(w: World, r: State, gid: Id)
    requires LastAsked(r.steps) == Some(gid)
    ensures LastFault(w, r) == if r.llmCalls == 0 then None else Fault(w.llm(r.llmCalls - 1), gid)
  {}

  /** A running state with a good log, cut short for a reason that has its cause. */
  lemma CutShort(w: World, req: Request, st: State, st': State, reason: Reason, r: State)
    requires Running(req, st) && Fine(w, st) && SameLog(st, st') && reason in {StepLimit, ToolCallLimit, AgentTimeout}
    requires st' == st.(steps := st'.steps, looks := st'.looks) && r == Degrade(st', reason).(errors := r.errors)
    requires Cause(w, req, st', reason)
    ensures Explained(w, req, r) && r.finished
  {
    hide Running, Degrade, LeftToHuman, LastFault, LastToolFailed, LastAsked, Fine, Explained;
    RunningReason(req, st);
    DegradeLeaves(st', reason);
    SameReason(w, Degrade(st', reason), r);
    SameIsFine(w, st, r);
    FineIs(w, r);
    SameFault(w, st', r);
    DegradedIsExplained(w, req, st, reason, r);
  }

  lemma FineIs(w: World, st: State)
    requires Fine(w, st)
    ensures LastFault(w, st).None? && !LastToolFailed(w, st)
  {}

  lemma ValidateReasons(w: World, req: Request, st: State)
    requires WellPrepared(req) && Inv(req, Config(ValidateAction, st)) && ReasonInv(w, req, Config(ValidateAction, st))
    ensures ReasonInv(w, req, Visit(w, req, Config(ValidateAction, st)).value)
  {
    hide Settled, Counted, Degrade, LimitError, Explained, Fine, Running, LastAsked, WellPrepared;
    var r := ValidateActionNode(w, req, st);
    if st.finished {
      SameExplained(w, req, st, r);
    } else {
      ValidatedReasons(w, req, st);
    }
  }

  lemma ValidatedReasons(w: World, req: Request, st: State)
    requires Running(req, st) && Fine(w, st) && st.pending.Some?
    ensures var r := ValidateActionNode(w, req, st);
            if r.finished then Explained(w, req, r) else Fine(w, r) && r.pending.Some?
  {
    hide ValidateActionNode, Running, Degrade, LimitError, Explained, Fine, LastAsked, LastFault, LastToolFailed;
    RunningReason(req, st);
    ValidateCases(w, req, st);
    var r, s := ValidateActionNode(w, req, st), Step(ValidateAction, Some(st.groups[st.index].id), None);
    AskedMore(st.steps, s);
    var st' := st.(steps := st.steps + [s], looks := st.looks + 1);
    if |st.steps| >= req.limits.maxSteps {
      CutShort(w, req, st, st, StepLimit, r);
    } else if w.expired(st.looks) {
      CutShort(w, req, st, st', AgentTimeout, r);
    } else if st.pending.value.CallTool? && st.toolCalls >= req.limits.maxToolCalls {
      CutShort(w, req, st, st', ToolCallLimit, r);
    } else {
      SameIsFine(w, st, r);
    }
  }

  lemma SameExplained(w: World, req: Request, st: State, r: State)
    requires Explained(w, req, st)
    requires r == st.(pending := r.pending, model := r.model, finished := r.finished)
    ensures Explained(w, req, r)
  {}

  /** After a group the run goes on, or ends with nothing left. */
  lemma AfterGroupReasons(w: World, req: Request, st: State, r: State)
    requires Running(req, st) && Fine(w, r)
    requires r.groups == st.groups && r.overflow == st.overflow && r.index == st.index + 1
    requires r.reason == st.reason && !r.finished
    ensures ReasonInv(w, req, Config(RouteAfterGroup(r), r))
  {
    RunningReason(req, st);
    hide Running, LastFault, LastToolFailed;
  }

  /** A failing tool ends the run. */
  lemma ToolCutShort(w: World, req: Request, st: State, st': State, r: State)
    requires Running(req, st) && Fine(w, st) && LastAsked(st'.steps) == LastAsked(st.steps)
    requires st' == st.(steps := st'.steps, toolCalls := st.toolCalls + 1) && w.tool(st.toolCalls).ToolFailed?
    requires r == Degrade(st', ToolError).(errors := r.errors)
    ensures Explained(w, req, r) && r.finished
  {
    hide Running, Degrade, LeftToHuman, LastFault, LastAsked, Explained;
    RunningReason(req, st);
    DegradeLeaves(st', ToolError);
    SameReason(w, Degrade(st', ToolError), r);
    SameAsked(w, st, r);
    DegradedIsExplained(w, req, st, ToolError, r);
  }

  lemma ExecuteReasons(w: World, req: Request, st: State)
    requires WellPrepared(req) && Inv(req, Config(ExecuteTool, st)) && Fine(w, st)
    requires Visit(w, req, Config(ExecuteTool, st)).Ok?
    ensures ReasonInv(w, req, Visit(w, req, Config(ExecuteTool, st)).value)
  {
    hide Settled, Counted, AppendError, Degrade, LimitError, Flat, LeftToHuman, LastFault, Running, AddCandidates;
    hide NewChunks, Explained, LastAsked;
    RunningReason(req, st);
    var r, tool := ExecuteToolNode(w, req, st).value, st.pending.value.tool;
    var s := Step(ExecuteTool, Some(st.groups[st.index].id), Some(tool));
    AskedMore(st.steps, s);
    if |st.steps| >= req.limits.maxSteps {
      CutShort(w, req, st, st, StepLimit, r);
    } else {
      var st' := st.(steps := st.steps + [s], toolCalls := st.toolCalls + 1);
      if w.tool(st.toolCalls).ToolFailed? {
        ToolCutShort(w, req, st, st', r);
      } else {
        SameAsked(w, st, r);
        AfterGroupReasons(w, req, st, r);
      }
    }
  }

  lemma SameAsked(w: World, st: State, r: State)
    requires st.index < |st.groups|
    requires r.llmCalls == st.llmCalls && LastAsked(r.steps) == LastAsked(st.steps)
    ensures LastFault(w, r) == LastFault(w, st)
  {}

  lemma CompleteReasons(w: World, req: Request, st: State)
    requires WellPrepared(req) && Inv(req, Config(CompleteGroup, st)) && Fine(w, st)
    requires Visit(w, req, Config(CompleteGroup, st)).Ok?
    ensures ReasonInv(w, req, Visit(w, req, Config(CompleteGroup, st)).value)
  {
    hide Settled, Counted, AppendError, Degrade, LimitError, Flat, LeftToHuman, LastFault, LastToolFailed, Running,
    Stripped;
    RunningReason(req, st);
    var r := CompleteGroupNode(req, st).value;
    AskedMore(st.steps, Step(CompleteGroup, Some(st.groups[st.index].id), None));
    if |st.steps| >= req.limits.maxSteps {
      CutShort(w, req, st, st, StepLimit, r);
    } else {
      SameFault(w, st, r);
      AfterGroupReasons(w, req, st, r);
    }
  }

  lemma VisitKeepsReasons(w: World, req: Request, c: Config)
    requires WellPrepared(req) && Inv(req, c) && ReasonInv(w, req, c) && Visit(w, req, c).Ok?
    ensures ReasonInv(w, req, Visit(w, req, c).value)
  {
    hide Settled, Counted, Running, PrepareNode, LlmDecideNode, ValidateActionNode, ExecuteToolNode, CompleteGroupNode;
    hide Explained, Fine;
    match c.node
    case Prepare => PrepareReasons(w, req);
    case LlmDecide => LlmDecideReasons(w, req, c.state);
    case ValidateAction => ValidateReasons(w, req, c.state);
    case ExecuteTool => ExecuteReasons(w, req, c.state);
    case CompleteGroup => CompleteReasons(w, req, c.state);
    case Finalize => SameExplained(w, req, c.state, c.state.(finished := true, pending := None, model := None));
    case End =>
  }

  lemma {:induction false} RunReasons(w: World, req: Request, n: nat)
    requires WellPrepared(req) && w.Honest()
    ensures Iterate(w, req, n).Ok? ==> ReasonInv(w, req, Iterate(w, req, n).value)
  {
    hide Visit, Inv, Paced, Answering, Explained, Fine;
    if n > 0 && Iterate(w, req, n).Ok? {
      RunReasons(w, req, n - 1);
      RunKeeps(w, req, n - 1);
      VisitKeepsReasons(w, req, Iterate(w, req, n - 1).value);
    }
  }

  /**
    A finished run, reason by reason. Review switched off or no model: exactly when there is something to
    review. A fault of the model: exactly the fault of its last reply, unless the deadline came first. A
    tool: exactly when the last call failed. No reason, or only the number of groups: everything was done.
    Every group not done is with a human, for the reason of the run.
   */
  lemma ReasonsAre(w: World, req: Request)
    requires WellPrepared(req) && w.Honest() && Finishes(w, req)
    ensures var st := Final(w, req);
            (st.reason == Some(ReviewDisabled) <==> req.groups != [] && !req.llmReview) &&
            (st.reason == Some(NoModel) <==> req.groups != [] && req.llmReview && !req.hasClient) &&
            (forall r :: OfModel(r) ==>
               (st.reason == Some(r) <==> LastFault(w, st) == Some(r) && st.reason != Some(AgentTimeout))) &&
            (st.reason == Some(ToolError) <==> LastToolFailed(w, st)) &&
            (st.reason == Some(AgentTimeout) ==> st.looks > 0 && w.expired(st.looks - 1)) &&
            (st.reason == Some(StepLimit) ==> |st.steps| == req.limits.maxSteps) &&
            (st.reason == Some(ToolCallLimit) ==> st.toolCalls >= req.limits.maxToolCalls) &&
            (st.reason == Some(GroupLimit) ==> req.overflow != [] && st.index == |st.groups|) &&
            (st.reason == None ==> req.overflow == [] && st.index == |st.groups|) && LeftToHuman(st)
  {
    hide Final, Finishes, Settled, Iterate, Explained, LeftToHuman, WellPrepared, LastFault, LastToolFailed, Answering;
    var n := req.limits.maxSteps + 3;
    FinalIsEnd(w, req);
    RunReasons(w, req, n);
    RunKeeps(w, req, n);
    SettledGroups(req, Final(w, req));
    ExplainedReasons(w, req, Final(w, req));
  }

  lemma ExplainedReasons(w: World, req: Request, st: State)
    requires Explained(w, req, st) && st.groups == req.groups && (st.reason.None? ==> st.index == |st.groups|)
    requires |st.steps| <= req.limits.maxSteps
    ensures (st.reason == Some(ReviewDisabled) <==> req.groups != [] && !req.llmReview) &&
            (st.reason == Some(NoModel) <==> req.groups != [] && req.llmReview && !req.hasClient) &&
            (forall r :: OfModel(r) ==>
               (st.reason == Some(r) <==> LastFault(w, st) == Some(r) && st.reason != Some(AgentTimeout))) &&
            (st.reason == Some(ToolError) <==> LastToolFailed(w, st)) &&
            (st.reason == Some(AgentTimeout) ==> st.looks > 0 && w.expired(st.looks - 1)) &&
            (st.reason == Some(StepLimit) ==> |st.steps| == req.limits.maxSteps) &&
            (st.reason == Some(ToolCallLimit) ==> st.toolCalls >= req.limits.maxToolCalls) &&
            (st.reason == Some(GroupLimit) ==> req.overflow != [] && st.index == |st.groups|) &&
            (st.reason == None ==> req.overflow == [] && st.index == |st.groups|) && LeftToHuman(st)
  {
    hide LastFault, LastToolFailed, LeftToHuman;
  }

  lemma SettledGroups(req: Request, st: State)
    requires Settled(req, st)
    ensures st.groups == req.groups && (st.reason.None? ==> st.index == |st.groups|)
    ensures |st.steps| <= req.limits.maxSteps
  {
    hide DraftOf, LogOf, AccountOf, OverflowToHuman;
  }
}
