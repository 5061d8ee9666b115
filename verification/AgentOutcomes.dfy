/**
  What becomes of each group that is done, where every human item comes from, and what the error log
  holds (app/agent/graph.py:293-581, 611-675).
 */
module AgentOutcomes {
  import opened Wrappers
  import opened AgentGraph
  import opened AgentInvariants
  import opened AgentRun
  import opened AgentTrace

  // ----- the error log -----

  /** One error for each reply that led to a retry, about a group the model was asked about. */
  ghost predicate RetryErrors(st: State) {
    |st.errors| >= st.retries &&
    forall k :: 0 <= k < st.retries ==> st.errors[k].node == LlmDecide && st.errors[k].tool.None? &&
                                        exists g :: g in st.groups && st.errors[k].group == Some(g.id)
  }

  /** Where a run can be broken off for a reason. */
  predicate BreaksAt(node: Node, reason: Reason) {
    match reason
    case LlmTimeout => node == LlmDecide
    case LlmError => node == LlmDecide
    case LlmInvalid => node == LlmDecide
    case ToolError => node == ExecuteTool
    case ToolCallLimit => node == ValidateAction
    case AgentTimeout => node == LlmDecide || node == ValidateAction
    case StepLimit => node == LlmDecide || node == ValidateAction || node == ExecuteTool || node == CompleteGroup
    case _ => false
  }

  /** The run was broken off, other than by what the request itself rules out. */
  predicate BrokenOff(st: State) {
    st.reason.Some? && st.reason.value != GroupLimit && st.reason.value != ReviewDisabled && st.reason.value != NoModel
  }

  /** One error for each retry, and one more, about the current group, for what broke the run off. */
  ghost predicate ErrorsKept(st: State) {
    RetryErrors(st) &&
    if BrokenOff(st)
    then |st.errors| == st.retries + 1 && st.index < |st.groups| && st.errors[st.retries].tool.None? &&
      st.errors[st.retries].group == Some(st.groups[st.index].id) &&
      BreaksAt(st.errors[st.retries].node, st.reason.value)
    else |st.errors| == st.retries
  }

  lemma {:induction false} AttemptsLog(w: World, lim: Limits, gid: Id, attempt: nat, t: Tries)
    requires attempt <= lim.maxRetries && |t.errors| + lim.maxRetries - attempt < MAX_ERRORS
    ensures var r := Attempts(w, lim, gid, attempt, t);
            t.errors <= r.tries.errors &&
            |r.tries.errors| - |t.errors| == r.tries.retries - t.retries + (if r.GaveUp? then 1 else 0) &&
            forall k :: |t.errors| <= k < |r.tries.errors| ==> r.tries.errors[k] == Step(LlmDecide, Some(gid), None)
    decreases lim.maxRetries - attempt
  {
    match TryOnce(w, lim, gid, attempt, t)
    case Stop(outcome) =>
    case Again(t') => AttemptsLog(w, lim, gid, attempt + 1, t');
  }

  lemma FewRetries(req: Request, st: State, r: nat, missing: nat)
    requires WellPrepared(req) && st.groups == req.groups && Counted(req, st, r, missing)
    ensures st.retries <= 8
  {
    hide Flat;
    assert req.limits.maxRetries == 0 || req.limits.maxRetries == 1;
  }

  /** The log of a running state, broken off with one more error. */
  lemma BrokenLog(req: Request, st: State, st': State, node: Node, reason: Reason, r: State)
    requires Running(req, st) && ErrorsKept(st) && st.retries <= 8 && BreaksAt(node, reason)
    requires st'.groups == st.groups && st'.index == st.index && st'.reason == st.reason && st'.retries == st.retries
    requires var e := Step(node, Some(st.groups[st.index].id), None);
             r == Degrade(st', reason).(errors := AppendError(st.errors, e))
    ensures ErrorsKept(r)
  {
    hide DraftOf, LogOf, AccountOf, OverflowToHuman, AddHumanGroups;
  }

  lemma SameErrors(st: State, r: State)
    requires ErrorsKept(st) && r.errors == st.errors && r.retries == st.retries && r.groups == st.groups
    requires r.reason == st.reason && (BrokenOff(st) ==> r.index == st.index)
    ensures ErrorsKept(r)
  {
    assert BrokenOff(r) <==> BrokenOff(st);
    assert RetryErrors(r);
  }

  lemma NoErrorsYet(req: Request)
    requires WellPrepared(req)
    ensures ErrorsKept(PrepareNode(req, INITIAL_STATE))
  {
    hide AddHumanGroups, AddHumanFindings;
  }

  lemma DecideLog(w: World, req: Request, st: State)
    requires WellPrepared(req) && Deciding(req, st) && ErrorsKept(st) && LlmDecideNode(w, req, st).Ok?
    ensures ErrorsKept(LlmDecideNode(w, req, st).value)
  {
    hide DraftOf, LogOf, AccountOf, OverflowToHuman, AddHumanGroups, Attempts, Flat;
    FewRetries(req, st, st.index, 0);
    var r, g := LlmDecideNode(w, req, st).value, st.groups[st.index];
    if |st.steps| >= req.limits.maxSteps {
      BrokenLog(req, st, st, LlmDecide, StepLimit, r);
    } else {
      AttemptsLog(w, req.limits, g.id, 0, Tries(st.looks, st.llmCalls, st.retries, st.errors));
      assert g in st.groups;
    }
  }

  lemma ValidateLog(w: World, req: Request, st: State)
    requires WellPrepared(req) && Acting(req, st, 1) && ErrorsKept(st)
    ensures ErrorsKept(ValidateActionNode(w, req, st))
  {
    hide DraftOf, LogOf, AccountOf, OverflowToHuman, Degrade, ErrorsKept, AppendError, Flat;
    FewRetries(req, st, st.index + 1, 0);
    var r := ValidateActionNode(w, req, st);
    if |st.steps| >= req.limits.maxSteps {
      BrokenLog(req, st, st, ValidateAction, StepLimit, r);
    } else {
      var st' := st.(steps := BeginStep(req.limits, st, ValidateAction, None).value, looks := st.looks + 1);
      if w.expired(st.looks) {
        BrokenLog(req, st, st', ValidateAction, AgentTimeout, r);
      } else if st.pending.value.CallTool? && st.toolCalls >= req.limits.maxToolCalls {
        BrokenLog(req, st, st', ValidateAction, ToolCallLimit, r);
      } else {
        SameErrors(st, r);
      }
    }
  }

  lemma ExecuteLog(w: World, req: Request, st: State)
    requires WellPrepared(req) && Acting(req, st, 2) && ErrorsKept(st) && ExecuteToolNode(w, req, st).Ok?
    ensures ErrorsKept(ExecuteToolNode(w, req, st).value)
  {
    hide DraftOf, LogOf, AccountOf, OverflowToHuman, Degrade, ErrorsKept, AppendError, Flat, AddCandidates, NewChunks;
    FewRetries(req, st, st.index + 1, 0);
    var r := ExecuteToolNode(w, req, st).value;
    if |st.steps| >= req.limits.maxSteps {
      BrokenLog(req, st, st, ExecuteTool, StepLimit, r);
    } else if w.tool(st.toolCalls).ToolFailed? {
      var steps := BeginStep(req.limits, st, ExecuteTool, Some(st.pending.value.tool)).value;
      BrokenLog(req, st, st.(steps := steps, toolCalls := st.toolCalls + 1), ExecuteTool, ToolError, r);
    } else {
      SameErrors(st, r);
    }
  }

  lemma CompleteLog(req: Request, st: State)
    requires WellPrepared(req) && Acting(req, st, 2) && ErrorsKept(st) && CompleteGroupNode(req, st).Ok?
    ensures ErrorsKept(CompleteGroupNode(req, st).value)
  {
    hide DraftOf, LogOf, AccountOf, OverflowToHuman, Degrade, ErrorsKept, AppendError, Flat, Stripped;
    FewRetries(req, st, st.index + 1, 0);
    var r := CompleteGroupNode(req, st).value;
    if |st.steps| >= req.limits.maxSteps {
      BrokenLog(req, st, st, CompleteGroup, StepLimit, r);
    } else {
      SameErrors(st, r);
    }
  }

  lemma VisitKeepsErrors(w: World, req: Request, c: Config)
    requires WellPrepared(req) && Inv(req, c) && ErrorsKept(c.state) && Visit(w, req, c).Ok?
    ensures ErrorsKept(Visit(w, req, c).value.state)
  {
    hide Running, Counted, Settled, PrepareNode, LlmDecideNode, ExecuteToolNode, CompleteGroupNode, Degrade;
    match c.node
    case Prepare => NoErrorsYet(req);
    case LlmDecide => DecideLog(w, req, c.state);
    case ValidateAction =>
      if c.state.finished {
        SameErrors(c.state, c.state.(pending := None));
      } else {
        ValidateLog(w, req, c.state);
      }
    case ExecuteTool => ExecuteLog(w, req, c.state);
    case CompleteGroup => CompleteLog(req, c.state);
    case Finalize => SameErrors(c.state, c.state.(finished := true, pending := None, model := None));
    case End =>
  }

  // ----- what becomes of each group, and where human items come from -----

  /** The n-th reply decided about the group, and the draft has what it decided. */
  ghost predicate Concludes(w: World, d: Draft, g: Group, n: nat) {
    w.llm(n).Answer? && w.llm(n).decision.group == g.id &&
    match w.llm(n).decision
    case FinishGroup(_, text) => Explanation(g.id, g.findings, text, w.llm(n).model) in d.explanations
    case RequestReview(_, _) => HumanItem(Some(g.id), g.findings, RequestedByModel) in d.human
    case CallTool(_, tool) => tool == OtherTool ==> HumanItem(Some(g.id), g.findings, ToolObservation) in d.human
  }

  ghost predicate Concluded(w: World, d: Draft, g: Group, calls: nat) {
    exists n: nat :: n < calls && Concludes(w, d, g, n)
  }

  /** Every group done was decided about so. */
  ghost predicate GroupsConcluded(w: World, st: State) {
    forall i :: 0 <= i < st.index && i < |st.groups| ==> Concluded(w, st.draft, st.groups[i], st.llmCalls)
  }

  /** A reply that asked for a review of the group, or for another tool than the search. */
  ghost predicate AskedFor(w: World, n: nat, group: Option<Id>, reason: Reason) {
    w.llm(n).Answer? && group == Some(w.llm(n).decision.group) &&
    if reason == RequestedByModel then w.llm(n).decision.RequestReview?
    else w.llm(n).decision.CallTool? && w.llm(n).decision.tool == OtherTool
  }

  /** Where a human item comes from: an answer, the overflow, or the end of the run. */
  ghost predicate Origin(w: World, st: State, x: HumanItem) {
    if x.reason == RequestedByModel || x.reason == ToolObservation
    then exists n: nat :: n < st.llmCalls && AskedFor(w, n, x.group, x.reason)
    else if x.reason == GroupLimit then x.group.None?
    else st.reason == Some(x.reason) && LeftOver(st, x)
  }

  ghost predicate LeftOver(st: State, x: HumanItem) {
    exists i :: 0 <= st.index <= i < |st.groups| &&
                x == HumanItem(Some(st.groups[i].id), st.groups[i].findings, x.reason)
  }

  ghost predicate Outcomes(w: World, st: State) {
    GroupsConcluded(w, st) && forall x :: x in st.draft.human ==> Origin(w, st, x)
  }

  /** What is in the draft stays there. */
  ghost predicate Grows(d: Draft, r: Draft) {
    (forall x :: x in d.explanations ==> x in r.explanations) && (forall x :: x in d.human ==> x in r.human)
  }

  lemma StillConcluded(w: World, d: Draft, r: Draft, g: Group, calls: nat, more: nat)
    requires Concluded(w, d, g, calls) && Grows(d, r) && calls <= more
    ensures Concluded(w, r, g, more)
  {
    var n: nat :| n < calls && Concludes(w, d, g, n);
    assert Concludes(w, r, g, n);
  }

  lemma AllStillConcluded(w: World, st: State, r: State)
    requires GroupsConcluded(w, st) && Grows(st.draft, r.draft) && r.groups == st.groups && r.llmCalls >= st.llmCalls
    ensures forall i :: 0 <= i < st.index && i < |r.groups| ==> Concluded(w, r.draft, r.groups[i], r.llmCalls)
  {
    hide Concluded, Grows;
    forall i | 0 <= i < st.index && i < |r.groups|
      ensures Concluded(w, r.draft, r.groups[i], r.llmCalls)
    {
      StillConcluded(w, st.draft, r.draft, st.groups[i], st.llmCalls, r.llmCalls);
    }
  }

  lemma SameOrigin(w: World, st: State, r: State, x: HumanItem)
    requires Origin(w, st, x) && r.llmCalls >= st.llmCalls && r.groups == st.groups
    requires st.reason.None? || st.reason == Some(GroupLimit) || (r.reason == st.reason && r.index == st.index)
    ensures Origin(w, r, x)
  {
    hide AskedFor;
    if x.reason == RequestedByModel || x.reason == ToolObservation {
      var n: nat :| n < st.llmCalls && AskedFor(w, n, x.group, x.reason);
      assert n < r.llmCalls;
    }
  }

  /** Nothing happens to the draft. */
  lemma SameOutcomes(w: World, st: State, r: State)
    requires Outcomes(w, st) && r.draft == st.draft && r.groups == st.groups && r.index == st.index
    requires r.reason == st.reason && r.llmCalls >= st.llmCalls
    ensures Outcomes(w, r)
  {
    hide Origin, Concluded;
    AllStillConcluded(w, st, r);
    forall x | x in r.draft.human
      ensures Origin(w, r, x)
    {
      SameOrigin(w, st, r, x);
    }
  }

  /** A running state is broken off. */
  lemma DegradedOutcomes(w: World, req: Request, st: State, reason: Reason, r: State)
    requires Running(req, st) && Outcomes(w, st) && r.draft == Degrade(st, reason).draft && r.reason == Some(reason)
    requires r.groups == st.groups && r.index == st.index && r.llmCalls >= st.llmCalls
    requires reason != RequestedByModel && reason != ToolObservation && reason != GroupLimit
    ensures Outcomes(w, r)
  {
    hide DraftOf, LogOf, AccountOf, OverflowToHuman, AddHumanGroups, Concluded, AskedFor;
    var rest := st.groups[st.index..];
    HumanGroupsAdded(st.draft, rest, reason);
    AllStillConcluded(w, st, r);
    forall x | x in r.draft.human
      ensures Origin(w, r, x)
    {
      if x in st.draft.human {
        SameOrigin(w, st, r, x);
      } else {
        var i :| 0 <= i < |rest| && x == HumanItem(Some(rest[i].id), rest[i].findings, reason);
        assert st.groups[st.index + i] == rest[i];
      }
    }
  }

  lemma PrepareOutcomes(w: World, req: Request)
    requires WellPrepared(req)
    ensures Outcomes(w, PrepareNode(req, INITIAL_STATE))
  {
    hide AddHumanGroups, AddHumanFindings;
    var st := INITIAL_STATE;
    HumanFindingsAdded(st.draft, req.overflow, GroupLimit);
    var d0 := if req.overflow == [] then st.draft else AddHumanFindings(st.draft, req.overflow, GroupLimit);
    var r := PrepareNode(req, st);
    var reason := if req.llmReview then NoModel else ReviewDisabled;
    HumanGroupsAdded(d0, req.groups, reason);
    forall x | x in r.draft.human
      ensures Origin(w, r, x)
    {
      if x !in d0.human {
        var i :| 0 <= i < |req.groups| && x == HumanItem(Some(req.groups[i].id), req.groups[i].findings, reason);
        assert LeftOver(r, x);
      }
    }
  }

  lemma DecideOutcomes(w: World, req: Request, st: State)
    requires WellPrepared(req) && Deciding(req, st) && Outcomes(w, st) && LlmDecideNode(w, req, st).Ok?
    ensures Outcomes(w, LlmDecideNode(w, req, st).value)
  {
    hide DraftOf, LogOf, AccountOf, OverflowToHuman, AddHumanGroups, Attempts, Flat, Outcomes, AppendError;
    var r, g := LlmDecideNode(w, req, st).value, st.groups[st.index];
    var a := Attempts(w, req.limits, g.id, 0, Tries(st.looks, st.llmCalls, st.retries, st.errors));
    if |st.steps| >= req.limits.maxSteps {
      DegradedOutcomes(w, req, st, StepLimit, r);
    } else if a.GaveUp? {
      DegradedOutcomes(w, req, st, a.reason, r);
    } else {
      SameOutcomes(w, st, r);
    }
  }

  lemma ValidateOutcomes(w: World, req: Request, st: State)
    requires WellPrepared(req) && Acting(req, st, 1) && Outcomes(w, st)
    ensures Outcomes(w, ValidateActionNode(w, req, st))
  {
    hide DraftOf, LogOf, AccountOf, OverflowToHuman, AddHumanGroups, Flat, Outcomes, AppendError;
    var r := ValidateActionNode(w, req, st);
    if |st.steps| >= req.limits.maxSteps {
      DegradedOutcomes(w, req, st, StepLimit, r);
    } else if w.expired(st.looks) {
      DegradedOutcomes(w, req, st, AgentTimeout, r);
    } else if st.pending.value.CallTool? && st.toolCalls >= req.limits.maxToolCalls {
      DegradedOutcomes(w, req, st, ToolCallLimit, r);
    } else {
      SameOutcomes(w, st, r);
    }
  }

  /** One more group is done, as the latest answer decided. */
  lemma GroupDone(w: World, req: Request, st: State, r: State)
    requires Running(req, st) && Outcomes(w, st) && r.groups == st.groups && r.index == st.index + 1
    requires r.reason == st.reason && r.llmCalls == st.llmCalls > 0 && Grows(st.draft, r.draft)
    requires Concludes(w, r.draft, st.groups[st.index], st.llmCalls - 1)
    requires forall x :: x in r.draft.human && x !in st.draft.human ==> Origin(w, r, x)
    ensures Outcomes(w, r)
  {
    hide DraftOf, LogOf, AccountOf, OverflowToHuman, Concludes, Origin;
    AllStillConcluded(w, st, r);
    assert Concluded(w, r.draft, r.groups[st.index], r.llmCalls);
    hide Concluded;
    forall x | x in r.draft.human
      ensures Origin(w, r, x)
    {
      if x in st.draft.human { SameOrigin(w, st, r, x); }
    }
  }

  lemma ExecuteOutcomes(w: World, req: Request, st: State)
    requires WellPrepared(req) && Inv(req, Config(ExecuteTool, st)) && Answering(w, Config(ExecuteTool, st))
    requires Outcomes(w, st) && ExecuteToolNode(w, req, st).Ok?
    ensures Outcomes(w, ExecuteToolNode(w, req, st).value)
  {
    hide DraftOf, LogOf, AccountOf, OverflowToHuman, AddHumanGroups, Flat, Outcomes, AppendError, AddCandidates;
    hide NewChunks;
    var r, g := ExecuteToolNode(w, req, st).value, st.groups[st.index];
    if |st.steps| >= req.limits.maxSteps {
      DegradedOutcomes(w, req, st, StepLimit, r);
    } else if w.tool(st.toolCalls).ToolFailed? {
      DegradedOutcomes(w, req, st, ToolError, r);
    } else {
      CandidatesAre(st.draft, g, w.tool(st.toolCalls).chunks);
      assert AskedFor(w, st.llmCalls - 1, Some(g.id), ToolObservation) <==> st.pending.value.tool == OtherTool;
      GroupDone(w, req, st, r);
    }
  }

  lemma CompleteOutcomes(w: World, req: Request, st: State)
    requires WellPrepared(req) && Inv(req, Config(CompleteGroup, st)) && Answering(w, Config(CompleteGroup, st))
    requires Outcomes(w, st) && CompleteGroupNode(req, st).Ok?
    ensures Outcomes(w, CompleteGroupNode(req, st).value)
  {
    hide DraftOf, LogOf, AccountOf, OverflowToHuman, AddHumanGroups, Flat, Outcomes, AppendError, Stripped;
    var r, g := CompleteGroupNode(req, st).value, st.groups[st.index];
    if |st.steps| >= req.limits.maxSteps {
      DegradedOutcomes(w, req, st, StepLimit, r);
    } else {
      assert AskedFor(w, st.llmCalls - 1, Some(g.id), RequestedByModel) <==> st.pending.value.RequestReview?;
      GroupDone(w, req, st, r);
    }
  }

  lemma VisitKeepsOutcomes(w: World, req: Request, c: Config)
    requires WellPrepared(req) && Inv(req, c) && Answering(w, c) && Outcomes(w, c.state) && Visit(w, req, c).Ok?
    ensures Outcomes(w, Visit(w, req, c).value.state)
  {
    hide Running, Counted, Settled, PrepareNode, LlmDecideNode, ExecuteToolNode, CompleteGroupNode, Degrade, Outcomes;
    match c.node
    case Prepare => PrepareOutcomes(w, req);
    case LlmDecide => DecideOutcomes(w, req, c.state);
    case ValidateAction =>
      if c.state.finished {
        SameOutcomes(w, c.state, c.state.(pending := None));
      } else {
        ValidateOutcomes(w, req, c.state);
      }
    case ExecuteTool => ExecuteOutcomes(w, req, c.state);
    case CompleteGroup => CompleteOutcomes(w, req, c.state);
    case Finalize => SameOutcomes(w, c.state, c.state.(finished := true, pending := None, model := None));
    case End =>
  }

  /**
    At every point of every run: a group is done exactly as a reply about it decided, a human item comes
    from such a reply, from the overflow or from the end of the run, and the error log has one error for
    each retry and one for what broke the run off.
   */
  lemma {:induction false} RunOutcomes(w: World, req: Request, n: nat)
    requires WellPrepared(req) && w.Honest()
    ensures Iterate(w, req, n).Ok? ==>
      Outcomes(w, Iterate(w, req, n).value.state) && ErrorsKept(Iterate(w, req, n).value.state)
  {
    hide Visit, Inv, Paced, Answering, Outcomes, ErrorsKept;
    if n == 0 {
      NothingYet(w);
    } else if Iterate(w, req, n).Ok? {
      RunOutcomes(w, req, n - 1);
      RunKeeps(w, req, n - 1);
      VisitKeepsOutcomes(w, req, Iterate(w, req, n - 1).value);
      VisitKeepsErrors(w, req, Iterate(w, req, n - 1).value);
    }
  }

  lemma NothingYet(w: World)
    ensures Outcomes(w, INITIAL_STATE) && ErrorsKept(INITIAL_STATE)
  {}
}
