/**
  Where the content of a draft comes from: texts from the model's answers, candidates from the
  retrieved chunks, items without a group from the overflow (app/agent/graph.py:293-395, 457-581).
 */
module AgentTrace {
  import opened Wrappers
  import opened Order
  import opened AgentGraph
  import opened AgentInvariants
  import opened AgentRun

  /** One of the model calls from `first` up to `calls` answered with the decision, under the model name. */
  ghost predicate Answered(w: World, first: nat, calls: nat, d: Decision, model: string) {
    exists n :: first <= n < calls && w.llm(n) == Answer(d, model)
  }

  ghost predicate IsCandidate(d: Draft, chunk: Id) {
    exists x :: x in d.candidates && x.chunk == chunk
  }

  /** The candidates are exactly the retrieved chunks. */
  ghost predicate CandidatesRetrieved(d: Draft, retrieved: seq<Id>) {
    forall c :: c in retrieved <==> IsCandidate(d, c)
  }

  ghost predicate TextsAnswered(w: World, st: State) {
    (st.pending.Some? ==> st.model.Some? && Answered(w, 0, st.llmCalls, st.pending.value, st.model.value)) &&
    forall x :: x in st.draft.explanations ==>
      Answered(w, 0, st.llmCalls, FinishGroup(x.group, x.text), x.model) && Stripped(x.model)
  }

  /** Human items without a group are about the overflow. */
  ghost predicate OverflowItems(d: Draft, overflow: seq<Id>) {
    forall x :: x in d.human && x.group.None? ==> forall id :: id in x.findings ==> id in overflow
  }

  ghost predicate Traced(w: World, st: State) {
    CandidatesRetrieved(st.draft, st.retrieved) && |st.draft.candidates| <= 5 * st.toolCalls &&
    TextsAnswered(w, st) && OverflowItems(st.draft, st.overflow)
  }

  /** A decision is one of the answers to the calls made for it. */
  lemma {:induction false} DecisionAnswered(w: World, lim: Limits, gid: Id, attempt: nat, t: Tries)
    requires attempt <= lim.maxRetries
    ensures var r := Attempts(w, lim, gid, attempt, t);
            r.Decided? ==> Answered(w, t.calls, r.tries.calls, r.decision, r.model)
    decreases lim.maxRetries - attempt
  {
    match TryOnce(w, lim, gid, attempt, t)
    case Stop(outcome) => if outcome.Decided? { assert w.llm(t.calls) == Answer(outcome.decision, outcome.model); }
    case Again(t') =>
      DecisionAnswered(w, lim, gid, attempt + 1, t');
      var r := Attempts(w, lim, gid, attempt + 1, t');
      if r.Decided? { AnsweredLater(w, t'.calls, r.tries.calls, t.calls, r.tries.calls, r.decision, r.model); }
  }

  /** What was answered is answered among more calls. */
  lemma AnsweredLater(w: World, first: nat, calls: nat, earlier: nat, later: nat, d: Decision, model: string)
    requires Answered(w, first, calls, d, model) && earlier <= first && calls <= later
    ensures Answered(w, earlier, later, d, model)
  {
    var n :| first <= n < calls && w.llm(n) == Answer(d, model);
    assert earlier <= n < later;
  }

  lemma {:induction false} CandidatesAre(d: Draft, g: Group, chunks: seq<Id>)
    ensures forall c :: IsCandidate(AddCandidates(d, g, chunks), c) <==> IsCandidate(d, c) || c in chunks
    ensures AddCandidates(d, g, chunks).explanations == d.explanations && AddCandidates(d, g, chunks).human == d.human
    ensures |AddCandidates(d, g, chunks).candidates| <= |d.candidates| + |chunks|
    decreases chunks
  {
    if chunks != [] {
      var x := DocCandidate(g.id, g.findings, chunks[0]);
      var d1 := AddCandidate(d, x);
      CandidatesAre(d1, g, chunks[1..]);
      OneCandidate(d, x);
      assert chunks == [chunks[0]] + chunks[1..];
    }
  }

  lemma OneCandidate(d: Draft, x: DocCandidate)
    ensures forall c :: IsCandidate(AddCandidate(d, x), c) <==> IsCandidate(d, c) || c == x.chunk
    ensures AddCandidate(d, x).explanations == d.explanations && AddCandidate(d, x).human == d.human
    ensures |AddCandidate(d, x).candidates| <= |d.candidates| + 1
  {
    var r := AddCandidate(d, x);
    if r == d {
      var k :| 0 <= k < |d.candidates| && d.candidates[k].group == x.group && d.candidates[k].chunk == x.chunk;
      assert d.candidates[k] in d.candidates && IsCandidate(d, x.chunk);
    } else {
      assert r.candidates[|d.candidates|] == x && IsCandidate(r, x.chunk);
      forall c | IsCandidate(d, c)
        ensures IsCandidate(r, c)
      {
        var y :| y in d.candidates && y.chunk == c;
        assert y in r.candidates;
      }
    }
  }

  lemma {:induction false} NewChunksAre(retrieved: seq<Id>, chunks: seq<Id>)
    ensures forall c :: c in retrieved + NewChunks(retrieved, chunks) <==> c in retrieved || c in chunks
  {
    if chunks != [] {
      NewChunksAre(retrieved, chunks[1..]);
      assert chunks == [chunks[0]] + chunks[1..];
      forall c
        ensures c in retrieved + NewChunks(retrieved, chunks) <==> c in retrieved || c in chunks
      {
        assert c in retrieved + NewChunks(retrieved, chunks[1..]) <==> c in retrieved || c in chunks[1..];
      }
    }
  }

  lemma {:induction false} GroupItems(d: Draft, groups: seq<Group>, reason: Reason, overflow: seq<Id>)
    requires OverflowItems(d, overflow)
    ensures OverflowItems(AddHumanGroups(d, groups, reason), overflow)
    decreases groups
  {
    if groups != [] {
      GroupItems(AddHuman(d, HumanItem(Some(groups[0].id), groups[0].findings, reason)), groups[1..], reason, overflow);
    }
  }

  lemma {:induction false} FindingItems(d: Draft, ids: seq<Id>, reason: Reason, overflow: seq<Id>)
    requires OverflowItems(d, overflow) && forall id :: id in ids ==> id in overflow
    ensures OverflowItems(AddHumanFindings(d, ids, reason), overflow)
    decreases |ids|
  {
    if ids != [] {
      var n := if |ids| < MAX_FINDINGS_PER_ITEM then |ids| else MAX_FINDINGS_PER_ITEM;
      assert ids == ids[..n] + ids[n..];
      FindingItems(AddHuman(d, HumanItem(None, ids[..n], reason)), ids[n..], reason, overflow);
    }
  }

  // ----- every visit -----

  /** A state that differs in nothing the trace is about, but for more calls and a pending decision dropped. */
  lemma SameTrace(w: World, st: State, r: State)
    requires Traced(w, st) && r.draft.candidates == st.draft.candidates && r.draft.explanations == st.draft.explanations
    requires r.retrieved == st.retrieved && ((r.pending == st.pending && r.model == st.model) || r.pending.None?)
    requires r.llmCalls >= st.llmCalls && r.toolCalls >= st.toolCalls && OverflowItems(r.draft, r.overflow)
    ensures Traced(w, r)
  {
    hide Answered, OverflowItems, Stripped;
    if r.pending.Some? { AnsweredLater(w, 0, st.llmCalls, 0, r.llmCalls, r.pending.value, r.model.value); }
    forall x | x in r.draft.explanations
      ensures Answered(w, 0, r.llmCalls, FinishGroup(x.group, x.text), x.model) && Stripped(x.model)
    {
      AnsweredLater(w, 0, st.llmCalls, 0, r.llmCalls, FinishGroup(x.group, x.text), x.model);
    }
    assert forall c :: IsCandidate(r.draft, c) <==> IsCandidate(st.draft, c);
  }

  lemma TracedItems(w: World, st: State)
    requires Traced(w, st)
    ensures OverflowItems(st.draft, st.overflow)
  {}

  /** Degrading changes the human items only. */
  lemma DegradeKeepsTrace(w: World, st: State, reason: Reason, r: State)
    requires Traced(w, st) && r.draft == Degrade(st, reason).draft && r.pending.None? && r.overflow == st.overflow
    requires r.retrieved == st.retrieved && r.llmCalls >= st.llmCalls && r.toolCalls >= st.toolCalls
    ensures Traced(w, r)
  {
    hide Traced, OverflowItems;
    var rest := if st.index <= |st.groups| then st.groups[st.index..] else [];
    HumanGroupsAdded(st.draft, rest, reason);
    TracedItems(w, st);
    GroupItems(st.draft, rest, reason, st.overflow);
    SameTrace(w, st, r);
  }

  lemma PrepareTraces(w: World, req: Request)
    ensures Traced(w, PrepareNode(req, INITIAL_STATE))
  {
    hide AddHumanGroups, AddHumanFindings;
    var st := INITIAL_STATE;
    assert Traced(w, st);
    var d0 := if req.overflow == [] then st.draft else AddHumanFindings(st.draft, req.overflow, GroupLimit);
    HumanFindingsAdded(st.draft, req.overflow, GroupLimit);
    FindingItems(st.draft, req.overflow, GroupLimit, req.overflow);
    HumanGroupsAdded(d0, req.groups, NoModel);
    GroupItems(d0, req.groups, NoModel, req.overflow);
    HumanGroupsAdded(d0, req.groups, ReviewDisabled);
    GroupItems(d0, req.groups, ReviewDisabled, req.overflow);
    if BeginStep(req.limits, st, Prepare, None).None? {
      DegradeKeepsTrace(w, st, StepLimit, PrepareNode(req, st));
    } else {
      SameTrace(w, st, PrepareNode(req, st));
    }
  }

  lemma LlmDecideTraces(w: World, req: Request, st: State)
    requires Traced(w, st) && LlmDecideNode(w, req, st).Ok? && st.pending.None?
    ensures Traced(w, LlmDecideNode(w, req, st).value)
  {
    hide Traced, Attempts, Degrade;
    var r := LlmDecideNode(w, req, st).value;
    TracedItems(w, st);
    if st.finished {
      SameTrace(w, st, r);
    } else if BeginStep(req.limits, st, LlmDecide, None).None? {
      DegradeFields(st, StepLimit);
      DegradeKeepsTrace(w, st, StepLimit, r);
    } else {
      var g := st.groups[st.index];
      var a := Attempts(w, req.limits, g.id, 0, Tries(st.looks, st.llmCalls, st.retries, st.errors));
      DecisionAnswered(w, req.limits, g.id, 0, Tries(st.looks, st.llmCalls, st.retries, st.errors));
      if a.Decided? {
        AnsweredLater(w, st.llmCalls, a.tries.calls, 0, a.tries.calls, a.decision, a.model);
        SameTrace(w, st, r.(pending := None));
        PendingTraced(w, r, a.decision, a.model);
      } else {
        DegradeFields(st, a.reason);
        DegradeKeepsTrace(w, st, a.reason, r);
      }
    }
  }

  lemma DegradeFields(st: State, reason: Reason)
    ensures var r := Degrade(st, reason);
            r.pending.None? && r.retrieved == st.retrieved && r.overflow == st.overflow && r.llmCalls == st.llmCalls &&
              r.toolCalls == st.toolCalls
  {}

  lemma PendingTraced(w: World, r: State, d: Decision, model: string)
    requires Traced(w, r.(pending := None)) && r.pending == Some(d) && r.model == Some(model)
    requires Answered(w, 0, r.llmCalls, d, model)
    ensures Traced(w, r)
  {
    hide Answered, IsCandidate, Stripped;
  }

  lemma ValidateTraces(w: World, req: Request, st: State)
    requires Traced(w, st)
    ensures Traced(w, ValidateActionNode(w, req, st))
  {
    hide Traced, Degrade, AppendError;
    var r := ValidateActionNode(w, req, st);
    TracedItems(w, st);
    if st.finished || st.pending.None? {
      SameTrace(w, st, r);
    } else if BeginStep(req.limits, st, ValidateAction, None).None? {
      DegradeFields(st, StepLimit);
      DegradeKeepsTrace(w, st, StepLimit, r);
    } else {
      var steps := BeginStep(req.limits, st, ValidateAction, None).value;
      var st' := st.(steps := steps, looks := st.looks + 1);
      SameTrace(w, st, st');
      var reason := if w.expired(st.looks) then AgentTimeout else ToolCallLimit;
      DegradeFields(st', reason);
      if r != st' { DegradeKeepsTrace(w, st', reason, r); }
    }
  }

  lemma SearchTraces(w: World, st: State, r: State, g: Group, chunks: seq<Id>)
    requires Traced(w, st) && |chunks| <= 5 && r.toolCalls == st.toolCalls + 1 && r.overflow == st.overflow
    requires r.retrieved == st.retrieved + NewChunks(st.retrieved, chunks) &&
      r.draft == AddCandidates(st.draft, g, chunks)
    requires r.pending.None? && r.llmCalls == st.llmCalls
    ensures Traced(w, r)
  {
    hide IsCandidate, NewChunks, AddCandidates, Answered;
    CandidatesAre(st.draft, g, chunks);
    NewChunksAre(st.retrieved, chunks);
  }

  lemma ExecuteTraces(w: World, req: Request, st: State)
    requires Traced(w, st) && w.Honest() && ExecuteToolNode(w, req, st).Ok?
    ensures Traced(w, ExecuteToolNode(w, req, st).value)
  {
    hide Traced, Degrade, AppendError, NewChunks, AddCandidates;
    var r := ExecuteToolNode(w, req, st).value;
    var tool := st.pending.value.tool;
    TracedItems(w, st);
    match BeginStep(req.limits, st, ExecuteTool, Some(tool))
    case None =>
      DegradeFields(st, StepLimit);
      DegradeKeepsTrace(w, st, StepLimit, r);
    case Some(steps) =>
      var reply := w.tool(st.toolCalls);
      if reply.ToolFailed? {
        var st' := st.(steps := steps, toolCalls := st.toolCalls + 1);
        SameTrace(w, st, st');
        DegradeFields(st', ToolError);
        DegradeKeepsTrace(w, st', ToolError, r);
      } else if tool == SearchDocs {
        SearchTraces(w, st, r, st.groups[st.index], reply.chunks);
      } else {
        SameTrace(w, st, r);
      }
  }

  lemma CompleteTraces(w: World, req: Request, st: State)
    requires Traced(w, st) && CompleteGroupNode(req, st).Ok?
    requires st.index < |st.groups| && st.pending.Some? ==> st.pending.value.group == st.groups[st.index].id
    ensures Traced(w, CompleteGroupNode(req, st).value)
  {
    hide Degrade, AppendError, IsCandidate, Answered, Stripped;
    var r := CompleteGroupNode(req, st).value;
    if BeginStep(req.limits, st, CompleteGroup, None).None? {
      DegradeFields(st, StepLimit);
      DegradeKeepsTrace(w, st, StepLimit, r);
    } else if st.pending.value.FinishGroup? {
      var d, g := st.pending.value, st.groups[st.index];
      assert d == FinishGroup(g.id, d.text);
      SameCandidates(st.draft, r.draft);
    } else {
      TracedItems(w, st);
      SameTrace(w, st, r);
    }
  }

  lemma SameCandidates(d: Draft, r: Draft)
    requires r.candidates == d.candidates
    ensures forall c :: IsCandidate(r, c) <==> IsCandidate(d, c)
  {}

  lemma VisitKeepsTrace(w: World, req: Request, c: Config)
    requires WellPrepared(req) && w.Honest() && Inv(req, c) && Traced(w, c.state) && Visit(w, req, c).Ok?
    ensures Traced(w, Visit(w, req, c).value.state)
  {
    hide Traced, PrepareNode, LlmDecideNode, ValidateActionNode, ExecuteToolNode, CompleteGroupNode, Settled, Counted,
    Running;
    match c.node
    case Prepare => PrepareTraces(w, req);
    case LlmDecide => LlmDecideTraces(w, req, c.state);
    case ValidateAction => ValidateTraces(w, req, c.state);
    case ExecuteTool => ExecuteTraces(w, req, c.state);
    case CompleteGroup => CompleteTraces(w, req, c.state);
    case Finalize =>
      TracedItems(w, c.state);
      SameTrace(w, c.state, c.state.(finished := true, pending := None, model := None));
    case End =>
  }

  /**
    At every point of every run: a chunk is a candidate exactly when it was retrieved, every
    explanation is word for word an answer of the model about its group, under a stripped name, and
    human items without a group are about the overflow.
   */
  lemma {:induction false} RunTraced(w: World, req: Request, n: nat)
    requires WellPrepared(req) && w.Honest()
    ensures Iterate(w, req, n).Ok? ==> Traced(w, Iterate(w, req, n).value.state)
  {
    hide Visit, Inv, Traced, Paced;
    if n == 0 {
      NothingTraced(w);
    } else if Iterate(w, req, n).Ok? {
      RunTraced(w, req, n - 1);
      RunKeeps(w, req, n - 1);
      RunKeeps(w, req, n);
      VisitKeepsTrace(w, req, Iterate(w, req, n - 1).value);
    }
  }

  lemma NothingTraced(w: World)
    ensures Traced(w, INITIAL_STATE)
  {}
}
