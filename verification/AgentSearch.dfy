/**
  The tool log of a run: which search was made for which group, what became of its answer, and
  exactly when the findings of a group are missing from the draft (app/agent/graph.py:438-534).
 */
module AgentSearch {
  import opened Wrappers
  import opened Order
  import opened AgentGraph
  import opened AgentInvariants
  import opened AgentRun
  import opened AgentTrace

  /** The tool steps of a log; the n-th made the n-th tool call. */
  function ToolSteps(steps: seq<Step>): seq<Step> {
    if steps == [] then []
    else
      var s := steps[|steps| - 1];
      ToolSteps(steps[..|steps| - 1]) + (if s.node == ExecuteTool then [s] else [])
  }

  /** Tool call `n` was a documentation search for the group. */
  ghost predicate SearchMade(st: State, n: nat, group: Id) {
    n < |ToolSteps(st.steps)| && ToolSteps(st.steps)[n] == Step(ExecuteTool, Some(group), Some(SearchDocs))
  }

  /** A search for the group was answered with the chunks. */
  ghost predicate SearchFound(w: World, st: State, group: Id, chunks: seq<Id>) {
    exists n :: SearchMade(st, n, group) && w.tool(n) == ToolDone(chunks)
  }

  ghost predicate Bound(st: State, group: Id) {
    exists b :: b in st.bindings && b.group == group
  }

  ghost predicate DoneGroup(st: State, group: Id) {
    exists i :: 0 <= i < st.index && i < |st.groups| && st.groups[i].id == group
  }

  /** Tool call `n` was for one group, and its answer is where it belongs. */
  ghost predicate CallLogged(w: World, st: State, n: nat)
    requires n < |ToolSteps(st.steps)|
  {
    var s := ToolSteps(st.steps)[n];
    s.group.Some? && s.tool.Some? &&
    (w.tool(n).ToolFailed? ==> st.finished && st.index < |st.groups| && s.group == Some(st.groups[st.index].id)) &&
    (w.tool(n).ToolDone? ==> DoneGroup(st, s.group.value)) &&
    (w.tool(n).ToolDone? && s.tool == Some(SearchDocs) && w.tool(n).chunks != [] ==> Bound(st, s.group.value))
  }

  ghost predicate Searches(w: World, st: State) {
    |ToolSteps(st.steps)| == st.toolCalls &&
    (forall n :: 0 <= n < st.toolCalls ==> CallLogged(w, st, n)) &&
    (forall m, n :: 0 <= m < n < st.toolCalls ==> ToolSteps(st.steps)[m].group != ToolSteps(st.steps)[n].group) &&
    (forall b :: b in st.bindings ==> b.chunks != [] && SearchFound(w, st, b.group, b.chunks))
  }

  lemma StepAdded(steps: seq<Step>, s: Step)
    ensures ToolSteps(steps + [s]) == ToolSteps(steps) + (if s.node == ExecuteTool then [s] else [])
  {
    assert (steps + [s])[..|steps|] == steps;
  }

  lemma {:induction false} ToolStepsAre(steps: seq<Step>)
    ensures forall s :: s in ToolSteps(steps) <==> s in steps && s.node == ExecuteTool
  {
    if steps != [] {
      var n := |steps| - 1;
      ToolStepsAre(steps[..n]);
      assert steps == steps[..n] + [steps[n]];
    }
  }

  // ----- every visit -----

  /** A state with the same tool log and at least as much done. */
  lemma SameSearches(w: World, st: State, r: State)
    requires Searches(w, st) && ToolSteps(r.steps) == ToolSteps(st.steps) && r.toolCalls == st.toolCalls
    requires r.bindings == st.bindings && r.groups == st.groups && r.index >= st.index
    requires st.finished ==> r.finished && r.index == st.index
    ensures Searches(w, r)
  {
    hide ToolSteps, Bound;
    forall n | 0 <= n < r.toolCalls
      ensures CallLogged(w, r, n)
    {
      assert CallLogged(w, st, n);
      var group := ToolSteps(st.steps)[n].group.value;
      if DoneGroup(st, group) {
        var i :| 0 <= i < st.index && i < |st.groups| && st.groups[i].id == group;
        assert i < r.index && r.groups[i].id == group;
      }
      if Bound(st, group) { SameBound(st, r, group); }
    }
    forall b | b in r.bindings
      ensures SearchFound(w, r, b.group, b.chunks)
    {
      var n: nat :| SearchMade(st, n, b.group) && w.tool(n) == ToolDone(b.chunks);
      assert SearchMade(r, n, b.group);
    }
  }

  lemma SameBound(st: State, r: State, group: Id)
    requires Bound(st, group) && forall b :: b in st.bindings ==> b in r.bindings
    ensures Bound(r, group)
  {}

  lemma PrepareSearches(w: World, req: Request)
    ensures Searches(w, PrepareNode(req, INITIAL_STATE))
  {
    hide AddHumanGroups, AddHumanFindings;
    StepAdded([], Step(Prepare, None, None));
    assert [] + [Step(Prepare, None, None)] == [Step(Prepare, None, None)];
  }

  /** A node other than the tool node logs at most its own step. */
  lemma OtherNode(w: World, st: State, r: State, s: Step)
    requires Searches(w, st) && s.node != ExecuteTool && (r.steps == st.steps || r.steps == st.steps + [s])
    requires r.toolCalls == st.toolCalls && r.bindings == st.bindings && r.groups == st.groups && r.index >= st.index
    requires st.finished ==> r.finished && r.index == st.index
    ensures Searches(w, r)
  {
    hide Searches;
    StepAdded(st.steps, s);
    SameSearches(w, st, r);
  }

  lemma DegradeMoves(st: State, reason: Reason)
    ensures var r := Degrade(st, reason);
            r.finished && r.index == st.index && r.steps == st.steps && r.toolCalls == st.toolCalls &&
            r.bindings == st.bindings && r.groups == st.groups
  {}

  lemma LlmDecideSearches(w: World, req: Request, st: State)
    requires Searches(w, st) && LlmDecideNode(w, req, st).Ok?
    ensures Searches(w, LlmDecideNode(w, req, st).value)
  {
    hide Searches, Attempts, Degrade, AppendError;
    DegradeMoves(st, StepLimit);
    if st.index < |st.groups| {
      var r := Attempts(w, req.limits, st.groups[st.index].id, 0, Tries(st.looks, st.llmCalls, st.retries, st.errors));
      if r.GaveUp? { DegradeMoves(st, r.reason); }
    }
    OtherNode(w, st, LlmDecideNode(w, req, st).value, Step(LlmDecide, GroupIdAt(st), None));
  }

  lemma ValidateSearches(w: World, req: Request, st: State)
    requires Searches(w, st)
    ensures Searches(w, ValidateActionNode(w, req, st))
  {
    hide Searches, Degrade, AppendError;
    var s := Step(ValidateAction, GroupIdAt(st), None);
    var st' := st.(steps := st.steps + [s], looks := st.looks + 1);
    DegradeMoves(st, StepLimit);
    DegradeMoves(st', AgentTimeout);
    DegradeMoves(st', ToolCallLimit);
    OtherNode(w, st, ValidateActionNode(w, req, st), s);
  }

  lemma CompleteSearches(w: World, req: Request, st: State)
    requires Searches(w, st) && !st.finished && CompleteGroupNode(req, st).Ok?
    ensures Searches(w, CompleteGroupNode(req, st).value)
  {
    hide Searches, Degrade, AppendError;
    DegradeMoves(st, StepLimit);
    OtherNode(w, st, CompleteGroupNode(req, st).value, Step(CompleteGroup, GroupIdAt(st), None));
  }

  /** The latest search found the chunks of the new binding `b`. */
  ghost predicate FoundNow(w: World, st: State, r: State, group: Id, b: Binding) {
    r.bindings == st.bindings + [b] && b.group == group && b.chunks != [] && w.tool(st.toolCalls) == ToolDone(b.chunks)
  }

  /** One more tool call, for a group without an earlier one. */
  lemma CallAdded(w: World, st: State, r: State, group: Id, tool: Tool)
    requires Searches(w, st) && !st.finished && r.groups == st.groups && r.index >= st.index &&
      r.toolCalls == st.toolCalls + 1
    requires r.steps == st.steps + [Step(ExecuteTool, Some(group), Some(tool))]
    requires forall s :: s in st.steps && s.node == ExecuteTool ==> s.group != Some(group)
    requires r.bindings == st.bindings || (tool == SearchDocs && exists b :: FoundNow(w, st, r, group, b))
    requires w.tool(st.toolCalls).ToolFailed? ==> r.finished && r.index < |r.groups| && r.groups[r.index].id == group
    requires w.tool(st.toolCalls).ToolDone? ==> DoneGroup(r, group)
    requires w.tool(st.toolCalls).ToolDone? && tool == SearchDocs && w.tool(st.toolCalls).chunks != [] ==>
      Bound(r, group)
    ensures Searches(w, r)
  {
    hide ToolSteps, Bound, DoneGroup;
    var s := Step(ExecuteTool, Some(group), Some(tool));
    StepAdded(st.steps, s);
    ToolStepsAre(st.steps);
    var n := st.toolCalls;
    assert ToolSteps(r.steps)[n] == s && forall m :: 0 <= m < n ==> ToolSteps(r.steps)[m] == ToolSteps(st.steps)[m];
    forall m | 0 <= m < n
      ensures CallLogged(w, r, m)
    {
      assert CallLogged(w, st, m);
      var g := ToolSteps(st.steps)[m].group.value;
      if DoneGroup(st, g) { SameDone(st, r, g); }
      if Bound(st, g) { SameBound(st, r, g); }
    }
    assert CallLogged(w, r, n);
    forall b | b in r.bindings
      ensures b.chunks != [] && SearchFound(w, r, b.group, b.chunks)
    {
      if b in st.bindings {
        var m: nat :| SearchMade(st, m, b.group) && w.tool(m) == ToolDone(b.chunks);
        assert SearchMade(r, m, b.group);
      } else {
        assert SearchMade(r, n, b.group);
      }
    }
    forall m | 0 <= m < n
      ensures ToolSteps(r.steps)[m].group != ToolSteps(r.steps)[n].group
    {
      assert ToolSteps(st.steps)[m] in ToolSteps(st.steps);
    }
  }

  lemma SameDone(st: State, r: State, group: Id)
    requires DoneGroup(st, group) && r.groups == st.groups && r.index >= st.index
    ensures DoneGroup(r, group)
  {
    var i :| 0 <= i < st.index && i < |st.groups| && st.groups[i].id == group;
    assert i < r.index && r.groups[i].id == group;
  }

  lemma ExecuteSearches(w: World, req: Request, st: State)
    requires WellPrepared(req) && Searches(w, st) && Inv(req, Config(ExecuteTool, st)) &&
      ExecuteToolNode(w, req, st).Ok?
    ensures Searches(w, ExecuteToolNode(w, req, st).value)
  {
    hide Searches, Degrade, AppendError, AddCandidates, NewChunks, DraftOf, LogOf, AccountOf, OverflowToHuman, Flat,
    Counted;
    var r := ExecuteToolNode(w, req, st).value;
    var tool, g := st.pending.value.tool, st.groups[st.index];
    if |st.steps| >= req.limits.maxSteps {
      DegradeMoves(st, StepLimit);
      OtherNode(w, st, r, Step(Prepare, None, None));
    } else {
      NoToolStepYet(st, st.index);
      var steps := st.steps + [Step(ExecuteTool, Some(g.id), Some(tool))];
      DegradeMoves(st.(steps := steps, toolCalls := st.toolCalls + 1), ToolError);
      if w.tool(st.toolCalls).ToolDone? { assert DoneGroup(r, g.id); }
      if w.tool(st.toolCalls).ToolDone? && tool == SearchDocs && w.tool(st.toolCalls).chunks != [] {
        var b := Binding(g.id, g.findings, w.tool(st.toolCalls).chunks);
        assert FoundNow(w, st, r, g.id, b) && b in r.bindings;
        assert Bound(r, g.id);
      }
      CallAdded(w, st, r, g.id, tool);
    }
  }

  lemma VisitKeepsSearches(w: World, req: Request, c: Config)
    requires WellPrepared(req) && Inv(req, c) && Searches(w, c.state) && Visit(w, req, c).Ok?
    ensures Searches(w, Visit(w, req, c).value.state)
  {
    hide Searches, PrepareNode, LlmDecideNode, ValidateActionNode, ExecuteToolNode, CompleteGroupNode, Settled, Counted;
    match c.node
    case Prepare => PrepareSearches(w, req);
    case LlmDecide => LlmDecideSearches(w, req, c.state);
    case ValidateAction => ValidateSearches(w, req, c.state);
    case ExecuteTool => ExecuteSearches(w, req, c.state);
    case CompleteGroup => CompleteSearches(w, req, c.state);
    case Finalize => OtherNode(w, c.state, c.state.(finished := true, pending := None, model := None),
                               Step(Prepare, None, None));
    case End =>
  }

  lemma NoSearches(w: World)
    ensures Searches(w, INITIAL_STATE)
  {}

  /**
    At every point of every run each tool call is logged for one group, and each binding is what the
    search for its own group found.
   */
  lemma {:induction false} RunSearched(w: World, req: Request, n: nat)
    requires WellPrepared(req) && w.Honest()
    ensures Iterate(w, req, n).Ok? ==> Searches(w, Iterate(w, req, n).value.state)
  {
    hide Visit, Inv, Searches, Paced;
    if n == 0 {
      NoSearches(w);
    } else if Iterate(w, req, n).Ok? {
      RunSearched(w, req, n - 1);
      RunKeeps(w, req, n - 1);
      RunKeeps(w, req, n);
      VisitKeepsSearches(w, req, Iterate(w, req, n - 1).value);
    }
  }

  // ----- when a group is lost -----

  /** The record of an empty search says just that: the search made for the group was answered with nothing. */
  lemma EmptySearchIff(w: World, st: State, i: nat)
    requires Searches(w, st) && DistinctIds(st.groups) && i < |st.groups|
    ensures EmptySearch(st, i) <==> SearchFound(w, st, st.groups[i].id, [])
  {
    hide ToolSteps;
    var id := st.groups[i].id;
    ToolStepsAre(st.steps);
    if EmptySearch(st, i) {
      var s := Step(ExecuteTool, Some(id), Some(SearchDocs));
      var n :| 0 <= n < |ToolSteps(st.steps)| && ToolSteps(st.steps)[n] == s;
      assert CallLogged(w, st, n) && SearchMade(st, n, id);
      assert !Bound(st, id);
    }
    if SearchFound(w, st, id, []) {
      var n: nat :| SearchMade(st, n, id) && w.tool(n) == ToolDone([]);
      assert CallLogged(w, st, n) && ToolSteps(st.steps)[n] in ToolSteps(st.steps);
      DoneBefore(st, i);
      forall b | b in st.bindings
        ensures b.group != id
      {
        var m: nat :| SearchMade(st, m, b.group) && w.tool(m) == ToolDone(b.chunks);
      }
    }
  }

  lemma DoneBefore(st: State, i: nat)
    requires DistinctIds(st.groups) && i < |st.groups| && DoneGroup(st, st.groups[i].id)
    ensures i < st.index
  {
    var j :| 0 <= j < st.index && j < |st.groups| && st.groups[j].id == st.groups[i].id;
  }

  /** After any finished run a group is accounted for unless the search made for it found nothing. */
  lemma AccountedIff(w: World, req: Request, i: nat)
    requires WellPrepared(req) && w.Honest() && Finishes(w, req) && i < |req.groups|
    ensures Final(w, req).groups == req.groups
    ensures Accounted(Final(w, req).draft, req.groups[i]) <==> !SearchFound(w, Final(w, req), req.groups[i].id, [])
  {
    hide Final, Finishes, Iterate, Settled, Inv, Searches, Accounted, SearchFound, EmptySearch;
    FinalIsEnd(w, req);
    RunKeeps(w, req, req.limits.maxSteps + 3);
    RunSearched(w, req, req.limits.maxSteps + 3);
    SettledDelivers(req, Final(w, req));
    EmptySearchIff(w, Final(w, req), i);
  }

  // ----- losing a group -----

  /** A model that searches the documentation for the first group, and a search that finds nothing. */
  function FruitlessSearch(groups: seq<Group>): World {
    World(n => false, n => if groups == [] then Malformed else Answer(CallTool(groups[0].id, SearchDocs), "m"),
          n => ToolDone([]))
  }

  lemma StepsGrow(w: World, req: Request, c: Config)
    requires c.node != Prepare && Visit(w, req, c).Ok?
    ensures c.state.steps <= Visit(w, req, c).value.state.steps
  {
    hide AddHumanGroups, AddHumanFindings, Attempts, AppendError, AddCandidates, NewChunks;
  }

  lemma {:induction false} ToolStepsGrow(a: seq<Step>, b: seq<Step>)
    requires a <= b
    ensures ToolSteps(a) <= ToolSteps(b)
    decreases |b|
  {
    if a != b {
      var n := |b| - 1;
      ToolStepsGrow(a, b[..n]);
    }
  }

  /** What a search found stays found. */
  lemma {:induction false} FoundStays(w: World, req: Request, n: nat, m: nat, group: Id, chunks: seq<Id>)
    requires WellPrepared(req) && w.Honest() && 0 < n <= m && Iterate(w, req, m).Ok?
    requires Iterate(w, req, n).Ok? && SearchFound(w, Iterate(w, req, n).value.state, group, chunks)
    ensures SearchFound(w, Iterate(w, req, m).value.state, group, chunks)
    decreases m
  {
    hide Inv, Paced, Visit, ToolSteps;
    RunKeeps(w, req, m);
    if n < m {
      FoundStays(w, req, n, m - 1, group, chunks);
      var c := Iterate(w, req, m - 1).value;
      NotPrepareAgain(w, req, m - 1);
      StepsGrow(w, req, c);
      var d := Iterate(w, req, m).value;
      ToolStepsGrow(c.state.steps, d.state.steps);
      var k: nat :| SearchMade(c.state, k, group) && w.tool(k) == ToolDone(chunks);
      assert SearchMade(d.state, k, group);
    }
  }

  lemma NotPrepareAgain(w: World, req: Request, n: nat)
    requires WellPrepared(req) && w.Honest() && n > 0 && Iterate(w, req, n).Ok?
    ensures Iterate(w, req, n).value.node != Prepare
  {
    RunKeeps(w, req, n);
    hide Inv, Visit, Iterate;
    assert Paced(Iterate(w, req, n).value, n);
  }

  /** The first four visits in that world: the search is made and finds nothing. */
  lemma FruitlessStart(req: Request)
    requires WellPrepared(req) && Reviewable(req) && req.groups != [] && req.limits.maxSteps >= 4
    ensures var w := FruitlessSearch(req.groups);
            w.Honest() && Iterate(w, req, 4).Ok? &&
            SearchFound(w, Iterate(w, req, 4).value.state, req.groups[0].id, [])
  {
    hide Settled, Inv, Visit, Iterate, DraftOf, LogOf, AccountOf, OverflowToHuman, Flat, AppendError, Counted;
    hide AddHumanFindings, PrepareNode, Attempts, Stripped;
    var w := FruitlessSearch(req.groups);
    var s1 := PrepareNode(req, INITIAL_STATE);
    PreparedToDecide(req);
    PrepareVisit(w, req);
    StartsHere(w, req);
    NextVisit(w, req, 0, START, Config(RouteAfterGroup(s1), s1));
    var s2 := FirstDecision(req, s1);
    NextVisit(w, req, 1, Config(LlmDecide, s1), Config(ValidateAction, s2));
    var s3 := ValidateActionNode(w, req, s2);
    NextVisit(w, req, 2, Config(ValidateAction, s2), Config(ExecuteTool, s3));
    var s4 := ExecuteToolNode(w, req, s3).value;
    ExecuteVisit(w, req, s3);
    NextVisit(w, req, 3, Config(ExecuteTool, s3), Config(RouteAfterGroup(s4), s4));
    RunSearched(w, req, 4);
    LatestSearch(w, s4, s3.steps, req.groups[0].id);
  }

  lemma PreparedToDecide(req: Request)
    requires WellPrepared(req) && Reviewable(req) && req.groups != []
    ensures RouteAfterGroup(PrepareNode(req, INITIAL_STATE)) == LlmDecide
  {
    hide AddHumanFindings, AddHumanGroups;
  }

  /** With four steps to spend, the first group is lost. */
  lemma FruitlessSearchLoses(req: Request)
    requires WellPrepared(req) && Reviewable(req) && req.groups != [] && req.limits.maxSteps >= 4
    ensures FruitlessSearch(req.groups).Honest() && Finishes(FruitlessSearch(req.groups), req)
    ensures SearchFound(FruitlessSearch(req.groups), Final(FruitlessSearch(req.groups), req), req.groups[0].id, [])
  {
    hide Settled, Inv, Visit, Iterate, WellPrepared, SearchFound, Stripped;
    var w := FruitlessSearch(req.groups);
    FruitlessStart(req);
    TidyFinishes(w, req);
    FoundStays(w, req, 4, req.limits.maxSteps + 3, req.groups[0].id, []);
  }

  lemma ExecuteVisit(w: World, req: Request, st: State)
    requires ExecuteToolNode(w, req, st).Ok?
    ensures var r := ExecuteToolNode(w, req, st).value;
      Visit(w, req, Config(ExecuteTool, st)) ==
      Ok(Config(RouteAfterGroup(r), r))
  {
    hide ExecuteToolNode;
  }

  /** The first decision in that world, and how it is validated. */
  lemma FirstDecision(req: Request, s1: State) returns (s2: State)
    requires WellPrepared(req) && Reviewable(req) && req.groups != [] && req.limits.maxSteps >= 4
    requires s1 == PrepareNode(req, INITIAL_STATE)
    ensures var w := FruitlessSearch(req.groups);
            Visit(w, req, Config(LlmDecide, s1)) == Ok(Config(ValidateAction, s2)) &&
            s2.pending == Some(CallTool(req.groups[0].id, SearchDocs)) && s2.groups == req.groups && s2.index == 0 &&
            !s2.finished && |s2.steps| == 2 && s2.toolCalls == 0 &&
            Visit(w, req, Config(ValidateAction, s2)) == Ok(Config(ExecuteTool, ValidateActionNode(w, req, s2)))
  {
    hide AddHumanFindings, AppendError;
    var w := FruitlessSearch(req.groups);
    var t := Tries(s1.looks, s1.llmCalls, s1.retries, s1.errors);
    var a := Attempts(w, req.limits, req.groups[0].id, 0, t);
    assert TryOnce(w, req.limits, req.groups[0].id, 0, t).Stop? && a.Decided?;
    LlmDecideSucceeds(w, req, s1, a);
    s2 := LlmDecideNode(w, req, s1).value;
    DecideVisit(w, req, s1);
  }

  /** The last step of the log is the last tool call. */
  lemma LatestSearch(w: World, st: State, before: seq<Step>, group: Id)
    requires Searches(w, st) && st.toolCalls > 0 && w.tool(st.toolCalls - 1) == ToolDone([])
    requires st.steps == before + [Step(ExecuteTool, Some(group), Some(SearchDocs))]
    ensures SearchFound(w, st, group, [])
  {
    StepAdded(before, Step(ExecuteTool, Some(group), Some(SearchDocs)));
    assert SearchMade(st, st.toolCalls - 1, group);
  }

  /** Tool calls come fourth at the earliest. */
  ghost predicate ToolsLate(st: State) { ToolSteps(st.steps) != [] ==> |st.steps| >= 4 }

  /** `r` logs at most the step `s` more than `st`. */
  ghost predicate Logs(st: State, r: State, s: Step) { r.steps == st.steps || r.steps == st.steps + [s] }

  lemma DecideLogs(w: World, req: Request, st: State)
    requires LlmDecideNode(w, req, st).Ok?
    ensures Logs(st, LlmDecideNode(w, req, st).value, Step(LlmDecide, GroupIdAt(st), None))
  {
    hide Attempts, AddHumanGroups, AppendError;
  }

  lemma ValidateLogs(w: World, req: Request, st: State)
    ensures Logs(st, ValidateActionNode(w, req, st), Step(ValidateAction, GroupIdAt(st), None))
  {
    hide AddHumanGroups, AppendError;
  }

  lemma CompleteLogs(req: Request, st: State)
    requires CompleteGroupNode(req, st).Ok?
    ensures Logs(st, CompleteGroupNode(req, st).value, Step(CompleteGroup, GroupIdAt(st), None))
  {
    hide AddHumanGroups, AppendError;
  }

  lemma PrepareLogs(req: Request)
    ensures Logs(INITIAL_STATE, PrepareNode(req, INITIAL_STATE), Step(Prepare, None, None))
  {
    hide AddHumanGroups, AddHumanFindings;
  }

  lemma ExecuteLogs(w: World, req: Request, st: State)
    requires ExecuteToolNode(w, req, st).Ok?
    ensures |ExecuteToolNode(w, req, st).value.steps| == |st.steps| + 1 ||
      ExecuteToolNode(w, req, st).value.steps == st.steps
  {
    hide AddHumanGroups, AppendError, AddCandidates, NewChunks;
  }

  lemma LateStays(st: State, r: State, s: Step)
    requires ToolsLate(st) && Logs(st, r, s) && s.node != ExecuteTool
    ensures ToolsLate(r)
  {
    StepAdded(st.steps, s);
  }

  lemma VisitKeepsLate(w: World, req: Request, c: Config)
    requires WellPrepared(req) && Inv(req, c) && ToolsLate(c.state) && Visit(w, req, c).Ok?
    ensures ToolsLate(Visit(w, req, c).value.state)
  {
    hide PrepareNode, LlmDecideNode, ValidateActionNode, ExecuteToolNode, CompleteGroupNode;
    hide DraftOf, LogOf, AccountOf, OverflowToHuman, Flat, Settled, Counted, Logs;
    var st, r := c.state, Visit(w, req, c).value.state;
    match c.node
    case Prepare =>
      PrepareLogs(req);
      LateStays(st, r, Step(Prepare, None, None));
    case LlmDecide =>
      DecideLogs(w, req, st);
      LateStays(st, r, Step(LlmDecide, GroupIdAt(st), None));
    case ValidateAction =>
      ValidateLogs(w, req, st);
      LateStays(st, r, Step(ValidateAction, GroupIdAt(st), None));
    case ExecuteTool => ExecuteLogs(w, req, st);
    case CompleteGroup =>
      CompleteLogs(req, st);
      LateStays(st, r, Step(CompleteGroup, GroupIdAt(st), None));
    case Finalize =>
    case End =>
  }

  lemma {:induction false} RunToolsLate(w: World, req: Request, n: nat)
    requires WellPrepared(req) && w.Honest()
    ensures Iterate(w, req, n).Ok? ==> ToolsLate(Iterate(w, req, n).value.state)
  {
    hide Inv, Paced, Visit;
    RunKeeps(w, req, n);
    if n > 0 && Iterate(w, req, n).Ok? {
      RunToolsLate(w, req, n - 1);
      RunKeeps(w, req, n - 1);
      VisitKeepsLate(w, req, Iterate(w, req, n - 1).value);
    }
  }

  /** No search is ever made without a model to ask for it, or without steps to make it. */
  lemma NothingSearched(w: World, req: Request, group: Id)
    requires WellPrepared(req) && w.Honest() && Finishes(w, req) && (!Reviewable(req) || req.limits.maxSteps <= 3)
    ensures !SearchFound(w, Final(w, req), group, [])
  {
    hide Final, Iterate, Settled, Inv;
    FinalIsEnd(w, req);
    ToolStepsAre(Final(w, req).steps);
    if Reviewable(req) {
      var n := req.limits.maxSteps + 3;
      RunToolsLate(w, req, n);
      RunKeeps(w, req, n);
      StepsBounded(req, Config(End, Final(w, req)));
    } else {
      NotReviewable(w, req);
    }
    forall n: nat
      ensures !SearchMade(Final(w, req), n, group)
    {
      if n < |ToolSteps(Final(w, req).steps)| {
        assert ToolSteps(Final(w, req).steps)[n] in ToolSteps(Final(w, req).steps);
      }
    }
  }

  /**
    Every finished run of a request accounts for every group exactly when there is no group, no model
    will be asked, or the steps end before a search could be made.
   */
  lemma AlwaysDeliveredIff(req: Request)
    requires WellPrepared(req)
    ensures (forall w: World, i :: w.Honest() && Finishes(w, req) && 0 <= i < |req.groups| ==>
             Accounted(Final(w, req).draft, req.groups[i])) <==>
            req.groups == [] || !Reviewable(req) || req.limits.maxSteps <= 3
  {
    hide Final, Finishes, Accounted, SearchFound;
    if req.groups == [] || !Reviewable(req) || req.limits.maxSteps <= 3 {
      forall w: World, i | w.Honest() && Finishes(w, req) && 0 <= i < |req.groups|
        ensures Accounted(Final(w, req).draft, req.groups[i])
      {
        AccountedIff(w, req, i);
        NothingSearched(w, req, req.groups[i].id);
      }
    } else {
      var w := FruitlessSearch(req.groups);
      FruitlessSearchLoses(req);
      AccountedIff(w, req, 0);
      assert !Accounted(Final(w, req).draft, req.groups[0]);
    }
  }
}
