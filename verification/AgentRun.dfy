/**
  Whole runs of the agent: they end, they account for every finding, and the result model
  accepts them exactly when few enough retries were needed
  (app/agent/graph.py:162-214, 677-717; app/agent/graph_models.py:335-406).
 */
module AgentRun {
  import opened Wrappers
  import opened Order
  import opened AgentGraph
  import opened AgentInvariants

  /** The configuration after `n` visits. */
  function Iterate(w: World, req: Request, n: nat): Result<Config, Crash> {
    if n == 0 then Ok(START)
    else match Iterate(w, req, n - 1)
      case Err(c) => Err(c)
      case Ok(c) => Visit(w, req, c)
  }

  /** How many visits a configuration can be reached in, against its logged steps. */
  ghost predicate Paced(c: Config, n: nat) {
    match c.node
    case Prepare => n == 0
    case ValidateAction => if c.state.finished then n <= |c.state.steps| + 1 else n == |c.state.steps|
    case Finalize => n <= |c.state.steps| + 2
    case End => true
    case _ => n == |c.state.steps|
  }

  lemma VisitKeepsPace(w: World, req: Request, c: Config, n: nat)
    requires WellPrepared(req) && Inv(req, c) && Paced(c, n) && Visit(w, req, c).Ok?
    ensures Paced(Visit(w, req, c).value, n + 1)
  {
    hide Settled, Running, Counted, AddHumanGroups, AddHumanFindings, Attempts, AppendError, AddCandidates, NewChunks;
    hide Stripped;
  }

  /** What is pending was the latest answer, under the name on record. */
  ghost predicate Answering(w: World, c: Config) {
    (c.node == ValidateAction && !c.state.finished) || c.node == ExecuteTool || c.node == CompleteGroup ==>
      c.state.llmCalls > 0 && c.state.pending.Some? && c.state.model.Some? &&
      w.llm(c.state.llmCalls - 1) == Answer(c.state.pending.value, c.state.model.value)
  }

  lemma VisitKeepsAnswer(w: World, req: Request, c: Config)
    requires WellPrepared(req) && Inv(req, c) && Answering(w, c) && Visit(w, req, c).Ok?
    ensures Answering(w, Visit(w, req, c).value)
  {
    hide Settled, Running, Counted, AddHumanGroups, AddHumanFindings, Attempts, AppendError, AddCandidates, NewChunks;
    hide Stripped;
  }

  /** After any number of visits a run stands at a configuration that keeps everything, or has raised. */
  lemma {:induction false} RunKeeps(w: World, req: Request, n: nat)
    requires WellPrepared(req) && w.Honest()
    ensures match Iterate(w, req, n) {
              case Ok(c) => Inv(req, c) && Paced(c, n) && Answering(w, c)
              case Err(e) => e == PaddedModelName
            }
  {
    hide Visit, Inv, Paced, Answering, Refused;
    if n == 0 {
      StartIsFine(w, req);
    } else {
      RunKeeps(w, req, n - 1);
      if Iterate(w, req, n - 1).Ok? {
        var c := Iterate(w, req, n - 1).value;
        VisitKeeps(w, req, c);
        if Visit(w, req, c).Ok? {
          VisitKeepsPace(w, req, c, n - 1);
          VisitKeepsAnswer(w, req, c);
        }
      }
    }
  }

  lemma StartIsFine(w: World, req: Request)
    ensures Inv(req, START) && Paced(START, 0) && Answering(w, START)
  {}

  lemma StepsBounded(req: Request, c: Config)
    requires WellPrepared(req) && Inv(req, c)
    ensures |c.state.steps| <= req.limits.maxSteps
  {
    hide DraftOf, LogOf, AccountOf, OverflowToHuman, Flat;
  }

  /**
    Every run ends or has raised within `maxSteps + 3` visits, well inside the recursion limit
    `2 * maxSteps + 16`.
   */
  lemma RunEnds(w: World, req: Request, n: nat)
    requires WellPrepared(req) && w.Honest() && n >= req.limits.maxSteps + 3
    ensures match Iterate(w, req, n) {
              case Ok(c) => c.node == End && Settled(req, c.state)
              case Err(e) => e == PaddedModelName
            }
  {
    RunKeeps(w, req, n);
    if Iterate(w, req, n).Ok? { StepsBounded(req, Iterate(w, req, n).value); }
    hide Visit, Iterate;
  }

  /** What has raised stays so. */
  lemma {:induction false} EarlierOk(w: World, req: Request, n: nat, m: nat)
    requires n <= m && Iterate(w, req, m).Ok?
    ensures Iterate(w, req, n).Ok?
    decreases m
  {
    if n < m { EarlierOk(w, req, n, m - 1); }
  }

  lemma {:induction false} EndStays(w: World, req: Request, n: nat, m: nat)
    requires n <= m && Iterate(w, req, n).Ok? && Iterate(w, req, n).value.node == End
    ensures Iterate(w, req, m) == Iterate(w, req, n)
    decreases m
  {
    hide Visit;
    if n < m {
      EndStays(w, req, n, m - 1);
      EndVisit(w, req, Iterate(w, req, n).value);
    }
  }

  lemma EndVisit(w: World, req: Request, c: Config)
    requires c.node == End
    ensures Visit(w, req, c) == Ok(c)
  {}

  lemma {:induction false} ErrStays(w: World, req: Request, n: nat, m: nat)
    requires n <= m && Iterate(w, req, n).Err?
    ensures Iterate(w, req, m) == Iterate(w, req, n)
    decreases m
  {
    if n < m { ErrStays(w, req, n, m - 1); }
  }

  // ----- what a run comes to -----

  /** No visit of the run raises. */
  predicate Finishes(w: World, req: Request) {
    Iterate(w, req, req.limits.maxSteps + 3).Ok?
  }

  /** The state in which a run that raises nothing ends. */
  function Final(w: World, req: Request): State
    requires Finishes(w, req)
  {
    Iterate(w, req, req.limits.maxSteps + 3).value.state
  }

  lemma FinalIsEnd(w: World, req: Request)
    requires WellPrepared(req) && w.Honest() && Finishes(w, req)
    ensures Iterate(w, req, req.limits.maxSteps + 3) == Ok(Config(End, Final(w, req)))
  {
    hide Iterate, Visit, Settled, WellPrepared;
    RunEnds(w, req, req.limits.maxSteps + 3);
    var c := Iterate(w, req, req.limits.maxSteps + 3).value;
    assert c == Config(c.node, c.state);
  }

  /** While every explanation comes under a stripped name, nothing is raised. */
  lemma {:induction false} TidyGoesOn(w: World, req: Request, n: nat)
    requires WellPrepared(req) && w.Honest() && w.Tidy()
    ensures Iterate(w, req, n).Ok?
  {
    hide Visit, Inv, Paced, Stripped;
    if n > 0 {
      TidyGoesOn(w, req, n - 1);
      RunKeeps(w, req, n - 1);
      VisitKeeps(w, req, Iterate(w, req, n - 1).value);
    }
  }

  lemma TidyFinishes(w: World, req: Request)
    requires WellPrepared(req) && w.Honest() && w.Tidy()
    ensures Finishes(w, req)
  {
    TidyGoesOn(w, req, req.limits.maxSteps + 3);
  }

  // ----- running the graph -----

  /** What `run` raises: what a node raised, or the refusal of the result by its model. */
  datatype RunError = Raised(crash: Crash) | ResultRefused

  /** A run that stands at `c` ends there with the error. */
  ghost predicate Ends(req: Request, c: Config, e: RunError) {
    match e
    case Raised(crash) => crash == PaddedModelName && Refused(req, c)
    case ResultRefused => c.node == End && c.state.retries > 1
  }

  /** What `run` comes to when the overall timeout does not fire. */
  function Outcome(w: World, req: Request): Result<State, RunError> {
    match Iterate(w, req, req.limits.maxSteps + 3)
    case Err(crash) => Err(Raised(crash))
    case Ok(c) => if ResultAccepted(req, c.state) then Ok(c.state) else Err(ResultRefused)
  }

  /** `run`: the graph loop, threading the state; `cut(n)` says whether the overall timeout fires before visit `n`. */
  method Run(w: World, req: Request, cut: nat -> bool) returns (r: Result<State, RunError>, visits: nat)
    requires WellPrepared(req) && w.Honest()
    ensures visits <= req.limits.maxSteps + 3 < 2 * req.limits.maxSteps + 16
    ensures (forall n :: !cut(n)) ==> r == Outcome(w, req)
    ensures Iterate(w, req, visits).Ok? && forall n: nat :: n < visits ==> !cut(n)
    ensures var c := Iterate(w, req, visits).value;
            if c.node == End then r == if ResultAccepted(req, c.state) then Ok(c.state) else Err(ResultRefused)
            else if cut(visits) then r == Ok(TimeoutState(req))
            else Visit(w, req, c).Err? && r == Err(Raised(Visit(w, req, c).error))
    ensures r.Ok? ==> r.value == TimeoutState(req) || Iterate(w, req, visits) == Ok(Config(End, r.value))
    ensures r.Ok? ==> Delivered(req, r.value) && ResultAccepted(req, r.value)
    ensures r.Err? ==> Iterate(w, req, visits).Ok? && Ends(req, Iterate(w, req, visits).value, r.error)
  {
    hide Visit, Inv, Settled, TimeoutState, Delivered, ResultAccepted, Refused, Answering;
    ghost var end := req.limits.maxSteps + 3;
    var c := START;
    visits := 0;
    while c.node != End
      invariant Iterate(w, req, visits) == Ok(c) && visits <= req.limits.maxSteps + 3
      invariant forall n: nat :: n < visits ==> !cut(n)
      decreases req.limits.maxSteps + 3 - visits
    {
      if cut(visits) {
        TimeoutDelivers(req);
        TimeoutAccepted(req);
        return Ok(TimeoutState(req)), visits;
      }
      RunKeeps(w, req, visits);
      if visits == req.limits.maxSteps + 3 { RunEnds(w, req, visits); }
      VisitKeeps(w, req, c);
      var next := Visit(w, req, c);
      if next.Err? {
        ErrStays(w, req, visits + 1, end);
        return Err(Raised(next.error)), visits;
      }
      c := next.value;
      visits := visits + 1;
    }
    EndStays(w, req, visits, end);
    RunKeeps(w, req, visits);
    AcceptedIffFewRetries(w, req, c.state, visits);
    if !ResultAccepted(req, c.state) { return Err(ResultRefused), visits; }
    SettledDelivers(req, c.state);
    r := Ok(c.state);
  }

  // ----- what a result delivers -----

  /**
    Every finding of a group is in an explanation, a documentation candidate or a human item, except
    exactly where the group's search came back empty; every overflow finding is in a human item.
   */
  ghost predicate Delivered(req: Request, st: State) {
    st.groups == req.groups && st.overflow == req.overflow &&
    (forall i :: 0 <= i < |st.groups| ==> (Accounted(st.draft, st.groups[i]) <==> !EmptySearch(st, i))) &&
    (forall id :: id in req.overflow ==> exists x :: x in st.draft.human && id in x.findings)
  }

  /** `_timeout_result`: nothing of the run survives but the prepared groups. */
  function TimeoutState(req: Request): State {
    var d := AddHumanGroups(EMPTY_DRAFT, req.groups, AgentTimeout);
    INITIAL_STATE.(groups := req.groups, overflow := req.overflow, reason := Some(AgentTimeout), finished := true,
                   draft := if req.overflow == [] then d else AddHumanFindings(d, req.overflow, GroupLimit),
                   errors := [Step(LlmDecide, None, None)])
  }

  lemma SettledDelivers(req: Request, st: State)
    requires Inv(req, Config(End, st))
    ensures Delivered(req, st)
  {
    hide Accounted, DraftOf, LogOf, Counted;
  }

  lemma TimeoutDelivers(req: Request)
    ensures Delivered(req, TimeoutState(req))
    ensures var st := TimeoutState(req);
            st.reason == Some(AgentTimeout) && st.draft.explanations == [] && st.draft.candidates == [] &&
            (forall i :: 0 <= i < |req.groups| ==>
               HumanItem(Some(req.groups[i].id), req.groups[i].findings, AgentTimeout) in st.draft.human) &&
            forall x :: x in st.draft.human ==> x.reason == if x.group.Some? then AgentTimeout else GroupLimit
  {
    hide AddHumanGroups, AddHumanFindings;
    var d := AddHumanGroups(EMPTY_DRAFT, req.groups, AgentTimeout);
    HumanGroupsAdded(EMPTY_DRAFT, req.groups, AgentTimeout);
    HumanFindingsAdded(d, req.overflow, GroupLimit);
    var st := TimeoutState(req);
    forall i | 0 <= i < |st.groups|
      ensures Accounted(st.draft, st.groups[i]) && !EmptySearch(st, i)
    {
      assert HumanItem(Some(st.groups[i].id), st.groups[i].findings, AgentTimeout) in st.draft.human;
      assert ToHuman(st.draft, st.groups[i]);
    }
  }

  // ----- counters -----

  /**
    The counter laws of a finished run: what was reviewed is the findings of the first `r` groups in
    order; model calls are groups reviewed plus retries, one less only when the deadline ended the
    run; tool calls are at most one a group; bindings refer to retrieved chunks only.
   */
  lemma CounterLaws(w: World, req: Request, st: State, n: nat) returns (r: nat)
    requires WellPrepared(req) && w.Honest() && Iterate(w, req, n) == Ok(Config(End, st))
    ensures r <= |req.groups| && st.reviewed == Flat(req.groups[..r]) && NoDuplicates(st.reviewed)
    ensures st.llmCalls == r + st.retries || (st.llmCalls + 1 == r + st.retries && st.reason == Some(AgentTimeout))
    ensures st.retries <= req.limits.maxRetries * r && st.toolCalls <= r
    ensures |st.steps| <= req.limits.maxSteps && |st.steps| <= 3 * |req.groups| + 1
    ensures NoDuplicates(st.retrieved) && |st.retrieved| <= 5 * |req.groups|
    ensures forall b :: b in st.bindings ==> forall c :: c in b.chunks ==> c in st.retrieved
  {
    RunKeeps(w, req, n);
    hide Iterate, Visit, DraftOf, AccountOf, OverflowToHuman, Flat;
    var missing;
    r, missing :| Counted(req, st, r, missing) && st.toolCalls <= r &&
      (missing == 0 || (missing == 1 && st.reason == Some(AgentTimeout)));
    FlatPrefix(req.groups, r);
    PrefixDistinct(st.reviewed, Flat(req.groups));
  }

  lemma PrefixDistinct(a: seq<Id>, b: seq<Id>)
    requires a <= b && NoDuplicates(b)
    ensures NoDuplicates(a)
  {
    forall i, j | 0 <= i < j < |a|
      ensures a[i] != a[j]
    {
      assert a[i] == b[i] && a[j] == b[j];
    }
  }

  /** With the default limits neither budget can run out. */
  lemma BudgetsSuffice(w: World, req: Request, st: State, n: nat)
    requires WellPrepared(req) && w.Honest() && Iterate(w, req, n) == Ok(Config(End, st))
    requires req.limits.maxSteps >= 3 * req.limits.maxGroups + 1 && req.limits.maxToolCalls >= req.limits.maxGroups
    ensures st.reason != Some(StepLimit) && st.reason != Some(ToolCallLimit)
  {
    RunKeeps(w, req, n);
    hide Iterate, Visit, DraftOf, LogOf, AccountOf, OverflowToHuman, Flat;
  }

  lemma DefaultLimitsSuffice()
    ensures DEFAULT_LIMITS.Valid()
    ensures DEFAULT_LIMITS.maxSteps >= 3 * DEFAULT_LIMITS.maxGroups + 1 &&
      DEFAULT_LIMITS.maxToolCalls >= DEFAULT_LIMITS.maxGroups
  {}

  // ----- the result model -----

  /** The validators of the result model, over the final state. */
  predicate ResultAccepted(req: Request, st: State) {
    st.retries <= 1 && st.toolCalls <= 8 && st.llmCalls <= 16 &&
    |st.steps| <= 32 && |st.retrieved| <= 40 && |st.bindings| <= 8 && |st.errors| <= 32 && |st.groups| <= 8 &&
    NoDuplicates(st.reviewed) && (forall id :: id in st.reviewed ==> id in Flat(req.groups)) &&
    NoDuplicates(st.retrieved) &&
    (forall b :: b in st.bindings ==>
       Known(req.groups, |req.groups|, b.group, b.findings) && (forall c :: c in b.chunks ==> c in st.retrieved)) &&
    (forall i, j :: 0 <= i < j < |st.bindings| ==> st.bindings[i].group != st.bindings[j].group)
  }

  lemma TimeoutAccepted(req: Request)
    requires WellPrepared(req)
    ensures ResultAccepted(req, TimeoutState(req))
  {
    hide AddHumanGroups, AddHumanFindings;
  }

  lemma PrefixWithin(a: seq<Id>, b: seq<Id>)
    requires a <= b
    ensures forall id :: id in a ==> id in b
  {
    forall id | id in a
      ensures id in b
    {
      var i :| 0 <= i < |a| && a[i] == id;
      assert b[i] == id;
    }
  }

  lemma LogAccepted(req: Request, st: State)
    requires WellPrepared(req) && st.groups == req.groups && LogOf(st, |st.groups|)
    ensures |st.retrieved| <= 40 && |st.bindings| <= st.toolCalls <= 8 && |st.errors| <= 32 &&
      NoDuplicates(st.retrieved)
    ensures forall b :: b in st.bindings ==>
      Known(req.groups, |req.groups|, b.group, b.findings) && (forall c :: c in b.chunks ==> c in st.retrieved)
    ensures forall i, j :: 0 <= i < j < |st.bindings| ==> st.bindings[i].group != st.bindings[j].group
  {
    hide Known, Flat;
  }

  lemma CallsBounded(req: Request, r: nat, retries: nat, calls: nat)
    requires req.limits.Valid() && r <= |req.groups| <= req.limits.maxGroups && retries <= req.limits.maxRetries * r
    requires calls <= r + retries
    ensures calls <= 16 && retries <= r
  {
    assert req.limits.maxRetries == 0 || req.limits.maxRetries == 1;
  }

  /** Of all its checks, only the bound of one on retries can fail. */
  lemma AcceptedIffFewRetries(w: World, req: Request, st: State, n: nat)
    requires WellPrepared(req) && w.Honest() && Iterate(w, req, n) == Ok(Config(End, st))
    ensures ResultAccepted(req, st) <==> st.retries <= 1
  {
    hide Iterate, Visit, DraftOf, AccountOf, OverflowToHuman, Flat, Counted, Known, LogOf, NoDuplicates;
    var r := CounterLaws(w, req, st, n);
    RunKeeps(w, req, n);
    FlatPrefix(req.groups, r);
    PrefixWithin(st.reviewed, Flat(req.groups));
    CallsBounded(req, r, st.retries, st.llmCalls);
    LogAccepted(req, st);
  }

  // ----- the bound on retries is not implied -----

  /** A model that answers badly once for every group, then finishes it. */
  function Stubborn(groups: seq<Group>): World {
    World(n => false,
          (n: nat) => if n % 2 == 1 && n / 2 < |groups| then Answer(FinishGroup(groups[n / 2].id, "ok"), "m")
                     else Malformed,
          n => ToolFailed)
  }

  lemma StrippedName()
    ensures Stripped("m")
  {}

  /** Group `k` under the stubborn model: one retry, then finished, in three visits. */
  lemma StubbornGroup(req: Request, st: State, n: nat) returns (r: State)
    requires WellPrepared(req) && req.limits.maxRetries == 1 && Deciding(req, st) &&
      3 * st.index + 4 <= req.limits.maxSteps
    requires Iterate(Stubborn(req.groups), req, n) == Ok(Config(LlmDecide, st))
    requires st.retries == st.index && st.llmCalls == 2 * st.index
    ensures Iterate(Stubborn(req.groups), req, n + 3) == Ok(Config(RouteAfterGroup(r), r))
    ensures !r.finished && r.reason == st.reason && st.reason in {None, Some(GroupLimit)}
    ensures r.index == st.index + 1 && r.retries == st.retries + 1 && r.llmCalls == st.llmCalls + 2 &&
      r.groups == st.groups
  {
    hide DraftOf, LogOf, AccountOf, OverflowToHuman, Flat, AppendError, Counted, Iterate, Stripped, Attempts;
    StrippedName();
    var w, k := Stubborn(req.groups), st.index;
    var g := st.groups[k];
    var t0 := Tries(st.looks, st.llmCalls, st.retries, st.errors);
    var a := StubbornAttempts(req, k, t0);
    NotReviewedYet(st.groups, k);
    assert st.reviewed == Flat(st.groups[..k]) by { ReviewedSoFar(req, st); }
    LlmDecideSucceeds(w, req, st, a);
    var s1 := LlmDecideNode(w, req, st).value;
    NextVisit(w, req, n, Config(LlmDecide, st), Config(ValidateAction, s1));
    ValidateCases(w, req, s1);
    var s2 := ValidateActionNode(w, req, s1);
    NextVisit(w, req, n + 1, Config(ValidateAction, s1), Config(CompleteGroup, s2));
    r := CompleteGroupNode(req, s2).value;
    NextVisit(w, req, n + 2, Config(CompleteGroup, s2), Config(RouteAfterGroup(r), r));
  }

  lemma ReviewedSoFar(req: Request, st: State)
    requires Deciding(req, st)
    ensures st.reviewed == Flat(st.groups[..st.index])
  {}

  lemma NextVisit(w: World, req: Request, n: nat, c: Config, d: Config)
    requires Iterate(w, req, n) == Ok(c) && Visit(w, req, c) == Ok(d)
    ensures Iterate(w, req, n + 1) == Ok(d)
  {
    hide Visit;
  }

  lemma StubbornAttempts(req: Request, k: nat, t0: Tries) returns (a: Attempted)
    requires k < |req.groups| && req.limits.maxRetries == 1 && t0.calls == 2 * k
    ensures a == Attempts(Stubborn(req.groups), req.limits, req.groups[k].id, 0, t0)
    ensures a.Decided? && a.decision == FinishGroup(req.groups[k].id, "ok") && a.model == "m"
    ensures a.tries.retries == t0.retries + 1 &&
      a.tries.calls == t0.calls + 2
  {
    hide AppendError;
    var w := Stubborn(req.groups);
    assert (2 * k) % 2 == 0 && (2 * k + 1) % 2 == 1 && (2 * k + 1) / 2 == k;
    var first := TryOnce(w, req.limits, req.groups[k].id, 0, t0);
    assert first.Again? && first.tries.calls == 2 * k + 1;
    a := Attempts(w, req.limits, req.groups[k].id, 0, t0);
    assert a == Attempts(w, req.limits, req.groups[k].id, 1, first.tries);
  }

  lemma LlmDecideSucceeds(w: World, req: Request, st: State, a: Attempted)
    requires !st.finished && |st.steps| < req.limits.maxSteps && st.index < |st.groups| && req.hasClient
    requires forall j :: 0 <= j < |st.groups[st.index].findings| ==> st.groups[st.index].findings[j] !in st.reviewed
    requires a == Attempts(w, req.limits, st.groups[st.index].id, 0,
                           Tries(st.looks, st.llmCalls, st.retries, st.errors)) && a.Decided?
    ensures LlmDecideNode(w, req, st) ==
            Ok(st.(pending := Some(a.decision), model := Some(a.model),
                   steps := st.steps + [Step(LlmDecide, Some(st.groups[st.index].id), None)],
                   reviewed := st.reviewed + st.groups[st.index].findings, looks := a.tries.looks,
                   llmCalls := a.tries.calls, retries := a.tries.retries, errors := a.tries.errors))
  {
    hide Attempts;
  }

  ghost predicate Reviewable(req: Request) {
    req.hasClient && req.llmReview
  }

  /** After `k` groups under the stubborn model there have been `k` retries. */
  lemma {:induction false} StubbornRun(req: Request, k: nat) returns (st: State)
    requires WellPrepared(req) && req.limits.maxRetries == 1 && 3 * k + 1 <= req.limits.maxSteps
    requires Reviewable(req) && k <= |req.groups| && 0 < |req.groups|
    ensures Iterate(Stubborn(req.groups), req, 3 * k + 1) == Ok(Config(RouteAfterGroup(st), st))
    ensures st.groups == req.groups && st.index == k && st.retries == k && st.llmCalls == 2 * k
    ensures !st.finished && st.reason in {None, Some(GroupLimit)}
    ensures k < |req.groups| ==> RouteAfterGroup(st) == LlmDecide && Deciding(req, st)
    ensures k == |req.groups| ==> RouteAfterGroup(st) == Finalize
  {
    hide Deciding, Visit, Settled, AddHumanFindings, Acting;
    var w := Stubborn(req.groups);
    assert w.Honest();
    if k == 0 {
      st := PrepareNode(req, INITIAL_STATE);
      assert Visit(w, req, START) == Ok(Config(RouteAfterGroup(st), st)) by { PrepareVisit(w, req); }
      NextVisit(w, req, 0, START, Config(RouteAfterGroup(st), st));
      RunKeeps(w, req, 1);
    } else {
      var before := StubbornRun(req, k - 1);
      st := StubbornGroup(req, before, 3 * (k - 1) + 1);
      RunKeeps(w, req, 3 * k + 1);
    }
  }

  lemma StartsHere(w: World, req: Request)
    ensures Iterate(w, req, 0) == Ok(START)
  {}

  lemma PrepareVisit(w: World, req: Request)
    ensures Visit(w, req, START) == Ok(Config(RouteAfterGroup(PrepareNode(req, INITIAL_STATE)),
                                              PrepareNode(req, INITIAL_STATE)))
  {
    hide PrepareNode;
  }

  lemma RetriesGrow(w: World, req: Request, c: Config)
    requires Visit(w, req, c).Ok?
    ensures Visit(w, req, c).value.state.retries >= c.state.retries
  {
    hide AddHumanGroups, AddHumanFindings, Attempts, AppendError, AddCandidates, NewChunks;
  }

  lemma {:induction false} RetriesNeverFall(w: World, req: Request, n: nat, m: nat)
    requires WellPrepared(req) && w.Honest() && n <= m && Iterate(w, req, m).Ok?
    ensures Iterate(w, req, n).Ok? && Iterate(w, req, m).value.state.retries >= Iterate(w, req, n).value.state.retries
    decreases m
  {
    hide Inv, Paced, Visit;
    RunKeeps(w, req, m);
    if n < m {
      RetriesNeverFall(w, req, n, m - 1);
      RetriesGrow(w, req, Iterate(w, req, m - 1).value);
    }
  }

  lemma StubbornFinishes(req: Request)
    requires WellPrepared(req)
    ensures Stubborn(req.groups).Honest() && Finishes(Stubborn(req.groups), req)
  {
    hide Finishes, Stripped, WellPrepared;
    StrippedName();
    TidyFinishes(Stubborn(req.groups), req);
  }

  /** Two groups, one retry each and steps to decide about the second: two retries in one run. */
  lemma StubbornTwice(req: Request)
    requires WellPrepared(req) && req.limits.maxRetries == 1 && req.limits.maxSteps >= 5 && Reviewable(req) &&
      |req.groups| >= 2
    ensures Stubborn(req.groups).Honest() && Finishes(Stubborn(req.groups), req)
    ensures Final(Stubborn(req.groups), req).retries >= 2
  {
    hide Settled, Inv, Visit, Iterate, Final, DraftOf, LogOf, AccountOf, OverflowToHuman, Flat, AppendError, Counted;
    hide Finishes, Attempts, Stripped;
    var w := Stubborn(req.groups);
    StubbornFinishes(req);
    var st := StubbornRun(req, 1);
    var a := StubbornAttempts(req, 1, Tries(st.looks, st.llmCalls, st.retries, st.errors));
    NotReviewedYet(st.groups, 1);
    assert st.reviewed == Flat(st.groups[..1]) by { ReviewedSoFar(req, st); }
    LlmDecideSucceeds(w, req, st, a);
    var s1 := LlmDecideNode(w, req, st).value;
    DecideVisit(w, req, st);
    NextVisit(w, req, 4, Config(LlmDecide, st), Config(ValidateAction, s1));
    FinalIsEnd(w, req);
    RetriesNeverFall(w, req, 5, req.limits.maxSteps + 3);
  }

  lemma DecideVisit(w: World, req: Request, st: State)
    requires LlmDecideNode(w, req, st).Ok?
    ensures Visit(w, req, Config(LlmDecide, st)) == Ok(Config(ValidateAction, LlmDecideNode(w, req, st).value))
  {
    hide LlmDecideNode;
  }

  /** Every retry is paid for with logged steps. */
  ghost predicate RetriesPaid(st: State) { 3 * st.retries <= |st.steps| + 1 }

  lemma VisitKeepsPaid(w: World, req: Request, c: Config)
    requires WellPrepared(req) && Inv(req, c) && RetriesPaid(c.state) && Visit(w, req, c).Ok?
    ensures RetriesPaid(Visit(w, req, c).value.state)
  {
    hide AddHumanGroups, AddHumanFindings, Attempts, AppendError, AddCandidates, NewChunks, Stripped;
    hide DraftOf, LogOf, AccountOf, OverflowToHuman, Flat, Settled;
    assert req.limits.maxRetries == 0 || req.limits.maxRetries == 1;
  }

  lemma {:induction false} RunPaid(w: World, req: Request, n: nat)
    requires WellPrepared(req) && w.Honest()
    ensures Iterate(w, req, n).Ok? ==> RetriesPaid(Iterate(w, req, n).value.state)
  {
    hide Inv, Paced, Visit;
    RunKeeps(w, req, n);
    if n > 0 && Iterate(w, req, n).Ok? {
      RunPaid(w, req, n - 1);
      RunKeeps(w, req, n - 1);
      VisitKeepsPaid(w, req, Iterate(w, req, n - 1).value);
    }
  }

  lemma FinalizeVisit(w: World, req: Request, st: State)
    ensures Visit(w, req, Config(Finalize, st)) ==
      Ok(Config(End, st.(finished := true, pending := None, model := None)))
  {}

  /** Without a model, or with it switched off, nothing goes to it. */
  lemma NotReviewable(w: World, req: Request)
    requires WellPrepared(req) && w.Honest() && !Reviewable(req)
    ensures Finishes(w, req)
    ensures Final(w, req).retries == 0 && forall s :: s in Final(w, req).steps ==> s.node != ExecuteTool
  {
    hide AddHumanFindings, AddHumanGroups, Settled, Inv, Visit, Final;
    var st := PrepareNode(req, INITIAL_STATE);
    PrepareVisit(w, req);
    NextVisit(w, req, 0, START, Config(RouteAfterGroup(st), st));
    FinalizeVisit(w, req, st);
    var end := Config(End, st.(finished := true, pending := None, model := None));
    NextVisit(w, req, 1, Config(Finalize, st), end);
    EndStays(w, req, 2, req.limits.maxSteps + 3);
    FinalIsEnd(w, req);
  }

  /**
    The result model accepts every finished run of a request exactly when no run can retry twice:
    there is at most one group, no model will be asked, no retry is allowed, or the steps end before
    a second group is decided about.
   */
  lemma AlwaysAcceptedIff(req: Request)
    requires WellPrepared(req)
    ensures (forall w: World :: w.Honest() && Finishes(w, req) ==> ResultAccepted(req, Final(w, req))) <==>
            |req.groups| <= 1 || !Reviewable(req) || req.limits.maxRetries == 0 || req.limits.maxSteps <= 4
  {
    hide ResultAccepted, Final, Finishes;
    if |req.groups| <= 1 || !Reviewable(req) || req.limits.maxRetries == 0 || req.limits.maxSteps <= 4 {
      forall w: World | w.Honest() && Finishes(w, req)
        ensures ResultAccepted(req, Final(w, req))
      {
        AtMostOneRetry(w, req);
        FinalIsEnd(w, req);
        AcceptedIffFewRetries(w, req, Final(w, req), req.limits.maxSteps + 3);
      }
    } else {
      var w := Stubborn(req.groups);
      StubbornTwice(req);
      FinalIsEnd(w, req);
      AcceptedIffFewRetries(w, req, Final(w, req), req.limits.maxSteps + 3);
    }
  }

  lemma AtMostOneRetry(w: World, req: Request)
    requires WellPrepared(req) && w.Honest() && Finishes(w, req)
    requires |req.groups| <= 1 || !Reviewable(req) || req.limits.maxRetries == 0 || req.limits.maxSteps <= 4
    ensures Final(w, req).retries <= 1
  {
    hide Final, Iterate, Settled, Inv, Finishes;
    var n := req.limits.maxSteps + 3;
    FinalIsEnd(w, req);
    if !Reviewable(req) {
      NotReviewable(w, req);
    } else if req.limits.maxSteps <= 4 {
      RunPaid(w, req, n);
      RunKeeps(w, req, n);
      StepsBounded(req, Config(End, Final(w, req)));
    } else {
      var r := CounterLaws(w, req, Final(w, req), n);
      assert r <= 1 || req.limits.maxRetries == 0;
      assert req.limits.maxRetries <= 1 && req.limits.maxRetries * r <= 1;
    }
  }
}
