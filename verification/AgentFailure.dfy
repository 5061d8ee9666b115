/**
  Runs of the agent that end with an exception: a provider's model name with surrounding whitespace is
  refused only when an explanation is made from it, where nothing catches the refusal
  (app/agent/graph.py:162-177, 355-370, 536-581; app/agent/graph_models.py:253-258).
 */
module AgentFailure {
  import opened Wrappers
  import opened AgentGraph
  import opened AgentInvariants
  import opened AgentRun
  import PyText

  /** A group is about to be completed, with a step to do it, and the latest answer explains it under a padded name. */
  ghost predicate PaddedAnswer(w: World, req: Request, c: Config) {
    c.node == CompleteGroup && |c.state.steps| < req.limits.maxSteps && c.state.llmCalls > 0 &&
    var answer := w.llm(c.state.llmCalls - 1);
    answer.Answer? && answer.decision.FinishGroup? && !Stripped(answer.model)
  }

  lemma RefusedIffPadded(w: World, req: Request, c: Config)
    requires WellPrepared(req) && Inv(req, c) && Answering(w, c)
    ensures Refused(req, c) <==> PaddedAnswer(w, req, c)
  {
    hide Stripped, Running, Settled, Counted;
  }

  /** The visit at which a run first raised. */
  lemma {:induction false} RaisingVisit(w: World, req: Request, n: nat) returns (m: nat)
    requires Iterate(w, req, n).Err?
    ensures m < n && Iterate(w, req, m).Ok? && Visit(w, req, Iterate(w, req, m).value).Err?
  {
    hide Visit;
    if Iterate(w, req, n - 1).Ok? { m := n - 1; } else { m := RaisingVisit(w, req, n - 1); }
  }

  lemma RaisesInTime(w: World, req: Request, n: nat)
    requires WellPrepared(req) && w.Honest()
    requires Iterate(w, req, n).Ok? && Refused(req, Iterate(w, req, n).value)
    ensures Iterate(w, req, n + 1) == Err(PaddedModelName) && n < req.limits.maxSteps && !Finishes(w, req)
  {
    hide Visit, Inv, Stripped, Answering, WellPrepared;
    RunKeeps(w, req, n);
    VisitKeeps(w, req, Iterate(w, req, n).value);
    ErrStays(w, req, n + 1, req.limits.maxSteps + 3);
  }

  /**
    A run raises exactly when, at some point, the completion of a group gets its step while the latest
    answer explains the group under a name with surrounding whitespace.
   */
  lemma RunRaisesIff(w: World, req: Request)
    requires WellPrepared(req) && w.Honest()
    ensures !Finishes(w, req) <==>
            exists n: nat :: Iterate(w, req, n).Ok? && PaddedAnswer(w, req, Iterate(w, req, n).value)
  {
    hide Visit, Inv, PaddedAnswer, Refused, Answering, Paced;
    if !Finishes(w, req) {
      var m := RaisingVisit(w, req, req.limits.maxSteps + 3);
      RunKeeps(w, req, m);
      VisitKeeps(w, req, Iterate(w, req, m).value);
      RefusedIffPadded(w, req, Iterate(w, req, m).value);
    }
    forall n: nat | Iterate(w, req, n).Ok? && PaddedAnswer(w, req, Iterate(w, req, n).value)
      ensures !Finishes(w, req)
    {
      RunKeeps(w, req, n);
      RefusedIffPadded(w, req, Iterate(w, req, n).value);
      RaisesInTime(w, req, n);
    }
  }

  // ----- a run that raises -----

  /** A provider that explains the first group at once, under a name with a leading blank. */
  function PaddedProvider(groups: seq<Group>): World {
    World(n => false, n => if groups == [] then Malformed else Answer(FinishGroup(groups[0].id, "ok"), " gpt"),
          n => ToolFailed)
  }

  /** The first decision in that world, and how it is validated. */
  lemma PaddedDecision(req: Request, s1: State) returns (s2: State)
    requires WellPrepared(req) && Reviewable(req) && req.groups != [] && req.limits.maxSteps >= 4
    requires s1 == PrepareNode(req, INITIAL_STATE)
    ensures var w := PaddedProvider(req.groups);
            Visit(w, req, Config(LlmDecide, s1)) == Ok(Config(ValidateAction, s2)) && |s2.steps| == 2 &&
            s2.pending == Some(FinishGroup(req.groups[0].id, "ok")) && s2.model == Some(" gpt") && !s2.finished &&
            Visit(w, req, Config(ValidateAction, s2)) == Ok(Config(CompleteGroup, ValidateActionNode(w, req, s2)))
  {
    hide AddHumanFindings, AppendError;
    var w := PaddedProvider(req.groups);
    var t := Tries(s1.looks, s1.llmCalls, s1.retries, s1.errors);
    var a := Attempts(w, req.limits, req.groups[0].id, 0, t);
    assert TryOnce(w, req.limits, req.groups[0].id, 0, t).Stop? && a.Decided?;
    LlmDecideSucceeds(w, req, s1, a);
    s2 := LlmDecideNode(w, req, s1).value;
    DecideVisit(w, req, s1);
  }

  /** With four steps to spend the run raises: every group is lost, however many there are. */
  lemma PaddedProviderRaises(req: Request)
    requires WellPrepared(req) && Reviewable(req) && req.groups != [] && req.limits.maxSteps >= 4
    ensures PaddedProvider(req.groups).Honest() && !Finishes(PaddedProvider(req.groups), req)
    ensures Outcome(PaddedProvider(req.groups), req) == Err(Raised(PaddedModelName))
  {
    hide Inv, Visit, Iterate, AppendError, AddHumanFindings;
    var w := PaddedProvider(req.groups);
    assert PyText.IsSpace(" gpt"[0]);
    var s1 := PrepareNode(req, INITIAL_STATE);
    PrepareVisit(w, req);
    StartsHere(w, req);
    NextVisit(w, req, 0, START, Config(RouteAfterGroup(s1), s1));
    var s2 := PaddedDecision(req, s1);
    NextVisit(w, req, 1, Config(LlmDecide, s1), Config(ValidateAction, s2));
    var s3 := ValidateActionNode(w, req, s2);
    NextVisit(w, req, 2, Config(ValidateAction, s2), Config(CompleteGroup, s3));
    RaisesInTime(w, req, 3);
    RunEnds(w, req, req.limits.maxSteps + 3);
  }

  // ----- requests whose runs always hand over a result -----

  /** Without a group, a model to ask, or a step to complete a group, nothing is refused. */
  lemma NothingRefused(req: Request, c: Config)
    requires WellPrepared(req) && Inv(req, c)
    requires req.groups == [] || !Reviewable(req) || req.limits.maxSteps <= 3
    ensures !Refused(req, c)
  {
    hide DraftOf, LogOf, AccountOf, OverflowToHuman, Flat, Settled, Counted, Stripped;
  }

  lemma FewStepsFinish(w: World, req: Request)
    requires WellPrepared(req) && w.Honest()
    requires req.groups == [] || !Reviewable(req) || req.limits.maxSteps <= 3
    ensures Finishes(w, req)
  {
    hide Visit, Inv, Paced, Refused, Answering;
    if !Finishes(w, req) {
      var m := RaisingVisit(w, req, req.limits.maxSteps + 3);
      RunKeeps(w, req, m);
      VisitKeeps(w, req, Iterate(w, req, m).value);
      NothingRefused(req, Iterate(w, req, m).value);
    }
  }

  /**
    Every run of a request hands over a result exactly when there is no group, no model will be asked,
    or the steps end before a group could be completed.
   */
  lemma AlwaysHandedOverIff(req: Request)
    requires WellPrepared(req)
    ensures (forall w: World :: w.Honest() ==> Outcome(w, req).Ok?) <==>
            req.groups == [] || !Reviewable(req) || req.limits.maxSteps <= 3
  {
    hide ResultAccepted, Iterate;
    if req.groups == [] || !Reviewable(req) || req.limits.maxSteps <= 3 {
      forall w: World | w.Honest()
        ensures Outcome(w, req).Ok?
      {
        FewStepsFinish(w, req);
        AlwaysAcceptedIff(req);
      }
    } else {
      PaddedProviderRaises(req);
    }
  }

  /**
    Among providers whose model names are stripped, every run of a request hands over a result exactly
    when no run can retry twice.
   */
  lemma TidyHandedOverIff(req: Request)
    requires WellPrepared(req)
    ensures (forall w: World :: w.Honest() && w.Tidy() ==> Outcome(w, req).Ok?) <==>
            |req.groups| <= 1 || !Reviewable(req) || req.limits.maxRetries == 0 || req.limits.maxSteps <= 4
  {
    hide ResultAccepted, Iterate;
    AlwaysAcceptedIff(req);
    if |req.groups| <= 1 || !Reviewable(req) || req.limits.maxRetries == 0 || req.limits.maxSteps <= 4 {
      forall w: World | w.Honest() && w.Tidy()
        ensures Outcome(w, req).Ok?
      {
        TidyFinishes(w, req);
      }
    } else {
      var w := Stubborn(req.groups);
      StubbornTwice(req);
      FinalIsEnd(w, req);
      AcceptedIffFewRetries(w, req, Final(w, req), req.limits.maxSteps + 3);
    }
  }
}
