/**
  What every run of the agent keeps: budgets, counters, and an account of every group
  (app/agent/graph.py:249-632; app/agent/graph_models.py:365-406).
 */
module AgentInvariants {
  import opened Wrappers
  import opened Order
  import opened AgentGraph

  // ----- what the preparation hands over -----

  /** All finding ids of some groups, in order. */
  function Flat(groups: seq<Group>): seq<Id> {
    if groups == [] then [] else Flat(groups[..|groups| - 1]) + groups[|groups| - 1].findings
  }

  ghost predicate WellPrepared(req: Request) {
    req.limits.Valid() && |req.groups| <= req.limits.maxGroups &&
    (forall i, j :: 0 <= i < j < |req.groups| ==> req.groups[i].id != req.groups[j].id) &&
    NoDuplicates(Flat(req.groups))
  }

  // ----- the account of a group -----

  ghost predicate Explained(d: Draft, g: Group) {
    exists x :: x in d.explanations && x.group == g.id && x.findings == g.findings
  }

  ghost predicate Cited(d: Draft, g: Group) {
    exists x :: x in d.candidates && x.group == g.id && x.findings == g.findings
  }

  ghost predicate ToHuman(d: Draft, g: Group) {
    exists x :: x in d.human && x.group == Some(g.id) && x.findings == g.findings
  }

  /** The draft carries the findings of `g` somewhere. */
  ghost predicate Accounted(d: Draft, g: Group) {
    Explained(d, g) || Cited(d, g) || ToHuman(d, g)
  }

  /** The documentation search of group `i` completed and found nothing. */
  ghost predicate EmptySearch(st: State, i: nat)
    requires i < |st.groups|
  {
    i < st.index && Step(ExecuteTool, Some(st.groups[i].id), Some(SearchDocs)) in st.steps &&
    forall b :: b in st.bindings ==> b.group != st.groups[i].id
  }

  predicate Known(groups: seq<Group>, k: nat, gid: Id, findings: seq<Id>)
    requires k <= |groups|
  {
    exists i :: 0 <= i < k && groups[i].id == gid && groups[i].findings == findings
  }

  /** Everything in the draft that names a group names one of the first `k`. */
  ghost predicate DraftOf(groups: seq<Group>, k: nat, d: Draft)
    requires k <= |groups|
  {
    (forall x :: x in d.explanations ==> Known(groups, k, x.group, x.findings)) &&
    (forall x :: x in d.candidates ==> Known(groups, k, x.group, x.findings)) &&
    (forall x :: x in d.human && x.group.Some? ==> Known(groups, k, x.group.value, x.findings))
  }

  /** The tool steps, bindings and retrieved chunks of the first `k` groups. */
  ghost predicate LogOf(st: State, k: nat)
    requires k <= |st.groups|
  {
    (forall s :: s in st.steps && s.node == ExecuteTool ==>
     exists i :: 0 <= i < k && s.group == Some(st.groups[i].id)) &&
    (forall b :: b in st.bindings ==>
       Known(st.groups, k, b.group, b.findings) && b.chunks != [] &&
         (forall c :: c in b.chunks ==> c in st.retrieved)) &&
    (forall i, j :: 0 <= i < j < |st.bindings| ==> st.bindings[i].group != st.bindings[j].group) &&
    NoDuplicates(st.retrieved) && |st.retrieved| <= 5 * k && |st.bindings| <= st.toolCalls <= k &&
      |st.errors| <= MAX_ERRORS
  }

  ghost predicate AccountOf(st: State, k: nat)
    requires k <= |st.groups|
  {
    forall i :: 0 <= i < k ==> (Accounted(st.draft, st.groups[i]) <==> !EmptySearch(st, i))
  }

  ghost predicate OverflowToHuman(st: State) {
    forall id :: id in st.overflow ==> exists x :: x in st.draft.human && id in x.findings
  }

  /** The counters after `r` groups went to the model. */
  ghost predicate Counted(req: Request, st: State, r: nat, missing: nat) {
    r <= |st.groups| && st.reviewed == Flat(st.groups[..r]) &&
    st.llmCalls + missing == r + st.retries && st.retries <= req.limits.maxRetries * r
  }

  /** The run is still going, with the groups before `st.index` done. */
  ghost predicate Running(req: Request, st: State) {
    st.groups == req.groups && st.overflow == req.overflow && st.index < |st.groups| && !st.finished &&
    (st.reason == None || st.reason == Some(GroupLimit)) && (st.reason.Some? <==> st.overflow != []) &&
    req.hasClient && req.llmReview &&
    DraftOf(st.groups, st.index, st.draft) && LogOf(st, st.index) && AccountOf(st, st.index) && OverflowToHuman(st) &&
    |st.steps| <= req.limits.maxSteps
  }

  ghost predicate Deciding(req: Request, st: State) {
    Running(req, st) && st.pending.None? && |st.steps| == 3 * st.index + 1 && Counted(req, st, st.index, 0)
  }

  /** A decision about the current group is pending, `logged` steps into it. */
  ghost predicate Acting(req: Request, st: State, logged: nat) {
    Running(req, st) && st.pending.Some? && st.pending.value.group == st.groups[st.index].id && st.model.Some? &&
    |st.steps| == 3 * st.index + 1 + logged && Counted(req, st, st.index + 1, 0)
  }

  /** The run is over: every group is accounted for unless its documentation search came back empty. */
  ghost predicate Settled(req: Request, st: State) {
    st.groups == req.groups && st.overflow == req.overflow && st.index <= |st.groups| &&
    (st.reason.None? ==> st.index == |st.groups| && st.overflow == []) &&
    DraftOf(st.groups, |st.groups|, st.draft) && LogOf(st, |st.groups|) && AccountOf(st, |st.groups|) &&
      OverflowToHuman(st) &&
    |st.steps| <= req.limits.maxSteps && |st.steps| <= 3 * |st.groups| + 1 &&
    (exists r, missing :: Counted(req, st, r, missing) && st.toolCalls <= r &&
       (missing == 0 || (missing == 1 && st.reason == Some(AgentTimeout)))) &&
    (st.reason == Some(StepLimit) ==> req.limits.maxSteps < 3 * |st.groups| + 1) &&
    (st.reason == Some(ToolCallLimit) ==> req.limits.maxToolCalls < |st.groups|)
  }

  /** The invariant of the graph run. */
  ghost predicate Inv(req: Request, c: Config) {
    match c.node
    case Prepare => c.state == INITIAL_STATE
    case LlmDecide => Deciding(req, c.state)
    case ValidateAction =>
      if c.state.finished then Settled(req, c.state) else Acting(req, c.state, 1)
    case ExecuteTool =>
      Acting(req, c.state, 2) && c.state.pending.value.CallTool? && c.state.toolCalls < req.limits.maxToolCalls
    case CompleteGroup => Acting(req, c.state, 2) && !c.state.pending.value.CallTool?
    case Finalize => Settled(req, c.state)
    case End => Settled(req, c.state) && c.state.finished
  }

  // ----- drafts -----

  lemma {:induction false} HumanGroupsAdded(d: Draft, groups: seq<Group>, reason: Reason)
    ensures var r := AddHumanGroups(d, groups, reason);
            r.explanations == d.explanations && r.candidates == d.candidates &&
            (forall x :: x in d.human ==> x in r.human) &&
            (forall x :: x in r.human ==>
               x in d.human || (exists i ::
                                0 <= i < |groups| &&
                                x == HumanItem(Some(groups[i].id), groups[i].findings, reason))) &&
            (forall i :: 0 <= i < |groups| ==> HumanItem(Some(groups[i].id), groups[i].findings, reason) in r.human)
    decreases groups
  {
    if groups != [] {
      var item := HumanItem(Some(groups[0].id), groups[0].findings, reason);
      var d1 := AddHuman(d, item);
      assert item in d1.human && forall x :: x in d1.human ==> x in d.human || x == item;
      HumanGroupsAdded(d1, groups[1..], reason);
      var r := AddHumanGroups(d, groups, reason);
      forall x | x in r.human && x !in d.human
        ensures exists i :: 0 <= i < |groups| && x == HumanItem(Some(groups[i].id), groups[i].findings, reason)
      {
        if x == item {
          assert x == HumanItem(Some(groups[0].id), groups[0].findings, reason);
        } else {
          var i :| 0 <= i < |groups[1..]| && x == HumanItem(Some(groups[1..][i].id), groups[1..][i].findings, reason);
          assert groups[i + 1] == groups[1..][i];
        }
      }
      forall i | 0 <= i < |groups|
        ensures HumanItem(Some(groups[i].id), groups[i].findings, reason) in r.human
      {
        if i > 0 { assert groups[i] == groups[1..][i - 1]; }
      }
    }
  }

  lemma {:induction false} HumanFindingsAdded(d: Draft, ids: seq<Id>, reason: Reason)
    ensures var r := AddHumanFindings(d, ids, reason);
            r.explanations == d.explanations && r.candidates == d.candidates &&
            (forall x :: x in d.human ==> x in r.human) &&
            (forall x :: x in r.human ==> x in d.human || (x.group.None? && x.reason == reason)) &&
            (forall id :: id in ids ==> exists x :: x in r.human && id in x.findings)
    decreases |ids|
  {
    if ids != [] {
      var n := if |ids| < MAX_FINDINGS_PER_ITEM then |ids| else MAX_FINDINGS_PER_ITEM;
      var item := HumanItem(None, ids[..n], reason);
      var d1 := AddHuman(d, item);
      assert item in d1.human;
      HumanFindingsAdded(d1, ids[n..], reason);
      var r := AddHumanFindings(d, ids, reason);
      assert ids == ids[..n] + ids[n..];
      forall id | id in ids
        ensures exists x :: x in r.human && id in x.findings
      {
        if id in ids[..n] { assert item in r.human && id in item.findings; }
      }
    }
  }

  lemma {:induction false} CandidatesAdded(d: Draft, g: Group, chunks: seq<Id>)
    ensures var r := AddCandidates(d, g, chunks);
            r.explanations == d.explanations && r.human == d.human &&
            (forall x :: x in d.candidates ==> x in r.candidates) &&
            (forall x :: x in r.candidates ==> x in d.candidates || (x.group == g.id && x.findings == g.findings)) &&
            (chunks != [] && (forall x :: x in d.candidates ==> x.group == g.id ==> x.findings == g.findings) ==>
             Cited(r, g))
    decreases chunks
  {
    if chunks != [] {
      var c := DocCandidate(g.id, g.findings, chunks[0]);
      var d1 := AddCandidate(d, c);
      CandidatesAdded(d1, g, chunks[1..]);
      var r := AddCandidates(d, g, chunks);
      if d1 == d {
        if exists k :: 0 <= k < |d.candidates| && d.candidates[k].group == c.group && d.candidates[k].chunk == c.chunk {
          var k :| 0 <= k < |d.candidates| && d.candidates[k].group == c.group && d.candidates[k].chunk == c.chunk;
          assert d.candidates[k] in r.candidates;
        }
      } else {
        assert d1.candidates[|d.candidates|] == c && c in d1.candidates;
      }
    }
  }

  lemma {:induction false} ChunksRetrieved(retrieved: seq<Id>, chunks: seq<Id>)
    requires NoDuplicates(chunks)
    ensures var more := NewChunks(retrieved, chunks);
            |more| <= |chunks| && NoDuplicates(more) &&
            (forall c :: c in more ==> c in chunks && c !in retrieved) &&
            (forall c :: c in chunks ==> c in retrieved || c in more)
  {
    if chunks != [] {
      ChunksRetrieved(retrieved, chunks[1..]);
      assert forall c :: c in chunks[1..] ==> c != chunks[0];
      assert chunks == [chunks[0]] + chunks[1..];
    }
  }

  // ----- what a change to the draft means for the other groups -----

  /** Apart from items that name a group in `ids`, `r` holds what `d` holds. */
  ghost predicate OnlyAdds(d: Draft, r: Draft, ids: set<Id>) {
    (forall x :: x in r.explanations && x.group !in ids ==> x in d.explanations) &&
    (forall x :: x in r.candidates && x.group !in ids ==> x in d.candidates) &&
    (forall x :: x in r.human && x.group.Some? && x.group.value !in ids ==> x in d.human) &&
    (forall x :: x in d.explanations ==> x in r.explanations) &&
    (forall x :: x in d.candidates ==> x in r.candidates) &&
    (forall x :: x in d.human ==> x in r.human)
  }

  lemma OthersSame(d: Draft, r: Draft, ids: set<Id>, g: Group)
    requires OnlyAdds(d, r, ids) && g.id !in ids
    ensures Accounted(r, g) <==> Accounted(d, g)
  {
    assert Explained(r, g) <==> Explained(d, g);
    assert Cited(r, g) <==> Cited(d, g);
    assert ToHuman(r, g) <==> ToHuman(d, g);
  }

  lemma KnownGrows(groups: seq<Group>, k: nat, l: nat, gid: Id, findings: seq<Id>)
    requires k <= l <= |groups| && Known(groups, k, gid, findings)
    ensures Known(groups, l, gid, findings)
  {}

  lemma KnownOne(groups: seq<Group>, k: nat, i: nat)
    requires i < k <= |groups|
    ensures Known(groups, k, groups[i].id, groups[i].findings)
  {}

  lemma DraftGrows(groups: seq<Group>, k: nat, l: nat, d: Draft)
    requires k <= l <= |groups| && DraftOf(groups, k, d)
    ensures DraftOf(groups, l, d)
  {
    hide Known;
    forall x | x in d.explanations
      ensures Known(groups, l, x.group, x.findings)
    {
      KnownGrows(groups, k, l, x.group, x.findings);
    }
    forall x | x in d.candidates
      ensures Known(groups, l, x.group, x.findings)
    {
      KnownGrows(groups, k, l, x.group, x.findings);
    }
    forall x | x in d.human && x.group.Some?
      ensures Known(groups, l, x.group.value, x.findings)
    {
      KnownGrows(groups, k, l, x.group.value, x.findings);
    }
  }

  /** A group not yet reached has no trace. */
  lemma NotReached(groups: seq<Group>, k: nat, d: Draft, i: nat)
    requires k <= i < |groups| && DraftOf(groups, k, d)
    requires forall a, b :: 0 <= a < b < |groups| ==> groups[a].id != groups[b].id
    ensures !Accounted(d, groups[i])
    ensures forall x :: x in d.candidates ==> x.group != groups[i].id
  {
    forall x | x in d.explanations
      ensures x.group != groups[i].id
    {
      KnownIsOther(groups, k, i, x.group, x.findings);
    }
    forall x | x in d.candidates
      ensures x.group != groups[i].id
    {
      KnownIsOther(groups, k, i, x.group, x.findings);
    }
    forall x | x in d.human
      ensures x.group != Some(groups[i].id)
    {
      if x.group.Some? { KnownIsOther(groups, k, i, x.group.value, x.findings); }
    }
  }

  lemma KnownIsOther(groups: seq<Group>, k: nat, i: nat, gid: Id, findings: seq<Id>)
    requires k <= i < |groups| && Known(groups, k, gid, findings)
    requires forall a, b :: 0 <= a < b < |groups| ==> groups[a].id != groups[b].id
    ensures gid != groups[i].id
  {}

  // ----- degradation -----

  ghost predicate DistinctIds(groups: seq<Group>) {
    forall i, j :: 0 <= i < j < |groups| ==> groups[i].id != groups[j].id
  }

  /** The ids of the groups from `k` on. */
  ghost function IdsFrom(groups: seq<Group>, k: nat): set<Id>
    requires k <= |groups|
  {
    set i | k <= i < |groups| :: groups[i].id
  }

  lemma RestToHuman(d: Draft, groups: seq<Group>, k: nat, reason: Reason)
    requires k <= |groups| && DraftOf(groups, k, d)
    ensures var r := AddHumanGroups(d, groups[k..], reason);
            OnlyAdds(d, r, IdsFrom(groups, k)) && DraftOf(groups, |groups|, r) &&
            (forall i :: k <= i < |groups| ==> ToHuman(r, groups[i])) && (forall x :: x in d.human ==> x in r.human)
  {
    var rest := groups[k..];
    var r := AddHumanGroups(d, rest, reason);
    HumanGroupsAdded(d, rest, reason);
    DraftGrows(groups, k, |groups|, d);
    forall x | x in r.human && x !in d.human
      ensures x.group.Some? && x.group.value in IdsFrom(groups, k) && Known(groups, |groups|, x.group.value, x.findings)
    {
      var i :| 0 <= i < |rest| && x == HumanItem(Some(rest[i].id), rest[i].findings, reason);
      assert rest[i] == groups[k + i];
      KnownOne(groups, |groups|, k + i);
    }
    forall i | k <= i < |groups|
      ensures ToHuman(r, groups[i])
    {
      assert rest[i - k] == groups[i];
      assert HumanItem(Some(rest[i - k].id), rest[i - k].findings, reason) in r.human;
    }
  }

  /** Degrading keeps the account of the groups done and sends all others to human review. */
  lemma DegradeAccounts(st: State, reason: Reason, r: State)
    requires st.index <= |st.groups| && DistinctIds(st.groups)
    requires DraftOf(st.groups, st.index, st.draft) && AccountOf(st, st.index) && OverflowToHuman(st)
    requires r.groups == st.groups && r.index == st.index && r.bindings == st.bindings && r.overflow == st.overflow
    requires r.draft == Degrade(st, reason).draft
    requires forall i :: 0 <= i < st.index ==> (EmptySearch(r, i) <==> EmptySearch(st, i))
    ensures DraftOf(r.groups, |r.groups|, r.draft) && AccountOf(r, |r.groups|) && OverflowToHuman(r)
  {
    hide Accounted, DraftOf, OnlyAdds, ToHuman;
    var k := st.index;
    RestToHuman(st.draft, st.groups, k, reason);
    forall i | 0 <= i < |r.groups|
      ensures Accounted(r.draft, r.groups[i]) <==> !EmptySearch(r, i)
    {
      if i < k {
        OthersSame(st.draft, r.draft, IdsFrom(st.groups, k), st.groups[i]);
      } else {
        HumanAccounts(r.draft, r.groups[i]);
      }
    }
  }

  lemma HumanAccounts(d: Draft, g: Group)
    requires ToHuman(d, g)
    ensures Accounted(d, g)
  {}

  // ----- the nodes keep the invariant -----

  /** Extending the log by a step of another node, or of group `k` itself, keeps it. */
  lemma LogGrows(st: State, k: nat, r: State, l: nat)
    requires k <= l <= |st.groups| && LogOf(st, k)
    requires r.groups == st.groups && r.bindings == st.bindings && r.retrieved == st.retrieved
    requires st.toolCalls <= r.toolCalls <= l && |r.errors| <= MAX_ERRORS
    requires forall s :: s in r.steps && s.node == ExecuteTool ==>
      s in st.steps || (k < l && s.group == Some(st.groups[k].id))
    ensures LogOf(r, l)
  {
    hide Known;
    forall b | b in r.bindings
      ensures Known(r.groups, l, b.group, b.findings)
    {
      KnownGrows(st.groups, k, l, b.group, b.findings);
    }
    forall s | s in r.steps && s.node == ExecuteTool
      ensures exists i :: 0 <= i < l && s.group == Some(r.groups[i].id)
    {
      if s in st.steps {
        var i :| 0 <= i < k && s.group == Some(st.groups[i].id);
        assert i < l && s.group == Some(r.groups[i].id);
      }
    }
  }

  /** Logging a step of group `k` changes no search record of an earlier group. */
  lemma SearchesKept(st: State, r: State, k: nat)
    requires k < |st.groups| && DistinctIds(st.groups) && r.groups == st.groups && r.bindings == st.bindings
    requires r.index >= k && st.index >= k
    requires forall s :: s in r.steps ==> s in st.steps || s.group == Some(st.groups[k].id)
    requires forall s :: s in st.steps ==> s in r.steps
    ensures forall i :: 0 <= i < k ==> (EmptySearch(r, i) <==> EmptySearch(st, i))
  {
    forall i | 0 <= i < k
      ensures EmptySearch(r, i) <==> EmptySearch(st, i)
    {
      assert st.groups[i].id != st.groups[k].id;
    }
  }

  /** The draft after the overflow went to human review names no group. */
  lemma OverflowDraft(req: Request) returns (d: Draft)
    ensures d == if req.overflow == [] then EMPTY_DRAFT else AddHumanFindings(EMPTY_DRAFT, req.overflow, GroupLimit)
    ensures DraftOf(req.groups, 0, d)
    ensures forall id :: id in req.overflow ==> exists x :: x in d.human && id in x.findings
  {
    d := if req.overflow == [] then EMPTY_DRAFT else AddHumanFindings(EMPTY_DRAFT, req.overflow, GroupLimit);
    HumanFindingsAdded(EMPTY_DRAFT, req.overflow, GroupLimit);
  }

  /** With nothing to review, or no model to review it, the preparation settles the run. */
  lemma PreparedSettles(req: Request, r: State, d: Draft)
    requires WellPrepared(req) && DraftOf(req.groups, 0, d)
    requires forall id :: id in req.overflow ==> exists x :: x in d.human && id in x.findings
    requires r == INITIAL_STATE.(groups := req.groups, overflow := req.overflow, steps := r.steps, draft := r.draft,
                                 reason := r.reason, finished := true)
    requires r.steps == [Step(Prepare, None, None)]
    requires req.groups == [] ==> r.draft == d && r.reason == (if req.overflow == [] then None else Some(GroupLimit))
    requires req.groups != [] ==>
      r.reason in {Some(ReviewDisabled), Some(NoModel)} && r.draft == AddHumanGroups(d, req.groups, r.reason.value)
    ensures Settled(req, r)
  {
    hide AddHumanGroups, Known, DraftOf, Flat, Accounted;
    if req.groups != [] {
      assert req.groups[0..] == req.groups;
      RestToHuman(d, req.groups, 0, r.reason.value);
      forall i | 0 <= i < |req.groups|
        ensures Accounted(r.draft, r.groups[i]) && !EmptySearch(r, i)
      {
        HumanAccounts(r.draft, r.groups[i]);
      }
    }
    NothingReviewed(req, r);
  }

  lemma NothingReviewed(req: Request, r: State)
    requires r.reviewed == [] && r.llmCalls == 0 && r.retries == 0
    ensures Counted(req, r, 0, 0)
  {}

  lemma PrepareKeeps(w: World, req: Request)
    requires WellPrepared(req)
    ensures Visit(w, req, START).Ok? && Inv(req, Visit(w, req, START).value)
  {
    hide AddHumanGroups, AddHumanFindings, Known, DraftOf, Flat, Accounted, Settled, Counted;
    var d := OverflowDraft(req);
    var r := PrepareNode(req, INITIAL_STATE);
    if r.finished {
      PreparedSettles(req, r, d);
    } else {
      NothingReviewed(req, r);
    }
  }

  /** Ending a running state by degradation settles it. */
  lemma DegradeSettles(req: Request, st: State, reason: Reason, r: State, n: nat, missing: nat)
    requires WellPrepared(req) && Running(req, st) && reason !in {GroupLimit}
    requires r == Degrade(st, reason).(steps := r.steps, errors := r.errors, looks := r.looks, reviewed := r.reviewed,
                                       llmCalls := r.llmCalls, retries := r.retries, toolCalls := r.toolCalls)
    requires r.steps == st.steps ||
      (|r.steps| > 0 && r.steps == st.steps + [r.steps[|r.steps| - 1]] &&
       r.steps[|r.steps| - 1].group == Some(st.groups[st.index].id))
    requires |r.steps| <= req.limits.maxSteps && |r.steps| <= 3 * |st.groups| + 1 && |r.errors| <= MAX_ERRORS
    requires Counted(req, r, n, missing) && (missing == 0 || (missing == 1 && reason == AgentTimeout))
    requires st.toolCalls <= r.toolCalls <= n
    requires reason == StepLimit ==> req.limits.maxSteps < 3 * |st.groups| + 1
    requires reason == ToolCallLimit ==> req.limits.maxToolCalls < |st.groups|
    ensures Settled(req, r) && r.finished
  {
    hide DraftOf, Accounted, Known, OverflowToHuman, Counted, AddHumanGroups;
    var k := st.index;
    assert DistinctIds(st.groups);
    SearchesKept(st, r, k);
    DegradeAccounts(st, reason, r);
    assert n <= |st.groups| by { CountedBound(req, r, n, missing); }
    LogGrows(st, k, r, |st.groups|);
    assert r.reason == Some(reason);
  }

  lemma CountedBound(req: Request, st: State, n: nat, missing: nat)
    requires Counted(req, st, n, missing)
    ensures n <= |st.groups|
  {}

  // ----- reviewed findings -----

  lemma {:induction false} FlatPrefix(groups: seq<Group>, k: nat)
    requires k <= |groups|
    ensures Flat(groups[..k]) <= Flat(groups)
  {
    if k == |groups| {
      assert groups[..k] == groups;
    } else {
      FlatPrefix(groups[..|groups| - 1], k);
      assert groups[..|groups| - 1][..k] == groups[..k];
    }
  }

  lemma FlatNext(groups: seq<Group>, k: nat)
    requires k < |groups|
    ensures Flat(groups[..k + 1]) == Flat(groups[..k]) + groups[k].findings
  {
    assert groups[..k + 1][..k] == groups[..k];
  }

  /** No finding of group `k` was reviewed before: the internal error is unreachable. */
  lemma NotReviewedYet(groups: seq<Group>, k: nat)
    requires k < |groups| && NoDuplicates(Flat(groups))
    ensures forall j :: 0 <= j < |groups[k].findings| ==> groups[k].findings[j] !in Flat(groups[..k])
  {
    FlatPrefix(groups, k + 1);
    FlatNext(groups, k);
    var all, before := Flat(groups), Flat(groups[..k]);
    hide Flat;
    forall j | 0 <= j < |groups[k].findings|
      ensures groups[k].findings[j] !in before
    {
      forall i | 0 <= i < |before|
        ensures before[i] != groups[k].findings[j]
      {
        assert Flat(groups[..k + 1])[i] == before[i] && Flat(groups[..k + 1])[|before| + j] == groups[k].findings[j];
        assert all[i] == Flat(groups[..k + 1])[i] && all[|before| + j] == Flat(groups[..k + 1])[|before| + j];
      }
    }
  }

  // ----- one lemma a node -----

  lemma LlmDecideKeeps(w: World, req: Request, st: State)
    requires WellPrepared(req) && Deciding(req, st)
    ensures Visit(w, req, Config(LlmDecide, st)).Ok?
    ensures Inv(req, Visit(w, req, Config(LlmDecide, st)).value)
  {
    hide DraftOf, LogOf, AccountOf, OverflowToHuman, AppendError, Attempts, Flat, Degrade;
    var k := st.index;
    var g := st.groups[k];
    NotReviewedYet(st.groups, k);
    FlatNext(st.groups, k);
    ErrorsBounded(st, k);
    var steps := BeginStep(req.limits, st, LlmDecide, None);
    if steps.None? {
      var r := Degrade(st, StepLimit).(errors := LimitError(st, LlmDecide));
      DegradeKeepsCounters(st, StepLimit);
      assert Counted(req, r, k, 0);
      DegradeSettles(req, st, StepLimit, r, k, 0);
    } else {
      var a := Attempts(w, req.limits, g.id, 0, Tries(st.looks, st.llmCalls, st.retries, st.errors));
      assert req.limits.maxRetries * (k + 1) == req.limits.maxRetries * k + req.limits.maxRetries;
      if a.GaveUp? {
        var r := Degrade(st, a.reason).(steps := steps.value, reviewed := st.reviewed + g.findings,
                                        looks := a.tries.looks,
                                        llmCalls := a.tries.calls, retries := a.tries.retries,
                                          errors := a.tries.errors);
        DegradeKeepsCounters(st, a.reason);
        var missing := if a.reason == AgentTimeout then 1 else 0;
        assert Counted(req, r, k + 1, missing);
        DegradeSettles(req, st, a.reason, r, k + 1, missing);
      } else {
        var r := LlmDecideNode(w, req, st).value;
        KeepRunning(st, r, k);
      }
    }
  }

  lemma ErrorsBounded(st: State, k: nat)
    requires k <= |st.groups| && LogOf(st, k)
    ensures |st.errors| <= MAX_ERRORS && st.toolCalls <= k
  {}

  lemma DegradeKeepsCounters(st: State, reason: Reason)
    ensures var r := Degrade(st, reason);
            r.groups == st.groups && r.reviewed == st.reviewed && r.llmCalls == st.llmCalls &&
              r.retries == st.retries &&
            r.toolCalls == st.toolCalls && r.steps == st.steps && r.index == st.index && r.finished
  {}

  /** Logging a step that is no tool step, and changing counters, keeps the account of the first `k` groups. */
  lemma KeepRunning(st: State, r: State, k: nat)
    requires k < |st.groups| && st.index == k && DistinctIds(st.groups)
    requires LogOf(st, k) && AccountOf(st, k) && DraftOf(st.groups, k, st.draft) && OverflowToHuman(st)
    requires r.groups == st.groups && r.overflow == st.overflow && r.index == k && r.draft == st.draft &&
      r.bindings == st.bindings
    requires r.retrieved == st.retrieved && r.toolCalls == st.toolCalls && |r.errors| <= MAX_ERRORS
    requires |r.steps| > 0 && r.steps == st.steps + [r.steps[|r.steps| - 1]]
    requires r.steps[|r.steps| - 1].node != ExecuteTool && r.steps[|r.steps| - 1].group == Some(st.groups[k].id)
    ensures LogOf(r, k) && AccountOf(r, k) && DraftOf(r.groups, k, r.draft) && OverflowToHuman(r)
  {
    hide DraftOf, Accounted, Known;
    SearchesKept(st, r, k);
    LogGrows(st, k, r, k);
  }

  /** The four ways through the validation node. */
  lemma ValidateCases(w: World, req: Request, st: State)
    requires !st.finished && st.pending.Some? && st.index < |st.groups|
    ensures var r, steps := ValidateActionNode(w, req, st),
      st.steps + [Step(ValidateAction, Some(st.groups[st.index].id), None)];
            if |st.steps| >= req.limits.maxSteps then r ==
            Degrade(st, StepLimit).(errors := LimitError(st, ValidateAction))
            else if w.expired(st.looks)
            then r == Degrade(st.(steps := steps, looks := st.looks + 1),
                              AgentTimeout).(errors := LimitError(st, ValidateAction))
            else if st.pending.value.CallTool? && st.toolCalls >= req.limits.maxToolCalls
            then r == Degrade(st.(steps := steps, looks := st.looks + 1),
                              ToolCallLimit).(errors := LimitError(st, ValidateAction))
            else r == st.(steps := steps, looks := st.looks + 1)
  {
    hide Degrade, LimitError;
  }

  lemma ValidateDegrades(req: Request, st: State, st': State, reason: Reason, r: State)
    requires WellPrepared(req) && Acting(req, st, 1)
    requires reason in {StepLimit, AgentTimeout, ToolCallLimit} &&
      r == Degrade(st', reason).(errors := LimitError(st, ValidateAction))
    requires reason == StepLimit ==> st' == st && |st.steps| >= req.limits.maxSteps
    requires reason == ToolCallLimit ==> st.toolCalls >= req.limits.maxToolCalls
    requires reason != StepLimit ==>
      |st.steps| < req.limits.maxSteps &&
      st' == st.(steps := st.steps + [Step(ValidateAction, Some(st.groups[st.index].id), None)], looks := st.looks + 1)
    ensures Settled(req, r) && r.finished
  {
    hide DraftOf, LogOf, AccountOf, OverflowToHuman, AppendError, Flat, Degrade;
    var k := st.index;
    ErrorsBounded(st, k);
    DegradeKeepsCounters(st', reason);
    if reason != StepLimit { KeepRunning(st, st', k); }
    assert Counted(req, r, k + 1, 0);
    hide Counted;
    DegradeSettles(req, st', reason, r, k + 1, 0);
  }

  lemma ValidateActionKeeps(w: World, req: Request, st: State)
    requires WellPrepared(req) && Inv(req, Config(ValidateAction, st))
    ensures Visit(w, req, Config(ValidateAction, st)).Ok?
    ensures Inv(req, Visit(w, req, Config(ValidateAction, st)).value)
  {
    hide DraftOf, LogOf, AccountOf, OverflowToHuman, Flat, Degrade, Settled, Counted, LimitError;
    var r := ValidateActionNode(w, req, st);
    if st.finished {
      SettledWithoutPending(req, st, r);
    } else {
      ValidateCases(w, req, st);
      hide ValidateActionNode;
      var steps := st.steps + [Step(ValidateAction, Some(st.groups[st.index].id), None)];
      var st' := st.(steps := steps, looks := st.looks + 1);
      if |st.steps| >= req.limits.maxSteps {
        ValidateDegrades(req, st, st, StepLimit, r);
      } else if w.expired(st.looks) {
        ValidateDegrades(req, st, st', AgentTimeout, r);
      } else if st.pending.value.CallTool? && st.toolCalls >= req.limits.maxToolCalls {
        ValidateDegrades(req, st, st', ToolCallLimit, r);
      } else {
        ErrorsBounded(st, st.index);
        KeepRunning(st, r, st.index);
        CountersSame(req, st, r, st.index + 1, 0);
      }
    }
  }

  lemma CountersSame(req: Request, st: State, r: State, n: nat, missing: nat)
    requires Counted(req, st, n, missing) && r.groups == st.groups && r.reviewed == st.reviewed
    requires r.llmCalls == st.llmCalls && r.retries == st.retries
    ensures Counted(req, r, n, missing)
  {}

  lemma SettledWithoutPending(req: Request, st: State, r: State)
    requires Settled(req, st) && r == st.(pending := r.pending, model := r.model, finished := r.finished)
    ensures Settled(req, r)
  {
    hide DraftOf, LogOf, Accounted, Flat;
    var n, missing :| Counted(req, st, n, missing) && st.toolCalls <= n &&
      (missing == 0 || (missing == 1 && st.reason == Some(AgentTimeout)));
    assert Counted(req, r, n, missing);
    assert LogOf(r, |r.groups|) by { SameLog(st, r, |r.groups|); }
    forall i | 0 <= i < |r.groups|
      ensures EmptySearch(r, i) <==> EmptySearch(st, i)
    {}
  }

  lemma SameLog(st: State, r: State, k: nat)
    requires k <= |st.groups| && LogOf(st, k)
    requires r == st.(pending := r.pending, model := r.model, finished := r.finished)
    ensures LogOf(r, k)
  {}

  /** Whatever follows a finished group: the next decision, or the end. */
  lemma AfterGroup(req: Request, r: State)
    requires WellPrepared(req) && r.groups == req.groups && r.overflow == req.overflow && 0 < r.index <= |r.groups| &&
      !r.finished
    requires (r.reason == None || r.reason == Some(GroupLimit)) && (r.reason.Some? <==> r.overflow != [])
    requires req.hasClient && req.llmReview && r.pending.None?
    requires DraftOf(r.groups, r.index, r.draft) && LogOf(r, r.index) && AccountOf(r, r.index) && OverflowToHuman(r)
    requires |r.steps| <= req.limits.maxSteps && |r.steps| == 3 * r.index + 1 && Counted(req, r, r.index, 0)
    ensures Inv(req, Config(RouteAfterGroup(r), r))
  {
    hide DraftOf, LogOf, AccountOf, OverflowToHuman, Flat;
    if r.index == |r.groups| {
      ErrorsBounded(r, r.index);
    }
  }

  /** Finishing group `k` with a step of its own and a draft that only adds to it. */
  lemma GroupFinished(req: Request, st: State, r: State, k: nat)
    requires WellPrepared(req) && Running(req, st) && st.index == k && r.index == k + 1 && r.groups == st.groups &&
      r.overflow == st.overflow
    requires OnlyAdds(st.draft, r.draft, {st.groups[k].id}) && DraftOf(st.groups, k + 1, r.draft)
    requires forall i :: 0 <= i < k ==> (EmptySearch(r, i) <==> EmptySearch(st, i))
    requires Accounted(r.draft, st.groups[k]) <==> !EmptySearch(r, k)
    ensures AccountOf(r, k + 1) && OverflowToHuman(r)
  {
    hide DraftOf, LogOf, Accounted;
    forall i | 0 <= i < k + 1
      ensures Accounted(r.draft, r.groups[i]) <==> !EmptySearch(r, i)
    {
      if i < k {
        assert st.groups[i].id != st.groups[k].id;
        OthersSame(st.draft, r.draft, {st.groups[k].id}, st.groups[i]);
      }
    }
    hide OnlyAdds;
    OverflowKept(st, r);
  }

  lemma OverflowKept(st: State, r: State)
    requires OverflowToHuman(st) && r.overflow == st.overflow && forall x :: x in st.draft.human ==> x in r.draft.human
    ensures OverflowToHuman(r)
  {}

  ghost predicate ReadyToAct(req: Request, st: State) {
    WellPrepared(req) && Acting(req, st, 2)
  }

  /** Acting on group `k` out of steps ends the run at the step limit. */
  lemma NoStepLeft(req: Request, st: State, node: Node, r: State)
    requires ReadyToAct(req, st) && |st.steps| >= req.limits.maxSteps
    requires r == Degrade(st, StepLimit).(errors := LimitError(st, node))
    ensures Settled(req, r) && r.finished
  {
    hide DraftOf, LogOf, AccountOf, OverflowToHuman, AppendError, Flat, Degrade;
    ErrorsBounded(st, st.index);
    DegradeKeepsCounters(st, StepLimit);
    CountersSame(req, st, r, st.index + 1, 0);
    hide Counted;
    DegradeSettles(req, st, StepLimit, r, st.index + 1, 0);
  }

  /** A failed tool ends the run. */
  lemma ToolFails(req: Request, st: State, r: State, tool: Tool)
    requires ReadyToAct(req, st) && |st.steps| < req.limits.maxSteps
    requires var g := st.groups[st.index];
             var st' := st.(steps := st.steps + [Step(ExecuteTool, Some(g.id), Some(tool))],
                            toolCalls := st.toolCalls + 1);
             r == Degrade(st', ToolError).(errors := AppendError(st.errors, Step(ExecuteTool, Some(g.id), None)))
    ensures Settled(req, r) && r.finished
  {
    hide DraftOf, LogOf, AccountOf, OverflowToHuman, AppendError, Flat, Degrade;
    var g := st.groups[st.index];
    var st' := st.(steps := st.steps + [Step(ExecuteTool, Some(g.id), Some(tool))], toolCalls := st.toolCalls + 1);
    ErrorsBounded(st, st.index);
    DegradeKeepsCounters(st', ToolError);
    DegradeSame(st, st', ToolError);
    CountersSame(req, st, r, st.index + 1, 0);
    hide Counted;
    DegradeSettles(req, st, ToolError, r, st.index + 1, 0);
  }

  /** Degrading reads only the draft, the groups, the index and the reason. */
  lemma DegradeSame(st: State, st': State, reason: Reason)
    requires st' == st.(steps := st'.steps, toolCalls := st'.toolCalls)
    ensures Degrade(st', reason) == Degrade(st, reason).(steps := st'.steps, toolCalls := st'.toolCalls)
  {}

  /** Which groups have a tool step in the log. */
  lemma NoToolStepYet(st: State, k: nat)
    requires k < |st.groups| && LogOf(st, k) && DistinctIds(st.groups)
    ensures forall s :: s in st.steps && s.node == ExecuteTool ==> s.group != Some(st.groups[k].id)
    ensures forall b :: b in st.bindings ==> b.group != st.groups[k].id
  {
    forall b | b in st.bindings
      ensures b.group != st.groups[k].id
    {
      KnownIsOther(st.groups, k, k, b.group, b.findings);
    }
  }

  /** A group finished without a tool: explained, or handed to a human. */
  lemma CompletionAccounts(req: Request, st: State, r: State)
    requires ReadyToAct(req, st) && r.groups == st.groups && r.overflow == st.overflow && r.index == st.index + 1
    requires r.steps == st.steps + [Step(CompleteGroup, Some(st.groups[st.index].id), None)]
    requires r.bindings == st.bindings && r.retrieved == st.retrieved && r.toolCalls == st.toolCalls &&
      r.errors == st.errors
    requires var g := st.groups[st.index];
             (exists x: Explanation :: x.group == g.id && x.findings == g.findings &&
                r.draft == st.draft.(explanations := st.draft.explanations + [x])) ||
             (exists reason :: r.draft == AddHuman(st.draft, HumanItem(Some(g.id), g.findings, reason)))
    ensures DraftOf(r.groups, r.index, r.draft) && LogOf(r, r.index) && AccountOf(r, r.index) && OverflowToHuman(r)
  {
    hide Known, Counted, AccountOf;
    var k := st.index;
    var g := st.groups[k];
    ErrorsBounded(st, k);
    NoToolStepYet(st, k);
    SearchesKept(st, r, k);
    LogGrows(st, k, r, k + 1);
    hide LogOf;
    DraftGrows(st.groups, k, k + 1, st.draft);
    KnownOne(st.groups, k + 1, k);
    assert OnlyAdds(st.draft, r.draft, {g.id}) && DraftOf(st.groups, k + 1, r.draft);
    assert Accounted(r.draft, g) by { LastItemAccounts(st.draft, r.draft, g); }
    assert !EmptySearch(r, k);
    hide Accounted, DraftOf, OnlyAdds;
    GroupFinished(req, st, r, k);
  }

  lemma LastItemAccounts(d: Draft, r: Draft, g: Group)
    requires (exists x: Explanation :: x.group == g.id && x.findings == g.findings &&
                r == d.(explanations := d.explanations + [x])) ||
             (exists reason :: r == AddHuman(d, HumanItem(Some(g.id), g.findings, reason)))
    ensures Accounted(r, g)
  {
    if exists x: Explanation :: x.group == g.id && x.findings == g.findings &&
         r == d.(explanations := d.explanations + [x])
    {
      var x: Explanation :| x.group == g.id && x.findings == g.findings &&
        r == d.(explanations := d.explanations + [x]);
      assert r.explanations[|d.explanations|] == x;
    } else {
      var reason :| r == AddHuman(d, HumanItem(Some(g.id), g.findings, reason));
      assert HumanItem(Some(g.id), g.findings, reason) in r.human;
    }
  }

  /** A group is about to be finished, with a step to do it, by an explanation under a padded model name. */
  ghost predicate Refused(req: Request, c: Config) {
    c.node == CompleteGroup && |c.state.steps| < req.limits.maxSteps &&
    c.state.pending.Some? && c.state.pending.value.FinishGroup? &&
    c.state.model.Some? && !Stripped(c.state.model.value)
  }

  /** Finishing a group raises exactly when its explanation is refused, and keeps the invariant otherwise. */
  lemma CompleteGroupKeeps(w: World, req: Request, st: State)
    requires WellPrepared(req) && Inv(req, Config(CompleteGroup, st))
    ensures var r := Visit(w, req, Config(CompleteGroup, st));
            if Refused(req, Config(CompleteGroup, st)) then r == Err(PaddedModelName) else r.Ok? && Inv(req, r.value)
  {
    hide DraftOf, LogOf, AccountOf, OverflowToHuman, Flat, Degrade, Settled, Counted, LimitError, Stripped;
    if Refused(req, Config(CompleteGroup, st)) { return; }
    var r := CompleteGroupNode(req, st).value;
    if |st.steps| >= req.limits.maxSteps {
      NoStepLeft(req, st, CompleteGroup, r);
    } else {
      CompletionAccounts(req, st, r);
      CountersSame(req, st, r, st.index + 1, 0);
      AfterGroup(req, r);
    }
  }

  /** A tool that is no search leaves an observation for a human. */
  lemma ObservationAccounts(req: Request, st: State, r: State)
    requires ReadyToAct(req, st) && r.groups == st.groups && r.overflow == st.overflow && r.index == st.index + 1
    requires r.steps == st.steps + [Step(ExecuteTool, Some(st.groups[st.index].id), Some(OtherTool))]
    requires r.bindings == st.bindings && r.retrieved == st.retrieved && r.toolCalls == st.toolCalls + 1 &&
      r.errors == st.errors
    requires var g := st.groups[st.index];
      r.draft ==
      AddHuman(st.draft, HumanItem(Some(g.id), g.findings, ToolObservation))
    ensures DraftOf(r.groups, r.index, r.draft) && LogOf(r, r.index) && AccountOf(r, r.index) && OverflowToHuman(r)
  {
    hide Known, Counted, AccountOf;
    var k := st.index;
    var g := st.groups[k];
    ErrorsBounded(st, k);
    NoToolStepYet(st, k);
    SearchesKept(st, r, k);
    LogGrows(st, k, r, k + 1);
    hide LogOf;
    DraftGrows(st.groups, k, k + 1, st.draft);
    KnownOne(st.groups, k + 1, k);
    assert OnlyAdds(st.draft, r.draft, {g.id}) && DraftOf(st.groups, k + 1, r.draft);
    assert Accounted(r.draft, g) by { LastItemAccounts(st.draft, r.draft, g); }
    assert !EmptySearch(r, k);
    hide Accounted, DraftOf, OnlyAdds;
    GroupFinished(req, st, r, k);
  }

  /** A search adds candidates, chunks and a binding, or nothing at all. */
  lemma SearchAccounts(req: Request, st: State, r: State, chunks: seq<Id>)
    requires ReadyToAct(req, st) && r.groups == st.groups && r.overflow == st.overflow && r.index == st.index + 1
    requires |chunks| <= 5 && NoDuplicates(chunks)
    requires r.steps == st.steps + [Step(ExecuteTool, Some(st.groups[st.index].id), Some(SearchDocs))]
    requires r.toolCalls == st.toolCalls + 1 && r.errors == st.errors
    requires r.retrieved == st.retrieved + NewChunks(st.retrieved, chunks)
    requires var g := st.groups[st.index];
             r.draft == AddCandidates(st.draft, g, chunks) &&
             r.bindings == (if chunks == [] then st.bindings else st.bindings + [Binding(g.id, g.findings, chunks)])
    ensures DraftOf(r.groups, r.index, r.draft) && LogOf(r, r.index) && AccountOf(r, r.index) && OverflowToHuman(r)
  {
    hide Known, Counted, AccountOf, LogOf, Accounted, AddCandidates, NewChunks;
    var k := st.index;
    var g := st.groups[k];
    ErrorsBounded(st, k);
    NoToolStepYet(st, k);
    SearchLog(st, r, k, chunks);
    NotReached(st.groups, k, st.draft, k);
    CandidatesOfGroup(st.groups, k, st.draft, chunks);
    hide DraftOf, OnlyAdds, Cited;
    SearchRecorded(st, r, k, chunks);
    if chunks != [] { CitedAccounts(r.draft, g); } else { NoCandidates(st.draft, g); }
    GroupFinished(req, st, r, k);
  }

  /** The candidates of a search name group `k` only, and cite it unless there are none. */
  lemma CandidatesOfGroup(groups: seq<Group>, k: nat, d: Draft, chunks: seq<Id>)
    requires k < |groups| && DraftOf(groups, k, d) && forall x :: x in d.candidates ==> x.group != groups[k].id
    ensures var r := AddCandidates(d, groups[k], chunks);
            OnlyAdds(d, r, {groups[k].id}) && DraftOf(groups, k + 1, r) && (chunks != [] ==> Cited(r, groups[k]))
  {
    hide Known, AddCandidates;
    CandidatesAdded(d, groups[k], chunks);
    DraftGrows(groups, k, k + 1, d);
    KnownOne(groups, k + 1, k);
  }

  lemma NoCandidates(d: Draft, g: Group)
    ensures AddCandidates(d, g, []) == d
  {}

  lemma CitedAccounts(d: Draft, g: Group)
    requires Cited(d, g)
    ensures Accounted(d, g)
  {}

  lemma SearchRecorded(st: State, r: State, k: nat, chunks: seq<Id>)
    requires k < |st.groups| && r.groups == st.groups && st.index == k && r.index == k + 1 && DistinctIds(st.groups)
    requires r.steps == st.steps + [Step(ExecuteTool, Some(st.groups[k].id), Some(SearchDocs))]
    requires forall b :: b in st.bindings ==> b.group != st.groups[k].id
    requires r.bindings == (if chunks == [] then st.bindings
                            else st.bindings + [Binding(st.groups[k].id, st.groups[k].findings, chunks)])
    ensures EmptySearch(r, k) <==> chunks == []
    ensures forall i :: 0 <= i < k ==> (EmptySearch(r, i) <==> EmptySearch(st, i))
  {
    assert r.steps[|st.steps|] == Step(ExecuteTool, Some(st.groups[k].id), Some(SearchDocs));
    if chunks != [] { assert r.bindings[|st.bindings|].group == st.groups[k].id; }
    forall i | 0 <= i < k
      ensures EmptySearch(r, i) <==> EmptySearch(st, i)
    {
      assert st.groups[i].id != st.groups[k].id;
      assert forall b :: b in st.bindings ==> b in r.bindings;
    }
  }

  lemma JoinDistinct(a: seq<Id>, b: seq<Id>)
    requires NoDuplicates(a) && NoDuplicates(b) && forall c :: c in b ==> c !in a
    ensures NoDuplicates(a + b)
  {
    forall i, j | 0 <= i < j < |a + b|
      ensures (a + b)[i] != (a + b)[j]
    {
      if i < |a| <= j { assert b[j - |a|] in b && a[i] in a; }
    }
  }

  lemma SearchLog(st: State, r: State, k: nat, chunks: seq<Id>)
    requires k < |st.groups| && r.groups == st.groups && LogOf(st, k) && DistinctIds(st.groups)
    requires |chunks| <= 5 && NoDuplicates(chunks)
    requires r.steps == st.steps + [Step(ExecuteTool, Some(st.groups[k].id), Some(SearchDocs))]
    requires r.toolCalls == st.toolCalls + 1 && r.errors == st.errors
    requires r.retrieved == st.retrieved + NewChunks(st.retrieved, chunks)
    requires r.bindings == (if chunks == [] then st.bindings
                            else st.bindings + [Binding(st.groups[k].id, st.groups[k].findings, chunks)])
    requires forall b :: b in st.bindings ==> b.group != st.groups[k].id
    ensures LogOf(r, k + 1)
  {
    hide NewChunks, Known;
    SearchSteps(st, r, k);
    SearchChunks(st, r, k, chunks);
    hide NoDuplicates;
    SearchBindings(st, r, k, chunks);
  }

  lemma SearchChunks(st: State, r: State, k: nat, chunks: seq<Id>)
    requires k <= |st.groups| && LogOf(st, k) && |chunks| <= 5 && NoDuplicates(chunks)
    requires r.retrieved == st.retrieved + NewChunks(st.retrieved, chunks)
    ensures NoDuplicates(r.retrieved) && |r.retrieved| <= 5 * (k + 1)
    ensures forall c :: c in st.retrieved || c in chunks ==> c in r.retrieved
  {
    hide Known, NewChunks;
    ChunksRetrieved(st.retrieved, chunks);
    JoinDistinct(st.retrieved, NewChunks(st.retrieved, chunks));
    hide NoDuplicates;
    assert |r.retrieved| <= 5 * k + 5;
  }

  ghost predicate BindingOf(groups: seq<Group>, k: nat, retrieved: seq<Id>, b: Binding)
    requires k <= |groups|
  {
    Known(groups, k, b.group, b.findings) && b.chunks != [] && forall c :: c in b.chunks ==> c in retrieved
  }

  lemma BindingLater(groups: seq<Group>, k: nat, retrieved: seq<Id>, later: seq<Id>, b: Binding)
    requires k < |groups| && BindingOf(groups, k, retrieved, b) && forall c :: c in retrieved ==> c in later
    ensures BindingOf(groups, k + 1, later, b)
  {
    hide Known;
    KnownGrows(groups, k, k + 1, b.group, b.findings);
  }

  lemma BindingNow(groups: seq<Group>, k: nat, later: seq<Id>, chunks: seq<Id>)
    requires k < |groups| && chunks != [] && forall c :: c in chunks ==> c in later
    ensures BindingOf(groups, k + 1, later, Binding(groups[k].id, groups[k].findings, chunks))
  {
    hide Known;
    KnownOne(groups, k + 1, k);
  }

  lemma SearchBindings(st: State, r: State, k: nat, chunks: seq<Id>)
    requires k < |st.groups| && r.groups == st.groups && LogOf(st, k)
    requires r.bindings == (if chunks == [] then st.bindings
                            else st.bindings + [Binding(st.groups[k].id, st.groups[k].findings, chunks)])
    requires forall b :: b in st.bindings ==> b.group != st.groups[k].id
    requires forall c :: c in st.retrieved || c in chunks ==> c in r.retrieved
    ensures forall b :: b in r.bindings ==> BindingOf(r.groups, k + 1, r.retrieved, b)
    ensures forall i, j :: 0 <= i < j < |r.bindings| ==> r.bindings[i].group != r.bindings[j].group
  {
    hide Known, NoDuplicates;
    assert forall b :: b in st.bindings ==> BindingOf(st.groups, k, st.retrieved, b);
    assert forall i, j :: 0 <= i < j < |st.bindings| ==> st.bindings[i].group != st.bindings[j].group;
    hide LogOf, BindingOf;
    forall i, j | 0 <= i < j < |r.bindings|
      ensures r.bindings[i].group != r.bindings[j].group
    {
      if j == |st.bindings| { assert r.bindings[i] in st.bindings; }
    }
    forall b | b in r.bindings
      ensures BindingOf(r.groups, k + 1, r.retrieved, b)
    {
      if b in st.bindings {
        assert BindingOf(st.groups, k, st.retrieved, b);
        BindingLater(st.groups, k, st.retrieved, r.retrieved, b);
      } else {
        BindingNow(st.groups, k, r.retrieved, chunks);
      }
    }
  }

  lemma SearchSteps(st: State, r: State, k: nat)
    requires k < |st.groups| && r.groups == st.groups && LogOf(st, k)
    requires r.steps == st.steps + [Step(ExecuteTool, Some(st.groups[k].id), Some(SearchDocs))]
    ensures forall s :: s in r.steps && s.node == ExecuteTool ==>
      exists i :: 0 <= i < k + 1 && s.group == Some(r.groups[i].id)
  {
    forall s | s in r.steps && s.node == ExecuteTool
      ensures exists i :: 0 <= i < k + 1 && s.group == Some(r.groups[i].id)
    {
      if s in st.steps {
        var i :| 0 <= i < k && s.group == Some(st.groups[i].id);
        assert i < k + 1 && s.group == Some(r.groups[i].id);
      } else {
        assert s.group == Some(r.groups[k].id);
      }
    }
  }

  lemma ExecuteToolKeeps(w: World, req: Request, st: State)
    requires WellPrepared(req) && w.Honest() && Inv(req, Config(ExecuteTool, st))
    ensures Visit(w, req, Config(ExecuteTool, st)).Ok?
    ensures Inv(req, Visit(w, req, Config(ExecuteTool, st)).value)
  {
    hide DraftOf, LogOf, AccountOf, OverflowToHuman, Flat, Degrade, Settled, Counted, LimitError, AppendError,
    AddCandidates, NewChunks;
    var r := ExecuteToolNode(w, req, st).value;
    var tool := st.pending.value.tool;
    if |st.steps| >= req.limits.maxSteps {
      NoStepLeft(req, st, ExecuteTool, r);
    } else if w.tool(st.toolCalls).ToolFailed? {
      ToolFails(req, st, r, tool);
    } else {
      if tool == SearchDocs {
        SearchAccounts(req, st, r, w.tool(st.toolCalls).chunks);
      } else {
        ObservationAccounts(req, st, r);
      }
      CountersSame(req, st, r, st.index + 1, 0);
      AfterGroup(req, r);
    }
  }

  /**
    Every visit keeps the invariant or raises, and it raises exactly when an explanation is refused for
    its model name: no internal error is reachable.
   */
  lemma VisitKeeps(w: World, req: Request, c: Config)
    requires WellPrepared(req) && w.Honest() && Inv(req, c)
    ensures var r := Visit(w, req, c);
            if Refused(req, c) then r == Err(PaddedModelName) else r.Ok? && Inv(req, r.value)
  {
    hide PrepareNode, LlmDecideNode, ValidateActionNode, ExecuteToolNode, CompleteGroupNode, Settled, Acting, Stripped;
    match c.node
    case Prepare => PrepareKeeps(w, req);
    case LlmDecide => LlmDecideKeeps(w, req, c.state);
    case ValidateAction => ValidateActionKeeps(w, req, c.state);
    case ExecuteTool => ExecuteToolKeeps(w, req, c.state);
    case CompleteGroup => CompleteGroupKeeps(w, req, c.state);
    case Finalize => SettledWithoutPending(req, c.state, c.state.(finished := true, pending := None, model := None));
    case End =>
  }
}
