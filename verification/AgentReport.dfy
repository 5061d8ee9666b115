/**
  From a finished agent run to the final report: the result of every run is one the report can be
  built from, and of the three limits only the number of human items can refuse it
  (app/agent/graph.py:162-177, 677-717, 871-899; app/reporting/builder.py:77-142).
 */
module AgentReport {
  import opened Wrappers
  import opened Order
  import opened AgentGraph
  import opened AgentInvariants
  import opened AgentRun
  import opened AgentTrace
  import opened AgentSearch
  import AgentGrouping
  import Citation
  import Report
  import ReportLimits

  /** What a run refers to by identity only. */
  datatype Contents = Contents(
    analysis: string, oldApi: Id -> string, rule: Id -> string, chunk: Id -> Citation.Retrieved,
    terms: Id -> seq<string>)
  {
    ghost predicate Filed() { forall id :: chunk(id).id == id }
  }

  /** The reasons as the human items spell them (graph_models.py:54-66, graph.py:505-511, 563-571). */
  function ReasonText(r: Reason): (s: string)
    ensures s != "" && s[0] != Report.FALLBACK[0] &&
      s[0] != Report.UNAVAILABLE[0] && s[0] != Report.NOT_EVALUATED[0]
  {
    match r
    case NoModel => "no_model"
    case ReviewDisabled => "llm_review_disabled"
    case GroupLimit => "ambiguous_group_limit"
    case LlmTimeout => "llm_timeout"
    case LlmInvalid => "llm_invalid_response"
    case LlmError => "llm_error"
    case ToolError => "tool_error"
    case ToolCallLimit => "tool_call_limit"
    case StepLimit => "step_limit"
    case AgentTimeout => "agent_timeout"
    case ToolObservation => "tool_observation"
    case RequestedByModel => "requested_by_model"
  }

  /** No two reasons are spelled alike. */
  lemma ReasonsSpelledApart(r: Reason, q: Reason)
    requires ReasonText(r) == ReasonText(q)
    ensures r == q
  {}

  function FindingsOf(x: Contents, fs: seq<AgentGrouping.Finding>): (r: seq<Citation.Finding>)
    ensures |r| == |fs| && forall i :: 0 <= i < |fs| ==>
      r[i] == Citation.Finding(fs[i].id, fs[i].key.rule, x.oldApi(fs[i].id))
  {
    seq(|fs|, i requires 0 <= i < |fs| => Citation.Finding(fs[i].id, fs[i].key.rule, x.oldApi(fs[i].id)))
  }

  function GroupsOf(x: Contents, gs: seq<Group>): (r: seq<Citation.Group>)
    ensures |r| == |gs| && forall i :: 0 <= i < |gs| ==>
      r[i] == Citation.Group(gs[i].id, x.rule(gs[i].id), gs[i].findings)
  {
    seq(|gs|, i requires 0 <= i < |gs| => Citation.Group(gs[i].id, x.rule(gs[i].id), gs[i].findings))
  }

  function ChunksOf(x: Contents, ids: seq<Id>): (r: seq<Citation.Retrieved>)
    ensures |r| == |ids| && forall i :: 0 <= i < |ids| ==> r[i] == x.chunk(ids[i])
  {
    seq(|ids|, i requires 0 <= i < |ids| => x.chunk(ids[i]))
  }

  function BindingsOf(x: Contents, bs: seq<Binding>): (r: seq<Citation.Binding>)
    ensures |r| == |bs|
    ensures forall i :: 0 <= i < |bs| ==>
      r[i] == Citation.Binding(bs[i].group, x.rule(bs[i].group), bs[i].findings, x.terms(bs[i].group), bs[i].chunks)
  {
    seq(|bs|, i requires 0 <= i < |bs| =>
      Citation.Binding(bs[i].group, x.rule(bs[i].group), bs[i].findings, x.terms(bs[i].group), bs[i].chunks))
  }

  function CandidatesOf(x: Contents, cs: seq<DocCandidate>): (r: seq<Citation.Candidate>)
    ensures |r| == |cs|
    ensures forall i :: 0 <= i < |cs| ==>
      r[i] == Citation.Candidate(x.analysis, cs[i].group, cs[i].findings, cs[i].chunk)
  {
    seq(|cs|, i requires 0 <= i < |cs| => Citation.Candidate(x.analysis, cs[i].group, cs[i].findings, cs[i].chunk))
  }

  function TextsOf(es: seq<Explanation>): seq<Citation.Explanation> {
    seq(|es|, i requires 0 <= i < |es| => Citation.Explanation(es[i].group, es[i].findings, es[i].text))
  }

  function HumanOf(hs: seq<HumanItem>): (r: seq<Citation.HumanItem>)
    ensures |r| == |hs|
    ensures forall i :: 0 <= i < |hs| ==>
      r[i] == Citation.HumanItem(hs[i].group, hs[i].findings, ReasonText(hs[i].reason), None)
  {
    seq(|hs|, i requires 0 <= i < |hs| =>
      Citation.HumanItem(hs[i].group, hs[i].findings, ReasonText(hs[i].reason), None))
  }

  /** `_state_to_result`, as far as the report reads it. */
  function AnalysisOf(x: Contents, fs: seq<AgentGrouping.Finding>, st: State): Citation.Analysis {
    Citation.Analysis(x.analysis, FindingsOf(x, fs), GroupsOf(x, st.groups), ChunksOf(x, st.retrieved),
                      BindingsOf(x, st.bindings), CandidatesOf(x, st.draft.candidates),
                      TextsOf(st.draft.explanations), HumanOf(st.draft.human))
  }

  // ----- what a finished run leaves -----

  /** The log of a run, as the result model and the report read it. */
  ghost predicate Reportable(req: Request, st: State) {
    st.groups == req.groups && st.overflow == req.overflow && |st.groups| <= 8 &&
    NoDuplicates(st.retrieved) && |st.retrieved| <= 40 && |st.bindings| <= 8 && |st.draft.candidates| <= 40 &&
    (forall b :: b in st.bindings ==>
       |b.chunks| <= 5 && NoDuplicates(b.chunks) && forall c :: c in b.chunks ==> c in st.retrieved) &&
    (forall i, j :: 0 <= i < j < |st.bindings| ==> st.bindings[i].group != st.bindings[j].group) &&
    DraftOf(st.groups, |st.groups|, st.draft) && OverflowItems(st.draft, st.overflow) &&
    CandidatesRetrieved(st.draft, st.retrieved)
  }

  lemma FinalIsReportable(w: World, req: Request)
    requires WellPrepared(req) && w.Honest() && Finishes(w, req)
    ensures Reportable(req, Final(w, req))
  {
    hide Final, Finishes, Iterate, Visit, Inv, Settled, Traced, Searches, Paced;
    var st, n := Final(w, req), req.limits.maxSteps + 3;
    FinalIsEnd(w, req);
    RunKeeps(w, req, n);
    RunTraced(w, req, n);
    RunSearched(w, req, n);
    SettledLog(req, st);
    TracedParts(w, st);
    forall b | b in st.bindings
      ensures |b.chunks| <= 5 && NoDuplicates(b.chunks)
    {
      BindingHonest(w, st, b);
    }
  }

  lemma SettledLog(req: Request, st: State)
    requires WellPrepared(req) && Inv(req, Config(End, st))
    ensures st.groups == req.groups && st.overflow == req.overflow && |st.groups| <= 8 && st.toolCalls <= 8
    ensures DraftOf(st.groups, |st.groups|, st.draft) && NoDuplicates(st.retrieved) && |st.retrieved| <= 40 &&
      |st.bindings| <= 8
    ensures forall b :: b in st.bindings ==> forall c :: c in b.chunks ==> c in st.retrieved
    ensures forall i, j :: 0 <= i < j < |st.bindings| ==> st.bindings[i].group != st.bindings[j].group
  {
    hide DraftOf, Known, Flat, Counted, AccountOf, OverflowToHuman;
  }

  lemma TracedParts(w: World, st: State)
    requires Traced(w, st)
    ensures CandidatesRetrieved(st.draft, st.retrieved) && |st.draft.candidates| <= 5 * st.toolCalls &&
      OverflowItems(st.draft, st.overflow)
  {}

  lemma BindingHonest(w: World, st: State, b: Binding)
    requires w.Honest() && Searches(w, st) && b in st.bindings
    ensures |b.chunks| <= 5 && NoDuplicates(b.chunks)
  {
    hide ToolSteps, NoDuplicates;
    var n: nat :| SearchMade(st, n, b.group) && w.tool(n) == ToolDone(b.chunks);
  }

  lemma TimeoutIsReportable(req: Request)
    requires WellPrepared(req)
    ensures Reportable(req, TimeoutState(req))
  {
    hide Flat;
    var st := TimeoutState(req);
    var d := AddHumanGroups(EMPTY_DRAFT, req.groups, AgentTimeout);
    HumanGroupsAdded(EMPTY_DRAFT, req.groups, AgentTimeout);
    GroupItems(EMPTY_DRAFT, req.groups, AgentTimeout, req.overflow);
    HumanFindingsAdded(d, req.overflow, GroupLimit);
    FindingItems(d, req.overflow, GroupLimit, req.overflow);
    hide AddHumanGroups, AddHumanFindings;
    forall x | x in st.draft.human && x.group.Some?
      ensures Known(st.groups, |st.groups|, x.group.value, x.findings)
    {
      var i :| 0 <= i < |req.groups| && x == HumanItem(Some(req.groups[i].id), req.groups[i].findings, AgentTimeout);
      assert st.groups[i].id == x.group.value;
    }
  }

  // ----- the analysis a report is built from -----

  /** The findings, their grouping and the request the agent makes of it. */
  ghost predicate Prepared(fs: seq<AgentGrouping.Finding>, cs: seq<AgentGrouping.Cluster>,
                           hash: AgentGrouping.Cluster -> Id, req: Request) {
    NoDuplicates(fs) && AgentGrouping.Identified(fs) && AgentGrouping.IsGrouping(fs, cs) && req.limits.Valid() &&
    (forall a, b :: hash(a) == hash(b) ==> a == b) &&
    var p := AgentGrouping.Select(cs, req.limits.maxGroups);
    req.groups == AgentGrouping.Hashed(p.groups, hash) && req.overflow == p.overflow
  }

  ghost predicate KnownId(fs: seq<AgentGrouping.Finding>, id: Id) { exists f :: f in fs && f.id == id }

  /** Groups and overflow hold known findings, no finding twice, and no group is empty. */
  ghost predicate WellGrouped(fs: seq<AgentGrouping.Finding>, req: Request) {
    (forall i :: 0 <= i < |req.groups| ==> req.groups[i].findings != []) &&
    (forall i, id :: 0 <= i < |req.groups| && id in req.groups[i].findings ==> KnownId(fs, id)) &&
    (forall id :: id in req.overflow ==> KnownId(fs, id)) &&
    (forall i, j, id :: 0 <= i < j < |req.groups| && id in req.groups[i].findings ==> id !in req.groups[j].findings) &&
    (forall i, id :: 0 <= i < |req.groups| && id in req.groups[i].findings ==> id !in req.overflow)
  }

  lemma {:induction false} FlatHolds(groups: seq<Group>)
    ensures forall id :: id in Flat(groups) <==> exists i :: 0 <= i < |groups| && id in groups[i].findings
    ensures NoDuplicates(Flat(groups)) ==>
      forall i, j, id :: 0 <= i < j < |groups| && id in groups[i].findings ==> id !in groups[j].findings
  {
    if groups != [] {
      var n := |groups| - 1;
      var before := Flat(groups[..n]);
      FlatHolds(groups[..n]);
      assert Flat(groups) == before + groups[n].findings;
      if NoDuplicates(Flat(groups)) { JoinApart(before, groups[n].findings); }
    }
  }

  lemma JoinApart(a: seq<Id>, b: seq<Id>)
    requires NoDuplicates(a + b)
    ensures NoDuplicates(a) && forall id :: id in a ==> id !in b
  {
    forall i, j | 0 <= i < |a| && 0 <= j < |b|
      ensures a[i] != b[j]
    {
      assert (a + b)[i] == a[i] && (a + b)[|a| + j] == b[j];
    }
    forall i, j | 0 <= i < j < |a|
      ensures a[i] != a[j]
    {
      assert (a + b)[i] == a[i] && (a + b)[j] == a[j];
    }
  }

  lemma PreparedIsWellGrouped(fs: seq<AgentGrouping.Finding>, cs: seq<AgentGrouping.Cluster>,
                              hash: AgentGrouping.Cluster -> Id, req: Request)
    requires Prepared(fs, cs, hash, req)
    ensures WellPrepared(req) && WellGrouped(fs, req)
  {
    hide AgentGrouping.Entries, Sort, AgentGrouping.FindingLess, AgentGrouping.Packed, AgentGrouping.IsGrouping,
    KnownId, Flat;
    AgentGrouping.PreparationIsWellPrepared(fs, cs, hash, req);
    AgentGrouping.GroupsPartitionFindings(fs, cs, req.limits.maxGroups);
    var p := AgentGrouping.Select(cs, req.limits.maxGroups);
    AgentGrouping.FlatIsIdsIn(p.groups, hash);
    FlatHolds(req.groups);
    JoinApart(Flat(req.groups), req.overflow);
    forall i | 0 <= i < |req.groups|
      ensures req.groups[i].findings != []
    {
      AgentGrouping.GroupsAreHomogeneous(fs, cs, i);
    }
    forall id | id in Flat(req.groups) || id in req.overflow
      ensures KnownId(fs, id)
    {
      assert id in AgentGrouping.IdsIn(p.groups) + p.overflow;
      assert KnownId(fs, id) by { KnownHere(fs, id); }
    }
  }

  lemma KnownHere(fs: seq<AgentGrouping.Finding>, id: Id)
    requires exists f :: f in fs && f.id == id
    ensures KnownId(fs, id)
  {}

  /** A finding the draft is about is known. */
  lemma HumanKnown(fs: seq<AgentGrouping.Finding>, req: Request, st: State, h: HumanItem, id: Id)
    requires WellGrouped(fs, req) && Reportable(req, st) && h in st.draft.human && id in h.findings
    ensures KnownId(fs, id)
  {
    if h.group.Some? {
      assert Known(st.groups, |st.groups|, h.group.value, h.findings);
      var i :| 0 <= i < |st.groups| && st.groups[i].id == h.group.value && st.groups[i].findings == h.findings;
    }
  }

  lemma FindingsApart(x: Contents, fs: seq<AgentGrouping.Finding>)
    requires NoDuplicates(fs) && AgentGrouping.Identified(fs)
    ensures forall i, j :: 0 <= i < j < |fs| ==> FindingsOf(x, fs)[i].id != FindingsOf(x, fs)[j].id
  {
    forall i, j | 0 <= i < j < |fs|
      ensures fs[i].id != fs[j].id
    {
      assert fs[i] in fs && fs[j] in fs && fs[i] != fs[j];
    }
  }

  lemma KnownFinding(x: Contents, fs: seq<AgentGrouping.Finding>, st: State, id: Id)
    requires KnownId(fs, id)
    ensures AnalysisOf(x, fs, st).KnownFinding(id)
  {
    var f :| f in fs && f.id == id;
    var i :| 0 <= i < |fs| && fs[i] == f;
    assert FindingsOf(x, fs)[i] in FindingsOf(x, fs);
  }

  /**
    What a finished run hands to the report is valid, with one search a group and every chunk chosen
    for some group.
   */
  lemma RunIsValid(x: Contents, fs: seq<AgentGrouping.Finding>, req: Request, st: State)
    requires x.Filed() && NoDuplicates(fs) && AgentGrouping.Identified(fs)
    requires WellPrepared(req) && WellGrouped(fs, req) && Reportable(req, st)
    ensures var run := AnalysisOf(x, fs, st);
            run.Valid() && (forall r :: r in run.retrieved ==> Citation.Referenced(run, r.id)) &&
            forall a, b :: a in run.bindings && b in run.bindings && a.group == b.group ==> a == b
  {
    hide Flat, DraftOf, OverflowItems;
    var run := AnalysisOf(x, fs, st);
    RunIsSound(x, fs, req, st);
    forall r | r in run.retrieved
      ensures Citation.Referenced(run, r.id)
    {
      var i :| 0 <= i < |st.retrieved| && run.retrieved[i] == r;
      assert st.retrieved[i] in st.retrieved && IsCandidate(st.draft, st.retrieved[i]);
      var c :| c in st.draft.candidates && c.chunk == st.retrieved[i];
      var k :| 0 <= k < |st.draft.candidates| && st.draft.candidates[k] == c;
      assert run.candidates[k] in run.candidates;
    }
  }

  lemma BoundChunksRetrieved(x: Contents, fs: seq<AgentGrouping.Finding>, req: Request, st: State)
    requires x.Filed() && Reportable(req, st)
    ensures var run := AnalysisOf(x, fs, st);
            forall b, c :: b in run.bindings && c in b.chunks ==> exists r :: r in run.retrieved && r.id == c
  {
    hide Flat, DraftOf, OverflowItems, CandidatesRetrieved;
    var run := AnalysisOf(x, fs, st);
    forall b, c | b in run.bindings && c in b.chunks
      ensures exists r :: r in run.retrieved && r.id == c
    {
      var i :| 0 <= i < |run.bindings| && run.bindings[i] == b;
      assert st.bindings[i] in st.bindings;
      var k :| 0 <= k < |st.retrieved| && st.retrieved[k] == c;
      assert run.retrieved[k] in run.retrieved;
    }
  }

  lemma RunIsSound(x: Contents, fs: seq<AgentGrouping.Finding>, req: Request, st: State)
    requires x.Filed() && NoDuplicates(fs) && AgentGrouping.Identified(fs)
    requires WellPrepared(req) && WellGrouped(fs, req) && Reportable(req, st)
    ensures AnalysisOf(x, fs, st).Sound()
  {
    hide Flat, DraftOf, OverflowItems, CandidatesRetrieved, KnownId;
    var run := AnalysisOf(x, fs, st);
    FindingsApart(x, fs);
    forall h, id | h in run.human && id in h.findings
      ensures run.KnownFinding(id)
    {
      var i :| 0 <= i < |run.human| && run.human[i] == h;
      HumanKnown(fs, req, st, st.draft.human[i], id);
      KnownFinding(x, fs, st, id);
    }
    forall g, id | g in run.groups && id in g.findings
      ensures run.KnownFinding(id)
    {
      var i :| 0 <= i < |run.groups| && run.groups[i] == g;
      KnownFinding(x, fs, st, id);
    }
    BoundChunksRetrieved(x, fs, req, st);
    forall g, h, id | g in run.groups && h in run.groups && id in g.findings && id in h.findings
      ensures g == h
    {
      var i :| 0 <= i < |run.groups| && run.groups[i] == g;
      var j :| 0 <= j < |run.groups| && run.groups[j] == h;
    }
    assert forall i :: 0 <= i < |st.bindings| ==> st.bindings[i] in st.bindings;
  }

  /** Nothing the agent notes for a human has a reason the report gives itself. */
  lemma OwnReasons(x: Contents, fs: seq<AgentGrouping.Finding>, st: State)
    ensures forall h :: h in AnalysisOf(x, fs, st).human ==>
              h.reason !in {Report.FALLBACK, Report.UNAVAILABLE, Report.NOT_EVALUATED}
  {
    var human := AnalysisOf(x, fs, st).human;
    forall h | h in human
      ensures h.reason !in {Report.FALLBACK, Report.UNAVAILABLE, Report.NOT_EVALUATED}
    {
      var i :| 0 <= i < |human| && human[i] == h;
      assert h.reason[0] == ReasonText(st.draft.human[i].reason)[0];
    }
  }

  /**
    The report of what an agent run hands over, finished or cut short: it is refused exactly when the
    agent's own human items, one item for each finding and one more for each finding without a usable
    explanation are more than seven hundred; never for its citations or their audit.
   */
  lemma ReportOfRunIff(x: Contents, fs: seq<AgentGrouping.Finding>, cs: seq<AgentGrouping.Cluster>,
                       hash: AgentGrouping.Cluster -> Id,
                       w: World, req: Request, st: State, library: Option<Citation.Library>, voc: Citation.Vocabulary,
                       reply: Report.Question -> Option<Report.Selection>, safe: string -> bool)
    requires x.Filed() && Prepared(fs, cs, hash, req) && w.Honest()
    requires Outcome(w, req) == Ok(st) || st == TimeoutState(req)
    requires library.Some? ==> Citation.Filed(library.value)
    ensures var run := AnalysisOf(x, fs, st);
            var r := Report.BuildOf(library, voc, run, req.llmReview, req.hasClient, reply, safe);
            run.Valid() && r != Err(Report.GuardTooLarge) && r != Err(Report.TooManyCitations) &&
            (r == Err(Report.TooManyHumanItems) <==>
             |ReportLimits.HumanKeys(run.human)| + |fs| + ReportLimits.Unexplained(run, safe, run.findings) >
             Report.MAX_HUMAN_ITEMS)
  {
    hide Final, TimeoutState, WellGrouped, Reportable, AnalysisOf, ReportLimits.ItemCount, ReportLimits.Overcited,
    ReportLimits.Overfull;
    hide Report.BuildOf, Report.ViewsOf, Citation.Guarded, ReportLimits.UsedBy, Prepared, ReportLimits.Unexplained;
    hide Finishes, ResultAccepted;
    assert NoDuplicates(fs) && AgentGrouping.Identified(fs) by { PreparedFindings(fs, cs, hash, req); }
    PreparedIsWellGrouped(fs, cs, hash, req);
    if Outcome(w, req) == Ok(st) {
      HandedOverIsFinal(w, req, st);
      FinalIsReportable(w, req);
    }
    TimeoutIsReportable(req);
    RunIsValid(x, fs, req, st);
    var run := AnalysisOf(x, fs, st);
    assert |run.findings| == |fs| by { SameFindings(x, fs, st); }
    OwnReasons(x, fs, st);
    var used := ReportLimits.UsedBy(library, voc, run, req.llmReview, req.hasClient, reply);
    var views := Report.ViewsOf(used, Citation.Guarded(library, voc, used), safe);
    ReportLimits.OverfullIff(run, views, safe);
    ReportLimits.BuildRefusedIff(library, voc, run, req.llmReview, req.hasClient, reply, safe);
    if library.Some? { FewItems(library.value, run); }
    OneBindingStays(library, voc, run, req.llmReview, req.hasClient, reply);
  }

  lemma HandedOverIsFinal(w: World, req: Request, st: State)
    requires Outcome(w, req) == Ok(st)
    ensures Finishes(w, req) && st == Final(w, req)
  {
    hide ResultAccepted;
  }

  lemma SameFindings(x: Contents, fs: seq<AgentGrouping.Finding>, st: State)
    ensures |AnalysisOf(x, fs, st).findings| == |fs|
  {}

  lemma PreparedFindings(fs: seq<AgentGrouping.Finding>, cs: seq<AgentGrouping.Cluster>,
                         hash: AgentGrouping.Cluster -> Id, req: Request)
    requires Prepared(fs, cs, hash, req)
    ensures NoDuplicates(fs) && AgentGrouping.Identified(fs)
  {}

  /** When every chunk was chosen for some group, the audit has at most 48 items. */
  lemma FewItems(library: Citation.Library, run: Citation.Analysis)
    requires run.Valid() && forall r :: r in run.retrieved ==> Citation.Referenced(run, r.id)
    ensures ReportLimits.ItemCount(library, run) <= 48
  {
    hide ReportLimits.MissingGroups, ReportLimits.Orphans;
    ReportLimits.NoOrphans(library, run, run.retrieved);
    ReportLimits.MissingCount(run, run.groups);
  }

  lemma OneBindingStays(library: Option<Citation.Library>, voc: Citation.Vocabulary, run: Citation.Analysis,
                        llmReview: bool, hasClient: bool,
                        reply: Report.Question -> Option<Report.Selection>)
    requires run.Valid() && (library.Some? ==> Citation.Filed(library.value))
    requires forall a, b :: a in run.bindings && b in run.bindings && a.group == b.group ==> a == b
    ensures !ReportLimits.Overcited(library, voc, ReportLimits.UsedBy(library, voc, run, llmReview, hasClient, reply))
  {
    hide ReportLimits.Overcited, Citation.Guarded, ReportLimits.UsedBy;
    var used := ReportLimits.UsedBy(library, voc, run, llmReview, hasClient, reply);
    ReportLimits.UsedIsSound(library, voc, run, llmReview, hasClient, reply);
    ReportLimits.AtMostFiveCitations(library, voc, used);
  }

  // ----- exactly which findings are lost -----

  /** A finding of group `i` that the draft mentions anywhere is mentioned by an item of the group. */
  lemma MentionedByGroup(fs: seq<AgentGrouping.Finding>, req: Request, st: State, i: nat, id: Id)
    requires WellGrouped(fs, req) && Reportable(req, st) && i < |req.groups| && id in req.groups[i].findings
    requires AgentGrouping.InDraft(st.draft, id)
    ensures Accounted(st.draft, req.groups[i])
  {
    hide KnownId, CandidatesRetrieved;
    var g, k := req.groups[i], |st.groups|;
    if exists x :: x in st.draft.explanations && id in x.findings {
      var x :| x in st.draft.explanations && id in x.findings;
      SameGroupKnown(fs, req, st, i, id, x.group, x.findings);
    } else if exists x :: x in st.draft.candidates && id in x.findings {
      var x :| x in st.draft.candidates && id in x.findings;
      SameGroupKnown(fs, req, st, i, id, x.group, x.findings);
    } else {
      var x :| x in st.draft.human && id in x.findings;
      assert x.group.Some?;
      SameGroupKnown(fs, req, st, i, id, x.group.value, x.findings);
    }
  }

  lemma SameGroupKnown(fs: seq<AgentGrouping.Finding>, req: Request, st: State, i: nat, id: Id, gid: Id,
                       findings: seq<Id>)
    requires WellGrouped(fs, req) && st.groups == req.groups && i < |req.groups| && id in req.groups[i].findings
    requires Known(st.groups, |st.groups|, gid, findings) && id in findings
    ensures gid == req.groups[i].id && findings == req.groups[i].findings
  {
    hide KnownId;
    var j :| 0 <= j < |st.groups| && st.groups[j].id == gid && st.groups[j].findings == findings;
  }

  /** The documentation search for the group of a finding found nothing. */
  ghost predicate SearchedInVain(w: World, req: Request, st: State, id: Id) {
    exists i :: 0 <= i < |req.groups| && id in req.groups[i].findings && SearchFound(w, st, req.groups[i].id, [])
  }

  /**
    After a finished run a finding is missing from the draft exactly when the search made for its
    group found nothing.
   */
  lemma FindingLostIff(fs: seq<AgentGrouping.Finding>, cs: seq<AgentGrouping.Cluster>,
                       hash: AgentGrouping.Cluster -> Id,
                       w: World, req: Request, f: AgentGrouping.Finding)
    requires Prepared(fs, cs, hash, req) && w.Honest() && Finishes(w, req) && f in fs
    ensures !AgentGrouping.InDraft(Final(w, req).draft, f.id) <==> SearchedInVain(w, req, Final(w, req), f.id)
  {
    hide Final, Finishes, Iterate, Inv, Settled, SearchFound, Accounted, AgentGrouping.InDraft;
    hide AgentGrouping.IsGrouping,
    EmptySearch, Flat;
    var st := Final(w, req);
    PreparedIsWellGrouped(fs, cs, hash, req);
    FinalIsReportable(w, req);
    FinalIsEnd(w, req);
    RunKeeps(w, req, req.limits.maxSteps + 3);
    RunSearched(w, req, req.limits.maxSteps + 3);
    SettledDelivers(req, st);
    AgentGrouping.NoFindingLost(fs, cs, hash, req, st, f);
    forall i | 0 <= i < |req.groups|
      ensures EmptySearch(st, i) <==> SearchFound(w, st, req.groups[i].id, [])
    {
      EmptySearchIff(w, st, i);
    }
    if SearchedInVain(w, req, st, f.id) && AgentGrouping.InDraft(st.draft, f.id) {
      var i :| 0 <= i < |req.groups| && f.id in req.groups[i].findings && SearchFound(w, st, req.groups[i].id, []);
      AccountedIff(w, req, i);
      MentionedByGroup(fs, req, st, i, f.id);
    }
  }

  /** Every finding of the first group is lost when the search for it finds nothing. */
  lemma FindingsLost(fs: seq<AgentGrouping.Finding>, cs: seq<AgentGrouping.Cluster>, hash: AgentGrouping.Cluster -> Id,
                     req: Request, f: AgentGrouping.Finding)
    requires Prepared(fs, cs, hash, req) && Reviewable(req) && req.groups != [] && req.limits.maxSteps >= 4
    requires f in fs && f.id in req.groups[0].findings
    ensures FruitlessSearch(req.groups).Honest() && Finishes(FruitlessSearch(req.groups), req)
    ensures !AgentGrouping.InDraft(Final(FruitlessSearch(req.groups), req).draft, f.id)
  {
    hide Final, SearchFound, AgentGrouping.InDraft, AgentGrouping.IsGrouping, Flat;
    PreparedIsWellGrouped(fs, cs, hash, req);
    FruitlessSearchLoses(req);
    FindingLostIff(fs, cs, hash, FruitlessSearch(req.groups), req, f);
  }
}
