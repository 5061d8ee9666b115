/**
  Building the final report: at most one more choice for one group, then a view of every finding
  (app/reporting/builder.py:77-332; app/reporting/models.py:221-330).
 */
module Report {
  import opened Wrappers
  import opened Order
  import opened Citation

  const MAX_CITATIONS_OF_FINDING := 5
  const MAX_HUMAN_ITEMS := 700

  // ----- the retry -----

  predicate Invalid(i: Item) { i.fault.Some? }

  /** `_should_retry`: everything that is wrong could be put right by choosing again. */
  predicate ShouldRetry(g: GuardResult, llmReview: bool, hasClient: bool) {
    g.trusted && g.allowlist != [] && llmReview && hasClient &&
    (exists i :: i in g.items && Invalid(i)) && forall i :: i in g.items && Invalid(i) ==> i.retry
  }

  /** What the model answers, if it answers in the required form. */
  datatype Selection = Selection(group: Id, findings: seq<Id>, chunk: Id)

  /** What the model is shown. */
  datatype Question = Question(analysis: string, group: Group, oldApis: seq<string>, allowed: seq<(Id, seq<string>)>)

  function FirstRetry(items: seq<Item>): (r: Option<Item>)
    ensures r.Some? ==> r.value in items && r.value.retry && r.value.group.Some?
    ensures r.Some? <==> exists i :: i in items && i.retry && i.group.Some?
  {
    if items == [] then None
    else
      assert items == [items[0]] + items[1..];
      if items[0].retry && items[0].group.Some? then Some(items[0]) else FirstRetry(items[1..])
  }

  function Without(cs: seq<Candidate>, group: Id): seq<Candidate> {
    if cs == [] then []
    else Without(cs[..|cs| - 1], group) + (if cs[|cs| - 1].group != group then [cs[|cs| - 1]] else [])
  }

  /** The analysis with the group's candidates replaced by the new choice. */
  function Rechosen(run: Analysis, s: Selection): Analysis {
    run.(candidates := Without(run.candidates, s.group) + [Candidate(run.id, s.group, s.findings, s.chunk)])
  }

  function RetrievedOf(retrieved: seq<Retrieved>, id: Id): (r: Option<Retrieved>)
    ensures r.Some? <==> exists x :: x in retrieved && x.id == id
  {
    if retrieved == [] then None
    else
      assert retrieved == [retrieved[0]] + retrieved[1..];
      if retrieved[0].id == id then Some(retrieved[0]) else RetrievedOf(retrieved[1..], id)
  }

  /** The choice is for a group of the analysis, with its findings. */
  ghost predicate KeepsGroup(run: Analysis, s: Selection) {
    exists g :: g in run.groups && s.group == g.id && s.findings == g.findings
  }

  /** The group asked about: that of the first eligible item. */
  function RetryGroup(run: Analysis, items: seq<Item>): Option<Group> {
    var first := FirstRetry(items);
    if first.Some? then GroupOf(run.groups, first.value.group.value) else None
  }

  function OldApiOf(run: Analysis, id: Id): string {
    var f := FindingOf(run.findings, id);
    if f.Some? then f.value.oldApi else ""
  }

  function HeadingOf(run: Analysis, id: Id): seq<string> {
    var r := RetrievedOf(run.retrieved, id);
    if r.Some? then r.value.origin.heading else []
  }

  function QuestionFor(run: Analysis, g: GuardResult, group: Group): Question {
    Question(run.id, group,
             seq(|group.findings|, i requires 0 <= i < |group.findings| => OldApiOf(run, group.findings[i])),
             seq(|g.allowlist|, i requires 0 <= i < |g.allowlist| => (g.allowlist[i], HeadingOf(run, g.allowlist[i]))))
  }

  /** The analysis after the retry; an answer about anything but the group asked for is dropped. */
  function Retried(run: Analysis, g: GuardResult, reply: Question -> Option<Selection>): Option<Analysis> {
    var group := RetryGroup(run, g.items);
    if group.None? then None
    else
      var s := reply(QuestionFor(run, g, group.value));
      if s.Some? && s.value.group == group.value.id && s.value.findings == group.value.findings
      then Some(Rechosen(run, s.value)) else None
  }

  /** `_retry_once`: none of its lookups can fail. */
  method RetryOnce(library: Library, voc: Vocabulary, run: Analysis, g: GuardResult,
                   reply: Question -> Option<Selection>)
    returns (r: Option<Analysis>)
    requires run.Sound() && Filed(library) && g == Guarded(Some(library), voc, run) && ShouldRetry(g, true, true)
    ensures r == Retried(run, g, reply)
  {
    hide Genuine, Guarded, FirstRetry, Rechosen;
    RetryHasGroup(library, voc, run);
    var item := FirstRetry(g.items).value;
    var group := GroupOf(run.groups, item.group.value).value;
    var oldApis := [];
    for i := 0 to |group.findings|
      invariant |oldApis| == i && forall j :: 0 <= j < i ==> oldApis[j] == OldApiOf(run, group.findings[j])
    {
      assert group.findings[i] in group.findings;
      oldApis := oldApis + [FindingOf(run.findings, group.findings[i]).value.oldApi];
    }
    AllowlistExactly(library, voc, run);
    var allowed := [];
    for i := 0 to |g.allowlist|
      invariant |allowed| == i && forall j :: 0 <= j < i ==>
        allowed[j] == (g.allowlist[j], HeadingOf(run, g.allowlist[j]))
    {
      assert g.allowlist[i] in g.allowlist;
      allowed := allowed + [(g.allowlist[i], RetrievedOf(run.retrieved, g.allowlist[i]).value.origin.heading)];
    }
    assert Question(run.id, group, oldApis, allowed) == QuestionFor(run, g, group);
    var selection := reply(Question(run.id, group, oldApis, allowed));
    if selection.None? { return None; }
    if selection.value.group != group.id || selection.value.findings != group.findings { return None; }
    r := Some(Rechosen(run, selection.value));
  }

  /** A retry keeps to a group of the analysis and its findings. */
  lemma RetriedKeepsGroup(run: Analysis, g: GuardResult, reply: Question -> Option<Selection>)
    requires Retried(run, g, reply).Some?
    ensures exists s :: KeepsGroup(run, s) && Retried(run, g, reply).value == Rechosen(run, s)
  {
    hide Rechosen, FirstRetry;
    var group := RetryGroup(run, g.items).value;
    var s := reply(QuestionFor(run, g, group)).value;
    assert group in run.groups;
    assert KeepsGroup(run, s) && Retried(run, g, reply).value == Rechosen(run, s);
  }

  // ----- an eligible item always names a group of the analysis -----

  ghost predicate NamesGroup(run: Analysis, i: Item) { i.group.Some? && InGroups(run.groups, i.group.value) }

  lemma RetryItemNamesGroup(library: Library, voc: Vocabulary, run: Analysis, c: Candidate)
    ensures ItemFor(library, voc, run, c).retry ==> NamesGroup(run, ItemFor(library, voc, run, c))
  {
    hide TermsFit, Mentioned, Duplicated, CurrentOf, ErrorsOf, BindingsFor, Sort, Unique, FindingsOf;
  }

  lemma {:induction false} CandidateRetries(library: Library, voc: Vocabulary, run: Analysis, cs: seq<Candidate>)
    ensures forall i :: i in CandidateItems(library, voc, run, cs) && i.retry ==> NamesGroup(run, i)
  {
    hide NamesGroup, ItemFor;
    if cs != [] {
      CandidateRetries(library, voc, run, cs[..|cs| - 1]);
      RetryItemNamesGroup(library, voc, run, cs[|cs| - 1]);
    }
  }

  lemma {:induction false} MissingRetries(run: Analysis, groups: seq<Group>)
    requires forall g :: g in groups ==> g in run.groups
    ensures forall i :: i in MissingItems(run, groups) ==> NamesGroup(run, i)
  {
    if groups != [] {
      var n := |groups| - 1;
      assert groups[n] in groups && forall g :: g in groups[..n] ==> g in groups;
      MissingRetries(run, groups[..n]);
    }
  }

  lemma {:induction false} OrphansDoNotRetry(library: Library, run: Analysis, retrieved: seq<Retrieved>)
    ensures forall i :: i in OrphanItems(library, run, retrieved) ==> !i.retry
  {
    hide Genuine, FaultOf;
    if retrieved != [] { OrphansDoNotRetry(library, run, retrieved[..|retrieved| - 1]); }
  }

  lemma RetryHasGroup(library: Library, voc: Vocabulary, run: Analysis)
    requires ShouldRetry(Guarded(Some(library), voc, run), true, true)
    ensures var first := FirstRetry(Guarded(Some(library), voc, run).items);
            first.Some? && GroupOf(run.groups, first.value.group.value).Some?
  {
    hide CandidateItems, MissingItems, OrphanItems, Sort, ItemLess, GenuineIds, CitationsOf, FirstRetry;
    var items := AllItems(library, voc, run);
    SortPermutes(ItemLess, items);
    SameElements(Sort(ItemLess, items), items);
    CandidateRetries(library, voc, run, run.candidates);
    MissingRetries(run, run.groups);
    OrphansDoNotRetry(library, run, run.retrieved);
  }

  // ----- the retry changes one group only -----

  lemma {:induction false} CountWithout(cs: seq<Candidate>, group: Id, k: Key)
    requires k.group != group
    ensures multiset(KeysOf(Without(cs, group)))[k] == multiset(KeysOf(cs))[k]
  {
    if cs != [] {
      var n := |cs| - 1;
      CountWithout(cs[..n], group, k);
      assert KeysOf(cs) == KeysOf(cs[..n]) + [KeyOf(cs[n])];
      var rest := Without(cs[..n], group);
      assert KeysOf(rest + [cs[n]]) == KeysOf(rest) + [KeyOf(cs[n])];
      assert rest + [] == rest;
    }
  }

  lemma {:induction false} WithoutIs(cs: seq<Candidate>, group: Id)
    ensures forall c :: c in Without(cs, group) <==> c in cs && c.group != group
  {
    if cs != [] {
      WithoutIs(cs[..|cs| - 1], group);
      assert cs == cs[..|cs| - 1] + [cs[|cs| - 1]];
    }
  }

  lemma DuplicatesElsewhere(run: Analysis, s: Selection, c: Candidate)
    requires c.group != s.group
    ensures Duplicated(Rechosen(run, s).candidates, c) <==> Duplicated(run.candidates, c)
  {
    var rest, chosen := Without(run.candidates, s.group), Candidate(run.id, s.group, s.findings, s.chunk);
    CountWithout(run.candidates, s.group, KeyOf(c));
    assert KeysOf(rest + [chosen]) == KeysOf(rest) + [KeyOf(chosen)];
  }

  lemma VerdictElsewhere(library: Library, voc: Vocabulary, run: Analysis, s: Selection, c: Candidate)
    requires c.group != s.group
    ensures Verdict(library, voc, Rechosen(run, s), c) == Verdict(library, voc, run, c)
  {
    hide Duplicated, CurrentOf, ErrorsOf, BindingsFor, TermsFit, Mentioned, FindingsOf, Without;
    DuplicatesElsewhere(run, s, c);
    hide Rechosen;
    SameButCandidates(run, s);
  }

  /** Findings, groups, chunks, bindings, explanations and human items are as before. */
  lemma SameButCandidates(run: Analysis, s: Selection)
    ensures var r := Rechosen(run, s);
            r.id == run.id && r.findings == run.findings && r.groups == run.groups && r.retrieved == run.retrieved &&
            r.bindings == run.bindings && r.explanations == run.explanations && r.human == run.human &&
            (run.Sound() ==> r.Sound())
  {}

  /** Every valid citation of another group is exactly what it was, and the retried group has at most one. */
  lemma RetryFrame(library: Library, voc: Vocabulary, run: Analysis, s: Selection)
    requires Filed(library)
    ensures var before, after := Guarded(Some(library), voc, run).citations,
      Guarded(Some(library), voc, Rechosen(run, s)).citations;
            (forall v: Citation :: v.group != s.group ==> (v in after <==> v in before)) &&
            (forall v, w :: v in after && w in after && v.group == s.group && w.group == s.group ==> v == w)
    ensures Guarded(Some(library), voc, Rechosen(run, s)).allowlist == Guarded(Some(library), voc, run).allowlist
  {
    hide Verdict, ValidCandidate, Sort, CitationsOf, AllItems, GenuineIds;
    var run' := Rechosen(run, s);
    CitationsExactly(library, voc, run);
    CitationsExactly(library, voc, run');
    WithoutIs(run.candidates, s.group);
    hide Without;
    SameButCandidates(run, s);
    forall c
      ensures Verdict(library, voc, run, c).Ok? ==> Verdict(library, voc, run, c).value.group == c.group
      ensures Verdict(library, voc, run', c).Ok? ==> Verdict(library, voc, run', c).value.group == c.group
      ensures Verdict(library, voc, run, c).Ok? <==> ValidCandidate(library, voc, run, c)
      ensures Verdict(library, voc, run', c).Ok? <==> ValidCandidate(library, voc, run', c)
      ensures c.group != s.group ==> Verdict(library, voc, run', c) == Verdict(library, voc, run, c)
    {
      VerdictIff(library, voc, run, c);
      VerdictIff(library, voc, run', c);
      if c.group != s.group { VerdictElsewhere(library, voc, run, s, c); }
    }
  }

  // ----- the report -----

  /** One finding in the report; `text` is the model's explanation, or nothing for the template. */
  datatype ReportFinding = ReportFinding(finding: Finding, text: Option<string>, citations: seq<Citation>)

  datatype FinalReport = FinalReport(retries: nat, findings: seq<ReportFinding>, items: seq<Item>,
                                     human: seq<HumanItem>)

  datatype ReportError = GuardTooLarge | TooManyCitations | TooManyHumanItems

  const FALLBACK := "explanation_template_fallback"
  const UNAVAILABLE := "citation_unavailable"
  const NOT_EVALUATED := "citation_support_not_evaluated"

  /** `result.setdefault(finding_id, explanation)` for the findings of a group. */
  function Defaulted(m: map<Id, string>, ids: seq<Id>, text: string): map<Id, string> {
    if ids == [] then m
    else
      var before := Defaulted(m, ids[..|ids| - 1], text);
      if ids[|ids| - 1] in before then before else before[ids[|ids| - 1] := text]
  }

  /** `_validated_explanations`. */
  function ExplanationsOf(run: Analysis, safe: string -> bool, es: seq<Explanation>): map<Id, string> {
    if es == [] then map[]
    else
      var before, e := ExplanationsOf(run, safe, es[..|es| - 1]), es[|es| - 1];
      var group := GroupOf(run.groups, e.group);
      if group.None? || e.findings != group.value.findings || !safe(e.text) then before
      else Defaulted(before, group.value.findings, e.text)
  }

  function CitationsFor(citations: seq<Citation>, id: Id): seq<Citation> {
    if citations == [] then []
    else
      var c := citations[|citations| - 1];
      CitationsFor(citations[..|citations| - 1], id) + (if id in c.findings then [c] else [])
  }

  predicate ChunkLess(x: Citation, y: Citation) { StringLess(x.chunk, y.chunk) }

  function ViewOf(run: Analysis, g: GuardResult, safe: string -> bool, f: Finding): ReportFinding {
    var texts := ExplanationsOf(run, safe, run.explanations);
    ReportFinding(f, if f.id in texts then Some(texts[f.id]) else None,
                  Sort(ChunkLess, CitationsFor(g.citations, f.id)))
  }

  function ViewsOf(run: Analysis, g: GuardResult, safe: string -> bool): (r: seq<ReportFinding>)
    ensures |r| == |run.findings|
  {
    seq(|run.findings|, i requires 0 <= i < |run.findings| => ViewOf(run, g, safe, run.findings[i]))
  }

  function GroupOfFinding(groups: seq<Group>, id: Id): Option<Id> {
    if groups == [] then None
    else if id in groups[|groups| - 1].findings then Some(groups[|groups| - 1].id)
    else GroupOfFinding(groups[..|groups| - 1], id)
  }

  /** What the citations of a finding amount to. */
  function StatusItem(groups: seq<Group>, v: ReportFinding): HumanItem {
    HumanItem(GroupOfFinding(groups, v.finding.id), [v.finding.id],
              if v.citations == [] then UNAVAILABLE else NOT_EVALUATED, None)
  }

  /** What a human should look at for one finding. */
  function ReviewOf(groups: seq<Group>, v: ReportFinding): seq<HumanItem> {
    (if v.text.None? then [HumanItem(GroupOfFinding(groups, v.finding.id), [v.finding.id], FALLBACK, None)]
     else []) + [StatusItem(groups, v)]
  }

  function ReviewsOf(groups: seq<Group>, views: seq<ReportFinding>): seq<HumanItem> {
    if views == [] then [] else ReviewsOf(groups, views[..|views| - 1]) + ReviewOf(groups, views[|views| - 1])
  }

  predicate SameKey(x: HumanItem, y: HumanItem) {
    x.group == y.group && x.findings == y.findings && x.reason == y.reason
  }

  /** The first item of each key. */
  function FirstOfEach(items: seq<HumanItem>): seq<HumanItem> {
    if items == [] then []
    else
      var before, x := FirstOfEach(items[..|items| - 1]), items[|items| - 1];
      if exists y :: y in before && SameKey(y, x) then before else before + [x]
  }

  predicate HumanLess(x: HumanItem, y: HumanItem) {
    TupleLess([OrEmpty(x.group)], [OrEmpty(y.group)]) ||
    (OrEmpty(x.group) == OrEmpty(y.group) &&
     (TupleLess(x.findings, y.findings) || (x.findings == y.findings && StringLess(x.reason, y.reason))))
  }

  /** `_merged_human_review`. */
  function MergedHumanReview(run: Analysis, views: seq<ReportFinding>): seq<HumanItem> {
    Sort(HumanLess, FirstOfEach(run.human + ReviewsOf(run.groups, views)))
  }

  function ReportOf(run: Analysis, g: GuardResult, safe: string -> bool, retries: nat): FinalReport {
    FinalReport(retries, ViewsOf(run, g, safe), g.items, MergedHumanReview(run, ViewsOf(run, g, safe)))
  }

  /** The analysis the report is made from: the given one, or the one with a new choice for one group. */
  function UsedAnalysis(run: Analysis, g: GuardResult, retry: bool, reply: Question -> Option<Selection>): Analysis {
    if retry && Retried(run, g, reply).Some? then Retried(run, g, reply).value else run
  }

  /** The bounds of the report's models (models.py:227, 268-270). */
  function Checked(report: FinalReport): Result<FinalReport, ReportError> {
    if exists v :: v in report.findings && |v.citations| > MAX_CITATIONS_OF_FINDING then Err(TooManyCitations)
    else if |report.human| > MAX_HUMAN_ITEMS then Err(TooManyHumanItems)
    else Ok(report)
  }

  /** What the inputs make of an analysis: a guarded result, a retry if it can help, a report. */
  function BuildOf(library: Option<Library>, voc: Vocabulary, run: Analysis, llmReview: bool, hasClient: bool,
                   reply: Question -> Option<Selection>, safe: string -> bool): Result<FinalReport, ReportError>
  {
    var g := Guarded(library, voc, run);
    if !WithinLimits(g) then Err(GuardTooLarge)
    else
      var retry := ShouldRetry(g, llmReview, hasClient);
      var used := UsedAnalysis(run, g, retry, reply);
      var checked := Guarded(library, voc, used);
      if !WithinLimits(checked) then Err(GuardTooLarge)
      else Checked(ReportOf(used, checked, safe, if retry then 1 else 0))
  }

  /** `FinalReportBuilder.build`: one report of every finding, with at most one retry. */
  method Build(library: Option<Library>, voc: Vocabulary, run: Analysis, llmReview: bool, hasClient: bool,
               reply: Question -> Option<Selection>, safe: string -> bool)
    returns (r: Result<FinalReport, ReportError>)
    requires run.Valid() && (library.Some? ==> Filed(library.value))
    ensures r == BuildOf(library, voc, run, llmReview, hasClient, reply, safe)
  {
    hide Guarded, Rechosen, Sort, KeepsGroup, Retried, WithinLimits, ShouldRetry, ViewsOf, MergedHumanReview;
    var source := run;
    var first := Validate(library, voc, source);
    if first.Err? { return Err(GuardTooLarge); }
    var checked := first.value;
    var retries := 0;
    if ShouldRetry(checked, llmReview, hasClient) {
      retries := 1;
      OnlyTrustedRetries(library, voc, run, llmReview, hasClient);
      var retried := RetryOnce(library.value, voc, source, checked, reply);
      if retried.Some? {
        RetriedKeepsGroup(run, checked, reply);
        ghost var s :| KeepsGroup(run, s) && retried.value == Rechosen(run, s);
        SameButCandidates(run, s);
        source := retried.value;
        var second := Validate(library, voc, source);
        if second.Err? { return Err(GuardTooLarge); }
        checked := second.value;
      }
    }
    var views := ViewsOf(source, checked, safe);
    var crowded := exists v :: v in views && |v.citations| > MAX_CITATIONS_OF_FINDING;
    if crowded { return Err(TooManyCitations); }
    var human := MergeHumanReview(source, views);
    if |human| > MAX_HUMAN_ITEMS { return Err(TooManyHumanItems); }
    r := Ok(FinalReport(retries, views, checked.items, human));
  }

  lemma OnlyTrustedRetries(library: Option<Library>, voc: Vocabulary, run: Analysis, llmReview: bool, hasClient: bool)
    requires ShouldRetry(Guarded(library, voc, run), llmReview, hasClient)
    ensures library.Some? && ShouldRetry(Guarded(library, voc, run), true, true)
  {
    hide Sort;
  }

  /** `_merged_human_review`. */
  method MergeHumanReview(run: Analysis, views: seq<ReportFinding>) returns (human: seq<HumanItem>)
    ensures human == MergedHumanReview(run, views)
  {
    var reviews := ReviewAll(run.groups, views);
    var unique := KeepFirsts(run.human + reviews);
    human := Sort(HumanLess, unique);
  }

  /** The loop over the findings of the report. */
  method ReviewAll(groups: seq<Group>, views: seq<ReportFinding>) returns (items: seq<HumanItem>)
    ensures items == ReviewsOf(groups, views)
  {
    hide GroupOfFinding;
    items := [];
    for i := 0 to |views|
      invariant items == ReviewsOf(groups, views[..i])
    {
      assert views[..i + 1][..i] == views[..i];
      var v := views[i];
      var group := GroupOfFinding(groups, v.finding.id);
      var more := [];
      if v.text.None? { more := more + [HumanItem(group, [v.finding.id], FALLBACK, None)]; }
      if v.citations == [] {
        more := more + [HumanItem(group, [v.finding.id], UNAVAILABLE, None)];
      } else {
        more := more + [HumanItem(group, [v.finding.id], NOT_EVALUATED, None)];
      }
      items := items + more;
    }
    assert views[..|views|] == views;
  }

  /** The loop that fills `unique`. */
  method KeepFirsts(items: seq<HumanItem>) returns (unique: seq<HumanItem>)
    ensures unique == FirstOfEach(items)
  {
    hide SameKey;
    unique := [];
    for i := 0 to |items|
      invariant unique == FirstOfEach(items[..i])
    {
      assert items[..i + 1][..i] == items[..i];
      if !(exists y :: y in unique && SameKey(y, items[i])) { unique := unique + [items[i]]; }
    }
    assert items[..|items|] == items;
  }

  // ----- nobody is forgotten -----

  ghost predicate Kept(human: seq<HumanItem>, x: HumanItem) { exists y :: y in human && SameKey(y, x) }

  lemma KeptLater(a: seq<HumanItem>, b: seq<HumanItem>, x: HumanItem)
    requires Kept(a, x) && forall y :: y in a ==> y in b
    ensures Kept(b, x)
  {
    hide SameKey;
  }

  lemma SameAsItself(x: HumanItem)
    ensures SameKey(x, x)
  {}

  lemma {:induction false} FirstOfEachCovers(items: seq<HumanItem>)
    ensures forall x :: x in items ==> Kept(FirstOfEach(items), x)
    ensures forall y :: y in FirstOfEach(items) ==> y in items
    ensures |FirstOfEach(items)| <= |items|
  {
    hide SameKey, Kept;
    if items != [] {
      var n := |items| - 1;
      FirstOfEachCovers(items[..n]);
      assert items == items[..n] + [items[n]];
      LastKept(items);
      forall z | z in items[..n]
        ensures Kept(FirstOfEach(items), z)
      {
        KeptLater(FirstOfEach(items[..n]), FirstOfEach(items), z);
      }
    }
  }

  lemma LastKept(items: seq<HumanItem>)
    requires items != []
    ensures Kept(FirstOfEach(items), items[|items| - 1])
  {
    hide SameKey;
    var before, x := FirstOfEach(items[..|items| - 1]), items[|items| - 1];
    SameAsItself(x);
    if !(exists y :: y in before && SameKey(y, x)) { assert FirstOfEach(items)[|before|] == x; }
  }

  /** Merging keeps an item of every key and invents none. */
  lemma MergedHolds(items: seq<HumanItem>)
    ensures var human := Sort(HumanLess, FirstOfEach(items));
            (forall x :: x in items ==> Kept(human, x)) && (forall y :: y in human ==> y in items) && |human| <= |items|
  {
    hide Sort, FirstOfEach, HumanLess, Kept;
    FirstOfEachCovers(items);
    SortPermutes(HumanLess, FirstOfEach(items));
    SameElements(Sort(HumanLess, FirstOfEach(items)), FirstOfEach(items));
    forall x | x in items
      ensures Kept(Sort(HumanLess, FirstOfEach(items)), x)
    {
      KeptLater(FirstOfEach(items), Sort(HumanLess, FirstOfEach(items)), x);
    }
  }

  lemma {:induction false} ReviewsCover(groups: seq<Group>, views: seq<ReportFinding>)
    ensures forall v :: v in views ==> StatusItem(groups, v) in ReviewsOf(groups, views)
    ensures |ReviewsOf(groups, views)| <= 2 * |views|
  {
    hide StatusItem, GroupOfFinding;
    if views != [] {
      var n := |views| - 1;
      ReviewsCover(groups, views[..n]);
      assert views == views[..n] + [views[n]];
      var r := ReviewOf(groups, views[n]);
      assert r[|r| - 1] == StatusItem(groups, views[n]);
    }
  }

  /** The item is about one of the findings viewed. */
  ghost predicate AboutOne(views: seq<ReportFinding>, y: HumanItem) {
    exists v :: v in views && y.findings == [v.finding.id]
  }

  lemma {:induction false} ReviewsAreAbout(groups: seq<Group>, views: seq<ReportFinding>)
    ensures forall x :: x in ReviewsOf(groups, views) ==> AboutOne(views, x)
  {
    hide GroupOfFinding;
    if views != [] {
      var n := |views| - 1;
      ReviewsAreAbout(groups, views[..n]);
      assert views[n] in views && forall v :: v in views[..n] ==> v in views;
      forall x | x in ReviewsOf(groups, views)
        ensures AboutOne(views, x)
      {
        if x in ReviewsOf(groups, views[..n]) {
          var v :| v in views[..n] && x.findings == [v.finding.id];
          assert v in views;
        } else {
          assert x.findings == [views[n].finding.id];
        }
      }
    }
  }

  /** The human items say what the citations of a finding amount to. */
  ghost predicate Reviewed(human: seq<HumanItem>, v: ReportFinding) {
    exists y :: y in human && y.findings == [v.finding.id] &&
           y.reason == if v.citations == [] then UNAVAILABLE else NOT_EVALUATED
  }

  /**
    The human items of a report hold every item of the analysis and, for every finding, what its
    citations amount to.
   */
  lemma EveryFindingReviewed(run: Analysis, views: seq<ReportFinding>)
    ensures var human := MergedHumanReview(run, views);
            (forall x :: x in run.human ==> Kept(human, x)) && (forall v :: v in views ==> Reviewed(human, v)) &&
            (forall y :: y in human ==> y in run.human || AboutOne(views, y)) && |human| <= |run.human| + 2 * |views|
  {
    hide Sort, GroupOfFinding, ReviewsOf, FirstOfEach, HumanLess, AboutOne, Kept, Reviewed, StatusItem;
    var items := run.human + ReviewsOf(run.groups, views);
    MergedHolds(items);
    ReviewsCover(run.groups, views);
    ReviewsAreAbout(run.groups, views);
    forall v | v in views
      ensures Reviewed(MergedHumanReview(run, views), v)
    {
      assert StatusItem(run.groups, v) in items;
      KeptIsReviewed(run.groups, MergedHumanReview(run, views), v);
    }
  }

  lemma KeptIsReviewed(groups: seq<Group>, human: seq<HumanItem>, v: ReportFinding)
    requires Kept(human, StatusItem(groups, v))
    ensures Reviewed(human, v)
  {
    hide GroupOfFinding;
  }

  lemma ViewIsOf(run: Analysis, g: GuardResult, safe: string -> bool, i: nat)
    requires i < |run.findings|
    ensures ViewsOf(run, g, safe)[i].finding == run.findings[i]
  {}

  // ----- the report passes its own checks -----

  /** Human items name findings of the report only. */
  lemma HumanItemsKnown(run: Analysis, g: GuardResult, safe: string -> bool, y: HumanItem, id: Id)
    requires run.Sound() && y in ReportOf(run, g, safe, 0).human && id in y.findings
    ensures run.KnownFinding(id)
  {
    hide MergedHumanReview, ViewOf;
    var views := ViewsOf(run, g, safe);
    EveryFindingReviewed(run, views);
    if y !in run.human {
      var v :| v in views && y.findings == [v.finding.id];
      var i :| 0 <= i < |views| && views[i] == v;
      ViewIsOf(run, g, safe, i);
      assert run.findings[i] in run.findings;
    }
  }

  lemma {:induction false} CitationsForIs(citations: seq<Citation>, id: Id)
    ensures forall c :: c in CitationsFor(citations, id) <==> c in citations && id in c.findings
    ensures Apart(citations) ==> Apart(CitationsFor(citations, id))
  {
    if citations != [] {
      var n := |citations| - 1;
      CitationsForIs(citations[..n], id);
      assert citations == citations[..n] + [citations[n]];
      if Apart(citations) {
        var before := CitationsFor(citations[..n], id);
        forall k | 0 <= k < |before|
          ensures before[k].group != citations[n].group || before[k].chunk != citations[n].chunk
        {
          assert before[k] in citations[..n];
        }
      }
    }
  }

  /** A citation is of the only group that has the finding, and of the finding's rule. */
  lemma CitationIsOfGroup(library: Library, voc: Vocabulary, run: Analysis, c: Candidate, f: Finding)
    requires run.Sound() && Filed(library) && Verdict(library, voc, run, c).Ok? && f in run.findings
    requires f.id in Verdict(library, voc, run, c).value.findings
    ensures var v := Verdict(library, voc, run, c).value;
            v.rule == f.rule && forall g :: g in run.groups && f.id in g.findings ==> v.group == g.id
  {
    hide Verdict, Duplicated, BindingsFor, Mentioned, TermsFit, Genuine;
    VerdictIff(library, voc, run, c);
    var g := GroupOf(run.groups, c.group).value;
    var fs := FindingsOf(run.findings, g.findings);
    var k :| 0 <= k < |g.findings| && g.findings[k] == f.id;
    assert fs[k] in fs;
    SameFinding(run, fs[k], f);
  }

  lemma SameFinding(run: Analysis, x: Finding, y: Finding)
    requires run.Sound() && x in run.findings && y in run.findings && x.id == y.id
    ensures x == y
  {
    var ids := seq(|run.findings|, i requires 0 <= i < |run.findings| => run.findings[i].id);
    var i :| 0 <= i < |run.findings| && run.findings[i] == x;
    var j :| 0 <= j < |run.findings| && run.findings[j] == y;
    assert ids[i] == ids[j];
  }

  /** The citations of a finding name it, share its rule and group, and are told apart by their chunks. */
  lemma CitationsOfFinding(library: Library, voc: Vocabulary, run: Analysis, f: Finding)
    requires run.Sound() && Filed(library) && f in run.findings
    ensures var cs := CitationsFor(Guarded(Some(library), voc, run).citations, f.id);
            (forall v :: v in cs ==> f.id in v.findings && v.rule == f.rule) &&
            (forall v, w :: v in cs && w in cs ==> v.group == w.group) &&
            (forall i, j :: 0 <= i < j < |cs| ==> cs[i].chunk != cs[j].chunk)
  {
    hide Verdict, ValidCandidate, Guarded, CitationsFor;
    var all := Guarded(Some(library), voc, run).citations;
    CitationsForIs(all, f.id);
    CitationsExactly(library, voc, run);
    GuardAlwaysAccepted(Some(library), voc, run);
    AscendingIsApart(all);
    var cs := CitationsFor(all, f.id);
    forall v, w | v in cs && w in cs
      ensures v.rule == f.rule && v.group == w.group
    {
      var c :| c in run.candidates && Verdict(library, voc, run, c) == Ok(v);
      var d :| d in run.candidates && Verdict(library, voc, run, d) == Ok(w);
      CitationIsOfGroup(library, voc, run, c, f);
      CitationIsOfGroup(library, voc, run, d, f);
      VerdictIff(library, voc, run, d);
      assert GroupOf(run.groups, d.group).value in run.groups;
    }
    forall i, j | 0 <= i < j < |cs|
      ensures cs[i].chunk != cs[j].chunk
    {
      assert cs[i] in cs && cs[j] in cs;
    }
  }

  lemma AscendingIsApart(cs: seq<Citation>)
    requires Ascending(CitationLess, cs)
    ensures Apart(cs)
  {
    StringsOrdered();
    forall i, j | 0 <= i < j < |cs|
      ensures cs[i].group != cs[j].group || cs[i].chunk != cs[j].chunk
    {
      assert CitationLess(cs[i], cs[j]);
    }
  }

  lemma {:induction false} BindingsForIs(bindings: seq<Binding>, group: Id, chunk: Id)
    ensures forall b :: b in BindingsFor(bindings, group, chunk) <==>
      b in bindings && b.group == group && chunk in b.chunks
  {
    if bindings != [] {
      var n := |bindings| - 1;
      BindingsForIs(bindings[..n], group, chunk);
      assert bindings == bindings[..n] + [bindings[n]];
    }
  }

  // ----- the retry leaves other findings alone -----

  lemma ChunksOrdered()
    ensures StrictOrder(ChunkLess)
  {
    StringsOrdered();
    hide StringLess;
  }

  /** The citations of a finding outside the retried group, in the order of the report, are what they were. */
  lemma SameCitations(library: Library, voc: Vocabulary, run: Analysis, s: Selection, f: Finding)
    requires run.Sound() && Filed(library) && KeepsGroup(run, s) && f in run.findings && f.id !in s.findings
    ensures var before, after := Guarded(Some(library), voc, run).citations,
      Guarded(Some(library), voc, Rechosen(run, s)).citations;
            Sort(ChunkLess, CitationsFor(after, f.id)) == Sort(ChunkLess, CitationsFor(before, f.id))
  {
    hide Guarded, CitationsFor, Sort, Rechosen, KeepsGroup;
    SameButCandidates(run, s);
    var before, after := Guarded(Some(library), voc, run).citations,
      Guarded(Some(library), voc, Rechosen(run, s)).citations;
    RetryFrame(library, voc, run, s);
    CitationsForIs(before, f.id);
    CitationsForIs(after, f.id);
    CitationsOfFinding(library, voc, run, f);
    CitationsOfFinding(library, voc, Rechosen(run, s), f);
    NotOfRetried(library, voc, run, s, f);
    NotOfRetriedAfter(library, voc, run, s, f);
    ChunksOrdered();
    ChunksCompare(CitationsFor(before, f.id));
    ChunksCompare(CitationsFor(after, f.id));
    SortCanonical(ChunkLess, CitationsFor(after, f.id), CitationsFor(before, f.id));
  }

  lemma ChunksCompare(cs: seq<Citation>)
    requires forall i, j :: 0 <= i < j < |cs| ==> cs[i].chunk != cs[j].chunk
    ensures NoDuplicates(cs) && Comparable(ChunkLess, cs)
  {
    StringsOrdered();
    hide StringLess;
    forall x, y | x in cs && y in cs && x != y
      ensures ChunkLess(x, y) || ChunkLess(y, x)
    {
      var i :| 0 <= i < |cs| && cs[i] == x;
      var j :| 0 <= j < |cs| && cs[j] == y;
    }
  }

  /** No citation of the retried group names a finding outside it, before the retry or after. */
  lemma NotOfRetried(library: Library, voc: Vocabulary, run: Analysis, s: Selection, f: Finding)
    requires run.Sound() && Filed(library) && KeepsGroup(run, s) && f in run.findings && f.id !in s.findings
    ensures forall v :: v in Guarded(Some(library), voc, run).citations && f.id in v.findings ==> v.group != s.group
  {
    hide Guarded, Verdict, ValidCandidate;
    CitationsExactly(library, voc, run);
    forall v | v in Guarded(Some(library), voc, run).citations && f.id in v.findings
      ensures v.group != s.group
    {
      var c :| c in run.candidates && ValidCandidate(library, voc, run, c) && Verdict(library, voc, run, c) == Ok(v);
      VerdictIff(library, voc, run, c);
      var g :| g in run.groups && s.group == g.id && s.findings == g.findings;
      SameGroup(run, g, GroupOf(run.groups, c.group).value);
    }
  }

  lemma NotOfRetriedAfter(library: Library, voc: Vocabulary, run: Analysis, s: Selection, f: Finding)
    requires run.Sound() && Filed(library) && KeepsGroup(run, s) && f in run.findings && f.id !in s.findings
    ensures forall v :: v in Guarded(Some(library), voc, Rechosen(run, s)).citations && f.id in v.findings ==>
      v.group != s.group
  {
    hide Guarded;
    SameButCandidates(run, s);
    NotOfRetried(library, voc, Rechosen(run, s), s, f);
  }

  lemma SameGroup(run: Analysis, g: Group, h: Group)
    requires run.Sound() && g in run.groups && h in run.groups
    ensures g.id == h.id ==> g == h
  {
    var ids := seq(|run.groups|, i requires 0 <= i < |run.groups| => run.groups[i].id);
    var i :| 0 <= i < |run.groups| && run.groups[i] == g;
    var j :| 0 <= j < |run.groups| && run.groups[j] == h;
    assert ids[i] == g.id && ids[j] == h.id;
  }

  /** A retry would be about the group of this finding. */
  predicate AskedAbout(run: Analysis, g: GuardResult, id: Id) {
    var group := RetryGroup(run, g.items);
    group.Some? && id in group.value.findings
  }

  /** A retry leaves the report of every finding outside the group it asked about exactly as it was. */
  lemma RetryKeepsOtherFindings(library: Library, voc: Vocabulary, run: Analysis, reply: Question -> Option<Selection>,
                                safe: string -> bool, f: Finding)
    requires run.Sound() && Filed(library) && f in run.findings
    requires ShouldRetry(Guarded(Some(library), voc, run), true, true)
    requires !AskedAbout(run, Guarded(Some(library), voc, run), f.id)
    ensures var g := Guarded(Some(library), voc, run);
            var used := UsedAnalysis(run, g, true, reply);
            ViewOf(used, Guarded(Some(library), voc, used), safe, f) == ViewOf(run, g, safe, f)
  {
    hide Guarded, CitationsFor, Sort, Rechosen, FirstRetry, ExplanationsOf;
    RetryHasGroup(library, voc, run);
    var g := Guarded(Some(library), voc, run);
    var group := RetryGroup(run, g.items).value;
    var s := reply(QuestionFor(run, g, group));
    if Retried(run, g, reply).Some? {
      assert group in run.groups && KeepsGroup(run, s.value);
      SameButCandidates(run, s.value);
      SameTexts(run, Rechosen(run, s.value), safe, run.explanations);
      SameCitations(library, voc, run, s.value, f);
    }
  }

  lemma {:induction false} SameTexts(run: Analysis, other: Analysis, safe: string -> bool, es: seq<Explanation>)
    requires other.groups == run.groups
    ensures ExplanationsOf(other, safe, es) == ExplanationsOf(run, safe, es)
  {
    if es != [] { SameTexts(run, other, safe, es[..|es| - 1]); }
  }

  // ----- explanations -----

  /** A safe explanation of a group of the analysis, for exactly its findings. */
  ghost predicate Usable(run: Analysis, safe: string -> bool, e: Explanation) {
    safe(e.text) && GroupOf(run.groups, e.group).Some? && e.findings == GroupOf(run.groups, e.group).value.findings
  }

  lemma {:induction false} DefaultedIs(m: map<Id, string>, ids: seq<Id>, text: string)
    ensures forall id :: id in Defaulted(m, ids, text) <==> id in m || id in ids
    ensures forall id :: id in Defaulted(m, ids, text) ==>
      Defaulted(m, ids, text)[id] == if id in m then m[id] else text
  {
    if ids != [] {
      DefaultedIs(m, ids[..|ids| - 1], text);
      assert ids == ids[..|ids| - 1] + [ids[|ids| - 1]];
    }
  }

  /** A finding gets a text exactly when a usable explanation covers it, and then the text of the first that does. */
  lemma {:induction false} ExplainedIff(run: Analysis, safe: string -> bool, es: seq<Explanation>, id: Id)
    ensures id in ExplanationsOf(run, safe, es) <==>
      exists i :: 0 <= i < |es| && Usable(run, safe, es[i]) && id in es[i].findings
    ensures id in ExplanationsOf(run, safe, es) ==> exists i ::
      0 <= i < |es| && Usable(run, safe, es[i]) && id in es[i].findings &&
        ExplanationsOf(run, safe, es)[id] == es[i].text &&
      forall j :: 0 <= j < i ==> !(Usable(run, safe, es[j]) && id in es[j].findings)
  {
    if es != [] {
      var n := |es| - 1;
      ExplainedIff(run, safe, es[..n], id);
      var before, e := ExplanationsOf(run, safe, es[..n]), es[n];
      if Usable(run, safe, e) { DefaultedIs(before, e.findings, e.text); }
      hide Usable, Defaulted;
      if id in before {
        var i :| 0 <= i < n && Usable(run, safe, es[..n][i]) && id in es[..n][i].findings &&
          before[id] == es[..n][i].text &&
          forall j :: 0 <= j < i ==> !(Usable(run, safe, es[..n][j]) && id in es[..n][j].findings);
        assert forall j :: 0 <= j < i ==> es[..n][j] == es[j];
        assert Usable(run, safe, es[i]) && id in es[i].findings;
      } else {
        assert forall j :: 0 <= j < n ==> es[..n][j] == es[j];
        assert forall j :: 0 <= j < n ==> !(Usable(run, safe, es[j]) && id in es[j].findings);
      }
    }
  }
}
