/**
  The citation guard: which candidates of a finished analysis become citations
  (app/reporting/citation.py:73-463; app/reporting/models.py:134-174).
 */
module Citation {
  import opened Wrappers
  import opened Order

  type Id = string

  const MAX_GROUPS := 8
  const MAX_RETRIEVED := 40
  const MAX_CHUNKS_PER_BINDING := 5
  const MAX_CITATIONS := 40
  const MAX_ITEMS := 80

  /** Where a chunk comes from. */
  datatype Origin = Origin(sourceId: string, sourcePath: string, url: string, gitRef: string, commit: string,
                           heading: seq<string>, contentHash: string, snapshotHash: string)

  /** A chunk of the verified local artifact. */
  datatype Trusted = Trusted(id: Id, origin: Origin, text: string)

  /** A chunk as a search of this analysis returned it. */
  datatype Retrieved = Retrieved(id: Id, origin: Origin, text: string, fullLength: nat, truncated: bool)

  datatype Finding = Finding(id: Id, rule: string, oldApi: string)
  datatype Group = Group(id: Id, rule: string, findings: seq<Id>)
  datatype Candidate = Candidate(analysis: string, group: Id, findings: seq<Id>, chunk: Id)
  datatype Binding = Binding(group: Id, rule: string, findings: seq<Id>, terms: seq<string>, chunks: seq<Id>)
  datatype Explanation = Explanation(group: Id, findings: seq<Id>, text: string)
  datatype HumanItem = HumanItem(group: Option<Id>, findings: seq<Id>, reason: string, detail: Option<string>)

  datatype Analysis = Analysis(
    id: string, findings: seq<Finding>, groups: seq<Group>, retrieved: seq<Retrieved>, bindings: seq<Binding>,
    candidates: seq<Candidate>, explanations: seq<Explanation>, human: seq<HumanItem>)
  {
    /**
      What the models of a result, its bindings and its groups, and the preparation of the groups
      guarantee (graph_models.py:172-215, 278-306, 335-406), but for the number of candidates.
     */
    ghost predicate Sound() {
      |groups| <= MAX_GROUPS && |retrieved| <= MAX_RETRIEVED && |bindings| <= MAX_GROUPS &&
      (forall b :: b in bindings ==> |b.chunks| <= MAX_CHUNKS_PER_BINDING && NoDuplicates(b.chunks)) &&
      NoDuplicates(seq(|findings|, i requires 0 <= i < |findings| => findings[i].id)) &&
      NoDuplicates(seq(|groups|, i requires 0 <= i < |groups| => groups[i].id)) &&
      NoDuplicates(seq(|retrieved|, i requires 0 <= i < |retrieved| => retrieved[i].id)) &&
      (forall g :: g in groups ==> g.findings != [] && forall id :: id in g.findings ==> KnownFinding(id)) &&
      (forall g, h, id :: g in groups && h in groups && id in g.findings && id in h.findings ==> g == h) &&
      (forall x :: x in human ==> forall id :: id in x.findings ==> KnownFinding(id)) &&
      (forall b :: b in bindings ==> forall c :: c in b.chunks ==> exists r :: r in retrieved && r.id == c)
    }

    /** What every result of an agent run satisfies; a retry of the citations may add one candidate more. */
    ghost predicate Valid() { Sound() && |candidates| <= MAX_RETRIEVED }

    predicate KnownFinding(id: Id) { exists f :: f in findings && f.id == id }
  }

  datatype Citation = Citation(analysis: string, group: Id, findings: seq<Id>, rule: string, chunk: Id, origin: Origin)

  datatype Fault =
    | TrustedSourceInvalid | NoCandidate | ForgedChunk | CrossAnalysisChunk | UnknownGroup | UnknownFinding
    | FindingGroupMismatch | DuplicateCitation | UrlMismatch | RefMismatch | CommitMismatch | HeadingMismatch
    | ContentHashMismatch | SourceHashMismatch | SourceIdentityMismatch | TextMismatch | RuleMismatch
    | BindingMissing | BindingMismatch | KeywordMismatch

  datatype Refusal = Refusal(fault: Fault, retry: bool)

  datatype Item = Item(group: Option<Id>, findings: seq<Id>, chunk: Option<Id>, fault: Option<Fault>, retry: bool)

  datatype GuardResult = GuardResult(trusted: bool, allowlist: seq<Id>, citations: seq<Citation>, items: seq<Item>)

  /**
    Text facts not computed here: case folding, the terms a group's findings stand for, and whether a
    text has a term.
   */
  datatype Vocabulary = Vocabulary(fold: string -> string, terms: seq<Finding> -> set<string>,
                                   mentions: (string, string) -> bool)

  type Library = map<Id, Trusted>

  /** Trusted chunks are filed under their own identity. */
  ghost predicate Filed(library: Library) {
    forall id :: id in library ==> library[id].id == id
  }

  // ----- provenance -----

  /** `_retrieved_provenance_error`. */
  function ProvenanceFault(r: Retrieved, t: Trusted): Option<Fault> {
    if r.origin.sourceId != t.origin.sourceId || r.origin.sourcePath != t.origin.sourcePath
    then Some(SourceIdentityMismatch)
    else if r.origin.url != t.origin.url then Some(UrlMismatch)
    else if r.origin.gitRef != t.origin.gitRef then Some(RefMismatch)
    else if r.origin.commit != t.origin.commit then Some(CommitMismatch)
    else if r.origin.heading != t.origin.heading then Some(HeadingMismatch)
    else if r.origin.contentHash != t.origin.contentHash then Some(ContentHashMismatch)
    else if r.origin.snapshotHash != t.origin.snapshotHash then Some(SourceHashMismatch)
    else
      var expected := if |r.text| < |t.text| then t.text[..|r.text|] else t.text;
      if r.fullLength != |t.text| || r.text != expected || r.truncated != (|r.text| < |t.text|) then Some(TextMismatch)
      else None
  }

  /** A retrieved chunk is genuine exactly when it has the trusted origin and a declared prefix of the trusted text. */
  lemma ProvenanceIff(r: Retrieved, t: Trusted)
    ensures ProvenanceFault(r, t).None? <==>
      r.origin == t.origin && r.text <= t.text && r.fullLength == |t.text| && (r.truncated <==> r.text != t.text)
  {
    if r.text <= t.text && |r.text| == |t.text| { assert r.text == t.text; }
  }

  predicate Genuine(library: Library, r: Retrieved) {
    r.id in library && ProvenanceFault(r, library[r.id]).None?
  }

  /** `current_chunks`. */
  function CurrentOf(library: Library, retrieved: seq<Retrieved>): map<Id, Retrieved> {
    if retrieved == [] then map[]
    else
      var n := |retrieved| - 1;
      var before := CurrentOf(library, retrieved[..n]);
      if Genuine(library, retrieved[n]) then before[retrieved[n].id := retrieved[n]] else before
  }

  function FaultOf(library: Library, r: Retrieved): Fault
    requires !Genuine(library, r)
  {
    if r.id !in library then SourceIdentityMismatch else ProvenanceFault(r, library[r.id]).value
  }

  /** `current_errors`. */
  function ErrorsOf(library: Library, retrieved: seq<Retrieved>): map<Id, Fault> {
    if retrieved == [] then map[]
    else
      var n := |retrieved| - 1;
      var before := ErrorsOf(library, retrieved[..n]);
      if Genuine(library, retrieved[n]) then before else before[retrieved[n].id := FaultOf(library, retrieved[n])]
  }

  lemma {:induction false} CurrentIs(library: Library, retrieved: seq<Retrieved>)
    ensures forall id :: id in CurrentOf(library, retrieved) <==>
      exists r :: r in retrieved && r.id == id && Genuine(library, r)
    ensures forall id :: id in ErrorsOf(library, retrieved) <==>
      exists r :: r in retrieved && r.id == id && !Genuine(library, r)
  {
    hide Genuine, FaultOf;
    if retrieved != [] {
      var n := |retrieved| - 1;
      CurrentIs(library, retrieved[..n]);
      assert retrieved == retrieved[..n] + [retrieved[n]];
    }
  }

  // ----- one candidate -----

  predicate InGroups(groups: seq<Group>, id: Id) { exists g :: g in groups && g.id == id }

  /** The group of an id; a later one of the same id wins. */
  function GroupOf(groups: seq<Group>, id: Id): (r: Option<Group>)
    ensures r.Some? ==> r.value in groups && r.value.id == id
    ensures r.None? ==> forall g :: g in groups ==> g.id != id
  {
    if groups == [] then None
    else if groups[|groups| - 1].id == id then Some(groups[|groups| - 1])
    else GroupOf(groups[..|groups| - 1], id)
  }

  function FindingOf(findings: seq<Finding>, id: Id): (r: Option<Finding>)
    ensures r.Some? ==> r.value in findings && r.value.id == id
    ensures r.Some? <==> exists f :: f in findings && f.id == id
  {
    if findings == [] then None
    else
      assert findings == findings[..|findings| - 1] + [findings[|findings| - 1]];
      if findings[|findings| - 1].id == id then Some(findings[|findings| - 1])
      else FindingOf(findings[..|findings| - 1], id)
  }

  function FindingsOf(findings: seq<Finding>, ids: seq<Id>): (r: seq<Finding>)
    requires forall id :: id in ids ==> exists f :: f in findings && f.id == id
    ensures |r| == |ids| && forall i :: 0 <= i < |ids| ==> r[i] in findings && r[i].id == ids[i]
  {
    assert forall i :: 0 <= i < |ids| ==> ids[i] in ids;
    seq(|ids|, i requires 0 <= i < |ids| => FindingOf(findings, ids[i]).value)
  }

  /** The bindings of a group that brought a chunk. */
  function BindingsFor(bindings: seq<Binding>, group: Id, chunk: Id): seq<Binding> {
    if bindings == [] then []
    else
      var b := bindings[|bindings| - 1];
      BindingsFor(bindings[..|bindings| - 1], group, chunk) +
      (if b.group == group && chunk in b.chunks then [b] else [])
  }

  datatype Key = Key(analysis: string, group: Id, chunk: Id)

  function KeyOf(c: Candidate): Key { Key(c.analysis, c.group, c.chunk) }

  function KeysOf(cs: seq<Candidate>): (r: seq<Key>)
    ensures |r| == |cs|
  {
    seq(|cs|, i requires 0 <= i < |cs| => KeyOf(cs[i]))
  }

  /** More than one candidate has this key. */
  predicate Duplicated(cs: seq<Candidate>, c: Candidate) { multiset(KeysOf(cs))[KeyOf(c)] > 1 }

  function CitationOf(run: Analysis, g: Group, t: Trusted): Citation {
    Citation(run.id, g.id, g.findings, g.rule, t.id, t.origin)
  }

  /** `_validate_candidate`: the first check that fails decides. */
  function Judge(library: Library, voc: Vocabulary, run: Analysis, c: Candidate,
                 current: map<Id, Retrieved>, errors: map<Id, Fault>, duplicate: bool): Result<Citation, Refusal>
    requires current.Keys <= library.Keys
  {
    var group := GroupOf(run.groups, c.group);
    if c.analysis != run.id then Err(Refusal(CrossAnalysisChunk, false))
    else if group.None? then Err(Refusal(UnknownGroup, false))
    else if exists id :: id in c.findings && !run.KnownFinding(id) then Err(Refusal(UnknownFinding, false))
    else if c.findings != group.value.findings then Err(Refusal(FindingGroupMismatch, false))
    else
      var g := group.value;
      var findings := FindingsOf(run.findings, g.findings);
      if exists f :: f in findings && f.rule != g.rule then Err(Refusal(RuleMismatch, false))
      else if duplicate then Err(Refusal(DuplicateCitation, false))
      else if c.chunk !in current then Err(AbsentChunk(library, errors, c.chunk))
      else
        var bindings := BindingsFor(run.bindings, g.id, c.chunk);
        if bindings == [] then Err(Refusal(BindingMissing, false))
        else if |bindings| != 1 || bindings[0].rule != g.rule || bindings[0].findings != g.findings
        then Err(Refusal(BindingMismatch, false))
        else if !TermsFit(voc, bindings[0].terms, findings) then Err(Refusal(BindingMismatch, false))
        else if !Mentioned(voc, library[c.chunk].text, findings) then Err(Refusal(KeywordMismatch, true))
        else Ok(CitationOf(run, g, library[c.chunk]))
  }

  /** The verdict on a candidate, given what the analysis retrieved. */
  function Verdict(library: Library, voc: Vocabulary, run: Analysis, c: Candidate): Result<Citation, Refusal> {
    CurrentIs(library, run.retrieved);
    Judge(library, voc, run, c, CurrentOf(library, run.retrieved), ErrorsOf(library, run.retrieved),
          Duplicated(run.candidates, c))
  }

  /** Why a chunk is not current, and whether choosing again could help. */
  function AbsentChunk(library: Library, errors: map<Id, Fault>, chunk: Id): Refusal {
    if chunk in errors then Refusal(errors[chunk], false)
    else if chunk in library then Refusal(CrossAnalysisChunk, false)
    else Refusal(ForgedChunk, true)
  }

  predicate TermsFit(voc: Vocabulary, terms: seq<string>, findings: seq<Finding>) {
    terms != [] && forall t :: t in terms ==> voc.fold(t) in voc.terms(findings)
  }

  predicate Mentioned(voc: Vocabulary, text: string, findings: seq<Finding>) {
    exists term :: term in voc.terms(findings) && voc.mentions(voc.fold(text), term)
  }

  // ----- what a valid citation is -----

  /** A chunk retrieved in this analysis, genuine, and brought to the group by exactly one binding that fits it. */
  ghost predicate Supported(library: Library, voc: Vocabulary, run: Analysis, g: Group, findings: seq<Finding>,
                            chunk: Id) {
    (exists r :: r in run.retrieved && r.id == chunk && Genuine(library, r)) &&
    (exists b :: BindingsFor(run.bindings, g.id, chunk) == [b] &&
       b.rule == g.rule && b.findings == g.findings && TermsFit(voc, b.terms, findings)) &&
    Mentioned(voc, library[chunk].text, findings)
  }

  /** A candidate of this analysis, for a group of it with exactly its findings and rule, named once, and supported. */
  ghost predicate ValidCandidate(library: Library, voc: Vocabulary, run: Analysis, c: Candidate) {
    c.analysis == run.id && !Duplicated(run.candidates, c) &&
    exists g ::
      GroupOf(run.groups, c.group) == Some(g) && c.findings == g.findings &&
        (forall id :: id in g.findings ==> run.KnownFinding(id)) &&
      (forall f :: f in FindingsOf(run.findings, g.findings) ==> f.rule == g.rule) &&
      Supported(library, voc, run, g, FindingsOf(run.findings, g.findings), c.chunk)
  }

  lemma VerdictIff(library: Library, voc: Vocabulary, run: Analysis, c: Candidate)
    requires Filed(library)
    ensures Verdict(library, voc, run, c).Ok? <==> ValidCandidate(library, voc, run, c)
    ensures Verdict(library, voc, run, c).Ok? ==>
      var v := Verdict(library, voc, run, c).value;
      c.chunk in library && GroupOf(run.groups, c.group).Some? &&
      v == CitationOf(run, GroupOf(run.groups, c.group).value, library[c.chunk]) &&
      v.group == c.group && v.findings == c.findings && v.chunk == c.chunk
  {
    hide TermsFit, Mentioned, Duplicated, CurrentOf, ErrorsOf, BindingsFor;
    CurrentIs(library, run.retrieved);
    var group := GroupOf(run.groups, c.group);
    if group.Some? && c.findings == group.value.findings && (forall id :: id in c.findings ==> run.KnownFinding(id)) {
      var g := group.value;
      SupportedIs(library, voc, run, g, FindingsOf(run.findings, g.findings), c.chunk);
    }
  }

  /** The checks about the chunk, as `Verdict` makes them. */
  lemma SupportedIs(library: Library, voc: Vocabulary, run: Analysis, g: Group, findings: seq<Finding>, chunk: Id)
    ensures Supported(library, voc, run, g, findings, chunk) <==>
      (var bs := BindingsFor(run.bindings, g.id, chunk);
       chunk in CurrentOf(library, run.retrieved) && chunk in library && |bs| == 1 && bs[0].rule == g.rule &&
         bs[0].findings == g.findings &&
       TermsFit(voc, bs[0].terms, findings) && Mentioned(voc, library[chunk].text, findings))
  {
    hide TermsFit, Mentioned, CurrentOf, ErrorsOf, BindingsFor;
    CurrentIs(library, run.retrieved);
    var bs := BindingsFor(run.bindings, g.id, chunk);
    if |bs| == 1 { assert bs == [bs[0]]; }
  }

  // ----- the guard -----

  function FaultName(f: Fault): string {
    match f
    case TrustedSourceInvalid => "trusted_source_invalid"
    case NoCandidate => "no_candidate"
    case ForgedChunk => "forged_chunk_id"
    case CrossAnalysisChunk => "cross_analysis_chunk"
    case UnknownGroup => "unknown_group"
    case UnknownFinding => "unknown_finding"
    case FindingGroupMismatch => "finding_group_mismatch"
    case DuplicateCitation => "duplicate_citation"
    case UrlMismatch => "url_mismatch"
    case RefMismatch => "ref_mismatch"
    case CommitMismatch => "commit_mismatch"
    case HeadingMismatch => "heading_mismatch"
    case ContentHashMismatch => "content_hash_mismatch"
    case SourceHashMismatch => "source_hash_mismatch"
    case SourceIdentityMismatch => "source_identity_mismatch"
    case TextMismatch => "text_mismatch"
    case RuleMismatch => "rule_mismatch"
    case BindingMissing => "query_binding_missing"
    case BindingMismatch => "query_binding_mismatch"
    case KeywordMismatch => "keyword_mismatch"
  }

  function Joined(ids: seq<Id>): string {
    if ids == [] then "" else if |ids| == 1 then ids[0] else ids[0] + "," + Joined(ids[1..])
  }

  function OrEmpty(s: Option<string>): string { if s.Some? then s.value else "" }

  function ItemKey(i: Item): seq<string> {
    [OrEmpty(i.group), OrEmpty(i.chunk), if i.fault.Some? then FaultName(i.fault.value) else "", Joined(i.findings)]
  }

  /** The order of tuples of strings. */
  predicate TupleLess(a: seq<string>, b: seq<string>) {
    if b == [] then false
    else if a == [] then true
    else StringLess(a[0], b[0]) || (a[0] == b[0] && TupleLess(a[1..], b[1..]))
  }

  predicate ItemLess(x: Item, y: Item) { TupleLess(ItemKey(x), ItemKey(y)) }

  /** No two valid citations share group and chunk, so the findings never decide. */
  predicate CitationLess(x: Citation, y: Citation) {
    StringLess(x.group, y.group) || (x.group == y.group && StringLess(x.chunk, y.chunk))
  }

  function Unique(ids: seq<Id>): seq<Id> {
    if ids == [] then []
    else
      var n := |ids| - 1;
      Unique(ids[..n]) + (if ids[n] in ids[..n] then [] else [ids[n]])
  }

  function ItemFor(library: Library, voc: Vocabulary, run: Analysis, c: Candidate): Item {
    match Verdict(library, voc, run, c)
    case Ok(v) => Item(Some(v.group), v.findings, Some(v.chunk), None, false)
    case Err(Refusal(fault, retry)) => Item(Some(c.group), Sort(StringLess, Unique(c.findings)), Some(c.chunk),
                                            Some(fault), retry)
  }

  function CandidateItems(library: Library, voc: Vocabulary, run: Analysis, cs: seq<Candidate>): seq<Item> {
    if cs == [] then []
    else CandidateItems(library, voc, run, cs[..|cs| - 1]) + [ItemFor(library, voc, run, cs[|cs| - 1])]
  }

  function CitationsOf(library: Library, voc: Vocabulary, run: Analysis, cs: seq<Candidate>): seq<Citation> {
    if cs == [] then []
    else
      var v := Verdict(library, voc, run, cs[|cs| - 1]);
      CitationsOf(library, voc, run, cs[..|cs| - 1]) + (if v.Ok? then [v.value] else [])
  }

  predicate HasCandidate(run: Analysis, group: Id) { exists c :: c in run.candidates && c.group == group }

  predicate Referenced(run: Analysis, chunk: Id) { exists c :: c in run.candidates && c.chunk == chunk }

  /** Groups nobody chose a chunk for. */
  function MissingItems(run: Analysis, groups: seq<Group>): seq<Item> {
    if groups == [] then []
    else
      var g := groups[|groups| - 1];
      MissingItems(run, groups[..|groups| - 1]) +
      (if HasCandidate(run, g.id) then [] else [Item(Some(g.id), g.findings, None, Some(NoCandidate), true)])
  }

  /** Retrieved chunks that are not genuine and that nobody chose. */
  function OrphanItems(library: Library, run: Analysis, retrieved: seq<Retrieved>): seq<Item> {
    if retrieved == [] then []
    else
      var r := retrieved[|retrieved| - 1];
      OrphanItems(library, run, retrieved[..|retrieved| - 1]) +
      (if Genuine(library, r) || Referenced(run, r.id) then []
       else [Item(None, [], Some(r.id), Some(FaultOf(library, r)), false)])
  }

  function GenuineIds(library: Library, retrieved: seq<Retrieved>): seq<Id> {
    if retrieved == [] then []
    else
      var r := retrieved[|retrieved| - 1];
      GenuineIds(library, retrieved[..|retrieved| - 1]) + (if Genuine(library, r) then [r.id] else [])
  }

  function FailureItems(groups: seq<Group>): seq<Item> {
    seq(|groups|, i requires 0 <= i < |groups| => Item(Some(groups[i].id), groups[i].findings, None,
                                                       Some(TrustedSourceInvalid), false))
  }

  function AllItems(library: Library, voc: Vocabulary, run: Analysis): seq<Item> {
    CandidateItems(library, voc, run, run.candidates) + MissingItems(run, run.groups) +
    OrphanItems(library, run, run.retrieved)
  }

  function Guarded(library: Option<Library>, voc: Vocabulary, run: Analysis): GuardResult {
    if library.None? then GuardResult(false, [], [], FailureItems(run.groups))
    else
      GuardResult(true, Sort(StringLess, GenuineIds(library.value, run.retrieved)),
                  Sort(CitationLess, CitationsOf(library.value, voc, run, run.candidates)),
                  Sort(ItemLess, AllItems(library.value, voc, run)))
  }

  datatype GuardError = ResultTooLarge

  /** The bounds of the guard's result model (models.py:141-146). */
  predicate WithinLimits(g: GuardResult) { |g.citations| <= MAX_CITATIONS && |g.items| <= MAX_ITEMS }

  /** `CitationGuard.validate`: the result, unless its model refuses the size. */
  method Validate(library: Option<Library>, voc: Vocabulary, run: Analysis) returns (r: Result<GuardResult, GuardError>)
    requires run.Sound()
    ensures var g := Guarded(library, voc, run); r == if WithinLimits(g) then Ok(g) else Err(ResultTooLarge)
  {
    hide Guarded;
    var g := Collect(library, voc, run);
    r := if WithinLimits(g) then Ok(g) else Err(ResultTooLarge);
  }

  /** The loops of `validate`. */
  method Collect(library: Option<Library>, voc: Vocabulary, run: Analysis) returns (g: GuardResult)
    requires run.Sound()
    ensures g == Guarded(library, voc, run)
  {
    hide Judge, Genuine, FaultOf, Sort, Duplicated, CurrentOf, ErrorsOf, Verdict;
    if library.None? { return GuardResult(false, [], [], FailureItems(run.groups)); }
    var current, errors, allowed := Sift(library.value, run.retrieved);
    var items, citations, referenced := JudgeAll(library.value, voc, run, current, errors);
    for i := 0 to |run.groups|
      invariant items == CandidateItems(library.value, voc, run, run.candidates) + MissingItems(run, run.groups[..i])
    {
      var group := run.groups[i];
      assert run.groups[..i + 1][..i] == run.groups[..i];
      if !(exists c :: c in run.candidates && c.group == group.id) {
        JoinAssociates(CandidateItems(library.value, voc, run, run.candidates), MissingItems(run, run.groups[..i]),
                       [Item(Some(group.id), group.findings, None, Some(NoCandidate), true)]);
        items := items + [Item(Some(group.id), group.findings, None, Some(NoCandidate), true)];
      }
    }
    assert run.groups[..|run.groups|] == run.groups;
    ghost var before := items;
    for i := 0 to |run.retrieved|
      invariant items == before + OrphanItems(library.value, run, run.retrieved[..i])
    {
      var r := run.retrieved[i];
      assert run.retrieved[..i + 1][..i] == run.retrieved[..i];
      ErrorIs(library.value, run, i);
      if r.id in errors && r.id !in referenced {
        JoinAssociates(before, OrphanItems(library.value, run, run.retrieved[..i]),
                       [Item(None, [], Some(r.id), Some(errors[r.id]), false)]);
        items := items + [Item(None, [], Some(r.id), Some(errors[r.id]), false)];
      }
    }
    assert run.retrieved[..|run.retrieved|] == run.retrieved;
    g := GuardResult(true, Sort(StringLess, allowed), Sort(CitationLess, citations), Sort(ItemLess, items));
  }

  /** The first loop: what was retrieved and is genuine, and what is wrong with the rest. */
  method Sift(library: Library, retrieved: seq<Retrieved>)
      returns (current: map<Id, Retrieved>, errors: map<Id, Fault>, allowed: seq<Id>)
    ensures current == CurrentOf(library, retrieved) && errors == ErrorsOf(library, retrieved) &&
      allowed == GenuineIds(library, retrieved)
  {
    current, errors, allowed := map[], map[], [];
    for i := 0 to |retrieved|
      invariant current == CurrentOf(library, retrieved[..i]) && errors == ErrorsOf(library, retrieved[..i])
      invariant allowed == GenuineIds(library, retrieved[..i])
    {
      var r := retrieved[i];
      assert retrieved[..i + 1][..i] == retrieved[..i];
      if r.id !in library {
        errors := errors[r.id := SourceIdentityMismatch];
        continue;
      }
      var fault := ProvenanceFault(r, library[r.id]);
      if fault.None? {
        current := current[r.id := r];
        allowed := allowed + [r.id];
      } else {
        errors := errors[r.id := fault.value];
      }
    }
    assert retrieved[..|retrieved|] == retrieved;
  }

  /** The second loop: every candidate judged. */
  method JudgeAll(library: Library, voc: Vocabulary, run: Analysis, current: map<Id, Retrieved>, errors: map<Id, Fault>)
    returns (items: seq<Item>, citations: seq<Citation>, referenced: set<Id>)
    requires current == CurrentOf(library, run.retrieved) && errors == ErrorsOf(library, run.retrieved)
    ensures items == CandidateItems(library, voc, run, run.candidates)
    ensures citations == CitationsOf(library, voc, run, run.candidates)
    ensures forall id :: id in referenced <==> Referenced(run, id)
  {
    hide Judge, CurrentOf, ErrorsOf, Sort, Unique;
    CurrentIs(library, run.retrieved);
    items, citations, referenced := [], [], {};
    var counted := multiset(KeysOf(run.candidates));
    for i := 0 to |run.candidates|
      invariant items == CandidateItems(library, voc, run, run.candidates[..i])
      invariant citations == CitationsOf(library, voc, run, run.candidates[..i])
      invariant forall id :: id in referenced <==> exists j :: 0 <= j < i && run.candidates[j].chunk == id
    {
      var c := run.candidates[i];
      assert run.candidates[..i + 1][..i] == run.candidates[..i];
      referenced := referenced + {c.chunk};
      var verdict := Judge(library, voc, run, c, current, errors, counted[KeyOf(c)] > 1);
      assert verdict == Verdict(library, voc, run, c);
      match verdict {
        case Ok(v) =>
          items := items + [Item(Some(v.group), v.findings, Some(v.chunk), None, false)];
          citations := citations + [v];
        case Err(refusal) =>
          items := items + [Item(Some(c.group), Sort(StringLess, Unique(c.findings)), Some(c.chunk),
                                 Some(refusal.fault), refusal.retry)];
      }
    }
    assert run.candidates[..|run.candidates|] == run.candidates;
  }

  /** What is wrong with a retrieved chunk is on record under its id. */
  lemma ErrorIs(library: Library, run: Analysis, i: nat)
    requires run.Sound() && i < |run.retrieved|
    ensures var r := run.retrieved[i]; var errors := ErrorsOf(library, run.retrieved);
            (r.id in errors <==> !Genuine(library, r)) && (r.id in errors ==> errors[r.id] == FaultOf(library, r))
  {
    hide Genuine, FaultOf;
    RetrievedOnce(run);
    ErrorRecorded(library, run.retrieved, i);
  }

  lemma RetrievedOnce(run: Analysis)
    requires run.Sound()
    ensures forall i, j :: 0 <= i < j < |run.retrieved| ==> run.retrieved[i].id != run.retrieved[j].id
  {
    var ids := seq(|run.retrieved|, i requires 0 <= i < |run.retrieved| => run.retrieved[i].id);
    forall i, j | 0 <= i < j < |run.retrieved|
      ensures run.retrieved[i].id != run.retrieved[j].id
    {
      assert ids[i] != ids[j];
    }
  }

  lemma {:induction false} ErrorRecorded(library: Library, retrieved: seq<Retrieved>, i: nat)
    requires i < |retrieved| && forall k, l :: 0 <= k < l < |retrieved| ==> retrieved[k].id != retrieved[l].id
    ensures var r := retrieved[i]; var errors := ErrorsOf(library, retrieved);
            (r.id in errors <==> !Genuine(library, r)) && (r.id in errors ==> errors[r.id] == FaultOf(library, r))
  {
    hide Genuine, FaultOf;
    var n := |retrieved| - 1;
    if i < n {
      ErrorRecorded(library, retrieved[..n], i);
    } else {
      CurrentIs(library, retrieved[..n]);
    }
  }

  // ----- what the guard guarantees -----

  /** The checks the guard's own result has to pass (models.py:148-174). */
  ghost predicate ResultAccepted(run: Analysis, g: GuardResult) {
    Ascending(StringLess, g.allowlist) && Ascending(CitationLess, g.citations) &&
    (forall c :: c in g.citations ==> c.analysis == run.id && c.chunk in g.allowlist) &&
    (!g.trusted ==> g.citations == [])
  }

  lemma {:induction false} CitationsFrom(library: Library, voc: Vocabulary, run: Analysis, cs: seq<Candidate>)
    ensures forall v :: v in CitationsOf(library, voc, run, cs) <==>
      exists c :: c in cs && Verdict(library, voc, run, c) == Ok(v)
  {
    hide Verdict;
    if cs != [] {
      var n := |cs| - 1;
      CitationsFrom(library, voc, run, cs[..n]);
      assert cs == cs[..n] + [cs[n]];
    }
  }

  /** The valid citations are those of the valid candidates, all of them and no others. */
  lemma CitationsExactly(library: Library, voc: Vocabulary, run: Analysis)
    requires Filed(library)
    ensures forall v :: v in Guarded(Some(library), voc, run).citations <==>
      exists c :: c in run.candidates && ValidCandidate(library, voc, run, c) && Verdict(library, voc, run, c) == Ok(v)
  {
    hide Verdict, ValidCandidate, Sort, CitationsOf;
    CitationsFrom(library, voc, run, run.candidates);
    SortPermutes(CitationLess, CitationsOf(library, voc, run, run.candidates));
    SameElements(Sort(CitationLess, CitationsOf(library, voc, run, run.candidates)),
                 CitationsOf(library, voc, run, run.candidates));
    forall c | c in run.candidates
      ensures Verdict(library, voc, run, c).Ok? <==> ValidCandidate(library, voc, run, c)
    {
      VerdictIff(library, voc, run, c);
    }
  }

  /** Two candidates that are both valid have different keys. */
  lemma ValidKeysDiffer(library: Library, voc: Vocabulary, run: Analysis, i: nat, j: nat)
    requires Filed(library) && i < j < |run.candidates|
    requires Verdict(library, voc, run, run.candidates[i]).Ok? && Verdict(library, voc, run, run.candidates[j]).Ok?
    ensures run.candidates[i].group != run.candidates[j].group || run.candidates[i].chunk != run.candidates[j].chunk
  {
    hide Verdict;
    VerdictIff(library, voc, run, run.candidates[i]);
    VerdictIff(library, voc, run, run.candidates[j]);
    var keys := KeysOf(run.candidates);
    if keys[i] == keys[j] { CountTwice(keys, i, j); }
  }

  ghost predicate Apart(cs: seq<Citation>) {
    forall i, j :: 0 <= i < j < |cs| ==> cs[i].group != cs[j].group || cs[i].chunk != cs[j].chunk
  }

  lemma {:induction false} CitationsApart(library: Library, voc: Vocabulary, run: Analysis, n: nat)
    requires Filed(library) && n <= |run.candidates|
    ensures Apart(CitationsOf(library, voc, run, run.candidates[..n]))
  {
    hide Verdict;
    if n > 0 {
      var cs := run.candidates[..n];
      assert cs[..n - 1] == run.candidates[..n - 1];
      CitationsApart(library, voc, run, n - 1);
      var before := CitationsOf(library, voc, run, cs[..n - 1]);
      var v := Verdict(library, voc, run, cs[n - 1]);
      if v.Ok? {
        VerdictIff(library, voc, run, cs[n - 1]);
        CitationsFrom(library, voc, run, cs[..n - 1]);
        forall k | 0 <= k < |before|
          ensures before[k].group != v.value.group || before[k].chunk != v.value.chunk
        {
          assert before[k] in before;
          var c :| c in cs[..n - 1] && Verdict(library, voc, run, c) == Ok(before[k]);
          var j :| 0 <= j < n - 1 && cs[..n - 1][j] == c;
          VerdictIff(library, voc, run, c);
          ValidKeysDiffer(library, voc, run, j, n - 1);
        }
      }
    }
  }

  lemma CitationsOrdered()
    ensures StrictOrder(CitationLess)
  {
    StringsOrdered();
    hide StringLess;
  }

  lemma ApartCompares(cs: seq<Citation>)
    requires Apart(cs)
    ensures NoDuplicates(cs) && Comparable(CitationLess, cs)
  {
    StringsOrdered();
    hide StringLess;
    forall x, y | x in cs && y in cs && x != y
      ensures CitationLess(x, y) || CitationLess(y, x)
    {
      var i :| 0 <= i < |cs| && cs[i] == x;
      var j :| 0 <= j < |cs| && cs[j] == y;
    }
  }

  lemma {:induction false} GenuineIdsAre(library: Library, run: Analysis, n: nat)
    requires run.Sound() && n <= |run.retrieved|
    ensures var ids := GenuineIds(library, run.retrieved[..n]);
            NoDuplicates(ids) && forall id :: id in ids <==>
              exists i :: 0 <= i < n && run.retrieved[i].id == id && Genuine(library, run.retrieved[i])
  {
    hide Genuine;
    RetrievedOnce(run);
    if n > 0 {
      assert run.retrieved[..n][..n - 1] == run.retrieved[..n - 1];
      GenuineIdsAre(library, run, n - 1);
      var before, r := GenuineIds(library, run.retrieved[..n - 1]), run.retrieved[n - 1];
      assert r.id !in before;
      assert GenuineIds(library, run.retrieved[..n]) == before + (if Genuine(library, r) then [r.id] else []);
    }
  }

  /** The allowlist is the genuine chunks of this analysis, in order. */
  lemma AllowlistExactly(library: Library, voc: Vocabulary, run: Analysis)
    requires run.Sound()
    ensures var g := Guarded(Some(library), voc, run);
            Ascending(StringLess, g.allowlist) &&
            forall id :: id in g.allowlist <==> exists r :: r in run.retrieved && r.id == id && Genuine(library, r)
  {
    hide Genuine, Sort, GenuineIds, StringLess;
    var n := |run.retrieved|;
    assert run.retrieved[..n] == run.retrieved;
    GenuineIdsAre(library, run, n);
    var ids := GenuineIds(library, run.retrieved);
    StringsOrdered();
    SortAscends(StringLess, ids);
    SortPermutes(StringLess, ids);
    SameElements(Sort(StringLess, ids), ids);
    forall id
      ensures id in ids <==> exists r :: r in run.retrieved && r.id == id && Genuine(library, r)
    {
      if id in ids {
        var i :| 0 <= i < n && run.retrieved[i].id == id && Genuine(library, run.retrieved[i]);
        assert run.retrieved[i] in run.retrieved;
      }
    }
  }

  /** The result is always acceptable: sorted, without repetition, and only chunks of the allowlist. */
  lemma GuardAlwaysAccepted(library: Option<Library>, voc: Vocabulary, run: Analysis)
    requires run.Sound() && (library.Some? ==> Filed(library.value))
    ensures ResultAccepted(run, Guarded(library, voc, run))
  {
    hide Verdict, ValidCandidate, Genuine, Sort, CitationsOf, CitationLess, StringLess, GenuineIds, AllItems;
    if library.Some? {
      var l := library.value;
      var cs := CitationsOf(l, voc, run, run.candidates);
      assert run.candidates[..|run.candidates|] == run.candidates;
      CitationsApart(l, voc, run, |run.candidates|);
      ApartCompares(cs);
      CitationsOrdered();
      SortAscends(CitationLess, cs);
      AllowlistExactly(l, voc, run);
      CitationsExactly(l, voc, run);
      forall v | v in Guarded(library, voc, run).citations
        ensures v.analysis == run.id && v.chunk in Guarded(library, voc, run).allowlist
      {
        var c :| c in run.candidates && ValidCandidate(l, voc, run, c) && Verdict(l, voc, run, c) == Ok(v);
        VerdictIff(l, voc, run, c);
        ValidIsGenuine(l, voc, run, c);
      }
    }
  }

  lemma ValidIsGenuine(library: Library, voc: Vocabulary, run: Analysis, c: Candidate)
    requires ValidCandidate(library, voc, run, c)
    ensures exists r :: r in run.retrieved && r.id == c.chunk && Genuine(library, r)
  {
    hide Genuine, TermsFit, Mentioned, Duplicated, BindingsFor;
  }
}
