/**
  When a report is refused for its size: exact conditions on the analysis, and an analysis for each
  refusal (app/reporting/models.py:141-146, 227, 268-270).
 */
module ReportLimits {
  import opened Wrappers
  import opened Order
  import opened Citation
  import opened Report

  // ----- how many human items a report has -----

  datatype HumanKey = HumanKey(group: Option<Id>, findings: seq<Id>, reason: string)

  function KeyOfItem(x: HumanItem): HumanKey { HumanKey(x.group, x.findings, x.reason) }

  function HumanKeys(items: seq<HumanItem>): set<HumanKey> {
    set x | x in items :: KeyOfItem(x)
  }

  lemma KeysOfMore(items: seq<HumanItem>, x: HumanItem)
    ensures HumanKeys(items + [x]) == HumanKeys(items) + {KeyOfItem(x)}
  {}

  lemma KeysJoin(a: seq<HumanItem>, b: seq<HumanItem>)
    ensures HumanKeys(a + b) == HumanKeys(a) + HumanKeys(b)
  {}

  /** Merging leaves one item of each key. */
  lemma {:induction false} FirstOfEachCount(items: seq<HumanItem>)
    ensures HumanKeys(FirstOfEach(items)) == HumanKeys(items) && |FirstOfEach(items)| == |HumanKeys(items)|
  {
    if items != [] {
      var n := |items| - 1;
      var before, x := FirstOfEach(items[..n]), items[n];
      FirstOfEachCount(items[..n]);
      assert items == items[..n] + [x];
      KeysOfMore(items[..n], x);
      KeysOfMore(before, x);
      assert (exists y :: y in before && SameKey(y, x)) <==> KeyOfItem(x) in HumanKeys(before);
    }
  }

  /** Findings of the report that fall back to the template. */
  function Textless(views: seq<ReportFinding>): nat {
    if views == [] then 0 else Textless(views[..|views| - 1]) + if views[|views| - 1].text.None? then 1 else 0
  }

  predicate DistinctViews(views: seq<ReportFinding>) {
    forall i, j :: 0 <= i < j < |views| ==> views[i].finding.id != views[j].finding.id
  }

  lemma {:induction false} ReviewKeysName(groups: seq<Group>, views: seq<ReportFinding>)
    ensures forall k :: k in HumanKeys(ReviewsOf(groups, views)) ==>
      exists v :: v in views && k.findings == [v.finding.id]
  {
    hide ReviewsOf;
    ReviewsAreAbout(groups, views);
  }

  /** Every finding takes an item of its own, and a second one if it has no text. */
  lemma {:induction false} ReviewKeysCount(groups: seq<Group>, views: seq<ReportFinding>)
    requires DistinctViews(views)
    ensures |HumanKeys(ReviewsOf(groups, views))| == |views| + Textless(views)
  {
    if views != [] {
      var n := |views| - 1;
      var v, before := views[n], ReviewsOf(groups, views[..n]);
      ReviewKeysCount(groups, views[..n]);
      ReviewKeysName(groups, views[..n]);
      var fallback := HumanItem(GroupOfFinding(groups, v.finding.id), [v.finding.id], FALLBACK, None);
      var status := StatusItem(groups, v);
      hide ReviewsOf, GroupOfFinding;
      assert forall k :: k in HumanKeys(before) ==> k.findings != [v.finding.id];
      assert KeyOfItem(fallback) !in HumanKeys(before) && KeyOfItem(status) !in HumanKeys(before);
      assert KeyOfItem(fallback) != KeyOfItem(status);
      LastReview(groups, views);
      if v.text.None? {
        assert before + [fallback, status] == (before + [fallback]) + [status];
        KeysOfMore(before, fallback);
        KeysOfMore(before + [fallback], status);
      } else {
        KeysOfMore(before, status);
      }
    }
  }

  lemma LastReview(groups: seq<Group>, views: seq<ReportFinding>)
    requires views != []
    ensures var n, v := |views| - 1, views[|views| - 1];
            ReviewsOf(groups, views) == ReviewsOf(groups, views[..n]) +
              if v.text.None?
              then [HumanItem(GroupOfFinding(groups, v.finding.id), [v.finding.id], FALLBACK, None),
                    StatusItem(groups, v)]
              else [StatusItem(groups, v)]
  {
    hide GroupOfFinding;
    assert [] + [StatusItem(groups, views[|views| - 1])] == [StatusItem(groups, views[|views| - 1])];
  }

  /** Keys of the analysis' own human items that the report does not produce itself. */
  function ForeignKeys(run: Analysis, views: seq<ReportFinding>): set<HumanKey> {
    HumanKeys(run.human) - HumanKeys(ReviewsOf(run.groups, views))
  }

  lemma UnionSize<T>(a: set<T>, b: set<T>)
    ensures |a + b| == |a - b| + |b|
  {
    assert a + b == (a - b) + b;
  }

  lemma MergedCount(run: Analysis, views: seq<ReportFinding>)
    requires DistinctViews(views)
    ensures |MergedHumanReview(run, views)| == |ForeignKeys(run, views)| + |views| + Textless(views)
  {
    hide Sort, HumanLess, FirstOfEach, ReviewsOf;
    var items := run.human + ReviewsOf(run.groups, views);
    FirstOfEachCount(items);
    KeysJoin(run.human, ReviewsOf(run.groups, views));
    UnionSize(HumanKeys(run.human), HumanKeys(ReviewsOf(run.groups, views)));
    ReviewKeysCount(run.groups, views);
    SortPermutes(HumanLess, FirstOfEach(items));
    SameElements(Sort(HumanLess, FirstOfEach(items)), FirstOfEach(items));
  }

  ghost predicate Explained(run: Analysis, safe: string -> bool, id: Id) {
    exists i :: 0 <= i < |run.explanations| && Usable(run, safe, run.explanations[i]) &&
           id in run.explanations[i].findings
  }

  /** Findings without a usable explanation. */
  ghost function Unexplained(run: Analysis, safe: string -> bool, fs: seq<Finding>): nat {
    if fs == [] then 0
    else Unexplained(run, safe, fs[..|fs| - 1]) + if Explained(run, safe, fs[|fs| - 1].id) then 0 else 1
  }

  lemma {:induction false} TextlessIs(run: Analysis, g: GuardResult, safe: string -> bool, n: nat)
    requires n <= |run.findings|
    ensures Textless(ViewsOf(run, g, safe)[..n]) == Unexplained(run, safe, run.findings[..n])
  {
    hide Usable, ExplanationsOf;
    if n > 0 {
      var views := ViewsOf(run, g, safe);
      TextlessIs(run, g, safe, n - 1);
      ExplainedIff(run, safe, run.explanations, run.findings[n - 1].id);
      assert views[..n][..n - 1] == views[..n - 1] && run.findings[..n][..n - 1] == run.findings[..n - 1];
    }
  }

  lemma ViewsDistinct(run: Analysis, g: GuardResult, safe: string -> bool)
    requires run.Sound()
    ensures DistinctViews(ViewsOf(run, g, safe))
  {
    hide ViewOf;
    var ids := seq(|run.findings|, i requires 0 <= i < |run.findings| => run.findings[i].id);
    forall i, j | 0 <= i < j < |run.findings|
      ensures ViewsOf(run, g, safe)[i].finding.id != ViewsOf(run, g, safe)[j].finding.id
    {
      ViewIsOf(run, g, safe, i);
      ViewIsOf(run, g, safe, j);
      assert ids[i] != ids[j];
    }
  }

  /** How many human items a report has: the foreign keys, one for each finding, one more for each without a text. */
  lemma HumanItemCount(run: Analysis, g: GuardResult, safe: string -> bool)
    requires run.Sound()
    ensures var views := ViewsOf(run, g, safe);
            |MergedHumanReview(run, views)| ==
            |ForeignKeys(run, views)| + |run.findings| + Unexplained(run, safe, run.findings)
  {
    hide MergedHumanReview, ForeignKeys, ViewsOf, Unexplained, Textless;
    var views := ViewsOf(run, g, safe);
    ViewsDistinct(run, g, safe);
    MergedCount(run, views);
    TextlessIs(run, g, safe, |run.findings|);
    assert views[..|views|] == views && run.findings[..|run.findings|] == run.findings;
  }

  /** Items with reasons of the agent's own are all foreign. */
  lemma OwnReasonsAreForeign(run: Analysis, views: seq<ReportFinding>)
    requires forall x :: x in run.human ==> x.reason !in {FALLBACK, UNAVAILABLE, NOT_EVALUATED}
    ensures ForeignKeys(run, views) == HumanKeys(run.human)
  {
    hide ReviewsOf;
    ReviewReasons(run.groups, views);
  }

  lemma {:induction false} ReviewReasons(groups: seq<Group>, views: seq<ReportFinding>)
    ensures forall x :: x in ReviewsOf(groups, views) ==> x.reason in {FALLBACK, UNAVAILABLE, NOT_EVALUATED}
  {
    hide GroupOfFinding;
    if views != [] { ReviewReasons(groups, views[..|views| - 1]); }
  }

  // ----- how many items and citations the guard has -----

  function MissingGroups(run: Analysis, groups: seq<Group>): nat {
    if groups == [] then 0
    else MissingGroups(run, groups[..|groups| - 1]) + if HasCandidate(run, groups[|groups| - 1].id) then 0 else 1
  }

  function Orphans(library: Library, run: Analysis, retrieved: seq<Retrieved>): nat {
    if retrieved == [] then 0
    else
      var r := retrieved[|retrieved| - 1];
      Orphans(library, run, retrieved[..|retrieved| - 1]) +
      if Genuine(library, r) || Referenced(run, r.id) then 0 else 1
  }

  /** Items: one for each candidate, each group without one, each chunk neither genuine nor chosen. */
  function ItemCount(library: Library, run: Analysis): nat {
    |run.candidates| + MissingGroups(run, run.groups) + Orphans(library, run, run.retrieved)
  }

  lemma {:induction false} MissingCount(run: Analysis, groups: seq<Group>)
    ensures |MissingItems(run, groups)| == MissingGroups(run, groups) <= |groups|
  {
    if groups != [] { MissingCount(run, groups[..|groups| - 1]); }
  }

  lemma {:induction false} OrphanCount(library: Library, run: Analysis, retrieved: seq<Retrieved>)
    ensures |OrphanItems(library, run, retrieved)| == Orphans(library, run, retrieved)
  {
    hide Genuine, FaultOf;
    if retrieved != [] { OrphanCount(library, run, retrieved[..|retrieved| - 1]); }
  }

  lemma {:induction false} CandidateItemCount(library: Library, voc: Vocabulary, run: Analysis, cs: seq<Candidate>)
    ensures |CandidateItems(library, voc, run, cs)| == |cs|
  {
    hide ItemFor;
    if cs != [] { CandidateItemCount(library, voc, run, cs[..|cs| - 1]); }
  }

  lemma ItemsCounted(library: Library, voc: Vocabulary, run: Analysis)
    ensures |Guarded(Some(library), voc, run).items| == ItemCount(library, run)
  {
    hide Sort, CandidateItems, MissingItems, OrphanItems, ItemLess, CitationsOf, GenuineIds, MissingGroups, Orphans;
    MissingCount(run, run.groups);
    OrphanCount(library, run, run.retrieved);
    CandidateItemCount(library, voc, run, run.candidates);
    var all := AllItems(library, voc, run);
    SortPermutes(ItemLess, all);
    SameElements(Sort(ItemLess, all), all);
  }

  /** The pairs of group and chunk that the searches brought. */
  function PairsOf(bindings: seq<Binding>): seq<(Id, Id)> {
    if bindings == [] then []
    else
      var b := bindings[|bindings| - 1];
      PairsOf(bindings[..|bindings| - 1]) + seq(|b.chunks|, i requires 0 <= i < |b.chunks| => (b.group, b.chunks[i]))
  }

  lemma {:induction false} PairsAre(bindings: seq<Binding>)
    requires forall b :: b in bindings ==> |b.chunks| <= MAX_CHUNKS_PER_BINDING
    ensures |PairsOf(bindings)| <= MAX_CHUNKS_PER_BINDING * |bindings|
    ensures forall b, c :: b in bindings && c in b.chunks ==> (b.group, c) in PairsOf(bindings)
  {
    if bindings != [] {
      var n := |bindings| - 1;
      PairsAre(bindings[..n]);
      var b := bindings[n];
      var last := seq(|b.chunks|, i requires 0 <= i < |b.chunks| => (b.group, b.chunks[i]));
      forall c | c in b.chunks
        ensures (b.group, c) in last
      {
        var i :| 0 <= i < |b.chunks| && b.chunks[i] == c;
        assert last[i] == (b.group, c);
      }
      assert bindings == bindings[..n] + [b];
    }
  }

  lemma {:induction false} SubsetIsSmaller<T>(a: set<T>, b: set<T>)
    requires a <= b
    ensures |a| <= |b|
  {
    if a != {} {
      var x :| x in a;
      SubsetIsSmaller(a - {x}, b - {x});
    }
  }

  /** The bound on citations is never exceeded: each is a pair some search brought. */
  lemma CitationsAlwaysFew(library: Option<Library>, voc: Vocabulary, run: Analysis)
    requires run.Sound() && (library.Some? ==> Filed(library.value))
    ensures |Guarded(library, voc, run).citations| <= MAX_CITATIONS
  {
    hide Guarded, PairsOf;
    if library.Some? {
      var cs := Guarded(library, voc, run).citations;
      GuardAlwaysAccepted(library, voc, run);
      AscendingIsApart(cs);
      PairsAre(run.bindings);
      var pairs := seq(|cs|, i requires 0 <= i < |cs| => (cs[i].group, cs[i].chunk));
      forall i | 0 <= i < |cs|
        ensures pairs[i] in PairsOf(run.bindings)
      {
        var b := BindingBehind(library.value, voc, run, cs[i]);
      }
      assert NoDuplicates(pairs);
      SetOfSeq(pairs);
      SetOfSeq(PairsOf(run.bindings));
      SubsetIsSmaller(set x | x in pairs, set x | x in PairsOf(run.bindings));
    } else {
      NothingTrusted(voc, run);
    }
  }

  lemma NothingTrusted(voc: Vocabulary, run: Analysis)
    ensures var g := Guarded(None, voc, run); g.citations == [] && |g.items| == |run.groups| && !g.trusted
  {}

  lemma BindingBehind(library: Library, voc: Vocabulary, run: Analysis, v: Citation) returns (b: Binding)
    requires run.Sound() && Filed(library) && v in Guarded(Some(library), voc, run).citations
    ensures b in run.bindings && b.group == v.group && v.chunk in b.chunks
  {
    hide Verdict, Guarded, BindingsFor, Genuine, TermsFit, Mentioned, Duplicated, FindingsOf;
    CitationsExactly(library, voc, run);
    var c :| c in run.candidates && ValidCandidate(library, voc, run, c) && Verdict(library, voc, run, c) == Ok(v);
    VerdictIff(library, voc, run, c);
    var g := GroupOf(run.groups, c.group).value;
    BindingsForIs(run.bindings, g.id, c.chunk);
    b :| BindingsFor(run.bindings, g.id, c.chunk) == [b];
    assert b in [b];
  }

  /** The guard's result is refused exactly for its number of items. */
  lemma GuardWithinLimitsIff(library: Option<Library>, voc: Vocabulary, run: Analysis)
    requires run.Sound() && (library.Some? ==> Filed(library.value))
    ensures WithinLimits(Guarded(library, voc, run)) <==> library.None? || ItemCount(library.value, run) <= MAX_ITEMS
  {
    hide Guarded, ItemCount;
    CitationsAlwaysFew(library, voc, run);
    if library.Some? { ItemsCounted(library.value, voc, run); } else { NothingTrusted(voc, run); }
  }

  // ----- after a retry -----

  /** A retry is only tried when every retrieved chunk is genuine. */
  lemma RetryMeansGenuine(library: Library, voc: Vocabulary, run: Analysis)
    requires run.Sound() && ShouldRetry(Guarded(Some(library), voc, run), true, true)
    ensures forall r :: r in run.retrieved ==> Genuine(library, r)
  {
    hide Guarded, Genuine;
    forall r | r in run.retrieved
      ensures Genuine(library, r)
    {
      if !Genuine(library, r) {
        var item := SpoiledItem(library, voc, run, r);
        ItemsKept(library, voc, run, item);
      }
    }
  }

  lemma ItemsKept(library: Library, voc: Vocabulary, run: Analysis, i: Item)
    requires i in AllItems(library, voc, run)
    ensures i in Guarded(Some(library), voc, run).items
  {
    hide Sort, AllItems, ItemLess, CitationsOf, GenuineIds;
    SortPermutes(ItemLess, AllItems(library, voc, run));
    SameElements(Sort(ItemLess, AllItems(library, voc, run)), AllItems(library, voc, run));
  }

  /** A chunk that is not genuine leaves an item no retry can mend. */
  lemma SpoiledItem(library: Library, voc: Vocabulary, run: Analysis, r: Retrieved) returns (i: Item)
    requires run.Sound() && r in run.retrieved && !Genuine(library, r)
    ensures i in AllItems(library, voc, run) && Invalid(i) && !i.retry
  {
    hide Genuine, CandidateItems, MissingItems, OrphanItems, ItemFor, FaultOf;
    if Referenced(run, r.id) {
      var c :| c in run.candidates && c.chunk == r.id;
      SpoiledVerdict(library, voc, run, r, c);
      i := ItemFor(library, voc, run, c);
      CandidateItemIn(library, voc, run, run.candidates, c);
    } else {
      i := Item(None, [], Some(r.id), Some(FaultOf(library, r)), false);
      OrphanItemIn(library, run, run.retrieved, r);
    }
  }

  lemma SpoiledVerdict(library: Library, voc: Vocabulary, run: Analysis, r: Retrieved, c: Candidate)
    requires run.Sound() && r in run.retrieved && !Genuine(library, r) && c.chunk == r.id
    ensures Invalid(ItemFor(library, voc, run, c)) && !ItemFor(library, voc, run, c).retry
  {
    hide Genuine, CurrentOf, ErrorsOf, Sort, Unique, Duplicated, FindingsOf, BindingsFor, TermsFit, Mentioned;
    CurrentIs(library, run.retrieved);
    RetrievedOnce(run);
    assert c.chunk in ErrorsOf(library, run.retrieved);
    forall x | x in run.retrieved && x.id == c.chunk
      ensures x == r
    {
      var i :| 0 <= i < |run.retrieved| && run.retrieved[i] == x;
      var j :| 0 <= j < |run.retrieved| && run.retrieved[j] == r;
    }
    assert c.chunk !in CurrentOf(library, run.retrieved);
  }

  lemma {:induction false} CandidateItemIn(library: Library, voc: Vocabulary, run: Analysis, cs: seq<Candidate>,
                                           c: Candidate)
    requires c in cs
    ensures ItemFor(library, voc, run, c) in CandidateItems(library, voc, run, cs)
  {
    hide ItemFor;
    var n := |cs| - 1;
    assert cs == cs[..n] + [cs[n]];
    if c in cs[..n] { CandidateItemIn(library, voc, run, cs[..n], c); }
  }

  lemma {:induction false} OrphanItemIn(library: Library, run: Analysis, retrieved: seq<Retrieved>, r: Retrieved)
    requires r in retrieved && !Genuine(library, r) && !Referenced(run, r.id)
    ensures Item(None, [], Some(r.id), Some(FaultOf(library, r)), false) in OrphanItems(library, run, retrieved)
  {
    hide Genuine, FaultOf;
    var n := |retrieved| - 1;
    assert retrieved == retrieved[..n] + [retrieved[n]];
    if r in retrieved[..n] { OrphanItemIn(library, run, retrieved[..n], r); }
  }

  lemma {:induction false} NoOrphans(library: Library, run: Analysis, retrieved: seq<Retrieved>)
    requires forall r :: r in retrieved ==> Genuine(library, r) || Referenced(run, r.id)
    ensures Orphans(library, run, retrieved) == 0
  {
    hide Genuine;
    if retrieved != [] {
      var n := |retrieved| - 1;
      assert retrieved[n] in retrieved && forall r :: r in retrieved[..n] ==> r in retrieved;
      NoOrphans(library, run, retrieved[..n]);
    }
  }

  lemma {:induction false} WithoutFewer(cs: seq<Candidate>, group: Id)
    ensures |Without(cs, group)| <= |cs|
  {
    if cs != [] { WithoutFewer(cs[..|cs| - 1], group); }
  }

  /** The second guarding is never refused. */
  lemma RetryStaysWithin(library: Library, voc: Vocabulary, run: Analysis, s: Selection)
    requires run.Valid() && Filed(library) && ShouldRetry(Guarded(Some(library), voc, run), true, true)
    ensures WithinLimits(Guarded(Some(library), voc, Rechosen(run, s)))
  {
    hide Guarded, Genuine, Without, Orphans, MissingGroups;
    var used := Rechosen(run, s);
    SameButCandidates(run, s);
    RetryMeansGenuine(library, voc, run);
    NoOrphans(library, used, used.retrieved);
    MissingCount(used, used.groups);
    WithoutFewer(run.candidates, s.group);
    GuardWithinLimitsIff(Some(library), voc, used);
  }

  // ----- how many citations a finding has -----

  /** The valid candidates among `cs` that name the finding. */
  ghost function CountValid(library: Library, voc: Vocabulary, run: Analysis, id: Id, cs: seq<Candidate>): nat {
    if cs == [] then 0
    else
      var c := cs[|cs| - 1];
      CountValid(library, voc, run, id, cs[..|cs| - 1]) +
      if ValidCandidate(library, voc, run, c) && id in c.findings then 1 else 0
  }

  lemma {:induction false} ValidCounted(library: Library, voc: Vocabulary, run: Analysis, id: Id, cs: seq<Candidate>)
    requires Filed(library)
    ensures |CitationsFor(CitationsOf(library, voc, run, cs), id)| == CountValid(library, voc, run, id, cs)
  {
    hide Verdict, ValidCandidate;
    if cs != [] {
      var n := |cs| - 1;
      ValidCounted(library, voc, run, id, cs[..n]);
      VerdictIff(library, voc, run, cs[n]);
      var before, v := CitationsOf(library, voc, run, cs[..n]), Verdict(library, voc, run, cs[n]);
      if v.Ok? {
        assert (before + [v.value])[..|before|] == before;
      } else {
        assert before + [] == before;
      }
    }
  }

  lemma SameSize<T>(a: seq<T>, b: seq<T>)
    requires NoDuplicates(a) && NoDuplicates(b) && forall x :: x in a <==> x in b
    ensures |a| == |b|
  {
    SetOfSeq(a);
    SetOfSeq(b);
    assert (set x | x in a) == set x | x in b;
  }

  lemma ApartDistinct(cs: seq<Citation>)
    requires Apart(cs)
    ensures NoDuplicates(cs)
  {}

  /** A finding has as many citations as there are valid candidates naming it. */
  lemma CitationCount(library: Library, voc: Vocabulary, run: Analysis, id: Id)
    requires run.Sound() && Filed(library)
    ensures |CitationsFor(Guarded(Some(library), voc, run).citations, id)| ==
      CountValid(library, voc, run, id, run.candidates)
  {
    hide Verdict, ValidCandidate, Sort, CitationsOf, AllItems, GenuineIds, CitationsFor, CountValid;
    var all := CitationsOf(library, voc, run, run.candidates);
    var sorted := Guarded(Some(library), voc, run).citations;
    assert run.candidates[..|run.candidates|] == run.candidates;
    CitationsApart(library, voc, run, |run.candidates|);
    GuardAlwaysAccepted(Some(library), voc, run);
    AscendingIsApart(sorted);
    SortPermutes(CitationLess, all);
    SameElements(sorted, all);
    CitationsForIs(all, id);
    CitationsForIs(sorted, id);
    ApartDistinct(CitationsFor(all, id));
    ApartDistinct(CitationsFor(sorted, id));
    SameSize(CitationsFor(sorted, id), CitationsFor(all, id));
    ValidCounted(library, voc, run, id, run.candidates);
  }

  /** Some finding has more valid candidates than a report may cite for it. */
  ghost predicate Overcited(library: Option<Library>, voc: Vocabulary, run: Analysis) {
    library.Some? && exists f ::
      f in run.findings &&
      CountValid(library.value, voc, run, f.id, run.candidates) > MAX_CITATIONS_OF_FINDING
  }

  lemma ViewCitations(library: Option<Library>, voc: Vocabulary, run: Analysis, safe: string -> bool, i: nat)
    requires run.Sound() && (library.Some? ==> Filed(library.value)) && i < |run.findings|
    ensures var v := ViewsOf(run, Guarded(library, voc, run), safe)[i];
            |v.citations| ==
            if library.None? then 0
            else CountValid(library.value, voc, run, run.findings[i].id, run.candidates)
  {
    hide Guarded, Sort, CountValid, ExplanationsOf;
    var cs := CitationsFor(Guarded(library, voc, run).citations, run.findings[i].id);
    SortPermutes(ChunkLess, cs);
    SameElements(Sort(ChunkLess, cs), cs);
    if library.Some? { CitationCount(library.value, voc, run, run.findings[i].id); } else { NothingTrusted(voc, run); }
  }

  /** With one search a group, as in an agent run, no finding has more than five. */
  lemma AtMostFiveCitations(library: Option<Library>, voc: Vocabulary, run: Analysis)
    requires run.Sound() && (library.Some? ==> Filed(library.value))
    requires forall a, b :: a in run.bindings && b in run.bindings && a.group == b.group ==> a == b
    ensures !Overcited(library, voc, run)
  {
    hide CountValid;
    if library.Some? {
      forall f | f in run.findings
        ensures CountValid(library.value, voc, run, f.id, run.candidates) <= MAX_CITATIONS_OF_FINDING
      {
        FewCitations(library.value, voc, run, f);
        CitationCount(library.value, voc, run, f.id);
      }
    }
  }

  lemma FewCitations(library: Library, voc: Vocabulary, run: Analysis, f: Finding)
    requires run.Sound() && Filed(library) && f in run.findings
    requires forall a, b :: a in run.bindings && b in run.bindings && a.group == b.group ==> a == b
    ensures |CitationsFor(Guarded(Some(library), voc, run).citations, f.id)| <= MAX_CITATIONS_OF_FINDING
  {
    hide Guarded, CitationsFor;
    var all := Guarded(Some(library), voc, run).citations;
    var cs := CitationsFor(all, f.id);
    CitationsForIs(all, f.id);
    if cs != [] {
      CitationsOfFinding(library, voc, run, f);
      assert cs[0] in cs;
      var b := BindingBehind(library, voc, run, cs[0]);
      var chunks := seq(|cs|, i requires 0 <= i < |cs| => cs[i].chunk);
      forall i | 0 <= i < |cs|
        ensures chunks[i] in b.chunks
      {
        assert cs[i] in cs;
        var a := BindingBehind(library, voc, run, cs[i]);
      }
      SetOfSeq(chunks);
      SetOfSeq(b.chunks);
      SubsetIsSmaller(set x | x in chunks, set x | x in b.chunks);
    }
  }

  // ----- exactly when a report is refused -----

  /** Human items: one for each foreign key, one for each finding, one more for each finding without a text. */
  ghost predicate Overfull(run: Analysis, views: seq<ReportFinding>, safe: string -> bool) {
    |ForeignKeys(run, views)| + |run.findings| + Unexplained(run, safe, run.findings) > MAX_HUMAN_ITEMS
  }

  /** With reasons of the agent's own, the human items are counted without the report. */
  lemma OverfullIff(run: Analysis, views: seq<ReportFinding>, safe: string -> bool)
    requires forall x :: x in run.human ==> x.reason !in {FALLBACK, UNAVAILABLE, NOT_EVALUATED}
    ensures Overfull(run, views, safe) <==>
      |HumanKeys(run.human)| + |run.findings| + Unexplained(run, safe, run.findings) > MAX_HUMAN_ITEMS
  {
    OwnReasonsAreForeign(run, views);
    hide ReviewsOf, HumanKeys, Unexplained, ForeignKeys;
  }

  /** The report's own checks, on the analysis it is made from. */
  lemma CheckedIff(library: Option<Library>, voc: Vocabulary, run: Analysis, safe: string -> bool, retries: nat)
    requires run.Sound() && (library.Some? ==> Filed(library.value))
    ensures var g := Guarded(library, voc, run);
            var views, r := ViewsOf(run, g, safe), Checked(ReportOf(run, g, safe, retries));
            (r == Err(TooManyCitations) <==> Overcited(library, voc, run)) &&
            (r == Err(TooManyHumanItems) <==> !Overcited(library, voc, run) && Overfull(run, views, safe)) &&
            (r.Err? ==> r.error in {TooManyCitations, TooManyHumanItems})
  {
    hide Guarded, ViewsOf, CountValid, MergedHumanReview, ForeignKeys, Unexplained;
    var g := Guarded(library, voc, run);
    HumanItemCount(run, g, safe);
    CrowdedIff(library, voc, run, safe);
  }

  lemma CrowdedIff(library: Option<Library>, voc: Vocabulary, run: Analysis, safe: string -> bool)
    requires run.Sound() && (library.Some? ==> Filed(library.value))
    ensures var views := ViewsOf(run, Guarded(library, voc, run), safe);
            (exists v :: v in views && |v.citations| > MAX_CITATIONS_OF_FINDING) <==> Overcited(library, voc, run)
  {
    hide Guarded, CountValid, ViewOf;
    var views := ViewsOf(run, Guarded(library, voc, run), safe);
    if exists v :: v in views && |v.citations| > MAX_CITATIONS_OF_FINDING {
      var v :| v in views && |v.citations| > MAX_CITATIONS_OF_FINDING;
      var i :| 0 <= i < |views| && views[i] == v;
      ViewCitations(library, voc, run, safe, i);
      assert run.findings[i] in run.findings;
    }
    if Overcited(library, voc, run) {
      var f :| f in run.findings &&
        CountValid(library.value, voc, run, f.id, run.candidates) > MAX_CITATIONS_OF_FINDING;
      var i :| 0 <= i < |run.findings| && run.findings[i] == f;
      ViewCitations(library, voc, run, safe, i);
      assert views[i] in views;
    }
  }

  /** The analysis the report is made from, with the guard's result on the given one. */
  function UsedBy(library: Option<Library>, voc: Vocabulary, run: Analysis, llmReview: bool, hasClient: bool,
                  reply: Question -> Option<Selection>): Analysis
  {
    var g := Guarded(library, voc, run);
    UsedAnalysis(run, g, ShouldRetry(g, llmReview, hasClient), reply)
  }

  lemma UsedIsSound(library: Option<Library>, voc: Vocabulary, run: Analysis, llmReview: bool, hasClient: bool,
                    reply: Question -> Option<Selection>)
    requires run.Valid() && (library.Some? ==> Filed(library.value))
    ensures var used := UsedBy(library, voc, run, llmReview, hasClient, reply);
            used.Sound() && used.findings == run.findings && used.explanations == run.explanations &&
            used.groups == run.groups && used.human == run.human && used.bindings == run.bindings &&
            (WithinLimits(Guarded(library, voc, run)) ==> WithinLimits(Guarded(library, voc, used)))
  {
    hide Guarded, Retried, WithinLimits, ShouldRetry, Rechosen, KeepsGroup;
    var g := Guarded(library, voc, run);
    if ShouldRetry(g, llmReview, hasClient) && Retried(run, g, reply).Some? {
      OnlyTrustedRetries(library, voc, run, llmReview, hasClient);
      RetriedKeepsGroup(run, g, reply);
      var s :| KeepsGroup(run, s) && Retried(run, g, reply).value == Rechosen(run, s);
      SameButCandidates(run, s);
      RetryStaysWithin(library.value, voc, run, s);
    }
  }

  lemma SameUnexplained(run: Analysis, other: Analysis, safe: string -> bool, n: nat)
    requires other.groups == run.groups && other.explanations == run.explanations && n <= |run.findings|
    ensures Unexplained(other, safe, run.findings[..n]) == Unexplained(run, safe, run.findings[..n])
  {
    hide GroupOf;
    if n > 0 {
      SameUnexplained(run, other, safe, n - 1);
      assert run.findings[..n][..n - 1] == run.findings[..n - 1];
      forall e
        ensures Usable(other, safe, e) <==> Usable(run, safe, e)
      {}
    }
  }

  /**
    A report is refused exactly when the audit of the citations has more than eighty items, when a
    finding has more than five valid citations after the retry, or when the human items, one for each
    key that is not the report's own, one for each finding and one more for each finding without a
    usable explanation, are more than seven hundred.
   */
  lemma BuildRefusedIff(library: Option<Library>, voc: Vocabulary, run: Analysis, llmReview: bool, hasClient: bool,
                        reply: Question -> Option<Selection>, safe: string -> bool)
    requires run.Valid() && (library.Some? ==> Filed(library.value))
    ensures var r := BuildOf(library, voc, run, llmReview, hasClient, reply, safe);
            var used := UsedBy(library, voc, run, llmReview, hasClient, reply);
            var views := ViewsOf(used, Guarded(library, voc, used), safe);
            (r == Err(GuardTooLarge) <==> library.Some? && ItemCount(library.value, run) > MAX_ITEMS) &&
            (r == Err(TooManyCitations) <==> r != Err(GuardTooLarge) && Overcited(library, voc, used)) &&
            (r == Err(TooManyHumanItems) <==>
             r != Err(GuardTooLarge) && r != Err(TooManyCitations) && Overfull(run, views, safe))
  {
    hide Guarded, ViewsOf, ItemCount, Overcited, Overfull, WithinLimits, ShouldRetry, UsedAnalysis, ReportOf, Checked;
    var g := Guarded(library, voc, run);
    var used := UsedBy(library, voc, run, llmReview, hasClient, reply);
    GuardWithinLimitsIff(library, voc, run);
    UsedIsSound(library, voc, run, llmReview, hasClient, reply);
    CheckedIff(library, voc, used, safe, if ShouldRetry(g, llmReview, hasClient) then 1 else 0);
    SameOverfull(run, used, ViewsOf(used, Guarded(library, voc, used), safe), safe);
  }

  lemma SameOverfull(run: Analysis, other: Analysis, views: seq<ReportFinding>, safe: string -> bool)
    requires other.groups == run.groups && other.explanations == run.explanations && other.findings == run.findings &&
      other.human == run.human
    ensures Overfull(other, views, safe) <==> Overfull(run, views, safe)
  {
    hide ReviewsOf;
    SameUnexplained(run, other, safe, |run.findings|);
    assert run.findings[..|run.findings|] == run.findings;
  }

  /** In particular more than seven hundred findings leave no report. */
  lemma TooManyFindings(library: Option<Library>, voc: Vocabulary, run: Analysis, llmReview: bool, hasClient: bool,
                        reply: Question -> Option<Selection>, safe: string -> bool)
    requires run.Valid() && (library.Some? ==> Filed(library.value)) && |run.findings| > MAX_HUMAN_ITEMS
    ensures BuildOf(library, voc, run, llmReview, hasClient, reply, safe).Err?
  {
    hide BuildOf, ForeignKeys, Unexplained, ViewsOf;
    BuildRefusedIff(library, voc, run, llmReview, hasClient, reply, safe);
  }

  // ----- an analysis for each refusal -----

  const NOBODY: Question -> Option<Selection> := (q: Question) => None
  const ANY_TEXT: string -> bool := (t: string) => true
  const ANY_TERM := Vocabulary(s => s, fs => {"t"}, (text, term) => true)

  /** A name of its own for each number. */
  function Name(c: char, i: nat): (r: string)
    ensures |r| == i + 1 && r[0] == c
  {
    seq(i + 1, _ => c)
  }

  function Names(c: char, n: nat): (r: seq<string>)
    ensures |r| == n && NoDuplicates(r)
  {
    var r := seq(n, i requires 0 <= i < n => Name(c, i));
    assert forall i :: 0 <= i < n ==> |r[i]| == i + 1;
    r
  }

  /** `n` findings, and nothing else. */
  function Bare(n: nat): Analysis {
    Analysis("a", seq(n, i requires 0 <= i < n => Finding(Name('f', i), "r", "x")), [], [], [], [], [], [])
  }

  lemma BareIsValid(n: nat)
    ensures Bare(n).Valid() && |Bare(n).findings| == n && Bare(n).human == [] && Bare(n).explanations == []
  {
    var ids := seq(n, i requires 0 <= i < n => Bare(n).findings[i].id);
    assert forall i :: 0 <= i < n ==> |ids[i]| == i + 1;
  }

  lemma {:induction false} NoneExplained(run: Analysis, safe: string -> bool, fs: seq<Finding>)
    requires run.explanations == []
    ensures Unexplained(run, safe, fs) == |fs|
  {
    if fs != [] { NoneExplained(run, safe, fs[..|fs| - 1]); }
  }

  /** Without explanations 351 findings are already too many, and 350 are not. */
  lemma BareReport(n: nat)
    ensures BuildOf(None, ANY_TERM, Bare(n), true, true, NOBODY, ANY_TEXT) == Err(TooManyHumanItems) <==> n > 350
    ensures BuildOf(None, ANY_TERM, Bare(n), true, true, NOBODY, ANY_TEXT).Ok? <==> n <= 350
  {
    hide Guarded, ViewsOf, Unexplained, BuildOf, ItemCount, CountValid, Bare;
    BareIsValid(n);
    NothingTrusted(ANY_TERM, Bare(n));
    BuildRefusedIff(None, ANY_TERM, Bare(n), true, true, NOBODY, ANY_TEXT);
    NoneExplained(Bare(n), ANY_TEXT, Bare(n).findings);
    BuildErrors(Bare(n));
  }

  lemma BuildErrors(run: Analysis)
    ensures var r := BuildOf(None, ANY_TERM, run, true, true, NOBODY, ANY_TEXT);
            r.Ok? || r == Err(GuardTooLarge) || r == Err(TooManyCitations) || r == Err(TooManyHumanItems)
  {}

  /** Eight groups nobody chose for, forty candidates of no group, and 33 chunks nobody chose. */
  function Scattered(): Analysis {
    Analysis("a", FindingsNamed('f', 8), GroupsNamed('g', 'f', 8), RetrievedNamed('c', 33), [],
             seq(40, _ => Candidate("a", "?", ["?"], "?")), [], [])
  }

  const NOWHERE := Origin("", "", "", "", "", [], "", "")

  function FindingsNamed(c: char, n: nat): (r: seq<Finding>)
    ensures |r| == n && forall i :: 0 <= i < n ==> r[i] == Finding(Name(c, i), "r", "x")
  {
    seq(n, i requires 0 <= i < n => Finding(Name(c, i), "r", "x"))
  }

  /** Groups of one finding each. */
  function GroupsNamed(c: char, f: char, n: nat): (r: seq<Group>)
    ensures |r| == n && forall i :: 0 <= i < n ==> r[i] == Group(Name(c, i), "r", [Name(f, i)])
  {
    seq(n, i requires 0 <= i < n => Group(Name(c, i), "r", [Name(f, i)]))
  }

  function RetrievedNamed(c: char, n: nat): (r: seq<Retrieved>)
    ensures |r| == n && forall i :: 0 <= i < n ==> r[i] == Retrieved(Name(c, i), NOWHERE, "", 0, false)
  {
    seq(n, i requires 0 <= i < n => Retrieved(Name(c, i), NOWHERE, "", 0, false))
  }

  lemma NamedApart(c: char, f: char, n: nat)
    ensures var fs := FindingsNamed(c, n); NoDuplicates(seq(n, i requires 0 <= i < n => fs[i].id))
    ensures var gs := GroupsNamed(c, f, n); NoDuplicates(seq(n, i requires 0 <= i < n => gs[i].id))
    ensures var rs := RetrievedNamed(c, n); NoDuplicates(seq(n, i requires 0 <= i < n => rs[i].id))
  {
    var names := Names(c, n);
    var fs, gs, rs := FindingsNamed(c, n), GroupsNamed(c, f, n), RetrievedNamed(c, n);
    assert seq(n, i requires 0 <= i < n => fs[i].id) == names;
    assert seq(n, i requires 0 <= i < n => gs[i].id) == names;
    assert seq(n, i requires 0 <= i < n => rs[i].id) == names;
  }

  lemma GroupsDisjoint(c: char, f: char, n: nat)
    ensures var gs, fs := GroupsNamed(c, f, n), FindingsNamed(f, n);
            (forall g, h, id :: g in gs && h in gs && id in g.findings && id in h.findings ==> g == h) &&
            forall g :: g in gs ==> g.findings != [] && forall id :: id in g.findings ==>
                   exists x :: x in fs && x.id == id
  {
    hide Name;
    var gs, fs := GroupsNamed(c, f, n), FindingsNamed(f, n);
    forall g, h, id | g in gs && h in gs && id in g.findings && id in h.findings
      ensures g == h
    {
      var i :| 0 <= i < n && gs[i] == g;
      var j :| 0 <= j < n && gs[j] == h;
      assert |Name(f, i)| == i + 1 && |Name(f, j)| == j + 1;
    }
    forall g, id | g in gs && id in g.findings
      ensures exists x :: x in fs && x.id == id
    {
      var i :| 0 <= i < n && gs[i] == g;
      assert fs[i] in fs && fs[i].id == id;
    }
  }

  lemma ScatteredIsValid()
    ensures Scattered().Valid()
  {
    hide Name, GroupsNamed, FindingsNamed, RetrievedNamed;
    NamedApart('f', 'f', 8);
    NamedApart('g', 'f', 8);
    NamedApart('c', 'f', 33);
    GroupsDisjoint('g', 'f', 8);
  }

  lemma {:induction false} AllMissing(run: Analysis, groups: seq<Group>)
    requires forall g :: g in groups ==> !HasCandidate(run, g.id)
    ensures MissingGroups(run, groups) == |groups|
  {
    if groups != [] {
      var n := |groups| - 1;
      assert groups[n] in groups && forall g :: g in groups[..n] ==> g in groups;
      AllMissing(run, groups[..n]);
    }
  }

  lemma {:induction false} AllOrphans(library: Library, run: Analysis, retrieved: seq<Retrieved>)
    requires forall r :: r in retrieved ==> !Genuine(library, r) && !Referenced(run, r.id)
    ensures Orphans(library, run, retrieved) == |retrieved|
  {
    if retrieved != [] {
      var n := |retrieved| - 1;
      assert retrieved[n] in retrieved && forall r :: r in retrieved[..n] ==> r in retrieved;
      AllOrphans(library, run, retrieved[..n]);
    }
  }

  /** Eighty-one audit items: no report. */
  lemma ScatteredReport()
    ensures BuildOf(Some(map[]), ANY_TERM, Scattered(), true, true, NOBODY, ANY_TEXT) == Err(GuardTooLarge)
  {
    hide Guarded, ViewsOf, Unexplained, BuildOf, Overcited, ForeignKeys;
    var run := Scattered();
    ScatteredIsValid();
    forall g | g in run.groups
      ensures !HasCandidate(run, g.id)
    {
      assert g.id[0] == 'g';
    }
    forall r | r in run.retrieved
      ensures !Genuine(map[], r) && !Referenced(run, r.id)
    {
      assert r.id[0] == 'c';
    }
    AllMissing(run, run.groups);
    AllOrphans(map[], run, run.retrieved);
    BuildRefusedIff(Some(map[]), ANY_TERM, run, true, true, NOBODY, ANY_TEXT);
  }

  /** One finding, for which two searches brought five chunks and one, all of them chosen. */
  function Crowded(): Analysis {
    Analysis("a", [Finding("f", "r", "x")], [Group("g", "r", ["f"])], RetrievedNamed('c', 6),
             [BindingNamed(Names('c', 5)), BindingNamed([Name('c', 5)])], CandidatesNamed('c', 6), [], [])
  }

  function BindingNamed(chunks: seq<Id>): Binding { Binding("g", "r", ["f"], ["t"], chunks) }

  function CandidatesNamed(c: char, n: nat): (r: seq<Candidate>)
    ensures |r| == n && forall i :: 0 <= i < n ==> r[i] == Candidate("a", "g", ["f"], Name(c, i))
  {
    seq(n, i requires 0 <= i < n => Candidate("a", "g", ["f"], Name(c, i)))
  }

  function Shelf(c: char, n: nat): (r: Library)
    ensures Filed(r) && forall i: nat :: i < n ==> Name(c, i) in r && r[Name(c, i)] == Trusted(Name(c, i), NOWHERE, "")
  {
    var names := set x | x in Names(c, n);
    assert forall i: nat :: i < n ==> Names(c, n)[i] == Name(c, i) && Names(c, n)[i] in Names(c, n);
    map id | id in names :: Trusted(id, NOWHERE, "")
  }

  lemma CrowdedIsValid()
    ensures Crowded().Valid()
  {
    hide Name, RetrievedNamed, CandidatesNamed;
    var run := Crowded();
    NamedApart('c', 'f', 6);
    assert run.findings[0] in run.findings;
    forall b, c | b in run.bindings && c in b.chunks
      ensures exists r :: r in run.retrieved && r.id == c
    {
      var i: nat :| i < 6 && c == Name('c', i);
      assert run.retrieved[i] in run.retrieved && run.retrieved[i].id == c;
    }
  }

  lemma {:induction false} OrphansFew(library: Library, run: Analysis, retrieved: seq<Retrieved>)
    ensures Orphans(library, run, retrieved) <= |retrieved|
  {
    hide Genuine;
    if retrieved != [] { OrphansFew(library, run, retrieved[..|retrieved| - 1]); }
  }

  lemma {:induction false} AllCounted(library: Library, voc: Vocabulary, run: Analysis, id: Id, cs: seq<Candidate>)
    requires forall c :: c in cs ==> ValidCandidate(library, voc, run, c) && id in c.findings
    ensures CountValid(library, voc, run, id, cs) == |cs|
  {
    hide ValidCandidate;
    if cs != [] {
      var n := |cs| - 1;
      assert cs[n] in cs && forall c :: c in cs[..n] ==> c in cs;
      AllCounted(library, voc, run, id, cs[..n]);
    }
  }

  lemma CrowdedKeys(i: nat)
    requires i < 6
    ensures !Duplicated(Crowded().candidates, Crowded().candidates[i])
  {
    var cs := Crowded().candidates;
    var keys := KeysOf(cs);
    assert forall k, l :: 0 <= k < l < 6 ==> |keys[k].chunk| == k + 1 && |keys[l].chunk| == l + 1;
    CountOnce(keys, KeyOf(cs[i]));
  }

  lemma CrowdedBindings(i: nat)
    requires i < 6
    ensures exists b ::
      BindingsFor(Crowded().bindings, "g", Name('c', i)) == [b] && b.rule == "r" &&
      b.findings == ["f"] && b.terms == ["t"]
  {
    hide Name;
    var bs := Crowded().bindings;
    var chunk := Name('c', i);
    assert bs[..1] == [bs[0]] && [bs[0]][..0] == [];
    assert forall k: nat :: k < 5 ==> Names('c', 5)[k] == Name('c', k) && |Name('c', k)| == k + 1;
    assert chunk in bs[0].chunks <==> i < 5;
    assert chunk in bs[1].chunks <==> i == 5;
    assert BindingsFor([bs[0]], "g", chunk) == if i < 5 then [bs[0]] else [];
    assert BindingsFor(bs, "g", chunk) == [if i < 5 then bs[0] else bs[1]];
  }

  lemma CrowdedChosen(i: nat)
    requires i < 6
    ensures ValidCandidate(Shelf('c', 6), ANY_TERM, Crowded(), Crowded().candidates[i])
  {
    hide Name, Shelf, BindingsFor, Duplicated, RetrievedNamed, CandidatesNamed;
    var run, library, c := Crowded(), Shelf('c', 6), Crowded().candidates[i];
    CrowdedKeys(i);
    CrowdedBindings(i);
    var g := run.groups[0];
    assert GroupOf(run.groups, "g") == Some(g);
    assert run.findings[0] in run.findings && run.KnownFinding("f");
    var fs := FindingsOf(run.findings, g.findings);
    var r := run.retrieved[i];
    assert r in run.retrieved && Genuine(library, r) by { assert library[r.id] == Trusted(r.id, NOWHERE, ""); }
    assert Mentioned(ANY_TERM, library[c.chunk].text, fs) by {
      assert "t" in ANY_TERM.terms(fs) && ANY_TERM.mentions(ANY_TERM.fold(""), "t");
    }
    assert Supported(library, ANY_TERM, run, g, fs, c.chunk);
  }

  /** Six valid citations for one finding: no report. */
  lemma CrowdedReport()
    ensures BuildOf(Some(Shelf('c', 6)), ANY_TERM, Crowded(), false, false, NOBODY, ANY_TEXT) == Err(TooManyCitations)
  {
    hide Guarded, ViewsOf, Unexplained, BuildOf, ForeignKeys, ValidCandidate, CountValid, Shelf, Orphans, MissingGroups;
    var run, library := Crowded(), Shelf('c', 6);
    CrowdedIsValid();
    forall c | c in run.candidates
      ensures ValidCandidate(library, ANY_TERM, run, c) && "f" in c.findings
    {
      var i :| 0 <= i < 6 && run.candidates[i] == c;
      CrowdedChosen(i);
    }
    AllCounted(library, ANY_TERM, run, "f", run.candidates);
    assert run.findings[0] in run.findings;
    assert Overcited(Some(library), ANY_TERM, run);
    MissingCount(run, run.groups);
    OrphansFew(library, run, run.retrieved);
    BuildRefusedIff(Some(library), ANY_TERM, run, false, false, NOBODY, ANY_TEXT);
  }
}
