/**
  What a report says of each finding, and which human items it has, in which order
  (app/reporting/builder.py:90-127, 207-332).
 */
module ReportViews {
  import opened Wrappers
  import opened Order
  import opened Citation
  import opened Report
  import opened ReportLimits
  import opened ReportRetry

  // ----- one finding -----

  /** The first usable explanation that covers the finding. */
  ghost predicate FirstUsable(run: Analysis, safe: string -> bool, id: Id, k: nat) {
    k < |run.explanations| && Usable(run, safe, run.explanations[k]) && id in run.explanations[k].findings &&
    forall j :: 0 <= j < k ==> !(Usable(run, safe, run.explanations[j]) && id in run.explanations[j].findings)
  }

  /** Its text is that of the first usable explanation, and its citations are all that name it, by chunk. */
  ghost predicate Shows(library: Library, voc: Vocabulary, run: Analysis, safe: string -> bool, f: Finding,
                        v: ReportFinding) {
    v.finding == f &&
    (match v.text
     case Some(text) => exists k: nat :: FirstUsable(run, safe, f.id, k) && text == run.explanations[k].text
     case None => forall k: nat :: !FirstUsable(run, safe, f.id, k)) &&
    (forall i, j :: 0 <= i < j < |v.citations| ==> StringLess(v.citations[i].chunk, v.citations[j].chunk)) &&
    forall x :: x in v.citations <==> x in Guarded(Some(library), voc, run).citations && f.id in x.findings
  }

  lemma TextShown(run: Analysis, safe: string -> bool, id: Id)
    ensures var texts := ExplanationsOf(run, safe, run.explanations);
            if id in texts
            then exists k: nat :: FirstUsable(run, safe, id, k) && texts[id] == run.explanations[k].text
            else forall k: nat :: !FirstUsable(run, safe, id, k)
  {
    hide ExplanationsOf, Usable;
    var texts, es := ExplanationsOf(run, safe, run.explanations), run.explanations;
    ExplainedIff(run, safe, es, id);
    if id in texts {
      var i :| 0 <= i < |es| && Usable(run, safe, es[i]) && id in es[i].findings && texts[id] == es[i].text &&
        forall j :: 0 <= j < i ==> !(Usable(run, safe, es[j]) && id in es[j].findings);
      assert FirstUsable(run, safe, id, i);
    }
  }

  lemma ViewShows(library: Library, voc: Vocabulary, run: Analysis, safe: string -> bool, i: nat)
    requires run.Sound() && Filed(library) && i < |run.findings|
    ensures Shows(library, voc, run, safe, run.findings[i], ViewsOf(run, Guarded(Some(library), voc, run), safe)[i])
  {
    hide Guarded, Sort, ExplanationsOf, CitationsFor, FirstUsable, StringLess;
    var f, g := run.findings[i], Guarded(Some(library), voc, run);
    TextShown(run, safe, f.id);
    var cs := CitationsFor(g.citations, f.id);
    CitationsForIs(g.citations, f.id);
    CitationsOfFinding(library, voc, run, f);
    ChunksCompare(cs);
    ChunksOrdered();
    SortAscends(ChunkLess, cs);
    SortPermutes(ChunkLess, cs);
    SameElements(Sort(ChunkLess, cs), cs);
    var v := ViewsOf(run, g, safe)[i];
    assert v.citations == Sort(ChunkLess, cs);
    forall i, j | 0 <= i < j < |v.citations|
      ensures StringLess(v.citations[i].chunk, v.citations[j].chunk)
    {
      assert ChunkLess(v.citations[i], v.citations[j]);
    }
  }

  // ----- the human items -----

  /** The group of the analysis the finding is in, if it is in one. */
  ghost predicate IsIn(groups: seq<Group>, id: Id, group: Option<Id>) {
    match group
    case Some(name) => exists g :: g in groups && id in g.findings && g.id == name
    case None => forall g :: g in groups ==> id !in g.findings
  }

  /** An item about a finding: what its citations amount to, or that its text is the template's. */
  ghost predicate IsAbout(groups: seq<Group>, v: ReportFinding, x: HumanItem) {
    IsIn(groups, v.finding.id, x.group) && x.findings == [v.finding.id] && x.detail.None? &&
    (x.reason == (if v.citations == [] then UNAVAILABLE else NOT_EVALUATED) || (x.reason == FALLBACK && v.text.None?))
  }

  ghost predicate FirstOfKey(items: seq<HumanItem>, x: HumanItem, k: nat) {
    k < |items| && items[k] == x && forall j :: 0 <= j < k ==> !SameKey(items[j], x)
  }

  lemma FirstFurther(items: seq<HumanItem>, x: HumanItem, k: nat)
    requires items != []
    ensures var n := |items| - 1;
            FirstOfKey(items, x, k) <==>
            FirstOfKey(items[..n], x, k) || (k == n && items[n] == x && forall y :: y in items[..n] ==> !SameKey(y, x))
  {
    hide SameKey;
    var n := |items| - 1;
    if k == n && FirstOfKey(items, x, k) {
      forall y | y in items[..n]
        ensures !SameKey(y, x)
      {
        var j :| 0 <= j < n && items[..n][j] == y;
      }
    }
    if k == n && forall y :: y in items[..n] ==> !SameKey(y, x) {
      assert forall j :: 0 <= j < k ==> items[j] == items[..n][j];
    }
  }

  ghost predicate HasFirst(items: seq<HumanItem>, x: HumanItem) { exists k: nat :: FirstOfKey(items, x, k) }

  /** Nothing among the items has the key. */
  ghost predicate NewKey(items: seq<HumanItem>, x: HumanItem) { forall y :: y in items ==> !SameKey(y, x) }

  lemma HasFirstFurther(items: seq<HumanItem>, x: HumanItem)
    requires items != []
    ensures var n := |items| - 1;
            HasFirst(items, x) <==> HasFirst(items[..n], x) || (items[n] == x && NewKey(items[..n], x))
  {
    hide SameKey, FirstOfKey;
    var n := |items| - 1;
    forall k: nat
      ensures FirstOfKey(items, x, k) <==>
        FirstOfKey(items[..n], x, k) || (k == n && items[n] == x && NewKey(items[..n], x))
    {
      FirstFurther(items, x, k);
    }
    if items[n] == x && NewKey(items[..n], x) { assert FirstOfKey(items, x, n); }
  }

  lemma {:induction false} FirstsKept(items: seq<HumanItem>, x: HumanItem)
    ensures x in FirstOfEach(items) <==> HasFirst(items, x)
  {
    hide SameKey, FirstOfKey, HasFirst;
    if items != [] {
      FirstsKept(items[..|items| - 1], x);
      HasFirstFurther(items, x);
      LaterOnes(items[..|items| - 1], items[|items| - 1]);
    } else {
      NothingFirst(x);
    }
  }

  lemma NothingFirst(x: HumanItem)
    ensures !HasFirst([], x)
  {}

  lemma LaterOnes(items: seq<HumanItem>, x: HumanItem)
    ensures (exists y :: y in FirstOfEach(items) && SameKey(y, x)) <==> !NewKey(items, x)
  {
    FirstOfEachCovers(items);
    if exists y :: y in items && SameKey(y, x) {
      var y :| y in items && SameKey(y, x);
      assert Kept(FirstOfEach(items), y);
      var z :| z in FirstOfEach(items) && SameKey(z, y);
    }
  }

  lemma {:induction false} GroupFound(groups: seq<Group>, id: Id)
    ensures IsIn(groups, id, GroupOfFinding(groups, id))
  {
    if groups != [] {
      GroupFound(groups[..|groups| - 1], id);
      assert groups == groups[..|groups| - 1] + [groups[|groups| - 1]];
    }
  }

  /** With groups that do not overlap there is one answer. */
  lemma GroupUnique(run: Analysis, id: Id, group: Option<Id>)
    requires run.Sound()
    ensures IsIn(run.groups, id, group) <==> group == GroupOfFinding(run.groups, id)
  {
    GroupFound(run.groups, id);
  }

  lemma {:induction false} ReviewsAre(groups: seq<Group>, views: seq<ReportFinding>)
    ensures forall x :: x in ReviewsOf(groups, views) <==> exists v :: v in views && x in ReviewOf(groups, v)
  {
    hide ReviewOf;
    if views != [] {
      ReviewsAre(groups, views[..|views| - 1]);
      assert views == views[..|views| - 1] + [views[|views| - 1]];
    }
  }

  lemma ReviewIs(run: Analysis, v: ReportFinding, x: HumanItem)
    requires run.Sound()
    ensures x in ReviewOf(run.groups, v) <==> IsAbout(run.groups, v, x)
  {
    hide Analysis.Sound, GroupOfFinding, IsIn;
    GroupUnique(run, v.finding.id, x.group);
    GroupUnique(run, v.finding.id, GroupOfFinding(run.groups, v.finding.id));
  }

  /** Items about different findings, or for different reasons, have different keys. */
  lemma ReviewKeysDiffer(run: Analysis, views: seq<ReportFinding>, x: HumanItem, y: HumanItem)
    requires run.Sound() && DistinctViews(views)
    requires x in ReviewsOf(run.groups, views) && y in ReviewsOf(run.groups, views)
    ensures SameKey(x, y) ==> x == y
  {
    hide ReviewsOf, ReviewOf, Analysis.Sound;
    ReviewsAre(run.groups, views);
    var v :| v in views && x in ReviewOf(run.groups, v);
    var u :| u in views && y in ReviewOf(run.groups, u);
    ReviewIs(run, v, x);
    ReviewIs(run, u, y);
  }

  lemma {:induction false} FirstPlace(items: seq<HumanItem>, x: HumanItem) returns (k: nat)
    requires x in items
    ensures k < |items| && items[k] == x && forall j :: 0 <= j < k ==> items[j] != x
  {
    if items[0] == x {
      k := 0;
    } else {
      assert items == [items[0]] + items[1..];
      k := FirstPlace(items[1..], x);
      k := k + 1;
    }
  }

  lemma FirstReview(run: Analysis, views: seq<ReportFinding>, x: HumanItem) returns (k: nat)
    requires run.Sound() && DistinctViews(views) && x in ReviewsOf(run.groups, views)
    ensures FirstOfKey(ReviewsOf(run.groups, views), x, k)
  {
    hide SameKey, ReviewsOf, Analysis.Sound, DistinctViews;
    var reviews := ReviewsOf(run.groups, views);
    k := FirstPlace(reviews, x);
    forall j | 0 <= j < k
      ensures !SameKey(reviews[j], x)
    {
      ReviewKeysDiffer(run, views, reviews[j], x);
    }
  }

  lemma FirstInJoin(own: seq<HumanItem>, reviews: seq<HumanItem>, x: HumanItem, k: nat)
    ensures k < |own| ==> (FirstOfKey(own + reviews, x, k) <==> FirstOfKey(own, x, k))
    ensures FirstOfKey(own + reviews, x, |own| + k) <==> NewKey(own, x) && FirstOfKey(reviews, x, k)
  {
    hide SameKey;
    var items := own + reviews;
    assert forall j :: 0 <= j < |own| ==> items[j] == own[j];
    assert forall j :: 0 <= j < |reviews| ==> items[|own| + j] == reviews[j];
    if FirstOfKey(items, x, |own| + k) {
      forall y | y in own
        ensures !SameKey(y, x)
      {
        var j :| 0 <= j < |own| && own[j] == y;
        assert items[j] == y;
      }
    }
    if NewKey(own, x) && FirstOfKey(reviews, x, k) {
      forall j | 0 <= j < |own| + k
        ensures !SameKey(items[j], x)
      {
        if j < |own| { assert items[j] in own; } else { assert items[j] == reviews[j - |own|]; }
      }
    }
  }

  lemma FirstOfJoin(run: Analysis, views: seq<ReportFinding>, x: HumanItem)
    requires run.Sound() && DistinctViews(views)
    ensures var reviews := ReviewsOf(run.groups, views);
            HasFirst(run.human + reviews, x) <==> HasFirst(run.human, x) || (x in reviews && NewKey(run.human, x))
  {
    hide FirstOfKey, ReviewsOf, Analysis.Sound, DistinctViews, NewKey;
    var own, reviews := run.human, ReviewsOf(run.groups, views);
    if HasFirst(own + reviews, x) {
      var k: nat :| FirstOfKey(own + reviews, x, k);
      FirstWithin(own + reviews, x, k);
      if k < |own| {
        FirstInJoin(own, reviews, x, k);
      } else {
        FirstInJoin(own, reviews, x, k - |own|);
        assert reviews[k - |own|] == x;
      }
    }
    if HasFirst(own, x) {
      var k: nat :| FirstOfKey(own, x, k);
      FirstWithin(own, x, k);
      FirstInJoin(own, reviews, x, k);
    }
    if x in reviews && NewKey(own, x) {
      var k := FirstReview(run, views, x);
      FirstInJoin(own, reviews, x, k);
    }
  }

  lemma FirstWithin(items: seq<HumanItem>, x: HumanItem, k: nat)
    requires FirstOfKey(items, x, k)
    ensures k < |items| && items[k] == x
  {}

  /**
    The human items are those of the analysis, the first of each key, and for each finding those about
    it whose key the analysis does not have already.
   */
  lemma HumanReviewIs(run: Analysis, views: seq<ReportFinding>, x: HumanItem)
    requires run.Sound() && DistinctViews(views)
    ensures x in MergedHumanReview(run, views) <==>
      HasFirst(run.human, x) || ((exists v :: v in views && IsAbout(run.groups, v, x)) && NewKey(run.human, x))
  {
    hide Sort, HumanLess, FirstOfEach, ReviewsOf, HasFirst, NewKey, Analysis.Sound, IsAbout, ReviewOf, DistinctViews;
    var items := run.human + ReviewsOf(run.groups, views);
    SortPermutes(HumanLess, FirstOfEach(items));
    SameElements(Sort(HumanLess, FirstOfEach(items)), FirstOfEach(items));
    FirstsKept(items, x);
    ReviewsAre(run.groups, views);
    forall v
      ensures x in ReviewOf(run.groups, v) <==> IsAbout(run.groups, v, x)
    {
      ReviewIs(run, v, x);
    }
    FirstOfJoin(run, views, x);
  }

  // ----- their order -----

  /** The order of the human items: by group, then findings, then reason. */
  ghost predicate NotAfter(x: HumanItem, y: HumanItem) {
    var g, h := OrEmpty(x.group), OrEmpty(y.group);
    StringLess(g, h) || (g == h &&
                         (TupleLess(x.findings, y.findings) ||
                          (x.findings == y.findings && (StringLess(x.reason, y.reason) || x.reason == y.reason))))
  }

  lemma NotAfterIs(x: HumanItem, y: HumanItem)
    ensures NotAfter(x, y) <==> !HumanLess(y, x)
  {
    var g, h := OrEmpty(x.group), OrEmpty(y.group);
    assert TupleLess([h], [g]) <==> StringLess(h, g) by { assert [h][1..] == [] && [g][1..] == []; }
    hide StringLess, TupleLess;
    StringTotal(g, h);
    StringTotal(x.reason, y.reason);
    TupleTotal(x.findings, y.findings);
    TupleIrreflexive(x.findings);
    if TupleLess(x.findings, y.findings) && TupleLess(y.findings, x.findings) {
      TupleTransitive(x.findings, y.findings, x.findings);
    }
  }

  lemma NotAfterChains(x: HumanItem, y: HumanItem, z: HumanItem)
    requires NotAfter(x, y) && NotAfter(y, z)
    ensures NotAfter(x, z)
  {
    hide StringLess, TupleLess;
    StringsOrdered();
    if TupleLess(x.findings, y.findings) && TupleLess(y.findings, z.findings) {
      TupleTransitive(x.findings, y.findings, z.findings);
    }
  }

  lemma NotAfterTotal(x: HumanItem, y: HumanItem)
    ensures NotAfter(x, y) || NotAfter(y, x)
  {
    hide StringLess, TupleLess;
    StringTotal(OrEmpty(x.group), OrEmpty(y.group));
    StringTotal(x.reason, y.reason);
    TupleTotal(x.findings, y.findings);
  }

  lemma HumanOrdered()
    ensures WeakOrder(HumanLess)
  {
    hide HumanLess, NotAfter;
    forall x, y | HumanLess(x, y)
      ensures !HumanLess(y, x)
    {
      NotAfterIs(x, y);
      NotAfterIs(y, x);
      NotAfterTotal(x, y);
    }
    forall x, y, z | !HumanLess(y, x) && !HumanLess(z, y)
      ensures !HumanLess(z, x)
    {
      NotAfterIs(x, y);
      NotAfterIs(y, z);
      NotAfterIs(x, z);
      NotAfterChains(x, y, z);
    }
  }

  /** The human items stand in that order. */
  lemma HumanReviewOrdered(run: Analysis, views: seq<ReportFinding>, i: nat, j: nat)
    requires i < j < |MergedHumanReview(run, views)|
    ensures NotAfter(MergedHumanReview(run, views)[i], MergedHumanReview(run, views)[j])
  {
    hide HumanLess, NotAfter, FirstOfEach;
    HumanOrdered();
    SortSettles(HumanLess, FirstOfEach(run.human + ReviewsOf(run.groups, views)));
    NotAfterIs(MergedHumanReview(run, views)[i], MergedHumanReview(run, views)[j]);
  }
}
