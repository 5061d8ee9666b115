/**
  When the report asks for another choice, and about which group: read off the analysis
  (app/reporting/builder.py:78-88, 144-200; app/reporting/citation.py:208-288, 456-464).
 */
module ReportRetry {
  import opened Wrappers
  import opened Order
  import opened Citation
  import opened CitationFaults
  import opened Report
  import opened ReportLimits

  /** A candidate that is right but for its chunk, which is forged or off the topic. */
  ghost predicate Rechoosable(library: Library, voc: Vocabulary, run: Analysis, c: Candidate, g: Group) {
    Placed(run, c, g) && Resolved(run, g) &&
    (Forged(library, run, c.chunk) || OffTopic(library, voc, run, g, c.chunk))
  }

  /** Nobody chose for the group. */
  ghost predicate Unchosen(run: Analysis, g: Group) { forall c :: c in run.candidates ==> c.group != g.id }

  /** Another choice for the group could help. */
  ghost predicate Eligible(library: Library, voc: Vocabulary, run: Analysis, g: Group) {
    g in run.groups && (Unchosen(run, g) || exists c :: c in run.candidates && Rechoosable(library, voc, run, c, g))
  }

  /** Nothing is wrong with the candidate that another choice could not put right. */
  ghost predicate Mendable(library: Library, voc: Vocabulary, run: Analysis, c: Candidate) {
    ValidCandidate(library, voc, run, c) || exists g :: Rechoosable(library, voc, run, c, g)
  }

  /**
    Another choice is asked for: there is a library and a model that may be asked, everything that was
    retrieved is genuine and there is something to choose from, some group has nothing valid, and
    nothing is wrong that another choice could not put right.
   */
  ghost predicate Asks(library: Option<Library>, voc: Vocabulary, run: Analysis, llmReview: bool, hasClient: bool) {
    library.Some? && llmReview && hasClient && run.retrieved != [] &&
    (forall r :: r in run.retrieved ==> Genuine(library.value, r)) &&
    (forall c :: c in run.candidates ==> Mendable(library.value, voc, run, c)) &&
    exists g :: Eligible(library.value, voc, run, g)
  }

  lemma RetryFaults(library: Library, voc: Vocabulary, run: Analysis, c: Candidate, f: Fault)
    requires Faulted(library, voc, run, c, f, true)
    ensures exists g :: Rechoosable(library, voc, run, c, g)
  {
    hide Placed, Forged, OffTopic, Resolved;
    var g :| Placed(run, c, g) && Resolved(run, g) && Misfit(library, voc, run, g, c.chunk, f, true);
    assert Rechoosable(library, voc, run, c, g);
  }

  lemma RechoosableFault(library: Library, voc: Vocabulary, run: Analysis, c: Candidate, g: Group) returns (f: Fault)
    requires run.Sound() && Rechoosable(library, voc, run, c, g)
    ensures Faulted(library, voc, run, c, f, true) && Verdict(library, voc, run, c) == Err(Refusal(f, true))
  {
    hide Placed, Forged, OffTopic, Resolved, Verdict;
    f := if Forged(library, run, c.chunk) then ForgedChunk else KeywordMismatch;
    assert Misfit(library, voc, run, g, c.chunk, f, true);
    FaultIff(library, voc, run, c, f, true);
  }

  /** The item of a candidate says whether another choice could help. */
  lemma CandidateItem(library: Library, voc: Vocabulary, run: Analysis, c: Candidate) returns (i: Item)
    requires run.Sound() && Filed(library) && c in run.candidates
    ensures i in Guarded(Some(library), voc, run).items && i.group == Some(c.group)
    ensures Invalid(i) <==> !ValidCandidate(library, voc, run, c)
    ensures i.retry <==> exists g :: Rechoosable(library, voc, run, c, g)
  {
    hide Guarded, ValidCandidate, Rechoosable, Faulted, Verdict;
    i := ItemFor(library, voc, run, c);
    ItemForIs(library, voc, run, c, i);
    ItemsAre(library, voc, run, i);
    if i.retry { RetryFaults(library, voc, run, c, i.fault.value); }
    if exists g :: Rechoosable(library, voc, run, c, g) {
      var g :| Rechoosable(library, voc, run, c, g);
      var f := RechoosableFault(library, voc, run, c, g);
    }
  }

  lemma UnchosenItem(library: Library, voc: Vocabulary, run: Analysis, g: Group) returns (i: Item)
    requires run.Sound() && Filed(library) && g in run.groups && Unchosen(run, g)
    ensures i in Guarded(Some(library), voc, run).items && Invalid(i) && i.retry && i.group == Some(g.id)
  {
    hide Guarded, ItemOfCandidate, ItemOfChunk;
    i := Item(Some(g.id), g.findings, None, Some(NoCandidate), true);
    assert ItemOfGroup(run, i);
    ItemsAre(library, voc, run, i);
  }

  /** A group can be asked about exactly when an item says so. */
  lemma EligibleIff(library: Library, voc: Vocabulary, run: Analysis, g: Group)
    requires run.Sound() && Filed(library)
    ensures Eligible(library, voc, run, g) <==>
      g in run.groups && exists i :: i in Guarded(Some(library), voc, run).items && i.retry && i.group == Some(g.id)
  {
    hide Guarded, Rechoosable, Unchosen;
    var items := Guarded(Some(library), voc, run).items;
    if Eligible(library, voc, run, g) {
      if Unchosen(run, g) {
        var i := UnchosenItem(library, voc, run, g);
      } else {
        var c :| c in run.candidates && Rechoosable(library, voc, run, c, g);
        var i := CandidateItem(library, voc, run, c);
        OfItsGroup(library, voc, run, c, g);
      }
    }
    if g in run.groups && exists i :: i in items && i.retry && i.group == Some(g.id) {
      var i :| i in items && i.retry && i.group == Some(g.id);
      ItemEligible(library, voc, run, i);
      var h :| Eligible(library, voc, run, h) && i.group == Some(h.id);
      SameGroup(run, g, h);
    }
  }

  lemma OfItsGroup(library: Library, voc: Vocabulary, run: Analysis, c: Candidate, g: Group)
    requires Rechoosable(library, voc, run, c, g)
    ensures c.group == g.id && g in run.groups
  {}

  /** An item that lets choose again is about an eligible group. */
  lemma ItemEligible(library: Library, voc: Vocabulary, run: Analysis, i: Item)
    requires run.Sound() && Filed(library) && i in Guarded(Some(library), voc, run).items && i.retry
    ensures Invalid(i) && exists g :: Eligible(library, voc, run, g) && i.group == Some(g.id)
  {
    hide Guarded, Rechoosable, Faulted, ValidCandidate, Listed;
    ItemsAre(library, voc, run, i);
    if ItemOfGroup(run, i) {
      var g :| g in run.groups && (forall c :: c in run.candidates ==> c.group != g.id) && i.group == Some(g.id);
      assert Unchosen(run, g) && Eligible(library, voc, run, g);
    } else {
      var c :| c in run.candidates && ItemOfCandidate(library, voc, run, c, i);
      RetryFaults(library, voc, run, c, i.fault.value);
      var g :| Rechoosable(library, voc, run, c, g);
      OfItsGroup(library, voc, run, c, g);
      assert Eligible(library, voc, run, g);
    }
  }

  lemma NothingToChoose(library: Library, voc: Vocabulary, run: Analysis)
    requires run.Sound() && forall r :: r in run.retrieved ==> Genuine(library, r)
    ensures Guarded(Some(library), voc, run).allowlist == [] <==> run.retrieved == []
  {
    hide Guarded, Genuine;
    var allowed := Guarded(Some(library), voc, run).allowlist;
    AllowlistExactly(library, voc, run);
    if allowed != [] { assert allowed[0] in allowed; }
    if run.retrieved != [] { assert run.retrieved[0] in run.retrieved && run.retrieved[0].id in allowed; }
  }

  /** The report asks for another choice exactly then. */
  lemma AsksIff(library: Option<Library>, voc: Vocabulary, run: Analysis, llmReview: bool, hasClient: bool)
    requires run.Sound() && (library.Some? ==> Filed(library.value))
    ensures ShouldRetry(Guarded(library, voc, run), llmReview, hasClient) <==>
      Asks(library, voc, run, llmReview, hasClient)
  {
    hide Guarded, Genuine, Mendable, Eligible;
    if library.None? {
      NothingTrusted(voc, run);
    } else {
      if ShouldRetry(Guarded(library, voc, run), llmReview, hasClient) {
        RetryMeansAsks(library.value, voc, run);
      }
      if Asks(library, voc, run, llmReview, hasClient) { AsksMeansRetry(library.value, voc, run); }
    }
  }

  lemma RetryMeansAsks(library: Library, voc: Vocabulary, run: Analysis)
    requires run.Sound() && Filed(library) && ShouldRetry(Guarded(Some(library), voc, run), true, true)
    ensures Asks(Some(library), voc, run, true, true)
  {
    hide Guarded, Genuine, Eligible, Rechoosable, ValidCandidate;
    RetryMeansGenuine(library, voc, run);
    NothingToChoose(library, voc, run);
    forall c | c in run.candidates
      ensures Mendable(library, voc, run, c)
    {
      var i := CandidateItem(library, voc, run, c);
    }
    var i :| i in Guarded(Some(library), voc, run).items && Invalid(i);
    ItemEligible(library, voc, run, i);
  }

  lemma AsksMeansRetry(library: Library, voc: Vocabulary, run: Analysis)
    requires run.Sound() && Filed(library) && Asks(Some(library), voc, run, true, true)
    ensures ShouldRetry(Guarded(Some(library), voc, run), true, true)
  {
    hide Guarded, Genuine, Eligible, Rechoosable, ValidCandidate, Mendable;
    NothingToChoose(library, voc, run);
    NothingTrustedElse(library, voc, run);
    var g :| Eligible(library, voc, run, g);
    EligibleIff(library, voc, run, g);
    var i :| i in Guarded(Some(library), voc, run).items && i.retry && i.group == Some(g.id);
    ItemEligible(library, voc, run, i);
    forall i | i in Guarded(Some(library), voc, run).items && Invalid(i)
      ensures i.retry
    {
      MendableItem(library, voc, run, i);
    }
  }

  lemma NothingTrustedElse(library: Library, voc: Vocabulary, run: Analysis)
    ensures Guarded(Some(library), voc, run).trusted
  {}

  lemma MendableItem(library: Library, voc: Vocabulary, run: Analysis, i: Item)
    requires run.Sound() && Filed(library) && Asks(Some(library), voc, run, true, true)
    requires i in Guarded(Some(library), voc, run).items && Invalid(i)
    ensures i.retry
  {
    hide Guarded, Genuine, Eligible, Rechoosable, ValidCandidate, Faulted, Listed, Spoiled, Verdict;
    ItemsAre(library, voc, run, i);
    if ItemOfChunk(library, run, i) {
      var r, f :| r in run.retrieved && Spoiled(library, r, f);
      SpoiledIs(library, r, f);
      assert false;
    } else if !ItemOfGroup(run, i) {
      var c :| c in run.candidates && ItemOfCandidate(library, voc, run, c, i);
      assert Mendable(library, voc, run, c);
      var g :| Rechoosable(library, voc, run, c, g);
      var f := RechoosableFault(library, voc, run, c, g);
      FaultIff(library, voc, run, c, i.fault.value, i.retry);
    }
  }

  // ----- which group is asked about -----

  lemma {:induction false} TupleTotal(a: seq<string>, b: seq<string>)
    ensures a == b || TupleLess(a, b) || TupleLess(b, a)
  {
    hide StringLess;
    if a != [] && b != [] {
      StringTotal(a[0], b[0]);
      TupleTotal(a[1..], b[1..]);
      assert a == [a[0]] + a[1..] && b == [b[0]] + b[1..];
    }
  }

  lemma {:induction false} TupleTransitive(a: seq<string>, b: seq<string>, c: seq<string>)
    requires TupleLess(a, b) && TupleLess(b, c)
    ensures TupleLess(a, c)
  {
    hide StringLess;
    StringsOrdered();
    if a != [] && a[0] == b[0] == c[0] { TupleTransitive(a[1..], b[1..], c[1..]); }
  }

  lemma {:induction false} TupleIrreflexive(a: seq<string>)
    ensures !TupleLess(a, a)
  {
    hide StringLess;
    StringsOrdered();
    if a != [] { TupleIrreflexive(a[1..]); }
  }

  lemma ItemsOrdered()
    ensures WeakOrder(ItemLess)
  {
    hide TupleLess, ItemKey;
    forall x, y | ItemLess(x, y)
      ensures !ItemLess(y, x)
    {
      if ItemLess(y, x) {
        TupleTransitive(ItemKey(x), ItemKey(y), ItemKey(x));
        TupleIrreflexive(ItemKey(x));
      }
    }
    forall x, y, z | !ItemLess(y, x) && !ItemLess(z, y)
      ensures !ItemLess(z, x)
    {
      NotLessChains(ItemKey(x), ItemKey(y), ItemKey(z));
    }
  }

  lemma NotLessChains(a: seq<string>, b: seq<string>, c: seq<string>)
    requires !TupleLess(b, a) && !TupleLess(c, b)
    ensures !TupleLess(c, a)
  {
    hide TupleLess;
    TupleTotal(a, b);
    if TupleLess(c, a) && TupleLess(a, b) { TupleTransitive(c, a, b); }
  }

  /** Items of a lesser group come first. */
  lemma GroupFirst(x: Item, y: Item)
    requires x.group.Some? && y.group.Some? && StringLess(x.group.value, y.group.value)
    ensures ItemLess(x, y)
  {
    hide StringLess, FaultName, Joined;
  }

  lemma {:induction false} FirstRetryIs(items: seq<Item>)
    requires FirstRetry(items).Some? && NonDescending(ItemLess, items)
    ensures forall i :: i in items && i.retry && i.group.Some? ==>
              i == FirstRetry(items).value || !ItemLess(i, FirstRetry(items).value)
  {
    hide ItemLess;
    assert items == [items[0]] + items[1..];
    if items[0].retry && items[0].group.Some? {
      forall i | i in items && i.retry
        ensures i == items[0] || !ItemLess(i, items[0])
      {
        var k :| 0 <= k < |items| && items[k] == i;
      }
    } else {
      FirstRetryIs(items[1..]);
    }
  }

  /** The eligible group with the least id. */
  ghost predicate AskedGroup(library: Library, voc: Vocabulary, run: Analysis, g: Group) {
    Eligible(library, voc, run, g) && forall h :: Eligible(library, voc, run, h) ==> !StringLess(h.id, g.id)
  }

  lemma AskedGroupIs(library: Library, voc: Vocabulary, run: Analysis)
    requires run.Sound() && Filed(library) && ShouldRetry(Guarded(Some(library), voc, run), true, true)
    ensures var group := RetryGroup(run, Guarded(Some(library), voc, run).items);
            group.Some? && AskedGroup(library, voc, run, group.value)
  {
    hide Guarded, Eligible, FirstRetry, ItemLess, StringLess;
    var items := Guarded(Some(library), voc, run).items;
    RetryHasGroup(library, voc, run);
    var first := FirstRetry(items).value;
    var group := GroupOf(run.groups, first.group.value).value;
    EligibleIff(library, voc, run, group);
    ItemsSettled(library, voc, run);
    FirstRetryIs(items);
    forall h | Eligible(library, voc, run, h)
      ensures !StringLess(h.id, group.id)
    {
      EligibleIff(library, voc, run, h);
      var i :| i in items && i.retry && i.group == Some(h.id);
      if StringLess(h.id, group.id) {
        GroupFirst(i, first);
        StringTotal(h.id, group.id);
      }
    }
  }

  lemma ItemsSettled(library: Library, voc: Vocabulary, run: Analysis)
    ensures NonDescending(ItemLess, Guarded(Some(library), voc, run).items)
  {
    hide AllItems, ItemLess;
    ItemsOrdered();
    SortSettles(ItemLess, AllItems(library, voc, run));
  }

  // ----- what is asked, and what becomes of the answer -----

  ghost predicate HasOldApi(run: Analysis, id: Id, api: string) {
    exists f :: f in run.findings && f.id == id && f.oldApi == api
  }

  /** The old API of each finding of the group, in order. */
  ghost predicate OldApisOf(run: Analysis, g: Group, apis: seq<string>) {
    |apis| == |g.findings| && forall i :: 0 <= i < |apis| ==> HasOldApi(run, g.findings[i], apis[i])
  }

  /** Every retrieved chunk with its heading, in the order of their ids. */
  ghost predicate ChunksOf(run: Analysis, allowed: seq<(Id, seq<string>)>) {
    (forall i, j :: 0 <= i < j < |allowed| ==> StringLess(allowed[i].0, allowed[j].0)) &&
    forall x :: x in allowed <==> exists r :: r in run.retrieved && x == (r.id, r.origin.heading)
  }

  /** The question is about the group, its old APIs, and everything retrieved. */
  ghost predicate AskedAs(run: Analysis, g: Group, q: Question) {
    q.analysis == run.id && q.group == g && OldApisOf(run, g, q.oldApis) && ChunksOf(run, q.allowed)
  }

  lemma HeadingIs(run: Analysis, r: Retrieved)
    requires run.Sound() && r in run.retrieved
    ensures HeadingOf(run, r.id) == r.origin.heading
  {
    RetrievedFound(run.retrieved, r.id);
    var x := RetrievedOf(run.retrieved, r.id).value;
    RetrievedOnce(run);
    var i :| 0 <= i < |run.retrieved| && run.retrieved[i] == r;
    var j :| 0 <= j < |run.retrieved| && run.retrieved[j] == x;
  }

  lemma {:induction false} RetrievedFound(retrieved: seq<Retrieved>, id: Id)
    ensures var x := RetrievedOf(retrieved, id); x.Some? ==> x.value in retrieved && x.value.id == id
  {
    if retrieved != [] {
      RetrievedFound(retrieved[1..], id);
      assert retrieved == [retrieved[0]] + retrieved[1..];
    }
  }

  lemma AllowedAre(library: Library, voc: Vocabulary, run: Analysis, g: Group)
    requires run.Sound() && Filed(library) && forall r :: r in run.retrieved ==> Genuine(library, r)
    ensures ChunksOf(run, QuestionFor(run, Guarded(Some(library), voc, run), g).allowed)
  {
    hide Guarded, Genuine, StringLess, HeadingOf;
    var ids := Guarded(Some(library), voc, run).allowlist;
    var allowed := QuestionFor(run, Guarded(Some(library), voc, run), g).allowed;
    AllowlistExactly(library, voc, run);
    forall x
      ensures x in allowed <==> exists r :: r in run.retrieved && x == (r.id, r.origin.heading)
    {
      if x in allowed {
        var i :| 0 <= i < |ids| && x == (ids[i], HeadingOf(run, ids[i]));
        assert ids[i] in ids;
        var r :| r in run.retrieved && r.id == ids[i];
        HeadingIs(run, r);
      }
      if exists r :: r in run.retrieved && x == (r.id, r.origin.heading) {
        var r :| r in run.retrieved && x == (r.id, r.origin.heading);
        HeadingIs(run, r);
        assert Genuine(library, r) && r.id in ids;
        var i :| 0 <= i < |ids| && ids[i] == r.id;
        assert allowed[i] == x;
      }
    }
  }

  lemma QuestionIs(library: Library, voc: Vocabulary, run: Analysis, g: Group)
    requires run.Sound() && Filed(library) && g in run.groups && forall r :: r in run.retrieved ==> Genuine(library, r)
    ensures AskedAs(run, g, QuestionFor(run, Guarded(Some(library), voc, run), g))
  {
    hide Guarded, Genuine, HeadingOf, ChunksOf;
    AllowedAre(library, voc, run, g);
    forall i | 0 <= i < |g.findings|
      ensures HasOldApi(run, g.findings[i], OldApiOf(run, g.findings[i]))
    {
      assert g.findings[i] in g.findings && run.KnownFinding(g.findings[i]);
    }
  }

  /** An answer replaces the candidates of the group it was asked about. */
  function Answered(run: Analysis, g: Group, answer: Option<Selection>): Analysis {
    match answer
    case Some(s) => if s.group == g.id && s.findings == g.findings then Rechosen(run, s) else run
    case None => run
  }

  /**
    The report is made from the analysis as it is, or, exactly when another choice is asked for, from
    the one with the answer: the question is about the eligible group with the least id, and an answer
    about anything else, or none, leaves the analysis as it is.
   */
  lemma BuildAsks(library: Option<Library>, voc: Vocabulary, run: Analysis, llmReview: bool, hasClient: bool,
                  reply: Question -> Option<Selection>, safe: string -> bool)
    requires run.Valid() && (library.Some? ==> Filed(library.value))
    ensures var r, asks := BuildOf(library, voc, run, llmReview, hasClient, reply, safe),
      Asks(library, voc, run, llmReview, hasClient);
            var used := UsedBy(library, voc, run, llmReview, hasClient, reply);
            (r.Ok? ==> r.value.retries == if asks then 1 else 0) &&
            (!asks ==> used == run) &&
            (asks ==>
             exists g, q ::
               AskedGroup(library.value, voc, run, g) && AskedAs(run, g, q) && used == Answered(run, g, reply(q)))
  {
    hide Guarded, ViewsOf, MergedHumanReview, WithinLimits, ShouldRetry, RetryGroup, AskedGroup, AskedAs, Genuine;
    hide Mendable, Eligible, Rechosen, QuestionFor, Analysis.Sound;
    AsksIff(library, voc, run, llmReview, hasClient);
    var g := Guarded(library, voc, run);
    if Asks(library, voc, run, llmReview, hasClient) {
      OnlyTrustedRetries(library, voc, run, llmReview, hasClient);
      AskedGroupIs(library.value, voc, run);
      var group := RetryGroup(run, g.items).value;
      AskedKnown(library.value, voc, run, group);
      QuestionIs(library.value, voc, run, group);
      assert AskedAs(run, group, QuestionFor(run, g, group));
    }
  }

  lemma AskedKnown(library: Library, voc: Vocabulary, run: Analysis, g: Group)
    requires AskedGroup(library, voc, run, g)
    ensures g in run.groups
  {}
}
