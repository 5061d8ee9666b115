/**
  Which fault the guard finds with a candidate, and which items its result has: both read off the
  analysis (app/reporting/citation.py:89-318, 358-387).
 */
module CitationFaults {
  import opened Wrappers
  import opened Order
  import opened Citation

  // ----- what can be wrong with a retrieved chunk -----

  /** The fault names the first thing in which a retrieved chunk departs from the trusted one. */
  ghost predicate Departs(r: Retrieved, t: Trusted, f: Fault) {
    var same := r.origin.sourceId == t.origin.sourceId && r.origin.sourcePath == t.origin.sourcePath;
    var sameUrl := same && r.origin.url == t.origin.url;
    var sameRef := sameUrl && r.origin.gitRef == t.origin.gitRef;
    var sameCommit := sameRef && r.origin.commit == t.origin.commit;
    var sameHeading := sameCommit && r.origin.heading == t.origin.heading;
    var sameContent := sameHeading && r.origin.contentHash == t.origin.contentHash;
    match f
    case SourceIdentityMismatch => !same
    case UrlMismatch => same && r.origin.url != t.origin.url
    case RefMismatch => sameUrl && r.origin.gitRef != t.origin.gitRef
    case CommitMismatch => sameRef && r.origin.commit != t.origin.commit
    case HeadingMismatch => sameCommit && r.origin.heading != t.origin.heading
    case ContentHashMismatch => sameHeading && r.origin.contentHash != t.origin.contentHash
    case SourceHashMismatch => sameContent && r.origin.snapshotHash != t.origin.snapshotHash
    case TextMismatch =>
      r.origin == t.origin && !(r.text <= t.text && r.fullLength == |t.text| && (r.truncated <==> r.text != t.text))
    case _ => false
  }

  ghost predicate Spoiled(library: Library, r: Retrieved, f: Fault) {
    if r.id in library then Departs(r, library[r.id], f) else f == SourceIdentityMismatch
  }

  lemma SpoiledIs(library: Library, r: Retrieved, f: Fault)
    ensures Spoiled(library, r, f) <==> !Genuine(library, r) && FaultOf(library, r) == f
  {
    if r.id in library { ProvenanceIff(r, library[r.id]); }
  }

  // ----- what can be wrong with a candidate -----

  /** The candidate's group, in the same analysis. */
  ghost predicate Names(run: Analysis, c: Candidate, g: Group) {
    c.analysis == run.id && g in run.groups && g.id == c.group
  }

  /** All findings of the group break the group's rule. */
  ghost predicate OneRule(run: Analysis, g: Group) {
    forall f :: f in run.findings && f.id in g.findings ==> f.rule == g.rule
  }

  ghost predicate SameChoice(c: Candidate, d: Candidate) {
    c.analysis == d.analysis && c.group == d.group && c.chunk == d.chunk
  }

  /** The same chunk is chosen for the same group twice. */
  ghost predicate ChosenTwice(run: Analysis, c: Candidate) {
    exists i, j ::
      0 <= i < j < |run.candidates| && SameChoice(run.candidates[i], c) && SameChoice(run.candidates[j], c)
  }

  /** For its group, the findings of that group, under one rule, and once. */
  ghost predicate Placed(run: Analysis, c: Candidate, g: Group) {
    Names(run, c, g) && c.findings == g.findings && OneRule(run, g) && !ChosenTwice(run, c)
  }

  ghost predicate Fetched(run: Analysis, chunk: Id) { exists r :: r in run.retrieved && r.id == chunk }

  ghost predicate FetchedGenuine(library: Library, run: Analysis, chunk: Id) {
    exists r :: r in run.retrieved && r.id == chunk && Genuine(library, r)
  }

  ghost predicate FetchedSpoiled(library: Library, run: Analysis, chunk: Id, f: Fault) {
    exists r :: r in run.retrieved && r.id == chunk && Spoiled(library, r, f)
  }

  /** The binding at `k` brought the chunk to the group. */
  ghost predicate Brings(run: Analysis, g: Group, chunk: Id, k: nat) { BringsAt(run.bindings, g.id, chunk, k) }

  ghost predicate BringsAt(bindings: seq<Binding>, group: Id, chunk: Id, k: nat) {
    k < |bindings| && bindings[k].group == group && chunk in bindings[k].chunks
  }

  /** The only binding that brought the chunk to the group is the one at `k`. */
  ghost predicate OnlyAt(bindings: seq<Binding>, group: Id, chunk: Id, k: nat) {
    BringsAt(bindings, group, chunk, k) && forall l: nat :: BringsAt(bindings, group, chunk, l) ==> l == k
  }

  /** Rule and findings of the binding are the group's, and the terms it matched stand for these findings. */
  ghost predicate Fits(voc: Vocabulary, run: Analysis, g: Group, b: Binding)
    requires Resolved(run, g)
  {
    b.rule == g.rule && b.findings == g.findings && b.terms != [] &&
    forall t :: t in b.terms ==> voc.fold(t) in voc.terms(FindingsOf(run.findings, g.findings))
  }

  /** Exactly one binding brought the chunk to the group, and it fits the group. */
  ghost predicate BroughtOnce(voc: Vocabulary, run: Analysis, g: Group, chunk: Id)
    requires Resolved(run, g)
  {
    exists k: nat :: OnlyAt(run.bindings, g.id, chunk, k) && Fits(voc, run, g, run.bindings[k])
  }

  /** The trusted text of the chunk mentions a term that stands for the findings. */
  ghost predicate Mentions(library: Library, voc: Vocabulary, run: Analysis, g: Group, chunk: Id)
    requires Resolved(run, g) && chunk in library
  {
    exists term ::
      term in voc.terms(FindingsOf(run.findings, g.findings)) && voc.mentions(voc.fold(library[chunk].text), term)
  }

  ghost predicate Resolved(run: Analysis, g: Group) { forall id :: id in g.findings ==> run.KnownFinding(id) }

  /** What is wrong with where a candidate is placed; another choice of chunk is no help. */
  ghost predicate Misplaced(run: Analysis, c: Candidate, f: Fault) {
    match f
    case CrossAnalysisChunk => c.analysis != run.id
    case UnknownGroup => c.analysis == run.id && forall g :: g in run.groups ==> g.id != c.group
    case UnknownFinding => (exists g :: Names(run, c, g)) && exists id :: id in c.findings && !run.KnownFinding(id)
    case FindingGroupMismatch =>
      (forall id :: id in c.findings ==> run.KnownFinding(id)) &&
      exists g :: Names(run, c, g) && c.findings != g.findings
    case RuleMismatch => exists g :: Names(run, c, g) && c.findings == g.findings && !OneRule(run, g)
    case DuplicateCitation =>
      exists g :: Names(run, c, g) && c.findings == g.findings && OneRule(run, g) && ChosenTwice(run, c)
    case _ => false
  }

  /** The chunk is backed by no search of this analysis and is in the library neither. */
  ghost predicate Forged(library: Library, run: Analysis, chunk: Id) { !Fetched(run, chunk) && chunk !in library }

  /** Everything is right with the chunk, but it does not mention what the findings are about. */
  ghost predicate OffTopic(library: Library, voc: Vocabulary, run: Analysis, g: Group, chunk: Id)
    requires Resolved(run, g)
  {
    FetchedGenuine(library, run, chunk) && BroughtOnce(voc, run, g, chunk) && chunk in library &&
    !Mentions(library, voc, run, g, chunk)
  }

  /** What is wrong with a chunk chosen for a group; another choice helps in two cases. */
  ghost predicate Misfit(library: Library, voc: Vocabulary, run: Analysis, g: Group, chunk: Id, f: Fault, retry: bool)
    requires Resolved(run, g)
  {
    match f
    case CrossAnalysisChunk => !retry && !Fetched(run, chunk) && chunk in library
    case ForgedChunk => retry && Forged(library, run, chunk)
    case BindingMissing =>
      !retry && FetchedGenuine(library, run, chunk) && forall k: nat :: !Brings(run, g, chunk, k)
    case BindingMismatch =>
      !retry && FetchedGenuine(library, run, chunk) && (exists k: nat :: Brings(run, g, chunk, k)) &&
      !BroughtOnce(voc, run, g, chunk)
    case KeywordMismatch => retry && OffTopic(library, voc, run, g, chunk)
    case _ => !retry && FetchedSpoiled(library, run, chunk, f)
  }

  /** The fault of a candidate, and whether another choice could help. */
  ghost predicate Faulted(library: Library, voc: Vocabulary, run: Analysis, c: Candidate, f: Fault, retry: bool) {
    (!retry && Misplaced(run, c, f)) ||
    exists g :: Placed(run, c, g) && Resolved(run, g) && Misfit(library, voc, run, g, c.chunk, f, retry)
  }

  // ----- the guard's lookups in these terms -----

  lemma GroupIs(run: Analysis, g: Group)
    requires run.Sound() && g in run.groups
    ensures GroupOf(run.groups, g.id) == Some(g)
  {
    var h := GroupOf(run.groups, g.id).value;
    var ids := seq(|run.groups|, i requires 0 <= i < |run.groups| => run.groups[i].id);
    var i :| 0 <= i < |run.groups| && run.groups[i] == g;
    var j :| 0 <= j < |run.groups| && run.groups[j] == h;
    assert ids[i] == ids[j];
  }

  lemma FindingIs(run: Analysis, f: Finding)
    requires run.Sound() && f in run.findings
    ensures FindingOf(run.findings, f.id) == Some(f)
  {
    var h := FindingOf(run.findings, f.id).value;
    var ids := seq(|run.findings|, i requires 0 <= i < |run.findings| => run.findings[i].id);
    var i :| 0 <= i < |run.findings| && run.findings[i] == f;
    var j :| 0 <= j < |run.findings| && run.findings[j] == h;
    assert ids[i] == ids[j];
  }

  lemma OneRuleIs(run: Analysis, g: Group)
    requires run.Sound() && Resolved(run, g)
    ensures OneRule(run, g) <==> forall f :: f in FindingsOf(run.findings, g.findings) ==> f.rule == g.rule
  {
    var fs := FindingsOf(run.findings, g.findings);
    if forall f :: f in fs ==> f.rule == g.rule {
      forall f | f in run.findings && f.id in g.findings
        ensures f.rule == g.rule
      {
        FindingIs(run, f);
        var i :| 0 <= i < |g.findings| && g.findings[i] == f.id;
        assert fs[i] in fs;
      }
    }
    if OneRule(run, g) {
      forall f | f in fs
        ensures f.rule == g.rule
      {
        var i :| 0 <= i < |fs| && fs[i] == f;
        assert f.id == g.findings[i];
      }
    }
  }

  lemma ChosenTwiceIs(run: Analysis, c: Candidate)
    ensures ChosenTwice(run, c) <==> Duplicated(run.candidates, c)
  {
    var keys := KeysOf(run.candidates);
    assert forall i :: 0 <= i < |keys| ==> (keys[i] == KeyOf(c) <==> SameChoice(run.candidates[i], c));
    if ChosenTwice(run, c) {
      var i, j :| 0 <= i < j < |keys| && SameChoice(run.candidates[i], c) && SameChoice(run.candidates[j], c);
      CountTwice(keys, i, j);
    }
    if Duplicated(run.candidates, c) {
      var i, j := FoundTwice(keys, KeyOf(c));
      assert SameChoice(run.candidates[i], c) && SameChoice(run.candidates[j], c);
    }
  }

  lemma {:induction false} FoundTwice<T>(s: seq<T>, x: T) returns (i: nat, j: nat)
    requires multiset(s)[x] > 1
    ensures i < j < |s| && s[i] == x && s[j] == x
  {
    var n := |s| - 1;
    assert s == s[..n] + [s[n]];
    if s[n] == x {
      assert x in multiset(s[..n]);
      i :| 0 <= i < n && s[..n][i] == x;
      j := n;
    } else {
      i, j := FoundTwice(s[..n], x);
    }
  }

  lemma {:induction false} BroughtIs(bindings: seq<Binding>, group: Id, chunk: Id)
    ensures var bs := BindingsFor(bindings, group, chunk);
            (bs == [] <==> forall k: nat :: !BringsAt(bindings, group, chunk, k)) &&
            (|bs| == 1 ==> exists k: nat :: OnlyAt(bindings, group, chunk, k) && bindings[k] == bs[0]) &&
            (forall k: nat :: OnlyAt(bindings, group, chunk, k) ==> bs == [bindings[k]])
  {
    if bindings != [] {
      var n := |bindings| - 1;
      var front := bindings[..n];
      BroughtIs(front, group, chunk);
      forall k: nat
        ensures BringsAt(bindings, group, chunk, k) <==>
          BringsAt(front, group, chunk, k) || (k == n && BringsAt(bindings, group, chunk, n))
      {}
      hide BringsAt;
      var bs := BindingsFor(bindings, group, chunk);
      if BringsAt(bindings, group, chunk, n) {
        assert bs == BindingsFor(front, group, chunk) + [bindings[n]] by { LastBrings(bindings, group, chunk); }
        if |bs| == 1 { assert OnlyAt(bindings, group, chunk, n); }
      } else {
        assert bs == BindingsFor(front, group, chunk) by { LastBrings(bindings, group, chunk); }
        if |bs| == 1 {
          var k: nat :| OnlyAt(front, group, chunk, k) && front[k] == bs[0];
          OnlyAtWithin(front, group, chunk, k);
          assert OnlyAt(bindings, group, chunk, k) && bindings[k] == bs[0];
        }
      }
      forall k: nat | OnlyAt(bindings, group, chunk, k)
        ensures bs == [bindings[k]]
      {
        OnlyAtWithin(bindings, group, chunk, k);
        if k == n {
          assert forall l: nat :: !BringsAt(front, group, chunk, l) by { FrontOnly(front, group, chunk, n); }
        } else {
          assert !BringsAt(bindings, group, chunk, n);
          assert OnlyAt(front, group, chunk, k);
        }
      }
    }
  }

  lemma OnlyAtWithin(bindings: seq<Binding>, group: Id, chunk: Id, k: nat)
    requires OnlyAt(bindings, group, chunk, k)
    ensures k < |bindings|
  {}

  lemma FrontOnly(front: seq<Binding>, group: Id, chunk: Id, n: nat)
    requires n == |front| && forall l: nat :: BringsAt(front, group, chunk, l) ==> l == n
    ensures forall l: nat :: !BringsAt(front, group, chunk, l)
  {}

  lemma LastBrings(bindings: seq<Binding>, group: Id, chunk: Id)
    requires bindings != []
    ensures var n := |bindings| - 1; var before := BindingsFor(bindings[..n], group, chunk);
            BindingsFor(bindings, group, chunk) ==
            if BringsAt(bindings, group, chunk, n) then before + [bindings[n]] else before
  {
    assert BindingsFor(bindings[..|bindings| - 1], group, chunk) + [] ==
      BindingsFor(bindings[..|bindings| - 1], group, chunk);
  }

  // ----- the verdict in these terms -----

  lemma FitsIs(voc: Vocabulary, run: Analysis, g: Group, b: Binding)
    requires Resolved(run, g)
    ensures Fits(voc, run, g, b) <==>
      b.rule == g.rule && b.findings == g.findings && TermsFit(voc, b.terms, FindingsOf(run.findings, g.findings))
  {
    hide FindingsOf;
  }

  /** What the checks about the chunk come to, for a candidate that is placed. */
  lemma ChunkChecks(library: Library, voc: Vocabulary, run: Analysis, g: Group, chunk: Id)
    requires Resolved(run, g)
    ensures var bs := BindingsFor(run.bindings, g.id, chunk);
            (bs == [] <==> forall k: nat :: !Brings(run, g, chunk, k)) &&
            (BroughtOnce(voc, run, g, chunk) <==> |bs| == 1 && Fits(voc, run, g, bs[0]))
  {
    hide BindingsFor, Fits;
    BroughtIs(run.bindings, g.id, chunk);
    assert forall k: nat :: Brings(run, g, chunk, k) <==> BringsAt(run.bindings, g.id, chunk, k);
  }

  /** What is on record about the chunk a candidate names. */
  lemma Recorded(library: Library, run: Analysis, chunk: Id)
    requires run.Sound()
    ensures chunk in CurrentOf(library, run.retrieved) <==> FetchedGenuine(library, run, chunk)
    ensures chunk in CurrentOf(library, run.retrieved) || chunk in ErrorsOf(library, run.retrieved) <==>
      Fetched(run, chunk)
    ensures !(chunk in CurrentOf(library, run.retrieved) && chunk in ErrorsOf(library, run.retrieved))
    ensures FetchedGenuine(library, run, chunk) ==> chunk in library
  {
    hide ProvenanceFault, FaultOf, CurrentOf, ErrorsOf;
    CurrentIs(library, run.retrieved);
    RetrievedOnce(run);
  }

  lemma RecordedFault(library: Library, run: Analysis, chunk: Id, f: Fault)
    requires run.Sound()
    ensures var errors := ErrorsOf(library, run.retrieved);
            FetchedSpoiled(library, run, chunk, f) <==> chunk in errors && errors[chunk] == f
  {
    hide Genuine, FaultOf, CurrentOf, ErrorsOf, Spoiled;
    CurrentIs(library, run.retrieved);
    if Fetched(run, chunk) {
      var r :| r in run.retrieved && r.id == chunk;
      RetrievedOnce(run);
      var i :| 0 <= i < |run.retrieved| && run.retrieved[i] == r;
      assert forall x :: x in run.retrieved && x.id == chunk ==> x == r;
      ErrorIs(library, run, i);
      SpoiledIs(library, r, f);
    }
  }

  /** The verdict on a candidate without a group of this analysis. */
  lemma VerdictNameless(library: Library, voc: Vocabulary, run: Analysis, c: Candidate)
    requires !exists g :: Names(run, c, g)
    ensures Verdict(library, voc, run, c) ==
      Err(Refusal(if c.analysis != run.id then CrossAnalysisChunk else UnknownGroup, false))
  {
    hide CurrentOf, ErrorsOf, Duplicated, BindingsFor, TermsFit, Mentioned, FindingsOf, AbsentChunk;
    CurrentIs(library, run.retrieved);
    var group := GroupOf(run.groups, c.group);
    assert forall g :: group == Some(g) ==> (Names(run, c, g) <==> c.analysis == run.id);
  }

  /** The verdict on one of a group, but not for its findings, under one rule, and once. */
  lemma VerdictMisplaced(library: Library, voc: Vocabulary, run: Analysis, c: Candidate, g: Group)
    requires run.Sound() && Names(run, c, g) && !Placed(run, c, g)
    ensures Verdict(library, voc, run, c) ==
      Err(Refusal(if exists id :: id in c.findings && !run.KnownFinding(id) then UnknownFinding
                  else if c.findings != g.findings then FindingGroupMismatch
                  else if !OneRule(run, g) then RuleMismatch
                  else DuplicateCitation, false))
  {
    hide CurrentOf, ErrorsOf, Duplicated, BindingsFor, TermsFit, Mentioned, ChosenTwice, FindingsOf, AbsentChunk;
    hide OneRule, Analysis.KnownFinding;
    CurrentIs(library, run.retrieved);
    GroupIs(run, g);
    ChosenTwiceIs(run, c);
    if Resolved(run, g) { OneRuleIs(run, g); }
  }

  lemma GroupKnown(run: Analysis, g: Group)
    requires run.Sound() && g in run.groups
    ensures Resolved(run, g)
  {}

  /** The fault of such a candidate. */
  lemma FaultMisplaced(library: Library, voc: Vocabulary, run: Analysis, c: Candidate, f: Fault, retry: bool)
    requires run.Sound() && !exists g :: Placed(run, c, g)
    ensures Verdict(library, voc, run, c) == Err(Refusal(f, retry)) <==> Faulted(library, voc, run, c, f, retry)
  {
    hide Verdict, ChosenTwice, OneRule, Analysis.KnownFinding, Misfit, Analysis.Sound;
    NamesOne(run, c);
    if exists g :: Names(run, c, g) {
      var g :| Names(run, c, g);
      VerdictMisplaced(library, voc, run, c, g);
      GroupKnown(run, g);
      assert c.analysis == run.id && g in run.groups && g.id == c.group;
      assert !Placed(run, c, g);
      hide Names;
    } else {
      VerdictNameless(library, voc, run, c);
      assert forall g :: g in run.groups && c.analysis == run.id ==> (g.id == c.group <==> Names(run, c, g));
    }
  }

  /** No two groups have the candidate's id. */
  lemma NamesOne(run: Analysis, c: Candidate)
    requires run.Sound()
    ensures forall g, h :: Names(run, c, g) && Names(run, c, h) ==> g == h
  {
    forall g, h | Names(run, c, g) && Names(run, c, h)
      ensures g == h
    {
      GroupIs(run, g);
      GroupIs(run, h);
    }
  }

  /** The verdict on one that is. */
  lemma VerdictPlaced(library: Library, voc: Vocabulary, run: Analysis, c: Candidate, g: Group)
    requires run.Sound() && Placed(run, c, g)
    ensures Resolved(run, g)
    ensures var v := Verdict(library, voc, run, c);
            if FetchedGenuine(library, run, c.chunk) then
              v == (if forall k: nat :: !Brings(run, g, c.chunk, k) then Err(Refusal(BindingMissing, false))
                    else if !BroughtOnce(voc, run, g, c.chunk) then Err(Refusal(BindingMismatch, false))
                    else if !Mentions(library, voc, run, g, c.chunk) then Err(Refusal(KeywordMismatch, true))
                    else Ok(CitationOf(run, g, library[c.chunk])))
            else v == Err(AbsentChunk(library, ErrorsOf(library, run.retrieved), c.chunk))
  {
    hide CurrentOf, ErrorsOf, Duplicated, BindingsFor, TermsFit, ChosenTwice, FindingsOf, OneRule, BroughtOnce, Brings;
    hide AbsentChunk, Fits;
    CurrentIs(library, run.retrieved);
    Recorded(library, run, c.chunk);
    GroupIs(run, g);
    ChosenTwiceIs(run, c);
    OneRuleIs(run, g);
    ChunkChecks(library, voc, run, g, c.chunk);
    var bs := BindingsFor(run.bindings, g.id, c.chunk);
    if bs != [] { FitsIs(voc, run, g, bs[0]); }
  }

  /** A placed candidate has no fault of place, and its group is the only one in question. */
  lemma PlaceIsOne(run: Analysis, c: Candidate, g: Group, f: Fault)
    requires run.Sound() && Placed(run, c, g)
    ensures Resolved(run, g) && !Misplaced(run, c, f) && forall h :: Placed(run, c, h) ==> h == g
  {
    hide OneRule, ChosenTwice;
    NamesOne(run, c);
  }

  /** A placed candidate is refused for the chunk it names only. */
  lemma FaultPlaced(library: Library, voc: Vocabulary, run: Analysis, c: Candidate, g: Group, f: Fault, retry: bool)
    requires run.Sound() && Placed(run, c, g)
    ensures Verdict(library, voc, run, c) == Err(Refusal(f, retry)) <==> Faulted(library, voc, run, c, f, retry)
  {
    hide Verdict, ErrorsOf, BroughtOnce, Brings, Fetched, FetchedGenuine, Mentions, Placed, FetchedSpoiled, Misplaced;
    hide Analysis.Sound, Resolved;
    PlaceIsOne(run, c, g, f);
    VerdictPlaced(library, voc, run, c, g);
    Recorded(library, run, c.chunk);
    RecordedFault(library, run, c.chunk, f);
    NoSuchSpoil(library, run, c.chunk, f);
    if BroughtOnce(voc, run, g, c.chunk) { OnceBrings(voc, run, g, c.chunk); }
    assert Faulted(library, voc, run, c, f, retry) <==> Misfit(library, voc, run, g, c.chunk, f, retry);
  }

  lemma OnceBrings(voc: Vocabulary, run: Analysis, g: Group, chunk: Id)
    requires Resolved(run, g) && BroughtOnce(voc, run, g, chunk)
    ensures exists k: nat :: Brings(run, g, chunk, k)
  {
    var k: nat :| OnlyAt(run.bindings, g.id, chunk, k);
    assert Brings(run, g, chunk, k);
  }

  /** Only what can depart makes a chunk spoiled. */
  lemma NoSuchSpoil(library: Library, run: Analysis, chunk: Id, f: Fault)
    ensures FetchedSpoiled(library, run, chunk, f) ==>
      f in {SourceIdentityMismatch, UrlMismatch, RefMismatch, CommitMismatch, HeadingMismatch, ContentHashMismatch,
            SourceHashMismatch, TextMismatch}
  {}

  /** A candidate is refused for a fault exactly when the analysis shows it. */
  lemma FaultIff(library: Library, voc: Vocabulary, run: Analysis, c: Candidate, f: Fault, retry: bool)
    requires run.Sound()
    ensures Verdict(library, voc, run, c) == Err(Refusal(f, retry)) <==> Faulted(library, voc, run, c, f, retry)
  {
    hide Verdict, Faulted, Placed;
    if exists g :: Placed(run, c, g) {
      var g :| Placed(run, c, g);
      FaultPlaced(library, voc, run, c, g, f, retry);
    } else {
      FaultMisplaced(library, voc, run, c, f, retry);
    }
  }

  // ----- the items of the result -----

  /** The ids once each, in order. */
  ghost predicate Listed(ids: seq<Id>, of: seq<Id>) {
    Ascending(StringLess, ids) && forall id :: id in ids <==> id in of
  }

  /** What the result says about a candidate. */
  ghost predicate ItemOfCandidate(library: Library, voc: Vocabulary, run: Analysis, c: Candidate, i: Item) {
    i.group == Some(c.group) && i.chunk == Some(c.chunk) &&
    if ValidCandidate(library, voc, run, c) then i.findings == c.findings && i.fault.None? && !i.retry
    else Listed(i.findings, c.findings) && i.fault.Some? && Faulted(library, voc, run, c, i.fault.value, i.retry)
  }

  /** What it says about a group nobody chose for. */
  ghost predicate ItemOfGroup(run: Analysis, i: Item) {
    exists g :: g in run.groups && (forall c :: c in run.candidates ==> c.group != g.id) &&
           i == Item(Some(g.id), g.findings, None, Some(NoCandidate), true)
  }

  /** What it says about a spoiled chunk nobody chose. */
  ghost predicate ItemOfChunk(library: Library, run: Analysis, i: Item) {
    exists r, f ::
      r in run.retrieved && (forall c :: c in run.candidates ==> c.chunk != r.id) && Spoiled(library, r, f) &&
      i == Item(None, [], Some(r.id), Some(f), false)
  }

  lemma {:induction false} UniqueIs(ids: seq<Id>)
    ensures NoDuplicates(Unique(ids)) && forall id :: id in Unique(ids) <==> id in ids
  {
    if ids != [] {
      UniqueIs(ids[..|ids| - 1]);
      assert ids == ids[..|ids| - 1] + [ids[|ids| - 1]];
    }
  }

  lemma SortedUnique(ids: seq<Id>, out: seq<Id>)
    ensures Listed(out, ids) <==> out == Sort(StringLess, Unique(ids))
  {
    hide StringLess, Sort;
    var u := Unique(ids);
    UniqueIs(ids);
    StringsOrdered();
    SortAscends(StringLess, u);
    SortPermutes(StringLess, u);
    SameElements(Sort(StringLess, u), u);
    if Listed(out, ids) { AscendingUnique(StringLess, out, Sort(StringLess, u)); }
  }

  lemma ItemForIs(library: Library, voc: Vocabulary, run: Analysis, c: Candidate, i: Item)
    requires run.Sound() && Filed(library)
    ensures i == ItemFor(library, voc, run, c) <==> ItemOfCandidate(library, voc, run, c, i)
  {
    hide Verdict, ValidCandidate, Faulted, Listed, Sort, Unique;
    VerdictIff(library, voc, run, c);
    if i.fault.Some? { FaultIff(library, voc, run, c, i.fault.value, i.retry); }
    SortedUnique(c.findings, i.findings);
  }

  lemma {:induction false} CandidateItemsAre(library: Library, voc: Vocabulary, run: Analysis, cs: seq<Candidate>)
    ensures forall i :: i in CandidateItems(library, voc, run, cs) <==>
      exists c :: c in cs && i == ItemFor(library, voc, run, c)
  {
    hide ItemFor;
    if cs != [] {
      CandidateItemsAre(library, voc, run, cs[..|cs| - 1]);
      assert cs == cs[..|cs| - 1] + [cs[|cs| - 1]];
    }
  }

  lemma CandidateItemIs(library: Library, voc: Vocabulary, run: Analysis, i: Item)
    requires run.Sound() && Filed(library)
    ensures i in CandidateItems(library, voc, run, run.candidates) <==>
      exists c :: c in run.candidates && ItemOfCandidate(library, voc, run, c, i)
  {
    hide ItemFor, ItemOfCandidate, CandidateItems, Analysis.Sound;
    CandidateItemsAre(library, voc, run, run.candidates);
    forall c | c in run.candidates
      ensures i == ItemFor(library, voc, run, c) <==> ItemOfCandidate(library, voc, run, c, i)
    {
      ItemForIs(library, voc, run, c, i);
    }
  }

  lemma {:induction false} MissingItemsAre(run: Analysis, groups: seq<Group>)
    ensures forall i :: i in MissingItems(run, groups) <==>
      exists g ::
        g in groups && !HasCandidate(run, g.id) && i == Item(Some(g.id), g.findings, None, Some(NoCandidate), true)
  {
    hide HasCandidate;
    if groups != [] {
      MissingItemsAre(run, groups[..|groups| - 1]);
      assert groups == groups[..|groups| - 1] + [groups[|groups| - 1]];
    }
  }

  ghost predicate SpoiledAlone(library: Library, run: Analysis, r: Retrieved) {
    !Genuine(library, r) && !Referenced(run, r.id)
  }

  lemma {:induction false} OrphanItemsAre(library: Library, run: Analysis, retrieved: seq<Retrieved>)
    ensures forall i :: i in OrphanItems(library, run, retrieved) <==>
      exists r :: r in retrieved && SpoiledAlone(library, run, r) &&
        i == Item(None, [], Some(r.id), Some(FaultOf(library, r)), false)
  {
    hide Genuine, Referenced, FaultOf;
    if retrieved != [] {
      OrphanItemsAre(library, run, retrieved[..|retrieved| - 1]);
      assert retrieved == retrieved[..|retrieved| - 1] + [retrieved[|retrieved| - 1]];
    }
  }

  lemma OrphanItemIs(library: Library, run: Analysis, i: Item)
    ensures i in OrphanItems(library, run, run.retrieved) <==> ItemOfChunk(library, run, i)
  {
    hide Genuine, FaultOf, OrphanItems, Spoiled;
    OrphanItemsAre(library, run, run.retrieved);
    forall r, f
      ensures Spoiled(library, r, f) <==> !Genuine(library, r) && FaultOf(library, r) == f
    {
      SpoiledIs(library, r, f);
    }
    if i in OrphanItems(library, run, run.retrieved) {
      var r :| r in run.retrieved && SpoiledAlone(library, run, r) &&
        i == Item(None, [], Some(r.id), Some(FaultOf(library, r)), false);
      assert Spoiled(library, r, FaultOf(library, r));
    }
  }

  /** With a library the result has these items and no others. */
  lemma ItemsAre(library: Library, voc: Vocabulary, run: Analysis, i: Item)
    requires run.Sound() && Filed(library)
    ensures i in Guarded(Some(library), voc, run).items <==>
      (exists c :: c in run.candidates && ItemOfCandidate(library, voc, run, c, i)) ||
      ItemOfGroup(run, i) || ItemOfChunk(library, run, i)
  {
    hide CandidateItems, MissingItems, OrphanItems, ItemOfCandidate, ItemOfChunk, Sort, ItemLess, GenuineIds;
    hide CitationsOf, Analysis.Sound;
    var all := AllItems(library, voc, run);
    SortPermutes(ItemLess, all);
    SameElements(Sort(ItemLess, all), all);
    CandidateItemIs(library, voc, run, i);
    MissingItemsAre(run, run.groups);
    OrphanItemIs(library, run, i);
  }

  /** Without one every group has the same fault, and nothing can be chosen again. */
  lemma ItemsWithoutLibrary(voc: Vocabulary, run: Analysis, i: Item)
    ensures i in Guarded(None, voc, run).items <==>
      exists g :: g in run.groups && i == Item(Some(g.id), g.findings, None, Some(TrustedSourceInvalid), false)
  {
    var items := Guarded(None, voc, run).items;
    if exists g :: g in run.groups && i == Item(Some(g.id), g.findings, None, Some(TrustedSourceInvalid), false) {
      var g :| g in run.groups && i == Item(Some(g.id), g.findings, None, Some(TrustedSourceInvalid), false);
      var k :| 0 <= k < |run.groups| && run.groups[k] == g;
      assert items[k] == i;
    }
  }

  /** The citations stand in the order of their groups, and of their chunks within a group. */
  lemma CitationsInOrder(library: Option<Library>, voc: Vocabulary, run: Analysis, i: nat, j: nat)
    requires run.Sound() && (library.Some? ==> Filed(library.value)) && i < j < |Guarded(library, voc, run).citations|
    ensures var x, y := Guarded(library, voc, run).citations[i], Guarded(library, voc, run).citations[j];
            StringLess(x.group, y.group) || (x.group == y.group && StringLess(x.chunk, y.chunk))
  {
    hide Guarded, StringLess;
    GuardAlwaysAccepted(library, voc, run);
    assert CitationLess(Guarded(library, voc, run).citations[i], Guarded(library, voc, run).citations[j]);
  }
}
