/**
  Reciprocal rank fusion of two ranked lists, with exact scores (app/retrieval/hybrid.py:101-228).
 */
module RankFusion {
  import opened Wrappers
  import opened Order

  const TOP_K := 8
  const FINAL_TOP_K := 3
  const MISSING_RANK := TOP_K + 1

  /** One result of a component, with everything that must agree across components in `provenance`. */
  datatype Hit = Hit(id: string, rank: int, score: real, provenance: string)

  datatype Candidate = Candidate(id: string, provenance: string, bm25: Option<Hit>, dense: Option<Hit>, score: real)

  datatype FusionError = BadParameter | BadComponent | InconsistentProvenance

  datatype Response = Response(results: seq<Candidate>, top: seq<Candidate>)

  function IdsOf(hits: seq<Hit>): (r: seq<string>)
    ensures |r| == |hits|
  {
    seq(|hits|, i requires 0 <= i < |hits| => hits[i].id)
  }

  function RanksOf(hits: seq<Hit>): (r: seq<int>)
    ensures |r| == |hits|
  {
    seq(|hits|, i requires 0 <= i < |hits| => hits[i].rank)
  }

  /** `_validate_component`: at most eight hits, no chunk twice, ranks 1, 2, 3 and so on in some order. */
  predicate ValidComponent(hits: seq<Hit>) {
    |hits| <= TOP_K && NoDuplicates(IdsOf(hits)) &&
    Sort((a: int, b: int) => a < b, RanksOf(hits)) == seq(|hits|, i => i + 1)
  }

  function HitOf(hits: seq<Hit>, id: string): (r: Option<Hit>)
    ensures r.Some? ==> r.value in hits && r.value.id == id
  {
    if hits == [] then None
    else
      var earlier := HitOf(hits[..|hits| - 1], id);
      if earlier.Some? then earlier else if hits[|hits| - 1].id == id then Some(hits[|hits| - 1]) else None
  }

  function Share(k: int, hit: Option<Hit>): real
    requires k >= 1 && (hit.Some? ==> hit.value.rank >= 1)
  {
    if hit.Some? then 1.0 / (k + hit.value.rank) as real else 0.0
  }

  ghost predicate Ranked(hits: seq<Hit>) {
    forall h :: h in hits ==> 1 <= h.rank <= TOP_K
  }

  /** What the two lists say about a chunk. */
  function CandidateOf(k: int, b: seq<Hit>, d: seq<Hit>, id: string): Candidate
    requires k >= 1 && Ranked(b) && Ranked(d)
  {
    var inB, inD := HitOf(b, id), HitOf(d, id);
    var provenance := if inB.Some? then inB.value.provenance else if inD.Some? then inD.value.provenance else "";
    Candidate(id, provenance, inB, inD, Share(k, inB) + Share(k, inD))
  }

  function RankOr(hit: Option<Hit>, default: int): int { if hit.Some? then hit.value.rank else default }

  function BestRank(c: Candidate): int {
    if c.bm25.Some? && c.dense.Some?
    then (if c.bm25.value.rank < c.dense.value.rank then c.bm25.value.rank else c.dense.value.rank)
    else if c.bm25.Some? then c.bm25.value.rank
    else RankOr(c.dense, MISSING_RANK)
  }

  function TotalRank(c: Candidate): int { RankOr(c.bm25, MISSING_RANK) + RankOr(c.dense, MISSING_RANK) }

  /** `ranking_key`: higher score, better best rank, better total rank, smaller id. */
  predicate RanksBefore(x: Candidate, y: Candidate) {
    x.score > y.score ||
    (x.score == y.score &&
     (BestRank(x) < BestRank(y) ||
      (BestRank(x) == BestRank(y) &&
       (TotalRank(x) < TotalRank(y) ||
        (TotalRank(x) == TotalRank(y) && StringLess(x.id, y.id))))))
  }

  // ----- the fusion, over candidates updated in place -----

  class FusionCandidate {
    const id: string
    const provenance: string
    var bm25: Option<Hit>
    var dense: Option<Hit>
    var score: real

    constructor (id: string, provenance: string)
      ensures this.id == id && this.provenance == provenance && bm25 == None && dense == None && score == 0.0
    {
      this.id := id;
      this.provenance := provenance;
      bm25 := None;
      dense := None;
      score := 0.0;
    }

    function Value(): Candidate
      reads this
    {
      Candidate(id, provenance, bm25, dense, score)
    }

    /** Take the rank, score and share of a hit. */
    method Take(k: int, isDense: bool, x: Hit)
      requires k >= 1 && x.rank >= 1
      modifies this
      ensures Value() == Updated(old(Value()), k, isDense, x)
    {
      if isDense { dense := Some(x); } else { bm25 := Some(x); }
      score := score + 1.0 / (k + x.rank) as real;
    }
  }

  type Pool = map<string, FusionCandidate>

  /** No two ids share an object. */
  ghost predicate Separate(pool: Pool) {
    (forall id :: id in pool ==> pool[id].id == id) && forall i, j :: i in pool && j in pool && i != j ==>
      pool[i] != pool[j]
  }

  ghost function Snapshot(pool: Pool): (m: map<string, Candidate>)
    reads pool.Values
    ensures m.Keys == pool.Keys
  {
    map id | id in pool :: pool[id].Value()
  }

  function Updated(c: Candidate, k: int, dense: bool, x: Hit): Candidate
    requires k >= 1 && x.rank >= 1
  {
    if dense then c.(dense := Some(x), score := c.score + Share(k, Some(x)))
    else c.(bm25 := Some(x), score := c.score + Share(k, Some(x)))
  }

  function NewCandidate(x: Hit): Candidate { Candidate(x.id, x.provenance, None, None, 0.0) }

  function After(m: map<string, Candidate>, k: int, dense: bool, x: Hit): map<string, Candidate>
    requires k >= 1 && x.rank >= 1
  {
    m[x.id := Updated(if x.id in m then m[x.id] else NewCandidate(x), k, dense, x)]
  }

  /** `candidates.get`, adding a fresh candidate for a new chunk. */
  method FindOrAdd(pool: Pool, x: Hit) returns (r: Pool)
    requires Separate(pool)
    ensures Separate(r) && x.id in r && fresh(r.Values - pool.Values)
    ensures r[x.id] in pool.Values || fresh(r[x.id])
    ensures Snapshot(r) == if x.id in pool then Snapshot(pool) else Snapshot(pool)[x.id := NewCandidate(x)]
  {
    r := pool;
    if x.id !in pool {
      var candidate := new FusionCandidate(x.id, x.provenance);
      r := pool[x.id := candidate];
    }
  }

  /** One round of the inner loop: find or add the candidate of a hit, then update it. */
  method Absorb(pool: Pool, k: int, dense: bool, x: Hit) returns (r: Pool, ok: bool)
    requires k >= 1 && x.rank >= 1 && Separate(pool)
    modifies pool.Values
    ensures ok <==> (x.id in pool ==> pool[x.id].provenance == x.provenance)
    ensures ok ==> Separate(r) && Snapshot(r) == After(old(Snapshot(pool)), k, dense, x)
    ensures fresh(r.Values - pool.Values)
  {
    hide Updated, Snapshot, Separate;
    if x.id in pool && pool[x.id].provenance != x.provenance { return pool, false; }
    r := FindOrAdd(pool, x);
    ok := true;
    UpdateOne(r, k, dense, x);
  }

  /** Updating one candidate leaves the others alone. */
  method UpdateOne(pool: Pool, k: int, dense: bool, x: Hit)
    requires k >= 1 && x.rank >= 1 && Separate(pool) && x.id in pool
    modifies pool[x.id]
    ensures Snapshot(pool) == old(Snapshot(pool))[x.id := Updated(old(Snapshot(pool))[x.id], k, dense, x)]
  {
    hide Updated;
    pool[x.id].Take(k, dense, x);
  }

  /** The candidates of every chunk of either list, as the lists have it. */
  ghost predicate Represents(m: map<string, Candidate>, k: int, b: seq<Hit>, d: seq<Hit>)
    requires k >= 1 && Ranked(b) && Ranked(d)
  {
    (forall id :: id in m <==> HitOf(b, id).Some? || HitOf(d, id).Some?) &&
    (forall id :: id in m ==> m[id] == CandidateOf(k, b, d, id))
  }

  lemma OneMoreHit(hits: seq<Hit>, x: Hit)
    ensures forall id ::
      HitOf(hits + [x], id) ==
      if HitOf(hits, id).Some? then HitOf(hits, id) else if x.id == id then Some(x) else None
  {
    assert (hits + [x])[..|hits|] == hits;
  }

  lemma RankedMore(hits: seq<Hit>, x: Hit)
    requires Ranked(hits) && 1 <= x.rank <= TOP_K
    ensures Ranked(hits + [x])
  {}

  lemma RepresentsBm25(m: map<string, Candidate>, k: int, b: seq<Hit>, x: Hit)
    requires k >= 1 && Ranked(b) && 1 <= x.rank <= TOP_K && Represents(m, k, b, []) && HitOf(b, x.id).None?
    ensures Ranked(b + [x]) && Represents(After(m, k, false, x), k, b + [x], [])
  {
    hide HitOf, Share, Ranked;
    OneMoreHit(b, x);
    RankedMore(b, x);
    NothingListed(k);
  }

  lemma NothingListed(k: int)
    requires k >= 1
    ensures Ranked([]) && Share(k, None) == 0.0 && forall id :: HitOf([], id) == None
  {}

  lemma RepresentsDense(m: map<string, Candidate>, k: int, b: seq<Hit>, d: seq<Hit>, x: Hit)
    requires k >= 1 && Ranked(b) && Ranked(d) && 1 <= x.rank <= TOP_K && Represents(m, k, b, d) && HitOf(d, x.id).None?
    requires x.id in m ==> m[x.id].provenance == x.provenance
    ensures Ranked(d + [x]) && Represents(After(m, k, true, x), k, b, d + [x])
  {
    hide HitOf, Share, Ranked;
    OneMoreHit(d, x);
    RankedMore(d, x);
    NothingListed(k);
  }

  function AfterAll(m: map<string, Candidate>, k: int, dense: bool, hits: seq<Hit>): map<string, Candidate>
    requires k >= 1 && Ranked(hits)
  {
    if hits == [] then m
    else
      var n := |hits| - 1;
      After(AfterAll(m, k, dense, hits[..n]), k, dense, hits[n])
  }

  /** The known candidates agree with the hits about provenance. */
  ghost predicate Agrees(m: map<string, Candidate>, hits: seq<Hit>) {
    forall x :: x in hits && x.id in m ==> m[x.id].provenance == x.provenance
  }

  lemma NextHit(hits: seq<Hit>, i: nat)
    requires i < |hits| && Ranked(hits) && NoDuplicates(IdsOf(hits))
    ensures hits[..i + 1] == hits[..i] + [hits[i]] && hits[..i + 1][..i] == hits[..i] && hits[i] in hits
    ensures Ranked(hits[..i]) && Ranked(hits[..i + 1]) && 1 <= hits[i].rank <= TOP_K
    ensures HitOf(hits[..i], hits[i].id).None?
  {
    forall h | h in hits[..i]
      ensures h.id != hits[i].id
    {
      var j :| 0 <= j < i && hits[..i][j] == h;
      assert IdsOf(hits)[j] != IdsOf(hits)[i];
    }
  }

  /** Absorbing hits keeps what is known of other chunks, and their provenance. */
  lemma {:induction false} AfterAllKeeps(m: map<string, Candidate>, k: int, dense: bool, hits: seq<Hit>)
    requires k >= 1 && Ranked(hits)
    ensures forall id :: id in AfterAll(m, k, dense, hits) <==> id in m || HitOf(hits, id).Some?
    ensures forall id :: id in m && HitOf(hits, id).None? ==> AfterAll(m, k, dense, hits)[id] == m[id]
  {
    if hits != [] { AfterAllKeeps(m, k, dense, hits[..|hits| - 1]); }
  }

  /** The inner loop over the hits of one component, in the order of their ranks. */
  method AbsorbAll(pool: Pool, order: seq<string>, k: int, dense: bool, hits: seq<Hit>)
      returns (r: Pool, names: seq<string>, ok: bool)
    requires k >= 1 && Ranked(hits) && NoDuplicates(IdsOf(hits)) && Separate(pool)
    requires NoDuplicates(order) && forall id :: id in order <==> id in pool
    modifies pool.Values
    ensures fresh(r.Values - pool.Values)
    ensures ok <==> Agrees(old(Snapshot(pool)), hits)
    ensures ok ==> Separate(r) && Snapshot(r) == AfterAll(old(Snapshot(pool)), k, dense, hits)
    ensures ok ==> NoDuplicates(names) && (forall id :: id in names <==> id in r) && |names| <= |order| + |hits|
  {
    hide Separate, Snapshot, After, AfterAll, Agrees, Ranked, HitOf, NoDuplicates;
    r, names, ok := pool, order, true;
    ghost var start := Snapshot(pool);
    assert hits[..0] == [];
    NothingAbsorbed(start, k, dense);
    for i := 0 to |hits|
      invariant Separate(r) && fresh(r.Values - pool.Values) && Ranked(hits[..i]) && Agrees(start, hits[..i])
      invariant Snapshot(r) == AfterAll(start, k, dense, hits[..i])
      invariant NoDuplicates(names) && (forall id :: id in names <==> id in r) && |names| <= |order| + i
    {
      var x := hits[i];
      NextHit(hits, i);
      NextAfterAll(start, k, dense, hits, i);
      SnapshotKnows(r, x.id);
      var next, agreed := Absorb(r, k, dense, x);
      if !agreed { return next, names, false; }
      if x.id !in names {
        Appended(names, x.id);
        names := names + [x.id];
      }
      r := next;
    }
    assert hits[..|hits|] == hits;
  }

  lemma NothingAbsorbed(m: map<string, Candidate>, k: int, dense: bool)
    requires k >= 1
    ensures Ranked([]) && AfterAll(m, k, dense, []) == m && Agrees(m, [])
  {}

  /** One more hit: what the pool becomes, and whether it agrees. */
  lemma NextAfterAll(m: map<string, Candidate>, k: int, dense: bool, hits: seq<Hit>, i: nat)
    requires k >= 1 && i < |hits| && Ranked(hits) && NoDuplicates(IdsOf(hits)) && Agrees(m, hits[..i])
    requires Ranked(hits[..i]) && Ranked(hits[..i + 1])
    ensures var before, x := AfterAll(m, k, dense, hits[..i]), hits[i];
            AfterAll(m, k, dense, hits[..i + 1]) == After(before, k, dense, x) &&
            (forall id :: id in After(before, k, dense, x) <==> id in before || id == x.id) &&
            ((x.id in before ==> before[x.id].provenance == x.provenance) <==> Agrees(m, hits[..i + 1])) &&
            (Agrees(m, hits) ==> Agrees(m, hits[..i + 1]))
  {
    hide Ranked, HitOf;
    NextHit(hits, i);
    AfterAllKeeps(m, k, dense, hits[..i]);
  }

  lemma SnapshotKnows(pool: Pool, id: string)
    requires Separate(pool)
    ensures id in pool ==> Snapshot(pool)[id].provenance == pool[id].provenance
  {}

  lemma Appended(s: seq<string>, x: string)
    requires NoDuplicates(s) && x !in s
    ensures NoDuplicates(s + [x])
  {}

  // ----- the whole fusion -----

  predicate ByRank(x: Hit, y: Hit) { x.rank < y.rank }

  predicate Listed(b: seq<Hit>, d: seq<Hit>, id: string) { HitOf(b, id).Some? || HitOf(d, id).Some? }

  ghost predicate Agree(b: seq<Hit>, d: seq<Hit>) {
    forall x, y :: x in b && y in d && x.id == y.id ==> x.provenance == y.provenance
  }

  /** The ranking of two lists: every chunk of either, once, in the order of the key. */
  ghost predicate Fused(k: int, b: seq<Hit>, d: seq<Hit>, ranking: seq<Candidate>)
    requires k >= 1 && Ranked(b) && Ranked(d)
  {
    Ascending(RanksBefore, ranking) && forall c :: c in ranking <==>
      Listed(b, d, c.id) && c == CandidateOf(k, b, d, c.id)
  }

  /** What a refused fusion is refused for. */
  function Complaint(bm25: seq<Hit>, dense: seq<Hit>, k: int): FusionError {
    if !(1 <= k <= 1000) then BadParameter
    else if !ValidComponent(bm25) || !ValidComponent(dense) then BadComponent
    else InconsistentProvenance
  }

  /** `reciprocal_rank_fusion`. */
  method Fuse(bm25: seq<Hit>, dense: seq<Hit>, k: int) returns (r: Result<Response, FusionError>)
    ensures r.Ok? <==> 1 <= k <= 1000 && ValidComponent(bm25) && ValidComponent(dense) && Agree(bm25, dense)
    ensures r.Err? ==> r.error == Complaint(bm25, dense, k)
    ensures r.Ok? ==>
      Ranked(bm25) && Ranked(dense) && Fused(k, bm25, dense, r.value.results) &&
      |r.value.results| <= 2 * TOP_K
    ensures r.Ok? ==>
      r.value.top == r.value.results[..if |r.value.results| < 3 then |r.value.results| else 3]
  {
    hide ValidComponent, HitOf, Ranked, RanksBefore, Share, Sort, Snapshot, Separate, Fused, Agree, Agrees,
    NoDuplicates, AfterAll, IdsOf, Represents, CandidateOf, Listed;
    if !(1 <= k <= 1000) { return Err(BadParameter); }
    if !ValidComponent(bm25) { return Err(BadComponent); }
    if !ValidComponent(dense) { return Err(BadComponent); }
    ComponentFacts(bm25);
    ComponentFacts(dense);
    var sparse, close := Sort(ByRank, bm25), Sort(ByRank, dense);
    Rearranged(bm25);
    Rearranged(dense);
    var empty: Pool := map[];
    EmptyPool(empty);
    var first, names, ok := AbsorbAll(empty, [], k, false, sparse);
    NothingListed(k);
    Bm25Represents(k, sparse);
    ghost var m := Snapshot(first);
    var pool, order, agreed := AbsorbAll(first, names, k, true, close);
    AgreementIs(m, k, bm25, dense, sparse, close);
    if !agreed { return Err(InconsistentProvenance); }
    DenseRepresents(m, k, sparse, close);
    ghost var final := Snapshot(pool);
    SameHits(bm25, sparse);
    SameHits(dense, close);
    SameRepresents(final, k, bm25, dense, sparse, close);
    var items := ItemsOf(pool, order);
    var ranking := Sort(RanksBefore, items);
    RankingFuses(final, k, bm25, dense, order, items);
    r := Ok(Response(ranking, ranking[..if |ranking| < FINAL_TOP_K then |ranking| else FINAL_TOP_K]));
  }

  method ItemsOf(pool: Pool, order: seq<string>) returns (items: seq<Candidate>)
    requires forall id :: id in order <==> id in pool
    ensures |items| == |order| && forall i :: 0 <= i < |order| ==> items[i] == Snapshot(pool)[order[i]]
  {
    items := [];
    for i := 0 to |order|
      invariant |items| == i && forall j :: 0 <= j < i ==> items[j] == Snapshot(pool)[order[j]]
    {
      assert order[i] in order;
      items := items + [pool[order[i]].Value()];
    }
  }

  lemma EmptyPool(pool: Pool)
    requires pool == map[]
    ensures Separate(pool) && Snapshot(pool) == map[] && NoDuplicates<string>([])
    ensures forall hits :: Agrees(map[], hits)
  {}

  // ----- components -----

  lemma ComponentFacts(hits: seq<Hit>)
    requires ValidComponent(hits)
    ensures |hits| <= TOP_K && Ranked(hits) && NoDuplicates(IdsOf(hits)) && NoDuplicates(RanksOf(hits))
  {
    var lt := (a: int, b: int) => a < b;
    var ranks := RanksOf(hits);
    SortPermutes(lt, ranks);
    SameElements(Sort(lt, ranks), ranks);
    DistinctPermuted(Sort(lt, ranks), ranks);
    forall h | h in hits
      ensures 1 <= h.rank <= TOP_K
    {
      var i :| 0 <= i < |hits| && hits[i] == h;
      assert ranks[i] == h.rank && h.rank in ranks;
    }
  }

  lemma {:induction false} FullSetDistinct<T>(s: seq<T>)
    requires |set x | x in s| == |s|
    ensures NoDuplicates(s)
  {
    if s != [] {
      var n := |s| - 1;
      var all, before := set x | x in s, set x | x in s[..n];
      assert s == s[..n] + [s[n]];
      SetOfSeq(s[..n]);
      if s[n] in s[..n] {
        assert all == before;
      } else {
        assert all == before + {s[n]};
        FullSetDistinct(s[..n]);
      }
    }
  }

  lemma {:induction false} SubsetOfSize<T>(a: set<T>, b: set<T>)
    requires a <= b && |b| <= |a|
    ensures a == b
  {
    if a != {} {
      var x :| x in a;
      SubsetOfSize(a - {x}, b - {x});
      assert b == (b - {x}) + {x};
    }
  }

  /** A component is accepted exactly with at most eight hits, no chunk twice, and each rank from 1 to their number. */
  lemma ComponentIff(hits: seq<Hit>)
    ensures ValidComponent(hits) <==>
      |hits| <= TOP_K && NoDuplicates(IdsOf(hits)) && forall r :: 1 <= r <= |hits| ==> r in RanksOf(hits)
  {
    var lt := (a: int, b: int) => a < b;
    var ranks, target := RanksOf(hits), seq(|hits|, i => i + 1);
    SortPermutes(lt, ranks);
    SameElements(Sort(lt, ranks), ranks);
    forall r
      ensures r in target <==> 1 <= r <= |hits|
    {
      if 1 <= r <= |hits| { assert target[r - 1] == r; }
    }
    if forall r :: 1 <= r <= |hits| ==> r in ranks {
      var wanted, found := set r | r in target, set r | r in ranks;
      SetOfSeq(target);
      SetOfSeq(ranks);
      SubsetOfSize(wanted, found);
      FullSetDistinct(ranks);
      SortAscends(lt, ranks);
      forall r
        ensures r in Sort(lt, ranks) <==> r in target
      {
        assert r in ranks <==> r in wanted;
      }
      AscendingUnique(lt, Sort(lt, ranks), target);
    }
  }

  lemma Rearranged(hits: seq<Hit>)
    requires Ranked(hits) && NoDuplicates(IdsOf(hits))
    ensures var s := Sort(ByRank, hits);
      |s| == |hits| && (forall x :: x in s <==> x in hits) && Ranked(s) &&
      NoDuplicates(IdsOf(s))
  {
    hide Sort;
    var s := Sort(ByRank, hits);
    SortPermutes(ByRank, hits);
    SameElements(s, hits);
    forall i, j | 0 <= i < j < |hits|
      ensures hits[i] != hits[j]
    {
      assert IdsOf(hits)[i] != IdsOf(hits)[j];
    }
    DistinctPermuted(hits, s);
    IdsTellApart(hits);
    forall i, j | 0 <= i < j < |s|
      ensures IdsOf(s)[i] != IdsOf(s)[j]
    {
      assert s[i] in hits && s[j] in hits && s[i] != s[j];
    }
  }

  lemma IdsTellApart(hits: seq<Hit>)
    requires NoDuplicates(IdsOf(hits))
    ensures forall x, y :: x in hits && y in hits && x.id == y.id ==> x == y
  {
    forall x, y | x in hits && y in hits && x.id == y.id
      ensures x == y
    {
      var i :| 0 <= i < |hits| && hits[i] == x;
      var j :| 0 <= j < |hits| && hits[j] == y;
      assert IdsOf(hits)[i] == IdsOf(hits)[j];
    }
  }

  lemma {:induction false} HitOfIs(hits: seq<Hit>, id: string)
    ensures HitOf(hits, id).Some? <==> exists x :: x in hits && x.id == id
  {
    if hits != [] {
      var n := |hits| - 1;
      HitOfIs(hits[..n], id);
      assert hits == hits[..n] + [hits[n]];
    }
  }

  /** The hit of a chunk does not depend on the order of the list. */
  lemma SameHits(a: seq<Hit>, b: seq<Hit>)
    requires NoDuplicates(IdsOf(a)) && forall x :: x in a <==> x in b
    ensures forall id :: HitOf(a, id) == HitOf(b, id)
  {
    IdsTellApart(a);
    hide HitOf;
    forall id
      ensures HitOf(a, id) == HitOf(b, id)
    {
      HitOfIs(a, id);
      HitOfIs(b, id);
    }
  }

  // ----- the pool represents the lists -----

  lemma {:induction false} Bm25Represents(k: int, b: seq<Hit>)
    requires k >= 1 && Ranked(b) && NoDuplicates(IdsOf(b))
    ensures Represents(AfterAll(map[], k, false, b), k, b, [])
  {
    hide Represents, HitOf, Ranked, IdsOf, Share, CandidateOf;
    if b == [] {
      NothingRepresents(k);
    } else {
      var n := |b| - 1;
      NextHit(b, n);
      IdsPrefix(b, n);
      Bm25Represents(k, b[..n]);
      RepresentsBm25(AfterAll(map[], k, false, b[..n]), k, b[..n], b[n]);
      assert b[..n] + [b[n]] == b && b[..n + 1] == b;
    }
  }

  lemma NothingRepresents(k: int)
    requires k >= 1
    ensures Ranked([]) && Represents(map[], k, [], [])
  {}

  lemma IdsPrefix(hits: seq<Hit>, n: nat)
    requires n <= |hits| && NoDuplicates(IdsOf(hits))
    ensures NoDuplicates(IdsOf(hits[..n]))
  {
    assert IdsOf(hits[..n]) == IdsOf(hits)[..n];
  }

  lemma {:induction false} DenseRepresents(m: map<string, Candidate>, k: int, b: seq<Hit>, d: seq<Hit>)
    requires k >= 1 && Ranked(b) && Ranked(d) && NoDuplicates(IdsOf(d))
    requires Ranked([]) && Represents(m, k, b, []) && Agrees(m, d)
    ensures Represents(AfterAll(m, k, true, d), k, b, d)
    decreases d
  {
    hide Represents, HitOf, Ranked, IdsOf, Share, CandidateOf;
    if d != [] {
      var n := |d| - 1;
      NextHit(d, n);
      IdsPrefix(d, n);
      DenseRepresents(m, k, b, d[..n]);
      AfterAllKeeps(m, k, true, d[..n]);
      RepresentsDense(AfterAll(m, k, true, d[..n]), k, b, d[..n], d[n]);
      assert d[..n] + [d[n]] == d && d[..n + 1] == d;
    }
  }

  lemma AgreementIs(m: map<string, Candidate>, k: int, bm25: seq<Hit>, dense: seq<Hit>, b: seq<Hit>, d: seq<Hit>)
    requires k >= 1 && Ranked(b) && Ranked([]) && Represents(m, k, b, []) && NoDuplicates(IdsOf(b))
    requires forall x :: x in b <==> x in bm25
    requires forall x :: x in d <==> x in dense
    ensures Agrees(m, d) <==> Agree(bm25, dense)
  {
    IdsTellApart(b);
    hide HitOf, Ranked, Share;
    NothingListed(k);
    forall x | x in b
      ensures x.id in m && m[x.id].provenance == x.provenance
    {
      HitOfIs(b, x.id);
    }
    forall id | id in m
      ensures exists x :: x in b && x.id == id
    {
      HitOfIs(b, id);
    }
  }

  lemma SameRepresents(m: map<string, Candidate>, k: int, b: seq<Hit>, d: seq<Hit>, sb: seq<Hit>, sd: seq<Hit>)
    requires k >= 1 && Ranked(b) && Ranked(d) && Ranked(sb) && Ranked(sd) && Represents(m, k, sb, sd)
    requires forall id :: HitOf(b, id) == HitOf(sb, id)
    requires forall id :: HitOf(d, id) == HitOf(sd, id)
    ensures Represents(m, k, b, d)
  {
    hide HitOf, Ranked, Share;
  }

  // ----- the order of candidates -----

  lemma RanksOrdered()
    ensures StrictOrder(RanksBefore)
  {
    StringsOrdered();
    hide StringLess, BestRank, TotalRank;
  }

  lemma IdsCompare(x: Candidate, y: Candidate)
    requires x.id != y.id
    ensures RanksBefore(x, y) || RanksBefore(y, x)
  {
    StringTotal(x.id, y.id);
    hide StringLess, BestRank, TotalRank;
  }

  /** Sorting what the pool holds gives the ranking. */
  lemma RankingFuses(m: map<string, Candidate>, k: int, b: seq<Hit>, d: seq<Hit>, order: seq<string>,
                     items: seq<Candidate>)
    requires k >= 1 && Ranked(b) && Ranked(d) && Represents(m, k, b, d)
    requires NoDuplicates(order) && forall id :: id in order <==> id in m
    requires |items| == |order| && forall i :: 0 <= i < |order| ==> items[i] == m[order[i]]
    ensures Fused(k, b, d, Sort(RanksBefore, items)) && |Sort(RanksBefore, items)| == |order|
  {
    hide HitOf, Ranked, Share, RanksBefore, Sort;
    RanksOrdered();
    forall x, y | x in items && y in items && x != y
      ensures RanksBefore(x, y) || RanksBefore(y, x)
    {
      IdsCompare(x, y);
    }
    SortAscends(RanksBefore, items);
    SortPermutes(RanksBefore, items);
    SameElements(Sort(RanksBefore, items), items);
    forall id | id in m
      ensures m[id] in items
    {
      var i :| 0 <= i < |order| && order[i] == id;
      assert items[i] == m[id];
    }
  }

  // ----- the ranking is canonical -----

  function ChunkIds(ranking: seq<Candidate>): seq<string> {
    seq(|ranking|, i requires 0 <= i < |ranking| => ranking[i].id)
  }

  /** A ranking lists the union of both lists, no chunk twice. */
  lemma RankingIsUnion(k: int, b: seq<Hit>, d: seq<Hit>, ranking: seq<Candidate>)
    requires k >= 1 && Ranked(b) && Ranked(d) && Fused(k, b, d, ranking)
    ensures NoDuplicates(ChunkIds(ranking))
    ensures forall id :: id in ChunkIds(ranking) <==> exists x :: (x in b || x in d) && x.id == id
  {
    hide HitOf, Share, RanksBefore, Ranked;
    RanksOrdered();
    AscendingDistinct(RanksBefore, ranking);
    forall i, j | 0 <= i < j < |ranking|
      ensures ChunkIds(ranking)[i] != ChunkIds(ranking)[j]
    {
      assert ranking[i] in ranking && ranking[j] in ranking;
    }
    forall id
      ensures id in ChunkIds(ranking) <==> exists x :: (x in b || x in d) && x.id == id
    {
      HitOfIs(b, id);
      HitOfIs(d, id);
      if id in ChunkIds(ranking) {
        var i :| 0 <= i < |ranking| && ranking[i].id == id;
        assert ranking[i] in ranking;
      }
      if Listed(b, d, id) {
        var i :| 0 <= i < |ranking| && ranking[i] == CandidateOf(k, b, d, id);
        assert ChunkIds(ranking)[i] == id;
      }
    }
  }

  /** Rearranging either list changes nothing. */
  lemma RankingIgnoresListOrder(k: int, b: seq<Hit>, d: seq<Hit>, b': seq<Hit>, d': seq<Hit>, r: seq<Candidate>,
                                r': seq<Candidate>)
    requires k >= 1 && Ranked(b) && Ranked(d) && Ranked(b') && Ranked(d')
    requires NoDuplicates(IdsOf(b)) && NoDuplicates(IdsOf(d))
    requires (forall x :: x in b <==> x in b') && (forall x :: x in d <==> x in d')
    requires Fused(k, b, d, r) && Fused(k, b', d', r')
    ensures r == r'
  {
    hide HitOf, Share, RanksBefore, Ranked, IdsOf;
    SameHits(b, b');
    SameHits(d, d');
    RanksOrdered();
    assert forall id :: CandidateOf(k, b, d, id) == CandidateOf(k, b', d', id);
    AscendingUnique(RanksBefore, r, r');
  }

  /** A candidate with the two lists exchanged. */
  function Mirrored(c: Candidate): Candidate { c.(bm25 := c.dense, dense := c.bm25) }

  function MirroredAll(ranking: seq<Candidate>): (r: seq<Candidate>)
    ensures |r| == |ranking|
  {
    seq(|ranking|, i requires 0 <= i < |ranking| => Mirrored(ranking[i]))
  }

  lemma MirrorKeepsOrder(x: Candidate, y: Candidate)
    ensures RanksBefore(Mirrored(x), Mirrored(y)) <==> RanksBefore(x, y)
  {
    hide StringLess;
    assert BestRank(Mirrored(x)) == BestRank(x) && BestRank(Mirrored(y)) == BestRank(y);
    assert TotalRank(Mirrored(x)) == TotalRank(x) && TotalRank(Mirrored(y)) == TotalRank(y);
  }

  lemma MirroredCandidate(k: int, b: seq<Hit>, d: seq<Hit>, id: string)
    requires k >= 1 && Ranked(b) && Ranked(d) && Agree(b, d)
    ensures CandidateOf(k, d, b, id) == Mirrored(CandidateOf(k, b, d, id))
  {
    hide Share, Ranked;
  }

  /** Exchanging the lists exchanges the evidence and leaves the order alone. */
  lemma RankingIsSymmetric(k: int, b: seq<Hit>, d: seq<Hit>, r: seq<Candidate>, r': seq<Candidate>)
    requires k >= 1 && Ranked(b) && Ranked(d) && Agree(b, d)
    requires Fused(k, b, d, r) && Fused(k, d, b, r')
    ensures r' == MirroredAll(r) && ChunkIds(r') == ChunkIds(r)
  {
    hide HitOf, Share, RanksBefore, Ranked, CandidateOf, Agree;
    RanksOrdered();
    var m := MirroredAll(r);
    forall i, j | 0 <= i < j < |m|
      ensures RanksBefore(m[i], m[j])
    {
      MirrorKeepsOrder(r[i], r[j]);
    }
    forall c
      ensures c in m <==> c in r'
    {
      MirroredCandidate(k, b, d, c.id);
      assert Mirrored(Mirrored(c)) == c;
      if c in m {
        var i :| 0 <= i < |m| && m[i] == c;
        assert r[i] in r;
      }
      if c in r' {
        assert Mirrored(c) in r;
        var i :| 0 <= i < |r| && r[i] == Mirrored(c);
        assert m[i] == c;
      }
    }
    AscendingUnique(RanksBefore, m, r');
  }

  // ----- dominance -----

  /** No list ranks `y` ahead of `x`, or lists `y` without `x`. */
  predicate Dominates(hits: seq<Hit>, x: string, y: string) {
    HitOf(hits, y).Some? ==> HitOf(hits, x).Some? && HitOf(hits, x).value.rank <= HitOf(hits, y).value.rank
  }

  lemma ShareFalls(k: int, better: Option<Hit>, worse: Option<Hit>)
    requires k >= 1 && (better.Some? ==> better.value.rank >= 1) && (worse.Some? ==> worse.value.rank >= 1)
    requires worse.Some? ==> better.Some? && better.value.rank <= worse.value.rank
    ensures Share(k, better) >= Share(k, worse)
    ensures worse.Some? && better.value.rank < worse.value.rank ==> Share(k, better) > Share(k, worse)
  {
    if worse.Some? {
      Reciprocals((k + better.value.rank) as real, (k + worse.value.rank) as real);
    }
  }

  lemma Reciprocals(a: real, b: real)
    requires 0.0 < a <= b
    ensures 1.0 / a >= 1.0 / b && (a < b ==> 1.0 / a > 1.0 / b)
  {
    assert 1.0 / a - 1.0 / b == (b - a) / (a * b);
  }

  lemma RanksDiffer(hits: seq<Hit>, x: string, y: string)
    requires NoDuplicates(RanksOf(hits)) && x != y && HitOf(hits, x).Some? && HitOf(hits, y).Some?
    ensures HitOf(hits, x).value.rank != HitOf(hits, y).value.rank
  {
    var i :| 0 <= i < |hits| && hits[i] == HitOf(hits, x).value;
    var j :| 0 <= j < |hits| && hits[j] == HitOf(hits, y).value;
    assert RanksOf(hits)[i] == hits[i].rank && RanksOf(hits)[j] == hits[j].rank;
  }

  lemma DominatingShare(k: int, hits: seq<Hit>, x: string, y: string)
    requires k >= 1 && Ranked(hits) && NoDuplicates(RanksOf(hits)) && x != y && Dominates(hits, x, y)
    ensures Share(k, HitOf(hits, x)) >= Share(k, HitOf(hits, y))
    ensures HitOf(hits, y).Some? ==> Share(k, HitOf(hits, x)) > Share(k, HitOf(hits, y))
  {
    hide Share;
    ShareFalls(k, HitOf(hits, x), HitOf(hits, y));
    if HitOf(hits, y).Some? { RanksDiffer(hits, x, y); }
  }

  /** In an ascending ranking the position follows the key. */
  lemma FollowsKey(ranking: seq<Candidate>, i: nat, j: nat)
    requires Ascending(RanksBefore, ranking) && i < |ranking| && j < |ranking| && RanksBefore(ranking[i], ranking[j])
    ensures i < j
  {
    hide RanksBefore;
    assert j < i ==> RanksBefore(ranking[j], ranking[i]);
    RanksOrdered();
  }

  /** A chunk ranked at least as well in both lists always comes first. */
  lemma DominancePrecedes(k: int, b: seq<Hit>, d: seq<Hit>, ranking: seq<Candidate>, i: nat, j: nat)
    requires k >= 1 && Ranked(b) && Ranked(d) && NoDuplicates(RanksOf(b)) && NoDuplicates(RanksOf(d))
    requires Fused(k, b, d, ranking) && i < |ranking| && j < |ranking| && i != j
    requires Dominates(b, ranking[i].id, ranking[j].id) && Dominates(d, ranking[i].id, ranking[j].id)
    ensures i < j
  {
    hide HitOf, Share, Ranked, Dominates, RanksOf;
    RankingIsUnion(k, b, d, ranking);
    var x, y := ranking[i].id, ranking[j].id;
    assert ChunkIds(ranking)[i] == x && ChunkIds(ranking)[j] == y;
    DominatingShare(k, b, x, y);
    DominatingShare(k, d, x, y);
    assert ranking[i] in ranking && ranking[j] in ranking;
    assert ranking[i].score > ranking[j].score;
    FollowsKey(ranking, i, j);
  }

  // ----- the order, on ranks and ids alone -----

  /** The chunk stands at this rank, or the list does not have it. */
  ghost predicate StandsAt(hits: seq<Hit>, id: string, rank: int) {
    if rank == MISSING_RANK then forall h :: h in hits ==> h.id != id
    else exists h :: h in hits && h.id == id && h.rank == rank
  }

  function Worth(k: int, rank: int): real
    requires k >= 1 && 1 <= rank
  {
    if rank == MISSING_RANK then 0.0 else 1.0 / (k + rank) as real
  }

  function Smaller(p: int, q: int): int { if p <= q then p else q }

  /** The same two ranks, in either order. */
  predicate SamePair(p: int, q: int, p': int, q': int) { (p == p' && q == q') || (p == q' && q == p') }

  lemma WorthTells(k: int, p: int, q: int)
    requires k >= 1 && 1 <= p <= MISSING_RANK && 1 <= q <= MISSING_RANK
    ensures Worth(k, p) == Worth(k, q) <==> p == q
  {
    if p <= q < MISSING_RANK { Reciprocals((k + p) as real, (k + q) as real); }
    if q <= p < MISSING_RANK { Reciprocals((k + q) as real, (k + p) as real); }
  }

  lemma StandsAtIs(k: int, hits: seq<Hit>, id: string, rank: int)
    requires k >= 1 && Ranked(hits) && NoDuplicates(IdsOf(hits)) && StandsAt(hits, id, rank)
    ensures RankOr(HitOf(hits, id), MISSING_RANK) == rank && 1 <= rank <= MISSING_RANK
    ensures HitOf(hits, id).None? <==> rank == MISSING_RANK
    ensures Share(k, HitOf(hits, id)) == Worth(k, rank)
  {
    hide HitOf;
    HitOfIs(hits, id);
    IdsTellApart(hits);
  }

  /** With equal scores and equal best ranks the other ranks agree too, so the total rank never decides. */
  lemma EqualScores(k: int, p: int, q: int, p': int, q': int)
    requires k >= 1 && 1 <= p <= MISSING_RANK && 1 <= q <= MISSING_RANK
    requires 1 <= p' <= MISSING_RANK && 1 <= q' <= MISSING_RANK
    ensures SamePair(p, q, p', q') <==>
      Worth(k, p) + Worth(k, q) == Worth(k, p') + Worth(k, q') && Smaller(p, q) == Smaller(p', q')
  {
    hide Worth;
    WorthTells(k, p, p');
    WorthTells(k, p, q');
    WorthTells(k, q, p');
    WorthTells(k, q, q');
  }

  /**
    Which of two chunks precedes: the one with the greater sum of shares, at equal sums the one with
    the better best rank, and at the same two ranks the one with the smaller id.
   */
  lemma OrderIff(k: int, b: seq<Hit>, d: seq<Hit>, ranking: seq<Candidate>, i: nat, j: nat,
                 p: int, q: int, p': int, q': int)
    requires k >= 1 && ValidComponent(b) && ValidComponent(d) && Ranked(b) && Ranked(d) && Fused(k, b, d, ranking)
    requires i < |ranking| && j < |ranking| && i != j
    requires StandsAt(b, ranking[i].id, p) && StandsAt(d, ranking[i].id, q)
    requires StandsAt(b, ranking[j].id, p') && StandsAt(d, ranking[j].id, q')
    ensures 1 <= p && 1 <= q && 1 <= p' && 1 <= q'
    ensures var s, t := Worth(k, p) + Worth(k, q), Worth(k, p') + Worth(k, q');
            i < j <==>
            s > t || (s == t && (Smaller(p, q) < Smaller(p', q') ||
                                 (SamePair(p, q, p', q') && StringLess(ranking[i].id, ranking[j].id))))
  {
    hide HitOf, Share, Ranked, RanksOf, StandsAt, StringLess, Worth, ValidComponent;
    ComponentFacts(b);
    ComponentFacts(d);
    StandsAtIs(k, b, ranking[i].id, p);
    StandsAtIs(k, d, ranking[i].id, q);
    StandsAtIs(k, b, ranking[j].id, p');
    StandsAtIs(k, d, ranking[j].id, q');
    EqualScores(k, p, q, p', q');
    var x, y := ranking[i], ranking[j];
    assert x in ranking && y in ranking;
    KeyOnRanks(k, b, d, x, y);
    PositionFollows(ranking, i, j);
  }

  /** The best of the ranks of a listed chunk, a missing one being the worst. */
  lemma KeyOnRanks(k: int, b: seq<Hit>, d: seq<Hit>, x: Candidate, y: Candidate)
    requires k >= 1 && Ranked(b) && Ranked(d)
    requires x == CandidateOf(k, b, d, x.id) && Listed(b, d, x.id)
    requires y == CandidateOf(k, b, d, y.id) && Listed(b, d, y.id)
    ensures BestRank(x) == Smaller(RankOr(x.bm25, MISSING_RANK), RankOr(x.dense, MISSING_RANK))
    ensures BestRank(y) == Smaller(RankOr(y.bm25, MISSING_RANK), RankOr(y.dense, MISSING_RANK))
  {
    hide HitOf, Share;
  }

  lemma PositionFollows(ranking: seq<Candidate>, i: nat, j: nat)
    requires Ascending(RanksBefore, ranking) && i < |ranking| && j < |ranking| && i != j
    ensures i < j <==> RanksBefore(ranking[i], ranking[j])
  {
    hide RanksBefore;
    RanksOrdered();
  }

  /** Of two chunks with the same two ranks, in either order, the one with the smaller id precedes. */
  lemma SamePairById(k: int, b: seq<Hit>, d: seq<Hit>, ranking: seq<Candidate>, i: nat, j: nat,
                     p: int, q: int, p': int, q': int)
    requires k >= 1 && ValidComponent(b) && ValidComponent(d) && Ranked(b) && Ranked(d) && Fused(k, b, d, ranking)
    requires i < |ranking| && j < |ranking| && i != j && SamePair(p, q, p', q')
    requires StandsAt(b, ranking[i].id, p) && StandsAt(d, ranking[i].id, q)
    requires StandsAt(b, ranking[j].id, p') && StandsAt(d, ranking[j].id, q')
    ensures i < j <==> StringLess(ranking[i].id, ranking[j].id)
  {
    hide Fused, StandsAt, StringLess, Worth, ValidComponent, Ranked;
    OrderIff(k, b, d, ranking, i, j, p, q, p', q');
  }

  /** With `k` 1 the ranks 2 and 5 weigh as much as rank 1 alone, and the better best rank precedes. */
  lemma BestRankDecides(b: seq<Hit>, d: seq<Hit>, ranking: seq<Candidate>, i: nat, j: nat)
    requires ValidComponent(b) && ValidComponent(d) && Ranked(b) && Ranked(d) && Fused(1, b, d, ranking)
    requires i < |ranking| && j < |ranking| && i != j
    requires StandsAt(b, ranking[i].id, 2) && StandsAt(d, ranking[i].id, 5)
    requires StandsAt(b, ranking[j].id, 1) && StandsAt(d, ranking[j].id, MISSING_RANK)
    ensures j < i
  {
    hide Fused, StandsAt, StringLess, ValidComponent, Ranked;
    OrderIff(1, b, d, ranking, i, j, 2, 5, 1, MISSING_RANK);
  }

  // ----- chunks found by both components -----

  predicate InBoth(c: Candidate) { c.bm25.Some? && c.dense.Some? }

  /** Whatever the lists, chunks in both precede chunks in one. */
  ghost predicate BothAlwaysFirst(k: int)
    requires k >= 1
  {
    forall b, d, ranking: seq<Candidate>, i, j |
      ValidComponent(b) && ValidComponent(d) && Agree(b, d) && Ranked(b) && Ranked(d) && Fused(k, b, d, ranking) &&
      0 <= i < |ranking| && 0 <= j < |ranking| ::
      InBoth(ranking[i]) && !InBoth(ranking[j]) ==> i < j
  }

  lemma ShareWithin(k: int, hit: Hit)
    requires k >= 1 && 1 <= hit.rank <= TOP_K
    ensures 1.0 / (k + TOP_K) as real <= Share(k, Some(hit)) <= 1.0 / (k + 1) as real
  {
    Reciprocals((k + 1) as real, (k + hit.rank) as real);
    Reciprocals((k + hit.rank) as real, (k + TOP_K) as real);
  }

  /** Two worst shares against one best share. */
  lemma TwoWorstShares(k: int)
    requires k >= 1
    ensures 2.0 / (k + TOP_K) as real > 1.0 / (k + 1) as real <==> k >= 7
    ensures 2.0 / (k + TOP_K) as real == 1.0 / (k + 1) as real <==> k == 6
  {
    var x, y := (k + TOP_K) as real, (k + 1) as real;
    assert 2.0 / x - 1.0 / y == (2.0 * y - x) / (x * y);
    assert 2.0 * y - x == (k - 6) as real;
    assert x * y > 0.0;
  }

  lemma BothScore(k: int, b: seq<Hit>, d: seq<Hit>, id: string)
    requires k >= 1 && Ranked(b) && Ranked(d) && Listed(b, d, id)
    ensures var c := CandidateOf(k, b, d, id);
            if InBoth(c) then c.score >= 2.0 / (k + TOP_K) as real else c.score <= 1.0 / (k + 1) as real
  {
    hide Share;
    NothingListed(k);
    var inB, inD := HitOf(b, id), HitOf(d, id);
    if inB.Some? { ShareWithin(k, inB.value); }
    if inD.Some? { ShareWithin(k, inD.value); }
    assert 1.0 / (k + TOP_K) as real + 1.0 / (k + TOP_K) as real == 2.0 / (k + TOP_K) as real;
  }

  lemma LargeKPutsBothFirst(k: int)
    requires k >= 7
    ensures BothAlwaysFirst(k)
  {
    hide HitOf, Share, Ranked, ValidComponent, CandidateOf;
    forall b, d, ranking: seq<Candidate>, i, j |
      ValidComponent(b) && ValidComponent(d) && Agree(b, d) && Ranked(b) && Ranked(d) &&
      Fused(k, b, d, ranking) && 0 <= i < |ranking| && 0 <= j < |ranking| && InBoth(ranking[i]) && !InBoth(ranking[j])
      ensures i < j
    {
      assert ranking[i] in ranking && ranking[j] in ranking;
      BothScore(k, b, d, ranking[i].id);
      BothScore(k, b, d, ranking[j].id);
      TwoWorstShares(k);
      FollowsKey(ranking, i, j);
    }
  }

  // ----- a ranking exists, and small parameters let one list win -----

  lemma {:induction false} Enumerate(s: set<string>) returns (order: seq<string>)
    ensures NoDuplicates(order) && forall id :: id in order <==> id in s
  {
    if s == {} {
      order := [];
    } else {
      var id :| id in s;
      var rest := Enumerate(s - {id});
      order := [id] + rest;
    }
  }

  lemma RankingExists(k: int, b: seq<Hit>, d: seq<Hit>) returns (ranking: seq<Candidate>)
    requires k >= 1 && Ranked(b) && Ranked(d) && NoDuplicates(IdsOf(b)) && NoDuplicates(IdsOf(d)) && Agree(b, d)
    ensures Fused(k, b, d, ranking)
  {
    hide HitOf, Share, Ranked, IdsOf, Agree, Agrees, CandidateOf, RanksBefore, NoDuplicates;
    NothingListed(k);
    Bm25Represents(k, b);
    var m := AfterAll(map[], k, false, b);
    AgreementIs(m, k, b, d, b, d);
    DenseRepresents(m, k, b, d);
    var all := AfterAll(m, k, true, d);
    var order := Enumerate(all.Keys);
    var items := seq(|order|, i requires 0 <= i < |order| =>
      if order[i] in all then all[order[i]] else Candidate("", "", None, None, 0.0));
    RankingFuses(all, k, b, d, order, items);
    ranking := Sort(RanksBefore, items);
  }

  /** Eight hits: seven of the list's own and the shared chunk "x" last. */
  function Eight(c: char): (r: seq<Hit>)
    ensures |r| == TOP_K && r[0] == Hit([c], 1, 0.0, "") && r[TOP_K - 1] == Hit("x", TOP_K, 0.0, "")
    ensures forall h :: h in r ==> h.id != "" && (h.id[0] == c || h.id[0] == 'x')
  {
    seq(TOP_K, i requires 0 <= i < TOP_K => Hit(if i == TOP_K - 1 then "x" else seq(i + 1, _ => c), i + 1, 0.0, ""))
  }

  lemma EightDiffer(c: char, i: nat, j: nat)
    requires c != 'x' && i < j < TOP_K
    ensures Eight(c)[i].id != Eight(c)[j].id
  {
    assert Eight(c)[i].id[0] == c;
    assert j < TOP_K - 1 ==> |Eight(c)[i].id| == i + 1 && |Eight(c)[j].id| == j + 1;
  }

  /** Sorting what is sorted. */
  lemma RanksInOrder(n: nat)
    ensures Sort((a: int, b: int) => a < b, seq(n, i => i + 1)) == seq(n, i => i + 1)
  {
    var lt := (a: int, b: int) => a < b;
    var ranks := seq(n, i => i + 1);
    SortAscends(lt, ranks);
    SortPermutes(lt, ranks);
    SameElements(Sort(lt, ranks), ranks);
    AscendingUnique(lt, Sort(lt, ranks), ranks);
  }

  lemma EightIsValid(c: char)
    requires c != 'x'
    ensures ValidComponent(Eight(c)) && Ranked(Eight(c)) && NoDuplicates(IdsOf(Eight(c)))
  {
    hide Sort;
    var hits := Eight(c);
    assert RanksOf(hits) == seq(|hits|, i => i + 1);
    RanksInOrder(|hits|);
    hide Eight;
    forall i, j | 0 <= i < j < TOP_K
      ensures IdsOf(hits)[i] != IdsOf(hits)[j]
    {
      EightDiffer(c, i, j);
    }
    assert forall i :: 0 <= i < |hits| ==> hits[i].rank == RanksOf(hits)[i];
  }

  lemma HitIs(hits: seq<Hit>, i: nat)
    requires i < |hits| && NoDuplicates(IdsOf(hits))
    ensures HitOf(hits, hits[i].id) == Some(hits[i])
  {
    hide HitOf;
    HitOfIs(hits, hits[i].id);
    IdsTellApart(hits);
    assert hits[i] in hits;
  }

  /** The best of one list ahead of the worst of both. */
  lemma SmallKLetsOneWin(k: int)
    requires 1 <= k <= 6
    ensures !BothAlwaysFirst(k)
  {
    hide HitOf, Ranked, ValidComponent, IdsOf, RanksBefore, NoDuplicates;
    var b, d := Eight('a'), Eight('b');
    EightIsValid('a');
    EightIsValid('b');
    assert Agree(b, d);
    var ranking := RankingExists(k, b, d);
    Contenders(k);
    var x, y := CandidateOf(k, b, d, "x"), CandidateOf(k, b, d, "a");
    assert x in ranking && y in ranking;
    var i :| 0 <= i < |ranking| && ranking[i] == x;
    var j :| 0 <= j < |ranking| && ranking[j] == y;
    FollowsKey(ranking, j, i);
    assert Fused(k, b, d, ranking) && InBoth(ranking[i]) && !InBoth(ranking[j]) && !(i < j);
  }

  /** What such a list says about the shared chunk, its own best and another list's best. */
  lemma HitsInEight(c: char, other: char)
    requires c != 'x' && other != 'x' && other != c
    ensures HitOf(Eight(c), "x") == Some(Hit("x", TOP_K, 0.0, ""))
    ensures HitOf(Eight(c), [c]) == Some(Hit([c], 1, 0.0, "")) && HitOf(Eight(c), [other]) == None
  {
    hide HitOf, Ranked, ValidComponent, IdsOf, NoDuplicates, Eight;
    var hits := Eight(c);
    EightIsValid(c);
    HitIs(hits, TOP_K - 1);
    HitIs(hits, 0);
    HitOfIs(hits, [other]);
  }

  lemma Contenders(k: int)
    requires 1 <= k <= 6 && Ranked(Eight('a')) && Ranked(Eight('b'))
    ensures var b, d := Eight('a'), Eight('b');
            var x, y := CandidateOf(k, b, d, "x"), CandidateOf(k, b, d, "a");
            Listed(b, d, "x") && Listed(b, d, "a") && InBoth(x) && !InBoth(y) && RanksBefore(y, x)
  {
    hide HitOf, Ranked, Eight;
    HitsInEight('a', 'b');
    HitsInEight('b', 'a');
    TwoWorstShares(k);
    assert 1.0 / (k + TOP_K) as real + 1.0 / (k + TOP_K) as real == 2.0 / (k + TOP_K) as real;
  }

  /** The parameter at which being found twice always wins. */
  lemma BothAlwaysFirstIff(k: int)
    requires k >= 1
    ensures BothAlwaysFirst(k) <==> k >= 7
  {
    if k >= 7 { LargeKPutsBothFirst(k); } else { SmallKLetsOneWin(k); }
  }
}
