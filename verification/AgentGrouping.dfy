/**
  Preparing the groups of a run: findings bucketed by path and rule, cut into groups of at most a
  hundred, the first few selected and the rest overflowing (app/agent/graph_models.py:194-231, 504-555).
 */
module AgentGrouping {
  import opened Wrappers
  import opened Order
  import opened AgentGraph
  import opened AgentInvariants
  import AgentRun

  const MAX_GROUP_SIZE := 100
  const MAX_GROUPS := 8

  datatype Key = Key(path: string, rule: string)

  /** A finding, seen through its grouping key and its content identity. */
  datatype Finding = Finding(key: Key, id: Id)

  /** A group before it gets its content hash. */
  datatype Cluster = Cluster(key: Key, ids: seq<Id>)

  datatype Preparation = Preparation(groups: seq<Cluster>, overflow: seq<Id>)

  datatype GroupingError = BadLimit | DuplicateFinding

  predicate KeyLess(a: Key, b: Key) {
    StringLess(a.path, b.path) || (a.path == b.path && StringLess(a.rule, b.rule))
  }

  predicate FindingLess(a: Finding, b: Finding) {
    KeyLess(a.key, b.key) || (a.key == b.key && StringLess(a.id, b.id))
  }

  lemma KeysOrdered()
    ensures TotalOrder(KeyLess)
  {
    StringsOrdered();
    hide StringLess;
    assert forall x: Key :: x == Key(x.path, x.rule);
  }

  lemma FindingsOrdered()
    ensures TotalOrder(FindingLess)
  {
    StringsOrdered();
    KeysOrdered();
    hide StringLess, KeyLess;
    assert forall x: Finding :: x == Finding(x.key, x.id);
  }

  function Tag(key: Key, ids: seq<Id>): (r: seq<Finding>)
    ensures |r| == |ids|
  {
    seq(|ids|, i requires 0 <= i < |ids| => Finding(key, ids[i]))
  }

  /** The findings of some clusters, in order. */
  function Entries(cs: seq<Cluster>): seq<Finding> {
    if cs == [] then [] else Tag(cs[0].key, cs[0].ids) + Entries(cs[1..])
  }

  function IdsIn(cs: seq<Cluster>): seq<Id> {
    if cs == [] then [] else cs[0].ids + IdsIn(cs[1..])
  }

  /** Groups are non-empty, hold at most a hundred findings, and only the last of a key is short. */
  ghost predicate Packed(cs: seq<Cluster>) {
    (forall i :: 0 <= i < |cs| ==> 1 <= |cs[i].ids| <= 100) &&
    (forall i :: 0 <= i < |cs| - 1 ==> FullUnlessLast(cs, i))
  }

  predicate FullUnlessLast(cs: seq<Cluster>, i: nat)
    requires i + 1 < |cs|
  {
    cs[i].key == cs[i + 1].key ==> |cs[i].ids| == 100
  }

  /** The grouping: the findings in order, packed. */
  ghost predicate IsGrouping(findings: seq<Finding>, cs: seq<Cluster>) {
    Packed(cs) && Entries(cs) == Sort(FindingLess, findings)
  }

  // ----- the algorithm -----

  function Bucket(findings: seq<Finding>, key: Key): seq<Id> {
    if findings == [] then []
    else
      var f := findings[|findings| - 1];
      Bucket(findings[..|findings| - 1], key) + (if f.key == key then [f.id] else [])
  }

  /** `ids` cut into slices of a hundred. */
  function Slices(key: Key, ids: seq<Id>): seq<Cluster> {
    if ids == [] then []
    else
      var n := if |ids| < MAX_GROUP_SIZE then |ids| else MAX_GROUP_SIZE;
      [Cluster(key, ids[..n])] + Slices(key, ids[n..])
  }

  function Clusters(findings: seq<Finding>, keys: seq<Key>): seq<Cluster> {
    if keys == [] then []
    else
      var key := keys[|keys| - 1];
      Clusters(findings, keys[..|keys| - 1]) + Slices(key, Sort(StringLess, Bucket(findings, key)))
  }

  ghost predicate KeysCover(findings: seq<Finding>, keys: seq<Key>) {
    NoDuplicates(keys) && forall k :: k in keys <==> exists f :: f in findings && f.key == k
  }

  /** `prepare_ambiguous_groups`, down to the hashing of the groups. */
  method PrepareAmbiguousGroups(findings: seq<Finding>, maxGroups: int) returns (r: Result<Preparation, GroupingError>)
    ensures r.Ok? <==> 1 <= maxGroups <= MAX_GROUPS && NoDuplicates(findings)
    ensures r.Err? && r.error == BadLimit <==> !(1 <= maxGroups <= MAX_GROUPS)
    ensures r.Ok? ==> exists cs :: IsGrouping(findings, cs) && r.value == Select(cs, maxGroups)
  {
    if !(1 <= maxGroups <= MAX_GROUPS) { return Err(BadLimit); }
    if !NoDuplicates(findings) { return Err(DuplicateFinding); }
    var keys, grouped := FillBuckets(findings);
    var sorted := Sort(KeyLess, keys);
    SortPermutes(KeyLess, keys);
    SameElements(sorted, keys);
    var all: seq<Cluster> := [];
    for i := 0 to |sorted|
      invariant all == Clusters(findings, sorted[..i])
    {
      var key := sorted[i];
      assert key in keys;
      var ids := Sort(StringLess, grouped[key]);
      var slices := SliceUp(key, ids);
      all := all + slices;
      assert sorted[..i + 1][..i] == sorted[..i];
    }
    assert sorted[..|sorted|] == sorted;
    ClustersGroup(findings, keys);
    r := Ok(Select(all, maxGroups));
  }

  /** `grouped.setdefault(key, []).append(finding)`, keys in the order of their first finding. */
  method FillBuckets(findings: seq<Finding>) returns (keys: seq<Key>, grouped: map<Key, seq<Id>>)
    ensures KeysCover(findings, keys)
    ensures forall k :: k in grouped <==> k in keys
    ensures forall k :: k in keys ==> grouped[k] == Bucket(findings, k)
  {
    keys, grouped := [], map[];
    for i := 0 to |findings|
      invariant KeysCover(findings[..i], keys)
      invariant forall k :: k in grouped <==> k in keys
      invariant forall k :: k in keys ==> grouped[k] == Bucket(findings[..i], k)
    {
      var f := findings[i];
      NextBucket(findings, i);
      if f.key in grouped {
        grouped := grouped[f.key := grouped[f.key] + [f.id]];
      } else {
        NoBucket(findings[..i], f.key);
        grouped := grouped[f.key := [f.id]];
        keys := keys + [f.key];
      }
    }
    assert findings[..|findings|] == findings;
  }

  lemma NextBucket(findings: seq<Finding>, i: nat)
    requires i < |findings|
    ensures var f := findings[i];
            (forall k ::
             Bucket(findings[..i + 1], k) ==
             Bucket(findings[..i], k) + (if f.key == k then [f.id] else [])) &&
            forall x :: x in findings[..i + 1] <==> x in findings[..i] || x == f
  {
    assert findings[..i + 1][..i] == findings[..i];
    assert findings[..i + 1] == findings[..i] + [findings[i]];
  }

  lemma {:induction false} NoBucket(findings: seq<Finding>, key: Key)
    requires forall f :: f in findings ==> f.key != key
    ensures Bucket(findings, key) == []
  {
    if findings != [] {
      assert findings[|findings| - 1] in findings;
      NoBucket(findings[..|findings| - 1], key);
    }
  }

  method SliceUp(key: Key, ids: seq<Id>) returns (slices: seq<Cluster>)
    ensures slices == Slices(key, ids)
  {
    slices := [];
    var offset := 0;
    while offset < |ids|
      invariant offset <= |ids| || slices == Slices(key, ids)
      invariant offset <= |ids| ==> slices + Slices(key, ids[offset..]) == Slices(key, ids)
    {
      var rest, before := ids[offset..], slices;
      var n := if |rest| < MAX_GROUP_SIZE then |rest| else MAX_GROUP_SIZE;
      assert ids[offset..offset + n] == rest[..n] && ids[offset + n..] == rest[n..];
      slices := slices + [Cluster(key, ids[offset..offset + n])];
      JoinAssociates(before, [Cluster(key, rest[..n])], Slices(key, rest[n..]));
      if offset + MAX_GROUP_SIZE > |ids| { assert rest[n..] == []; }
      offset := offset + MAX_GROUP_SIZE;
    }
  }

  function Select(cs: seq<Cluster>, maxGroups: nat): Preparation {
    var n := if |cs| < maxGroups then |cs| else maxGroups;
    Preparation(cs[..n], IdsIn(cs[n..]))
  }

  // ----- the algorithm computes the grouping -----

  lemma {:induction false} BucketHolds(findings: seq<Finding>, key: Key)
    ensures forall id :: id in Bucket(findings, key) <==> Finding(key, id) in findings
    ensures NoDuplicates(findings) ==> NoDuplicates(Bucket(findings, key))
  {
    if findings != [] {
      var n := |findings| - 1;
      BucketHolds(findings[..n], key);
      assert findings == findings[..n] + [findings[n]];
      if NoDuplicates(findings) {
        assert forall i :: 0 <= i < n ==> findings[i] != findings[n];
        assert findings[n] !in findings[..n];
      }
    }
  }

  lemma {:induction false} EntriesJoin(a: seq<Cluster>, b: seq<Cluster>)
    ensures Entries(a + b) == Entries(a) + Entries(b)
  {
    hide Tag;
    if a == [] {
      assert a + b == b;
    } else {
      EntriesJoin(a[1..], b);
      JoinPeels(a, b);
      JoinAssociates(Tag(a[0].key, a[0].ids), Entries(a[1..]), Entries(b));
    }
  }

  lemma NoEntries()
    ensures Entries([]) == []
  {}

  lemma {:induction false} IdsInJoin(a: seq<Cluster>, b: seq<Cluster>)
    ensures IdsIn(a + b) == IdsIn(a) + IdsIn(b)
  {
    if a == [] {
      assert a + b == b;
    } else {
      IdsInJoin(a[1..], b);
      JoinPeels(a, b);
      JoinAssociates(a[0].ids, IdsIn(a[1..]), IdsIn(b));
    }
  }

  lemma TagJoin(key: Key, ids: seq<Id>, n: nat)
    requires n <= |ids|
    ensures Tag(key, ids) == Tag(key, ids[..n]) + Tag(key, ids[n..])
  {}

  lemma {:induction false} SlicesPack(key: Key, ids: seq<Id>)
    ensures Packed(Slices(key, ids)) && Entries(Slices(key, ids)) == Tag(key, ids)
    ensures forall c :: c in Slices(key, ids) ==> c.key == key
    decreases |ids|
  {
    if ids != [] {
      var n := if |ids| < MAX_GROUP_SIZE then |ids| else MAX_GROUP_SIZE;
      SlicesPack(key, ids[n..]);
      TagJoin(key, ids, n);
      hide Tag;
      var tail := Slices(key, ids[n..]);
      assert Slices(key, ids) == [Cluster(key, ids[..n])] + tail;
      assert ([Cluster(key, ids[..n])] + tail)[1..] == tail;
      JoinSlice(Cluster(key, ids[..n]), tail);
    } else {
      assert Tag(key, ids) == [];
    }
  }

  lemma JoinSlice(c: Cluster, tail: seq<Cluster>)
    requires Packed(tail) && 1 <= |c.ids| <= MAX_GROUP_SIZE && (tail != [] ==> |c.ids| == MAX_GROUP_SIZE)
    ensures Packed([c] + tail)
  {
    forall i | 0 <= i < |tail|
      ensures FullUnlessLast([c] + tail, i)
    {
      if i > 0 { assert FullUnlessLast(tail, i - 1); }
    }
  }

  /** The clusters of ascending keys hold exactly the findings of those keys, in order. */
  lemma {:induction false} ClustersHold(findings: seq<Finding>, keys: seq<Key>)
    requires NoDuplicates(findings) && Ascending(KeyLess, keys)
    ensures Ascending(FindingLess, Entries(Clusters(findings, keys))) && Packed(Clusters(findings, keys))
    ensures forall f :: f in Entries(Clusters(findings, keys)) <==> f in findings && f.key in keys
    ensures forall c :: c in Clusters(findings, keys) ==> c.key in keys
  {
    hide StringLess, KeyLess, Slices, Bucket, Sort, Entries, Tag;
    if keys == [] {
      NoEntries();
    } else {
      var n := |keys| - 1;
      var key := keys[n];
      var before, ids := Clusters(findings, keys[..n]), Sort(StringLess, Bucket(findings, key));
      ClustersHold(findings, keys[..n]);
      LastBucket(findings, key, ids);
      SlicesPack(key, ids);
      EntriesJoin(before, Slices(key, ids));
      KeysOrdered();
      assert forall k :: k in keys[..n] ==> KeyLess(k, key);
      JoinAscends(Entries(before), Tag(key, ids), key);
      JoinPacked(before, Slices(key, ids), key);
      assert keys == keys[..n] + [key];
    }
  }

  lemma LastBucket(findings: seq<Finding>, key: Key, ids: seq<Id>)
    requires NoDuplicates(findings) && ids == Sort(StringLess, Bucket(findings, key))
    ensures Ascending(FindingLess, Tag(key, ids))
    ensures forall f :: f in Tag(key, ids) <==> f in findings && f.key == key
  {
    hide StringLess, KeyLess, Bucket, Sort;
    StringsOrdered();
    BucketHolds(findings, key);
    SortAscends(StringLess, Bucket(findings, key));
    SortPermutes(StringLess, Bucket(findings, key));
    SameElements(ids, Bucket(findings, key));
    forall f | f in findings && f.key == key
      ensures f in Tag(key, ids)
    {
      assert f == Finding(key, f.id);
      var i :| 0 <= i < |ids| && ids[i] == f.id;
      assert Tag(key, ids)[i] == f;
    }
  }

  lemma JoinAscends(a: seq<Finding>, b: seq<Finding>, key: Key)
    requires Ascending(FindingLess, a) && Ascending(FindingLess, b)
    requires forall f :: f in a ==> KeyLess(f.key, key)
    requires forall f :: f in b ==> f.key == key
    ensures Ascending(FindingLess, a + b)
  {
    hide StringLess, KeyLess;
    forall i, j | 0 <= i < j < |a + b|
      ensures FindingLess((a + b)[i], (a + b)[j])
    {
      if i < |a| <= j { assert a[i] in a && b[j - |a|] in b; }
    }
  }

  lemma JoinPacked(a: seq<Cluster>, b: seq<Cluster>, key: Key)
    requires Packed(a) && Packed(b)
    requires forall c :: c in a ==> c.key != key
    requires forall c :: c in b ==> c.key == key
    ensures Packed(a + b)
  {
    forall i | 0 <= i < |a + b| - 1
      ensures FullUnlessLast(a + b, i)
    {
      if i + 1 < |a| {
        assert FullUnlessLast(a, i);
      } else if i >= |a| {
        assert FullUnlessLast(b, i - |a|);
      } else {
        assert a[i] in a && b[0] in b;
      }
    }
  }

  lemma ClustersGroup(findings: seq<Finding>, keys: seq<Key>)
    requires NoDuplicates(findings) && KeysCover(findings, keys)
    ensures IsGrouping(findings, Clusters(findings, Sort(KeyLess, keys)))
  {
    hide KeyLess, FindingLess, Clusters, Entries, Sort;
    var sorted := Sort(KeyLess, keys);
    KeysOrdered();
    FindingsOrdered();
    SortAscends(KeyLess, keys);
    SortPermutes(KeyLess, keys);
    SameElements(sorted, keys);
    ClustersHold(findings, sorted);
    SortAscends(FindingLess, findings);
    SortPermutes(FindingLess, findings);
    SameElements(Sort(FindingLess, findings), findings);
    AscendingUnique(FindingLess, Entries(Clusters(findings, sorted)), Sort(FindingLess, findings));
  }

  // ----- the grouping is canonical -----

  /** The first group takes every entry of its key, up to a hundred. */
  ghost predicate Takes(es: seq<Finding>, n: nat) {
    1 <= n <= |es| && n <= MAX_GROUP_SIZE && (forall i :: 0 <= i < n ==> es[i].key == es[0].key) &&
    (n == MAX_GROUP_SIZE || n == |es| || es[n].key != es[0].key)
  }

  lemma {:induction false} PackedTail(cs: seq<Cluster>)
    requires Packed(cs) && cs != []
    ensures Packed(cs[1..])
  {
    forall i | 0 <= i < |cs[1..]| - 1
      ensures FullUnlessLast(cs[1..], i)
    {
      assert FullUnlessLast(cs, i + 1);
    }
  }

  lemma {:induction false} FirstTakes(cs: seq<Cluster>)
    requires Packed(cs) && cs != []
    ensures Takes(Entries(cs), |cs[0].ids|) && Packed(cs[1..])
    ensures Entries(cs)[..|cs[0].ids|] == Tag(cs[0].key, cs[0].ids) && Entries(cs)[|cs[0].ids|..] == Entries(cs[1..])
  {
    var n := |cs[0].ids|;
    PackedTail(cs);
    if |cs| > 1 {
      assert cs[1..][0] == cs[1];
      assert Entries(cs[1..]) == Tag(cs[1].key, cs[1].ids) + Entries(cs[1..][1..]);
      assert Entries(cs)[n] == Entries(cs[1..])[0] == Finding(cs[1].key, cs[1].ids[0]);
      assert FullUnlessLast(cs, 0);
    }
  }

  lemma TagInjective(k: Key, a: seq<Id>, l: Key, b: seq<Id>)
    requires Tag(k, a) == Tag(l, b) && a != []
    ensures k == l && a == b
  {
    assert Tag(k, a)[0] == Finding(k, a[0]) && Tag(l, b)[0] == Finding(l, b[0]);
    forall i | 0 <= i < |a|
      ensures a[i] == b[i]
    {
      assert Tag(k, a)[i] == Tag(l, b)[i];
    }
  }

  /** Packing leaves no choice. */
  lemma {:induction false} PackedUnique(a: seq<Cluster>, b: seq<Cluster>)
    requires Packed(a) && Packed(b) && Entries(a) == Entries(b)
    ensures a == b
  {
    if a != [] { FirstTakes(a); }
    if b != [] { FirstTakes(b); }
    if a != [] && b != [] {
      hide Entries, Tag, Packed;
      assert |a[0].ids| == |b[0].ids|;
      TagInjective(a[0].key, a[0].ids, b[0].key, b[0].ids);
      PackedUnique(a[1..], b[1..]);
      assert a == [a[0]] + a[1..] && b == [b[0]] + b[1..];
    }
  }

  /** The groups and the overflow do not depend on the order of the findings. */
  lemma GroupingIsCanonical(f: seq<Finding>, g: seq<Finding>, a: seq<Cluster>, b: seq<Cluster>)
    requires NoDuplicates(f) && NoDuplicates(g) && (forall x :: x in f <==> x in g)
    requires IsGrouping(f, a) && IsGrouping(g, b)
    ensures a == b
  {
    FindingsOrdered();
    SortCanonical(FindingLess, f, g);
    PackedUnique(a, b);
  }

  // ----- what a preparation promises -----

  /** The sum of both parts is the ids of the findings. */
  function IdsOf(findings: seq<Finding>): seq<Id> {
    if findings == [] then [] else [findings[0].id] + IdsOf(findings[1..])
  }

  lemma {:induction false} IdsOfJoin(a: seq<Finding>, b: seq<Finding>)
    ensures IdsOf(a + b) == IdsOf(a) + IdsOf(b)
  {
    if a == [] {
      assert a + b == b;
    } else {
      IdsOfJoin(a[1..], b);
      JoinPeels(a, b);
      JoinAssociates([a[0].id], IdsOf(a[1..]), IdsOf(b));
    }
  }

  lemma {:induction false} IdsOfTag(key: Key, ids: seq<Id>)
    ensures IdsOf(Tag(key, ids)) == ids
  {
    if ids != [] {
      IdsOfTag(key, ids[1..]);
      assert Tag(key, ids)[1..] == Tag(key, ids[1..]);
    }
  }

  lemma {:induction false} IdsOfEntries(cs: seq<Cluster>)
    ensures IdsOf(Entries(cs)) == IdsIn(cs)
  {
    if cs != [] {
      IdsOfEntries(cs[1..]);
      IdsOfTag(cs[0].key, cs[0].ids);
      IdsOfJoin(Tag(cs[0].key, cs[0].ids), Entries(cs[1..]));
    }
  }

  lemma {:induction false} IdsOfAt(findings: seq<Finding>)
    ensures |IdsOf(findings)| == |findings| && forall i :: 0 <= i < |findings| ==> IdsOf(findings)[i] == findings[i].id
  {
    if findings != [] {
      IdsOfAt(findings[1..]);
      forall i | 0 <= i < |findings|
        ensures IdsOf(findings)[i] == findings[i].id
      {
        if i > 0 { assert findings[i] == findings[1..][i - 1]; }
      }
    }
  }

  /** Different findings have different identities. */
  ghost predicate Identified(findings: seq<Finding>) {
    forall f, g :: f in findings && g in findings && f.id == g.id ==> f == g
  }

  lemma SelectSplits(cs: seq<Cluster>, maxGroups: nat)
    ensures var p := Select(cs, maxGroups); IdsIn(p.groups) + p.overflow == IdsIn(cs)
  {
    var n := if |cs| < maxGroups then |cs| else maxGroups;
    IdsInJoin(cs[..n], cs[n..]);
    assert cs[..n] + cs[n..] == cs;
  }

  /**
    Groups and overflow together are the identities of the findings, each once: none lost, none
    twice. Only a full selection overflows.
   */
  lemma GroupsPartitionFindings(findings: seq<Finding>, cs: seq<Cluster>, maxGroups: nat)
    requires NoDuplicates(findings) && Identified(findings) && IsGrouping(findings, cs)
    ensures var p := Select(cs, maxGroups);
            NoDuplicates(IdsIn(p.groups) + p.overflow) && |p.groups| <= maxGroups &&
            (p.overflow != [] ==> |p.groups| == maxGroups) &&
            forall id :: id in IdsIn(p.groups) + p.overflow <==> exists f :: f in findings && f.id == id
  {
    hide FindingLess, Entries, Sort, Packed;
    var sorted := Sort(FindingLess, findings);
    SelectSplits(cs, maxGroups);
    IdsOfEntries(cs);
    IdsOfAt(sorted);
    FindingsOrdered();
    SortAscends(FindingLess, findings);
    SortPermutes(FindingLess, findings);
    SameElements(sorted, findings);
    AscendingDistinct(FindingLess, sorted);
    assert forall i :: 0 <= i < |sorted| ==> sorted[i] in findings;
    forall f | f in findings
      ensures f.id in IdsOf(sorted)
    {
      var i :| 0 <= i < |sorted| && sorted[i] == f;
      assert IdsOf(sorted)[i] == f.id;
    }
  }

  /** Each group holds findings of its own path and rule, in strictly ascending order of identity. */
  lemma {:induction false} GroupsAreHomogeneous(findings: seq<Finding>, cs: seq<Cluster>, i: nat)
    requires NoDuplicates(findings) && IsGrouping(findings, cs) && i < |cs|
    ensures 1 <= |cs[i].ids| <= 100 && Ascending(StringLess, cs[i].ids)
    ensures forall id :: id in cs[i].ids ==> Finding(cs[i].key, id) in findings
  {
    hide StringLess, KeyLess, Sort;
    FindingsOrdered();
    KeysOrdered();
    SortAscends(FindingLess, findings);
    SortPermutes(FindingLess, findings);
    SameElements(Entries(cs), findings);
    var at := EntriesAt(cs, i);
    forall j, k | 0 <= j < k < |cs[i].ids|
      ensures StringLess(cs[i].ids[j], cs[i].ids[k])
    {
      assert FindingLess(Entries(cs)[at + j], Entries(cs)[at + k]);
    }
    forall id | id in cs[i].ids
      ensures Finding(cs[i].key, id) in findings
    {
      var j :| 0 <= j < |cs[i].ids| && cs[i].ids[j] == id;
      assert Entries(cs)[at + j] in Entries(cs);
    }
  }

  /** Where the entries of a cluster stand. */
  lemma {:induction false} EntriesAt(cs: seq<Cluster>, i: nat) returns (at: nat)
    requires i < |cs|
    ensures at + |cs[i].ids| <= |Entries(cs)|
    ensures forall j :: 0 <= j < |cs[i].ids| ==> Entries(cs)[at + j] == Finding(cs[i].key, cs[i].ids[j])
  {
    if i == 0 {
      at := 0;
    } else {
      var inner := EntriesAt(cs[1..], i - 1);
      at := |cs[0].ids| + inner;
      forall j | 0 <= j < |cs[i].ids|
        ensures Entries(cs)[at + j] == Finding(cs[i].key, cs[i].ids[j])
      {
        assert Entries(cs)[at + j] == Entries(cs[1..])[inner + j];
      }
    }
  }

  /** The first findings of the groups ascend, so `validate_preparation` accepts the order. */
  lemma GroupsAscend(findings: seq<Finding>, cs: seq<Cluster>, i: nat, j: nat)
    requires NoDuplicates(findings) && IsGrouping(findings, cs) && i < j < |cs|
    ensures FindingLess(Finding(cs[i].key, cs[i].ids[0]), Finding(cs[j].key, cs[j].ids[0]))
    ensures var k, l := cs[i].key, cs[j].key;
            StringLess(k.path, l.path) ||
            (k.path == l.path &&
             (StringLess(k.rule, l.rule) || (k.rule == l.rule && StringLess(cs[i].ids[0], cs[j].ids[0]))))
  {
    hide StringLess, Sort;
    FindingsOrdered();
    SortAscends(FindingLess, findings);
    var pos := EntriesLater(cs, i, j);
  }

  lemma {:induction false} EntriesLater(cs: seq<Cluster>, i: nat, j: nat) returns (pos: (nat, nat))
    requires i < j < |cs| && Packed(cs)
    ensures pos.0 < pos.1 < |Entries(cs)|
    ensures Entries(cs)[pos.0] == Finding(cs[i].key, cs[i].ids[0]) &&
      Entries(cs)[pos.1] == Finding(cs[j].key, cs[j].ids[0])
  {
    var n := |cs[0].ids|;
    if i == 0 {
      var at := EntriesAt(cs[1..], j - 1);
      pos := (0, n + at);
      assert Entries(cs)[n + at] == Entries(cs[1..])[at + 0];
    } else {
      PackedTail(cs);
      var inner := EntriesLater(cs[1..], i - 1, j - 1);
      pos := (n + inner.0, n + inner.1);
      assert Entries(cs)[n + inner.0] == Entries(cs[1..])[inner.0];
      assert Entries(cs)[n + inner.1] == Entries(cs[1..])[inner.1];
    }
  }

  // ----- handing the groups to the agent -----

  /** Groups get the hash of their content as identity. */
  function Hashed(cs: seq<Cluster>, hash: Cluster -> Id): (r: seq<Group>)
    ensures |r| == |cs|
  {
    seq(|cs|, i requires 0 <= i < |cs| => Group(hash(cs[i]), cs[i].ids))
  }

  lemma {:induction false} FlatIsIdsIn(cs: seq<Cluster>, hash: Cluster -> Id)
    ensures Flat(Hashed(cs, hash)) == IdsIn(cs)
  {
    if cs != [] {
      var n := |cs| - 1;
      FlatIsIdsIn(cs[..n], hash);
      assert Hashed(cs, hash)[..n] == Hashed(cs[..n], hash);
      IdsInJoin(cs[..n], [cs[n]]);
      assert cs[..n] + [cs[n]] == cs;
      assert IdsIn([cs[n]]) == cs[n].ids + IdsIn([cs[n]][1..]) == cs[n].ids;
    }
  }

  /** The request the agent makes of a preparation meets everything its run relies on. */
  lemma PreparationIsWellPrepared(findings: seq<Finding>, cs: seq<Cluster>, hash: Cluster -> Id, req: Request)
    requires NoDuplicates(findings) && Identified(findings) && IsGrouping(findings, cs)
    requires forall a, b :: hash(a) == hash(b) ==> a == b
    requires req.limits.Valid()
    requires var p := Select(cs, req.limits.maxGroups);
      req.groups == Hashed(p.groups, hash) &&
      req.overflow == p.overflow
    ensures WellPrepared(req)
  {
    hide Entries, Sort, FindingLess;
    var p := Select(cs, req.limits.maxGroups);
    GroupsPartitionFindings(findings, cs, req.limits.maxGroups);
    FlatIsIdsIn(p.groups, hash);
    var all := IdsIn(p.groups) + p.overflow;
    forall i, j | 0 <= i < j < |IdsIn(p.groups)|
      ensures IdsIn(p.groups)[i] != IdsIn(p.groups)[j]
    {
      assert all[i] != all[j];
    }
    forall i, j | 0 <= i < j < |req.groups|
      ensures req.groups[i].id != req.groups[j].id
    {
      FindingsOrdered();
      GroupsAscend(findings, cs, i, j);
    }
  }

  /**
    No finding is lost: after any finished run over the prepared findings, every finding is in an
    explanation, a documentation candidate or a human item, unless it belongs to a group whose
    documentation search came back empty.
   */
  lemma NoFindingLost(findings: seq<Finding>, cs: seq<Cluster>, hash: Cluster -> Id, req: Request, st: State,
                      f: Finding)
    requires NoDuplicates(findings) && Identified(findings) && IsGrouping(findings, cs) && f in findings
    requires var p := Select(cs, req.limits.maxGroups);
      req.groups == Hashed(p.groups, hash) &&
      req.overflow == p.overflow
    requires AgentRun.Delivered(req, st)
    ensures InDraft(st.draft, f.id) || exists i ::
      0 <= i < |st.groups| && f.id in st.groups[i].findings &&
      EmptySearch(st, i)
  {
    hide Entries, Sort, FindingLess, EmptySearch, Packed;
    var p := Select(cs, req.limits.maxGroups);
    GroupsPartitionFindings(findings, cs, req.limits.maxGroups);
    if f.id in p.overflow {
      var x :| x in st.draft.human && f.id in x.findings;
    } else {
      assert f.id in IdsIn(p.groups) + p.overflow;
      assert f.id in IdsIn(p.groups);
      var i := ClusterOf(p.groups, f.id);
      assert st.groups[i].findings == p.groups[i].ids;
      if !EmptySearch(st, i) { AccountedInDraft(st.draft, st.groups[i], f.id); }
    }
  }

  /** The draft mentions a finding. */
  ghost predicate InDraft(d: Draft, id: Id) {
    (exists x :: x in d.explanations && id in x.findings) ||
    (exists x :: x in d.candidates && id in x.findings) ||
    (exists x :: x in d.human && id in x.findings)
  }

  lemma AccountedInDraft(d: Draft, g: Group, id: Id)
    requires Accounted(d, g) && id in g.findings
    ensures InDraft(d, id)
  {
    if Explained(d, g) {
      var x :| x in d.explanations && x.group == g.id && x.findings == g.findings;
      assert x in d.explanations && id in x.findings;
    } else if Cited(d, g) {
      var x :| x in d.candidates && x.group == g.id && x.findings == g.findings;
      assert x in d.candidates && id in x.findings;
    } else {
      var x :| x in d.human && x.group == Some(g.id) && x.findings == g.findings;
      assert x in d.human && id in x.findings;
    }
  }

  lemma {:induction false} ClusterOf(cs: seq<Cluster>, id: Id) returns (i: nat)
    requires id in IdsIn(cs)
    ensures i < |cs| && id in cs[i].ids
  {
    if id in cs[0].ids {
      i := 0;
    } else {
      var k := ClusterOf(cs[1..], id);
      i := k + 1;
    }
  }
}
