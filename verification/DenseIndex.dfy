/**
  Building a dense index: an index marked ready always holds exactly what its last completed build
  meant to store, whatever failed before or since (app/ingestion/dense_index.py:123-209).
 */
module DenseIndex {
  import opened Wrappers
  import opened Order
  import PyText

  type Vector = seq<real>

  datatype Chunk = Chunk(id: string, source: string, text: string)

  datatype Artifact = Artifact(source: string, chunks: seq<Chunk>) {
    /** Every chunk belongs to the artifact's source. */
    predicate Valid() { forall c :: c in chunks ==> c.source == source }
  }

  datatype Point = Point(chunk: Chunk, vector: Vector)

  datatype Status = NotBuilt | Ready

  datatype BuildError =
    | PointIdCollision | StoreFailed | StalePoints | RequestRefused | EmbeddingFailed | ModelChanged | VectorCount
    | CountMismatch | IdMismatch

  /**
    What becomes of one remote call: it works, fails without effect, fails with full effect, or stores
    only part of a batch.
   */
  datatype Fault = Works | Fails | FailsAfterEffect | Stores(part: nat -> bool)

  datatype Reply = NoReply | Reply(model: string, vectors: seq<Vector>)

  /** The world of a build, call by call; `reply` embeds some texts, `fold` is `str.casefold`. */
  datatype World = World(fault: nat -> Fault, reply: (nat, seq<string>) -> Reply, fold: string -> string)

  // ----- the embedding request (app/core/embedding.py:44-64) -----

  predicate Blank(text: string) { forall k :: 0 <= k < |text| ==> PyText.IsSpace(text[k]) }

  /** The text is refused where it begins, after whitespace and in any case, with a prefix of the model's own. */
  predicate Prefixed(fold: string -> string, text: string) {
    var folded := fold(text[PyText.RunEnd(text, 0, PyText.IsSpace)..]);
    "query:" <= folded || "passage:" <= folded
  }

  /** What `EmbeddingRequest` accepts as one of its texts. */
  predicate Embeddable(fold: string -> string, text: string) { !Blank(text) && !Prefixed(fold, text) }

  predicate AllEmbeddable(fold: string -> string, texts: seq<string>) {
    forall i :: 0 <= i < |texts| ==> Embeddable(fold, texts[i])
  }

  /** Every accepted reply embeds each text as `f` does. */
  ghost predicate Faithful(w: World, f: string -> Vector) {
    forall n, texts: seq<string>, i :: AcceptedReply(w.reply(n, texts), |texts|) && 0 <= i < |texts| ==>
           w.reply(n, texts).vectors[i] == f(texts[i])
  }

  predicate AcceptedReply(r: Reply, count: nat) { r.Reply? && r.model == EXPECTED_MODEL && |r.vectors| == count }

  const EXPECTED_MODEL := "intfloat/multilingual-e5-small@614241f622f53c4eeff9890bdc4f31cfecc418b3"

  // ----- points -----

  function PointIds(pointId: string -> string, chunks: seq<Chunk>): (r: seq<string>)
    ensures |r| == |chunks|
  {
    seq(|chunks|, i requires 0 <= i < |chunks| => pointId(chunks[i].id))
  }

  function IdSet(pointId: string -> string, chunks: seq<Chunk>): set<string> {
    set c | c in chunks :: pointId(c.id)
  }

  function SourceIdsOf(points: map<string, Point>, source: string): set<string> {
    set id | id in points && points[id].chunk.source == source
  }

  /** The points after an upsert of the chunks selected by `part`. */
  function Upserted(points: map<string, Point>, pointId: string -> string, chunks: seq<Chunk>, vectors: seq<Vector>,
                    part: nat -> bool): map<string, Point>
    requires |chunks| == |vectors|
  {
    if chunks == [] then points
    else
      var n := |chunks| - 1;
      var before := Upserted(points, pointId, chunks[..n], vectors[..n], part);
      if part(n) then before[pointId(chunks[n].id) := Point(chunks[n], vectors[n])] else before
  }

  lemma {:induction false} UpsertAddsOnly(points: map<string, Point>, pointId: string -> string, chunks: seq<Chunk>,
                                          vectors: seq<Vector>, part: nat -> bool)
    requires |chunks| == |vectors|
    ensures var after := Upserted(points, pointId, chunks, vectors, part);
            (forall id :: id in points ==> id in after) &&
            (forall id :: id in after && id !in IdSet(pointId, chunks) ==> id in points && after[id] == points[id]) &&
            (forall id :: id in after && (id !in points || after[id] != points[id]) ==>
             after[id].chunk in chunks && pointId(after[id].chunk.id) == id)
  {
    if chunks != [] {
      var n := |chunks| - 1;
      UpsertAddsOnly(points, pointId, chunks[..n], vectors[..n], part);
      assert chunks == chunks[..n] + [chunks[n]];
      assert IdSet(pointId, chunks) == IdSet(pointId, chunks[..n]) + {pointId(chunks[n].id)};
    }
  }

  /** The vectors are those of the chunks' texts, as far as the replies can be relied on. */
  ghost predicate Embedded(w: World, f: string -> Vector, chunks: seq<Chunk>, vectors: seq<Vector>)
    requires |chunks| == |vectors|
  {
    Faithful(w, f) ==> forall i :: 0 <= i < |chunks| ==> vectors[i] == f(chunks[i].text)
  }

  /** The first `n` chunks are stored as they are, each with the vector of its text. */
  ghost predicate Stored(points: map<string, Point>, pointId: string -> string, w: World, f: string -> Vector,
                         chunks: seq<Chunk>, n: nat)
    requires n <= |chunks|
  {
    forall i :: 0 <= i < n ==> StoredAt(points, pointId(chunks[i].id), w, f, chunks[i])
  }

  ghost predicate StoredAt(points: map<string, Point>, id: string, w: World, f: string -> Vector, c: Chunk) {
    id in points && points[id].chunk == c && (Faithful(w, f) ==> points[id].vector == f(c.text))
  }

  lemma {:induction false} UpsertStores(points: map<string, Point>, pointId: string -> string, w: World,
                                        f: string -> Vector,
                                        chunks: seq<Chunk>, vectors: seq<Vector>, part: nat -> bool)
    requires |chunks| == |vectors| && NoDuplicates(PointIds(pointId, chunks)) && forall i :: 0 <= i < |chunks| ==>
      part(i)
    requires Embedded(w, f, chunks, vectors)
    ensures Stored(Upserted(points, pointId, chunks, vectors, part), pointId, w, f, chunks, |chunks|)
  {
    hide Faithful;
    if chunks != [] {
      var n := |chunks| - 1;
      assert PointIds(pointId, chunks[..n]) == PointIds(pointId, chunks)[..n];
      UpsertStores(points, pointId, w, f, chunks[..n], vectors[..n], part);
      forall i | 0 <= i < n
        ensures pointId(chunks[i].id) != pointId(chunks[n].id)
      {
        assert PointIds(pointId, chunks)[i] != PointIds(pointId, chunks)[n];
      }
    }
  }

  // ----- the index -----

  /**
    An index holds an artifact: its source has exactly the artifact's points, with the artifact's
    chunks and their vectors in them.
   */
  ghost predicate Holds(points: map<string, Point>, pointId: string -> string, w: World, f: string -> Vector,
                        a: Artifact) {
    SourceIdsOf(points, a.source) == IdSet(pointId, a.chunks) && Stored(points, pointId, w, f, a.chunks, |a.chunks|)
  }

  class Index {
    const pointId: string -> string
    const world: World
    /** What the embedding model is meant to compute. */
    ghost const embedding: string -> Vector
    var status: Status
    var points: map<string, Point>
    /** Calls made so far. */
    var clock: nat
    /** The artifact of the last build that marked the index ready. */
    ghost var completed: Option<Artifact>

    /** Ready means ready. */
    ghost predicate Valid()
      reads this
    {
      status == Ready ==> completed.Some? && Holds(points, pointId, world, embedding, completed.value)
    }

    constructor (pointId: string -> string, world: World, ghost embedding: string -> Vector)
      ensures Valid() && this.pointId == pointId && this.world == world && this.embedding == embedding
      ensures status == NotBuilt && points == map[]
    {
      this.pointId := pointId;
      this.world := world;
      this.embedding := embedding;
      status := NotBuilt;
      points := map[];
      clock := 0;
      completed := None;
    }

    method WriteStatus(s: Status) returns (ok: bool)
      modifies this`status, this`clock
      ensures clock == old(clock) + 1
      ensures ok <==> world.fault(old(clock)).Works?
      ensures status == if ok || world.fault(old(clock)).FailsAfterEffect? then s else old(status)
    {
      var fault := world.fault(clock);
      clock := clock + 1;
      if fault.Works? || fault.FailsAfterEffect? { status := s; }
      ok := fault.Works?;
    }

    method SourceIds(source: string) returns (ok: bool, ids: set<string>)
      modifies this`clock
      ensures clock == old(clock) + 1
      ensures ok <==> world.fault(old(clock)).Works?
      ensures ok ==> ids == SourceIdsOf(points, source)
    {
      ok := world.fault(clock).Works?;
      clock := clock + 1;
      ids := if ok then SourceIdsOf(points, source) else {};
    }

    method Count(source: string) returns (ok: bool, count: nat)
      modifies this`clock
      ensures clock == old(clock) + 1
      ensures ok <==> world.fault(old(clock)).Works?
      ensures ok ==> count == |SourceIdsOf(points, source)|
    {
      ok := world.fault(clock).Works?;
      clock := clock + 1;
      count := if ok then |SourceIdsOf(points, source)| else 0;
    }

    method Embed(texts: seq<string>) returns (reply: Reply)
      modifies this`clock
      ensures clock == old(clock) + 1 && reply == world.reply(old(clock), texts)
    {
      reply := world.reply(clock, texts);
      clock := clock + 1;
    }

    method Upsert(chunks: seq<Chunk>, vectors: seq<Vector>) returns (ok: bool, ghost part: nat -> bool)
      requires |chunks| == |vectors|
      modifies this`points, this`clock
      ensures clock == old(clock) + 1
      ensures ok <==> world.fault(old(clock)).Works?
      ensures points == Upserted(old(points), pointId, chunks, vectors, part)
      ensures ok ==> forall i :: 0 <= i < |chunks| ==> part(i)
    {
      var fault := world.fault(clock);
      clock := clock + 1;
      ok := fault.Works?;
      var stored := match fault
        case Works => (_: nat) => true
        case FailsAfterEffect => (_: nat) => true
        case Fails => (_: nat) => false
        case Stores(some) => some;
      part := stored;
      points := Upserted(points, pointId, chunks, vectors, stored);
    }
  }

  datatype BuildResult = BuildResult(source: string, pointCount: nat, batchCount: nat)

  /** Every call works and every request that can be made is answered completely, by the expected model. */
  ghost predicate Calm(w: World) {
    (forall n :: w.fault(n).Works?) &&
    (forall n, texts: seq<string> :: texts != [] && AllEmbeddable(w.fold, texts) ==>
       AcceptedReply(w.reply(n, texts), |texts|))
  }

  /** A complete answer: a vector for each text. */
  function Complete(f: string -> Vector, texts: seq<string>): (r: Reply)
    ensures AcceptedReply(r, |texts|) && forall i :: 0 <= i < |texts| ==> r.vectors[i] == f(texts[i])
  {
    Reply(EXPECTED_MODEL, seq(|texts|, i requires 0 <= i < |texts| => f(texts[i])))
  }

  /** A calm world: nothing fails, and each request is answered completely. */
  lemma CalmWorld(fold: string -> string, f: string -> Vector) returns (w: World)
    ensures Calm(w) && Faithful(w, f) && w.fold == fold
  {
    w := World(n => Works, (n: nat, texts: seq<string>) => Complete(f, texts), fold);
    hide Complete, AcceptedReply, AllEmbeddable;
    forall n: nat, texts: seq<string>
      ensures w.reply(n, texts) == Complete(f, texts)
    {}
  }

  ghost predicate EmbeddableArtifact(fold: string -> string, a: Artifact) {
    forall c :: c in a.chunks ==> Embeddable(fold, c.text)
  }

  /** Nothing is ever deleted, and only points of the artifact are added or replaced. */
  ghost predicate OnlyAdded(before: map<string, Point>, after: map<string, Point>, ids: set<string>) {
    (forall id :: id in before ==> id in after) &&
    (forall id :: id in after && id !in ids ==> id in before && after[id] == before[id])
  }

  /** The texts from one chunk of the artifact to another. */
  ghost predicate TextsFrom(a: Artifact, start: nat, texts: seq<string>) {
    start + |texts| <= |a.chunks| && forall i :: 0 <= i < |texts| ==> texts[i] == a.chunks[start + i].text
  }

  ghost predicate SentTexts(a: Artifact, texts: seq<string>) { exists start: nat :: TextsFrom(a, start, texts) }

  ghost predicate Sent(w: World, n: nat, a: Artifact, texts: seq<string>, r: Reply) {
    SentTexts(a, texts) && r == w.reply(n, texts)
  }

  /** What the last call of a failed build came to. */
  ghost predicate Blames(w: World, n: nat, a: Artifact, e: BuildError) {
    match e
    case StoreFailed => !w.fault(n).Works?
    case EmbeddingFailed => exists texts :: Sent(w, n, a, texts, NoReply)
    case ModelChanged => exists texts, r: Reply :: Sent(w, n, a, texts, r) && r.Reply? && r.model != EXPECTED_MODEL
    case VectorCount =>
      exists texts, r: Reply ::
        Sent(w, n, a, texts, r) && r.Reply? && r.model == EXPECTED_MODEL && |r.vectors| != |texts|
    case _ => false
  }

  class DenseIndexBuilder {
    const index: Index
    const batchSize: int

    constructor (index: Index, batchSize: int)
      requires batchSize > 0
      ensures this.index == index && this.batchSize == batchSize
    {
      this.index := index;
      this.batchSize := batchSize;
    }

    /** `build`. */
    method Build(artifact: Artifact) returns (r: Result<BuildResult, BuildError>)
      requires batchSize > 0 && index.Valid() && artifact.Valid()
      modifies index
      ensures index.Valid()
      ensures r.Ok? ==> index.status == Ready && index.completed == Some(artifact)
      ensures r.Ok? ==> r.value == BuildResult(artifact.source, |artifact.chunks|,
                                               (|artifact.chunks| + batchSize - 1) / batchSize)
      ensures OnlyAdded(old(index.points), index.points, IdSet(index.pointId, artifact.chunks))
      ensures r.Err? && r.error in {PointIdCollision, StalePoints} ==> index.points == old(index.points)
      ensures r == Err(PointIdCollision) <==> !NoDuplicates(PointIds(index.pointId, artifact.chunks))
      ensures r == Err(PointIdCollision) ==> index.status == old(index.status) && index.clock == old(index.clock)
      ensures r == Err(StalePoints) <==>
        NoDuplicates(PointIds(index.pointId, artifact.chunks)) &&
        index.world.fault(old(index.clock)).Works? && index.world.fault(old(index.clock) + 1).Works? &&
        !(SourceIdsOf(old(index.points), artifact.source) <= IdSet(index.pointId, artifact.chunks))
      ensures r.Err? && r.error !in {PointIdCollision, StoreFailed} ==> index.status == NotBuilt
      ensures r == Err(StoreFailed) ==>
        index.status == NotBuilt || index.completed == Some(artifact) ||
        (index.status == old(index.status) && index.points == old(index.points) && index.clock == old(index.clock) + 1)
      ensures r.Err? && r.error !in {PointIdCollision, StalePoints, RequestRefused} ==>
        index.clock > 0 && Blames(index.world, index.clock - 1, artifact, r.error)
      ensures r.Err? ==> r.error != CountMismatch && r.error != IdMismatch
      ensures r == Err(RequestRefused) ==>
        index.status == NotBuilt && !EmbeddableArtifact(index.world.fold, artifact)
      ensures r.Ok? ==> EmbeddableArtifact(index.world.fold, artifact)
      ensures r.Err? && index.status == Ready ==>
        (old(index.status) == Ready && index.completed == old(index.completed) && index.points == old(index.points)) ||
        (index.completed == Some(artifact) && exists n :: index.world.fault(n).FailsAfterEffect?)
      ensures Calm(index.world) ==>
        (r.Ok? <==> NoDuplicates(PointIds(index.pointId, artifact.chunks)) &&
                    SourceIdsOf(old(index.points), artifact.source) <= IdSet(index.pointId, artifact.chunks) &&
                    EmbeddableArtifact(index.world.fold, artifact))
    {
      hide EmbeddableArtifact, Embeddable, AllEmbeddable, AcceptedReply, Holds, Upserted, Stored, SourceIdsOf, IdSet;
      hide OnlyAdded, PointIds, NoDuplicates;
      var chunks := artifact.chunks;
      var expected := IdSet(index.pointId, chunks);
      DistinctIffCardinality(index.pointId, chunks);
      NothingAdded(index.points, expected);
      if |expected| != |chunks| { return Err(PointIdCollision); }
      var ok := index.WriteStatus(NotBuilt);
      if !ok { return Err(StoreFailed); }
      var existing;
      ok, existing := index.SourceIds(artifact.source);
      if !ok { return Err(StoreFailed); }
      var stale := existing - expected;
      if stale != {} { return Err(StalePoints); }
      assert forall id :: id in existing ==> id in stale || id in expected;

      var failed, batchCount := StoreBatches(artifact, index.points);
      if failed.Some? { return Err(failed.value); }
      AllStored(index.points, index.pointId, index.world, index.embedding, artifact);
      var count, actual;
      ok, count := index.Count(artifact.source);
      if !ok { return Err(StoreFailed); }
      ok, actual := index.SourceIds(artifact.source);
      if !ok { return Err(StoreFailed); }
      if count != |chunks| { return Err(CountMismatch); }
      if actual != expected { return Err(IdMismatch); }
      index.completed := Some(artifact);
      ok := index.WriteStatus(Ready);
      if !ok { return Err(StoreFailed); }
      r := Ok(BuildResult(artifact.source, count, batchCount));
    }

    /** The loop over batches: embed, then upsert. */
    method StoreBatches(artifact: Artifact, ghost first: map<string, Point>)
        returns (failed: Option<BuildError>, batchCount: nat)
      requires batchSize > 0 && artifact.Valid() && index.status == NotBuilt
      requires NoDuplicates(PointIds(index.pointId, artifact.chunks))
      requires OnlyAdded(first, index.points, IdSet(index.pointId, artifact.chunks))
      requires SourceIdsOf(index.points, artifact.source) <= IdSet(index.pointId, artifact.chunks)
      modifies index`points, index`clock
      ensures OnlyAdded(first, index.points, IdSet(index.pointId, artifact.chunks))
      ensures failed.None? ==> SourceIdsOf(index.points, artifact.source) <= IdSet(index.pointId, artifact.chunks)
      ensures failed.None? ==> Stored(index.points, index.pointId, index.world, index.embedding, artifact.chunks,
                                      |artifact.chunks|)
      ensures failed.None? ==> batchCount == (|artifact.chunks| + batchSize - 1) / batchSize
      ensures failed.None? ==> EmbeddableArtifact(index.world.fold, artifact)
      ensures failed.Some? ==>
        if failed.value == RequestRefused then !EmbeddableArtifact(index.world.fold, artifact)
        else failed.value in {StoreFailed, EmbeddingFailed, ModelChanged, VectorCount} && !Calm(index.world)
      ensures failed.Some? && failed.value != RequestRefused ==>
        index.clock > 0 && Blames(index.world, index.clock - 1, artifact, failed.value)
    {
      hide SentTexts;
      hide Embeddable, AllEmbeddable, EmbeddableArtifact, Calm, AcceptedReply, Upserted, Stored, SourceIdsOf, IdSet;
      hide OnlyAdded, PointIds, NoDuplicates;
      var chunks := artifact.chunks;
      var start := 0;
      batchCount := 0;
      failed := None;
      NothingStored(index.points, index.pointId, index.world, index.embedding, chunks);
      while start < |chunks|
        invariant start == batchCount * batchSize && (start < |chunks| + batchSize)
        invariant index.status == NotBuilt
        invariant OnlyAdded(first, index.points, IdSet(index.pointId, chunks))
        invariant SourceIdsOf(index.points, artifact.source) <= IdSet(index.pointId, chunks)
        invariant Stored(index.points, index.pointId, index.world, index.embedding, chunks,
                         if start < |chunks| then start else |chunks|)
        invariant forall i :: 0 <= i < start && i < |chunks| ==> Embeddable(index.world.fold, chunks[i].text)
        decreases |chunks| - start
      {
        var end := if start + batchSize < |chunks| then start + batchSize else |chunks|;
        var batch := chunks[start..end];
        var texts := seq(|batch|, i requires 0 <= i < |batch| => batch[i].text);
        if !AllEmbeddable(index.world.fold, texts) {
          Unembeddable(index.world.fold, artifact, start, end, texts);
          return Some(RequestRefused), batchCount;
        }
        BatchEmbeddable(index.world.fold, artifact, start, end, texts);
        ghost var replyTo := index.clock;
        var response := index.Embed(texts);
        Accepts(index.world, replyTo, texts, response);
        TextsSent(artifact, start, end, texts);
        assert Sent(index.world, replyTo, artifact, texts, response);
        if response.NoReply? { return Some(EmbeddingFailed), batchCount; }
        if response.model != EXPECTED_MODEL { return Some(ModelChanged), batchCount; }
        if |response.vectors| != |batch| { return Some(VectorCount), batchCount; }
        ghost var before := index.points;
        ghost var part;
        var ok;
        ok, part := index.Upsert(batch, response.vectors);
        BatchAdds(first, before, index.points, index.pointId, artifact, start, end, response.vectors, part);
        NoFaultWhenCalm(index.world, index.clock - 1);
        if !ok { return Some(StoreFailed), batchCount; }
        RepliesEmbed(index.world, index.embedding, replyTo, batch, texts, response);
        BatchStores(before, index.points, index.pointId, index.world, index.embedding, artifact, start, end,
                    response.vectors, part);
        batchCount := batchCount + 1;
        start := start + batchSize;
      }
      BatchesCount(|chunks|, batchSize, batchCount);
      AllOfThem(index.world.fold, artifact);
    }

    /** Any sequence of builds, whatever happens to each: the index is never marked ready wrongly. */
    method BuildAll(artifacts: seq<Artifact>) returns (last: Option<Artifact>)
      requires batchSize > 0 && index.Valid() && forall a :: a in artifacts ==> a.Valid()
      modifies index
      ensures index.status == Ready ==>
        index.completed.Some? &&
        Holds(index.points, index.pointId, index.world, index.embedding, index.completed.value)
      ensures last.Some? && index.status == Ready && (forall n :: !index.world.fault(n).FailsAfterEffect?) ==>
        index.completed == last
    {
      last := None;
      for i := 0 to |artifacts|
        invariant index.Valid()
        invariant last.Some? && index.status == Ready && (forall n :: !index.world.fault(n).FailsAfterEffect?) ==>
          index.completed == last
      {
        assert artifacts[i] in artifacts;
        var r := Build(artifacts[i]);
        if r.Ok? { last := Some(artifacts[i]); }
      }
    }
  }

  // ----- one batch -----

  /** A reply is accepted exactly when it passes the checks; in a calm world a request that can be made gets one. */
  lemma Accepts(w: World, n: nat, texts: seq<string>, r: Reply)
    requires r == w.reply(n, texts) && texts != [] && AllEmbeddable(w.fold, texts)
    ensures AcceptedReply(r, |texts|) <==> r.Reply? && r.model == EXPECTED_MODEL && |r.vectors| == |texts|
    ensures Calm(w) ==> AcceptedReply(r, |texts|)
  {
    hide AllEmbeddable;
  }

  lemma TextsSent(a: Artifact, start: nat, end: nat, texts: seq<string>)
    requires start <= end <= |a.chunks| && |texts| == end - start
    requires forall i :: 0 <= i < |texts| ==> texts[i] == a.chunks[start..end][i].text
    ensures SentTexts(a, texts)
  {
    assert TextsFrom(a, start, texts);
  }

  lemma NoFaultWhenCalm(w: World, n: nat)
    ensures Calm(w) ==> w.fault(n).Works?
  {}

  lemma BatchEmbeddable(fold: string -> string, a: Artifact, start: nat, end: nat, texts: seq<string>)
    requires start <= end <= |a.chunks| && |texts| == end - start && AllEmbeddable(fold, texts)
    requires forall i :: 0 <= i < |texts| ==> texts[i] == a.chunks[start..end][i].text
    ensures forall i :: start <= i < end ==> Embeddable(fold, a.chunks[i].text)
  {
    hide Embeddable;
    forall i | start <= i < end
      ensures Embeddable(fold, a.chunks[i].text)
    {
      assert Embeddable(fold, texts[i - start]) && a.chunks[start..end][i - start] == a.chunks[i];
    }
  }

  lemma AllOfThem(fold: string -> string, a: Artifact)
    requires forall i :: 0 <= i < |a.chunks| ==> Embeddable(fold, a.chunks[i].text)
    ensures EmbeddableArtifact(fold, a)
  {}

  lemma Unembeddable(fold: string -> string, a: Artifact, start: nat, end: nat, texts: seq<string>)
    requires start <= end <= |a.chunks| && |texts| == end - start && !AllEmbeddable(fold, texts)
    requires forall i :: 0 <= i < |texts| ==> texts[i] == a.chunks[start..end][i].text
    ensures !EmbeddableArtifact(fold, a)
  {
    hide Embeddable;
    var i :| 0 <= i < |texts| && !Embeddable(fold, texts[i]);
    assert a.chunks[start + i] in a.chunks;
  }

  lemma DistinctIffCardinality(pointId: string -> string, chunks: seq<Chunk>)
    ensures |IdSet(pointId, chunks)| == |chunks| <==> NoDuplicates(PointIds(pointId, chunks))
  {
    var ids := PointIds(pointId, chunks);
    assert IdSet(pointId, chunks) == set x | x in ids by {
      forall x | x in IdSet(pointId, chunks)
        ensures x in ids
      {
        var i :| 0 <= i < |chunks| && pointId(chunks[i].id) == x;
        assert ids[i] == x;
      }
    }
    SetOfSeq(ids);
    if !NoDuplicates(ids) { RepeatedIsFewer(ids); }
  }

  lemma {:induction false} RepeatedIsFewer<T>(s: seq<T>)
    requires !NoDuplicates(s)
    ensures |set x | x in s| < |s|
  {
    var n := |s| - 1;
    assert s == s[..n] + [s[n]];
    if NoDuplicates(s[..n]) {
      assert (set x | x in s) == set x | x in s[..n];
      SetOfSeq(s[..n]);
    } else {
      RepeatedIsFewer(s[..n]);
      assert (set x | x in s) == (set x | x in s[..n]) + {s[n]};
    }
  }

  lemma NothingAdded(points: map<string, Point>, ids: set<string>)
    ensures OnlyAdded(points, points, ids)
  {}

  lemma NothingStored(points: map<string, Point>, pointId: string -> string, w: World, f: string -> Vector,
                      chunks: seq<Chunk>)
    ensures Stored(points, pointId, w, f, chunks, 0)
  {}

  lemma RepliesEmbed(w: World, f: string -> Vector, n: nat, chunks: seq<Chunk>, texts: seq<string>, r: Reply)
    requires |texts| == |chunks| && forall i :: 0 <= i < |chunks| ==> texts[i] == chunks[i].text
    requires r == w.reply(n, texts) && AcceptedReply(r, |texts|)
    ensures Embedded(w, f, chunks, r.vectors)
  {}

  lemma BatchAdds(first: map<string, Point>, before: map<string, Point>, after: map<string, Point>,
                  pointId: string -> string,
                  a: Artifact, start: nat, end: nat, vectors: seq<Vector>, part: nat -> bool)
    requires start <= end <= |a.chunks| && |vectors| == end - start && a.Valid()
    requires after == Upserted(before, pointId, a.chunks[start..end], vectors, part)
    requires OnlyAdded(first, before, IdSet(pointId, a.chunks)) &&
      SourceIdsOf(before, a.source) <= IdSet(pointId, a.chunks)
    ensures OnlyAdded(first, after, IdSet(pointId, a.chunks)) &&
      SourceIdsOf(after, a.source) <= IdSet(pointId, a.chunks)
  {
    hide Upserted;
    var batch := a.chunks[start..end];
    UpsertAddsOnly(before, pointId, batch, vectors, part);
    assert forall c :: c in batch ==> c in a.chunks;
    assert IdSet(pointId, batch) <= IdSet(pointId, a.chunks);
  }

  lemma BatchStores(before: map<string, Point>, after: map<string, Point>, pointId: string -> string, w: World,
                    f: string -> Vector,
                    a: Artifact, start: nat, end: nat, vectors: seq<Vector>, part: nat -> bool)
    requires start <= end <= |a.chunks| && |vectors| == end - start && NoDuplicates(PointIds(pointId, a.chunks))
    requires after == Upserted(before, pointId, a.chunks[start..end], vectors, part) &&
      forall i :: 0 <= i < end - start ==> part(i)
    requires Embedded(w, f, a.chunks[start..end], vectors)
    requires Stored(before, pointId, w, f, a.chunks, start)
    ensures Stored(after, pointId, w, f, a.chunks, end)
  {
    hide Upserted, Faithful, Embedded;
    var batch := a.chunks[start..end];
    var ids := PointIds(pointId, a.chunks);
    assert PointIds(pointId, batch) == ids[start..end];
    UpsertStores(before, pointId, w, f, batch, vectors, part);
    UpsertAddsOnly(before, pointId, batch, vectors, part);
    hide StoredAt, NoDuplicates;
    forall i | 0 <= i < end
      ensures StoredAt(after, pointId(a.chunks[i].id), w, f, a.chunks[i])
    {
      if i < start {
        EarlierUntouched(pointId, a, start, end, i);
        StillStored(before, after, pointId(a.chunks[i].id), w, f, a.chunks[i]);
      } else {
        assert batch[i - start] == a.chunks[i];
      }
    }
  }

  /** A batch has no point of an earlier chunk. */
  lemma EarlierUntouched(pointId: string -> string, a: Artifact, start: nat, end: nat, i: nat)
    requires i < start <= end <= |a.chunks| && NoDuplicates(PointIds(pointId, a.chunks))
    ensures pointId(a.chunks[i].id) !in IdSet(pointId, a.chunks[start..end])
  {
    var batch, ids := a.chunks[start..end], PointIds(pointId, a.chunks);
    forall c | c in batch
      ensures pointId(c.id) != ids[i]
    {
      var j :| 0 <= j < |batch| && batch[j] == c;
      assert ids[start + j] != ids[i];
    }
  }

  lemma StillStored(before: map<string, Point>, after: map<string, Point>, id: string, w: World, f: string -> Vector,
                    c: Chunk)
    requires StoredAt(before, id, w, f, c) && id in after && after[id] == before[id]
    ensures StoredAt(after, id, w, f, c)
  {}

  lemma AllStored(points: map<string, Point>, pointId: string -> string, w: World, f: string -> Vector, a: Artifact)
    requires a.Valid() && Stored(points, pointId, w, f, a.chunks, |a.chunks|) &&
      SourceIdsOf(points, a.source) <= IdSet(pointId, a.chunks)
    ensures Holds(points, pointId, w, f, a) && SourceIdsOf(points, a.source) == IdSet(pointId, a.chunks)
  {
    forall id | id in IdSet(pointId, a.chunks)
      ensures id in SourceIdsOf(points, a.source)
    {
      var i :| 0 <= i < |a.chunks| && pointId(a.chunks[i].id) == id;
      assert StoredAt(points, id, w, f, a.chunks[i]);
    }
  }

  lemma BatchesCount(n: nat, size: int, batches: nat)
    requires size > 0 && n <= batches * size < n + size
    ensures batches == (n + size - 1) / size
  {
    var m := n + size - 1;
    DivisionUnique(m, size, batches, m - batches * size);
  }

  lemma DivisionUnique(m: int, d: int, q: int, r: int)
    requires d > 0 && m == q * d + r && 0 <= r < d
    ensures m / d == q
  {
    var p := m / d;
    assert m == p * d + m % d;
    assert (p - q) * d == r - m % d;
    assert p - q <= -1 ==> (p - q) * d <= -d;
    assert p - q >= 1 ==> (p - q) * d >= d;
  }
}
