/**
  The auditor, which re-checks a chunk list against its source without the builder
  (app/ingestion/markdown_chunker.py:88-174, 646-778).
 */
module ChunkAudit {
  import opened Wrappers
  import opened PyText
  import opened MarkdownParser
  import opened Chunker
  import opened ChunkProperties
  import opened ChunkBuilder
  import opened ChunkPieces
  import MarkdownStructure
  import Order

  // ----- what coverage means -----

  predicate Covers(chunks: seq<Chunk>, p: int) {
    exists k :: 0 <= k < |chunks| && chunks[k].start <= p < chunks[k].end
  }

  ghost predicate AllCovered(chunks: seq<Chunk>, a: int, b: int) {
    forall p :: a <= p < b ==> Covers(chunks, p)
  }

  /** How many of the first `n` positions lie in a chunk. */
  function CoveredCount(chunks: seq<Chunk>, n: nat): (c: nat)
    ensures c <= n
  {
    if n == 0 then 0 else CoveredCount(chunks, n - 1) + if Covers(chunks, n - 1) then 1 else 0
  }

  /** Chunks in document order, none empty. */
  ghost predicate Sequenced(chunks: seq<Chunk>) {
    chunks != [] &&
    (forall k :: 0 <= k < |chunks| ==> |chunks[k].text| == chunks[k].end - chunks[k].start > 0) &&
    (forall i, j :: 0 <= i < j < |chunks| ==> chunks[i].start < chunks[j].start)
  }

  /** What the chunk model demands of a chunk, and the artifact of its overlap. */
  ghost predicate ValidChunk(c: Chunk, cfg: Config) {
    (forall title :: title in c.path ==> NotBlank(title)) &&
    (c.index == 0 ==> c.overlap == 0) && (c.overlap == 0 || c.overlap == cfg.overlapChars)
  }

  /** What the artifact model demands of the chunks it holds. */
  ghost predicate ValidArtifact(chunks: seq<Chunk>, cfg: Config) {
    Sequenced(chunks) && (forall k :: 0 <= k < |chunks| ==> ValidChunk(chunks[k], cfg)) &&
    (forall i, j :: 0 <= i < j < |chunks| ==> chunks[i].Id() != chunks[j].Id())
  }

  // ----- the coverage pass -----

  lemma {:induction false} CountAll(chunks: seq<Chunk>, n: nat)
    ensures CoveredCount(chunks, n) == n <==> AllCovered(chunks, 0, n)
  {
    if n > 0 {
      CountAll(chunks, n - 1);
      if AllCovered(chunks, 0, n) { assert Covers(chunks, n - 1); }
      if CoveredCount(chunks, n) == n { assert AllCovered(chunks, 0, n - 1) && Covers(chunks, n - 1); }
    }
  }

  lemma {:induction false} CountSame(a: seq<Chunk>, b: seq<Chunk>, n: nat)
    requires forall p :: 0 <= p < n ==> (Covers(a, p) <==> Covers(b, p))
    ensures CoveredCount(a, n) == CoveredCount(b, n)
  {
    if n > 0 { CountSame(a, b, n - 1); }
  }

  lemma {:induction false} CountRun(chunks: seq<Chunk>, a: nat, b: nat, c: nat)
    requires a <= b <= c
    requires forall p :: a <= p < b ==> !Covers(chunks, p)
    requires forall p :: b <= p < c ==> Covers(chunks, p)
    ensures CoveredCount(chunks, c) == CoveredCount(chunks, a) + (c - b)
    decreases c
  {
    if a < c { CountRun(chunks, a, if b < c then b else b - 1, c - 1); }
  }

  /** Taking in one more chunk adds exactly its part past what was covered. */
  lemma CountNextChunk(chunks: seq<Chunk>, i: nat, done: nat)
    requires Sequenced(chunks) && i < |chunks|
    requires forall k :: 0 <= k < i ==> chunks[k].end <= done
    requires i > 0 ==> AllCovered(chunks[..i], chunks[i - 1].start, done)
    requires i == 0 ==> done == 0
    ensures var c, end := chunks[i], if done < chunks[i].end then chunks[i].end else done;
            var begin := if done < c.start then c.start else done;
            CoveredCount(chunks[..i + 1], end) ==
            CoveredCount(chunks[..i], done) + if c.end > begin then c.end - begin else 0
    ensures AllCovered(chunks[..i + 1], chunks[i].start, if done < chunks[i].end then chunks[i].end else done)
  {
    var c, a, b := chunks[i], chunks[..i], chunks[..i + 1];
    var end, begin := if done < c.end then c.end else done, if done < c.start then c.start else done;
    forall p
      ensures Covers(b, p) <==> Covers(a, p) || c.start <= p < c.end
    {
      if Covers(a, p) {
        var k :| 0 <= k < |a| && a[k].start <= p < a[k].end;
        assert b[k] == a[k];
      }
      assert b[i] == c;
    }
    forall p | 0 <= p < done
      ensures Covers(a, p) <==> Covers(b, p)
    {}
    CountSame(a, b, done);
    forall p | done <= p
      ensures !Covers(a, p)
    {}
    if c.end > begin {
      CountRun(b, done, begin, c.end);
    }
  }

  /** The coverage loop: counts gaps and covered characters in one pass over the chunks. */
  method CoverageCounts(length: nat, chunks: seq<Chunk>) returns (gaps: nat, covered: nat)
    requires Sequenced(chunks) && forall k :: 0 <= k < |chunks| ==> chunks[k].end <= length
    ensures covered == CoveredCount(chunks, length)
    ensures gaps == 0 && covered == length <==> AllCovered(chunks, 0, length)
  {
    hide CoveredCount;
    var done: nat := 0;
    gaps, covered := 0, 0;
    for i := 0 to |chunks|
      invariant done <= length && forall k :: 0 <= k < i ==> chunks[k].end <= done
      invariant i > 0 ==> AllCovered(chunks[..i], chunks[i - 1].start, done)
      invariant i == 0 ==> done == 0
      invariant covered == CoveredCount(chunks[..i], done)
      invariant gaps > 0 ==> exists p :: 0 <= p < length && !Covers(chunks, p)
    {
      CountNextChunk(chunks, i, done);
      var c := chunks[i];
      if c.start > done {
        assert !Covers(chunks, done);
        gaps := gaps + 1;
      }
      var begin := if done < c.start then c.start else done;
      if c.end > begin {
        covered := covered + (c.end - begin);
      }
      done := if done < c.end then c.end else done;
    }
    assert chunks[..|chunks|] == chunks;
    CountRunAtEnd(chunks, done, length);
    if done < length {
      assert !Covers(chunks, done);
      gaps := gaps + 1;
    }
    CountAll(chunks, length);
  }

  lemma CountRunAtEnd(chunks: seq<Chunk>, done: nat, length: nat)
    requires done <= length && forall k :: 0 <= k < |chunks| ==> chunks[k].end <= done
    ensures CoveredCount(chunks, length) == CoveredCount(chunks, done)
  {
    CountRun(chunks, done, length, length);
  }

  /** Decides whether every position of a non-empty interval lies in a chunk. */
  method IntervalIsCovered(start: nat, end: nat, chunks: seq<Chunk>) returns (r: bool)
    requires Sequenced(chunks) && start < end
    ensures r <==> AllCovered(chunks, start, end)
  {
    var until := start;
    for i := 0 to |chunks|
      invariant start <= until < end && AllCovered(chunks, start, until)
      invariant forall k :: 0 <= k < i ==> chunks[k].end <= until
    {
      if chunks[i].end <= until {
        continue;
      }
      if chunks[i].start > until {
        assert !Covers(chunks, until);
        return false;
      }
      until := if until < chunks[i].end then chunks[i].end else until;
      if until >= end {
        return true;
      }
    }
    assert !Covers(chunks, until);
    return until >= end;
  }

  // ----- source blocks -----

  datatype Block = Block(start: nat, end: nat)

  /** Non-empty adjacent blocks from `a` to `b`. */
  ghost predicate Tiles(blocks: seq<Block>, a: nat, b: nat) {
    a <= b && (blocks == [] <==> a == b) &&
    (blocks != [] ==> blocks[0].start == a && blocks[|blocks| - 1].end == b) &&
    (forall k :: 0 <= k < |blocks| ==> a <= blocks[k].start < blocks[k].end <= b) &&
    (forall k :: 0 < k < |blocks| ==> blocks[k - 1].end == blocks[k].start)
  }

  lemma TilesNone(a: nat)
    ensures Tiles([], a, a)
  {}

  lemma TilesOne(block: Block)
    requires block.start < block.end
    ensures Tiles([block], block.start, block.end)
  {}

  lemma TilesJoin(x: seq<Block>, y: seq<Block>, a: nat, b: nat, c: nat)
    requires Tiles(x, a, b) && Tiles(y, b, c)
    ensures Tiles(x + y, a, c)
  {}

  ghost predicate CutAt(blocks: seq<Block>, p: nat) {
    exists k :: 0 <= k < |blocks| && blocks[k].end == p
  }

  lemma CutsMore(blocks: seq<Block>, block: Block)
    ensures forall p :: CutAt(blocks + [block], p) <==> p == block.end || CutAt(blocks, p)
  {
    forall p
      ensures CutAt(blocks + [block], p) <==> p == block.end || CutAt(blocks, p)
    {
      assert (blocks + [block])[|blocks|] == block;
      if CutAt(blocks, p) {
        var k :| 0 <= k < |blocks| && blocks[k].end == p;
        assert (blocks + [block])[k].end == p;
      }
    }
  }

  /** Prose between fences, cut after each paragraph boundary and nowhere else. */
  method ProseBlocks(source: string, start: nat, end: nat) returns (blocks: seq<Block>)
    requires start <= end <= |source|
    ensures Tiles(blocks, start, end)
    ensures forall p: nat :: start < p < end ==>
              (CutAt(blocks, p) <==> p - start in MatchEnds(Paragraph, source[start..end], 0))
  {
    hide MatchEnds, CutAt;
    blocks := [];
    var cursor := start;
    var ends := MatchEnds(Paragraph, source[start..end], 0);
    MatchEndsRise(Paragraph, source[start..end], 0);
    NothingCut();
    for i := 0 to |ends|
      invariant start <= cursor <= end && Tiles(blocks, start, cursor)
      invariant i < |ends| ==> cursor < start + ends[i]
      invariant forall p: nat :: CutAt(blocks, p) <==> exists k :: 0 <= k < i && start + ends[k] == p
    {
      var boundary := start + ends[i];
      if cursor < boundary {
        TilesJoin(blocks, [Block(cursor, boundary)], start, cursor, boundary);
        CutsMore(blocks, Block(cursor, boundary));
        blocks := blocks + [Block(cursor, boundary)];
      }
      cursor := boundary;
    }
    if cursor < end {
      TilesJoin(blocks, [Block(cursor, end)], start, cursor, end);
      CutsMore(blocks, Block(cursor, end));
      blocks := blocks + [Block(cursor, end)];
    }
  }

  lemma NothingCut()
    ensures forall p :: !CutAt([], p)
  {}

  lemma {:induction false} MatchEndsRise(p: Pattern, s: string, i: nat)
    requires i <= |s|
    ensures forall j, k :: 0 <= j < k < |MatchEnds(p, s, i)| ==> MatchEnds(p, s, i)[j] < MatchEnds(p, s, i)[k]
    decreases |s| - i
  {
    if i < |s| {
      match MatchAt(p, s, i)
      case None => MatchEndsRise(p, s, i + 1);
      case Some(e) => MatchEndsRise(p, s, e);
    }
  }

  lemma CutsJoin(a: seq<Block>, b: seq<Block>, p: nat)
    ensures CutAt(a + b, p) <==> CutAt(a, p) || CutAt(b, p)
  {
    if CutAt(a, p) {
      var k :| 0 <= k < |a| && a[k].end == p;
      assert (a + b)[k].end == p;
    }
    if CutAt(b, p) {
      var k :| 0 <= k < |b| && b[k].end == p;
      assert (a + b)[|a| + k].end == p;
    }
  }

  lemma CutsInside(blocks: seq<Block>, a: nat, b: nat, p: nat)
    requires Tiles(blocks, a, b)
    ensures CutAt(blocks, p) ==> a < p <= b
    ensures a < b ==> CutAt(blocks, b)
  {
    if a < b { assert blocks[|blocks| - 1].end == b; }
  }

  /** Where the prose before the fence at `k` begins, or the prose after the last fence. */
  function ProseStart(fences: seq<Fence>, k: nat): nat
    requires k <= |fences|
  {
    if k == 0 then 0 else fences[k - 1].end
  }

  function ProseEnd(source: string, fences: seq<Fence>, k: nat): nat
    requires k <= |fences|
  {
    if k < |fences| then fences[k].start else |source|
  }

  /** A block ends at `p` in the prose from `a` to `b`: at its end, or after a paragraph boundary. */
  predicate ProseEndsAt(source: string, a: nat, b: nat, p: nat) {
    a < p <= b <= |source| && (p == b || p - a in MatchEnds(Paragraph, source[a..b], 0))
  }

  /** A block ends at `p` in the prose at `k` or with the fence after it. */
  predicate StretchEndsAt(source: string, fences: seq<Fence>, k: nat, p: nat)
    requires k <= |fences|
  {
    ProseEndsAt(source, ProseStart(fences, k), ProseEnd(source, fences, k), p) || (k < |fences| && p == fences[k].end)
  }

  predicate BlockEndsAt(source: string, fences: seq<Fence>, p: nat) {
    exists k :: 0 <= k <= |fences| && StretchEndsAt(source, fences, k, p)
  }

  /** The blocks of a stretch of prose, which may be empty. */
  method ProseOrNothing(source: string, start: nat, end: nat) returns (blocks: seq<Block>)
    requires start <= end <= |source|
    ensures Tiles(blocks, start, end) && forall p: nat :: CutAt(blocks, p) <==> ProseEndsAt(source, start, end, p)
  {
    hide MatchEnds, CutAt;
    blocks := [];
    TilesNone(start);
    NothingCut();
    if start < end {
      blocks := ProseBlocks(source, start, end);
      forall p: nat
        ensures CutAt(blocks, p) ==> start < p <= end
        ensures CutAt(blocks, end)
      {
        CutsInside(blocks, start, end, p);
      }
    }
  }

  /** The blocks of a source tile it, end exactly there, and each fence is a block of its own. */
  method SourceBlocks(source: string, fences: seq<Fence>) returns (blocks: seq<Block>)
    requires GoodFences(source, fences)
    ensures Tiles(blocks, 0, |source|)
    ensures forall p: nat :: CutAt(blocks, p) <==> BlockEndsAt(source, fences, p)
    ensures forall k :: 0 <= k < |fences| ==> Block(fences[k].start, fences[k].end) in blocks
  {
    hide Tiles, CutAt, ProseEndsAt, IsSpace;
    blocks := [];
    var cursor: nat := 0;
    TilesNone(0);
    NothingCut();
    for i := 0 to |fences|
      invariant cursor == ProseStart(fences, i) <= |source| && Tiles(blocks, 0, cursor)
      invariant i < |fences| ==> cursor <= fences[i].start
      invariant forall p: nat :: CutAt(blocks, p) <==> exists k :: 0 <= k < i && StretchEndsAt(source, fences, k, p)
      invariant forall k :: 0 <= k < i ==> Block(fences[k].start, fences[k].end) in blocks
    {
      var f := fences[i];
      TilesOne(Block(f.start, f.end));
      var prose := ProseOrNothing(source, cursor, f.start);
      TilesJoin(blocks, prose, 0, cursor, f.start);
      TilesJoin(blocks + prose, [Block(f.start, f.end)], 0, f.start, f.end);
      forall p: nat
        ensures CutAt(blocks + prose + [Block(f.start, f.end)], p) <==>
          CutAt(blocks, p) || StretchEndsAt(source, fences, i, p)
      {
        CutsJoin(blocks, prose, p);
        CutsMore(blocks + prose, Block(f.start, f.end));
      }
      blocks := blocks + prose + [Block(f.start, f.end)];
      cursor := f.end;
    }
    var prose := ProseOrNothing(source, cursor, |source|);
    TilesJoin(blocks, prose, 0, cursor, |source|);
    forall p: nat
      ensures CutAt(blocks + prose, p) <==> CutAt(blocks, p) || StretchEndsAt(source, fences, |fences|, p)
    {
      CutsJoin(blocks, prose, p);
    }
    blocks := blocks + prose;
  }

  /** Where the blocks of a source end. */
  function BlockEnds(source: string, fences: seq<Fence>): set<nat> {
    set p: nat | p <= |source| && BlockEndsAt(source, fences, p)
  }

  /** There are as many blocks as places where one ends. */
  lemma BlocksCounted(source: string, fences: seq<Fence>, blocks: seq<Block>)
    requires Tiles(blocks, 0, |source|) && forall p: nat :: CutAt(blocks, p) <==> BlockEndsAt(source, fences, p)
    ensures |blocks| == |BlockEnds(source, fences)|
  {
    hide BlockEndsAt;
    var ends := seq(|blocks|, i requires 0 <= i < |blocks| => blocks[i].end);
    TileEndsRise(blocks, 0, |source|);
    Order.SetOfSeq(ends);
    forall p: nat
      ensures p in ends <==> p in BlockEnds(source, fences)
    {
      CutsInside(blocks, 0, |source|, p);
      if CutAt(blocks, p) {
        var k :| 0 <= k < |blocks| && blocks[k].end == p;
        assert ends[k] == p;
      }
    }
    assert (set p | p in ends) == BlockEnds(source, fences);
  }

  lemma TileEndsRise(blocks: seq<Block>, a: nat, b: nat)
    requires Tiles(blocks, a, b)
    ensures forall i, j :: 0 <= i < j < |blocks| ==> blocks[i].end < blocks[j].end
  {
    forall i, j | 0 <= i < j < |blocks|
      ensures blocks[i].end < blocks[j].end
    {
      TileEndRises(blocks, a, b, i, j);
    }
  }

  lemma {:induction false} TileEndRises(blocks: seq<Block>, a: nat, b: nat, i: nat, j: nat)
    requires Tiles(blocks, a, b) && i < j < |blocks|
    ensures blocks[i].end < blocks[j].end
  {
    if i + 1 < j { TileEndRises(blocks, a, b, i, j - 1); }
  }

  // ----- the whole audit -----

  /** Python's `s[a:b]`. */
  function Slice(s: string, a: nat, b: nat): string
    requires a <= b
  {
    if b <= |s| then s[a..b] else if a <= |s| then s[a..] else []
  }

  ghost predicate TextsMatch(s: string, chunks: seq<Chunk>)
    requires Sequenced(chunks)
  {
    forall k :: 0 <= k < |chunks| ==> Slice(s, chunks[k].start, chunks[k].end) == chunks[k].text
  }

  predicate HoldsFence(chunks: seq<Chunk>, f: Fence) {
    exists k :: 0 <= k < |chunks| && chunks[k].start <= f.start && f.end <= chunks[k].end
  }

  predicate HasPosition(c: Chunk, p: nat) { c.start <= p < c.end }

  /** Every position of the fence is in the chunk. */
  ghost predicate HasWhole(c: Chunk, f: Fence) { forall p: nat :: f.start <= p < f.end ==> HasPosition(c, p) }

  lemma HasWholeIs(c: Chunk, f: Fence)
    requires f.start < f.end
    ensures HasWhole(c, f) <==> c.start <= f.start && f.end <= c.end
  {
    if HasWhole(c, f) { assert HasPosition(c, f.start) && HasPosition(c, f.end - 1); }
  }

  /** A fence is held exactly when one chunk has every position of it. */
  lemma HoldsFenceIff(chunks: seq<Chunk>, f: Fence)
    requires f.start < f.end
    ensures HoldsFence(chunks, f) <==> exists k :: 0 <= k < |chunks| && HasWhole(chunks[k], f)
  {
    hide HasWhole;
    forall k | 0 <= k < |chunks|
      ensures HasWhole(chunks[k], f) <==> chunks[k].start <= f.start && f.end <= chunks[k].end
    {
      HasWholeIs(chunks[k], f);
    }
  }

  ghost predicate FencesPreserved(fences: seq<Fence>, chunks: seq<Chunk>) {
    forall k :: 0 <= k < |fences| ==> HoldsFence(chunks, fences[k])
  }

  ghost predicate ChunksParse(chunks: seq<Chunk>) {
    forall k :: 0 <= k < |chunks| ==> Parse(chunks[k].text).Ok?
  }

  /** What the audit demands of a source and its chunks, in the order it looks. */
  ghost function Verdict(s: string, chunks: seq<Chunk>): Option<ChunkError>
    requires Sequenced(chunks)
  {
    if !TextsMatch(s, chunks) then Some(TextMismatch)
    else if !AllCovered(chunks, 0, |s|) then Some(NotCovered)
    else if Parse(s).Err? then Some(Parse(s).error)
    else if !FencesPreserved(Parse(s).value.fences, chunks) then Some(FenceCrossesChunks)
    else if !ChunksParse(chunks) then Some(UnclosedFence)
    else None
  }

  datatype Audit = Audit(chunkCount: nat, coveredCharacters: nat, gaps: nat, preservedFences: nat,
                         sourceBlocks: nat, coveredBlocks: nat)

  method CheckTexts(source: string, chunks: seq<Chunk>) returns (ok: bool)
    requires Sequenced(chunks)
    ensures ok <==> TextsMatch(source, chunks)
  {
    for k := 0 to |chunks|
      invariant forall j :: 0 <= j < k ==> Slice(source, chunks[j].start, chunks[j].end) == chunks[j].text
    {
      if Slice(source, chunks[k].start, chunks[k].end) != chunks[k].text {
        return false;
      }
    }
    return true;
  }

  method CountPreserved(fences: seq<Fence>, chunks: seq<Chunk>) returns (n: nat)
    ensures n <= |fences| && (n == |fences| <==> FencesPreserved(fences, chunks))
  {
    n := 0;
    for k := 0 to |fences|
      invariant n <= k && (n == k <==> forall j :: 0 <= j < k ==> HoldsFence(chunks, fences[j]))
    {
      if HoldsFence(chunks, fences[k]) {
        n := n + 1;
      }
    }
  }

  method CheckChunksParse(chunks: seq<Chunk>) returns (ok: bool)
    requires Sequenced(chunks)
    ensures ok <==> ChunksParse(chunks)
  {
    hide Parse;
    for k := 0 to |chunks|
      invariant forall j :: 0 <= j < k ==> Parse(chunks[j].text).Ok?
    {
      var parsed := ParseSemanticSections(chunks[k].text);
      if parsed.Err? {
        return false;
      }
    }
    return true;
  }

  method CountCoveredBlocks(blocks: seq<Block>, chunks: seq<Chunk>, length: nat) returns (n: nat)
    requires Sequenced(chunks) && Tiles(blocks, 0, length) && AllCovered(chunks, 0, length)
    ensures n == |blocks|
  {
    n := 0;
    for k := 0 to |blocks|
      invariant n == k
    {
      var covered := IntervalIsCovered(blocks[k].start, blocks[k].end, chunks);
      if covered {
        n := n + 1;
      }
    }
  }

  /** The audit: accepts exactly when `Verdict` finds nothing, and reports what it finds first. */
  method AuditChunks(source: string, chunks: seq<Chunk>) returns (r: Result<Audit, ChunkError>)
    requires Sequenced(chunks)
    ensures Verdict(source, chunks) == if r.Ok? then None else Some(r.error)
    ensures r.Ok? ==> r.value.coveredCharacters == |source| && r.value.gaps == 0
    ensures r.Ok? ==> r.value.preservedFences == |Parse(source).value.fences|
    ensures r.Ok? ==> r.value.chunkCount == |chunks|
    ensures r.Ok? ==>
      r.value.coveredBlocks == r.value.sourceBlocks == |BlockEnds(source, Parse(source).value.fences)|
  {
    hide Parse, CoveredCount, ChunksParse, BlockEnds, BlockEndsAt;
    var texts := CheckTexts(source, chunks);
    if !texts {
      return Err(TextMismatch);
    }
    var gaps, covered := CoverageCounts(|source|, chunks);
    if gaps > 0 || covered != |source| {
      return Err(NotCovered);
    }
    var parsed := ParseSemanticSections(source);
    if parsed.Err? {
      return Err(parsed.error);
    }
    var fences := parsed.value.fences;
    var preserved := CountPreserved(fences, chunks);
    if preserved != |fences| {
      return Err(FenceCrossesChunks);
    }
    var reparsed := CheckChunksParse(chunks);
    if !reparsed {
      return Err(UnclosedFence);
    }
    ParsedIsGood(source);
    var blocks := SourceBlocks(source, fences);
    BlocksCounted(source, fences, blocks);
    var coveredBlocks := CountCoveredBlocks(blocks, chunks, |source|);
    if coveredBlocks != |blocks| {
      return Err(BlockNotCovered);
    }
    return Ok(Audit(|chunks|, covered, gaps, preserved, |blocks|, coveredBlocks));
  }

  // ----- auditing what the builder builds -----

  lemma {:induction false} DocumentCovers(secs: seq<Section>, fences: seq<Fence>, cfg: Config, spans: seq<Span>,
                                          to: nat, n: nat, p: nat)
    requires GoodDocument(secs, fences, cfg, spans, 0, to) && 0 < n <= |spans| && p < spans[n - 1].end
    ensures exists k :: 0 <= k < n && spans[k].start <= p < spans[k].end
  {
    if n > 1 {
      assert Next(cfg, spans[n - 2], spans[n - 1]);
      if p < spans[n - 2].end { DocumentCovers(secs, fences, cfg, spans, to, n - 1, p); }
    }
  }

  lemma {:induction false} StartsRise(cfg: Config, spans: seq<Span>, i: nat, j: nat)
    requires i < j < |spans| && forall k :: 0 < k < |spans| ==> Next(cfg, spans[k - 1], spans[k])
    ensures spans[i].start < spans[j].start
  {
    assert Next(cfg, spans[j - 1], spans[j]);
    if i + 1 < j { StartsRise(cfg, spans, i, j - 1); }
  }

  lemma BuiltInOrder(s: string, cfg: Config)
    requires cfg.Valid() && Parse(s).Ok?
    ensures BuildSpec(s, cfg).Ok? && Sequenced(BuildSpec(s, cfg).value) && TextsMatch(s, BuildSpec(s, cfg).value)
  {
    hide Parse, ChunkAll, Next, Occurrences, InsideFence;
    SpansAreGood(s, cfg);
    var spans := SpansOf(s, cfg).value;
    forall k | 0 <= k < |spans|
      ensures spans[k].start < spans[k].end
    {
      assert GoodPiece(Parse(s).value.sections, Parse(s).value.fences, cfg, spans[k]);
    }
    forall i, j | 0 <= i < j < |spans|
      ensures spans[i].start < spans[j].start
    {
      StartsRise(cfg, spans, i, j);
    }
  }

  /** The path of a chunk is that of a section, and no title in it is blank. */
  lemma SpanPathNotBlank(s: string, cfg: Config, k: nat)
    requires cfg.Valid() && Parse(s).Ok? && SpansOf(s, cfg).Ok? && k < |SpansOf(s, cfg).value|
    ensures forall title :: title in SpansOf(s, cfg).value[k].path ==> NotBlank(title)
  {
    hide Parse, SpansOf, InsideFence, NotBlank, MarkdownStructure.FencesOf, MarkdownStructure.SectionsOf;
    ChunkRespectsStructure(s, cfg, k);
    var p := Parse(s).value;
    var i :| 0 <= i < |p.sections| && p.sections[i].path == SpansOf(s, cfg).value[k].path;
    MarkdownStructure.ParseSound(s);
    MarkdownStructure.SectionPathNotBlank(s, p.fences, p.sections, i);
  }

  lemma SpanOverlap(s: string, cfg: Config, k: nat)
    requires cfg.Valid() && Parse(s).Ok? && SpansOf(s, cfg).Ok? && k < |SpansOf(s, cfg).value|
    ensures var x := SpansOf(s, cfg).value[k];
            (x.index == 0 ==> x.overlap == 0) && (x.overlap == 0 || x.overlap == cfg.overlapChars)
  {
    hide Parse, SpansOf, GoodPiece, Next, InsideFence;
    SpansAreGood(s, cfg);
    if k > 0 { ChunksAdvance(s, cfg, k); }
  }

  lemma BuiltChunkIsValid(s: string, cfg: Config, k: nat)
    requires cfg.Valid() && Parse(s).Ok? && BuildSpec(s, cfg).Ok? && k < |BuildSpec(s, cfg).value|
    ensures ValidChunk(BuildSpec(s, cfg).value[k], cfg)
  {
    hide Parse, SpansOf, Occurrences, NotBlank, GoodDocument;
    SpansAreGood(s, cfg);
    SpanPathNotBlank(s, cfg, k);
    SpanOverlap(s, cfg, k);
  }

  /** Built chunks meet the whole contract of the artifact model. */
  lemma BuiltIsArtifact(s: string, cfg: Config)
    requires cfg.Valid() && Parse(s).Ok?
    ensures BuildSpec(s, cfg).Ok? && ValidArtifact(BuildSpec(s, cfg).value, cfg)
    ensures TextsMatch(s, BuildSpec(s, cfg).value)
  {
    BuiltInOrder(s, cfg);
    var chunks := BuildSpec(s, cfg).value;
    forall k | 0 <= k < |chunks|
      ensures ValidChunk(chunks[k], cfg)
    {
      BuiltChunkIsValid(s, cfg, k);
    }
    forall i, j | 0 <= i < j < |chunks|
      ensures chunks[i].Id() != chunks[j].Id()
    {
      SpansAreGood(s, cfg);
      IdentifiersDistinct(s, SpansOf(s, cfg).value, i, j);
    }
  }

  lemma BuiltCovers(s: string, cfg: Config)
    requires cfg.Valid() && Parse(s).Ok?
    ensures BuildSpec(s, cfg).Ok? && AllCovered(BuildSpec(s, cfg).value, 0, |s|)
  {
    hide Parse, ChunkAll, Next, GoodPiece, Occurrences;
    SpansAreGood(s, cfg);
    var spans, chunks, p := SpansOf(s, cfg).value, BuildSpec(s, cfg).value, Parse(s).value;
    forall q | 0 <= q < |s|
      ensures Covers(chunks, q)
    {
      DocumentCovers(p.sections, p.fences, cfg, spans, |s|, |spans|, q);
      var k :| 0 <= k < |spans| && spans[k].start <= q < spans[k].end;
      assert chunks[k].start <= q < chunks[k].end;
    }
  }

  lemma BuiltKeepsFences(s: string, cfg: Config)
    requires cfg.Valid() && Parse(s).Ok?
    ensures BuildSpec(s, cfg).Ok? && FencesPreserved(Parse(s).value.fences, BuildSpec(s, cfg).value)
  {
    hide Parse, ChunkAll, Occurrences, GoodPiece, Next;
    SpansAreGood(s, cfg);
    var spans, chunks, fences := SpansOf(s, cfg).value, BuildSpec(s, cfg).value, Parse(s).value.fences;
    forall j | 0 <= j < |fences|
      ensures HoldsFence(chunks, fences[j])
    {
      FenceInOneChunk(s, cfg, fences[j]);
      var k :| 0 <= k < |spans| && spans[k].start <= fences[j].start && fences[j].end <= spans[k].end;
      assert chunks[k].start <= fences[j].start && fences[j].end <= chunks[k].end;
    }
  }

  /** Only chunks that begin within a line, and open a fence with the rest of it, can fail to parse. */
  ghost predicate BeginsAtStrayOpener(s: string, c: Chunk) {
    c.start < |s| && !IsLineStart(s, c.start) &&
    FenceOpen(LogicalLine(s, c.start)).Some? && c.text != [] && FenceOpen(LogicalLine(c.text, 0)).Some?
  }

  /** A built chunk is a piece of the source whose edges cut no fence. */
  lemma BuiltChunkIsPiece(s: string, cfg: Config, k: nat)
    requires cfg.Valid() && Parse(s).Ok? && BuildSpec(s, cfg).Ok? && k < |BuildSpec(s, cfg).value|
    ensures var c, fs := BuildSpec(s, cfg).value[k], Parse(s).value.fences;
            c.start < c.end <= |s| && c.text == s[c.start..c.end] && MarkdownStructure.FencesOf(s, fs) &&
            !InsideFence(c.start, fs) && !InsideFence(c.end, fs)
  {
    hide Parse, ChunkAll, Occurrences, InsideFence, GoodDocument;
    SpansAreGood(s, cfg);
    ChunkRespectsStructure(s, cfg, k);
    MarkdownStructure.ParseSound(s);
  }

  /** A built chunk that does not parse begins within a line, and the rest of that line opens a fence. */
  lemma RefusedChunk(s: string, cfg: Config, k: nat)
    requires cfg.Valid() && Parse(s).Ok? && BuildSpec(s, cfg).Ok? && k < |BuildSpec(s, cfg).value|
    requires Parse(BuildSpec(s, cfg).value[k].text).Err?
    ensures BeginsAtStrayOpener(s, BuildSpec(s, cfg).value[k])
  {
    hide Parse, BuildSpec, MarkdownStructure.FencesOf, InsideFence, LogicalLine, FenceOpen, IsLineStart;
    BuiltChunkIsPiece(s, cfg, k);
    var c := BuildSpec(s, cfg).value[k];
    RefusedPiece(s, Parse(s).value.fences, c.start, c.end);
  }

  /**
    The builder always passes the text, coverage, fence and block checks of its own audit: the
    audit accepts a build exactly when each chunk that begins at a stray opener parses on its own.
   */
  lemma BuiltPassesAudit(s: string, cfg: Config)
    requires cfg.Valid() && Parse(s).Ok?
    ensures BuildSpec(s, cfg).Ok? && ValidArtifact(BuildSpec(s, cfg).value, cfg)
    ensures var chunks := BuildSpec(s, cfg).value;
            Verdict(s, chunks) ==
            if (forall c :: c in chunks && BeginsAtStrayOpener(s, c) ==> Parse(c.text).Ok?) then None
            else Some(UnclosedFence)
  {
    BuiltIsArtifact(s, cfg);
    BuiltCovers(s, cfg);
    BuiltKeepsFences(s, cfg);
    hide Parse, BuildSpec, TextsMatch, AllCovered, FencesPreserved, BeginsAtStrayOpener, ValidChunk;
    var chunks := BuildSpec(s, cfg).value;
    forall k | 0 <= k < |chunks| && Parse(chunks[k].text).Err?
      ensures chunks[k] in chunks && BeginsAtStrayOpener(s, chunks[k])
    {
      RefusedChunk(s, cfg, k);
    }
  }

  lemma BuildRefused(s: string, cfg: Config, k: nat)
    requires cfg.Valid() && Parse(s).Ok? && BuildSpec(s, cfg).Ok? && k < |BuildSpec(s, cfg).value|
    requires Parse(BuildSpec(s, cfg).value[k].text).Err?
    ensures ValidArtifact(BuildSpec(s, cfg).value, cfg) && Verdict(s, BuildSpec(s, cfg).value) == Some(UnclosedFence)
  {
    hide Parse, BuildSpec, Verdict, BeginsAtStrayOpener, ValidArtifact;
    RefusedChunk(s, cfg, k);
    BuiltPassesAudit(s, cfg);
  }

  /** Without a stray run of fence characters, every build of the source passes its audit. */
  lemma NoStrayRunPasses(s: string, cfg: Config)
    requires cfg.Valid() && Parse(s).Ok? && NoStrayRun(s, Parse(s).value.fences)
    ensures BuildSpec(s, cfg).Ok? && ValidArtifact(BuildSpec(s, cfg).value, cfg)
    ensures Verdict(s, BuildSpec(s, cfg).value).None?
  {
    hide Parse, BuildSpec, Verdict, NoStrayRun, MarkdownStructure.FencesOf, InsideFence;
    BuiltPassesAudit(s, cfg);
    var chunks := BuildSpec(s, cfg).value;
    forall k | 0 <= k < |chunks|
      ensures Parse(chunks[k].text).Ok?
    {
      BuiltChunkIsPiece(s, cfg, k);
      PiecesParseIff(s, Parse(s).value.fences);
      assert PiecesParse(s, Parse(s).value.fences);
    }
  }

  /** A chunk longer than the limit parses on its own, as one fence and nothing else. */
  lemma OversizedIsCode(s: string, cfg: Config, k: nat)
    requires cfg.Valid() && Parse(s).Ok? && BuildSpec(s, cfg).Ok? && k < |BuildSpec(s, cfg).value|
    requires |BuildSpec(s, cfg).value[k].text| > cfg.maxChars
    ensures var text := BuildSpec(s, cfg).value[k].text;
            Parse(text).Ok? && Parse(text).value.fences == [Fence(0, |text|)]
  {
    hide Parse, ChunkAll, Occurrences, InsideFence, GoodDocument, MarkdownStructure.FencesOf, Within;
    SpansAreGood(s, cfg);
    ChunkRespectsStructure(s, cfg, k);
    BuiltChunkIsPiece(s, cfg, k);
    var c, fs := BuildSpec(s, cfg).value[k], Parse(s).value.fences;
    var j :| 0 <= j < |fs| && fs[j] == Fence(c.start, c.end);
    FenceStartsLine(s, fs, j);
    CleanPieceParses(s, fs, c.start, c.end);
    OnlyFenceWithin(s, fs, c.start, c.end);
  }

  lemma OnlyFenceWithin(s: string, fs: seq<Fence>, a: nat, b: nat)
    requires MarkdownStructure.FencesOf(s, fs) && a < b && Fence(a, b) in fs
    ensures Within(fs, a, b) == [Fence(0, b - a)]
  {
    hide MarkdownStructure.FencesOf, Within;
    var gs := Within(fs, a, b);
    MarkdownStructure.FencesOrdered(s, fs);
    WithinIs(fs, a, b);
    WithinOrdered(fs, a, b);
    assert InPiece(fs, a, b, Fence(0, b - a));
    forall g | g in gs
      ensures g == Fence(0, b - a)
    {
      assert InPiece(fs, a, b, g);
      var i :| 0 <= i < |fs| && fs[i] == Fence(g.start + a, g.end + a);
      var j :| 0 <= j < |fs| && fs[j] == Fence(a, b);
      FenceStartsLine(s, fs, i);
      assert i == j;
    }
    if |gs| > 1 { FencesApart(gs, 0, 1); }
  }

  lemma FencesApart(fs: seq<Fence>, i: nat, j: nat)
    requires MarkdownStructure.Ordered(fs) && i < j < |fs|
    ensures fs[i] in fs && fs[j] in fs && fs[i].end <= fs[j].start
  {}
}
