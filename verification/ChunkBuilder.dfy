/**
  Building the chunks of a whole source, and what the result is for: the chunks can be
  put back together, in order, into exactly the source
  (app/ingestion/markdown_chunker.py:279-345).
 */
module ChunkBuilder {
  import opened Wrappers
  import opened PyText
  import opened MarkdownParser
  import opened Chunker
  import opened ChunkProperties

  lemma PiecesInBounds(s: string, secs: seq<Section>, fences: seq<Fence>, cfg: Config, spans: seq<Span>)
    requires forall k :: 0 <= k < |secs| ==> secs[k].end <= |s|
    requires forall k :: 0 <= k < |spans| ==> GoodPiece(secs, fences, cfg, spans[k])
    ensures InBounds(s, spans)
  {
    hide InsideFence;
    forall k | 0 <= k < |spans|
      ensures spans[k].start <= spans[k].end <= |s|
    {
      assert GoodPiece(secs, fences, cfg, spans[k]);
    }
  }

  /** The spans of a whole source. */
  function SpansOf(s: string, cfg: Config): Result<seq<Span>, ChunkError>
    requires cfg.Valid()
  {
    match Parse(s)
    case Err(e) => Err(e)
    case Ok(p) =>
      ParsedIsGood(s);
      ChunkAll(s, p.sections, p.fences, cfg)
  }

  /** Every parsed source is cut into a good document, whatever the configuration. */
  lemma SpansAreGood(s: string, cfg: Config)
    requires cfg.Valid() && Parse(s).Ok?
    ensures SpansOf(s, cfg).Ok? && InBounds(s, SpansOf(s, cfg).value)
    ensures GoodDocument(Parse(s).value.sections, Parse(s).value.fences, cfg, SpansOf(s, cfg).value, 0, |s|)
  {
    assert s != [];
    hide Parse, GoodFences, InsideFence, ChunkAll;
    ParsedIsGood(s);
    var secs, fences := Parse(s).value.sections, Parse(s).value.fences;
    ChunkAllIsGood(s, secs, fences, cfg);
    PiecesInBounds(s, secs, fences, cfg, SpansOf(s, cfg).value);
  }

  function ChunksOf(s: string, spans: seq<Span>): (r: seq<Chunk>)
    requires InBounds(s, spans)
    ensures |r| == |spans|
  {
    seq(|spans|, k requires 0 <= k < |spans| => ChunkOf(s, spans, k))
  }

  function BuildSpec(s: string, cfg: Config): Result<seq<Chunk>, ChunkError>
    requires cfg.Valid()
  {
    match SpansOf(s, cfg)
    case Err(e) => Err(e)
    case Ok(spans) =>
      SpansAreGood(s, cfg);
      if spans == [] then Err(NoChunks) else Ok(ChunksOf(s, spans))
  }

  /** The build: sections to spans, then spans to chunks. */
  method Build(source: string, cfg: Config) returns (r: Result<seq<Chunk>, ChunkError>)
    requires cfg.Valid()
    ensures r == BuildSpec(source, cfg)
  {
    var parsed := ParseSemanticSections(source);
    if parsed.Err? {
      return Err(parsed.error);
    }
    hide Parse, InsideFence, GoodDocument;
    ParsedIsGood(source);
    var spans := ChunkSections(source, parsed.value.sections, parsed.value.fences, cfg);
    if spans.Err? {
      return Err(spans.error);
    }
    SpansAreGood(source, cfg);
    if spans.value == [] {
      return Err(NoChunks);
    }
    var chunks := NumberChunks(source, spans.value);
    return Ok(chunks);
  }

  method ChunkSections(source: string, sections: seq<Section>, fences: seq<Fence>, cfg: Config)
    returns (r: Result<seq<Span>, ChunkError>)
    requires cfg.Valid() && forall k :: 0 <= k < |sections| ==> sections[k].end <= |source|
    ensures r == ChunkAll(source, sections, fences, cfg)
  {
    hide ChunkSectionSpec;
    var spans: seq<Span> := [];
    for i := 0 to |sections|
      invariant Prepend(spans, ChunkAll(source, sections[i..], fences, cfg)) == ChunkAll(source, sections, fences, cfg)
    {
      assert sections[i..][0] == sections[i] && sections[i..][1..] == sections[i + 1..];
      var cut := ChunkSection(source, sections[i], fences, cfg);
      if cut.Err? {
        return Err(cut.error);
      }
      ghost var rest := ChunkAll(source, sections[i + 1..], fences, cfg);
      if rest.Ok? { assert spans + (cut.value + rest.value) == (spans + cut.value) + rest.value; }
      spans := spans + cut.value;
    }
    return Ok(spans);
  }

  /** Numbers equal identities in order of appearance, with one counter per identity. */
  method NumberChunks(source: string, spans: seq<Span>) returns (chunks: seq<Chunk>)
    requires InBounds(source, spans)
    ensures chunks == ChunksOf(source, spans)
  {
    var seen: map<Identity, nat> := map[];
    chunks := [];
    for k := 0 to |spans|
      invariant chunks == ChunksOf(source, spans)[..k]
      invariant forall id :: (if id in seen then seen[id] else 0) == Occurrences(source, spans, k, id)
    {
      var span := spans[k];
      var id := SpanIdentity(source, span);
      var occurrence := if id in seen then seen[id] else 0;
      seen := seen[id := occurrence + 1];
      chunks := chunks + [Chunk(id.text, span.start, span.end, span.path, span.index, span.overlap, occurrence)];
    }
  }

  // ----- identifiers -----

  lemma {:induction false} OccurrencesGrow(s: string, spans: seq<Span>, i: nat, j: nat, id: Identity)
    requires InBounds(s, spans) && i < j <= |spans|
    ensures Occurrences(s, spans, i, id) <= Occurrences(s, spans, j, id)
    ensures SpanIdentity(s, spans[i]) == id ==> Occurrences(s, spans, i, id) < Occurrences(s, spans, j, id)
    decreases j
  {
    if i + 1 < j { OccurrencesGrow(s, spans, i, j - 1, id); }
  }

  /** No two chunks share what their identifiers are computed from. */
  lemma IdentifiersDistinct(s: string, spans: seq<Span>, i: nat, j: nat)
    requires InBounds(s, spans) && i < j < |spans|
    ensures ChunksOf(s, spans)[i].Id() != ChunksOf(s, spans)[j].Id()
  {
    OccurrencesGrow(s, spans, i, j, SpanIdentity(s, spans[i]));
  }

  // ----- reconstruction -----

  /** Python's `text[n:]`: empty when `n` reaches past the end. */
  function DropFirst(text: string, n: nat): string {
    if n <= |text| then text[n..] else []
  }

  /** The texts without the overlap each one announces, joined. */
  function Reconstruct(chunks: seq<Chunk>): string {
    if chunks == [] then []
    else Reconstruct(chunks[..|chunks| - 1]) + DropFirst(chunks[|chunks| - 1].text, chunks[|chunks| - 1].overlap)
  }

  lemma ReconstructNext(chunks: seq<Chunk>, n: nat)
    requires 0 < n <= |chunks|
    ensures Reconstruct(chunks[..n]) ==
            Reconstruct(chunks[..n - 1]) + DropFirst(chunks[n - 1].text, chunks[n - 1].overlap)
  {
    assert chunks[..n][..n - 1] == chunks[..n - 1];
  }

  /** While the ends do not fall back, the first `n` chunks rebuild the source up to the last end. */
  lemma {:induction false} PrefixRebuilds(s: string, spans: seq<Span>, n: nat)
    requires InBounds(s, spans) && 0 < n <= |spans| && spans[0].start == 0 && spans[0].overlap == 0
    requires forall k :: 0 < k < |spans| ==>
      spans[k].start <= spans[k - 1].end <= spans[k].end && spans[k].overlap == spans[k - 1].end - spans[k].start
    ensures Reconstruct(ChunksOf(s, spans)[..n]) == s[..spans[n - 1].end]
  {
    hide Occurrences, Reconstruct;
    var chunks, x := ChunksOf(s, spans), spans[n - 1];
    assert chunks[n - 1].text == s[x.start..x.end] && chunks[n - 1].overlap == x.overlap;
    hide ChunksOf;
    ReconstructNext(chunks, n);
    var before := if n == 1 then 0 else spans[n - 2].end;
    assert DropFirst(s[x.start..x.end], x.overlap) == s[before..x.end];
    assert s[..before] + s[before..x.end] == s[..x.end];
    if n == 1 {
      NothingRebuilt(chunks);
    } else {
      PrefixRebuilds(s, spans, n - 1);
    }
  }

  lemma NothingRebuilt(chunks: seq<Chunk>)
    ensures Reconstruct(chunks[..0]) == []
  {}

  lemma DocumentRebuilds(s: string, secs: seq<Section>, fences: seq<Fence>, cfg: Config, spans: seq<Span>)
    requires InBounds(s, spans) && GoodDocument(secs, fences, cfg, spans, 0, |s|) && cfg.minChars >= cfg.overlapChars
    ensures Reconstruct(ChunksOf(s, spans)) == s
  {
    hide GoodPiece, Reconstruct, ChunksOf;
    forall k | 0 < k < |spans|
      ensures spans[k].start <= spans[k - 1].end <= spans[k].end &&
        spans[k].overlap == spans[k - 1].end - spans[k].start
    {
      assert Next(cfg, spans[k - 1], spans[k]);
    }
    PrefixRebuilds(s, spans, |spans|);
    assert ChunksOf(s, spans)[..|spans|] == ChunksOf(s, spans) && s[..|s|] == s;
  }

  /** The chunks of a source lose and repeat nothing when `minChars` is at least `overlapChars`. */
  lemma BuildIsLossless(s: string, cfg: Config)
    requires cfg.Valid() && Parse(s).Ok? && cfg.minChars >= cfg.overlapChars
    ensures BuildSpec(s, cfg).Ok? && Reconstruct(BuildSpec(s, cfg).value) == s
  {
    hide Parse, Reconstruct, ChunksOf;
    SpansAreGood(s, cfg);
    DocumentRebuilds(s, Parse(s).value.sections, Parse(s).value.fences, cfg, SpansOf(s, cfg).value);
  }

  // ----- fences and sizes -----

  /** Every fenced block lies whole in one chunk. */
  lemma FenceInOneChunk(s: string, cfg: Config, f: Fence)
    requires cfg.Valid() && Parse(s).Ok? && f in Parse(s).value.fences
    ensures SpansOf(s, cfg).Ok? &&
            exists k :: 0 <= k < |SpansOf(s, cfg).value| && SpansOf(s, cfg).value[k].start <= f.start &&
                   f.end <= SpansOf(s, cfg).value[k].end
  {
    hide Parse, ChunkAll;
    SpansAreGood(s, cfg);
    ParsedIsGood(s);
    var p := Parse(s).value;
    HoldingChunk(p.sections, p.fences, cfg, SpansOf(s, cfg).value, |s|, f, |SpansOf(s, cfg).value|);
  }

  /** Among the first `n` chunks, the first to end after `f.start` holds all of `f`. */
  lemma {:induction false} HoldingChunk(secs: seq<Section>, fences: seq<Fence>, cfg: Config, spans: seq<Span>,
                                        to: nat, f: Fence, n: nat)
    requires GoodDocument(secs, fences, cfg, spans, 0, to) && f in fences && f.start < f.end
    requires 0 < n <= |spans| && f.start < spans[n - 1].end
    ensures exists k :: 0 <= k < n && spans[k].start <= f.start && f.end <= spans[k].end
  {
    hide Next;
    if n > 1 && f.start < spans[n - 2].end {
      HoldingChunk(secs, fences, cfg, spans, to, f, n - 1);
    } else {
      assert GoodPiece(secs, fences, cfg, spans[n - 1]);
      if n > 1 { StartsWhereLastEnds(cfg, spans[n - 2], spans[n - 1]); }
      assert spans[n - 1].start <= f.start && f.end <= spans[n - 1].end;
    }
  }

  lemma StartsWhereLastEnds(cfg: Config, a: Span, b: Span)
    requires Next(cfg, a, b)
    ensures b.start <= a.end
  {}

  /**
    Chunk `k` of a source: its edges cut no fence, it is longer than the limit only when it is
    exactly one fence, it lies in one section and carries that section's path.
   */
  lemma ChunkRespectsStructure(s: string, cfg: Config, k: nat)
    requires cfg.Valid() && Parse(s).Ok? && SpansOf(s, cfg).Ok? && k < |SpansOf(s, cfg).value|
    ensures var x, p := SpansOf(s, cfg).value[k], Parse(s).value;
            x.start < x.end <= |s| && !InsideFence(x.start, p.fences) && !InsideFence(x.end, p.fences) &&
            (x.end - x.start > cfg.maxChars ==> Fence(x.start, x.end) in p.fences) &&
            exists i :: 0 <= i < |p.sections| && p.sections[i].start <= x.start && x.end <= p.sections[i].end &&
                        p.sections[i].path == x.path
  {
    hide Parse, ChunkAll, InsideFence;
    SpansAreGood(s, cfg);
    assert GoodPiece(Parse(s).value.sections, Parse(s).value.fences, cfg, SpansOf(s, cfg).value[k]);
  }

  /** Starts always rise; ends rise too when `minChars` exceeds `overlapChars`; the record of the overlap is exact. */
  lemma ChunksAdvance(s: string, cfg: Config, k: nat)
    requires cfg.Valid() && Parse(s).Ok? && SpansOf(s, cfg).Ok? && 0 < k < |SpansOf(s, cfg).value|
    ensures var a, b := SpansOf(s, cfg).value[k - 1], SpansOf(s, cfg).value[k];
            a.start < b.start <= a.end && b.overlap == a.end - b.start && b.overlap in {0, cfg.overlapChars} &&
            (b.index == 0 ==> b.overlap == 0) && (cfg.minChars > cfg.overlapChars ==> a.end < b.end)
  {
    hide Parse, ChunkAll, GoodPiece;
    SpansAreGood(s, cfg);
    assert Next(cfg, SpansOf(s, cfg).value[k - 1], SpansOf(s, cfg).value[k]);
  }
}
