/**
  The chunker: a cursor walks each section and cuts it into overlapping chunks
  (app/ingestion/markdown_chunker.py:263-345, 409-509, 627-643).
 */
module Chunker {
  import opened Wrappers
  import opened PyText
  import opened MarkdownParser

  datatype Config = Config(minChars: int, maxChars: int, overlapChars: int) {
    /** The contract the constructor enforces (markdown_chunker.py:263-277). */
    predicate Valid() {
      0 < minChars <= maxChars && 100 <= overlapChars <= 150 && overlapChars < maxChars
    }
  }

  datatype Span = Span(start: nat, end: nat, path: seq<string>, index: nat, overlap: nat)

  /** What the digest of a chunk identifier is taken over, besides the fixed source names. */
  datatype Identity = Identity(path: seq<string>, text: string)

  datatype Chunk = Chunk(text: string, start: nat, end: nat, path: seq<string>, index: nat, overlap: nat,
                         occurrence: nat) {
    function Id(): (Identity, nat) { (Identity(path, text), occurrence) }
  }

  // ----- choosing where a chunk ends -----

  predicate InsideFence(p: int, fences: seq<Fence>) {
    exists k :: 0 <= k < |fences| && fences[k].start < p < fences[k].end
  }

  /** A fence begins at `end` and would not fit a chunk that also repeats the overlap. */
  predicate NextFenceNeedsCleanStart(end: int, cfg: Config, fences: seq<Fence>) {
    exists k :: 0 <= k < |fences| && fences[k].start == end &&
      fences[k].end - (end - cfg.overlapChars) > cfg.maxChars
  }

  /** The first fence that `limit` would cut. */
  function FirstCrossing(fences: seq<Fence>, cursor: nat, limit: nat, sectionEnd: nat): (r: Option<Fence>)
    ensures r.Some? ==> r.value in fences && r.value.start < limit < r.value.end
    ensures r.None? && cursor < limit <= sectionEnd ==> !InsideFence(limit, fences)
  {
    if fences == [] then None
    else if fences[0].start < limit < fences[0].end && fences[0].end > cursor && fences[0].start < sectionEnd
    then Some(fences[0])
    else FirstCrossing(fences[1..], cursor, limit, sectionEnd)
  }

  /** Match ends, moved to source positions, that may end a chunk. */
  function Usable(ends: seq<nat>, cursor: nat, lower: nat, limit: nat, fences: seq<Fence>): (r: seq<nat>)
    ensures forall p :: p in r <==>
      lower <= p <= limit && !InsideFence(p, fences) && exists k :: 0 <= k < |ends| && cursor + ends[k] == p
  {
    if ends == [] then []
    else
      var p := cursor + ends[0];
      var rest := Usable(ends[1..], cursor, lower, limit, fences);
      assert forall k :: 1 <= k < |ends| ==> ends[k] == ends[1..][k - 1];
      if lower <= p <= limit && !InsideFence(p, fences) then [p] + rest else rest
  }

  function Candidates(p: Pattern, s: string, cursor: nat, lower: nat, limit: nat, fences: seq<Fence>): seq<nat>
    requires cursor <= limit <= |s|
  {
    Usable(MatchEnds(p, s[cursor..limit], 0), cursor, lower, limit, fences)
  }

  function Largest(ps: seq<nat>): (m: nat)
    requires ps != []
    ensures m in ps && forall p :: p in ps ==> p <= m
  {
    if |ps| == 1 then ps[0]
    else
      var m := Largest(ps[1..]);
      assert forall p :: p in ps ==> p == ps[0] || p in ps[1..];
      if ps[0] > m then ps[0] else m
  }

  /** The last usable boundary of the best pattern that has one. */
  function BestBoundary(patterns: seq<Pattern>, s: string, cursor: nat, lower: nat, limit: nat,
                        fences: seq<Fence>): (r: Option<nat>)
    requires cursor <= limit <= |s|
    ensures r.Some? ==> lower <= r.value <= limit && !InsideFence(r.value, fences)
    ensures r.Some? ==> exists p :: p in patterns && r.value in Candidates(p, s, cursor, lower, limit, fences)
    ensures r.None? ==> forall p :: p in patterns ==> Candidates(p, s, cursor, lower, limit, fences) == []
  {
    if patterns == [] then None
    else
      var ps := Candidates(patterns[0], s, cursor, lower, limit, fences);
      if ps != [] then Some(Largest(ps)) else BestBoundary(patterns[1..], s, cursor, lower, limit, fences)
  }

  const PATTERNS := [Paragraph, Line, Sentence, Whitespace]

  function Min(a: int, b: int): int { if a < b then a else b }

  /** `_choose_end`: the end of the chunk at `cursor`, and whether the next one must not overlap it. */
  function ChooseEnd(s: string, cursor: nat, sectionEnd: nat, fences: seq<Fence>, cfg: Config): Result<(nat, bool),
      ChunkError>
    requires cursor < sectionEnd <= |s| && cfg.Valid()
  {
    var limit := Min(cursor + cfg.maxChars, sectionEnd);
    match FirstCrossing(fences, cursor, limit, sectionEnd)
    case Some(f) =>
      if f.start > cursor then Ok((f.start, true)) else Ok((Min(f.end, sectionEnd), true))
    case None =>
      var lower := Min(cursor + cfg.minChars, limit);
      match BestBoundary(PATTERNS, s, cursor, lower, limit, fences)
      case Some(end) => Ok((end, NextFenceNeedsCleanStart(end, cfg, fences)))
      case None => if InsideFence(limit, fences) then Err(HardSplitCutsFence) else Ok((limit, false))
  }

  // ----- cutting a section -----

  /** The end of the chunk at `cursor`: the section end when the rest fits. */
  function EndAt(s: string, cursor: nat, sectionEnd: nat, fences: seq<Fence>, cfg: Config): Result<(nat, bool),
      ChunkError>
    requires cursor < sectionEnd <= |s| && cfg.Valid()
  {
    if sectionEnd - cursor <= cfg.maxChars then Ok((sectionEnd, false))
    else ChooseEnd(s, cursor, sectionEnd, fences, cfg)
  }

  /** Where the next chunk begins: back over the overlap unless that is not allowed. */
  function NextCursor(cursor: nat, end: nat, suppress: bool, fences: seq<Fence>, cfg: Config): (r: nat)
    requires cursor < end && cfg.Valid()
    ensures cursor < r <= end
  {
    var back := end - cfg.overlapChars;
    if !suppress && back > cursor && !InsideFence(back, fences) then back else end
  }

  /** The chunks from `cursor` on; `index` and `overlap` belong to the first of them. */
  function ChunkFrom(s: string, sec: Section, fences: seq<Fence>, cfg: Config,
                     cursor: nat, index: nat, overlap: nat): Result<seq<Span>, ChunkError>
    requires sec.end <= |s| && cfg.Valid()
    decreases sec.end - cursor
  {
    if cursor >= sec.end then Ok([])
    else match EndAt(s, cursor, sec.end, fences, cfg)
      case Err(e) => Err(e)
      case Ok((end, suppress)) =>
        if end <= cursor then Err(CursorDidNotAdvance)
        else
          var span := Span(cursor, end, sec.path, index, overlap);
          if end == sec.end then Ok([span])
          else
            var next := NextCursor(cursor, end, suppress, fences, cfg);
            match ChunkFrom(s, sec, fences, cfg, next, index + 1, end - next)
            case Err(e) => Err(e)
            case Ok(rest) => Ok([span] + rest)
  }

  function ChunkSectionSpec(s: string, sec: Section, fences: seq<Fence>, cfg: Config): Result<seq<Span>, ChunkError>
    requires sec.end <= |s| && cfg.Valid()
  {
    ChunkFrom(s, sec, fences, cfg, sec.start, 0, 0)
  }

  /** Puts the spans already cut in front of what the rest of the walk yields. */
  function Prepend(done: seq<Span>, rest: Result<seq<Span>, ChunkError>): (r: Result<seq<Span>, ChunkError>)
    ensures done == [] ==> r == rest
    ensures rest == Ok([]) ==> r == Ok(done)
  {
    match rest
    case Err(e) => Err(e)
    case Ok(spans) =>
      assert done == [] ==> done + spans == spans;
      assert spans == [] ==> done + spans == done;
      Ok(done + spans)
  }

  method ChunkSection(source: string, section: Section, fences: seq<Fence>, cfg: Config)
    returns (r: Result<seq<Span>, ChunkError>)
    requires section.end <= |source| && cfg.Valid()
    ensures r == ChunkSectionSpec(source, section, fences, cfg)
  {
    hide EndAt, NextCursor;
    var spans: seq<Span> := [];
    var cursor, index, incoming := section.start, 0, 0;
    while cursor < section.end
      invariant index >= 0 && incoming >= 0
      invariant Prepend(spans, ChunkFrom(source, section, fences, cfg, cursor, index, incoming))
             == ChunkSectionSpec(source, section, fences, cfg)
      decreases section.end - cursor
    {
      ghost var before := ChunkFrom(source, section, fences, cfg, cursor, index, incoming);
      var chosen := EndAt(source, cursor, section.end, fences, cfg);
      if chosen.Err? {
        return Err(chosen.error);
      }
      var (end, suppress) := chosen.value;
      if end <= cursor {
        return Err(CursorDidNotAdvance);
      }
      ghost var done := spans;
      spans := spans + [Span(cursor, end, section.path, index, incoming)];
      if end == section.end {
        break;
      }
      var next := NextCursor(cursor, end, suppress, fences, cfg);
      ghost var rest := ChunkFrom(source, section, fences, cfg, next, index + 1, end - next);
      if rest.Ok? {
        assert done + ([Span(cursor, end, section.path, index, incoming)] + rest.value) == spans + rest.value;
      }
      incoming := end - next;
      cursor := next;
      index := index + 1;
    }
    return Ok(spans);
  }

  // ----- the whole source -----

  function ChunkAll(s: string, secs: seq<Section>, fences: seq<Fence>, cfg: Config): Result<seq<Span>, ChunkError>
    requires cfg.Valid() && forall k :: 0 <= k < |secs| ==> secs[k].end <= |s|
  {
    if secs == [] then Ok([])
    else match ChunkSectionSpec(s, secs[0], fences, cfg)
      case Err(e) => Err(e)
      case Ok(spans) => Prepend(spans, ChunkAll(s, secs[1..], fences, cfg))
  }

  ghost predicate InBounds(s: string, spans: seq<Span>) {
    forall k :: 0 <= k < |spans| ==> spans[k].start <= spans[k].end <= |s|
  }

  function SpanIdentity(s: string, span: Span): Identity
    requires span.start <= span.end <= |s|
  {
    Identity(span.path, s[span.start..span.end])
  }

  /** How often `id` is the identity of one of the first `k` spans. */
  function Occurrences(s: string, spans: seq<Span>, k: nat, id: Identity): nat
    requires k <= |spans| && InBounds(s, spans)
  {
    if k == 0 then 0
    else Occurrences(s, spans, k - 1, id) + if SpanIdentity(s, spans[k - 1]) == id then 1 else 0
  }

  /** The chunk record of `spans[k]`; its occurrence number counts earlier equal identities. */
  function ChunkOf(s: string, spans: seq<Span>, k: nat): Chunk
    requires k < |spans| && InBounds(s, spans)
  {
    var x := spans[k];
    Chunk(s[x.start..x.end], x.start, x.end, x.path, x.index, x.overlap,
          Occurrences(s, spans, k, SpanIdentity(s, x)))
  }
}
