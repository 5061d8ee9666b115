/**
  What the chunker guarantees for every source and every configuration
  (app/ingestion/markdown_chunker.py:409-509, 627-643).
 */
module ChunkProperties {
  import opened Wrappers
  import opened PyText
  import opened MarkdownParser
  import opened Chunker
  import MarkdownStructure

  // ----- what the parser hands to the chunker -----

  /** Ordered blocks of `s`, each at the beginning or after whitespace. */
  ghost predicate GoodFences(s: string, fences: seq<Fence>) {
    (forall k :: 0 <= k < |fences| ==>
       fences[k].start < fences[k].end <= |s| && (fences[k].start == 0 || IsSpace(s[fences[k].start - 1]))) &&
    (forall i, j :: 0 <= i < j < |fences| ==> fences[i].end <= fences[j].start)
  }

  ghost predicate GoodSection(s: string, sec: Section, fences: seq<Fence>) {
    sec.start < sec.end <= |s| && !InsideFence(sec.start, fences) && !InsideFence(sec.end, fences)
  }

  lemma FencesAreGood(s: string, fs: seq<Fence>)
    requires MarkdownStructure.FencesOf(s, fs)
    ensures GoodFences(s, fs)
  {
    hide MarkdownStructure.FencesOf;
    MarkdownStructure.FencesOrdered(s, fs);
    forall k | 0 <= k < |fs|
      ensures fs[k].start < fs[k].end <= |s| && (fs[k].start == 0 || IsSpace(s[fs[k].start - 1]))
    {
      MarkdownStructure.FenceAfterLineBreak(s, fs, k);
    }
  }

  lemma SectionIsGood(s: string, fs: seq<Fence>, secs: seq<Section>, i: nat)
    requires MarkdownStructure.FencesOf(s, fs) && MarkdownStructure.SectionsOf(s, fs, secs) && i < |secs|
    ensures GoodSection(s, secs[i], fs)
  {
    hide MarkdownStructure.FencesOf, MarkdownStructure.SectionsOf;
    MarkdownStructure.PartitionOf(s, fs, secs);
    forall k | 0 <= k < |fs|
      ensures !(fs[k].start < secs[i].start < fs[k].end) && !(fs[k].start < secs[i].end < fs[k].end)
    {
      MarkdownStructure.SectionCutsAvoidFences(s, fs, secs, i, k);
    }
    if i + 1 < |secs| { MarkdownStructure.PartitionOrdered(secs, |s|, i, |secs| - 1); }
  }

  lemma ParsedIsGood(s: string)
    requires Parse(s).Ok?
    ensures GoodFences(s, Parse(s).value.fences)
    ensures MarkdownStructure.Partition(Parse(s).value.sections, |s|)
    ensures forall i :: 0 <= i < |Parse(s).value.sections| ==>
      Parse(s).value.sections[i].end <= |s| && GoodSection(s, Parse(s).value.sections[i], Parse(s).value.fences)
  {
    hide Parse, MarkdownStructure.FencesOf, MarkdownStructure.SectionsOf, GoodFences, InsideFence;
    MarkdownStructure.ParseSound(s);
    var secs, fs := Parse(s).value.sections, Parse(s).value.fences;
    MarkdownStructure.PartitionOf(s, fs, secs);
    FencesAreGood(s, fs);
    forall i | 0 <= i < |secs|
      ensures secs[i].end <= |s| && GoodSection(s, secs[i], fs)
    {
      SectionIsGood(s, fs, secs, i);
    }
  }

  // ----- one cut -----

  /** A good end for the chunk at `cursor`. */
  ghost predicate GoodEnd(cursor: nat, sectionEnd: nat, fences: seq<Fence>, cfg: Config, end: nat, suppress: bool) {
    cursor < end <= sectionEnd && !InsideFence(end, fences) &&
    (end - cursor > cfg.maxChars ==> Fence(cursor, end) in fences) &&
    (!suppress && end < sectionEnd ==> !NextFenceNeedsCleanStart(end, cfg, fences))
  }

  /** A limit that follows whitespace and cuts no fence is itself a candidate. */
  lemma WhitespaceCandidate(s: string, cursor: nat, lower: nat, limit: nat, fences: seq<Fence>)
    requires cursor < limit <= |s| && lower <= limit && !InsideFence(limit, fences) && IsSpace(s[limit - 1])
    ensures limit in Candidates(Whitespace, s, cursor, lower, limit, fences)
  {
    var seg := s[cursor..limit];
    WhitespaceReachesEnd(seg, 0);
    var ends := MatchEnds(Whitespace, seg, 0);
    var k :| 0 <= k < |ends| && ends[k] == |seg|;
    assert cursor + ends[k] == limit;
  }

  /** No fence begins at a hard limit: the line break before it would have been a candidate. */
  lemma HardLimitStartsNoFence(s: string, cursor: nat, lower: nat, limit: nat, fences: seq<Fence>, cfg: Config)
    requires cursor < limit <= |s| && lower <= limit && GoodFences(s, fences) && !InsideFence(limit, fences)
    requires Candidates(Whitespace, s, cursor, lower, limit, fences) == []
    ensures !NextFenceNeedsCleanStart(limit, cfg, fences)
  {
    hide Candidates;
    if IsSpace(s[limit - 1]) { WhitespaceCandidate(s, cursor, lower, limit, fences); }
  }

  lemma CrossingFacts(s: string, fences: seq<Fence>, cursor: nat, limit: nat, sectionEnd: nat, f: Fence)
    requires GoodFences(s, fences) && f in fences && f.start < limit < f.end && cursor < limit <= sectionEnd
    requires !InsideFence(cursor, fences) && !InsideFence(sectionEnd, fences)
    ensures f.start >= cursor && f.end <= sectionEnd && !InsideFence(f.start, fences) && !InsideFence(f.end, fences)
  {
    var k :| 0 <= k < |fences| && fences[k] == f;
    forall j | 0 <= j < |fences|
      ensures !(fences[j].start < f.start < fences[j].end) && !(fences[j].start < f.end < fences[j].end)
    {
      if j < k { assert fences[j].end <= fences[k].start; }
      if k < j { assert fences[k].end <= fences[j].start; }
    }
  }

  /** `end` is the last usable match of pattern `i`, and no better pattern has one. */
  ghost predicate BestOf(patterns: seq<Pattern>, i: nat, s: string, cursor: nat, lower: nat, limit: nat,
                         fences: seq<Fence>,
                         end: nat)
    requires cursor <= limit <= |s| && i < |patterns|
  {
    var usable := Candidates(patterns[i], s, cursor, lower, limit, fences);
    end in usable && (forall p :: p in usable ==> p <= end) &&
    forall j :: 0 <= j < i ==> Candidates(patterns[j], s, cursor, lower, limit, fences) == []
  }

  lemma {:induction false} BestIsBest(patterns: seq<Pattern>, s: string, cursor: nat, lower: nat, limit: nat,
                                      fences: seq<Fence>)
    requires cursor <= limit <= |s|
    ensures var best := BestBoundary(patterns, s, cursor, lower, limit, fences);
            best.Some? ==>
              exists i :: 0 <= i < |patterns| && BestOf(patterns, i, s, cursor, lower, limit, fences, best.value)
  {
    hide Candidates, Largest, InsideFence;
    if patterns != [] {
      var best := BestBoundary(patterns, s, cursor, lower, limit, fences);
      var rest := patterns[1..];
      if Candidates(patterns[0], s, cursor, lower, limit, fences) != [] {
        assert BestOf(patterns, 0, s, cursor, lower, limit, fences, best.value);
      } else {
        BestIsBest(rest, s, cursor, lower, limit, fences);
        if best.Some? {
          var i :| 0 <= i < |rest| && BestOf(rest, i, s, cursor, lower, limit, fences, best.value);
          assert forall j :: 0 < j < |patterns| ==> patterns[j] == rest[j - 1];
          assert BestOf(patterns, i + 1, s, cursor, lower, limit, fences, best.value);
        }
      }
    }
  }

  /**
    Without a crossing fence the cut falls on the last usable match of the best pattern that has
    one; only when none has, it falls on the limit, and then no oversized fence begins there.
   */
  lemma BoundaryIsGood(s: string, cursor: nat, lower: nat, limit: nat, fences: seq<Fence>, cfg: Config)
    requires cursor < limit <= |s| && lower <= limit && GoodFences(s, fences) && !InsideFence(limit, fences)
    ensures match BestBoundary(PATTERNS, s, cursor, lower, limit, fences) {
              case Some(end) =>
                lower <= end <= limit && !InsideFence(end, fences) &&
                exists i :: 0 <= i < |PATTERNS| && BestOf(PATTERNS, i, s, cursor, lower, limit, fences, end)
              case None =>
                (forall p :: p in PATTERNS ==> Candidates(p, s, cursor, lower, limit, fences) == []) &&
                !NextFenceNeedsCleanStart(limit, cfg, fences)
            }
  {
    hide InsideFence, Candidates, NextFenceNeedsCleanStart, GoodFences, BestBoundary, BestOf;
    assert Whitespace in PATTERNS by { assert PATTERNS[3] == Whitespace; }
    BestIsBest(PATTERNS, s, cursor, lower, limit, fences);
    if BestBoundary(PATTERNS, s, cursor, lower, limit, fences).None? {
      HardLimitStartsNoFence(s, cursor, lower, limit, fences, cfg);
    }
  }

  /** Every cut succeeds: both internal errors of the source are unreachable. */
  lemma EndAtIsGood(s: string, cursor: nat, sectionEnd: nat, fences: seq<Fence>, cfg: Config)
    requires cursor < sectionEnd <= |s| && cfg.Valid() && GoodFences(s, fences)
    requires !InsideFence(cursor, fences) && !InsideFence(sectionEnd, fences)
    ensures EndAt(s, cursor, sectionEnd, fences, cfg).Ok?
    ensures var (end, suppress) := EndAt(s, cursor, sectionEnd, fences, cfg).value;
            GoodEnd(cursor, sectionEnd, fences, cfg, end, suppress)
  {
    hide InsideFence, Candidates, NextFenceNeedsCleanStart, BestBoundary, FirstCrossing, GoodFences;
    if sectionEnd - cursor > cfg.maxChars {
      var limit := cursor + cfg.maxChars;
      var crossing := FirstCrossing(fences, cursor, limit, sectionEnd);
      if crossing.Some? {
        CrossingFacts(s, fences, cursor, limit, sectionEnd, crossing.value);
        assert crossing.value == Fence(crossing.value.start, crossing.value.end);
      } else {
        BoundaryIsGood(s, cursor, Min(cursor + cfg.minChars, limit), limit, fences, cfg);
      }
    }
  }

  /** An overlapping chunk ends past the end of the chunk it overlaps. */
  lemma EndGrows(s: string, cursor: nat, sectionEnd: nat, fences: seq<Fence>, cfg: Config)
    requires sectionEnd <= |s| && cfg.Valid() && GoodFences(s, fences) && cursor + cfg.overlapChars < sectionEnd
    requires !InsideFence(cursor, fences) && !InsideFence(sectionEnd, fences)
    requires !InsideFence(cursor + cfg.overlapChars, fences)
    requires !NextFenceNeedsCleanStart(cursor + cfg.overlapChars, cfg, fences)
    ensures var r := EndAt(s, cursor, sectionEnd, fences, cfg);
            r.Ok? && (cfg.minChars >= cfg.overlapChars ==> r.value.0 >= cursor + cfg.overlapChars) &&
            (cfg.minChars > cfg.overlapChars ==> r.value.0 > cursor + cfg.overlapChars)
  {
    EndAtIsGood(s, cursor, sectionEnd, fences, cfg);
    hide Candidates, BestBoundary, FirstCrossing;
    var limit := Min(cursor + cfg.maxChars, sectionEnd);
    var crossing := FirstCrossing(fences, cursor, limit, sectionEnd);
    if crossing.Some? {
      var k :| 0 <= k < |fences| && fences[k] == crossing.value;
      assert fences[k].start != cursor + cfg.overlapChars || fences[k].end <= limit ||
             sectionEnd - cursor <= cfg.maxChars;
    }
  }

  // ----- the chunks of a section -----

  ghost predicate GoodSpan(sec: Section, fences: seq<Fence>, cfg: Config, x: Span) {
    sec.start <= x.start < x.end <= sec.end && x.path == sec.path &&
    !InsideFence(x.start, fences) && !InsideFence(x.end, fences) &&
    (x.end - x.start > cfg.maxChars ==> Fence(x.start, x.end) in fences)
  }

  /** `b` follows `a`: it starts later, leaves no gap, and repeats nothing or exactly the overlap. */
  ghost predicate Follows(cfg: Config, a: Span, b: Span) {
    a.start < b.start <= a.end && b.index == a.index + 1 &&
    b.overlap == a.end - b.start && (b.overlap == 0 || b.overlap == cfg.overlapChars) &&
    (cfg.minChars >= cfg.overlapChars ==> a.end <= b.end) &&
    (cfg.minChars > cfg.overlapChars ==> a.end < b.end)
  }

  ghost predicate GoodChain(sec: Section, fences: seq<Fence>, cfg: Config, spans: seq<Span>) {
    spans != [] && spans[|spans| - 1].end == sec.end &&
    (forall k :: 0 <= k < |spans| ==> GoodSpan(sec, fences, cfg, spans[k])) &&
    (forall k :: 0 < k < |spans| ==> Follows(cfg, spans[k - 1], spans[k]))
  }

  lemma ChainPrepend(sec: Section, fences: seq<Fence>, cfg: Config, x: Span, rest: seq<Span>)
    requires GoodSpan(sec, fences, cfg, x) && GoodChain(sec, fences, cfg, rest) && Follows(cfg, x, rest[0])
    ensures GoodChain(sec, fences, cfg, [x] + rest)
  {
    hide GoodSpan, Follows;
    var spans := [x] + rest;
    forall k | 0 < k < |spans|
      ensures Follows(cfg, spans[k - 1], spans[k])
    {
      if k > 1 { assert Follows(cfg, rest[k - 2], rest[k - 1]); }
    }
  }

  /** Cutting from `cursor`, which a chunk ending at `cursor + overlap` handed over. */
  lemma {:induction false} ChunkFromIsGood(s: string, sec: Section, fences: seq<Fence>, cfg: Config,
                                           cursor: nat, index: nat, overlap: nat)
    requires cfg.Valid() && GoodFences(s, fences) && GoodSection(s, sec, fences)
    requires sec.start <= cursor < sec.end && !InsideFence(cursor, fences)
    requires overlap == 0 || (overlap == cfg.overlapChars && cursor + overlap < sec.end &&
               !InsideFence(cursor + overlap, fences) && !NextFenceNeedsCleanStart(cursor + overlap, cfg, fences))
    ensures var r := ChunkFrom(s, sec, fences, cfg, cursor, index, overlap);
            r.Ok? && GoodChain(sec, fences, cfg, r.value) &&
            r.value[0].start == cursor && r.value[0].index == index && r.value[0].overlap == overlap &&
            (cfg.minChars >= cfg.overlapChars ==> r.value[0].end >= cursor + overlap) &&
            (cfg.minChars > cfg.overlapChars ==> r.value[0].end > cursor + overlap)
    decreases sec.end - cursor
  {
    hide InsideFence, NextFenceNeedsCleanStart, GoodFences, EndAt;
    EndAtIsGood(s, cursor, sec.end, fences, cfg);
    if overlap > 0 { EndGrows(s, cursor, sec.end, fences, cfg); }
    var (end, suppress) := EndAt(s, cursor, sec.end, fences, cfg).value;
    var x := Span(cursor, end, sec.path, index, overlap);
    assert GoodSpan(sec, fences, cfg, x);
    if end < sec.end {
      var next := NextCursor(cursor, end, suppress, fences, cfg);
      ChunkFromIsGood(s, sec, fences, cfg, next, index + 1, end - next);
      hide GoodChain, GoodSpan;
      ChainPrepend(sec, fences, cfg, x, ChunkFrom(s, sec, fences, cfg, next, index + 1, end - next).value);
    }
  }

  // ----- the chunks of a source -----

  /** A chunk lies in one section, takes its path, and respects the fences and the size limit. */
  ghost predicate GoodPiece(secs: seq<Section>, fences: seq<Fence>, cfg: Config, x: Span) {
    exists i :: 0 <= i < |secs| && GoodSpan(secs[i], fences, cfg, x)
  }

  /** `b` comes next after `a` in the document. */
  ghost predicate Next(cfg: Config, a: Span, b: Span) {
    a.start < b.start <= a.end && b.overlap == a.end - b.start &&
    (b.overlap == 0 || b.overlap == cfg.overlapChars) && (b.index == 0 ==> b.overlap == 0) &&
    (cfg.minChars >= cfg.overlapChars ==> a.end <= b.end) &&
    (cfg.minChars > cfg.overlapChars ==> a.end < b.end)
  }

  ghost predicate GoodDocument(secs: seq<Section>, fences: seq<Fence>, cfg: Config, spans: seq<Span>, from: nat,
                               to: nat) {
    spans != [] && spans[0].start == from && spans[0].overlap == 0 && spans[0].index == 0 &&
    spans[|spans| - 1].end == to &&
    (forall k :: 0 <= k < |spans| ==> GoodPiece(secs, fences, cfg, spans[k])) &&
    (forall k :: 0 < k < |spans| ==> Next(cfg, spans[k - 1], spans[k]))
  }

  lemma ChainIsDocument(sec: Section, fences: seq<Fence>, cfg: Config, spans: seq<Span>)
    requires GoodChain(sec, fences, cfg, spans) && spans[0].start == sec.start
    requires spans[0].overlap == 0 && spans[0].index == 0
    ensures GoodDocument([sec], fences, cfg, spans, sec.start, sec.end)
  {
    hide InsideFence;
    forall k | 0 <= k < |spans|
      ensures GoodPiece([sec], fences, cfg, spans[k])
    {
      assert GoodSpan([sec][0], fences, cfg, spans[k]);
    }
    forall k | 0 < k < |spans|
      ensures Next(cfg, spans[k - 1], spans[k])
    {
      assert Follows(cfg, spans[k - 1], spans[k]);
    }
  }

  lemma JoinDocuments(sec: Section, secs: seq<Section>, fences: seq<Fence>, cfg: Config,
                      a: seq<Span>, b: seq<Span>, from: nat, mid: nat, to: nat)
    requires GoodDocument([sec], fences, cfg, a, from, mid) && GoodDocument(secs, fences, cfg, b, mid, to)
    ensures GoodDocument([sec] + secs, fences, cfg, a + b, from, to)
  {
    hide InsideFence;
    var spans := a + b;
    forall k | 0 <= k < |spans|
      ensures GoodPiece([sec] + secs, fences, cfg, spans[k])
    {
      if k < |a| {
        assert GoodPiece([sec], fences, cfg, a[k]);
        assert GoodSpan(([sec] + secs)[0], fences, cfg, spans[k]);
      } else {
        assert GoodPiece(secs, fences, cfg, b[k - |a|]);
        var i :| 0 <= i < |secs| && GoodSpan(secs[i], fences, cfg, b[k - |a|]);
        assert GoodSpan(([sec] + secs)[i + 1], fences, cfg, spans[k]);
      }
    }
    forall k | 0 < k < |spans|
      ensures Next(cfg, spans[k - 1], spans[k])
    {
      if k < |a| { assert Next(cfg, a[k - 1], a[k]); }
      else if k > |a| { assert Next(cfg, b[k - |a| - 1], b[k - |a|]); }
      else {
        assert GoodPiece(secs, fences, cfg, b[0]) && GoodPiece([sec], fences, cfg, a[|a| - 1]);
      }
    }
  }

  lemma {:induction false} ChunkAllIsGood(s: string, secs: seq<Section>, fences: seq<Fence>, cfg: Config)
    requires cfg.Valid() && GoodFences(s, fences) && secs != []
    requires forall k :: 0 <= k < |secs| ==> secs[k].end <= |s| && GoodSection(s, secs[k], fences)
    requires forall k :: 0 < k < |secs| ==> secs[k - 1].end == secs[k].start
    ensures ChunkAll(s, secs, fences, cfg).Ok?
    ensures GoodDocument(secs, fences, cfg, ChunkAll(s, secs, fences, cfg).value, secs[0].start, secs[|secs| - 1].end)
  {
    hide GoodChain, GoodFences, InsideFence;
    var sec, rest := secs[0], secs[1..];
    ChunkFromIsGood(s, sec, fences, cfg, sec.start, 0, 0);
    var spans := ChunkSectionSpec(s, sec, fences, cfg).value;
    ChainIsDocument(sec, fences, cfg, spans);
    if rest == [] {
      assert spans + [] == spans && secs == [sec];
    } else {
      ChunkAllIsGood(s, rest, fences, cfg);
      hide GoodDocument, ChunkSectionSpec;
      JoinDocuments(sec, rest, fences, cfg, spans, ChunkAll(s, rest, fences, cfg).value, sec.start, sec.end,
                    secs[|secs| - 1].end);
      assert secs == [sec] + rest;
    }
  }
}
