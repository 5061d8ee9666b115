/**
  Where a chunk ends and the next one begins, said of the text, the fences and the limits alone
  (app/ingestion/markdown_chunker.py:36-39, 409-509).
 */
module ChunkChoice {
  import opened Wrappers
  import opened PyText
  import opened MarkdownParser
  import opened Chunker
  import opened ChunkProperties
  import opened ChunkBuilder
  import MarkdownStructure

  // ----- where the four boundaries end -----

  /** Right after a newline. */
  lemma {:induction false} LineEndsAre(s: string, i: nat)
    requires i <= |s|
    ensures forall p: nat :: p in MatchEnds(Line, s, i) <==> i < p <= |s| && s[p - 1] == '\n'
    decreases |s| - i
  {
    if i < |s| {
      match MatchAt(Line, s, i)
      case None => LineEndsAre(s, i + 1);
      case Some(e) =>
        LineEndsAre(s, e);
        assert MatchEnds(Line, s, i) == [e] + MatchEnds(Line, s, e);
    }
  }

  ghost predicate SpaceStops(s: string, p: nat) {
    0 < p <= |s| && IsSpace(s[p - 1]) && (p < |s| ==> !IsSpace(s[p]))
  }

  /** Where whitespace stops. */
  lemma {:induction false} WhitespaceEndsAre(s: string, i: nat)
    requires i <= |s|
    ensures forall p: nat :: p in MatchEnds(Whitespace, s, i) <==> i < p && SpaceStops(s, p)
    decreases |s| - i
  {
    hide MatchAt, IsSpace;
    if i < |s| {
      match MatchAt(Whitespace, s, i)
      case None =>
        WhitespaceEndsAre(s, i + 1);
        assert !IsSpace(s[i]) by { NoSpaceHere(s, i); }
      case Some(e) =>
        WhitespaceEndsAre(s, e);
        SpacesUpTo(s, i, e);
        assert MatchEnds(Whitespace, s, i) == [e] + MatchEnds(Whitespace, s, e);
        forall p: nat
          ensures p in MatchEnds(Whitespace, s, i) <==> i < p && SpaceStops(s, p)
        {
          if i < p < e { assert IsSpace(s[p]); }
          assert p in MatchEnds(Whitespace, s, i) <==> p == e || p in MatchEnds(Whitespace, s, e);
        }
    }
  }

  lemma NoSpaceHere(s: string, i: nat)
    requires i < |s| && MatchAt(Whitespace, s, i).None?
    ensures !IsSpace(s[i])
  {}

  lemma SpacesUpTo(s: string, i: nat, e: nat)
    requires i < |s| && MatchAt(Whitespace, s, i) == Some(e)
    ensures i < e <= |s| && (forall k :: i <= k < e ==> IsSpace(s[k])) && (e < |s| ==> !IsSpace(s[e]))
  {}

  /** A sentence ends at `t`: closing marks up to `b`, then at least one blank, and all of them, up to `p`. */
  ghost predicate SentenceEnd(s: string, t: nat, b: nat, p: nat) {
    t < b < p <= |s| && s[t] in {'.', '!', '?', '\U{3002}', '\U{FF01}', '\U{FF1F}'} &&
    (forall k :: t < k < b ==> s[k] in {'"', '\'', ')', ']'}) &&
    (forall k :: b <= k < p ==> s[k] == ' ' || s[k] == '\t') && (p < |s| ==> s[p] != ' ' && s[p] != '\t')
  }

  lemma SentenceMatch(s: string, t: nat)
    requires t < |s|
    ensures MatchAt(Sentence, s, t).Some? ==> exists b: nat :: SentenceEnd(s, t, b, MatchAt(Sentence, s, t).value)
    ensures forall b: nat, p: nat :: SentenceEnd(s, t, b, p) ==> MatchAt(Sentence, s, t) == Some(p)
  {
    if IsTerminator(s[t]) {
      var b := RunEnd(s, t + 1, IsCloser);
      var c := RunEnd(s, b, IsBlank);
      if b < c { assert SentenceEnd(s, t, b, c); }
      forall b': nat, p: nat | SentenceEnd(s, t, b', p)
        ensures b' == b && p == c
      {
        assert b' < |s| && !IsCloser(s[b']);
      }
    }
  }

  /** After a terminator, closing marks and all the blanks that follow. */
  lemma {:induction false} SentenceEndsAre(s: string, i: nat)
    requires i <= |s|
    ensures forall p: nat :: p in MatchEnds(Sentence, s, i) <==> SentenceEndsAt(s, i, p)
    decreases |s| - i
  {
    hide MatchAt, SentenceEndsAt;
    if i < |s| {
      match MatchAt(Sentence, s, i)
      case None =>
        SentenceEndsAre(s, i + 1);
        NoSentence(s, i);
      case Some(e) =>
        SentenceEndsAre(s, e);
        assert MatchEnds(Sentence, s, i) == [e] + MatchEnds(Sentence, s, e);
        OneSentence(s, i, e);
    } else {
      NoText(s, i);
    }
  }

  /** A sentence with its terminator at `i` or later ends at `p`. */
  ghost predicate SentenceEndsAt(s: string, i: nat, p: nat) {
    exists t: nat, b: nat :: i <= t && SentenceEnd(s, t, b, p)
  }

  lemma NoText(s: string, i: nat)
    requires i >= |s|
    ensures forall p: nat :: !SentenceEndsAt(s, i, p)
  {}

  lemma NoSentence(s: string, i: nat)
    requires i < |s| && MatchAt(Sentence, s, i).None?
    ensures forall p: nat :: SentenceEndsAt(s, i, p) <==> SentenceEndsAt(s, i + 1, p)
  {
    SentenceMatch(s, i);
    hide MatchAt, SentenceEnd;
    forall p: nat
      ensures SentenceEndsAt(s, i, p) <==> SentenceEndsAt(s, i + 1, p)
    {
      if SentenceEndsAt(s, i, p) {
        var t: nat, b: nat :| i <= t && SentenceEnd(s, t, b, p);
        assert i + 1 <= t && SentenceEnd(s, t, b, p);
      }
    }
  }

  /** No sentence ends between the end of one and its terminator. */
  lemma OneSentence(s: string, i: nat, e: nat)
    requires i < |s| && MatchAt(Sentence, s, i) == Some(e)
    ensures forall p: nat :: SentenceEndsAt(s, i, p) <==> p == e || SentenceEndsAt(s, e, p)
  {
    SentenceMatch(s, i);
    hide MatchAt;
    var b: nat :| SentenceEnd(s, i, b, e);
    forall p: nat
      ensures SentenceEndsAt(s, i, p) <==> p == e || SentenceEndsAt(s, e, p)
    {
      if SentenceEndsAt(s, i, p) && p != e {
        var t: nat, c: nat :| i <= t && SentenceEnd(s, t, c, p);
        NoTerminatorWithin(s, i, b, e, t);
        assert e <= t && SentenceEnd(s, t, c, p);
      }
    }
  }

  lemma NoTerminatorWithin(s: string, i: nat, b: nat, e: nat, t: nat)
    requires SentenceEnd(s, i, b, e) && i <= t < |s| && IsTerminator(s[t])
    ensures t == i || e <= t
  {}

  /** A newline at `i` up to `b`, blanks up to `c`, and a newline up to `p`; a carriage return may precede a newline. */
  ghost predicate ParagraphEnd(s: string, i: nat, b: nat, c: nat, p: nat) {
    i < b <= c < p <= |s| && NewlineSpan(s, i, b) && (forall k :: b <= k < c ==> s[k] == ' ' || s[k] == '\t') &&
    NewlineSpan(s, c, p)
  }

  ghost predicate NewlineSpan(s: string, i: nat, b: nat) {
    i < b <= |s| && s[b - 1] == '\n' && (b == i + 1 || (b == i + 2 && s[i] == '\r'))
  }

  ghost predicate ParagraphEndsAt(s: string, i: nat, p: nat) {
    exists b: nat, c: nat :: ParagraphEnd(s, i, b, c, p)
  }

  lemma NewlineIs(s: string, i: nat, b: nat)
    requires i <= |s|
    ensures NewlineSpan(s, i, b) <==> NewlineAt(s, i) > 0 && b == i + NewlineAt(s, i)
  {}

  lemma ParagraphMatch(s: string, i: nat)
    requires i < |s|
    ensures MatchAt(Paragraph, s, i).Some? ==> ParagraphEndsAt(s, i, MatchAt(Paragraph, s, i).value)
    ensures forall b: nat, c: nat, p: nat :: ParagraphEnd(s, i, b, c, p) ==> MatchAt(Paragraph, s, i) == Some(p)
  {
    hide NewlineAt, NewlineSpan;
    var a := NewlineAt(s, i);
    NewlineIs(s, i, i + a);
    if a > 0 {
      var c := RunEnd(s, i + a, IsBlank);
      NewlineIs(s, c, c + NewlineAt(s, c));
      if NewlineAt(s, c) > 0 { assert ParagraphEnd(s, i, i + a, c, c + NewlineAt(s, c)); }
    }
    forall b: nat, c: nat, p: nat | ParagraphEnd(s, i, b, c, p)
      ensures MatchAt(Paragraph, s, i) == Some(p)
    {
      NewlineIs(s, i, b);
      NewlineIs(s, c, p);
      assert !IsBlank(s[c]) by { NewlineStarts(s, c, p); }
      assert RunEnd(s, b, IsBlank) == c;
    }
  }

  lemma NewlineStarts(s: string, i: nat, b: nat)
    requires NewlineSpan(s, i, b)
    ensures s[i] == '\r' || s[i] == '\n'
  {}

  /** Every paragraph end found is one, and no pair of newlines passes without one found by its end. */
  lemma {:induction false} ParagraphEndsAre(s: string, i: nat)
    requires i <= |s|
    ensures forall p :: p in MatchEnds(Paragraph, s, i) ==> exists j: nat :: i <= j && ParagraphEndsAt(s, j, p)
    ensures forall j: nat, p: nat :: i <= j && ParagraphEndsAt(s, j, p) ==> FoundBy(s, i, j, p)
    decreases |s| - i
  {
    hide MatchAt, ParagraphEnd;
    if i < |s| {
      ParagraphMatch(s, i);
      match MatchAt(Paragraph, s, i)
      case None =>
        ParagraphEndsAre(s, i + 1);
        forall j: nat, p: nat | i <= j && ParagraphEndsAt(s, j, p)
          ensures FoundBy(s, i, j, p)
        {
          assert j != i && FoundBy(s, i + 1, j, p);
          var x: nat :| x in MatchEnds(Paragraph, s, i + 1) && j < x <= p;
          assert x in MatchEnds(Paragraph, s, i);
        }
      case Some(e) =>
        ParagraphEndsAre(s, e);
        assert MatchEnds(Paragraph, s, i) == [e] + MatchEnds(Paragraph, s, e);
        forall j: nat, p: nat | i <= j && ParagraphEndsAt(s, j, p)
          ensures FoundBy(s, i, j, p)
        {
          if j < e {
            ParagraphsOverlap(s, i, e, j, p);
            assert e in MatchEnds(Paragraph, s, i);
          } else {
            assert FoundBy(s, e, j, p);
            var x: nat :| x in MatchEnds(Paragraph, s, e) && j < x <= p;
            assert x in MatchEnds(Paragraph, s, i);
          }
        }
    } else {
      NoParagraphHere(s, i);
    }
  }

  ghost predicate FoundBy(s: string, i: nat, j: nat, p: nat)
    requires i <= |s|
  {
    exists e: nat :: e in MatchEnds(Paragraph, s, i) && j < e <= p
  }

  lemma NoParagraphHere(s: string, i: nat)
    requires i >= |s|
    ensures forall j: nat, p: nat :: i <= j ==> !ParagraphEndsAt(s, j, p)
  {}

  lemma ParagraphsOverlap(s: string, i: nat, e: nat, j: nat, p: nat)
    requires ParagraphEndsAt(s, i, e) && i <= j < e && ParagraphEndsAt(s, j, p)
    ensures e <= p
  {}

  // ----- the end of a chunk -----

  /** `p` is a usable end of the kind: in the window, in no fence, and after a boundary of that kind. */
  ghost predicate UsableEnd(kind: Pattern, s: string, cursor: nat, lower: nat, limit: nat, fences: seq<Fence>, p: nat)
    requires cursor <= limit <= |s|
  {
    lower <= p <= limit && !InsideFence(p, fences) &&
    exists k: nat :: k in MatchEnds(kind, s[cursor..limit], 0) && cursor + k == p
  }

  ghost predicate NoneUsable(kind: Pattern, s: string, cursor: nat, lower: nat, limit: nat, fences: seq<Fence>)
    requires cursor <= limit <= |s|
  {
    forall p: nat :: !UsableEnd(kind, s, cursor, lower, limit, fences, p)
  }

  ghost predicate LastUsable(kind: Pattern, s: string, cursor: nat, lower: nat, limit: nat, fences: seq<Fence>, e: nat)
    requires cursor <= limit <= |s|
  {
    UsableEnd(kind, s, cursor, lower, limit, fences, e) &&
    forall p: nat :: UsableEnd(kind, s, cursor, lower, limit, fences, p) ==> p <= e
  }

  /**
    The last usable paragraph end; without one the last line end, then sentence end, then whitespace
    end; else the limit.
   */
  ghost predicate EndsBest(s: string, cursor: nat, lower: nat, limit: nat, fences: seq<Fence>, e: nat)
    requires cursor <= limit <= |s|
  {
    if !NoneUsable(Paragraph, s, cursor, lower, limit, fences)
    then LastUsable(Paragraph, s, cursor, lower, limit, fences, e)
    else if !NoneUsable(Line, s, cursor, lower, limit, fences)
    then LastUsable(Line, s, cursor, lower, limit, fences, e)
    else if !NoneUsable(Sentence, s, cursor, lower, limit, fences)
    then LastUsable(Sentence, s, cursor, lower, limit, fences, e)
    else if !NoneUsable(Whitespace, s, cursor, lower, limit, fences)
    then LastUsable(Whitespace, s, cursor, lower, limit, fences, e)
    else e == limit
  }

  lemma CandidatesAreUsable(kind: Pattern, s: string, cursor: nat, lower: nat, limit: nat, fences: seq<Fence>)
    requires cursor <= limit <= |s|
    ensures forall p: nat :: p in Candidates(kind, s, cursor, lower, limit, fences) <==>
      UsableEnd(kind, s, cursor, lower, limit, fences, p)
    ensures Candidates(kind, s, cursor, lower, limit, fences) == [] <==>
      NoneUsable(kind, s, cursor, lower, limit, fences)
  {
    hide MatchEnds, InsideFence;
    var ends := MatchEnds(kind, s[cursor..limit], 0);
    var ps := Candidates(kind, s, cursor, lower, limit, fences);
    forall p: nat
      ensures p in ps <==> UsableEnd(kind, s, cursor, lower, limit, fences, p)
    {
      if UsableEnd(kind, s, cursor, lower, limit, fences, p) {
        var k: nat :| k in ends && cursor + k == p;
        var i :| 0 <= i < |ends| && ends[i] == k;
      }
      if p in ps {
        var i :| 0 <= i < |ends| && cursor + ends[i] == p;
        assert ends[i] in ends;
      }
    }
    if ps != [] { assert ps[0] in ps; }
  }

  /** Trying the kinds in turn. */
  lemma FirstKind(kind: Pattern, rest: seq<Pattern>, s: string, cursor: nat, lower: nat, limit: nat, fences: seq<Fence>)
    requires cursor <= limit <= |s|
    ensures var best := BestBoundary([kind] + rest, s, cursor, lower, limit, fences);
            if NoneUsable(kind, s, cursor, lower, limit, fences)
            then best == BestBoundary(rest, s, cursor, lower, limit, fences)
            else best.Some? && LastUsable(kind, s, cursor, lower, limit, fences, best.value)
  {
    CandidatesAreUsable(kind, s, cursor, lower, limit, fences);
    hide Candidates, NoneUsable, UsableEnd, InsideFence;
    assert ([kind] + rest)[1..] == rest;
  }

  /** What the search finds, kind by kind. */
  lemma BestIs(s: string, cursor: nat, lower: nat, limit: nat, fences: seq<Fence>)
    requires cursor <= limit <= |s|
    ensures var best := BestBoundary(PATTERNS, s, cursor, lower, limit, fences);
            EndsBest(s, cursor, lower, limit, fences, if best.Some? then best.value else limit)
    ensures BestBoundary(PATTERNS, s, cursor, lower, limit, fences).None? <==>
      NoneUsable(Paragraph, s, cursor, lower, limit, fences) && NoneUsable(Line, s, cursor, lower, limit, fences) &&
      NoneUsable(Sentence, s, cursor, lower, limit, fences) && NoneUsable(Whitespace, s, cursor, lower, limit, fences)
  {
    hide BestBoundary, NoneUsable, LastUsable;
    var last: seq<Pattern> := [];
    assert BestBoundary(last, s, cursor, lower, limit, fences).None? by { NoKinds(s, cursor, lower, limit, fences); }
    FirstKind(Whitespace, [], s, cursor, lower, limit, fences);
    assert [Whitespace] + last == [Whitespace];
    FirstKind(Sentence, [Whitespace], s, cursor, lower, limit, fences);
    assert [Sentence] + [Whitespace] == [Sentence, Whitespace];
    FirstKind(Line, [Sentence, Whitespace], s, cursor, lower, limit, fences);
    assert [Line] + [Sentence, Whitespace] == [Line, Sentence, Whitespace];
    FirstKind(Paragraph, [Line, Sentence, Whitespace], s, cursor, lower, limit, fences);
    assert [Paragraph] + [Line, Sentence, Whitespace] == PATTERNS;
  }

  lemma NoKinds(s: string, cursor: nat, lower: nat, limit: nat, fences: seq<Fence>)
    requires cursor <= limit <= |s|
    ensures BestBoundary([], s, cursor, lower, limit, fences).None?
  {}

  /** A fence crosses the limit. */
  ghost predicate Crosses(f: Fence, limit: nat) { f.start < limit < f.end }

  /** A fence begins at `end` and, with the overlap before it, would not fit a chunk. */
  ghost predicate LongFenceAt(fences: seq<Fence>, cfg: Config, end: nat) {
    exists f :: f in fences && f.start == end && f.end - f.start + cfg.overlapChars > cfg.maxChars
  }

  lemma {:induction false} CrossingFound(fences: seq<Fence>, cursor: nat, limit: nat, sectionEnd: nat, f: Fence)
    requires f in fences && Crosses(f, limit) && cursor < limit <= sectionEnd
    requires forall g :: g in fences && Crosses(g, limit) ==> g == f
    ensures FirstCrossing(fences, cursor, limit, sectionEnd) == Some(f)
  {
    if fences[0] != f {
      assert f in fences[1..] && fences[0] in fences;
      CrossingFound(fences[1..], cursor, limit, sectionEnd, f);
    } else {
      assert fences[0].end > cursor && fences[0].start < sectionEnd;
    }
  }

  lemma OneCrosses(s: string, fences: seq<Fence>, limit: nat, f: Fence)
    requires GoodFences(s, fences) && f in fences && Crosses(f, limit)
    ensures forall g :: g in fences && Crosses(g, limit) ==> g == f
  {
    hide IsSpace;
    forall g | g in fences && Crosses(g, limit)
      ensures g == f
    {
      var i :| 0 <= i < |fences| && fences[i] == f;
      var j :| 0 <= j < |fences| && fences[j] == g;
    }
  }

  /** A rest that fits is one chunk. */
  lemma RestFits(s: string, cursor: nat, sectionEnd: nat, fences: seq<Fence>, cfg: Config)
    requires cursor < sectionEnd <= |s| && cfg.Valid() && sectionEnd - cursor <= cfg.maxChars
    ensures EndAt(s, cursor, sectionEnd, fences, cfg) == Ok((sectionEnd, false))
  {}

  /**
    Where a fence crosses the limit, the chunk stops before it and the next one begins right there; a
    chunk that begins with such a fence is the whole fence.
   */
  lemma StopsAtFence(s: string, cursor: nat, sectionEnd: nat, fences: seq<Fence>, cfg: Config, f: Fence)
    requires cursor + cfg.maxChars < sectionEnd <= |s| && cfg.Valid() && GoodFences(s, fences)
    requires !InsideFence(cursor, fences) && !InsideFence(sectionEnd, fences)
    requires f in fences && Crosses(f, cursor + cfg.maxChars)
    ensures f.start >= cursor && f.end <= sectionEnd
    ensures EndAt(s, cursor, sectionEnd, fences, cfg) == Ok((if f.start > cursor then f.start else f.end, true))
  {
    hide BestBoundary, InsideFence, GoodFences, FirstCrossing;
    OneCrosses(s, fences, cursor + cfg.maxChars, f);
    CrossingFound(fences, cursor, cursor + cfg.maxChars, sectionEnd, f);
    CrossingFacts(s, fences, cursor, cursor + cfg.maxChars, sectionEnd, f);
  }

  /**
    Where no fence crosses the limit, the chunk ends at the best boundary, and overlap is forbidden
    exactly when a fence begins there that would not fit with it.
   */
  lemma EndsAtBoundary(s: string, cursor: nat, sectionEnd: nat, fences: seq<Fence>, cfg: Config)
    requires cursor + cfg.maxChars < sectionEnd <= |s| && cfg.Valid() && GoodFences(s, fences)
    requires forall f :: f in fences ==> !Crosses(f, cursor + cfg.maxChars)
    ensures var r := EndAt(s, cursor, sectionEnd, fences, cfg);
            r.Ok? && (r.value.1 <==> LongFenceAt(fences, cfg, r.value.0)) &&
            EndsBest(s, cursor, cursor + cfg.minChars, cursor + cfg.maxChars, fences, r.value.0)
  {
    hide BestBoundary, EndsBest, Candidates, GoodFences, NoneUsable;
    var limit := cursor + cfg.maxChars;
    var crossing := FirstCrossing(fences, cursor, limit, sectionEnd);
    assert crossing.None? && !InsideFence(limit, fences);
    var lower := Min(cursor + cfg.minChars, limit);
    assert lower == cursor + cfg.minChars;
    var best := BestBoundary(PATTERNS, s, cursor, lower, limit, fences);
    BestIs(s, cursor, lower, limit, fences);
    BoundaryIsGood(s, cursor, lower, limit, fences, cfg);
    LongFence(fences, cfg, if best.Some? then best.value else limit);
    hide InsideFence, NextFenceNeedsCleanStart, LongFenceAt, FirstCrossing;
  }

  lemma LongFence(fences: seq<Fence>, cfg: Config, end: nat)
    ensures NextFenceNeedsCleanStart(end, cfg, fences) <==> LongFenceAt(fences, cfg, end)
  {
    if LongFenceAt(fences, cfg, end) {
      var f :| f in fences && f.start == end && f.end - f.start + cfg.overlapChars > cfg.maxChars;
      var k :| 0 <= k < |fences| && fences[k] == f;
    }
    if NextFenceNeedsCleanStart(end, cfg, fences) {
      var k :| 0 <= k < |fences| && fences[k].start == end && fences[k].end - (end - cfg.overlapChars) > cfg.maxChars;
      assert fences[k] in fences;
    }
  }

  // ----- chunk after chunk -----

  /** Chunk `x`, of section `sec`, is cut as the text and the fences say. */
  ghost predicate WellCut(s: string, sec: Section, fences: seq<Fence>, cfg: Config, x: Span)
    requires cfg.Valid()
  {
    x.start < x.end <= sec.end <= |s| &&
    if sec.end - x.start <= cfg.maxChars then x.end == sec.end
    else if exists f :: f in fences && Crosses(f, x.start + cfg.maxChars)
    then exists f :: f in fences && Crosses(f, x.start + cfg.maxChars) &&
           x.end == if f.start > x.start then f.start else f.end
    else EndsBest(s, x.start, x.start + cfg.minChars, x.start + cfg.maxChars, fences, x.end)
  }

  /** Overlap before the next chunk is forbidden: a fence crossed the limit, or a long one begins at the end. */
  ghost predicate NoOverlapAfter(fences: seq<Fence>, cfg: Config, x: Span)
    requires cfg.Valid()
  {
    (exists f :: f in fences && Crosses(f, x.start + cfg.maxChars)) || LongFenceAt(fences, cfg, x.end)
  }

  /**
    Where the next chunk of the section begins: back over the overlap, unless that is forbidden, no
    progress, or in a fence.
   */
  ghost predicate WellContinued(fences: seq<Fence>, cfg: Config, x: Span, y: Span)
    requires cfg.Valid()
  {
    var back := x.end - cfg.overlapChars;
    y.start == if !NoOverlapAfter(fences, cfg, x) && back > x.start && !InsideFence(back, fences) then back else x.end
  }

  /** One cut. */
  lemma OneCut(s: string, sec: Section, fences: seq<Fence>, cfg: Config, x: Span)
    requires cfg.Valid() && GoodFences(s, fences) && GoodSection(s, sec, fences)
    requires sec.start <= x.start < sec.end && !InsideFence(x.start, fences)
    requires EndAt(s, x.start, sec.end, fences, cfg).Ok? && x.end == EndAt(s, x.start, sec.end, fences, cfg).value.0
    ensures WellCut(s, sec, fences, cfg, x)
    ensures x.end < sec.end ==> (EndAt(s, x.start, sec.end, fences, cfg).value.1 <==> NoOverlapAfter(fences, cfg, x))
  {
    hide EndAt, InsideFence, GoodFences, EndsBest, LongFenceAt;
    EndAtIsGood(s, x.start, sec.end, fences, cfg);
    var limit := x.start + cfg.maxChars;
    if sec.end - x.start <= cfg.maxChars {
      RestFits(s, x.start, sec.end, fences, cfg);
    } else if exists f :: f in fences && Crosses(f, limit) {
      var f :| f in fences && Crosses(f, limit);
      StopsAtFence(s, x.start, sec.end, fences, cfg, f);
    } else {
      EndsAtBoundary(s, x.start, sec.end, fences, cfg);
    }
  }

  ghost predicate InSection(s: string, sec: Section, fences: seq<Fence>, cfg: Config, x: Span)
    requires cfg.Valid()
  {
    sec.start <= x.start && x.path == sec.path && WellCut(s, sec, fences, cfg, x)
  }

  /** Every chunk of a section is well cut, and continued as it should be. */
  ghost predicate CutChain(s: string, sec: Section, fences: seq<Fence>, cfg: Config, spans: seq<Span>)
    requires cfg.Valid()
  {
    spans != [] && spans[|spans| - 1].end == sec.end &&
    (forall k :: 0 <= k < |spans| ==> InSection(s, sec, fences, cfg, spans[k])) &&
    (forall k :: 0 < k < |spans| ==> GoesOn(sec, fences, cfg, spans[k - 1], spans[k]))
  }

  ghost predicate GoesOn(sec: Section, fences: seq<Fence>, cfg: Config, x: Span, y: Span)
    requires cfg.Valid()
  {
    x.end < sec.end && WellContinued(fences, cfg, x, y)
  }

  lemma CutPrepend(s: string, sec: Section, fences: seq<Fence>, cfg: Config, x: Span, rest: seq<Span>)
    requires cfg.Valid() && CutChain(s, sec, fences, cfg, rest) && InSection(s, sec, fences, cfg, x)
    requires GoesOn(sec, fences, cfg, x, rest[0])
    ensures CutChain(s, sec, fences, cfg, [x] + rest)
  {
    hide InSection, GoesOn;
    var spans := [x] + rest;
    forall k | 0 < k < |spans|
      ensures GoesOn(sec, fences, cfg, spans[k - 1], spans[k])
    {
      if k > 1 { assert GoesOn(sec, fences, cfg, rest[k - 2], rest[k - 1]); }
    }
  }

  lemma {:induction false} ChunkFromIsCut(s: string, sec: Section, fences: seq<Fence>, cfg: Config, cursor: nat,
                                          index: nat, overlap: nat)
    requires cfg.Valid() && GoodFences(s, fences) && GoodSection(s, sec, fences)
    requires sec.start <= cursor < sec.end && !InsideFence(cursor, fences)
    ensures var r := ChunkFrom(s, sec, fences, cfg, cursor, index, overlap);
            r.Ok? && CutChain(s, sec, fences, cfg, r.value) && r.value[0].start == cursor
    decreases sec.end - cursor
  {
    hide InsideFence, GoodFences, EndAt, WellCut, NoOverlapAfter;
    EndAtIsGood(s, cursor, sec.end, fences, cfg);
    var (end, suppress) := EndAt(s, cursor, sec.end, fences, cfg).value;
    var x := Span(cursor, end, sec.path, index, overlap);
    OneCut(s, sec, fences, cfg, x);
    if end < sec.end {
      var next := NextCursor(cursor, end, suppress, fences, cfg);
      ChunkFromIsCut(s, sec, fences, cfg, next, index + 1, end - next);
      hide CutChain;
      var rest := ChunkFrom(s, sec, fences, cfg, next, index + 1, end - next).value;
      assert rest != [] && WellContinued(fences, cfg, x, rest[0]) by { ChainStarts(s, sec, fences, cfg, rest); }
      CutPrepend(s, sec, fences, cfg, x, rest);
    }
  }

  lemma ChainStarts(s: string, sec: Section, fences: seq<Fence>, cfg: Config, spans: seq<Span>)
    requires cfg.Valid() && CutChain(s, sec, fences, cfg, spans)
    ensures spans != []
  {}

  /** Chunk `x` is cut within section `sec`, and the chunk after it begins where it should. */
  ghost predicate CutIn(s: string, sec: Section, fences: seq<Fence>, cfg: Config, x: Span, next: Option<Span>)
    requires cfg.Valid()
  {
    InSection(s, sec, fences, cfg, x) &&
    (next.Some? ==>
       if x.end < sec.end then WellContinued(fences, cfg, x, next.value) else next.value.start == x.end)
  }

  function NextOf(spans: seq<Span>, k: nat): Option<Span> {
    if k + 1 < |spans| then Some(spans[k + 1]) else None
  }

  /** Every chunk of a source is cut within one of its sections. */
  ghost predicate CutDocument(s: string, secs: seq<Section>, fences: seq<Fence>, cfg: Config, spans: seq<Span>)
    requires cfg.Valid()
  {
    spans != [] && secs != [] && spans[0].start == secs[0].start &&
    forall k :: 0 <= k < |spans| ==> CutSomewhere(s, secs, fences, cfg, spans, k)
  }

  ghost predicate CutSomewhere(s: string, secs: seq<Section>, fences: seq<Fence>, cfg: Config, spans: seq<Span>, k: nat)
    requires cfg.Valid() && k < |spans|
  {
    exists i :: 0 <= i < |secs| && CutIn(s, secs[i], fences, cfg, spans[k], NextOf(spans, k))
  }

  lemma ChainIsCut(s: string, sec: Section, fences: seq<Fence>, cfg: Config, spans: seq<Span>, k: nat)
    requires cfg.Valid() && CutChain(s, sec, fences, cfg, spans) && k < |spans|
    ensures CutIn(s, sec, fences, cfg, spans[k], NextOf(spans, k)) && (k + 1 == |spans| ==> spans[k].end == sec.end)
  {
    hide InSection, WellContinued;
    if k + 1 < |spans| { assert GoesOn(sec, fences, cfg, spans[k], spans[k + 1]); }
  }

  /** The last chunk of a section is followed by the first of the next. */
  lemma LastThenFirst(s: string, sec: Section, fences: seq<Fence>, cfg: Config, x: Span, y: Span)
    requires cfg.Valid() && CutIn(s, sec, fences, cfg, x, None) && x.end == sec.end && y.start == sec.end
    ensures CutIn(s, sec, fences, cfg, x, Some(y))
  {
    hide WellCut, WellContinued;
  }

  lemma JoinCut(s: string, sec: Section, secs: seq<Section>, fences: seq<Fence>, cfg: Config, a: seq<Span>,
                b: seq<Span>)
    requires cfg.Valid() && CutChain(s, sec, fences, cfg, a) && a[0].start == sec.start
    requires CutDocument(s, secs, fences, cfg, b) && secs[0].start == sec.end
    ensures CutDocument(s, [sec] + secs, fences, cfg, a + b)
  {
    hide CutIn, InSection, WellContinued;
    var spans, all := a + b, [sec] + secs;
    forall k | 0 <= k < |spans|
      ensures CutSomewhere(s, all, fences, cfg, spans, k)
    {
      if k < |a| {
        ChainIsCut(s, sec, fences, cfg, a, k);
        if k + 1 == |a| { LastThenFirst(s, sec, fences, cfg, a[k], b[0]); }
        assert CutIn(s, all[0], fences, cfg, spans[k], NextOf(spans, k));
      } else {
        assert CutSomewhere(s, secs, fences, cfg, b, k - |a|);
        var i :| 0 <= i < |secs| && CutIn(s, secs[i], fences, cfg, b[k - |a|], NextOf(b, k - |a|));
        assert NextOf(b, k - |a|) == NextOf(spans, k);
        assert CutIn(s, all[i + 1], fences, cfg, spans[k], NextOf(spans, k));
      }
    }
  }

  lemma ChainIsDocument(s: string, sec: Section, fences: seq<Fence>, cfg: Config, spans: seq<Span>)
    requires cfg.Valid() && CutChain(s, sec, fences, cfg, spans) && spans[0].start == sec.start
    ensures CutDocument(s, [sec], fences, cfg, spans)
  {
    hide CutIn, CutChain;
    ChainStarts(s, sec, fences, cfg, spans);
    forall k | 0 <= k < |spans|
      ensures CutSomewhere(s, [sec], fences, cfg, spans, k)
    {
      ChainIsCut(s, sec, fences, cfg, spans, k);
      assert CutIn(s, [sec][0], fences, cfg, spans[k], NextOf(spans, k));
    }
  }

  lemma {:induction false} ChunkAllIsCut(s: string, secs: seq<Section>, fences: seq<Fence>, cfg: Config)
    requires cfg.Valid() && GoodFences(s, fences) && secs != []
    requires forall k :: 0 <= k < |secs| ==> secs[k].end <= |s| && GoodSection(s, secs[k], fences)
    requires forall k :: 0 < k < |secs| ==> secs[k - 1].end == secs[k].start
    ensures ChunkAll(s, secs, fences, cfg).Ok?
    ensures CutDocument(s, secs, fences, cfg, ChunkAll(s, secs, fences, cfg).value)
  {
    hide GoodFences, InsideFence, CutChain, CutDocument, ChunkFrom;
    var sec, rest := secs[0], secs[1..];
    ChunkFromIsCut(s, sec, fences, cfg, sec.start, 0, 0);
    var spans := ChunkSectionSpec(s, sec, fences, cfg).value;
    if rest == [] {
      ChainIsDocument(s, sec, fences, cfg, spans);
      assert spans + [] == spans && secs == [sec];
    } else {
      ChunkAllIsCut(s, rest, fences, cfg);
      JoinCut(s, sec, rest, fences, cfg, spans, ChunkAll(s, rest, fences, cfg).value);
      assert secs == [sec] + rest;
    }
  }

  /**
    Every chunk of every build: the rest of its section if that fits; up to a fence that crosses the
    limit, or that fence alone; or up to the best boundary. The next chunk begins the overlap before
    its end, or right at its end where a fence crossed, a long fence begins, the step back makes no
    progress or falls into a fence, or the section is over.
   */
  lemma BuiltIsCut(s: string, cfg: Config, k: nat)
    requires cfg.Valid() && Parse(s).Ok? && SpansOf(s, cfg).Ok? && k < |SpansOf(s, cfg).value|
    ensures CutSomewhere(s, Parse(s).value.sections, Parse(s).value.fences, cfg, SpansOf(s, cfg).value, k)
  {
    hide Parse, ChunkAll, GoodFences, InsideFence, CutSomewhere;
    NotEmpty(s);
    ParsedIsGood(s);
    ChunkAllIsCut(s, Parse(s).value.sections, Parse(s).value.fences, cfg);
  }

  lemma NotEmpty(s: string)
    requires Parse(s).Ok?
    ensures s != []
  {}
}
