/**
  Where the chunker's promises end. Reconstruction holds for every source exactly when
  `minChars >= overlapChars`, rising chunk ends exactly when `minChars > overlapChars`, and
  under every configuration some source builds chunks that the audit then rejects
  (app/ingestion/markdown_chunker.py:263-277, 409-509, 711-712).
 */
module ChunkLimits {
  import opened Wrappers
  import opened PyText
  import opened MarkdownParser
  import opened Chunker
  import opened ChunkBuilder
  import opened ChunkAudit
  import MarkdownStructure

  // ----- sources without structure -----

  /** No line of `s` opens a fence or is a heading. */
  ghost predicate Unstructured(s: string) {
    s != [] && forall p :: 0 <= p < |s| && IsLineStart(s, p) ==>
      FenceOpen(LogicalLine(s, p)).None? && HeadingOf(LogicalLine(s, p)).None?
  }

  lemma UnstructuredParses(s: string)
    requires Unstructured(s)
    ensures Parse(s) == Ok(Parsed([Section(0, |s|, [])], []))
  {
    hide LogicalLine, FenceOpen, HeadingOf, Parse;
    var secs := [Section(0, |s|, [])];
    assert MarkdownStructure.SectionsOf(s, [], secs) by {
      assert MarkdownStructure.PathAt(s, [], 0) == [];
    }
    MarkdownStructure.ParseCharacterized(s, secs, []);
  }

  /** A text with no backtick, tilde or hash has no structure. */
  lemma PlainIsUnstructured(s: string)
    requires s != [] && forall k :: 0 <= k < |s| ==> s[k] != '`' && s[k] != '~' && s[k] != '#'
    ensures Unstructured(s)
  {
    forall p | 0 <= p < |s|
      ensures FenceOpen(LogicalLine(s, p)).None? && HeadingOf(LogicalLine(s, p)).None?
    {
      var line := LogicalLine(s, p);
      assert line <= s[p..LineEnd(s, p)];
      assert forall k :: 0 <= k < |line| ==> line[k] == s[p + k];
    }
  }

  lemma {:induction false} OneLine(s: string, i: nat)
    requires i < |s| && forall k :: 0 <= k < |s| ==> !IsLineBreak(s[k])
    ensures LineEnd(s, i) == |s|
    decreases |s| - i
  {
    if i + 1 < |s| { OneLine(s, i + 1); }
  }

  // ----- boundary matches in chosen texts -----

  lemma MatchEndsInSpace(p: Pattern, s: string, i: nat)
    requires i < |s| && MatchAt(p, s, i).Some?
    ensures IsSpace(s[MatchAt(p, s, i).value - 1])
  {}

  /** Every match of every pattern ends with whitespace. */
  lemma {:induction false} MatchesEndInSpace(p: Pattern, s: string, i: nat)
    requires i <= |s|
    ensures forall k :: 0 <= k < |MatchEnds(p, s, i)| ==> IsSpace(s[MatchEnds(p, s, i)[k] - 1])
    decreases |s| - i
  {
    hide MatchAt;
    if i < |s| {
      match MatchAt(p, s, i)
      case None => MatchesEndInSpace(p, s, i + 1);
      case Some(e) =>
        MatchEndsInSpace(p, s, i);
        MatchesEndInSpace(p, s, e);
    }
  }

  /** A run of whitespace that stops at `j` gives a whitespace match that ends there. */
  lemma {:induction false} WhitespaceRunEnds(s: string, i: nat, j: nat)
    requires i < j < |s| && IsSpace(s[j - 1]) && !IsSpace(s[j])
    ensures j in MatchEnds(Whitespace, s, i)
    decreases j - i
  {
    match MatchAt(Whitespace, s, i)
    case None => WhitespaceRunEnds(s, i + 1, j);
    case Some(e) =>
      if e < j { WhitespaceRunEnds(s, e, j); }
  }

  lemma {:induction false} SkipNoNewline(s: string, i: nat, j: nat)
    requires i <= j <= |s| && forall k :: i <= k < j ==> NewlineAt(s, k) == 0
    ensures MatchEnds(Paragraph, s, i) == MatchEnds(Paragraph, s, j)
    decreases j - i
  {
    if i < j { SkipNoNewline(s, i + 1, j); }
  }

  // ----- a source that overlap steps back over -----

  /** Two newlines, `overlapChars - 3` spaces, two newlines, then letters: `maxChars + 2` characters. */
  function Tricky(cfg: Config): (t: string)
    requires cfg.Valid()
    ensures |t| == cfg.maxChars + 2
  {
    seq(cfg.maxChars + 2, i =>
      if i < 2 then '\n' else if i < cfg.overlapChars - 1 then ' ' else if i <= cfg.overlapChars then '\n' else 'a')
  }

  lemma TrickyParses(cfg: Config)
    requires cfg.Valid()
    ensures Parse(Tricky(cfg)) == Ok(Parsed([Section(0, cfg.maxChars + 2, [])], []))
  {
    PlainIsUnstructured(Tricky(cfg));
    UnstructuredParses(Tricky(cfg));
  }

  /** Newline, blanks, newline: a paragraph boundary. */
  lemma ParagraphMatch(s: string, i: nat, b: nat)
    requires i < b < |s| && s[i] == '\n' && s[b] == '\n' && forall k :: i < k < b ==> IsBlank(s[k])
    ensures MatchEnds(Paragraph, s, i) == [b + 1] + MatchEnds(Paragraph, s, b + 1)
  {
    hide MatchEnds;
    assert RunEnd(s, i + 1, IsBlank) == b;
    assert MatchAt(Paragraph, s, i) == Some(b + 1);
    UnfoldMatch(s, i, b + 1);
  }

  lemma UnfoldMatch(s: string, i: nat, e: nat)
    requires i < |s| && MatchAt(Paragraph, s, i) == Some(e)
    ensures e <= |s| && MatchEnds(Paragraph, s, i) == [e] + MatchEnds(Paragraph, s, e)
  {
    hide MatchAt;
  }

  /** Nothing matches where no newline is followed, after blanks, by another. */
  lemma NoParagraph(s: string, i: nat)
    requires i + 1 < |s| && s[i] == '\n' && forall k :: i < k < |s| ==> s[k] == 'a'
    ensures MatchEnds(Paragraph, s, i) == []
  {
    assert RunEnd(s, i + 1, IsBlank) == i + 1;
    assert MatchAt(Paragraph, s, i).None?;
    SkipNoNewline(s, i + 1, |s|);
  }

  /** From position 0 the paragraph matches end at 2 and just after the last newline. */
  lemma FirstParagraphs(cfg: Config)
    requires cfg.Valid()
    ensures MatchEnds(Paragraph, Tricky(cfg)[0..cfg.maxChars], 0) == [2, cfg.overlapChars + 1]
  {
    hide MatchEnds;
    var s, ov := Tricky(cfg)[0..cfg.maxChars], cfg.overlapChars;
    ParagraphMatch(s, 0, 1);
    SkipNoNewline(s, 2, ov - 1);
    ParagraphMatch(s, ov - 1, ov);
    SkipNoNewline(s, ov + 1, |s|);
    assert MatchEnds(Paragraph, s, |s|) == [] by { NoMatchAtEnd(s); }
  }

  lemma NoMatchAtEnd(s: string)
    ensures MatchEnds(Paragraph, s, |s|) == []
  {}

  /** From position 1 the pairs fall differently, and the last match ends one newline earlier. */
  lemma SecondParagraphs(cfg: Config)
    requires cfg.Valid()
    ensures MatchEnds(Paragraph, Tricky(cfg)[1..cfg.maxChars + 1], 0) == [cfg.overlapChars - 1]
  {
    hide MatchEnds;
    var s, ov := Tricky(cfg)[1..cfg.maxChars + 1], cfg.overlapChars;
    ParagraphMatch(s, 0, ov - 2);
    NoParagraph(s, ov - 1);
  }

  /** Without fences a long rest is cut at the best boundary. */
  lemma BestDecides(s: string, cursor: nat, sectionEnd: nat, cfg: Config)
    requires cfg.Valid() && cursor + cfg.maxChars < sectionEnd <= |s|
    ensures var best := BestBoundary(PATTERNS, s, cursor, cursor + cfg.minChars, cursor + cfg.maxChars, []);
            EndAt(s, cursor, sectionEnd, [], cfg) ==
            Ok((if best.Some? then best.value else cursor + cfg.maxChars, false))
  {
    hide BestBoundary, FirstCrossing, Candidates;
    assert FirstCrossing([], cursor, cursor + cfg.maxChars, sectionEnd).None?;
  }

  lemma ParagraphFirst(s: string, cursor: nat, lower: nat, limit: nat)
    requires cursor <= limit <= |s| && Candidates(Paragraph, s, cursor, lower, limit, []) != []
    ensures BestBoundary(PATTERNS, s, cursor, lower, limit, []) ==
      Some(Largest(Candidates(Paragraph, s, cursor, lower, limit, [])))
  {
    hide Candidates, Largest;
    assert PATTERNS[0] == Paragraph;
  }

  lemma LargestUsable(ends: seq<nat>, cursor: nat, lower: nat, limit: nat)
    requires ends != [] && lower <= cursor + ends[|ends| - 1] <= limit
    requires forall k :: 0 <= k < |ends| ==> ends[k] <= ends[|ends| - 1]
    ensures var ps := Usable(ends, cursor, lower, limit, []);
            ps != [] && Largest(ps) == cursor + ends[|ends| - 1]
  {
    hide Largest, Usable;
    var ps, last := Usable(ends, cursor, lower, limit, []), cursor + ends[|ends| - 1];
    assert last in ps;
    assert Largest(ps) <= last;
  }

  /** The last paragraph match decides when it is long enough. */
  lemma ParagraphDecides(s: string, cursor: nat, sectionEnd: nat, cfg: Config, ends: seq<nat>)
    requires cfg.Valid() && cursor + cfg.maxChars < sectionEnd <= |s|
    requires ends == MatchEnds(Paragraph, s[cursor..cursor + cfg.maxChars], 0)
    requires 0 < |ends| <= 2 && ends[0] <= ends[|ends| - 1] && cfg.minChars <= ends[|ends| - 1] <= cfg.maxChars
    ensures EndAt(s, cursor, sectionEnd, [], cfg) == Ok((cursor + ends[|ends| - 1], false))
  {
    hide MatchEnds, Usable, Largest, BestBoundary, EndAt;
    BestDecides(s, cursor, sectionEnd, cfg);
    LargestUsable(ends, cursor, cursor + cfg.minChars, cursor + cfg.maxChars);
    ParagraphFirst(s, cursor, cursor + cfg.minChars, cursor + cfg.maxChars);
  }

  lemma TrickyFirstEnd(cfg: Config)
    requires cfg.Valid() && cfg.minChars <= cfg.overlapChars
    ensures EndAt(Tricky(cfg), 0, cfg.maxChars + 2, [], cfg) == Ok((cfg.overlapChars + 1, false))
  {
    hide MatchEnds, Tricky, EndAt;
    FirstParagraphs(cfg);
    ParagraphDecides(Tricky(cfg), 0, cfg.maxChars + 2, cfg, [2, cfg.overlapChars + 1]);
  }

  lemma TrickySecondEnd(cfg: Config)
    requires cfg.Valid() && cfg.minChars < cfg.overlapChars
    ensures EndAt(Tricky(cfg), 1, cfg.maxChars + 2, [], cfg) == Ok((cfg.overlapChars, false))
  {
    hide MatchEnds, Tricky, EndAt;
    SecondParagraphs(cfg);
    ParagraphDecides(Tricky(cfg), 1, cfg.maxChars + 2, cfg, [cfg.overlapChars - 1]);
  }

  /** Past the last newline no pattern offers an end. */
  lemma CandidateBound(cfg: Config, p: Pattern, q: nat)
    requires cfg.Valid() && q in Candidates(p, Tricky(cfg), 1, cfg.minChars + 1, cfg.maxChars + 1, [])
    ensures q <= cfg.overlapChars + 1
  {
    MatchesEndInSpace(p, Tricky(cfg)[1..cfg.maxChars + 1], 0);
    hide MatchEnds;
  }

  /** Whatever pattern decides, the second chunk ends no later than the first. */
  lemma TrickySecondBound(cfg: Config) returns (end: nat)
    requires cfg.Valid() && cfg.minChars <= cfg.overlapChars
    ensures EndAt(Tricky(cfg), 1, cfg.maxChars + 2, [], cfg) == Ok((end, false)) && end <= cfg.overlapChars + 1
  {
    hide EndAt, BestBoundary, Tricky, Candidates;
    end := SecondBest(cfg);
    BestDecides(Tricky(cfg), 1, cfg.maxChars + 2, cfg);
  }

  lemma SecondBest(cfg: Config) returns (end: nat)
    requires cfg.Valid() && cfg.minChars <= cfg.overlapChars
    ensures BestBoundary(PATTERNS, Tricky(cfg), 1, cfg.minChars + 1, cfg.maxChars + 1, []) == Some(end)
    ensures end <= cfg.overlapChars + 1
  {
    hide Candidates, Tricky, BestBoundary;
    LastNewlineIsCandidate(cfg);
    var best := BestBoundary(PATTERNS, Tricky(cfg), 1, cfg.minChars + 1, cfg.maxChars + 1, []);
    assert Whitespace in PATTERNS by { assert PATTERNS[3] == Whitespace; }
    end := best.value;
    var p :| p in PATTERNS && best.value in Candidates(p, Tricky(cfg), 1, cfg.minChars + 1, cfg.maxChars + 1, []);
    CandidateBound(cfg, p, best.value);
  }

  lemma LastNewlineIsCandidate(cfg: Config)
    requires cfg.Valid() && cfg.minChars <= cfg.overlapChars
    ensures cfg.overlapChars + 1 in Candidates(Whitespace, Tricky(cfg), 1, cfg.minChars + 1, cfg.maxChars + 1, [])
  {
    var seg, ov := Tricky(cfg)[1..cfg.maxChars + 1], cfg.overlapChars;
    WhitespaceRunEnds(seg, 0, ov);
    var ends := MatchEnds(Whitespace, seg, 0);
    hide MatchEnds;
    var k :| 0 <= k < |ends| && ends[k] == ov;
    assert 1 + ends[k] == ov + 1;
  }

  // ----- reconstruction: exactly when -----

  ghost predicate Rebuilds(s: string, cfg: Config)
    requires cfg.Valid()
  {
    BuildSpec(s, cfg).Ok? && Reconstruct(BuildSpec(s, cfg).value) == s
  }

  ghost predicate EndsRise(s: string, cfg: Config)
    requires cfg.Valid()
  {
    SpansOf(s, cfg).Ok? &&
    forall k :: 0 < k < |SpansOf(s, cfg).value| ==> SpansOf(s, cfg).value[k - 1].end < SpansOf(s, cfg).value[k].end
  }

  /** The spans of the tricky source: the first two as computed, then the rest. */
  lemma TrickySpans(cfg: Config, second: nat) returns (rest: Result<seq<Span>, ChunkError>)
    requires cfg.Valid() && cfg.minChars <= cfg.overlapChars
    requires EndAt(Tricky(cfg), 1, cfg.maxChars + 2, [], cfg) == Ok((second, false)) &&
      1 < second <= cfg.overlapChars + 1
    ensures var sec, next := Section(0, cfg.maxChars + 2, []), NextCursor(1, second, false, [], cfg);
            rest == ChunkFrom(Tricky(cfg), sec, [], cfg, next, 2, second - next) &&
            SpansOf(Tricky(cfg), cfg) ==
            Prepend([Span(0, cfg.overlapChars + 1, [], 0, 0), Span(1, second, [], 1, cfg.overlapChars)], rest)
  {
    hide EndAt, Tricky, Parse;
    var t, sec := Tricky(cfg), Section(0, cfg.maxChars + 2, []);
    TrickyParses(cfg);
    TrickyFirstEnd(cfg);
    var next := NextCursor(1, second, false, [], cfg);
    rest := ChunkFrom(t, sec, [], cfg, next, 2, second - next);
    var a, b := Span(0, cfg.overlapChars + 1, [], 0, 0), Span(1, second, [], 1, cfg.overlapChars);
    assert NextCursor(0, cfg.overlapChars + 1, false, [], cfg) == 1;
    assert ChunkFrom(t, sec, [], cfg, 1, 1, cfg.overlapChars) == Prepend([b], rest);
    assert ChunkFrom(t, sec, [], cfg, 0, 0, 0) == Prepend([a, b], rest) by {
      if rest.Ok? { assert [a] + ([b] + rest.value) == [a, b] + rest.value; }
    }
    OneSection(t, sec, [], cfg);
  }

  lemma OneSection(s: string, sec: Section, fences: seq<Fence>, cfg: Config)
    requires cfg.Valid() && sec.end <= |s|
    ensures ChunkAll(s, [sec], fences, cfg) == ChunkSectionSpec(s, sec, fences, cfg)
  {
    hide ChunkSectionSpec;
    assert [sec][1..] == [];
  }

  lemma TrickyEndsDoNotRise(cfg: Config)
    requires cfg.Valid() && cfg.minChars <= cfg.overlapChars
    ensures Parse(Tricky(cfg)).Ok? && !EndsRise(Tricky(cfg), cfg)
  {
    hide EndAt, Tricky, Parse, SpansOf, ChunkFrom;
    TrickyParses(cfg);
    var second := TrickySecondBound(cfg);
    EndAdvances(Tricky(cfg), 1, cfg.maxChars + 2, cfg);
    var rest := TrickySpans(cfg, second);
    if SpansOf(Tricky(cfg), cfg).Ok? {
      assert SpansOf(Tricky(cfg), cfg).value[0].end == cfg.overlapChars + 1;
      assert SpansOf(Tricky(cfg), cfg).value[1].end == second;
    }
  }

  lemma EndAdvances(s: string, cursor: nat, sectionEnd: nat, cfg: Config)
    requires cfg.Valid() && cursor < sectionEnd <= |s|
    ensures EndAt(s, cursor, sectionEnd, [], cfg).Ok? ==> EndAt(s, cursor, sectionEnd, [], cfg).value.0 > cursor
  {
    hide BestBoundary, FirstCrossing;
  }

  /** A rest that fits is one chunk. */
  lemma LastChunk(s: string, sec: Section, cfg: Config, cursor: nat, index: nat)
    requires cfg.Valid() && sec.end <= |s| && cursor < sec.end <= cursor + cfg.maxChars
    ensures ChunkFrom(s, sec, [], cfg, cursor, index, 0) == Ok([Span(cursor, sec.end, sec.path, index, 0)])
  {}

  function JoinedLength(spans: seq<Span>, n: nat): nat
    requires n <= |spans| && forall k :: 0 <= k < |spans| ==> spans[k].start <= spans[k].end
  {
    if n == 0 then 0
    else
      var x := spans[n - 1];
      JoinedLength(spans, n - 1) + if x.overlap <= x.end - x.start then x.end - x.start - x.overlap else 0
  }

  lemma {:induction false} ReconstructLength(s: string, spans: seq<Span>, n: nat)
    requires InBounds(s, spans) && n <= |spans|
    ensures |Reconstruct(ChunksOf(s, spans)[..n])| == JoinedLength(spans, n)
  {
    hide Occurrences, Reconstruct;
    assert n > 0 ==> ChunksOf(s, spans)[n - 1].text == s[spans[n - 1].start..spans[n - 1].end];
    if n == 0 {
      NothingRebuilt(ChunksOf(s, spans));
    } else {
      ReconstructLength(s, spans, n - 1);
      ReconstructNext(ChunksOf(s, spans), n);
    }
  }

  /** The three chunks of the tricky source repeat one character when joined. */
  lemma TrickyRepeats(cfg: Config)
    requires cfg.Valid() && cfg.minChars < cfg.overlapChars
    ensures Parse(Tricky(cfg)).Ok? && !Rebuilds(Tricky(cfg), cfg)
  {
    hide EndAt, Tricky, Parse, Occurrences, InsideFence, ChunkFrom, SpansOf;
    var t, ov, max := Tricky(cfg), cfg.overlapChars, cfg.maxChars;
    TrickyParses(cfg);
    TrickySecondEnd(cfg);
    var rest := TrickySpans(cfg, ov);
    LastChunk(t, Section(0, max + 2, []), cfg, ov, 2);
    SpansAreGood(t, cfg);
    var spans := SpansOf(t, cfg).value;
    assert spans == [Span(0, ov + 1, [], 0, 0), Span(1, ov, [], 1, ov), Span(ov, max + 2, [], 2, 0)];
    ReconstructLength(t, spans, 3);
    assert ChunksOf(t, spans)[..3] == ChunksOf(t, spans);
    ThreeJoined(spans);
  }

  lemma ThreeJoined(spans: seq<Span>)
    requires |spans| == 3 && forall k :: 0 <= k < |spans| ==> spans[k].start <= spans[k].end
    requires spans[0].overlap == 0 && spans[1].overlap > spans[1].end - spans[1].start && spans[2].overlap == 0
    ensures JoinedLength(spans, 3) == spans[0].end - spans[0].start + spans[2].end - spans[2].start
  {
    assert JoinedLength(spans, 1) == spans[0].end - spans[0].start;
    assert JoinedLength(spans, 2) == JoinedLength(spans, 1);
  }

  /** Every source is rebuilt from its chunks exactly under configurations with `minChars >= overlapChars`. */
  lemma LosslessIff(cfg: Config)
    requires cfg.Valid()
    ensures (forall s :: Parse(s).Ok? ==> Rebuilds(s, cfg)) <==> cfg.minChars >= cfg.overlapChars
  {
    hide Parse, BuildSpec, Reconstruct;
    if cfg.minChars >= cfg.overlapChars {
      forall s | Parse(s).Ok?
        ensures Rebuilds(s, cfg)
      {
        BuildIsLossless(s, cfg);
      }
    } else {
      TrickyRepeats(cfg);
    }
  }

  /** Chunk ends rise in every source exactly under configurations with `minChars > overlapChars`. */
  lemma EndsRiseIff(cfg: Config)
    requires cfg.Valid()
    ensures (forall s :: Parse(s).Ok? ==> EndsRise(s, cfg)) <==> cfg.minChars > cfg.overlapChars
  {
    hide Parse, SpansOf;
    if cfg.minChars > cfg.overlapChars {
      forall s | Parse(s).Ok?
        ensures EndsRise(s, cfg)
      {
        SpansAreGood(s, cfg);
        forall k | 0 < k < |SpansOf(s, cfg).value|
          ensures SpansOf(s, cfg).value[k - 1].end < SpansOf(s, cfg).value[k].end
        {
          ChunksAdvance(s, cfg, k);
        }
      }
    } else {
      TrickyEndsDoNotRise(cfg);
    }
  }

  // ----- the audit can reject a build -----

  /** One long line whose second chunk begins, mid-line, at three backticks. */
  function Backticks(cfg: Config): (t: string)
    requires cfg.Valid()
    ensures |t| == cfg.maxChars + 1
  {
    seq(cfg.maxChars + 1, i => if cfg.maxChars - cfg.overlapChars <= i < cfg.maxChars - cfg.overlapChars + 3 then '`'
        else 'a')
  }

  lemma BackticksParse(cfg: Config)
    requires cfg.Valid()
    ensures Parse(Backticks(cfg)) == Ok(Parsed([Section(0, cfg.maxChars + 1, [])], []))
  {
    var s := Backticks(cfg);
    OneLine(s, 0);
    assert s[0] == 'a' && LogicalLine(s, 0)[..1] == ['a'] by {
      assert s[0..LineEnd(s, 0)] == s && !IsCrLf(s[|s| - 1]);
    }
    assert FenceOpen(LogicalLine(s, 0)).None? && HeadingOf(LogicalLine(s, 0)).None?;
    hide FenceOpen, HeadingOf, LogicalLine;
    assert forall p :: 0 < p < |s| ==> !IsLineStart(s, p);
    UnstructuredParses(s);
  }

  /** A text that is one line opening a fence does not parse. */
  lemma OpenerAlone(s: string)
    requires |s| >= 3 && s[0] == '`' && s[1] == '`' && s[2] == '`'
    requires forall k :: 0 <= k < |s| ==> !IsLineBreak(s[k])
    ensures Parse(s) == Err(UnclosedFence)
  {
    OneLine(s, 0);
    assert s[0..LineEnd(s, 0)] == s && LogicalLine(s, 0) == s;
    assert FenceOpen(s).Some?;
    hide FenceOpen, HeadingOf, LogicalLine;
    var st := Step(s, INITIAL_STATE);
    assert st.offset == |s| && Run(s, st) == st;
    assert Run(s, INITIAL_STATE) == st;
  }

  lemma {:induction false} NoSpaceNoMatch(p: Pattern, s: string, i: nat)
    requires i <= |s| && forall k :: 0 <= k < |s| ==> !IsSpace(s[k])
    ensures MatchEnds(p, s, i) == []
    decreases |s| - i
  {
    if i < |s| {
      assert MatchAt(p, s, i).None?;
      NoSpaceNoMatch(p, s, i + 1);
    }
  }

  lemma BackticksSpans(cfg: Config)
    requires cfg.Valid()
    ensures SpansOf(Backticks(cfg), cfg) ==
            Ok([Span(0, cfg.maxChars, [], 0, 0),
                Span(cfg.maxChars - cfg.overlapChars, cfg.maxChars + 1, [], 1, cfg.overlapChars)])
  {
    hide EndAt, Parse, BestBoundary, ChunkFrom;
    var s, max := Backticks(cfg), cfg.maxChars;
    var sec := Section(0, max + 1, []);
    BackticksParse(cfg);
    NoBoundary(s, 0, cfg.minChars, max);
    hide Backticks;
    BestDecides(s, 0, max + 1, cfg);
    FitsAtOnce(s, max - cfg.overlapChars, max + 1, cfg);
    TwoChunks(s, sec, cfg);
    OneSection(s, sec, [], cfg);
  }

  lemma TwoChunks(s: string, sec: Section, cfg: Config)
    requires cfg.Valid() && sec == Section(0, cfg.maxChars + 1, []) && sec.end <= |s|
    requires EndAt(s, 0, sec.end, [], cfg) == Ok((cfg.maxChars, false))
    requires EndAt(s, cfg.maxChars - cfg.overlapChars, sec.end, [], cfg) == Ok((sec.end, false))
    ensures ChunkSectionSpec(s, sec, [], cfg) ==
            Ok([Span(0, cfg.maxChars, [], 0, 0),
                Span(cfg.maxChars - cfg.overlapChars, cfg.maxChars + 1, [], 1, cfg.overlapChars)])
  {
    hide EndAt;
    var max, ov := cfg.maxChars, cfg.overlapChars;
    var a, b := Span(0, max, [], 0, 0), Span(max - ov, max + 1, [], 1, ov);
    assert NextCursor(0, max, false, [], cfg) == max - ov;
    assert ChunkFrom(s, sec, [], cfg, max - ov, 1, ov) == Ok([b]);
    assert [a] + [b] == [a, b];
  }

  lemma FitsAtOnce(s: string, cursor: nat, sectionEnd: nat, cfg: Config)
    requires cfg.Valid() && cursor < sectionEnd <= |s| && sectionEnd - cursor <= cfg.maxChars
    ensures EndAt(s, cursor, sectionEnd, [], cfg) == Ok((sectionEnd, false))
  {}

  lemma NoBoundary(s: string, cursor: nat, lower: nat, limit: nat)
    requires cursor <= limit <= |s| && forall k :: 0 <= k < |s| ==> !IsSpace(s[k])
    ensures BestBoundary(PATTERNS, s, cursor, lower, limit, []).None?
  {
    hide Candidates, BestBoundary;
    var best := BestBoundary(PATTERNS, s, cursor, lower, limit, []);
    if best.Some? {
      var p :| p in PATTERNS && best.value in Candidates(p, s, cursor, lower, limit, []);
      NoCandidates(p, s, cursor, lower, limit);
    }
  }

  lemma NoCandidates(p: Pattern, s: string, cursor: nat, lower: nat, limit: nat)
    requires cursor <= limit <= |s| && forall k :: 0 <= k < |s| ==> !IsSpace(s[k])
    ensures Candidates(p, s, cursor, lower, limit, []) == []
  {
    hide MatchEnds;
    NoSpaceNoMatch(p, s[cursor..limit], 0);
  }

  /** For every configuration there is a source the builder accepts and its own audit rejects. */
  lemma AuditRejectsSomeBuild(cfg: Config) returns (s: string)
    requires cfg.Valid()
    ensures Parse(s).Ok? && BuildSpec(s, cfg).Ok? && ValidArtifact(BuildSpec(s, cfg).value, cfg)
    ensures Verdict(s, BuildSpec(s, cfg).value) == Some(UnclosedFence)
  {
    hide Parse, SpansOf, Verdict, BuildSpec, Backticks, ValidArtifact;
    s := Backticks(cfg);
    BackticksParse(cfg);
    BackticksSecondText(cfg);
    SecondTextAlone(cfg);
    BuildRefused(s, cfg, 1);
  }

  lemma SecondTextAlone(cfg: Config)
    requires cfg.Valid()
    ensures Parse(Backticks(cfg)[cfg.maxChars - cfg.overlapChars..cfg.maxChars + 1]) == Err(UnclosedFence)
  {
    hide Parse;
    OpenerAlone(Backticks(cfg)[cfg.maxChars - cfg.overlapChars..cfg.maxChars + 1]);
  }

  lemma BackticksSecondText(cfg: Config)
    requires cfg.Valid()
    ensures var r := BuildSpec(Backticks(cfg), cfg);
            r.Ok? && |r.value| == 2 && r.value[1].text ==
              Backticks(cfg)[cfg.maxChars - cfg.overlapChars..cfg.maxChars + 1]
  {
    hide Parse, SpansOf, Occurrences, Backticks;
    BackticksSpans(cfg);
    BackticksParse(cfg);
    SpansAreGood(Backticks(cfg), cfg);
  }
}
