/**
  Stray runs of fence characters in sources without fences: exactly which builds the audit then
  refuses, and that nearly every such run makes it refuse one
  (app/ingestion/markdown_chunker.py:409-509, 711-712).
 */
module ChunkStray {
  import opened Wrappers
  import opened PyText
  import opened MarkdownParser
  import opened MarkdownStructure
  import opened Chunker
  import opened ChunkProperties
  import opened ChunkPieces
  import opened ChunkBuilder
  import opened ChunkAudit

  /** A line that closes some fence would open one. */
  lemma CloserOpens(line: string, m: Marker)
    requires Closes(line, m) && m.length >= 3 && (m.ch == '`' || m.ch == '~')
    ensures FenceOpen(line).Some?
  {
    var i := RunEnd(line, 0, IsBlank);
    var j := RunEnd(line, i, c => c == m.ch);
    OpenIff(line);
    assert OpensAt(line, i);
  }

  lemma OpenerIsFenceCharacter(line: string)
    requires FenceOpen(line).Some?
    ensures FenceOpen(line).value.ch == '`' || FenceOpen(line).value.ch == '~'
  {}

  /** Where no line opens a fence none closes one: a piece that begins by opening one never parses. */
  lemma OpenerNeverCloses(s: string, a: nat, b: nat)
    requires FencesOf(s, []) && a < b <= |s| && FenceOpen(LogicalLine(s[a..b], 0)).Some?
    ensures Parse(s[a..b]) == Err(UnclosedFence)
  {
    hide Parse, LogicalLine, FenceOpen, Closes, LineEnd, SectionsOf, StripRight;
    var t := s[a..b];
    if Parse(t).Ok? {
      ParseSound(t);
      var fs := Parse(t).value.fences;
      FirstLineCovered(t, fs);
      var m := FenceOpen(LogicalLine(t, 0)).value;
      var q: nat :| ClosedBy(t, fs[0], m, q);
      OpenerIsFenceCharacter(LogicalLine(t, 0));
      CloserOpens(LogicalLine(t, q), m);
      LineIn(s, a, b, q);
      OpensLonger(LogicalLine(t, q), LogicalLine(s, a + q));
      OutsideOpensNone(s, [], a + q);
    }
    ParseErrors(t);
  }

  /** A source whose first line opens a fence begins with that fence. */
  lemma FirstLineCovered(t: string, fs: seq<Fence>)
    requires t != [] && FencesOf(t, fs) && FenceOpen(LogicalLine(t, 0)).Some?
    ensures fs != [] && fs[0].start == 0 && IsFence(t, fs[0])
  {
    hide LogicalLine, FenceOpen, IsFence;
    var k :| 0 <= k < |fs| && fs[k].start <= 0 < fs[k].end;
    if k > 0 { assert fs[0].end <= fs[k].start && IsFence(t, fs[0]); FenceStartsLine(t, fs, 0); }
  }

  lemma ParseErrors(t: string)
    requires t != []
    ensures Parse(t).Ok? || Parse(t) == Err(UnclosedFence)
  {}

  /** A build of a source without fences passes its audit exactly when no chunk begins at a stray opener. */
  lemma UnfencedPassesIff(s: string, cfg: Config)
    requires cfg.Valid() && Parse(s).Ok? && Parse(s).value.fences == []
    ensures BuildSpec(s, cfg).Ok? && ValidArtifact(BuildSpec(s, cfg).value, cfg)
    ensures Verdict(s, BuildSpec(s, cfg).value).None? <==>
      forall c :: c in BuildSpec(s, cfg).value ==> !BeginsAtStrayOpener(s, c)
  {
    hide Parse, BuildSpec, Verdict, BeginsAtStrayOpener, ValidArtifact, FencesOf;
    BuiltPassesAudit(s, cfg);
    var chunks := BuildSpec(s, cfg).value;
    forall k | 0 <= k < |chunks| && BeginsAtStrayOpener(s, chunks[k])
      ensures Parse(chunks[k].text).Err?
    {
      BuiltChunkIsPiece(s, cfg, k);
      StrayOpens(s, chunks[k]);
      OpenerNeverCloses(s, chunks[k].start, chunks[k].end);
    }
  }

  lemma StrayOpens(s: string, c: Chunk)
    requires BeginsAtStrayOpener(s, c)
    ensures c.text != [] && FenceOpen(LogicalLine(c.text, 0)).Some?
  {}

  // ----- a configuration that cuts at a given place -----

  /** Cuts a section that begins at `start` so that its second chunk begins at `a`. */
  function CutAtRun(start: nat, a: nat): Config
    requires start < a
  {
    Config(a - start + 100, a - start + 100, 100)
  }

  lemma NoneCrosses(cursor: nat, limit: nat, sectionEnd: nat, cfg: Config)
    ensures FirstCrossing([], cursor, limit, sectionEnd).None? && !NextFenceNeedsCleanStart(limit, cfg, [])
    ensures !InsideFence(cursor, []) && !InsideFence(limit, [])
  {}

  /** With equal limits a cut falls on the limit. */
  lemma EqualLimits(s: string, cursor: nat, sectionEnd: nat, cfg: Config)
    requires cfg.Valid() && cfg.minChars == cfg.maxChars && cursor + cfg.maxChars < sectionEnd <= |s|
    ensures EndAt(s, cursor, sectionEnd, [], cfg) == Ok((cursor + cfg.maxChars, false))
  {
    hide BestBoundary, Candidates, InsideFence, NextFenceNeedsCleanStart, FirstCrossing;
    NoneCrosses(cursor, cursor + cfg.maxChars, sectionEnd, cfg);
    assert FirstCrossing([], cursor, cursor + cfg.maxChars, sectionEnd).None?;
  }

  /** Two chunks of a section, and how the walk goes on. */
  lemma FirstTwo(s: string, sec: Section, cfg: Config, end: nat, a: nat)
    requires cfg.Valid() && sec.end <= |s| && sec.start < end < sec.end && sec.start < a <= end
    requires EndAt(s, sec.start, sec.end, [], cfg) == Ok((end, false))
    requires a == NextCursor(sec.start, end, false, [], cfg)
    requires ChunkFrom(s, sec, [], cfg, a, 1, end - a).Ok?
    ensures ChunkSectionSpec(s, sec, [], cfg) ==
      Ok([Span(sec.start, end, sec.path, 0, 0)] + ChunkFrom(s, sec, [], cfg, a, 1, end - a).value)
  {
    hide EndAt, NextCursor;
  }

  lemma CutIsThere(start: nat, a: nat)
    requires start < a
    ensures CutAtRun(start, a).Valid() && NextCursor(start, a + 100, false, [], CutAtRun(start, a)) == a
  {}

  /** What the walk yields from `a` on. */
  lemma RestFrom(s: string, sec: Section, cfg: Config, a: nat)
    requires cfg.Valid() && cfg.overlapChars == 100 && GoodFences(s, []) && GoodSection(s, sec, [])
    requires sec.start < a && a + 100 < sec.end
    ensures sec.end <= |s|
    ensures var r := ChunkFrom(s, sec, [], cfg, a, 1, 100);
            r.Ok? && r.value != [] && r.value[0].start == a && r.value[0].end <= sec.end &&
            (cfg.minChars >= 100 ==> r.value[0].end >= a + 100)
  {
    hide ChunkFrom, GoodFences, GoodChain, InsideFence, NextFenceNeedsCleanStart;
    NoneCrosses(a, a + 100, sec.end, cfg);
    ChunkFromIsGood(s, sec, [], cfg, a, 1, 100);
    FirstOfChain(sec, cfg, ChunkFrom(s, sec, [], cfg, a, 1, 100).value);
  }

  /** The second chunk of the section begins at `a`, and holds at least the next three characters. */
  lemma SecondChunkAt(s: string, sec: Section, a: nat)
    requires GoodFences(s, []) && GoodSection(s, sec, []) && sec.start < a && a + 100 < sec.end
    ensures CutAtRun(sec.start, a).Valid() && sec.end <= |s|
    ensures var r := ChunkSectionSpec(s, sec, [], CutAtRun(sec.start, a));
            r.Ok? && |r.value| >= 2 && r.value[1].start == a && a + 3 <= r.value[1].end <= |s|
  {
    hide EndAt, ChunkFrom, ChunkSectionSpec, GoodFences, NextCursor;
    var cfg := CutAtRun(sec.start, a);
    CutIsThere(sec.start, a);
    RestFrom(s, sec, cfg, a);
    EqualLimits(s, sec.start, sec.end, cfg);
    FirstTwo(s, sec, cfg, a + 100, a);
  }

  lemma FirstOfChain(sec: Section, cfg: Config, spans: seq<Span>)
    requires GoodChain(sec, [], cfg, spans)
    ensures spans != [] && spans[0].end <= sec.end
  {
    assert GoodSpan(sec, [], cfg, spans[0]);
  }

  /** The chunks of every section are among those of the source. */
  lemma {:induction false} SectionChunks(s: string, secs: seq<Section>, fences: seq<Fence>, cfg: Config, i: nat,
                                         x: Span)
    requires cfg.Valid() && (forall k :: 0 <= k < |secs| ==> secs[k].end <= |s|) && i < |secs|
    requires ChunkAll(s, secs, fences, cfg).Ok? && ChunkSectionSpec(s, secs[i], fences, cfg).Ok?
    requires x in ChunkSectionSpec(s, secs[i], fences, cfg).value
    ensures x in ChunkAll(s, secs, fences, cfg).value
  {
    hide ChunkSectionSpec;
    if i > 0 { SectionChunks(s, secs[1..], fences, cfg, i - 1, x); }
  }

  lemma RunOpens(s: string, a: nat, b: nat)
    requires FenceRun(s, a) && a + 3 <= b <= |s|
    ensures FenceOpen(LogicalLine(s[a..b], 0)).Some?
  {
    var t := s[a..b];
    assert LineEnd(t, 0) >= 3 by { RunIsOneLine(t); }
    var line := LogicalLine(t, 0);
    StripKeeps(t[0..LineEnd(t, 0)], IsCrLf, 2);
    hide FenceOpen, StripRight, LineEnd;
    OpenIff(line);
    assert OpensAt(line, 0);
  }

  lemma StripKeeps(x: string, p: char -> bool, k: nat)
    requires k < |x| && !p(x[k])
    ensures |StripRight(x, p)| > k
  {
    hide StripRight;
  }

  lemma RunIsOneLine(t: string)
    requires FenceRun(t, 0)
    ensures LineEnd(t, 0) >= 3
  {
    assert LineEnd(t, 0) == LineEnd(t, 1);
    assert LineEnd(t, 1) == LineEnd(t, 2);
  }

  /** A run at the beginning of a section would open a fence. */
  lemma RunNotFirst(s: string, secs: seq<Section>, i: nat)
    requires s != [] && FencesOf(s, []) && SectionsOf(s, [], secs) && i < |secs|
    ensures !FenceRun(s, secs[i].start)
  {
    hide LogicalLine, FenceOpen, HeadingOf, LineEnd, PathAt, FencesOf;
    var p := secs[i].start;
    if p > 0 { assert StartsSection(secs, p); }
    OutsideOpensNone(s, [], p);
    if FenceRun(s, p) {
      RunOpens(s, p, |s|);
      LineIn(s, p, |s|, 0);
      OpensLonger(LogicalLine(s[p..|s|], 0), LogicalLine(s, p));
    }
  }

  /**
    In a source without fences, every run of three fence characters with more than a hundred
    characters of its section after it makes the audit refuse the build of some configuration.
   */
  lemma StrayRunRefusedSomewhere(s: string, i: nat, a: nat) returns (cfg: Config)
    requires Parse(s).Ok? && Parse(s).value.fences == [] && i < |Parse(s).value.sections| && FenceRun(s, a)
    requires Parse(s).value.sections[i].start <= a && a + 100 < Parse(s).value.sections[i].end
    ensures cfg.Valid() && BuildSpec(s, cfg).Ok? && ValidArtifact(BuildSpec(s, cfg).value, cfg)
    ensures Verdict(s, BuildSpec(s, cfg).value) == Some(UnclosedFence)
  {
    hide Parse, FencesOf, SectionsOf, ChunkAll, ChunkSectionSpec, Occurrences, Verdict, ValidArtifact, GoodDocument,
    GoodFences, GoodSection;
    ParseSound(s);
    ParsedIsGood(s);
    var secs := Parse(s).value.sections;
    RunNotFirst(s, secs, i);
    cfg := CutAtRun(secs[i].start, a);
    SecondChunkAt(s, secs[i], a);
    SpansAreGood(s, cfg);
    var x := ChunkSectionSpec(s, secs[i], [], cfg).value[1];
    SectionChunks(s, secs, [], cfg, i, x);
    var k :| 0 <= k < |SpansOf(s, cfg).value| && SpansOf(s, cfg).value[k] == x;
    assert BuildSpec(s, cfg).value[k].text == s[x.start..x.end];
    RunOpens(s, x.start, x.end);
    OpenerNeverCloses(s, x.start, x.end);
    BuildRefused(s, cfg, k);
  }
}
