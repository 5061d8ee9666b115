/**
  Indexing what the chunker builds: a source that begins with whitespace only, up to its first heading,
  is chunked and audited but can never be indexed (app/ingestion/markdown_chunker.py:279-345;
  app/ingestion/dense_index.py:170-176; app/core/embedding.py:44-64).
 */
module ChunkIndex {
  import opened Wrappers
  import opened PyText
  import opened MarkdownParser
  import opened Chunker
  import opened ChunkProperties
  import opened ChunkBuilder
  import ChunkAudit
  import ChunkPieces
  import MarkdownStructure
  import DenseIndex

  /** The artifact of some built chunks; `hash` stands for the digest in a chunk identifier. */
  function ArtifactOf(source: string, hash: (Identity, nat) -> string, chunks: seq<Chunk>): (a: DenseIndex.Artifact)
    ensures a.Valid() && |a.chunks| == |chunks|
    ensures forall k :: 0 <= k < |chunks| ==> a.chunks[k].text == chunks[k].text
  {
    DenseIndex.Artifact(source, seq(|chunks|, k requires 0 <= k < |chunks| =>
      DenseIndex.Chunk(hash(chunks[k].Id().0, chunks[k].Id().1), source, chunks[k].text)))
  }

  /** The text before the first heading is there and is blank. */
  ghost predicate BlankStart(s: string) {
    Parse(s).Ok? && Parse(s).value.sections != [] &&
    forall k :: 0 <= k < |s| && k < Parse(s).value.sections[0].end ==> IsSpace(s[k])
  }

  /** Section `i` does not begin the source unless it is the first. */
  lemma FirstSectionBegins(secs: seq<Section>, end: nat, i: nat)
    requires MarkdownStructure.Partition(secs, end) && i < |secs| && secs[i].start == 0
    ensures i == 0
  {
    if i > 0 { MarkdownStructure.PartitionOrdered(secs, end, 0, i); }
  }

  /** Whatever the configuration, the first chunk of such a source is blank. */
  lemma BlankStartBlankChunk(s: string, cfg: Config)
    requires cfg.Valid() && BlankStart(s)
    ensures BuildSpec(s, cfg).Ok? && BuildSpec(s, cfg).value != [] && DenseIndex.Blank(BuildSpec(s, cfg).value[0].text)
  {
    hide Parse, ChunkAll, InsideFence, Occurrences, IsSpace;
    SpansAreGood(s, cfg);
    ParsedIsGood(s);
    var p, spans := Parse(s).value, SpansOf(s, cfg).value;
    assert GoodPiece(p.sections, p.fences, cfg, spans[0]);
    var i :| 0 <= i < |p.sections| && GoodSpan(p.sections[i], p.fences, cfg, spans[0]);
    FirstSectionBegins(p.sections, |s|, i);
    assert BuildSpec(s, cfg).value[0].text == s[spans[0].start..spans[0].end];
  }

  /** No build of an index over such chunks ever succeeds, whatever works. */
  method IndexBlankStart(builder: DenseIndex.DenseIndexBuilder, s: string, cfg: Config, source: string,
                         hash: (Identity, nat) -> string)
    returns (r: Result<DenseIndex.BuildResult, DenseIndex.BuildError>)
    requires builder.batchSize > 0 && builder.index.Valid() && cfg.Valid() && BlankStart(s)
    modifies builder.index
    ensures builder.index.Valid() && r.Err?
  {
    hide BuildSpec, BlankStart;
    BlankStartBlankChunk(s, cfg);
    var built := Build(s, cfg);
    var artifact := ArtifactOf(source, hash, built.value);
    assert artifact.chunks[0] in artifact.chunks;
    r := builder.Build(artifact);
  }

  // ----- the least such source -----

  lemma NoFenceCharacter(line: string)
    requires forall k :: 0 <= k < |line| ==> line[k] != '`' && line[k] != '~'
    ensures FenceOpen(line).None?
  {}

  /** A character that ends no line, followed by more of its line. */
  lemma LineGoesOn(s: string, i: nat)
    requires i + 1 < |s| && !IsLineBreak(s[i])
    ensures LineEnd(s, i) == LineEnd(s, i + 1)
  {}

  lemma TwoLines(s: string)
    requires s == "\n## A"
    ensures LineEnd(s, 0) == 1 && LineEnd(s, 1) == 5
    ensures IsLineStart(s, 0) && IsLineStart(s, 1) && forall p :: 1 < p < |s| ==> !IsLineStart(s, p)
  {
    hide LineEnd;
    assert s[0] == '\n' && s[1] == '#' && s[2] == '#' && s[3] == ' ' && s[4] == 'A';
    LineGoesOn(s, 1);
    LineGoesOn(s, 2);
    LineGoesOn(s, 3);
    LineStops(s, 4);
    LineStops(s, 0);
  }

  lemma LineStops(s: string, i: nat)
    requires i < |s| && s[i] != '\r' && (IsLineBreak(s[i]) || i + 1 == |s|)
    ensures LineEnd(s, i) == i + 1
  {}

  lemma TwoLogicalLines(s: string)
    requires s == "\n## A"
    ensures LogicalLine(s, 0) == "" && LogicalLine(s, 1) == "## A"
  {
    hide LineEnd, IsLineStart;
    TwoLines(s);
    assert s[0..1] == "\n" && s[1..5] == "## A";
    assert "\n"[..0] == "";
  }

  lemma OneHeading()
    ensures HeadingOf("## A") == Some(Heading(2, "A")) && HeadingOf("").None?
  {
    var line := "## A";
    assert RunEnd(line, 0, c => c == ' ') == 0;
    assert RunEnd(line, 0, c => c == '#') == 2;
    assert RunEnd(line, 2, IsBlank) == 3;
    assert line[0..2] == "##" && line[3..] == "A";
    hide RunEnd, StripRight;
    OneTitle();
  }

  lemma OneTitle()
    ensures StripRight("A", IsBlank) == "A" && NormalizeTitle("##", "A") == "A"
  {
    var a := "A";
    assert StripRight(a, IsBlank) == a && StripRight(a, c => c == '#') == a && StripRight(a, IsSpace) == a;
    assert RunEnd(a, 0, IsSpace) == 0 && a[0..] == a;
  }

  /** A heading at 1 alone. */
  lemma OneHeadingStart(s: string)
    requires s == "\n## A"
    ensures forall p: nat :: MarkdownStructure.HeadingStart(s, [], p) <==> p == 1
    ensures HeadingOf(LogicalLine(s, 1)) == Some(Heading(2, "A"))
  {
    hide LogicalLine, HeadingOf, LineEnd, IsLineStart;
    TwoLines(s);
    TwoLogicalLines(s);
    OneHeading();
  }

  lemma TwoSections(s: string, secs: seq<Section>)
    requires s == "\n## A" && secs == [Section(0, 1, []), Section(1, 5, ["A"])]
    ensures MarkdownStructure.SectionsOf(s, [], secs)
  {
    hide LogicalLine, HeadingOf, MarkdownStructure.HeadingStart;
    OneHeadingStart(s);
    assert MarkdownStructure.LatestH2(s, [], 0).None? && MarkdownStructure.LatestH2(s, [], 1).None?;
    assert MarkdownStructure.PathAt(s, [], 0) == [] && MarkdownStructure.PathAt(s, [], 1) == ["A"];
    hide MarkdownStructure.PathAt, MarkdownStructure.LatestH2;
    assert secs[0].start == 0 && secs[1].start == 1;
    forall p | 0 < p < |s|
      ensures MarkdownStructure.StartsSection(secs, p) <==> MarkdownStructure.HeadingStart(s, [], p)
    {}
  }

  lemma NoFences(s: string)
    requires s == "\n## A"
    ensures MarkdownStructure.FencesOf(s, [])
  {
    hide LogicalLine, FenceOpen, LineEnd, IsLineStart;
    TwoLines(s);
    TwoLogicalLines(s);
    NoFenceCharacter("");
    NoFenceCharacter("## A");
  }

  /** A line break before the first heading is enough. */
  lemma LineBreakFirst(s: string)
    requires s == "\n## A"
    ensures BlankStart(s)
  {
    hide Parse, MarkdownStructure.FencesOf, MarkdownStructure.SectionsOf;
    var secs := [Section(0, 1, []), Section(1, 5, ["A"])];
    NoFences(s);
    TwoSections(s, secs);
    MarkdownStructure.ParseCharacterized(s, secs, []);
    assert s[0] == '\n';
  }

  /** The audit finds nothing wrong with such chunks. */
  lemma LineBreakPasses(s: string, cfg: Config)
    requires s == "\n## A" && cfg.Valid()
    ensures BlankStart(s) && BuildSpec(s, cfg).Ok? && ChunkAudit.ValidArtifact(BuildSpec(s, cfg).value, cfg)
    ensures ChunkAudit.Verdict(s, BuildSpec(s, cfg).value).None?
  {
    hide Parse, BuildSpec, ChunkAudit.Verdict, ChunkAudit.ValidArtifact;
    LineBreakFirst(s);
    ChunkAudit.NoStrayRunPasses(s, cfg);
  }
}
