/**
  The line parser that finds semantic sections and fenced code blocks
  (app/ingestion/markdown_chunker.py:554-624).
 */
module MarkdownParser {
  import opened Wrappers
  import opened PyText

  datatype ChunkError =
    | EmptySource
    | UnclosedFence
    | CursorDidNotAdvance
    | HardSplitCutsFence
    | NoChunks
    | TextMismatch
    | NotCovered
    | FenceCrossesChunks
    | BlockNotCovered

  datatype Fence = Fence(start: nat, end: nat)

  datatype Section = Section(start: nat, end: nat, path: seq<string>)

  datatype Parsed = Parsed(sections: seq<Section>, fences: seq<Fence>)

  // ----- classifying one logical line -----

  datatype Marker = Marker(ch: char, length: nat)

  datatype Heading = Heading(level: nat, title: string)

  /** A line that opens a fence: at least three backticks or tildes after blanks, any info string. */
  function FenceOpen(line: string): (m: Option<Marker>)
    ensures m.Some? ==> m.value.length >= 3
  {
    var i := RunEnd(line, 0, IsBlank);
    if i < |line| && (line[i] == '`' || line[i] == '~') then
      var ch := line[i];
      var n := RunEnd(line, i, c => c == ch) - i;
      if n >= 3 then Some(Marker(ch, n)) else None
    else None
  }

  /** A line that closes a fence opened by `m`. */
  predicate Closes(line: string, m: Marker) {
    var i := RunEnd(line, 0, IsBlank);
    var j := RunEnd(line, i, c => c == m.ch);
    j - i >= m.length && RunEnd(line, j, IsBlank) == |line|
  }

  /** A level 2 or 3 heading: up to three spaces, the marks, blanks, the title. */
  function HeadingOf(line: string): (h: Option<Heading>)
    ensures h.Some? ==> h.value.level == 2 || h.value.level == 3
  {
    var i := RunEnd(line, 0, c => c == ' ');
    var j := RunEnd(line, i, c => c == '#');
    var t := RunEnd(line, j, IsBlank);
    if i <= 3 && (j - i == 2 || j - i == 3) && t > j
    then Some(Heading(j - i, NormalizeTitle(line[i..j], StripRight(line[t..], IsBlank))))
    else None
  }

  /** The title without blanks and marks that close it. */
  function WithoutClosing(title: string): string {
    var hashless := StripRight(title, c => c == '#');
    if |hashless| < |title| && hashless != [] && IsBlank(hashless[|hashless| - 1])
    then StripRight(hashless, IsBlank)
    else title
  }

  /** `str.strip`. */
  function Strip(s: string): string { StripRight(s[RunEnd(s, 0, IsSpace)..], IsSpace) }

  /** Drops what closes the title, strips, and falls back to the marks. */
  function NormalizeTitle(marks: string, title: string): string {
    var stripped := Strip(WithoutClosing(title));
    if stripped == [] then marks else stripped
  }

  predicate NotBlank(title: string) {
    exists k :: 0 <= k < |title| && !IsSpace(title[k])
  }

  lemma TitleNotBlank(marks: string, title: string)
    requires marks != [] && !IsSpace(marks[0])
    ensures NotBlank(NormalizeTitle(marks, title))
  {
    var r := NormalizeTitle(marks, title);
    if r == marks { assert !IsSpace(r[0]); } else { assert !IsSpace(r[|r| - 1]); }
  }

  /** A heading always has a title, if need be its own marks. */
  lemma HeadingNotBlank(line: string)
    requires HeadingOf(line).Some?
    ensures NotBlank(HeadingOf(line).value.title)
  {
    hide NormalizeTitle, NotBlank;
    var i := RunEnd(line, 0, c => c == ' ');
    var j := RunEnd(line, i, c => c == '#');
    var t := RunEnd(line, j, IsBlank);
    assert line[i..j][0] == line[i] == '#';
    TitleNotBlank(line[i..j], StripRight(line[t..], IsBlank));
  }

  // ----- the parse loop as a function of the loop state -----

  datatype OpenFence = OpenFence(marker: Marker, start: nat)

  datatype State = State(
    offset: nat,
    sections: seq<Section>,
    fences: seq<Fence>,
    sectionStart: nat,
    path: seq<string>,
    h2: Option<string>,
    open: Option<OpenFence>)

  const INITIAL_STATE := State(0, [], [], 0, [], None, None)

  /** One iteration of the loop over lines. */
  function Step(s: string, st: State): (r: State)
    requires st.offset < |s|
    ensures st.offset < r.offset <= |s|
  {
    var p := st.offset;
    var line := LogicalLine(s, p);
    var st' := st.(offset := LineEnd(s, p));
    match st.open
    case Some(o) =>
      if Closes(line, o.marker)
      then st'.(fences := st.fences + [Fence(o.start, st'.offset)], open := None)
      else st'
    case None =>
      match FenceOpen(line)
      case Some(m) => st'.(open := Some(OpenFence(m, p)))
      case None =>
        match HeadingOf(line)
        case None => st'
        case Some(h) => AtHeading(st', p, h)
  }

  /** A heading at `p` closes the current section (if non-empty) and starts the next. */
  function AtHeading(st: State, p: nat, h: Heading): State {
    st.(sections := if p > st.sectionStart
                    then st.sections + [Section(st.sectionStart, p, st.path)]
                    else st.sections,
        sectionStart := p,
        path := if h.level == 2 || st.h2.None? then [h.title] else [st.h2.value, h.title],
        h2 := if h.level == 2 then Some(h.title) else st.h2)
  }

  function Run(s: string, st: State): State
    requires st.offset <= |s|
    decreases |s| - st.offset
  {
    if st.offset == |s| then st else Run(s, Step(s, st))
  }

  function Finish(s: string, st: State): Result<Parsed, ChunkError> {
    if st.open.Some? then Err(UnclosedFence)
    else Ok(Parsed(if st.sectionStart < |s|
                   then st.sections + [Section(st.sectionStart, |s|, st.path)]
                   else st.sections,
                   st.fences))
  }

  function Parse(s: string): Result<Parsed, ChunkError> {
    if s == [] then Err(EmptySource) else Finish(s, Run(s, INITIAL_STATE))
  }

  /** The parser itself: a loop over lines that updates offset, section and fence state. */
  method ParseSemanticSections(source: string) returns (r: Result<Parsed, ChunkError>)
    ensures r == Parse(source)
  {
    if source == [] {
      return Err(EmptySource);
    }
    var sections: seq<Section>, fences: seq<Fence> := [], [];
    var sectionStart: nat, offset: nat, fenceStart: nat := 0, 0, 0;
    var currentPath: seq<string> := [];
    var currentH2: Option<string> := None;
    var marker: Option<Marker> := None;
    while offset < |source|
      invariant offset <= |source|
      invariant Run(source, State(offset, sections, fences, sectionStart, currentPath, currentH2,
                                  if marker.None? then None else Some(OpenFence(marker.value, fenceStart))))
             == Run(source, INITIAL_STATE)
    {
      var lineStart := offset;
      offset := LineEnd(source, lineStart);
      var line := LogicalLine(source, lineStart);
      if marker.Some? {
        if Closes(line, marker.value) {
          fences := fences + [Fence(fenceStart, offset)];
          marker := None;
        }
        continue;
      }
      marker := FenceOpen(line);
      if marker.Some? {
        fenceStart := lineStart;
        continue;
      }
      var heading := HeadingOf(line);
      if heading.None? {
        continue;
      }
      if lineStart > sectionStart {
        sections := sections + [Section(sectionStart, lineStart, currentPath)];
      }
      if heading.value.level == 2 {
        currentH2 := Some(heading.value.title);
        currentPath := [heading.value.title];
      } else {
        currentPath := if currentH2.Some? then [currentH2.value, heading.value.title] else [heading.value.title];
      }
      sectionStart := lineStart;
    }
    if marker.Some? {
      return Err(UnclosedFence);
    }
    if sectionStart < |source| {
      sections := sections + [Section(sectionStart, |source|, currentPath)];
    }
    return Ok(Parsed(sections, fences));
  }
}
