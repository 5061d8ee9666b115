/** The parts of Python's `str` and `re` semantics that the Markdown chunker relies on. */
module PyText {
  import opened Wrappers

  /** Characters at which `str.splitlines` ends a line ("\r\n" counts as one break). */
  predicate IsLineBreak(c: char) {
    c == '\n' || c == '\r' || c == '\U{0B}' || c == '\U{0C}' || c == '\U{1C}' || c == '\U{1D}' ||
    c == '\U{1E}' || c == '\U{85}' || c == '\U{2028}' || c == '\U{2029}'
  }

  /** `str.isspace` for one character, which is also what `\s` matches. */
  predicate IsSpace(c: char) {
    IsLineBreak(c) || c == '\t' || c == '\U{1F}' || c == ' ' || c == '\U{A0}' || c == '\U{1680}' ||
    '\U{2000}' <= c <= '\U{200A}' || c == '\U{202F}' || c == '\U{205F}' || c == '\U{3000}'
  }

  predicate IsBlank(c: char) { c == ' ' || c == '\t' }

  predicate IsCrLf(c: char) { c == '\r' || c == '\n' }

  /** The end of the longest run from `i` of characters satisfying `p`. */
  function RunEnd(s: string, i: nat, p: char -> bool): (e: nat)
    requires i <= |s|
    ensures i <= e <= |s|
    ensures forall k :: i <= k < e ==> p(s[k])
    ensures e < |s| ==> !p(s[e])
    decreases |s| - i
  {
    if i < |s| && p(s[i]) then RunEnd(s, i + 1, p) else i
  }

  /** `s` without its longest suffix of characters satisfying `p`. */
  function StripRight(s: string, p: char -> bool): (r: string)
    ensures r <= s
    ensures forall k :: |r| <= k < |s| ==> p(s[k])
    ensures r != [] ==> !p(r[|r| - 1])
  {
    if s != [] && p(s[|s| - 1]) then StripRight(s[..|s| - 1], p) else s
  }

  // ----- lines -----

  /** The end (past its line break) of the line that contains position `i`. */
  function LineEnd(s: string, i: nat): (e: nat)
    requires i < |s|
    ensures i < e <= |s|
    decreases |s| - i
  {
    if s[i] == '\r' && i + 1 < |s| && s[i + 1] == '\n' then i + 2
    else if IsLineBreak(s[i]) || i + 1 == |s| then i + 1
    else LineEnd(s, i + 1)
  }

  /** Position `p` begins a line: it is 0 or follows a line break it does not split. */
  predicate IsLineStart(s: string, p: nat)
    requires p < |s|
  {
    p == 0 || (IsLineBreak(s[p - 1]) && !(s[p - 1] == '\r' && s[p] == '\n'))
  }

  /** Lines are adjacent: the next line start after `p` is the end of the line of `p`. */
  lemma {:induction false} NextLineStart(s: string, p: nat)
    requires p < |s|
    ensures LineEnd(s, p) < |s| ==> IsLineStart(s, LineEnd(s, p))
    ensures forall q :: p < q < LineEnd(s, p) ==> !IsLineStart(s, q)
    decreases |s| - p
  {
    if !(s[p] == '\r' && p + 1 < |s| && s[p + 1] == '\n') && !IsLineBreak(s[p]) && p + 1 < |s| {
      NextLineStart(s, p + 1);
      assert !IsLineStart(s, p + 1);
    }
  }

  /** The line at `p` as the parser sees it, without trailing carriage returns and newlines. */
  function LogicalLine(s: string, p: nat): string
    requires p < |s|
  {
    StripRight(s[p..LineEnd(s, p)], IsCrLf)
  }

  // ----- boundary patterns -----

  /** The four boundary expressions, best first (markdown_chunker.py:36-39). */
  datatype Pattern = Paragraph | Line | Sentence | Whitespace

  /** Length of `\r?\n` at `i`, 0 when it does not match. */
  function NewlineAt(s: string, i: nat): (n: nat)
    requires i <= |s|
    ensures i + n <= |s|
  {
    if i < |s| && s[i] == '\n' then 1
    else if i + 1 < |s| && s[i] == '\r' && s[i + 1] == '\n' then 2
    else 0
  }

  predicate IsTerminator(c: char) {
    c == '.' || c == '!' || c == '?' || c == '\U{3002}' || c == '\U{FF01}' || c == '\U{FF1F}'
  }

  predicate IsCloser(c: char) { c == '"' || c == '\'' || c == ')' || c == ']' }

  /** Where a match of `p` that begins at `i` ends, if there is one. */
  function MatchAt(p: Pattern, s: string, i: nat): (e: Option<nat>)
    requires i < |s|
    ensures e.Some? ==> i < e.value <= |s|
  {
    match p
    case Paragraph =>
      var a := NewlineAt(s, i);
      if a == 0 then None else
        var b := RunEnd(s, i + a, IsBlank);
        var c := NewlineAt(s, b);
        if c == 0 then None else Some(b + c)
    case Line =>
      var a := NewlineAt(s, i);
      if a == 0 then None else Some(i + a)
    case Sentence =>
      if !IsTerminator(s[i]) then None else
        var b := RunEnd(s, i + 1, IsCloser);
        var c := RunEnd(s, b, IsBlank);
        if c == b then None else Some(c)
    case Whitespace =>
      var e := RunEnd(s, i, IsSpace);
      if e == i then None else Some(e)
  }

  /** `[m.end() for m in p.finditer(s)]`, scanning from `i`: leftmost, non-overlapping matches. */
  function MatchEnds(p: Pattern, s: string, i: nat): (ends: seq<nat>)
    requires i <= |s|
    ensures forall k :: 0 <= k < |ends| ==> i < ends[k] <= |s|
    decreases |s| - i
  {
    if i == |s| then []
    else match MatchAt(p, s, i)
      case None => MatchEnds(p, s, i + 1)
      case Some(e) => [e] + MatchEnds(p, s, e)
  }

  /** A text that ends in whitespace has a whitespace match that ends with it. */
  lemma {:induction false} WhitespaceReachesEnd(s: string, i: nat)
    requires i < |s| && IsSpace(s[|s| - 1])
    ensures |s| in MatchEnds(Whitespace, s, i)
    decreases |s| - i
  {
    match MatchAt(Whitespace, s, i)
    case None => WhitespaceReachesEnd(s, i + 1);
    case Some(e) =>
      if e < |s| { WhitespaceReachesEnd(s, e); }
  }
}
