/**
  Parsing a piece of a source by itself: when it works, and which fences it finds. The audit does
  this with every chunk (app/ingestion/markdown_chunker.py:554-609, 711-712).
 */
module ChunkPieces {
  import opened Wrappers
  import opened PyText
  import opened MarkdownParser
  import opened MarkdownStructure
  import opened Chunker

  // ----- lines that open a fence -----

  /** Three equal fence characters at `i`. */
  predicate FenceRun(s: string, i: nat) {
    i + 2 < |s| && (s[i] == '`' || s[i] == '~') && s[i] == s[i + 1] == s[i + 2]
  }

  predicate OpensAt(line: string, i: nat) {
    FenceRun(line, i) && forall k :: 0 <= k < i ==> IsBlank(line[k])
  }

  lemma OpenIff(line: string)
    ensures FenceOpen(line).Some? <==> exists i: nat :: OpensAt(line, i)
  {
    var i := RunEnd(line, 0, IsBlank);
    if i < |line| {
      var n := RunEnd(line, i, c => c == line[i]) - i;
      if FenceOpen(line).Some? { assert n >= 3 && OpensAt(line, i); }
    }
    forall j: nat | OpensAt(line, j)
      ensures FenceOpen(line).Some?
    {
      assert i == j;
    }
  }

  /** A line opens a fence when its beginning does. */
  lemma OpensLonger(x: string, y: string)
    requires x <= y && FenceOpen(x).Some?
    ensures FenceOpen(y).Some?
  {
    hide FenceOpen;
    OpenIff(x);
    OpenIff(y);
    var i: nat :| OpensAt(x, i);
    assert OpensAt(y, i);
  }

  lemma StripsLonger(x: string, y: string, p: char -> bool)
    requires x <= y
    ensures StripRight(x, p) <= StripRight(y, p)
  {
    hide StripRight;
    var kept := StripRight(x, p);
    assert kept != [] ==> y[|kept| - 1] == kept[|kept| - 1];
  }

  // ----- the lines of a piece -----

  /** Where a line of the source ends in a piece that stops at `b`. */
  lemma {:induction false} LineEndIn(s: string, a: nat, b: nat, q: nat)
    requires a + q < b <= |s|
    ensures LineEnd(s[a..b], q) == Min(LineEnd(s, a + q), b) - a
    decreases b - q
  {
    var t := s[a..b];
    if !(t[q] == '\r' && q + 1 < |t| && t[q + 1] == '\n') && !IsLineBreak(t[q]) && q + 1 < |t| {
      LineEndIn(s, a, b, q + 1);
    }
  }

  lemma PartOfPiece(s: string, a: nat, b: nat, q: nat, e: nat)
    requires a <= b <= |s| && q <= e <= b - a
    ensures s[a..b][q..e] == s[a + q..a + e]
  {
    assert forall k :: 0 <= k < e - q ==> s[a..b][q..e][k] == s[a..b][q + k] == s[a + q + k];
  }

  /** A line of the source is the same line in a piece that holds it, and its beginning in one that cuts it. */
  lemma LineIn(s: string, a: nat, b: nat, q: nat)
    requires a + q < b <= |s|
    ensures LogicalLine(s[a..b], q) <= LogicalLine(s, a + q)
    ensures LineEnd(s, a + q) <= b ==> LogicalLine(s[a..b], q) == LogicalLine(s, a + q)
  {
    hide LineEnd, StripRight;
    LineEndIn(s, a, b, q);
    var e := LineEnd(s, a + q);
    PartOfPiece(s, a, b, q, Min(e, b) - a);
    assert s[a + q..Min(e, b)] <= s[a + q..e];
    StripsLonger(s[a + q..Min(e, b)], s[a + q..e], IsCrLf);
  }

  // ----- the fences of a piece -----

  /** The fences in `[a, b)`, as positions of that piece. */
  function Within(fences: seq<Fence>, a: nat, b: nat): seq<Fence> {
    if fences == [] then []
    else
      var f := fences[|fences| - 1];
      Within(fences[..|fences| - 1], a, b) + if a <= f.start <= f.end <= b then [Fence(f.start - a, f.end - a)] else []
  }

  lemma {:induction false} WithinIs(fences: seq<Fence>, a: nat, b: nat)
    ensures forall g :: g in Within(fences, a, b) <==> InPiece(fences, a, b, g)
  {
    if fences != [] {
      var n := |fences| - 1;
      WithinIs(fences[..n], a, b);
      var f := fences[n];
      forall g
        ensures InPiece(fences, a, b, g) <==>
                InPiece(fences[..n], a, b, g) || (a <= f.start <= f.end <= b && g == Fence(f.start - a, f.end - a))
      {
        assert fences == fences[..n] + [f];
        assert g.start + a == f.start && g.end + a == f.end ==> Fence(g.start + a, g.end + a) == f;
      }
    }
  }

  /** `g` is a fence of the source moved to the piece. */
  predicate InPiece(fences: seq<Fence>, a: nat, b: nat, g: Fence) {
    g.start <= g.end && g.end + a <= b && Fence(g.start + a, g.end + a) in fences
  }

  lemma {:induction false} WithinOrdered(fences: seq<Fence>, a: nat, b: nat)
    requires Ordered(fences)
    ensures Ordered(Within(fences, a, b))
  {
    if fences != [] {
      var n := |fences| - 1;
      var before := Within(fences[..n], a, b);
      WithinOrdered(fences[..n], a, b);
      WithinIs(fences[..n], a, b);
      forall k | 0 <= k < |before|
        ensures before[k].end + a <= fences[n].start
      {
        assert before[k] in before;
        assert InPiece(fences[..n], a, b, before[k]);
        var j :| 0 <= j < n && fences[j] == Fence(before[k].start + a, before[k].end + a);
      }
    }
  }

  /** A piece whose edges cut no fence, and whose first line opens none it did not open in the source. */
  ghost predicate CleanPiece(s: string, fs: seq<Fence>, a: nat, b: nat) {
    a < b <= |s| && !InsideFence(a, fs) && !InsideFence(b, fs) &&
    (IsLineStart(s, a) || FenceOpen(LogicalLine(s[a..b], 0)).None?)
  }

  lemma FenceInPiece(s: string, a: nat, b: nat, f: Fence)
    requires IsFence(s, f) && a <= f.start && f.end <= b <= |s|
    ensures IsFence(s[a..b], Fence(f.start - a, f.end - a))
  {
    hide LineEnd, LogicalLine, FenceOpen, Closes;
    var t, g := s[a..b], Fence(f.start - a, f.end - a);
    var m := FenceOpen(LogicalLine(s, f.start)).value;
    var q: nat :| ClosedBy(s, f, m, q);
    LineIn(s, a, b, g.start);
    LineEndIn(s, a, b, g.start);
    LineIn(s, a, b, q - a);
    LineEndIn(s, a, b, q - a);
    forall p | LineEnd(t, g.start) <= p < q - a && IsLineStart(t, p)
      ensures !Closes(LogicalLine(t, p), m)
    {
      LineIn(s, a, b, p);
      NextLineAfter(s, a + p, q);
    }
    assert ClosedBy(t, g, m, q - a);
  }

  /** A line ends no later than the next line begins. */
  lemma NextLineAfter(s: string, p: nat, q: nat)
    requires p < q < |s| && IsLineStart(s, q)
    ensures LineEnd(s, p) <= q
  {
    hide LineEnd;
    NextLineStart(s, p);
  }

  /** A position of the piece in some fence of the source lies in a fence of the piece. */
  lemma CoveredInPiece(s: string, fs: seq<Fence>, a: nat, b: nat, p: nat)
    requires FencesOf(s, fs) && a < b <= |s| && !InsideFence(a, fs) && !InsideFence(b, fs)
    requires a + p < b && !Outside(fs, a + p)
    ensures !Outside(Within(fs, a, b), p)
  {
    hide Within, FencesOf;
    var k :| 0 <= k < |fs| && fs[k].start <= a + p < fs[k].end;
    var g := Fence(fs[k].start - a, fs[k].end - a);
    assert fs[k] == Fence(g.start + a, g.end + a);
    WithinIs(fs, a, b);
    assert InPiece(fs, a, b, g);
    var i :| 0 <= i < |Within(fs, a, b)| && Within(fs, a, b)[i] == g;
  }

  /** A line of the source outside its fences opens none in the piece either. */
  lemma PlainLineInPiece(s: string, fs: seq<Fence>, a: nat, b: nat, p: nat)
    requires FencesOf(s, fs) && a < b <= |s| && !InsideFence(a, fs) && !InsideFence(b, fs)
    requires a + p < b && IsLineStart(s, a + p) && Outside(Within(fs, a, b), p)
    ensures FenceOpen(LogicalLine(s[a..b], p)).None?
  {
    hide LogicalLine, FenceOpen, LineEnd, Closes, IsLineStart, Within, FencesOf, Outside, InsideFence;
    if !Outside(fs, a + p) { CoveredInPiece(s, fs, a, b, p); }
    OutsideOpensNone(s, fs, a + p);
    LineIn(s, a, b, p);
    if FenceOpen(LogicalLine(s[a..b], p)).Some? { OpensLonger(LogicalLine(s[a..b], p), LogicalLine(s, a + p)); }
  }

  lemma OutsideOpensNone(s: string, fs: seq<Fence>, p: nat)
    requires FencesOf(s, fs) && p < |s| && IsLineStart(s, p) && Outside(fs, p)
    ensures FenceOpen(LogicalLine(s, p)).None?
  {}

  /** A clean piece has, taken by itself, exactly the fences of the source that lie in it. */
  lemma PieceFences(s: string, fs: seq<Fence>, a: nat, b: nat)
    requires FencesOf(s, fs) && CleanPiece(s, fs, a, b)
    ensures FencesOf(s[a..b], Within(fs, a, b))
  {
    hide LogicalLine, FenceOpen, LineEnd, Closes, IsFence, Within, InsideFence;
    var t, gs := s[a..b], Within(fs, a, b);
    WithinIs(fs, a, b);
    FencesOrdered(s, fs);
    WithinOrdered(fs, a, b);
    forall k | 0 <= k < |gs|
      ensures IsFence(t, gs[k])
    {
      assert gs[k] in gs && InPiece(fs, a, b, gs[k]);
      FenceInPiece(s, a, b, Fence(gs[k].start + a, gs[k].end + a));
    }
    forall p | 0 <= p < |t| && IsLineStart(t, p) && Outside(gs, p)
      ensures FenceOpen(LogicalLine(t, p)).None?
    {
      if IsLineStart(s, a + p) { PlainLineInPiece(s, fs, a, b, p); }
    }
  }

  /** A clean piece parses by itself, into exactly the fences of the source that lie in it. */
  lemma CleanPieceParses(s: string, fs: seq<Fence>, a: nat, b: nat)
    requires FencesOf(s, fs) && CleanPiece(s, fs, a, b)
    ensures Parse(s[a..b]).Ok? && Parse(s[a..b]).value.fences == Within(fs, a, b)
  {
    hide Parse, FencesOf, SectionsOf, Within, CleanPiece;
    assert s[a..b] != [] by { PieceNotEmpty(s, fs, a, b); }
    PieceFences(s, fs, a, b);
    FencedSourceParses(s[a..b], Within(fs, a, b));
    ParseSound(s[a..b]);
    FencesUnique(s[a..b], Within(fs, a, b), Parse(s[a..b]).value.fences);
  }

  lemma PieceNotEmpty(s: string, fs: seq<Fence>, a: nat, b: nat)
    requires CleanPiece(s, fs, a, b)
    ensures a < b <= |s| && s[a..b] != []
  {}

  /** A piece that is refused begins within a line, and the rest of that line opens a fence. */
  lemma RefusedPiece(s: string, fs: seq<Fence>, a: nat, b: nat)
    requires FencesOf(s, fs) && a < b <= |s| && !InsideFence(a, fs) && !InsideFence(b, fs)
    requires Parse(s[a..b]).Err?
    ensures !IsLineStart(s, a) && FenceOpen(LogicalLine(s[a..b], 0)).Some? && FenceOpen(LogicalLine(s, a)).Some?
  {
    hide Parse, FencesOf, FenceOpen, LogicalLine, IsLineStart, InsideFence;
    if CleanPiece(s, fs, a, b) { CleanPieceParses(s, fs, a, b); }
    LineIn(s, a, b, 0);
    OpensLonger(LogicalLine(s[a..b], 0), LogicalLine(s, a));
  }

  // ----- sources all of whose pieces parse -----

  /** No run of three equal fence characters stands outside the fences. */
  ghost predicate NoStrayRun(s: string, fs: seq<Fence>) {
    forall i: nat :: FenceRun(s, i) ==> !Outside(fs, i)
  }

  ghost predicate PiecesParse(s: string, fs: seq<Fence>) {
    forall a: nat, b: nat :: a < b <= |s| && !InsideFence(a, fs) && !InsideFence(b, fs) ==> Parse(s[a..b]).Ok?
  }

  /** A run of three fence characters in the rest of a line that begins outside the fences is a stray one. */
  lemma StrayRun(s: string, fs: seq<Fence>, a: nat)
    requires FencesOf(s, fs) && a < |s| && !InsideFence(a, fs) && !IsLineStart(s, a)
    requires FenceOpen(LogicalLine(s, a)).Some?
    ensures !NoStrayRun(s, fs)
  {
    hide FenceOpen, LineEnd, StripRight, FencesOf;
    var line := LogicalLine(s, a);
    OpenIff(line);
    var i: nat :| OpensAt(line, i);
    assert line <= s[a..LineEnd(s, a)];
    assert FenceRun(s, a + i);
    forall k | 0 <= k < |fs|
      ensures !(fs[k].start <= a + i < fs[k].end)
    {
      FenceStartsLine(s, fs, k);
      if a < fs[k].start <= a + i { NextLineStart(s, a); }
    }
  }

  lemma FenceStartsLine(s: string, fs: seq<Fence>, k: nat)
    requires FencesOf(s, fs) && k < |fs|
    ensures fs[k].start < fs[k].end <= |s| && IsLineStart(s, fs[k].start)
  {
    hide LogicalLine, FenceOpen, LineEnd, Closes;
    LastFenceIsFence(s, fs, k);
  }

  /** A stray run is itself a piece that does not parse. */
  lemma StrayRunRefused(s: string, fs: seq<Fence>, i: nat)
    requires FencesOf(s, fs) && FenceRun(s, i) && Outside(fs, i)
    ensures !InsideFence(i, fs) && !InsideFence(i + 3, fs) && Parse(s[i..i + 3]) == Err(UnclosedFence)
  {
    hide FencesOf, Parse, Outside;
    assert forall k :: 0 <= k < |fs| ==> !(fs[k].start <= i < fs[k].end) by { OutsideAll(fs, i); }
    forall k | 0 <= k < |fs|
      ensures !(fs[k].start < i + 3 < fs[k].end)
    {
      FenceStartsLine(s, fs, k);
    }
    RunAlone(s[i..i + 3], s[i]);
  }

  lemma OutsideAll(fs: seq<Fence>, i: nat)
    requires Outside(fs, i)
    ensures forall k :: 0 <= k < |fs| ==> !(fs[k].start <= i < fs[k].end)
  {}

  lemma RunAlone(t: string, c: char)
    requires t == [c, c, c] && (c == '`' || c == '~')
    ensures Parse(t) == Err(UnclosedFence)
  {
    assert LineEnd(t, 2) == 3 && LineEnd(t, 1) == 3 && LineEnd(t, 0) == 3;
    assert t[0..3] == t && LogicalLine(t, 0) == t;
    OpenIff(t);
    assert OpensAt(t, 0);
    hide FenceOpen, HeadingOf, LogicalLine;
    var st := Step(t, INITIAL_STATE);
    assert st.offset == |t| && Run(t, st) == st;
    assert Run(t, INITIAL_STATE) == st;
  }

  /** Every piece whose edges cut no fence parses by itself exactly when no run of fence characters is stray. */
  lemma PiecesParseIff(s: string, fs: seq<Fence>)
    requires FencesOf(s, fs)
    ensures PiecesParse(s, fs) <==> NoStrayRun(s, fs)
  {
    hide FencesOf, Parse, Outside, FenceOpen, LogicalLine, IsLineStart, InsideFence;
    if NoStrayRun(s, fs) {
      forall a: nat, b: nat | a < b <= |s| && !InsideFence(a, fs) && !InsideFence(b, fs)
        ensures Parse(s[a..b]).Ok?
      {
        if Parse(s[a..b]).Err? {
          RefusedPiece(s, fs, a, b);
          StrayRun(s, fs, a);
        }
      }
    } else {
      var i: nat :| FenceRun(s, i) && Outside(fs, i);
      StrayRunRefused(s, fs, i);
    }
  }
}
