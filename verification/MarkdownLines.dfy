/**
  What the line classifiers of the parser recognise, as decompositions of the line: the text a regular
  expression accepts is a concatenation of its parts (app/ingestion/markdown_chunker.py:34-35, 583-626).
 */
module MarkdownLines {
  import opened Wrappers
  import opened PyText
  import opened MarkdownParser

  ghost predicate All(s: string, p: char -> bool) { forall k :: 0 <= k < |s| ==> p(s[k]) }

  ghost predicate BeginsWith(s: string, p: char -> bool) { s != [] && p(s[0]) }

  ghost predicate EndsWith(s: string, p: char -> bool) { s != [] && p(s[|s| - 1]) }

  ghost predicate Run(s: string, a: nat, b: nat, p: char -> bool) {
    a <= b <= |s| && forall k :: a <= k < b ==> p(s[k])
  }

  lemma RunEndIs(s: string, i: nat, e: nat, p: char -> bool)
    requires Run(s, i, e, p) && (e < |s| ==> !p(s[e]))
    ensures RunEnd(s, i, p) == e
  {}

  /** The longest run is what is followed by something else. */
  lemma RunIs(s: string, i: nat, run: string, rest: string, p: char -> bool)
    requires i <= |s| && s[i..] == run + rest && All(run, p) && !BeginsWith(rest, p)
    ensures RunEnd(s, i, p) == i + |run|
  {
    assert forall k :: 0 <= k < |run| ==> s[i + k] == s[i..][k] == run[k];
    assert rest != [] ==> s[i + |run|] == s[i..][|run|] == rest[0];
  }

  lemma RunSplits(s: string, i: nat, p: char -> bool)
    requires i <= |s|
    ensures var e := RunEnd(s, i, p); s[i..] == s[i..e] + s[e..] && All(s[i..e], p) && !BeginsWith(s[e..], p)
  {}

  /** What is left when the longest suffix goes. */
  lemma {:induction false} StripIs(s: string, kept: string, rest: string, p: char -> bool)
    requires s == kept + rest && All(rest, p) && !EndsWith(kept, p)
    ensures StripRight(s, p) == kept
  {
    if rest != [] {
      assert s[..|s| - 1] == kept + rest[..|rest| - 1];
      StripIs(s[..|s| - 1], kept, rest[..|rest| - 1], p);
    } else {
      assert s == kept;
    }
  }

  lemma StripSplits(s: string, p: char -> bool)
    ensures var r := StripRight(s, p); s == r + s[|r|..] && All(s[|r|..], p) && !EndsWith(r, p)
  {}

  // ----- lines -----

  /** A logical line is its line without the carriage returns and newlines at its end. */
  lemma LogicalLineIs(s: string, p: nat)
    requires p < |s|
    ensures var line, kept := s[p..LineEnd(s, p)], LogicalLine(s, p);
            kept <= line && All(line[|kept|..], c => c == '\r' || c == '\n') &&
            !EndsWith(kept, c => c == '\r' || c == '\n')
  {
    StripSplits(s[p..LineEnd(s, p)], IsCrLf);
  }

  // ----- fences -----

  /** Blanks, a run of the mark as long as can be, and anything. */
  ghost predicate OpensAs(line: string, blanks: string, run: string, info: string, m: Marker) {
    line == blanks + run + info && All(blanks, IsBlank) && All(run, c => c == m.ch) &&
    !BeginsWith(info, c => c == m.ch) && (m.ch == '`' || m.ch == '~') && |run| == m.length >= 3
  }

  /** A line opens a fence exactly when it begins so. */
  lemma FenceOpenIff(line: string, m: Marker)
    ensures FenceOpen(line) == Some(m) <==> exists blanks, run, info :: OpensAs(line, blanks, run, info, m)
  {
    hide OpensAs;
    if FenceOpen(line) == Some(m) { FenceOpenSplits(line, m); }
    if exists blanks, run, info :: OpensAs(line, blanks, run, info, m) {
      var blanks, run, info :| OpensAs(line, blanks, run, info, m);
      FenceOpenFrom(line, blanks, run, info, m);
    }
  }

  lemma FenceOpenSplits(line: string, m: Marker)
    requires FenceOpen(line) == Some(m)
    ensures exists blanks, run, info :: OpensAs(line, blanks, run, info, m)
  {
    var i := RunEnd(line, 0, IsBlank);
    var ch := line[i];
    var j := RunEnd(line, i, c => c == ch);
    assert line == line[..i] + line[i..j] + line[j..];
    assert OpensAs(line, line[..i], line[i..j], line[j..], m);
  }

  lemma FenceOpenFrom(line: string, blanks: string, run: string, info: string, m: Marker)
    requires OpensAs(line, blanks, run, info, m)
    ensures FenceOpen(line) == Some(m)
  {
    var i := |blanks|;
    assert line[0..] == blanks + (run + info) && line[i] == m.ch && line[i..] == run + info;
    RunIs(line, 0, blanks, run + info, IsBlank);
    var ch := line[i];
    RunIs(line, i, run, info, c => c == ch);
  }

  /** Blanks, at least as many marks, and blanks. */
  ghost predicate ClosesAs(line: string, before: string, run: string, after: string, m: Marker) {
    line == before + run + after && All(before, IsBlank) && All(run, c => c == m.ch) && All(after, IsBlank) &&
    |run| >= m.length
  }

  /** A line closes a fence exactly when it is of this form. */
  lemma ClosesIff(line: string, m: Marker)
    requires m.length >= 3 && !IsBlank(m.ch)
    ensures Closes(line, m) <==> exists before, run, after :: ClosesAs(line, before, run, after, m)
  {
    if Closes(line, m) {
      var i := RunEnd(line, 0, IsBlank);
      var j := RunEnd(line, i, c => c == m.ch);
      assert line == line[..i] + line[i..j] + line[j..];
      assert ClosesAs(line, line[..i], line[i..j], line[j..], m);
    }
    if exists before, run, after :: ClosesAs(line, before, run, after, m) {
      var before, run, after :| ClosesAs(line, before, run, after, m);
      ClosesFrom(line, before, run, after, m);
    }
  }

  lemma ClosesFrom(line: string, before: string, run: string, after: string, m: Marker)
    requires m.length >= 3 && !IsBlank(m.ch) && ClosesAs(line, before, run, after, m)
    ensures Closes(line, m)
  {
    var i, j := |before|, |before| + |run|;
    assert line[0..] == before + (run + after) && line[i..] == run + after && line[j..] == after + [];
    RunIs(line, 0, before, run + after, IsBlank);
    RunIs(line, i, run, after, c => c == m.ch);
    RunIs(line, j, after, [], IsBlank);
  }

  // ----- headings -----

  /**
    At most three spaces up to `i`, two or three marks up to `j`, blanks up to `t`, the title without
    blanks at its ends up to `e`, and blanks.
   */
  ghost predicate HeadingAt(line: string, i: nat, j: nat, t: nat, e: nat) {
    i <= 3 && i + 2 <= j <= i + 3 && j < t <= e <= |line| &&
    Run(line, 0, i, c => c == ' ') && Run(line, i, j, c => c == '#') && Run(line, j, t, IsBlank) &&
    Run(line, e, |line|, IsBlank) &&
    if t < e then !IsBlank(line[t]) && !IsBlank(line[e - 1]) else t == |line|
  }

  /** Blanks, and from `k` on marks. */
  ghost predicate ClosingAt(s: string, k: int) { 0 < k < |s| && All(s[..k], IsBlank) && All(s[k..], c => c == '#') }

  /** Blanks and marks that close a title. */
  ghost predicate Closing(s: string) { exists k :: ClosingAt(s, k) }

  /** The title without what closes it, if something does. */
  ghost predicate Unclosed(title: string, kept: string) {
    if exists n :: 0 <= n <= |title| && Closing(title[n..])
    then kept <= title && !EndsWith(kept, IsBlank) && Closing(title[|kept|..])
    else kept == title
  }

  /** `kept` is in `s` at `i`, with whitespace only around it. */
  ghost predicate PaddedAt(s: string, kept: string, i: nat) {
    i + |kept| <= |s| && s[i..i + |kept|] == kept && Run(s, 0, i, IsSpace) && Run(s, i + |kept|, |s|, IsSpace)
  }

  /** The text without whitespace at its ends. */
  ghost predicate Stripped(s: string, kept: string) {
    !BeginsWith(kept, IsSpace) && !EndsWith(kept, IsSpace) && exists i: nat :: PaddedAt(s, kept, i)
  }

  /** The normal form of a title: unclosed, stripped, and if nothing is left the marks. */
  ghost predicate TitleIs(marks: string, title: string, out: string) {
    exists kept, inner :: Unclosed(title, kept) && Stripped(kept, inner) && out == if inner == [] then marks else inner
  }

  lemma StrippedIff(s: string, kept: string)
    ensures Stripped(s, kept) <==> kept == Strip(s)
  {
    if kept == Strip(s) { StripsSo(s); }
    if Stripped(s, kept) {
      var i: nat :| PaddedAt(s, kept, i);
      StripsTo(s, kept, i);
    }
  }

  lemma StripsSo(s: string)
    ensures Stripped(s, Strip(s))
  {
    var i, r := RunEnd(s, 0, IsSpace), Strip(s);
    assert s[i..i + |r|] == r;
    assert forall k :: i + |r| <= k < |s| ==> s[k] == s[i..][k - i];
    assert r != [] ==> r[0] == s[i];
    assert PaddedAt(s, r, i);
  }

  lemma StripsTo(s: string, kept: string, i: nat)
    requires PaddedAt(s, kept, i) && !BeginsWith(kept, IsSpace) && !EndsWith(kept, IsSpace)
    ensures Strip(s) == kept
  {
    hide IsSpace;
    if kept == [] {
      RunEndIs(s, 0, |s|, IsSpace);
    } else {
      assert s[i] == kept[0];
      RunEndIs(s, 0, i, IsSpace);
      var rest := s[i + |kept|..];
      assert s[i..] == kept + rest;
      StripIs(s[i..], kept, rest, IsSpace);
    }
  }

  lemma ClosingFound(title: string, n: nat, k: int)
    requires n <= |title| && ClosingAt(title[n..], k)
    ensures StripRight(title, c => c == '#') == title[..n + k]
    ensures WithoutClosing(title) == StripRight(title[..n + k], IsBlank)
    ensures !EndsWith(title[..n], IsBlank) ==> WithoutClosing(title) == title[..n]
  {
    var rest := title[n..];
    assert title == title[..n + k] + title[n + k..] && title[n + k..] == rest[k..];
    assert title[..n + k][n + k - 1] == rest[..k][k - 1];
    StripIs(title, title[..n + k], title[n + k..], c => c == '#');
    if !EndsWith(title[..n], IsBlank) {
      assert title[..n + k] == title[..n] + rest[..k];
      StripIs(title[..n + k], title[..n], rest[..k], IsBlank);
    }
  }

  lemma ClosesSo(title: string)
    requires WithoutClosing(title) != title
    ensures var kept := WithoutClosing(title); kept <= title && !EndsWith(kept, IsBlank) && Closing(title[|kept|..])
  {
    var hashless := StripRight(title, c => c == '#');
    var kept := WithoutClosing(title);
    var k := |hashless| - |kept|;
    StripSplits(title, c => c == '#');
    StripSplits(hashless, IsBlank);
    var rest := title[|kept|..];
    assert rest[..k] == hashless[|kept|..] && rest[k..] == title[|hashless|..];
    assert ClosingAt(rest, k);
  }

  lemma UnclosedIff(title: string, kept: string)
    ensures Unclosed(title, kept) <==> kept == WithoutClosing(title)
  {
    hide WithoutClosing, ClosingAt, EndsWith;
    if exists n :: 0 <= n <= |title| && Closing(title[n..]) {
      var n :| 0 <= n <= |title| && Closing(title[n..]);
      var k :| ClosingAt(title[n..], k);
      Shortens(title, n, k);
      ClosesSo(title);
      if Unclosed(title, kept) {
        var l :| ClosingAt(title[|kept|..], l);
        assert title[..|kept|] == kept;
        ClosingFound(title, |kept|, l);
      }
    } else if WithoutClosing(title) != title {
      ClosesSo(title);
      assert false;
    }
  }

  lemma Shortens(title: string, n: nat, k: int)
    requires n <= |title| && ClosingAt(title[n..], k)
    ensures WithoutClosing(title) != title
  {
    ClosingFound(title, n, k);
  }

  /** Normalising a title gives its normal form. */
  lemma TitleIff(marks: string, title: string, out: string)
    ensures out == NormalizeTitle(marks, title) <==> TitleIs(marks, title, out)
  {
    hide Unclosed, Stripped, WithoutClosing, Strip;
    var kept := WithoutClosing(title);
    UnclosedIff(title, kept);
    StrippedIff(kept, Strip(kept));
    if TitleIs(marks, title, out) {
      var k, inner :| Unclosed(title, k) && Stripped(k, inner) && out == if inner == [] then marks else inner;
      UnclosedIff(title, k);
      StrippedIff(k, inner);
    }
  }

  /** A line is a heading exactly when it is of that form, and its title is the normal form of the one it has. */
  lemma HeadingIff(line: string, h: Heading)
    ensures HeadingOf(line) == Some(h) <==>
      exists i: nat, j: nat, t: nat, e: nat ::
        HeadingAt(line, i, j, t, e) && h.level == j - i && TitleIs(line[i..j], line[t..e], h.title)
  {
    hide Run, TitleIs, HeadingOf;
    if HeadingOf(line) == Some(h) { HeadingSplits(line, h); }
    if exists i: nat, j: nat, t: nat, e: nat ::
      HeadingAt(line, i, j, t, e) && h.level == j - i && TitleIs(line[i..j], line[t..e], h.title)
    {
      var i: nat, j: nat, t: nat, e: nat :|
        HeadingAt(line, i, j, t, e) && h.level == j - i && TitleIs(line[i..j], line[t..e], h.title);
      HeadingFrom(line, i, j, t, e);
      TitleIff(line[i..j], line[t..e], h.title);
    }
  }

  lemma HeadingSplits(line: string, h: Heading)
    requires HeadingOf(line) == Some(h)
    ensures exists i: nat, j: nat, t: nat, e: nat ::
      HeadingAt(line, i, j, t, e) && h.level == j - i && TitleIs(line[i..j], line[t..e], h.title)
  {
    hide TitleIs, NormalizeTitle;
    var i := RunEnd(line, 0, c => c == ' ');
    var j := RunEnd(line, i, c => c == '#');
    var t := RunEnd(line, j, IsBlank);
    var title := StripRight(line[t..], IsBlank);
    var e := t + |title|;
    assert title == line[t..e];
    assert forall k :: e <= k < |line| ==> line[k] == line[t..][k - t];
    assert t < e ==> line[t..e][|title| - 1] == line[e - 1];
    TitleIff(line[i..j], title, h.title);
    assert HeadingAt(line, i, j, t, e);
  }

  lemma HeadingFrom(line: string, i: nat, j: nat, t: nat, e: nat)
    requires HeadingAt(line, i, j, t, e)
    ensures HeadingOf(line) == Some(Heading(j - i, NormalizeTitle(line[i..j], line[t..e])))
  {
    hide NormalizeTitle;
    RunEndIs(line, 0, i, c => c == ' ');
    RunEndIs(line, i, j, c => c == '#');
    RunEndIs(line, j, t, IsBlank);
    assert line[t..] == line[t..e] + line[e..];
    StripIs(line[t..], line[t..e], line[e..], IsBlank);
  }
}
