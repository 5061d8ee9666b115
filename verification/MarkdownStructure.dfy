/**
  What the parser computes, said without the parser: the fenced blocks and the sections of
  a source are characterized by its lines alone, and `Parse` returns exactly those
  (app/ingestion/markdown_chunker.py:554-609).
 */
module MarkdownStructure {
  import opened Wrappers
  import opened PyText
  import opened MarkdownParser

  // ----- fenced blocks -----

  /** `q` is the first line after the opener of `f` that closes it, and `f` ends with that line. */
  ghost predicate ClosedBy(s: string, f: Fence, m: Marker, q: nat)
    requires f.start < |s|
  {
    LineEnd(s, f.start) <= q < |s| && IsLineStart(s, q) && Closes(LogicalLine(s, q), m) &&
    f.end == LineEnd(s, q) &&
    forall p :: LineEnd(s, f.start) <= p < q && IsLineStart(s, p) ==> !Closes(LogicalLine(s, p), m)
  }

  ghost predicate IsFence(s: string, f: Fence) {
    f.start < f.end <= |s| && IsLineStart(s, f.start) &&
    FenceOpen(LogicalLine(s, f.start)).Some? &&
    exists q :: ClosedBy(s, f, FenceOpen(LogicalLine(s, f.start)).value, q)
  }

  /** `p` lies in none of the half-open spans of `fences`. */
  ghost predicate Outside(fences: seq<Fence>, p: nat) {
    forall k :: 0 <= k < |fences| ==> !(fences[k].start <= p < fences[k].end)
  }

  ghost predicate Ordered(fences: seq<Fence>) {
    forall i, j :: 0 <= i < j < |fences| ==> fences[i].end <= fences[j].start
  }

  /** `fences` are blocks of `s` in order, and below `limit` no line outside them opens another. */
  ghost predicate FencesUpTo(s: string, fences: seq<Fence>, limit: nat) {
    (forall k :: 0 <= k < |fences| ==> IsFence(s, fences[k])) && Ordered(fences) &&
    forall p :: 0 <= p < limit && p < |s| && IsLineStart(s, p) && Outside(fences, p) ==>
      FenceOpen(LogicalLine(s, p)).None?
  }

  ghost predicate FencesOf(s: string, fences: seq<Fence>) {
    FencesUpTo(s, fences, |s|)
  }

  // ----- sections -----

  /** A heading line outside every fence begins at `p`. */
  ghost predicate HeadingStart(s: string, fences: seq<Fence>, p: nat) {
    p < |s| && IsLineStart(s, p) && Outside(fences, p) && HeadingOf(LogicalLine(s, p)).Some?
  }

  /** The title of the last level 2 heading before `p`. */
  ghost function LatestH2(s: string, fences: seq<Fence>, p: nat): Option<string>
    requires p <= |s|
  {
    if p == 0 then None
    else if HeadingStart(s, fences, p - 1) && HeadingOf(LogicalLine(s, p - 1)).value.level == 2
    then Some(HeadingOf(LogicalLine(s, p - 1)).value.title)
    else LatestH2(s, fences, p - 1)
  }

  /** The heading path in force at `p`: the heading at `p`, below the latest level 2 heading. */
  ghost function PathAt(s: string, fences: seq<Fence>, p: nat): seq<string>
    requires p < |s|
  {
    if !HeadingStart(s, fences, p) then [] else
      var h := HeadingOf(LogicalLine(s, p)).value;
      if h.level == 2 || LatestH2(s, fences, p).None? then [h.title]
      else [LatestH2(s, fences, p).value, h.title]
  }

  lemma {:induction false} LatestH2NotBlank(s: string, fences: seq<Fence>, p: nat)
    requires p <= |s|
    ensures LatestH2(s, fences, p).Some? ==> NotBlank(LatestH2(s, fences, p).value)
  {
    hide HeadingOf, LogicalLine, NotBlank;
    if p > 0 {
      LatestH2NotBlank(s, fences, p - 1);
      if HeadingStart(s, fences, p - 1) { HeadingNotBlank(LogicalLine(s, p - 1)); }
    }
  }

  /** Every component of a heading path is a title that is not blank. */
  lemma PathNotBlank(s: string, fences: seq<Fence>, p: nat)
    requires p < |s|
    ensures forall title :: title in PathAt(s, fences, p) ==> NotBlank(title)
  {
    hide HeadingOf, LogicalLine, NotBlank, LatestH2;
    LatestH2NotBlank(s, fences, p);
    if HeadingStart(s, fences, p) { HeadingNotBlank(LogicalLine(s, p)); }
  }

  /** Non-empty adjacent sections from 0 to `end`. */
  ghost predicate Partition(secs: seq<Section>, end: nat) {
    (if secs == [] then end == 0 else secs[0].start == 0 && secs[|secs| - 1].end == end) &&
    (forall k :: 0 <= k < |secs| ==> secs[k].start < secs[k].end) &&
    (forall k :: 0 < k < |secs| ==> secs[k - 1].end == secs[k].start)
  }

  ghost predicate StartsSection(secs: seq<Section>, p: nat) {
    exists k :: 0 <= k < |secs| && secs[k].start == p
  }

  /** The sections of `s`: a partition cut exactly at the headings, each with its path. */
  ghost predicate SectionsOf(s: string, fences: seq<Fence>, secs: seq<Section>) {
    Partition(secs, |s|) &&
    (forall p :: 0 < p < |s| ==> (StartsSection(secs, p) <==> HeadingStart(s, fences, p))) &&
    (forall k :: 0 <= k < |secs| ==> secs[k].start < |s| && secs[k].path == PathAt(s, fences, secs[k].start))
  }

  // ----- the loop invariant -----

  /** The fences that cover the lines read so far; an open fence reaches to the end. */
  ghost function Covering(s: string, st: State): seq<Fence> {
    st.fences + if st.open.Some? then [Fence(st.open.value.start, |s| + 1)] else []
  }

  ghost predicate FenceInv(s: string, st: State) {
    st.offset <= |s| && (st.offset < |s| ==> IsLineStart(s, st.offset)) &&
    FencesUpTo(s, st.fences, if st.open.Some? then st.open.value.start else st.offset) &&
    (forall k :: 0 <= k < |st.fences| ==>
       st.fences[k].end <= if st.open.Some? then st.open.value.start else st.offset) &&
    (st.open.Some? ==> OpenInv(s, st, st.open.value))
  }

  /** The open fence began at an opener and no line read since closes it. */
  ghost predicate OpenInv(s: string, st: State, o: OpenFence) {
    o.start < st.offset <= |s| && IsLineStart(s, o.start) && LineEnd(s, o.start) <= st.offset &&
    FenceOpen(LogicalLine(s, o.start)) == Some(o.marker) &&
    forall p :: LineEnd(s, o.start) <= p < st.offset && IsLineStart(s, p) ==>
      !Closes(LogicalLine(s, p), o.marker)
  }

  ghost predicate SectionInv(s: string, st: State) {
    var fs := Covering(s, st);
    st.offset <= |s| && st.sectionStart <= st.offset && Partition(st.sections, st.sectionStart) &&
    (if st.offset == 0 then st == INITIAL_STATE else st.sectionStart < st.offset) &&
    st.h2 == LatestH2(s, fs, st.offset) &&
    (st.offset > 0 ==> st.path == PathAt(s, fs, st.sectionStart)) &&
    (forall p :: 0 < p < st.offset ==>
       (p == st.sectionStart || StartsSection(st.sections, p) <==> HeadingStart(s, fs, p))) &&
    (forall k :: 0 <= k < |st.sections| ==>
       st.sections[k].start < |s| && st.sections[k].path == PathAt(s, fs, st.sections[k].start))
  }

  /** Headings, and so heading paths, depend on the fences only through what lies outside them. */
  lemma {:induction false} SameOutside(s: string, fs: seq<Fence>, gs: seq<Fence>, p: nat)
    requires p <= |s| && forall q :: 0 <= q < p ==> (Outside(fs, q) <==> Outside(gs, q))
    ensures LatestH2(s, fs, p) == LatestH2(s, gs, p)
    ensures forall q :: 0 <= q < p ==> (HeadingStart(s, fs, q) <==> HeadingStart(s, gs, q))
  {
    if p > 0 { SameOutside(s, fs, gs, p - 1); }
  }

  lemma SamePaths(s: string, fs: seq<Fence>, gs: seq<Fence>, p: nat)
    requires p <= |s| && forall q :: 0 <= q < p ==> (Outside(fs, q) <==> Outside(gs, q))
    ensures LatestH2(s, fs, p) == LatestH2(s, gs, p)
    ensures forall q :: 0 <= q < p ==> (HeadingStart(s, fs, q) <==> HeadingStart(s, gs, q))
    ensures forall q :: 0 <= q < p ==> PathAt(s, fs, q) == PathAt(s, gs, q)
  {
    SameOutside(s, fs, gs, p);
    forall q | 0 <= q < p
      ensures PathAt(s, fs, q) == PathAt(s, gs, q)
    {
      SameOutside(s, fs, gs, q);
    }
  }

  /** No heading begins between one line start and the next. */
  lemma {:induction false} NoHeadingWithin(s: string, fs: seq<Fence>, p: nat, e: nat)
    requires p < e <= |s| && forall q :: p < q < e ==> !IsLineStart(s, q)
    ensures LatestH2(s, fs, e) == LatestH2(s, fs, p + 1)
    ensures forall q :: p < q < e ==> !HeadingStart(s, fs, q)
  {
    hide HeadingOf, LogicalLine;
    if e > p + 1 { NoHeadingWithin(s, fs, p, e - 1); }
  }

  /** An outside position stays outside when blocks that begin later are added. */
  lemma OutsideExtended(fs: seq<Fence>, f: Fence, limit: nat)
    requires limit <= f.start
    ensures forall p :: 0 <= p < limit ==> (Outside(fs, p) <==> Outside(fs + [f], p))
  {
    forall p | 0 <= p < limit
      ensures Outside(fs, p) <==> Outside(fs + [f], p)
    {
      if Outside(fs, p) {
        forall k | 0 <= k < |fs + [f]|
          ensures !((fs + [f])[k].start <= p < (fs + [f])[k].end)
        {}
      }
      if Outside(fs + [f], p) {
        forall k | 0 <= k < |fs|
          ensures !(fs[k].start <= p < fs[k].end)
        {
          assert (fs + [f])[k] == fs[k];
        }
      }
    }
  }

  /** Closing the open fence with the line at the offset. */
  lemma CloseKeepsFences(s: string, st: State, r: State)
    requires st.offset < |s| && FenceInv(s, st) && st.open.Some? &&
      Closes(LogicalLine(s, st.offset), st.open.value.marker)
    requires r == st.(offset := LineEnd(s, st.offset), open := None,
                      fences := st.fences + [Fence(st.open.value.start, LineEnd(s, st.offset))])
    ensures FenceInv(s, r)
  {
    hide HeadingOf, LogicalLine, FenceOpen, Closes, LineEnd;
    var o, f := st.open.value, Fence(st.open.value.start, r.offset);
    NextLineStart(s, st.offset);
    assert ClosedBy(s, f, o.marker, st.offset);
    OutsideExtended(st.fences, f, o.start);
    forall q | o.start <= q < r.offset
      ensures !Outside(r.fences, q)
    {
      assert r.fences[|st.fences|] == f;
    }
  }

  lemma StepKeepsFences(s: string, st: State)
    requires st.offset < |s| && FenceInv(s, st)
    ensures FenceInv(s, Step(s, st))
  {
    hide HeadingOf, LogicalLine, FenceOpen, Closes, LineEnd;
    var p, r := st.offset, Step(s, st);
    NextLineStart(s, p);
    match st.open
    case None =>
      forall q | p < q < r.offset
        ensures !IsLineStart(s, q)
      {}
    case Some(o) =>
      if r.open.None? { CloseKeepsFences(s, st, r); }
  }

  /** What lies outside the covering fences below the offset does not change in a step. */
  lemma StepKeepsOutside(s: string, st: State)
    requires st.offset < |s| && FenceInv(s, st)
    ensures forall q :: 0 <= q < st.offset ==> (Outside(Covering(s, st), q) <==> Outside(Covering(s, Step(s, st)), q))
    ensures Outside(Covering(s, st), st.offset) <==> st.open.None?
    ensures Outside(Covering(s, Step(s, st)), st.offset) <==> st.open.None? && Step(s, st).open.None?
  {
    hide HeadingOf, LogicalLine, FenceOpen, Closes, LineEnd;
    var r := Step(s, st);
    if st.open.Some? {
      var o := st.open.value;
      OutsideExtended(st.fences, Fence(o.start, |s| + 1), o.start);
      assert Covering(s, st)[|st.fences|] == Fence(o.start, |s| + 1);
      if r.open.None? {
        OutsideExtended(st.fences, Fence(o.start, r.offset), o.start);
        assert Covering(s, r) == r.fences;
        assert r.fences[|st.fences|] == Fence(o.start, r.offset);
      }
    } else if r.open.Some? {
      OutsideExtended(st.fences, Fence(st.offset, |s| + 1), st.offset);
      assert Covering(s, r)[|st.fences|] == Fence(st.offset, |s| + 1);
      assert Covering(s, st) == st.fences;
    }
  }

  ghost predicate SameHeadings(s: string, fs: seq<Fence>, gs: seq<Fence>, p: nat)
    requires p <= |s|
  {
    LatestH2(s, fs, p) == LatestH2(s, gs, p) &&
    forall q :: 0 <= q < p ==>
      (HeadingStart(s, fs, q) <==> HeadingStart(s, gs, q)) && PathAt(s, fs, q) == PathAt(s, gs, q)
  }

  /** A step moves the headings seen, and the latest level 2 heading, past exactly one line. */
  lemma StepReadsOneLine(s: string, st: State)
    requires st.offset < |s| && FenceInv(s, st)
    ensures var gs, p, r := Covering(s, Step(s, st)), st.offset, Step(s, st);
            SameHeadings(s, Covering(s, st), gs, p) &&
            (forall q :: p < q < r.offset ==> !HeadingStart(s, gs, q)) &&
            (LatestH2(s, gs, r.offset) ==
             if HeadingStart(s, gs, p) && HeadingOf(LogicalLine(s, p)).value.level == 2
             then Some(HeadingOf(LogicalLine(s, p)).value.title) else LatestH2(s, gs, p)) &&
            (HeadingStart(s, gs, p) <==>
             st.open.None? && FenceOpen(LogicalLine(s, p)).None? && HeadingOf(LogicalLine(s, p)).Some?)
  {
    hide HeadingOf, LogicalLine, FenceOpen, Closes, LineEnd;
    var gs := Covering(s, Step(s, st));
    StepKeepsOutside(s, st);
    SamePaths(s, Covering(s, st), gs, st.offset);
    NextLineStart(s, st.offset);
    NoHeadingWithin(s, gs, st.offset, Step(s, st).offset);
  }

  lemma {:induction false} PartitionOrdered(secs: seq<Section>, end: nat, i: nat, j: nat)
    requires Partition(secs, end) && i < j < |secs|
    ensures secs[i].end <= secs[j].start
  {
    if i + 1 < j { PartitionOrdered(secs, end, i, j - 1); }
  }

  /** Closing a non-empty section at `p` extends the partition and its starts by one. */
  lemma PartitionExtended(secs: seq<Section>, start: nat, p: nat, path: seq<string>)
    requires Partition(secs, start) && start < p
    ensures Partition(secs + [Section(start, p, path)], p)
    ensures forall q :: StartsSection(secs + [Section(start, p, path)], q) <==> q == start || StartsSection(secs, q)
  {
    var r := secs + [Section(start, p, path)];
    forall q
      ensures StartsSection(r, q) <==> q == start || StartsSection(secs, q)
    {
      assert r[|secs|].start == start;
      if StartsSection(secs, q) {
        var k :| 0 <= k < |secs| && secs[k].start == q;
        assert r[k].start == q;
      }
    }
  }

  lemma NoHeadingNoPath(s: string, fs: seq<Fence>, p: nat)
    requires p < |s| && !HeadingStart(s, fs, p)
    ensures PathAt(s, fs, p) == []
  {}

  lemma SectionsBegunEarlier(st: State)
    requires Partition(st.sections, st.sectionStart)
    ensures forall k :: 0 <= k < |st.sections| ==> st.sections[k].start < st.sectionStart
  {
    forall k | 0 <= k < |st.sections|
      ensures st.sections[k].start < st.sectionStart
    {
      if k + 1 < |st.sections| { PartitionOrdered(st.sections, st.sectionStart, k, |st.sections| - 1); }
    }
  }

  /** A step over a line that is no heading only moves the offset and the fence state. */
  lemma PlainStepKeepsSections(s: string, st: State, r: State)
    requires st.offset < r.offset <= |s| && SectionInv(s, st)
    requires r == st.(offset := r.offset, fences := r.fences, open := r.open)
    requires SameHeadings(s, Covering(s, st), Covering(s, r), st.offset)
    requires forall q :: st.offset <= q < r.offset ==> !HeadingStart(s, Covering(s, r), q)
    requires LatestH2(s, Covering(s, r), r.offset) == LatestH2(s, Covering(s, r), st.offset)
    ensures SectionInv(s, r)
  {
    hide Covering, LatestH2, PathAt, HeadingStart;
    SectionsBegunEarlier(st);
    if st.offset == 0 { NoHeadingNoPath(s, Covering(s, r), 0); }
  }

  /** A step over a heading begins a section there. */
  lemma HeadingStepKeepsSections(s: string, st: State, r: State, h: Heading)
    requires st.offset < r.offset <= |s| && SectionInv(s, st)
    requires r == AtHeading(st.(offset := r.offset), st.offset, h)
    requires SameHeadings(s, Covering(s, st), Covering(s, r), st.offset)
    requires HeadingStart(s, Covering(s, r), st.offset) && HeadingOf(LogicalLine(s, st.offset)) == Some(h)
    requires forall q :: st.offset < q < r.offset ==> !HeadingStart(s, Covering(s, r), q)
    requires LatestH2(s, Covering(s, r), r.offset) ==
             if h.level == 2 then Some(h.title) else LatestH2(s, Covering(s, r), st.offset)
    ensures SectionInv(s, r)
  {
    hide Covering, LatestH2, PathAt, HeadingStart, HeadingOf, LogicalLine;
    var p, gs := st.offset, Covering(s, r);
    SectionsBegunEarlier(st);
    HeadingPath(s, gs, p, h);
    if p > st.sectionStart { PartitionExtended(st.sections, st.sectionStart, p, st.path); }
  }

  lemma HeadingPath(s: string, fs: seq<Fence>, p: nat, h: Heading)
    requires HeadingStart(s, fs, p) && HeadingOf(LogicalLine(s, p)) == Some(h)
    ensures PathAt(s, fs, p) ==
            if h.level == 2 || LatestH2(s, fs, p).None? then [h.title] else [LatestH2(s, fs, p).value, h.title]
  {
    hide LatestH2, HeadingStart, HeadingOf, LogicalLine;
  }

  lemma StepKeepsSections(s: string, st: State)
    requires st.offset < |s| && FenceInv(s, st) && SectionInv(s, st)
    ensures SectionInv(s, Step(s, st))
  {
    hide HeadingOf, LogicalLine, FenceOpen, Closes, LineEnd, Covering, FenceInv, LatestH2, PathAt, SectionInv,
    SameHeadings;
    StepReadsOneLine(s, st);
    var p, r := st.offset, Step(s, st);
    if HeadingStart(s, Covering(s, r), p) {
      HeadingStepKeepsSections(s, st, r, HeadingOf(LogicalLine(s, p)).value);
    } else {
      PlainStepKeepsSections(s, st, r);
    }
  }

  lemma {:induction false} RunKeepsInvariants(s: string, st: State)
    requires st.offset <= |s| && FenceInv(s, st) && SectionInv(s, st)
    ensures Run(s, st).offset == |s| && FenceInv(s, Run(s, st)) && SectionInv(s, Run(s, st))
    decreases |s| - st.offset
  {
    hide FenceInv, SectionInv, Step;
    if st.offset < |s| {
      StepKeepsFences(s, st);
      StepKeepsSections(s, st);
      RunKeepsInvariants(s, Step(s, st));
    }
  }

  lemma FinalStateInvariants(s: string)
    requires s != []
    ensures var r := Run(s, INITIAL_STATE); r.offset == |s| && FenceInv(s, r) && SectionInv(s, r)
  {
    RunKeepsInvariants(s, INITIAL_STATE);
  }

  /** Soundness: what the parser returns satisfies the characterization. */
  lemma ParseSound(s: string)
    requires Parse(s).Ok?
    ensures FencesOf(s, Parse(s).value.fences)
    ensures SectionsOf(s, Parse(s).value.fences, Parse(s).value.sections)
  {
    hide HeadingOf, LogicalLine, FenceOpen, Closes, LineEnd, LatestH2, PathAt, Run, IsFence;
    FinalStateInvariants(s);
    var r := Run(s, INITIAL_STATE);
    assert Covering(s, r) == r.fences;
    PartitionExtended(r.sections, r.sectionStart, |s|, r.path);
  }

  // ----- the characterization determines the result -----

  /** Two blocks with the same opener have the same closer. */
  lemma SameStartSameFence(s: string, f: Fence, g: Fence)
    requires IsFence(s, f) && IsFence(s, g) && f.start == g.start
    ensures f == g
  {
    hide HeadingOf, LogicalLine, FenceOpen, Closes, LineEnd;
    var m := FenceOpen(LogicalLine(s, f.start)).value;
    var q :| ClosedBy(s, f, m, q);
    var r :| ClosedBy(s, g, m, r);
    assert q == r;
  }

  lemma FenceFacts(s: string, fs: seq<Fence>, limit: nat)
    requires FencesUpTo(s, fs, limit)
    ensures Ordered(fs)
    ensures forall k :: 0 <= k < |fs| ==> IsOpener(s, fs[k].start) && fs[k].start < fs[k].end <= |s|
    ensures forall p :: 0 <= p < limit && IsOpener(s, p) ==> !Outside(fs, p)
  {
    hide LogicalLine, FenceOpen, LineEnd, Closes;
    forall k | 0 <= k < |fs|
      ensures IsOpener(s, fs[k].start) && fs[k].start < fs[k].end <= |s|
    {
      assert IsFence(s, fs[k]);
    }
  }

  ghost predicate IsOpener(s: string, p: nat) {
    p < |s| && IsLineStart(s, p) && FenceOpen(LogicalLine(s, p)).Some?
  }

  /** An opener below the limit that no earlier block covers lies in a block from `k` on. */
  lemma NextBlockBefore(s: string, fs: seq<Fence>, limit: nat, k: nat, p: nat)
    requires FencesUpTo(s, fs, limit) && p < limit && IsOpener(s, p) && k <= |fs|
    requires forall i :: 0 <= i < k ==> fs[i].end <= p
    ensures k < |fs| && fs[k].start <= p
  {
    hide FencesUpTo, IsOpener;
    FenceFacts(s, fs, limit);
    CoveringBlock(fs, k, p);
  }

  lemma CoveringBlock(fs: seq<Fence>, k: nat, p: nat)
    requires Ordered(fs) && !Outside(fs, p) && k <= |fs|
    requires forall i :: 0 <= i < |fs| ==> fs[i].start < fs[i].end
    requires forall i :: 0 <= i < k ==> fs[i].end <= p
    ensures k < |fs| && fs[k].start <= p
  {
    var j :| 0 <= j < |fs| && fs[j].start <= p < fs[j].end;
    if k < j { assert fs[k].start < fs[k].end <= fs[j].start; }
  }

  /** After a common prefix, the next block of one list is also the next block of the other. */
  lemma SameNextFence(s: string, a: seq<Fence>, la: nat, b: seq<Fence>, lb: nat, k: nat)
    requires FencesUpTo(s, a, la) && FencesUpTo(s, b, lb)
    requires k < |a| && k <= |b| && a[..k] == b[..k] && a[k].start < la && a[k].start < lb
    ensures k < |b| && a[k] == b[k]
  {
    FenceFacts(s, a, la);
    FenceFacts(s, b, lb);
    hide IsOpener, IsFence;
    forall i | 0 <= i < k
      ensures a[i] == b[i]
    {
      assert a[i] == a[..k][i] && b[i] == b[..k][i];
    }
    NextBlockBefore(s, b, lb, k, a[k].start);
    NextBlockBefore(s, a, la, k, b[k].start);
    SameStartSameFence(s, a[k], b[k]);
  }

  lemma {:induction false} FencesPrefix(s: string, a: seq<Fence>, la: nat, b: seq<Fence>, lb: nat, k: nat)
    requires FencesUpTo(s, a, la) && FencesUpTo(s, b, lb)
    requires forall i :: 0 <= i < |a| ==> a[i].start < la && a[i].start < lb
    requires k <= |a|
    ensures k <= |b| && a[..k] == b[..k]
  {
    hide FencesUpTo;
    if k > 0 {
      FencesPrefix(s, a, la, b, lb, k - 1);
      SameNextFence(s, a, la, b, lb, k - 1);
      assert a[..k] == a[..k - 1] + [a[k - 1]] && b[..k] == b[..k - 1] + [b[k - 1]];
    }
  }

  lemma FencesUnique(s: string, a: seq<Fence>, b: seq<Fence>)
    requires FencesOf(s, a) && FencesOf(s, b)
    ensures a == b
  {
    hide IsOpener, FencesUpTo;
    FenceFacts(s, a, |s|);
    FenceFacts(s, b, |s|);
    FencesPrefix(s, a, |s|, b, |s|, |a|);
    FencesPrefix(s, b, |s|, a, |s|, |b|);
    assert a == a[..|a|] && b == b[..|b|];
  }

  lemma {:induction false} SectionsUnique(s: string, fs: seq<Fence>, a: seq<Section>, b: seq<Section>, k: nat)
    requires SectionsOf(s, fs, a) && SectionsOf(s, fs, b) && k <= |a|
    ensures k <= |b| && a[..k] == b[..k]
  {
    hide PathAt, HeadingStart;
    if k > 0 {
      SectionsUnique(s, fs, a, b, k - 1);
      forall i | 0 <= i < k - 1
        ensures a[i] == b[i]
      {
        assert a[i] == a[..k - 1][i] && b[i] == b[..k - 1][i];
      }
      assert a[k - 1].start < |s|;
      if k > 1 { assert a[k - 2] == b[k - 2] && b[k - 2].end == a[k - 1].start; }
      assert k - 1 < |b| && b[k - 1].start == a[k - 1].start;
      SectionEndsAgree(s, fs, a, b, k - 1);
      SectionEndsAgree(s, fs, b, a, k - 1);
      assert a[..k] == a[..k - 1] + [a[k - 1]] && b[..k] == b[..k - 1] + [b[k - 1]];
    }
  }

  /** Two sections that start together end together: neither can reach past the other's end. */
  lemma SectionEndsAgree(s: string, fs: seq<Fence>, a: seq<Section>, b: seq<Section>, k: nat)
    requires SectionsOf(s, fs, a) && SectionsOf(s, fs, b) && k < |a| && k < |b| && a[k].start == b[k].start
    ensures b[k].end <= a[k].end
  {
    hide PathAt, HeadingStart;
    if k + 1 < |a| {
      var p := a[k + 1].start;
      assert p < |s| && StartsSection(a, p);
      var j :| 0 <= j < |b| && b[j].start == p;
      if j < k { PartitionOrdered(b, |s|, j, k); }
      if k < j { PartitionOrdered(b, |s|, k, j); }
    } else if k + 1 < |b| {
      PartitionOrdered(b, |s|, k, |b| - 1);
    }
  }

  /** A block still open at the end of the source belongs to no fence list. */
  lemma OpenBlockNeverCloses(s: string, st: State, fs: seq<Fence>)
    requires FenceInv(s, st) && st.open.Some? && st.offset == |s|
    ensures !FencesOf(s, fs)
  {
    hide LogicalLine, FenceOpen, LineEnd, Closes, FencesUpTo;
    if FencesOf(s, fs) {
      var o, a := st.open.value, st.fences;
      FenceFacts(s, a, o.start);
      FenceFacts(s, fs, |s|);
      FencesPrefix(s, a, o.start, fs, |s|, |a|);
      forall i | 0 <= i < |a|
        ensures a[i] == fs[i]
      {
        assert a[i] == a[..|a|][i] && fs[i] == fs[..|a|][i];
      }
      NextBlockBefore(s, fs, |s|, |a|, o.start);
      if fs[|a|].start == o.start {
        LastFenceIsFence(s, fs, |a|);
      } else {
        NextBlockBefore(s, a, o.start, |a|, fs[|a|].start);
      }
    }
  }

  lemma LastFenceIsFence(s: string, fs: seq<Fence>, k: nat)
    requires FencesOf(s, fs) && k < |fs|
    ensures IsFence(s, fs[k])
  {}

  /** Completeness: a source whose lines admit a fence list is not rejected as unclosed. */
  lemma FencedSourceParses(s: string, fs: seq<Fence>)
    requires s != [] && FencesOf(s, fs)
    ensures Parse(s).Ok?
  {
    hide FenceInv, SectionInv, Run, FencesOf;
    FinalStateInvariants(s);
    if Run(s, INITIAL_STATE).open.Some? { OpenBlockNeverCloses(s, Run(s, INITIAL_STATE), fs); }
  }

  /**
    The parser computes exactly the fences and sections that the lines determine: it returns
    them when they exist, and reports an unclosed block exactly when no fence list exists.
   */
  lemma ParseCharacterized(s: string, secs: seq<Section>, fs: seq<Fence>)
    requires s != []
    ensures Parse(s) == Ok(Parsed(secs, fs)) <==> FencesOf(s, fs) && SectionsOf(s, fs, secs)
    ensures Parse(s) == Err(UnclosedFence) <==> !exists gs :: FencesOf(s, gs)
  {
    hide Run, FencesOf, SectionsOf;
    if Parse(s).Ok? { ParseSound(s); }
    if FencesOf(s, fs) && SectionsOf(s, fs, secs) {
      FencedSourceParses(s, fs);
      var p := Parse(s).value;
      FencesUnique(s, fs, p.fences);
      SectionsUnique(s, fs, secs, p.sections, |secs|);
      SectionsUnique(s, fs, p.sections, secs, |p.sections|);
      assert secs == secs[..|secs|] && p.sections == p.sections[..|p.sections|];
    }
    forall gs | FencesOf(s, gs)
      ensures Parse(s).Ok?
    {
      FencedSourceParses(s, gs);
    }
  }

  /** A block of the source begins at position 0 or right after a line break. */
  lemma FenceAfterLineBreak(s: string, fs: seq<Fence>, k: nat)
    requires FencesOf(s, fs) && k < |fs|
    ensures fs[k].start < fs[k].end <= |s| && (fs[k].start == 0 || IsLineBreak(s[fs[k].start - 1]))
  {
    LastFenceIsFence(s, fs, k);
    hide FencesOf, LogicalLine, FenceOpen, LineEnd, Closes;
  }

  /** No section boundary lies strictly inside a block. */
  lemma SectionCutsAvoidFences(s: string, fs: seq<Fence>, secs: seq<Section>, i: nat, k: nat)
    requires SectionsOf(s, fs, secs) && FencesOf(s, fs) && i < |secs| && k < |fs|
    ensures !(fs[k].start < secs[i].start < fs[k].end) && !(fs[k].start < secs[i].end < fs[k].end)
    ensures secs[i].end <= |s|
  {
    FenceAfterLineBreak(s, fs, k);
    hide LogicalLine, HeadingOf, PathAt, FencesOf, IsLineStart;
    if secs[i].start > 0 { assert StartsSection(secs, secs[i].start); }
    if i + 1 < |secs| { assert StartsSection(secs, secs[i + 1].start); }
  }

  lemma SectionPathNotBlank(s: string, fs: seq<Fence>, secs: seq<Section>, i: nat)
    requires SectionsOf(s, fs, secs) && i < |secs|
    ensures forall title :: title in secs[i].path ==> NotBlank(title)
  {
    hide PathAt, NotBlank, HeadingStart;
    PathNotBlank(s, fs, secs[i].start);
  }

  lemma PartitionOf(s: string, fs: seq<Fence>, secs: seq<Section>)
    requires SectionsOf(s, fs, secs)
    ensures Partition(secs, |s|)
  {}

  lemma FencesOrdered(s: string, fs: seq<Fence>)
    requires FencesOf(s, fs)
    ensures Ordered(fs)
  {}
}
