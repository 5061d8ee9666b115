/**
  Member names of an archive: which are admissible and what relative path they denote
  (app/security/zip_guard.py:200-239).
 */
module ZipPath {
  import opened Wrappers

  /** A relative path, component by component. */
  type Path = seq<string>

  /**
    Text facts that are not computed here: the reserved Windows names, case folding, and the
    compatibility-normalised, case-folded form of a component.
   */
  datatype Text = Text(reserved: string -> bool, fold: string -> string, collide: string -> string)

  predicate IsSeparator(c: char) { c == '/' || c == '\\' }

  predicate Contains(s: string, c: char) { exists i :: 0 <= i < |s| && s[i] == c }

  /** The components of a name, cut at either separator; some may be empty. */
  function Components(s: string): (r: seq<string>)
    ensures r != []
  {
    if s == "" then [""]
    else
      var rest := Components(s[1..]);
      if IsSeparator(s[0]) then [""] + rest else [[s[0]] + rest[0]] + rest[1..]
  }

  predicate Skipped(c: string) { c == "" || c == "." }

  /** `_is_portable_component`. */
  predicate Portable(text: Text, c: string) {
    !Contains(c, ':') && (c == "" || (c[|c| - 1] != ' ' && c[|c| - 1] != '.')) &&
    (forall i :: 0 <= i < |c| ==> c[i] as int >= 32) && !text.reserved(c)
  }

  function Kept(cs: seq<string>): Path {
    if cs == [] then []
    else Kept(cs[..|cs| - 1]) + (if Skipped(cs[|cs| - 1]) then [] else [cs[|cs| - 1]])
  }

  /** A drive, a root or a UNC prefix in the reading of `PureWindowsPath`. */
  predicate Anchored(raw: string)
    requires raw != ""
  {
    IsSeparator(raw[0]) || (|raw| > 1 && raw[1] == ':')
  }

  predicate Admissible(text: Text, raw: string) {
    raw != "" && !Contains(raw, '\0') && !Anchored(raw) && Kept(Components(raw)) != [] &&
    forall c :: c in Components(raw) ==> Skipped(c) || (c != ".." && Portable(text, c))
  }

  /** The path a name denotes, if it is admissible. */
  function Canonical(text: Text, raw: string): Option<Path> {
    if Admissible(text, raw) then Some(Kept(Components(raw))) else None
  }

  method CanonicalizeMemberPath(text: Text, raw: string) returns (r: Option<Path>)
    ensures r == Canonical(text, raw)
  {
    if raw == "" || Contains(raw, '\0') { return None; }
    if Anchored(raw) { return None; }
    var components := Components(raw);
    var parts: Path := [];
    for i := 0 to |components|
      invariant parts == Kept(components[..i])
      invariant forall c :: c in components[..i] ==> Skipped(c) || (c != ".." && Portable(text, c))
    {
      var component := components[i];
      assert components[..i + 1][..i] == components[..i];
      assert components[..i + 1] == components[..i] + [component];
      if !Skipped(component) {
        if component == ".." || !Portable(text, component) {
          assert component in components;
          return None;
        }
        parts := parts + [component];
      }
    }
    assert components[..|components|] == components;
    if parts == [] { return None; }
    r := Some(parts);
  }

  // ----- what a canonical path looks like -----

  function Join(path: Path): string {
    if path == [] then "" else if |path| == 1 then path[0] else path[0] + "/" + Join(path[1..])
  }

  /** A component that names one entry of a directory, everywhere. */
  predicate Proper(text: Text, c: string) {
    c != "" && c != "." && c != ".." && Portable(text, c) && forall i :: 0 <= i < |c| ==> !IsSeparator(c[i])
  }

  predicate WellFormed(text: Text, path: Path) {
    path != [] && forall c :: c in path ==> Proper(text, c)
  }

  lemma {:induction false} ComponentsHaveNoSeparator(s: string)
    ensures forall c :: c in Components(s) ==> forall i :: 0 <= i < |c| ==> !IsSeparator(c[i])
  {
    if s != "" {
      ComponentsHaveNoSeparator(s[1..]);
      var rest := Components(s[1..]);
      assert rest[0] in rest;
      forall c | c in Components(s)
        ensures forall i :: 0 <= i < |c| ==> !IsSeparator(c[i])
      {
        if !IsSeparator(s[0]) && c == [s[0]] + rest[0] {
          forall i | 0 <= i < |c|
            ensures !IsSeparator(c[i])
          {
            if i > 0 { assert c[i] == rest[0][i - 1]; }
          }
        } else {
          assert c == "" || c in rest;
        }
      }
    }
  }

  lemma {:induction false} KeptFrom(cs: seq<string>)
    ensures forall c :: c in Kept(cs) <==> c in cs && !Skipped(c)
  {
    if cs != [] {
      KeptFrom(cs[..|cs| - 1]);
      assert cs == cs[..|cs| - 1] + [cs[|cs| - 1]];
    }
  }

  /** No path leaves the root, and every component is portable. */
  lemma CanonicalIsWellFormed(text: Text, raw: string)
    requires Canonical(text, raw).Some?
    ensures WellFormed(text, Canonical(text, raw).value)
  {
    ComponentsHaveNoSeparator(raw);
    KeptFrom(Components(raw));
  }

  /**
    What is admissible is no absolute or drive path, and every component is usable anywhere: no way up,
    no separator, colon or control character, no trailing space or dot, no reserved name.
   */
  lemma AdmissibleNames(text: Text, raw: string)
    requires Canonical(text, raw).Some?
    ensures raw[0] != '/' && raw[0] != '\\' && (|raw| > 1 ==> raw[1] != ':')
    ensures forall c :: c in Canonical(text, raw).value ==>
              c != "" && c != "." && c != ".." && !text.reserved(c) && c[|c| - 1] != ' ' && c[|c| - 1] != '.' &&
              forall i :: 0 <= i < |c| ==> c[i] !in {'/', '\\', ':'} && c[i] as int >= 32
  {
    CanonicalIsWellFormed(text, raw);
  }

  lemma {:induction false} ComponentsOfOne(c: string)
    requires forall i :: 0 <= i < |c| ==> !IsSeparator(c[i])
    ensures Components(c) == [c]
  {
    if c != "" {
      ComponentsOfOne(c[1..]);
      assert c == [c[0]] + c[1..];
    }
  }

  lemma {:induction false} ComponentsOfJoin(c: string, s: string)
    requires forall i :: 0 <= i < |c| ==> !IsSeparator(c[i])
    ensures Components(c + "/" + s) == [c] + Components(s)
  {
    var t := c + "/" + s;
    if c == "" {
      assert t[1..] == s;
    } else {
      ComponentsOfJoin(c[1..], s);
      assert t[1..] == c[1..] + "/" + s && t[0] == c[0];
      assert c == [c[0]] + c[1..];
      var rest := Components(t[1..]);
      assert rest == [c[1..]] + Components(s) && rest[1..] == Components(s);
    }
  }

  /** Splitting undoes joining. */
  lemma {:induction false} JoinThenSplit(text: Text, path: Path)
    requires WellFormed(text, path)
    ensures Components(Join(path)) == path
  {
    assert path[0] in path;
    if |path| == 1 {
      ComponentsOfOne(path[0]);
    } else {
      JoinThenSplit(text, path[1..]);
      ComponentsOfJoin(path[0], Join(path[1..]));
      assert path == [path[0]] + path[1..];
    }
  }

  lemma {:induction false} KeptAll(path: Path)
    requires forall c :: c in path ==> !Skipped(c)
    ensures Kept(path) == path
  {
    if path != [] {
      assert path[|path| - 1] in path;
      KeptAll(path[..|path| - 1]);
    }
  }

  lemma {:induction false} JoinHasNoZero(text: Text, path: Path)
    requires WellFormed(text, path)
    ensures forall i :: 0 <= i < |Join(path)| ==> Join(path)[i] != '\0'
  {
    assert path[0] in path;
    if |path| > 1 {
      JoinHasNoZero(text, path[1..]);
      var tail := Join(path[1..]);
      var n := |path[0]|;
      forall i | 0 <= i < |Join(path)|
        ensures Join(path)[i] != '\0'
      {
        if i > n { assert Join(path)[i] == tail[i - n - 1]; }
      }
    }
  }

  /**
    Canonical paths are exactly the well-formed ones, and writing one out and canonicalising it
    again gives it back: what the inventory of an archive requires of every path it lists.
   */
  lemma CanonicalRoundTrip(text: Text, path: Path)
    ensures Canonical(text, Join(path)) == Some(path) <==> WellFormed(text, path)
  {
    hide Join, Components, Kept, Portable, Anchored, WellFormed;
    if WellFormed(text, path) { WellFormedIsAdmissible(text, path); }
    if Canonical(text, Join(path)) == Some(path) { CanonicalIsWellFormed(text, Join(path)); }
  }

  lemma WellFormedIsAdmissible(text: Text, path: Path)
    requires WellFormed(text, path)
    ensures Admissible(text, Join(path)) && Kept(Components(Join(path))) == path
  {
    hide Join, Components, Kept, Portable, Anchored;
    JoinThenSplit(text, path);
    JoinHasNoZero(text, path);
    KeptAll(path);
    JoinStartsWell(text, path);
  }

  /** The written form starts with a portable character, and no drive letter. */
  lemma JoinStartsWell(text: Text, path: Path)
    requires WellFormed(text, path)
    ensures Join(path) != "" && !Anchored(Join(path))
  {
    var first, raw := path[0], Join(path);
    assert first in path && first != "";
    assert raw == if |path| == 1 then first else first + "/" + Join(path[1..]);
    assert raw[0] == first[0] && !IsSeparator(first[0]);
    if |raw| > 1 { assert raw[1] == if |first| > 1 then first[1] else '/'; }
  }

  /** Two spellings of one path are canonicalised alike, and different paths are spelled differently. */
  lemma JoinInjective(text: Text, a: Path, b: Path)
    requires WellFormed(text, a) && WellFormed(text, b) && Join(a) == Join(b)
    ensures a == b
  {
    JoinThenSplit(text, a);
    JoinThenSplit(text, b);
  }

  // ----- suffixes and directories -----

  /** `PurePosixPath.suffix` of a file name: from the last dot, unless it starts or ends the name. */
  function Suffix(name: string): string {
    SuffixBefore(name, |name|)
  }

  function SuffixBefore(name: string, end: nat): string
    requires end <= |name|
  {
    if end == 0 then ""
    else if name[end - 1] == '.' then (if 0 < end - 1 < |name| - 1 then name[end - 1..] else "")
    else SuffixBefore(name, end - 1)
  }

  /** The last dot of a name stands at `i`, inside the name. */
  predicate LastDotAt(name: string, i: nat) {
    0 < i < |name| - 1 && name[i] == '.' && forall k :: i < k < |name| ==> name[k] != '.'
  }

  lemma {:induction false} SuffixBeforeIs(name: string, end: nat)
    requires end <= |name| && forall k :: end <= k < |name| ==> name[k] != '.'
    ensures forall i: nat :: LastDotAt(name, i) ==> SuffixBefore(name, end) == name[i..]
    ensures SuffixBefore(name, end) != "" ==> exists i: nat :: LastDotAt(name, i)
  {
    if end > 0 {
      if name[end - 1] == '.' {
        forall i: nat | LastDotAt(name, i)
          ensures i == end - 1
        {}
        if 0 < end - 1 < |name| - 1 { assert LastDotAt(name, end - 1); }
      } else {
        SuffixBeforeIs(name, end - 1);
      }
    }
  }

  /** The suffix is what follows the last dot, with it, if that stands inside the name; otherwise there is none. */
  lemma SuffixIs(name: string)
    ensures forall i: nat :: LastDotAt(name, i) ==> Suffix(name) == name[i..]
    ensures Suffix(name) != "" <==> exists i: nat :: LastDotAt(name, i)
  {
    SuffixBeforeIs(name, |name|);
  }

  predicate IgnoredDirectory(text: Text, c: string) {
    text.fold(c) in {".venv", "venv", "site-packages", "node_modules", ".git"}
  }

  predicate InIgnoredDirectory(text: Text, path: Path)
    requires path != []
  {
    exists i :: 0 <= i < |path| - 1 && IgnoredDirectory(text, path[i])
  }

  predicate HasPythonSuffix(text: Text, path: Path)
    requires path != []
  {
    text.fold(Suffix(path[|path| - 1])) == ".py"
  }

  /** `_collision_key`. */
  function Folded(fold: string -> string, path: Path): (r: Path)
    ensures |r| == |path|
  {
    seq(|path|, i requires 0 <= i < |path| => fold(path[i]))
  }

  /** Whatever identifies fewer names than `fine` also finds fewer prefixes. */
  lemma FoldedPrefix(fine: string -> string, coarse: string -> string, a: Path, b: Path)
    requires forall x, y :: fine(x) == fine(y) ==> coarse(x) == coarse(y)
    requires Folded(fine, a) <= Folded(fine, b)
    ensures Folded(coarse, a) <= Folded(coarse, b)
  {
    forall i | 0 <= i < |a|
      ensures Folded(coarse, a)[i] == Folded(coarse, b)[i]
    {
      assert Folded(fine, a)[i] == Folded(fine, b)[i];
    }
  }
}
