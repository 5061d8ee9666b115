/**
  Which classes of a file derive from BaseModel: a loop over the classes until nothing changes
  (app/scanner/ast_scanner.py:705-788).
 */
module Inheritance {
  import opened Wrappers

  datatype RawClass = RawClass(name: string, scope: seq<string>, bases: seq<string>)

  datatype Evidence = NoEvidence | Direct | LocalInheritance

  /** Module-level names that stand for BaseModel, and for the pydantic module. */
  datatype Aliases = Aliases(direct: set<string>, modules: set<string>)

  const BASE_MODEL := "BaseModel"

  /** The last dot of a reference, if any. */
  function LastDot(s: string): (r: Option<nat>)
    ensures r.Some? <==> '.' in s
    ensures r.Some? ==> r.value < |s| && s[r.value] == '.' && '.' !in s[r.value + 1..]
  {
    if s == "" then None
    else
      var rest := LastDot(s[1..]);
      assert s == [s[0]] + s[1..];
      if rest.Some? then (assert s[rest.value + 2..] == s[1..][rest.value + 1..]; Some(rest.value + 1))
      else if s[0] == '.' then Some(0) else None
  }

  /** `_is_direct_basemodel`. */
  predicate IsDirectBaseModel(reference: string, aliases: Aliases) {
    reference in aliases.direct ||
    (var dot := LastDot(reference);
     dot.Some? && reference[dot.value + 1..] == BASE_MODEL && reference[..dot.value] in aliases.modules)
  }

  lemma {:induction false} LastDotIs(s: string, i: nat)
    requires i < |s| && s[i] == '.' && '.' !in s[i + 1..]
    ensures LastDot(s) == Some(i)
  {
    if i > 0 {
      assert s[1..][i - 1] == '.' && s[1..][i..] == s[i + 1..];
      LastDotIs(s[1..], i - 1);
    }
  }

  /** A reference is direct exactly when it is an alias, or `BaseModel` looked up in a module alias. */
  lemma DirectIff(reference: string, aliases: Aliases)
    ensures IsDirectBaseModel(reference, aliases) <==>
      reference in aliases.direct || exists m :: m in aliases.modules && reference == m + "." + BASE_MODEL
  {
    hide LastDot;
    forall m | m in aliases.modules && reference == m + "." + BASE_MODEL
      ensures IsDirectBaseModel(reference, aliases)
    {
      DotBaseModel(m);
    }
    var dot := LastDot(reference);
    if dot.Some? && reference[dot.value + 1..] == BASE_MODEL {
      assert reference == reference[..dot.value] + "." + BASE_MODEL;
    }
  }

  lemma DotBaseModel(m: string)
    ensures var s := m + "." + BASE_MODEL; LastDot(s) == Some(|m|) && s[|m| + 1..] == BASE_MODEL && s[..|m|] == m
  {
    var s := m + "." + BASE_MODEL;
    assert s[|m| + 1..] == BASE_MODEL;
    LastDotIs(s, |m|);
  }

  predicate Matches(c: RawClass, scope: seq<string>, name: string) { c.scope == scope && c.name == name }

  /** The indices of the classes of a name in a scope. */
  function MatchesIn(classes: seq<RawClass>, scope: seq<string>, name: string): (r: seq<nat>)
    ensures forall i :: i in r <==> 0 <= i < |classes| && Matches(classes[i], scope, name)
    ensures forall k, l :: 0 <= k < l < |r| ==> r[k] < r[l]
  {
    if classes == [] then []
    else
      var n := |classes| - 1;
      var before := MatchesIn(classes[..n], scope, name);
      assert forall k :: 0 <= k < |before| ==> before[k] in before;
      before + (if Matches(classes[n], scope, name) then [n] else [])
  }

  /** The search of `_resolve_local_class_index`, from the first `depth` scopes outwards. */
  function ResolveFrom(reference: string, scope: seq<string>, depth: nat, classes: seq<RawClass>): (r: Option<nat>)
    requires depth <= |scope|
    ensures r.Some? ==> r.value < |classes|
  {
    var matches := MatchesIn(classes, scope[..depth], reference);
    if |matches| == 1 then (assert matches[0] in matches; Some(matches[0]))
    else if |matches| > 1 || depth == 0 then None
    else ResolveFrom(reference, scope, depth - 1, classes)
  }

  /** `_resolve_local_class_index`. */
  function ResolveLocalClassIndex(reference: string, scope: seq<string>, classes: seq<RawClass>): (r: Option<nat>)
    ensures r.Some? ==> r.value < |classes|
  {
    if '.' in reference then None else ResolveFrom(reference, scope, |scope|, classes)
  }

  /** Class `i` is the only one of its name in the scope that starts `scope` with `depth` components. */
  ghost predicate OnlyMatch(classes: seq<RawClass>, scope: seq<string>, depth: nat, name: string, i: nat)
    requires depth <= |scope| && i < |classes|
  {
    forall j :: 0 <= j < |classes| ==> (Matches(classes[j], scope[..depth], name) <==> j == i)
  }

  ghost predicate NoMatch(classes: seq<RawClass>, scope: seq<string>, depth: nat, name: string)
    requires depth <= |scope|
  {
    forall j :: 0 <= j < |classes| ==> !Matches(classes[j], scope[..depth], name)
  }

  ghost predicate Nearest(classes: seq<RawClass>, scope: seq<string>, from: nat, depth: nat, name: string, i: nat)
    requires depth <= from <= |scope| && i < |classes|
  {
    OnlyMatch(classes, scope, depth, name, i) && forall d :: depth < d <= from ==> NoMatch(classes, scope, d, name)
  }

  /** How many classes of a name a scope has, and which is the only one. */
  lemma CountHere(reference: string, scope: seq<string>, depth: nat, classes: seq<RawClass>, i: nat)
    requires depth <= |scope| && i < |classes|
    ensures var matches := MatchesIn(classes, scope[..depth], reference);
            (|matches| == 0 <==> NoMatch(classes, scope, depth, reference)) &&
            (|matches| == 1 && matches[0] == i <==> OnlyMatch(classes, scope, depth, reference, i))
  {
    hide MatchesIn, Matches;
    var matches := MatchesIn(classes, scope[..depth], reference);
    if |matches| > 0 { assert matches[0] in matches; }
    if |matches| > 1 { assert matches[1] in matches; }
    if OnlyMatch(classes, scope, depth, reference, i) { assert i in matches; }
  }

  lemma {:induction false} ResolveFromIff(reference: string, scope: seq<string>, from: nat, classes: seq<RawClass>,
                                          i: nat)
    requires from <= |scope| && i < |classes|
    ensures ResolveFrom(reference, scope, from, classes) == Some(i) <==>
      exists depth :: 0 <= depth <= from && Nearest(classes, scope, from, depth, reference, i)
  {
    hide MatchesIn, NoMatch, OnlyMatch, Nearest;
    CountHere(reference, scope, from, classes, i);
    NearestHere(reference, scope, from, classes, i);
    if NoMatch(classes, scope, from, reference) {
      if from > 0 {
        ResolveFromIff(reference, scope, from - 1, classes, i);
        NearestFurther(reference, scope, from, classes, i);
        if ResolveFrom(reference, scope, from, classes) == Some(i) {
          var depth :| 0 <= depth <= from - 1 && Nearest(classes, scope, from - 1, depth, reference, i);
          assert Nearest(classes, scope, from, depth, reference, i);
        }
      }
    }
  }

  lemma NearestHere(reference: string, scope: seq<string>, from: nat, classes: seq<RawClass>, i: nat)
    requires from <= |scope| && i < |classes|
    ensures Nearest(classes, scope, from, from, reference, i) <==> OnlyMatch(classes, scope, from, reference, i)
    ensures forall depth :: 0 <= depth < from && Nearest(classes, scope, from, depth, reference, i) ==>
      NoMatch(classes, scope, from, reference)
  {
    hide NoMatch, OnlyMatch;
  }

  lemma NearestFurther(reference: string, scope: seq<string>, from: nat, classes: seq<RawClass>, i: nat)
    requires 0 < from <= |scope| && i < |classes| && NoMatch(classes, scope, from, reference)
    ensures forall depth :: 0 <= depth < from ==>
      (Nearest(classes, scope, from - 1, depth, reference, i) <==> Nearest(classes, scope, from, depth, reference, i))
  {
    hide NoMatch, OnlyMatch;
  }

  /** A reference resolves to the one class of that name in the nearest scope that has any. */
  lemma ResolveLocalIff(reference: string, scope: seq<string>, classes: seq<RawClass>, i: nat)
    requires i < |classes|
    ensures ResolveLocalClassIndex(reference, scope, classes) == Some(i) <==>
      '.' !in reference && exists depth ::
        0 <= depth <= |scope| &&
        Nearest(classes, scope, |scope|, depth, reference, i)
  {
    ResolveFromIff(reference, scope, |scope|, classes, i);
  }

  // ----- the loop -----

  predicate DirectSubclass(classes: seq<RawClass>, aliases: Aliases, i: nat)
    requires i < |classes|
  {
    classes[i].scope == [] && exists b :: b in classes[i].bases && IsDirectBaseModel(b, aliases)
  }

  /** Some base of class `i` resolves to the earlier class `j`. */
  predicate Inherits(classes: seq<RawClass>, i: nat, j: nat)
    requires i < |classes|
  {
    j < i && exists b :: b in classes[i].bases && ResolveLocalClassIndex(b, classes[i].scope, classes) == Some(j)
  }

  /** Derivation from BaseModel, by recursion over earlier classes. */
  predicate Derived(classes: seq<RawClass>, aliases: Aliases, i: nat)
    requires i < |classes|
  {
    DirectSubclass(classes, aliases, i) || exists j ::
      0 <= j < i && Inherits(classes, i, j) &&
      Derived(classes, aliases, j)
  }

  function EvidenceOf(classes: seq<RawClass>, aliases: Aliases, i: nat): Evidence
    requires i < |classes|
  {
    if DirectSubclass(classes, aliases, i) then Direct
    else if Derived(classes, aliases, i) then LocalInheritance
    else NoEvidence
  }

  /** `_resolve_class_inheritance`: the second pass over the classes never changes anything. */
  method ResolveClassInheritance(classes: seq<RawClass>, aliases: Aliases)
    returns (flags: seq<bool>, evidence: seq<Evidence>, ghost passes: nat)
    ensures |flags| == |evidence| == |classes|
    ensures forall i :: 0 <= i < |classes| ==> flags[i] == Derived(classes, aliases, i)
    ensures forall i :: 0 <= i < |classes| ==> evidence[i] == EvidenceOf(classes, aliases, i)
    ensures passes <= 2
  {
    hide DirectSubclass, Inherits, Derived, Consistent, IsDirectBaseModel;
    flags := seq(|classes|, _ => false);
    evidence := seq(|classes|, _ => NoEvidence);
    for i := 0 to |classes|
      invariant |flags| == |evidence| == |classes|
      invariant forall j :: 0 <= j < |classes| ==> flags[j] == (j < i && DirectSubclass(classes, aliases, j))
      invariant forall j :: 0 <= j < |classes| ==> evidence[j] == if flags[j] then Direct else NoEvidence
    {
      if DirectSubclass(classes, aliases, i) {
        flags := flags[i := true];
        evidence := evidence[i := Direct];
      }
    }
    StartsConsistent(classes, aliases, flags, evidence);

    var changed := true;
    passes := 0;
    while changed
      invariant AllConsistent(classes, aliases, flags, evidence)
      invariant passes > 0 ==> forall j :: 0 <= j < |classes| ==> flags[j] == Derived(classes, aliases, j)
      invariant passes <= (if changed then 1 else 2) && (!changed ==> passes > 0)
      decreases changed, 2 - passes
    {
      changed := false;
      for i := 0 to |classes|
        invariant AllConsistent(classes, aliases, flags, evidence)
        invariant forall j :: 0 <= j < i ==> flags[j] == Derived(classes, aliases, j)
        invariant passes > 0 ==> !changed && forall j :: 0 <= j < |classes| ==> flags[j] == Derived(classes, aliases, j)
      {
        FlaggedIsDerived(classes, aliases, flags, evidence, i);
        if flags[i] { continue; }
        var found := FlaggedParent(classes, flags, i);
        OneClass(classes, aliases, flags, evidence, i, found);
        if found {
          flags := flags[i := true];
          evidence := evidence[i := LocalInheritance];
          changed := true;
        }
      }
      passes := passes + 1;
    }
    ConsistentEvidence(classes, aliases, flags, evidence);
  }

  /** Looking at class `i` with the classes before it settled. */
  lemma OneClass(classes: seq<RawClass>, aliases: Aliases, flags: seq<bool>, evidence: seq<Evidence>, i: nat,
                 found: bool)
    requires AllConsistent(classes, aliases, flags, evidence) && i < |classes| && !flags[i]
    requires forall j :: 0 <= j < i ==> flags[j] == Derived(classes, aliases, j)
    requires found <==> exists j :: 0 <= j < i && Inherits(classes, i, j) && flags[j]
    ensures found <==> Derived(classes, aliases, i)
    ensures found ==> AllConsistent(classes, aliases, flags[i := true], evidence[i := LocalInheritance])
  {
    hide DirectSubclass, Inherits;
    assert Consistent(classes, aliases, flags, evidence, i);
    if found { NewlyFlagged(classes, aliases, flags, evidence, i); }
  }

  lemma NewlyFlagged(classes: seq<RawClass>, aliases: Aliases, flags: seq<bool>, evidence: seq<Evidence>, i: nat)
    requires AllConsistent(classes, aliases, flags, evidence) && i < |classes| && !flags[i] &&
      Derived(classes, aliases, i)
    ensures AllConsistent(classes, aliases, flags[i := true], evidence[i := LocalInheritance])
  {
    hide DirectSubclass, Derived;
    var after, noted := flags[i := true], evidence[i := LocalInheritance];
    forall j: nat | j < |classes|
      ensures Consistent(classes, aliases, after, noted, j)
    {
      assert Consistent(classes, aliases, flags, evidence, j);
    }
  }

  lemma FlaggedIsDerived(classes: seq<RawClass>, aliases: Aliases, flags: seq<bool>, evidence: seq<Evidence>, i: nat)
    requires AllConsistent(classes, aliases, flags, evidence) && i < |classes|
    ensures flags[i] ==> Derived(classes, aliases, i)
  {
    assert Consistent(classes, aliases, flags, evidence, i);
  }

  lemma StartsConsistent(classes: seq<RawClass>, aliases: Aliases, flags: seq<bool>, evidence: seq<Evidence>)
    requires |flags| == |evidence| == |classes|
    requires forall j :: 0 <= j < |classes| ==> flags[j] == DirectSubclass(classes, aliases, j)
    requires forall j :: 0 <= j < |classes| ==> evidence[j] == if flags[j] then Direct else NoEvidence
    ensures AllConsistent(classes, aliases, flags, evidence)
  {
    hide DirectSubclass, Inherits;
  }

  lemma ConsistentEvidence(classes: seq<RawClass>, aliases: Aliases, flags: seq<bool>, evidence: seq<Evidence>)
    requires AllConsistent(classes, aliases, flags, evidence)
    requires forall j :: 0 <= j < |classes| ==> flags[j] == Derived(classes, aliases, j)
    ensures forall i :: 0 <= i < |classes| ==> evidence[i] == EvidenceOf(classes, aliases, i)
  {
    hide DirectSubclass, Derived;
    forall i | 0 <= i < |classes|
      ensures evidence[i] == EvidenceOf(classes, aliases, i)
    {
      assert Consistent(classes, aliases, flags, evidence, i);
    }
  }

  ghost predicate AllConsistent(classes: seq<RawClass>, aliases: Aliases, flags: seq<bool>, evidence: seq<Evidence>) {
    |flags| == |evidence| == |classes| && forall j :: 0 <= j < |classes| ==>
      Consistent(classes, aliases, flags, evidence, j)
  }

  /** What flags and evidence say about class `j` at any time. */
  ghost predicate Consistent(classes: seq<RawClass>, aliases: Aliases, flags: seq<bool>, evidence: seq<Evidence>,
                             j: nat)
    requires |flags| == |evidence| == |classes| && j < |classes|
  {
    (DirectSubclass(classes, aliases, j) ==> flags[j]) && (flags[j] ==> Derived(classes, aliases, j)) &&
    evidence[j] == if !flags[j] then NoEvidence else if DirectSubclass(classes, aliases, j) then Direct
      else LocalInheritance
  }

  /** The loop over the bases of one class, stopping at the first flagged parent. */
  method FlaggedParent(classes: seq<RawClass>, flags: seq<bool>, i: nat) returns (found: bool)
    requires |flags| == |classes| && i < |classes|
    ensures found <==> exists j :: 0 <= j < i && Inherits(classes, i, j) && flags[j]
  {
    var item := classes[i];
    for k := 0 to |item.bases|
      invariant forall l, j ::
        0 <= l < k && 0 <= j < i && ResolveLocalClassIndex(item.bases[l], item.scope, classes) == Some(j) ==> !flags[j]
    {
      var parent := ResolveLocalClassIndex(item.bases[k], item.scope, classes);
      if parent.Some? && parent.value < i && flags[parent.value] {
        assert item.bases[k] in item.bases;
        assert Inherits(classes, i, parent.value);
        return true;
      }
    }
    return false;
  }

  // ----- what is computed -----

  /** A strictly descending walk from class `i` along local bases to a direct subclass. */
  ghost predicate Chain(classes: seq<RawClass>, aliases: Aliases, chain: seq<nat>, i: nat) {
    chain != [] && chain[0] == i && (forall k :: 0 <= k < |chain| ==> chain[k] < |classes|) &&
    (forall k :: 0 <= k < |chain| - 1 ==> Inherits(classes, chain[k], chain[k + 1])) &&
    DirectSubclass(classes, aliases, chain[|chain| - 1])
  }

  lemma {:induction false} DerivedHasChain(classes: seq<RawClass>, aliases: Aliases, i: nat) returns (chain: seq<nat>)
    requires i < |classes| && Derived(classes, aliases, i)
    ensures Chain(classes, aliases, chain, i)
  {
    hide DirectSubclass, Inherits;
    if DirectSubclass(classes, aliases, i) {
      chain := [i];
    } else {
      var j :| 0 <= j < i && Inherits(classes, i, j) && Derived(classes, aliases, j);
      var rest := DerivedHasChain(classes, aliases, j);
      chain := [i] + rest;
    }
  }

  lemma {:induction false} ChainDerives(classes: seq<RawClass>, aliases: Aliases, chain: seq<nat>, i: nat)
    requires i < |classes| && Chain(classes, aliases, chain, i)
    ensures Derived(classes, aliases, i)
    decreases |chain|
  {
    if |chain| > 1 {
      var rest := chain[1..];
      assert forall k :: 0 <= k < |rest| ==> rest[k] == chain[k + 1];
      ChainDerives(classes, aliases, rest, chain[1]);
      assert Inherits(classes, chain[0], chain[0 + 1]);
    }
  }

  /** A class is flagged exactly when a descending chain of local bases reaches a direct subclass. */
  lemma DerivedIffChain(classes: seq<RawClass>, aliases: Aliases, i: nat)
    requires i < |classes|
    ensures Derived(classes, aliases, i) <==> exists chain :: Chain(classes, aliases, chain, i)
  {
    if Derived(classes, aliases, i) { var chain := DerivedHasChain(classes, aliases, i); }
    forall chain | Chain(classes, aliases, chain, i)
      ensures Derived(classes, aliases, i)
    {
      ChainDerives(classes, aliases, chain, i);
    }
  }

  /** Closed under both rules: direct subclasses, and heirs of members. */
  ghost predicate Closed(classes: seq<RawClass>, aliases: Aliases, s: set<nat>) {
    forall i :: 0 <= i < |classes| ==>
      (DirectSubclass(classes, aliases, i) || exists j :: j in s && j < i && Inherits(classes, i, j)) ==> i in s
  }

  /** The flagged classes are closed, and within every closed set: the least fixpoint. */
  lemma FlaggedIsLeastFixpoint(classes: seq<RawClass>, aliases: Aliases, s: set<nat>)
    ensures Closed(classes, aliases, set i | 0 <= i < |classes| && Derived(classes, aliases, i))
    ensures Closed(classes, aliases, s) ==> forall i :: 0 <= i < |classes| && Derived(classes, aliases, i) ==> i in s
  {
    if Closed(classes, aliases, s) {
      forall i | 0 <= i < |classes| && Derived(classes, aliases, i)
        ensures i in s
      {
        DerivedInClosed(classes, aliases, s, i);
      }
    }
  }

  lemma {:induction false} DerivedInClosed(classes: seq<RawClass>, aliases: Aliases, s: set<nat>, i: nat)
    requires i < |classes| && Closed(classes, aliases, s) && Derived(classes, aliases, i)
    ensures i in s
  {
    if !DirectSubclass(classes, aliases, i) {
      var j :| 0 <= j < i && Inherits(classes, i, j) && Derived(classes, aliases, j);
      DerivedInClosed(classes, aliases, s, j);
    }
  }

  /** The record of a class is accepted: no evidence exactly when it is not flagged. */
  lemma NoEvidenceIffNotDerived(classes: seq<RawClass>, aliases: Aliases, i: nat)
    requires i < |classes|
    ensures EvidenceOf(classes, aliases, i) == NoEvidence <==> forall chain :: !Chain(classes, aliases, chain, i)
    ensures EvidenceOf(classes, aliases, i) == Direct <==> Chain(classes, aliases, [i], i)
  {
    DerivedIffChain(classes, aliases, i);
  }
}
