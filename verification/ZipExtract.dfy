/**
  Bounded reads of an accepted archive and the extraction of its Python files into an empty
  directory of any file system, case-folding ones included (app/security/zip_guard.py:523-647).
 */
module ZipExtract {
  import opened Wrappers
  import opened Order
  import opened ZipPath
  import opened ZipPlan

  const READ_CHUNK := 64 * 1024

  datatype Payload = Payload(path: Path, bytes: Bytes, lines: nat)

  predicate PayloadLess(a: Payload, b: Payload) { StringLess(Join(a.path), Join(b.path)) }

  // ----- bounded reads -----

  function Min(a: int, b: int): int { if a < b then a else b }
  function Max(a: int, b: int): int { if a < b then b else a }

  /**
    `_read_member_bounded`: `content` is what the stream holds, `granted(k)` how much the k-th read
    is willing to return. At most one byte beyond the limit is ever taken from the stream.
   */
  method ReadMember(content: Bytes, keep: bool, lim: Limits, before: nat, granted: nat -> nat)
    returns (r: Result<(Bytes, nat), ZipError>, consumed: nat)
    ensures consumed <= lim.maxMemberBytes + 1
    ensures r.Ok? <==> |content| <= lim.maxMemberBytes && (content == [] || before + |content| <= lim.maxTotalBytes)
    ensures r.Ok? ==> r.value == (if keep then content else [], |content|)
    ensures r.Err? ==>
      (r.error == MemberTooLarge && |content| > lim.maxMemberBytes) ||
      (r.error == TotalTooLarge && before + |content| > lim.maxTotalBytes)
  {
    var kept: Bytes := [];
    var round := 0;
    consumed := 0;
    while true
      invariant consumed <= |content| && consumed <= lim.maxMemberBytes
      invariant consumed > 0 ==> before + consumed <= lim.maxTotalBytes
      invariant kept == if keep then content[..consumed] else []
      decreases |content| - consumed
    {
      var request := Min(READ_CHUNK, Max(lim.maxMemberBytes - consumed + 1, 1));
      var got := Min(Max(granted(round), 1), Min(request, |content| - consumed));
      if got == 0 { break; }
      var chunk := content[consumed..consumed + got];
      round := round + 1;
      assert content[..consumed] + chunk == content[..consumed + got];
      consumed := consumed + got;
      if consumed > lim.maxMemberBytes { return Err(MemberTooLarge), consumed; }
      if before + consumed > lim.maxTotalBytes { return Err(TotalTooLarge), consumed; }
      if keep { kept := kept + chunk; }
    }
    assert content[..|content|] == content;
    r := Ok((kept, consumed));
  }

  /** Sizes as the metadata declares them, within the limits. */
  ghost predicate Declared(lim: Limits, plans: seq<Plan>, total: int) {
    total == DeclaredTotal(plans) && total <= lim.maxTotalBytes &&
    forall p :: p in plans ==>
      0 <= p.member.size <= lim.maxMemberBytes &&
      (p.isDirectory ==> p.member.size == 0 && !p.isPython)
  }

  function DeclaredTotal(plans: seq<Plan>): int {
    if plans == [] then 0 else DeclaredTotal(plans[..|plans| - 1]) + plans[|plans| - 1].member.size
  }

  /** Lines of the Python files among the first plans; `decode` counts the lines of UTF-8 text. */
  function LinesOf(plans: seq<Plan>, contents: seq<Bytes>, decode: Bytes -> Option<nat>): nat
    requires |plans| == |contents|
  {
    if plans == [] then 0
    else
      var n := |plans| - 1;
      LinesOf(plans[..n], contents[..n], decode) +
      (if plans[n].isPython && decode(contents[n]).Some? then decode(contents[n]).value else 0)
  }

  function PayloadsOf(plans: seq<Plan>, contents: seq<Bytes>, decode: Bytes -> Option<nat>): seq<Payload>
    requires |plans| == |contents|
  {
    if plans == [] then []
    else
      var n := |plans| - 1;
      PayloadsOf(plans[..n], contents[..n], decode) +
      (if plans[n].isPython && decode(contents[n]).Some?
       then [Payload(plans[n].path, contents[n], decode(contents[n]).value)] else [])
  }

  ghost predicate MembersReadable(plans: seq<Plan>, contents: seq<Bytes>, decode: Bytes -> Option<nat>)
    requires |plans| == |contents|
  {
    forall i :: 0 <= i < |plans| && !plans[i].isDirectory ==>
      |contents[i]| == plans[i].member.size && (plans[i].isPython ==> decode(contents[i]).Some?)
  }

  /** The contents are what the metadata declares, and the Python among them is text of bounded length. */
  ghost predicate Readable(lim: Limits, plans: seq<Plan>, contents: seq<Bytes>, decode: Bytes -> Option<nat>)
    requires |plans| == |contents|
  {
    MembersReadable(plans, contents, decode) && LinesOf(plans, contents, decode) <= lim.maxPythonLoc
  }

  /** Reading stops at member `i`, those before it being as declared, and the error says why. */
  ghost predicate ReadFault(lim: Limits, plans: seq<Plan>, contents: seq<Bytes>, decode: Bytes -> Option<nat>, i: nat,
                            e: ZipError)
    requires i < |plans| == |contents|
  {
    var plan, content := plans[i], contents[i];
    var before := DeclaredTotal(plans[..i]);
    !plan.isDirectory && MembersReadable(plans[..i], contents[..i], decode) &&
    LinesOf(plans[..i], contents[..i], decode) <= lim.maxPythonLoc &&
    match e
    case MemberTooLarge => |content| > lim.maxMemberBytes
    case TotalTooLarge => before + |content| > lim.maxTotalBytes
    case InvalidArchive => |content| != plan.member.size && |content| <= lim.maxMemberBytes &&
      (content == [] || before + |content| <= lim.maxTotalBytes)
    case NonUtf8Python => |content| == plan.member.size && plan.isPython && decode(content).None?
    case PythonLocExceeded => |content| == plan.member.size && plan.isPython && decode(content).Some? &&
      LinesOf(plans[..i + 1], contents[..i + 1], decode) > lim.maxPythonLoc
    case _ => false
  }

  /** `_read_and_validate_all_members`. */
  method ReadAll(lim: Limits, plans: seq<Plan>, total: int, contents: seq<Bytes>, decode: Bytes -> Option<nat>,
                 granted: (nat, nat) -> nat)
    returns (r: Result<seq<Payload>, ZipError>)
    requires |plans| == |contents| && Declared(lim, plans, total)
    ensures r.Ok? <==> Readable(lim, plans, contents, decode)
    ensures r.Ok? ==> r.value == Sort(PayloadLess, PayloadsOf(plans, contents, decode))
    ensures r.Err? ==> exists i :: 0 <= i < |plans| && ReadFault(lim, plans, contents, decode, i, r.error)
  {
    var payloads: seq<Payload> := [];
    var actual, lines := 0, 0;
    for i := 0 to |plans|
      invariant actual == DeclaredTotal(plans[..i]) && 0 <= actual
      invariant lines == LinesOf(plans[..i], contents[..i], decode) && lines <= lim.maxPythonLoc
      invariant payloads == PayloadsOf(plans[..i], contents[..i], decode)
      invariant MembersReadable(plans[..i], contents[..i], decode)
    {
      var plan := plans[i];
      var before := actual;
      NextPlan(lim, plans, contents, decode, total, i);
      if plan.isDirectory { continue; }
      var read, consumed := ReadMember(contents[i], plan.isPython, lim, actual, (k: nat) => granted(i, k));
      if read.Err? {
        assert ReadFault(lim, plans, contents, decode, i, read.error);
        return Err(read.error);
      }
      actual := actual + read.value.1;
      if read.value.1 != plan.member.size {
        assert ReadFault(lim, plans, contents, decode, i, InvalidArchive);
        return Err(InvalidArchive);
      }
      if plan.isPython {
        var source := decode(read.value.0);
        if source.None? {
          assert ReadFault(lim, plans, contents, decode, i, NonUtf8Python);
          return Err(NonUtf8Python);
        }
        lines := lines + source.value;
        if lines > lim.maxPythonLoc {
          assert ReadFault(lim, plans, contents, decode, i, PythonLocExceeded);
          return Err(PythonLocExceeded);
        }
        payloads := payloads + [Payload(plan.path, read.value.0, source.value)];
      }
    }
    assert plans[..|plans|] == plans && contents[..|contents|] == contents;
    if actual != total { return Err(InvalidArchive); }
    r := Ok(Sort(PayloadLess, payloads));
  }

  lemma NextPlan(lim: Limits, plans: seq<Plan>, contents: seq<Bytes>, decode: Bytes -> Option<nat>, total: int, i: nat)
    requires |plans| == |contents| && i < |plans| && Declared(lim, plans, total)
    ensures plans[i] in plans
    ensures plans[..i + 1] == plans[..i] + [plans[i]] && contents[..i + 1] == contents[..i] + [contents[i]]
    ensures plans[..i + 1][..i] == plans[..i] && contents[..i + 1][..i] == contents[..i]
    ensures DeclaredTotal(plans[..i]) + plans[i].member.size <= total
    ensures LinesOf(plans[..i + 1], contents[..i + 1], decode) <= LinesOf(plans, contents, decode)
  {
    DeclaredGrows(plans, i + 1);
    LinesGrow(plans, contents, decode, i + 1);
    assert plans[..i + 1][..i] == plans[..i];
  }

  lemma {:induction false} DeclaredGrows(plans: seq<Plan>, i: nat)
    requires i <= |plans| && forall p :: p in plans ==> 0 <= p.member.size
    ensures DeclaredTotal(plans[..i]) <= DeclaredTotal(plans)
    decreases |plans| - i
  {
    if i < |plans| {
      assert plans[..i + 1][..i] == plans[..i];
      assert plans[i] in plans;
      DeclaredGrows(plans, i + 1);
    } else {
      assert plans[..i] == plans;
    }
  }

  lemma {:induction false} LinesGrow(plans: seq<Plan>, contents: seq<Bytes>, decode: Bytes -> Option<nat>, i: nat)
    requires |plans| == |contents| && i <= |plans|
    ensures LinesOf(plans[..i], contents[..i], decode) <= LinesOf(plans, contents, decode)
    decreases |plans| - i
  {
    if i < |plans| {
      assert plans[..i + 1][..i] == plans[..i] && contents[..i + 1][..i] == contents[..i];
      LinesGrow(plans, contents, decode, i + 1);
    } else {
      assert plans[..i] == plans && contents[..i] == contents;
    }
  }

  // ----- a file system that may identify names -----

  datatype Node = Directory | File(bytes: Bytes)

  /** No file is one of the first `n` ancestors of `key`. */
  ghost predicate Unblocked(nodes: map<Path, Node>, key: Path, n: nat)
    requires n <= |key|
  {
    forall i :: 0 <= i < n && key[..i] in nodes ==> nodes[key[..i]] == Directory
  }

  function WithAncestors(nodes: map<Path, Node>, key: Path, n: nat): map<Path, Node>
    requires n <= |key|
  {
    if n == 0 then nodes else WithAncestors(nodes, key, n - 1)[key[..n - 1] := Directory]
  }

  predicate IsAncestor(k: Path, key: Path) { ProperPrefix(k, key) }

  /** Everything sits in a directory, and the root is one. */
  ghost predicate Rooted(nodes: map<Path, Node>) {
    [] in nodes && nodes[[]] == Directory &&
    forall k :: k in nodes && k != [] ==> k[..|k| - 1] in nodes && nodes[k[..|k| - 1]] == Directory
  }

  lemma {:induction false} StaysRooted(nodes: map<Path, Node>, key: Path, n: nat)
    requires n <= |key| && Unblocked(nodes, key, n) && Rooted(nodes)
    ensures Rooted(WithAncestors(nodes, key, n))
  {
    hide WithAncestors;
    AncestorsAdded(nodes, key, n);
    var r := WithAncestors(nodes, key, n);
    forall k | k in r && k != []
      ensures k[..|k| - 1] in r && r[k[..|k| - 1]] == Directory
    {
      var parent := k[..|k| - 1];
      if k !in nodes {
        assert IsAncestor(parent, key) && parent == key[..|parent|];
      }
    }
  }

  lemma {:induction false} AncestorsAdded(nodes: map<Path, Node>, key: Path, n: nat)
    requires n <= |key| && Unblocked(nodes, key, n)
    ensures var r := WithAncestors(nodes, key, n);
            (forall k :: k in r <==> k in nodes || (IsAncestor(k, key) && |k| < n)) &&
            (forall k :: k in r ==> r[k] == if k in nodes then nodes[k] else Directory)
  {
    if n > 0 {
      AncestorsAdded(nodes, key, n - 1);
      assert forall k :: IsAncestor(k, key) && |k| == n - 1 <==> k == key[..n - 1];
    }
  }

  /** One file system below the extraction root. Names with equal `same` are one name to it. */
  class Tree {
    const same: string -> string
    var nodes: map<Path, Node>

    ghost predicate Valid()
      reads this
    {
      Rooted(nodes)
    }

    constructor (same: string -> string)
      ensures this.same == same && nodes == map[[] := Directory] && Valid()
    {
      this.same := same;
      nodes := map[[] := Directory];
    }

    /** `mkdir(parents=True, exist_ok=True)` for the parent of `path`: fails at a file. */
    method MakeParents(path: Path) returns (ok: bool)
      requires Valid() && path != []
      modifies this`nodes
      ensures Valid()
      ensures ok <==> Unblocked(old(nodes), Folded(same, path), |path|)
      ensures ok ==> nodes == WithAncestors(old(nodes), Folded(same, path), |path|)
      ensures !ok ==> exists n :: 0 <= n < |path| && nodes == WithAncestors(old(nodes), Folded(same, path), n)
    {
      hide Rooted;
      var key := Folded(same, path);
      ok := true;
      for i := 0 to |key|
        invariant Unblocked(old(nodes), key, i) && nodes == WithAncestors(old(nodes), key, i)
      {
        AncestorsAdded(old(nodes), key, i);
        if key[..i] in nodes {
          if nodes[key[..i]] != Directory {
            StaysRooted(old(nodes), key, i);
            return false;
          }
        } else {
          nodes := nodes[key[..i] := Directory];
        }
      }
      StaysRooted(old(nodes), key, |key|);
    }

    /** `open("xb")` and write: fails where anything exists. */
    method CreateExclusive(path: Path, bytes: Bytes) returns (ok: bool)
      requires Valid() && path != []
      modifies this`nodes
      ensures Valid()
      ensures var key := Folded(same, path);
              ok <==> key !in old(nodes) && key[..|key| - 1] in old(nodes) && old(nodes)[key[..|key| - 1]] == Directory
      ensures nodes == if ok then old(nodes)[Folded(same, path) := File(bytes)] else old(nodes)
    {
      var key := Folded(same, path);
      ok := key !in nodes && key[..|key| - 1] in nodes && nodes[key[..|key| - 1]] == Directory;
      if ok { nodes := nodes[key := File(bytes)]; }
    }
  }

  /** No two of the first `n` keys meet: none equals another or lies above it. */
  ghost predicate Apart(keys: seq<Path>, n: nat)
    requires n <= |keys|
  {
    forall i, j :: 0 <= i < n && 0 <= j < n && i != j ==> !(keys[i] <= keys[j])
  }

  function KeysOf(fold: string -> string, payloads: seq<Payload>): (r: seq<Path>)
    ensures |r| == |payloads|
  {
    seq(|payloads|, i requires 0 <= i < |payloads| => Folded(fold, payloads[i].path))
  }

  /** The tree holds exactly the first `n` payloads and the directories above them. */
  ghost predicate Holds(nodes: map<Path, Node>, keys: seq<Path>, payloads: seq<Payload>, n: nat)
    requires n <= |keys| == |payloads|
  {
    [] in nodes && nodes[[]] == Directory &&
    (forall i :: 0 <= i < n ==> keys[i] in nodes && nodes[keys[i]] == File(payloads[i].bytes)) &&
    (forall i, k :: 0 <= i < n && IsAncestor(k, keys[i]) ==> k in nodes && nodes[k] == Directory) &&
    (forall k :: k in nodes && k != [] ==> Leads(k, keys, n))
  }

  /** `k` is one of the first `n` keys or above one. */
  ghost predicate Leads(k: Path, keys: seq<Path>, n: nat)
    requires n <= |keys|
  {
    exists i :: 0 <= i < n && k <= keys[i]
  }

  /** `_extract_python_payloads` into a fresh root: succeeds exactly when no two payloads meet. */
  method ExtractPayloads(tree: Tree, payloads: seq<Payload>) returns (ok: bool)
    requires tree.Valid() && tree.nodes == map[[] := Directory]
    requires forall p :: p in payloads ==> p.path != []
    modifies tree`nodes
    ensures ok <==> Apart(KeysOf(tree.same, payloads), |payloads|)
    ensures ok ==> Holds(tree.nodes, KeysOf(tree.same, payloads), payloads, |payloads|)
  {
    hide Apart, Holds, Rooted, Unblocked;
    var keys := KeysOf(tree.same, payloads);
    NothingExtracted(keys, payloads);
    for n := 0 to |payloads|
      invariant tree.Valid() && Apart(keys, n) && Holds(tree.nodes, keys, payloads, n)
    {
      var p := payloads[n];
      assert p in payloads && Folded(tree.same, p.path) == keys[n];
      ghost var before := tree.nodes;
      var made := tree.MakeParents(p.path);
      if !made {
        ParentsBlocked(before, keys, payloads, n);
        return false;
      }
      AncestorsAdded(before, keys[n], |keys[n]|);
      assert IsAncestor(keys[n][..|keys[n]| - 1], keys[n]);
      assert tree.nodes[keys[n][..|keys[n]| - 1]] == Directory by { ParentIsDirectory(before, keys[n]); }
      var created := tree.CreateExclusive(p.path, p.bytes);
      if !created {
        NameTaken(before, keys, payloads, n);
        return false;
      }
      NextApart(before, keys, payloads, n);
      NextHolds(before, keys, payloads, n);
    }
    ok := true;
  }

  lemma NothingExtracted(keys: seq<Path>, payloads: seq<Payload>)
    requires |keys| == |payloads|
    ensures Apart(keys, 0) && Holds(map[[] := Directory], keys, payloads, 0)
  {}

  lemma ParentIsDirectory(before: map<Path, Node>, key: Path)
    requires key != [] && Unblocked(before, key, |key|)
    ensures var parent := key[..|key| - 1];
      parent in WithAncestors(before, key, |key|) &&
      WithAncestors(before, key, |key|)[parent] == Directory
  {
    AncestorsAdded(before, key, |key|);
    assert IsAncestor(key[..|key| - 1], key);
  }

  lemma ParentsBlocked(before: map<Path, Node>, keys: seq<Path>, payloads: seq<Payload>, n: nat)
    requires n < |keys| == |payloads| && Holds(before, keys, payloads, n)
    requires !Unblocked(before, keys[n], |keys[n]|)
    ensures !Apart(keys, |keys|)
  {
    var i :| 0 <= i < |keys[n]| && keys[n][..i] in before && before[keys[n][..i]] != Directory;
    var k := keys[n][..i];
    assert Leads(k, keys, n);
    var j :| 0 <= j < n && k <= keys[j];
    assert IsAncestor(k, keys[j]) || k == keys[j];
    assert keys[j] <= keys[n];
  }

  lemma NameTaken(before: map<Path, Node>, keys: seq<Path>, payloads: seq<Payload>, n: nat)
    requires n < |keys| == |payloads| && keys[n] != [] && Holds(before, keys, payloads, n)
    requires keys[n] in before
    ensures !Apart(keys, |keys|)
  {
    assert Leads(keys[n], keys, n);
  }

  /** A payload that could be created meets none of the earlier ones. */
  lemma NextApart(before: map<Path, Node>, keys: seq<Path>, payloads: seq<Payload>, n: nat)
    requires n < |keys| == |payloads| && Apart(keys, n) && Holds(before, keys, payloads, n)
    requires Unblocked(before, keys[n], |keys[n]|) && keys[n] !in before
    ensures Apart(keys, n + 1)
  {
    forall j | 0 <= j < n
      ensures !(keys[j] <= keys[n]) && !(keys[n] <= keys[j])
    {
      assert keys[j] in before && before[keys[j]].File?;
      NotAbove(before, keys[j], keys[n]);
      assert !IsAncestor(keys[n], keys[j]);
    }
  }

  /** A file is not above an unblocked key. */
  lemma NotAbove(before: map<Path, Node>, file: Path, key: Path)
    requires file in before && before[file].File? && Unblocked(before, key, |key|) && key !in before
    ensures !(file <= key)
  {
    if |file| < |key| {
      assert key[..|file|] != file;
    } else {
      assert file <= key ==> file == key;
    }
  }

  lemma NextHolds(before: map<Path, Node>, keys: seq<Path>, payloads: seq<Payload>, n: nat)
    requires n < |keys| == |payloads| && keys[n] != [] && Holds(before, keys, payloads, n)
    requires Unblocked(before, keys[n], |keys[n]|) && keys[n] !in before && Apart(keys, n + 1)
    ensures Holds(WithAncestors(before, keys[n], |keys[n]|)[keys[n] := File(payloads[n].bytes)], keys, payloads, n + 1)
  {
    hide WithAncestors, Unblocked;
    AncestorsAdded(before, keys[n], |keys[n]|);
    var after := WithAncestors(before, keys[n], |keys[n]|)[keys[n] := File(payloads[n].bytes)];
    AncestorsHeld(before, after, keys, payloads, n);
    NothingElse(before, after, keys, payloads, n);
  }

  lemma NothingElse(before: map<Path, Node>, after: map<Path, Node>, keys: seq<Path>, payloads: seq<Payload>, n: nat)
    requires n < |keys| == |payloads| && Holds(before, keys, payloads, n)
    requires forall k :: k in after <==> k in before || IsAncestor(k, keys[n]) || k == keys[n]
    ensures forall k :: k in after && k != [] ==> Leads(k, keys, n + 1)
  {
    forall k | k in after && k != []
      ensures Leads(k, keys, n + 1)
    {
      if k in before {
        assert Leads(k, keys, n);
        var i :| 0 <= i < n && k <= keys[i];
        assert i < n + 1 && k <= keys[i];
      } else {
        assert k <= keys[n];
      }
    }
  }

  lemma AncestorsHeld(before: map<Path, Node>, after: map<Path, Node>, keys: seq<Path>, payloads: seq<Payload>, n: nat)
    requires n < |keys| == |payloads| && keys[n] != [] && Holds(before, keys, payloads, n)
    requires Unblocked(before, keys[n], |keys[n]|) && Apart(keys, n + 1)
    requires forall k :: k in after <==> k in before || IsAncestor(k, keys[n]) || k == keys[n]
    requires forall k :: k in after && k != keys[n] ==> after[k] == if k in before then before[k] else Directory
    ensures forall i, k :: 0 <= i < n + 1 && IsAncestor(k, keys[i]) ==> k in after && after[k] == Directory
  {
    forall i, k | 0 <= i < n + 1 && IsAncestor(k, keys[i])
      ensures k in after && after[k] == Directory
    {
      assert k == keys[i][..|k|];
      if i < n { assert k in before && before[k] == Directory && k != keys[n]; }
    }
  }

  // ----- accepted archives always extract -----

  /** The payloads of accepted plans have canonical paths whose collision keys do not meet. */
  ghost predicate Separate(text: Text, payloads: seq<Payload>) {
    (forall p :: p in payloads ==> WellFormed(text, p.path)) &&
    forall i, j :: 0 <= i < |payloads| && 0 <= j < |payloads| && i != j ==>
      !(Folded(text.collide, payloads[i].path) <= Folded(text.collide, payloads[j].path))
  }

  /** Plans with canonical paths and distinct keys of which no file's is above another's. */
  ghost predicate SoundPlans(text: Text, plans: seq<Plan>) {
    (forall p :: p in plans ==>
       WellFormed(text, p.path) && p.key == Folded(text.collide, p.path) && (p.isPython ==> !p.isDirectory)) &&
    (forall i, j :: 0 <= i < j < |plans| ==> plans[i].key != plans[j].key) && NoFileIsAncestor(plans)
  }

  lemma AcceptedPlansAreSound(text: Text, lim: Limits, ms: seq<Member>, plans: seq<Plan>)
    requires Accepted(text, lim, ms, plans)
    ensures SoundPlans(text, plans)
  {
    hide Canonical, IsDirectory, TotalSize, Folded, HasPythonSuffix, InIgnoredDirectory, MemberFault;
    assert ms[..|ms|] == ms;
    forall i | 0 <= i < |plans|
      ensures WellFormed(text, plans[i].path) && plans[i].key == Folded(text.collide, plans[i].path)
    {
      CanonicalIsWellFormed(text, ms[i].originalName);
    }
    forall i, j | 0 <= i < j < |plans|
      ensures plans[i].key != plans[j].key
    {
      assert KeyOf(text, ms[i]) != KeyOf(text, ms[j]);
    }
  }

  lemma {:induction false} DeclaredIsTotal(text: Text, ms: seq<Member>, plans: seq<Plan>)
    requires |plans| == |ms| && forall i :: 0 <= i < |ms| ==> plans[i].member == ms[i]
    ensures DeclaredTotal(plans) == TotalSize(ms)
  {
    if ms != [] { DeclaredIsTotal(text, ms[..|ms| - 1], plans[..|ms| - 1]); }
  }

  lemma AcceptedPlansAreDeclared(text: Text, lim: Limits, ms: seq<Member>, plans: seq<Plan>)
    requires Accepted(text, lim, ms, plans)
    ensures Declared(lim, plans, TotalSize(ms))
  {
    assert ms[..|ms|] == ms;
    DeclaredIsTotal(text, ms, plans);
    hide Canonical, TotalSize, Folded, HasPythonSuffix, InIgnoredDirectory, NoFileIsAncestor, DistinctKeys, Classify;
    hide IsDirectory, CountPython;
    forall i | 0 <= i < |plans|
      ensures 0 <= plans[i].member.size <= lim.maxMemberBytes
      ensures plans[i].isDirectory ==> plans[i].member.size == 0 && !plans[i].isPython
    {
      assert MemberFault(text, lim, ms[i]).None?;
    }
  }

  lemma {:induction false} PayloadsComeFromPlans(plans: seq<Plan>, contents: seq<Bytes>, decode: Bytes -> Option<nat>,
                                                 p: Payload)
    requires |plans| == |contents| && p in PayloadsOf(plans, contents, decode)
    ensures exists i :: 0 <= i < |plans| && plans[i].isPython && plans[i].path == p.path
  {
    var n := |plans| - 1;
    if p in PayloadsOf(plans[..n], contents[..n], decode) {
      PayloadsComeFromPlans(plans[..n], contents[..n], decode, p);
      var i :| 0 <= i < n && plans[..n][i].isPython && plans[..n][i].path == p.path;
      assert plans[i].isPython && plans[i].path == p.path;
    } else {
      assert plans[n].isPython && plans[n].path == p.path;
    }
  }

  lemma {:induction false} PayloadsSeparate(text: Text, plans: seq<Plan>, contents: seq<Bytes>,
                                            decode: Bytes -> Option<nat>)
    requires |plans| == |contents| && SoundPlans(text, plans)
    ensures Separate(text, PayloadsOf(plans, contents, decode))
  {
    hide WellFormed, Folded, Separate, SoundPlans;
    if plans == [] {
      NoPayloads(text);
    } else {
      var n := |plans| - 1;
      var before := PayloadsOf(plans[..n], contents[..n], decode);
      SoundPrefix(text, plans, n);
      PayloadsSeparate(text, plans[..n], contents[..n], decode);
      forall k | plans[n].isPython && 0 <= k < |before|
        ensures !(Folded(text.collide, before[k].path) <= Folded(text.collide, plans[n].path))
        ensures !(Folded(text.collide, plans[n].path) <= Folded(text.collide, before[k].path))
      {
        PayloadsComeFromPlans(plans[..n], contents[..n], decode, before[k]);
        var i :| 0 <= i < n && plans[..n][i].isPython && plans[..n][i].path == before[k].path;
        FilesDoNotMeet(text, plans, i, n);
      }
      if plans[n].isPython && decode(contents[n]).Some? {
        OneMoreSeparate(text, before, Payload(plans[n].path, contents[n], decode(contents[n]).value));
      } else {
        assert before + [] == before;
      }
    }
  }

  lemma NoPayloads(text: Text)
    ensures Separate(text, [])
  {}

  lemma SoundPrefix(text: Text, plans: seq<Plan>, n: nat)
    requires SoundPlans(text, plans) && n < |plans|
    ensures SoundPlans(text, plans[..n]) && WellFormed(text, plans[n].path)
  {
    hide WellFormed, Folded;
    assert forall p :: p in plans[..n] ==> p in plans;
  }

  lemma OneMoreSeparate(text: Text, payloads: seq<Payload>, p: Payload)
    requires Separate(text, payloads) && WellFormed(text, p.path)
    requires forall k :: 0 <= k < |payloads| ==>
      !(Folded(text.collide, payloads[k].path) <= Folded(text.collide, p.path))
    requires forall k :: 0 <= k < |payloads| ==>
      !(Folded(text.collide, p.path) <= Folded(text.collide, payloads[k].path))
    ensures Separate(text, payloads + [p])
  {
    hide WellFormed, Folded;
  }

  lemma FilesDoNotMeet(text: Text, plans: seq<Plan>, i: nat, j: nat)
    requires SoundPlans(text, plans) && i < j < |plans| && plans[i].isPython && plans[j].isPython
    ensures !(Folded(text.collide, plans[i].path) <= Folded(text.collide, plans[j].path))
    ensures !(Folded(text.collide, plans[j].path) <= Folded(text.collide, plans[i].path))
  {
    hide WellFormed, Folded;
    assert plans[i] in plans && plans[j] in plans;
    assert !ProperPrefix(plans[i].key, plans[j].key) && !ProperPrefix(plans[j].key, plans[i].key);
  }

  /** Sorting by name keeps the payloads apart, and sorts them strictly. */
  lemma SortedPayloads(text: Text, payloads: seq<Payload>)
    requires Separate(text, payloads)
    ensures Separate(text, Sort(PayloadLess, payloads)) && Ascending(PayloadLess, Sort(PayloadLess, payloads))
  {
    hide WellFormed, Sort, Folded;
    var sorted := Sort(PayloadLess, payloads);
    NamesOrdered();
    SortPermutes(PayloadLess, payloads);
    SameElements(sorted, payloads);
    PayloadsComparable(text, payloads);
    SortAscends(PayloadLess, payloads);
    AscendingDistinct(PayloadLess, sorted);
    hide PayloadLess;
    forall i, j | 0 <= i < |sorted| && 0 <= j < |sorted| && i != j
      ensures !(Folded(text.collide, sorted[i].path) <= Folded(text.collide, sorted[j].path))
    {
      assert sorted[i] in payloads && sorted[j] in payloads && sorted[i] != sorted[j];
      var k :| 0 <= k < |payloads| && payloads[k] == sorted[i];
      var l :| 0 <= l < |payloads| && payloads[l] == sorted[j];
    }
  }

  lemma NamesOrdered()
    ensures StrictOrder(PayloadLess)
  {
    StringsOrdered();
  }

  lemma PayloadsComparable(text: Text, payloads: seq<Payload>)
    requires Separate(text, payloads)
    ensures Comparable(PayloadLess, payloads) && NoDuplicates(payloads)
  {
    hide WellFormed, StringLess, Join;
    StringsOrdered();
    forall i, j | 0 <= i < |payloads| && 0 <= j < |payloads| && i != j
      ensures Join(payloads[i].path) != Join(payloads[j].path)
    {
      assert payloads[i] in payloads && payloads[j] in payloads;
      if Join(payloads[i].path) == Join(payloads[j].path) { JoinInjective(text, payloads[i].path, payloads[j].path); }
    }
  }

  /** In any file system that identifies only names with equal collision keys, the payloads stay apart. */
  lemma SeparateOnAnyFileSystem(text: Text, same: string -> string, payloads: seq<Payload>)
    requires Separate(text, payloads) && forall x, y :: same(x) == same(y) ==> text.collide(x) == text.collide(y)
    ensures Apart(KeysOf(same, payloads), |payloads|)
  {
    var keys := KeysOf(same, payloads);
    forall i, j | 0 <= i < |keys| && 0 <= j < |keys| && i != j
      ensures !(keys[i] <= keys[j])
    {
      if keys[i] <= keys[j] { FoldedPrefix(same, text.collide, payloads[i].path, payloads[j].path); }
    }
  }

  /** The metadata is accepted, and reading stops at some member for the reason given. */
  ghost predicate Unreadable(text: Text, lim: Limits, ms: seq<Member>, contents: seq<Bytes>,
                             decode: Bytes -> Option<nat>, e: ZipError)
  {
    exists plans, i :: Accepted(text, lim, ms, plans) && 0 <= i < |plans| == |contents| &&
      ReadFault(lim, plans, contents, decode, i, e)
  }

  /**
    From metadata to files on disk. Rejection never comes from the extraction and leaves the root
    empty; acceptance leaves exactly the decoded Python files and the directories above them.
   */
  method ValidateAndExtract(text: Text, lim: Limits, ms: seq<Member>, contents: seq<Bytes>,
                            decode: Bytes -> Option<nat>,
                            granted: (nat, nat) -> nat, tree: Tree) returns (r: Result<seq<Payload>, ZipError>)
    requires |contents| == |ms| && tree.Valid() && tree.nodes == map[[] := Directory]
    requires forall x, y :: tree.same(x) == tree.same(y) ==> text.collide(x) == text.collide(y)
    modifies tree`nodes
    ensures r.Ok? <==> exists plans :: Accepted(text, lim, ms, plans) && Readable(lim, plans, contents, decode)
    // Returned are exactly the wanted members, in strict order of their names; on disk are exactly these.
    ensures r.Ok? ==> ExactlyWanted(text, ms, contents, decode, r.value) && Ascending(PayloadLess, r.value)
    ensures r.Ok? ==> |r.value| <= lim.maxPythonFiles && OnDisk(text, tree.same, ms, contents, tree.nodes)
    // An error names the first thing that is wrong with the metadata, or else with what is read; nothing is on disk.
    ensures r.Err? ==> tree.nodes == old(tree.nodes)
    ensures r.Err? ==> Rejected(text, lim, ms, r.error) || Unreadable(text, lim, ms, contents, decode, r.error)
  {
    hide Accepted, Rejected, Readable, Declared, SoundPlans, Separate, Apart, Holds, PayloadsOf, Sort, PayloadLess,
    WellFormed, Ascending, ExactlyWanted, OnDisk, ReadFault;
    var metadata := ValidateAllMetadata(text, lim, ms);
    if metadata.Err? {
      forall plans
        ensures !Accepted(text, lim, ms, plans)
      {
        if Accepted(text, lim, ms, plans) { AcceptedIsNotRejected(text, lim, ms, plans, metadata.error); }
      }
      return Err(metadata.error);
    }
    var (plans, total) := metadata.value;
    PlansDetermined(text, lim, ms, plans);
    AcceptedPlansAreDeclared(text, lim, ms, plans);
    var read := ReadAll(lim, plans, total, contents, decode, granted);
    if read.Err? { return Err(read.error); }
    var payloads := read.value;
    AcceptedPlansAreSound(text, lim, ms, plans);
    PayloadsSeparate(text, plans, contents, decode);
    SortedPayloads(text, PayloadsOf(plans, contents, decode));
    SeparatePathsNonEmpty(text, payloads);
    SeparateOnAnyFileSystem(text, tree.same, payloads);
    var ok := ExtractPayloads(tree, payloads);
    if !ok { return Err(ExtractionFailed); }
    PayloadsAreWanted(text, lim, ms, plans, contents, decode);
    HeldOnDisk(text, tree.same, ms, contents, decode, payloads, tree.nodes);
    r := Ok(payloads);
  }

  // ----- exactly which files, with what in them -----

  /** A file with the suffix of Python that lies in no ignored directory. */
  ghost predicate Wanted(text: Text, m: Member) {
    Canonical(text, m.originalName).Some? && !IsDirectory(m) &&
    var path := Canonical(text, m.originalName).value;
    path != [] && text.fold(Suffix(path[|path| - 1])) == ".py" &&
    forall i :: 0 <= i < |path| - 1 ==> !IgnoredDirectory(text, path[i])
  }

  /** `p` is what member `i` holds: its canonical path, its own bytes and the lines in them. */
  ghost predicate IsMember(text: Text, ms: seq<Member>, contents: seq<Bytes>, decode: Bytes -> Option<nat>, i: nat,
                           p: Payload)
    requires i < |ms| == |contents|
  {
    Wanted(text, ms[i]) && Canonical(text, ms[i].originalName) == Some(p.path) &&
    p.bytes == contents[i] && decode(contents[i]) == Some(p.lines)
  }

  /** The payloads are the wanted members, all and only. */
  ghost predicate ExactlyWanted(text: Text, ms: seq<Member>, contents: seq<Bytes>, decode: Bytes -> Option<nat>,
                                payloads: seq<Payload>)
    requires |ms| == |contents|
  {
    (forall p :: p in payloads ==> exists i :: 0 <= i < |ms| && IsMember(text, ms, contents, decode, i, p)) &&
    forall i :: 0 <= i < |ms| && Wanted(text, ms[i]) ==>
      exists p :: p in payloads && IsMember(text, ms, contents, decode, i, p)
  }

  /** `k` is the place of a wanted member, or a directory above one. */
  ghost predicate LeadsToMember(text: Text, same: string -> string, ms: seq<Member>, k: Path) {
    exists i :: 0 <= i < |ms| && Wanted(text, ms[i]) && k <= PlaceOf(text, same, ms[i])
  }

  /** Where the file system puts a member. */
  ghost function PlaceOf(text: Text, same: string -> string, m: Member): Path
    requires Wanted(text, m)
  {
    Folded(same, Canonical(text, m.originalName).value)
  }

  /** Each wanted member is a file with its own bytes, and nothing else is there but the directories above. */
  ghost predicate OnDisk(text: Text, same: string -> string, ms: seq<Member>, contents: seq<Bytes>,
                         nodes: map<Path, Node>)
    requires |ms| == |contents|
  {
    (forall i :: 0 <= i < |ms| && Wanted(text, ms[i]) ==>
       PlaceOf(text, same, ms[i]) in nodes && nodes[PlaceOf(text, same, ms[i])] == File(contents[i])) &&
    (forall i, k :: 0 <= i < |ms| && Wanted(text, ms[i]) && IsAncestor(k, PlaceOf(text, same, ms[i])) ==>
       k in nodes && nodes[k] == Directory) &&
    [] in nodes && nodes[[]] == Directory &&
    forall k :: k in nodes && k != [] ==> LeadsToMember(text, same, ms, k)
  }

  ghost predicate PythonAt(plans: seq<Plan>, contents: seq<Bytes>, decode: Bytes -> Option<nat>, i: nat, p: Payload)
    requires i < |plans| == |contents|
  {
    plans[i].isPython && decode(contents[i]) == Some(p.lines) && p.path == plans[i].path && p.bytes == contents[i]
  }

  lemma {:induction false} PayloadsExactly(plans: seq<Plan>, contents: seq<Bytes>, decode: Bytes -> Option<nat>,
                                           p: Payload)
    requires |plans| == |contents|
    ensures p in PayloadsOf(plans, contents, decode) <==>
      exists i :: 0 <= i < |plans| && PythonAt(plans, contents, decode, i, p)
  {
    if plans != [] {
      var n := |plans| - 1;
      PayloadsExactly(plans[..n], contents[..n], decode, p);
      assert PythonAt(plans, contents, decode, n, p) <==>
        plans[n].isPython && decode(contents[n]).Some? &&
        p == Payload(plans[n].path, contents[n], decode(contents[n]).value);
      forall i | 0 <= i < n
        ensures PythonAt(plans, contents, decode, i, p) <==> PythonAt(plans[..n], contents[..n], decode, i, p)
      {}
      hide PythonAt;
    }
  }

  /** There are as many payloads as Python plans, when all are readable. */
  lemma {:induction false} PayloadCount(plans: seq<Plan>, contents: seq<Bytes>, decode: Bytes -> Option<nat>)
    requires |plans| == |contents| && MembersReadable(plans, contents, decode)
    requires forall i :: 0 <= i < |plans| && plans[i].isPython ==> !plans[i].isDirectory
    ensures |PayloadsOf(plans, contents, decode)| == CountPython(plans)
  {
    if plans != [] {
      var n := |plans| - 1;
      PayloadCount(plans[..n], contents[..n], decode);
    }
  }

  lemma PlanIsWanted(text: Text, m: Member)
    requires Canonical(text, m.originalName).Some?
    ensures PlanOf(text, m).isPython <==> Wanted(text, m)
    ensures PlanOf(text, m).path == Canonical(text, m.originalName).value
  {
    hide Canonical, IsDirectory, Folded, IgnoredDirectory, Suffix;
    CanonicalIsWellFormed(text, m.originalName);
  }

  /** The sorted payloads of accepted, readable plans are the wanted members. */
  lemma PayloadsAreWanted(text: Text, lim: Limits, ms: seq<Member>, plans: seq<Plan>, contents: seq<Bytes>,
                          decode: Bytes -> Option<nat>)
    requires |contents| == |ms| && Accepted(text, lim, ms, plans) && |plans| == |ms|
    requires Readable(lim, plans, contents, decode)
    ensures ExactlyWanted(text, ms, contents, decode, Sort(PayloadLess, PayloadsOf(plans, contents, decode)))
    ensures |Sort(PayloadLess, PayloadsOf(plans, contents, decode))| <= lim.maxPythonFiles
  {
    hide Canonical, PayloadsOf, Sort, PayloadLess, Wanted, PlanOf, Passed, NoFileIsAncestor, CountPython, LinesOf;
    var payloads := PayloadsOf(plans, contents, decode);
    SortPermutes(PayloadLess, payloads);
    SameElements(Sort(PayloadLess, payloads), payloads);
    forall i | 0 <= i < |ms|
      ensures plans[i].isPython <==> Wanted(text, ms[i])
      ensures Canonical(text, ms[i].originalName) == Some(plans[i].path)
      ensures plans[i].isPython ==> !plans[i].isDirectory
    {
      assert ms[i] in ms;
      PlanIsWanted(text, ms[i]);
      PythonIsFile(text, ms[i]);
    }
    PayloadCount(plans, contents, decode);
    forall p | p in payloads
      ensures exists i :: 0 <= i < |ms| && IsMember(text, ms, contents, decode, i, p)
    {
      PayloadsExactly(plans, contents, decode, p);
      var i :| 0 <= i < |plans| && PythonAt(plans, contents, decode, i, p);
      assert IsMember(text, ms, contents, decode, i, p);
    }
    forall i | 0 <= i < |ms| && Wanted(text, ms[i])
      ensures exists p :: p in payloads && IsMember(text, ms, contents, decode, i, p)
    {
      var p := Payload(plans[i].path, contents[i], decode(contents[i]).value);
      PayloadsExactly(plans, contents, decode, p);
      assert PythonAt(plans, contents, decode, i, p);
      assert p in payloads && IsMember(text, ms, contents, decode, i, p);
    }
  }

  lemma PythonIsFile(text: Text, m: Member)
    requires Canonical(text, m.originalName).Some?
    ensures PlanOf(text, m).isPython ==> !PlanOf(text, m).isDirectory
  {
    hide Canonical, IsDirectory, Folded;
  }

  /** The key of a member's payload is the member's place. */
  lemma KeyIsPlace(text: Text, same: string -> string, ms: seq<Member>, contents: seq<Bytes>,
                   decode: Bytes -> Option<nat>, payloads: seq<Payload>, i: nat, j: nat)
    requires i < |ms| == |contents| && j < |payloads| && IsMember(text, ms, contents, decode, i, payloads[j])
    ensures KeysOf(same, payloads)[j] == PlaceOf(text, same, ms[i]) && payloads[j].bytes == contents[i]
  {
    hide Wanted, Canonical, Folded;
  }

  /** A tree that holds the wanted members as payloads has each of them on disk. */
  lemma MemberOnDisk(text: Text, same: string -> string, ms: seq<Member>, contents: seq<Bytes>,
                     decode: Bytes -> Option<nat>, payloads: seq<Payload>, nodes: map<Path, Node>, i: nat)
    requires i < |ms| == |contents| && ExactlyWanted(text, ms, contents, decode, payloads) && Wanted(text, ms[i])
    requires Holds(nodes, KeysOf(same, payloads), payloads, |payloads|)
    ensures PlaceOf(text, same, ms[i]) in nodes && nodes[PlaceOf(text, same, ms[i])] == File(contents[i])
    ensures forall k :: IsAncestor(k, PlaceOf(text, same, ms[i])) ==> k in nodes && nodes[k] == Directory
  {
    hide Wanted, Canonical, PlaceOf, KeysOf, IsMember, IsAncestor, Holds, ExactlyWanted;
    var j := PayloadOfMember(text, ms, contents, decode, payloads, i);
    KeyIsPlace(text, same, ms, contents, decode, payloads, i, j);
    HeldAt(nodes, KeysOf(same, payloads), payloads, j);
  }

  lemma PayloadOfMember(text: Text, ms: seq<Member>, contents: seq<Bytes>, decode: Bytes -> Option<nat>,
                        payloads: seq<Payload>, i: nat) returns (j: nat)
    requires i < |ms| == |contents| && ExactlyWanted(text, ms, contents, decode, payloads) && Wanted(text, ms[i])
    ensures j < |payloads| && IsMember(text, ms, contents, decode, i, payloads[j])
  {
    hide Wanted, IsMember;
    var p :| p in payloads && IsMember(text, ms, contents, decode, i, p);
    j :| 0 <= j < |payloads| && payloads[j] == p;
  }

  lemma HeldAt(nodes: map<Path, Node>, keys: seq<Path>, payloads: seq<Payload>, j: nat)
    requires j < |payloads| == |keys| && Holds(nodes, keys, payloads, |payloads|)
    ensures keys[j] in nodes && nodes[keys[j]] == File(payloads[j].bytes)
    ensures forall k :: IsAncestor(k, keys[j]) ==> k in nodes && nodes[k] == Directory
  {
    hide IsAncestor;
  }

  /** ... and nothing else. */
  lemma NothingElseOnDisk(text: Text, same: string -> string, ms: seq<Member>, contents: seq<Bytes>,
                          decode: Bytes -> Option<nat>, payloads: seq<Payload>, nodes: map<Path, Node>, k: Path)
    requires |ms| == |contents| && ExactlyWanted(text, ms, contents, decode, payloads) && k in nodes && k != []
    requires Holds(nodes, KeysOf(same, payloads), payloads, |payloads|)
    ensures LeadsToMember(text, same, ms, k)
  {
    hide Wanted, Canonical, PlaceOf, KeysOf, IsMember, IsAncestor;
    assert Leads(k, KeysOf(same, payloads), |payloads|);
    var j :| 0 <= j < |payloads| && k <= KeysOf(same, payloads)[j];
    assert payloads[j] in payloads;
    var i :| 0 <= i < |ms| && IsMember(text, ms, contents, decode, i, payloads[j]);
    KeyIsPlace(text, same, ms, contents, decode, payloads, i, j);
    MemberWanted(text, ms, contents, decode, i, payloads[j]);
  }

  lemma MemberWanted(text: Text, ms: seq<Member>, contents: seq<Bytes>, decode: Bytes -> Option<nat>, i: nat,
                     p: Payload)
    requires i < |ms| == |contents| && IsMember(text, ms, contents, decode, i, p)
    ensures Wanted(text, ms[i])
  {
    hide Wanted;
  }

  lemma HeldOnDisk(text: Text, same: string -> string, ms: seq<Member>, contents: seq<Bytes>,
                   decode: Bytes -> Option<nat>, payloads: seq<Payload>, nodes: map<Path, Node>)
    requires |ms| == |contents| && ExactlyWanted(text, ms, contents, decode, payloads)
    requires Holds(nodes, KeysOf(same, payloads), payloads, |payloads|)
    ensures OnDisk(text, same, ms, contents, nodes)
  {
    forall i | 0 <= i < |ms| && Wanted(text, ms[i])
      ensures PlaceOf(text, same, ms[i]) in nodes && nodes[PlaceOf(text, same, ms[i])] == File(contents[i])
      ensures forall k :: IsAncestor(k, PlaceOf(text, same, ms[i])) ==> k in nodes && nodes[k] == Directory
    {
      MemberOnDisk(text, same, ms, contents, decode, payloads, nodes, i);
    }
    forall k | k in nodes && k != []
      ensures LeadsToMember(text, same, ms, k)
    {
      NothingElseOnDisk(text, same, ms, contents, decode, payloads, nodes, k);
    }
    RootHeld(KeysOf(same, payloads), payloads, nodes);
    hide Wanted, Holds, ExactlyWanted, LeadsToMember, PlaceOf, IsAncestor;
  }

  lemma RootHeld(keys: seq<Path>, payloads: seq<Payload>, nodes: map<Path, Node>)
    requires |keys| == |payloads| && Holds(nodes, keys, payloads, |payloads|)
    ensures [] in nodes && nodes[[]] == Directory
  {}

  lemma SeparatePathsNonEmpty(text: Text, payloads: seq<Payload>)
    requires Separate(text, payloads)
    ensures forall p :: p in payloads ==> p.path != []
  {}

  lemma PlansDetermined(text: Text, lim: Limits, ms: seq<Member>, plans: seq<Plan>)
    requires Accepted(text, lim, ms, plans)
    ensures |plans| == |ms| && forall other :: Accepted(text, lim, ms, other) ==> other == plans
  {
    hide PlanOf, Passed, Canonical, NoFileIsAncestor, CountPython;
  }
}
