/**
  The metadata of an archive, validated as a whole before anything is read
  (app/security/zip_guard.py:404-520).
 */
module ZipPlan {
  import opened Wrappers
  import opened ZipPath

  datatype ZipError =
    | TooManyMembers | InvalidMemberPath | UnsafeMemberType | EncryptedMember
    | DuplicateDestination | FileDirectoryConflict
    | MemberTooLarge | TotalTooLarge | CompressionRatioExceeded | TooManyPythonFiles
    | NonUtf8Python | PythonLocExceeded | InvalidArchive | ExtractionFailed

  datatype Limits = Limits(
    maxMembers: nat, maxMemberBytes: nat, maxTotalBytes: nat, maxRatio: nat, maxPythonFiles: nat, maxPythonLoc: nat)
  {
    /** Callers may tighten the limits, never relax them (zip_guard.py:85-113). */
    predicate Valid() {
      0 < maxMembers <= 200 && 0 < maxMemberBytes <= 1024 * 1024 && 0 < maxTotalBytes <= 10 * 1024 * 1024 &&
      0 < maxRatio <= 100 && 0 < maxPythonFiles <= 200 && 0 < maxPythonLoc <= 50_000
    }
  }

  /** One entry of the central directory. */
  datatype Member = Member(
    originalName: string, name: string, flags: bv16, compression: nat, attributes: bv32, size: int, compressed: int)

  datatype Plan = Plan(member: Member, path: Path, key: Path, isDirectory: bool, isPython: bool, isIgnoredPython: bool)

  // ----- one member -----

  function FileType(m: Member): bv32 { (m.attributes >> 16) & 0xF000 }

  const REGULAR: bv32 := 0x8000
  const DIRECTORY: bv32 := 0x4000

  predicate NamedAsDirectory(m: Member) {
    m.originalName != "" && IsSeparator(m.originalName[|m.originalName| - 1])
  }

  predicate MarkedAsDirectory(m: Member) { NamedAsDirectory(m) || m.attributes & 0x10 != 0 }

  predicate IsDirectory(m: Member) { FileType(m) == DIRECTORY || MarkedAsDirectory(m) }

  /** `_classify_member`: a regular file or a directory, and never two things at once. */
  function Classify(m: Member): (r: Result<bool, ZipError>)
    ensures r.Ok? ==> r.value == IsDirectory(m)
    ensures var marked := (m.originalName != "" && m.originalName[|m.originalName| - 1] in {'/', '\\'}) ||
                          m.attributes & 0x10 != 0;
            var fileType := (m.attributes >> 16) & 0xF000;
            (r.Ok? <==>
             m.flags & 0x41 == 0 && m.compression in {0, 8, 12, 14} && m.attributes & 0x08 == 0 &&
             (fileType == 0 || (fileType == 0x8000 && !marked) || (fileType == 0x4000 && marked))) &&
            (r.Ok? ==> r.value == marked)
    ensures r == Err(EncryptedMember) <==> m.flags & 0x41 != 0
    ensures r.Err? ==> r.error == EncryptedMember || r.error == UnsafeMemberType
  {
    if m.flags & 0x41 != 0 then Err(EncryptedMember)
    else if m.compression !in {0, 8, 12, 14} then Err(UnsafeMemberType)
    else if m.attributes & 0x08 != 0 then Err(UnsafeMemberType)
    else if FileType(m) !in {0, REGULAR, DIRECTORY} then Err(UnsafeMemberType)
    else if FileType(m) == REGULAR && MarkedAsDirectory(m) then Err(UnsafeMemberType)
    else if FileType(m) == DIRECTORY && !MarkedAsDirectory(m) then Err(UnsafeMemberType)
    else Ok(FileType(m) == DIRECTORY || MarkedAsDirectory(m))
  }

  /** `_validate_member_sizes`. */
  function SizeFault(lim: Limits, m: Member, isDirectory: bool): (r: Option<ZipError>)
    ensures r.None? <==>
      0 <= m.size <= lim.maxMemberBytes && 0 <= m.compressed && m.size <= m.compressed * lim.maxRatio &&
      (isDirectory ==> m.size == 0 && m.compressed == 0)
    ensures r == Some(InvalidArchive) <==> m.size < 0 || m.compressed < 0
    ensures r == Some(UnsafeMemberType) <==>
      isDirectory && m.size >= 0 && m.compressed >= 0 && m.size + m.compressed > 0
    ensures r == Some(MemberTooLarge) <==> !isDirectory && m.compressed >= 0 && m.size > lim.maxMemberBytes
    ensures r == Some(CompressionRatioExceeded) <==>
      !isDirectory && m.compressed >= 0 && m.compressed * lim.maxRatio < m.size <= lim.maxMemberBytes
    ensures r.Some? ==> r.value in {InvalidArchive, UnsafeMemberType, MemberTooLarge, CompressionRatioExceeded}
  {
    if m.size < 0 || m.compressed < 0 then Some(InvalidArchive)
    else if isDirectory && (m.size != 0 || m.compressed != 0) then Some(UnsafeMemberType)
    else if m.size > lim.maxMemberBytes then Some(MemberTooLarge)
    else if m.compressed == 0 then (if m.size > 0 then Some(CompressionRatioExceeded) else None)
    else if m.size > m.compressed * lim.maxRatio then Some(CompressionRatioExceeded)
    else None
  }

  function PlanOf(text: Text, m: Member): Plan
    requires Canonical(text, m.originalName).Some?
  {
    var path := Canonical(text, m.originalName).value;
    CanonicalIsWellFormed(text, m.originalName);
    var isDirectory := IsDirectory(m);
    var python := !isDirectory && HasPythonSuffix(text, path);
    var ignored := InIgnoredDirectory(text, path);
    Plan(m, path, Folded(text.collide, path), isDirectory, python && !ignored, python && ignored)
  }

  /** What is wrong with a member on its own, in the order it is looked for. */
  function MemberFault(text: Text, lim: Limits, m: Member): Option<ZipError> {
    if m.originalName != m.name || Canonical(text, m.originalName).None? then Some(InvalidMemberPath)
    else if Classify(m).Err? then Some(Classify(m).error)
    else SizeFault(lim, m, IsDirectory(m))
  }

  function KeyOf(text: Text, m: Member): Path
    requires Canonical(text, m.originalName).Some?
  {
    PlanOf(text, m).key
  }

  function TotalSize(ms: seq<Member>): int {
    if ms == [] then 0 else TotalSize(ms[..|ms| - 1]) + ms[|ms| - 1].size
  }

  // ----- the whole archive -----

  ghost predicate Sound(text: Text, lim: Limits, ms: seq<Member>) {
    forall i :: 0 <= i < |ms| ==> MemberFault(text, lim, ms[i]).None?
  }

  ghost predicate AllNamed(text: Text, ms: seq<Member>) {
    forall m :: m in ms ==> Canonical(text, m.originalName).Some?
  }

  ghost predicate DistinctKeys(text: Text, ms: seq<Member>)
    requires AllNamed(text, ms)
  {
    forall i, j :: 0 <= i < j < |ms| ==> KeyOf(text, ms[i]) != KeyOf(text, ms[j])
  }

  /** The first `n` members pass every check made member by member. */
  ghost predicate Passed(text: Text, lim: Limits, ms: seq<Member>, n: nat)
    requires n <= |ms|
  {
    Sound(text, lim, ms[..n]) && AllNamed(text, ms[..n]) && DistinctKeys(text, ms[..n]) &&
      TotalSize(ms[..n]) <= lim.maxTotalBytes
  }

  predicate ProperPrefix(a: Path, b: Path) { |a| < |b| && a <= b }

  /** No file sits where another member needs a directory. */
  ghost predicate NoFileIsAncestor(plans: seq<Plan>) {
    forall f, o :: f in plans && o in plans && !f.isDirectory ==> !ProperPrefix(f.key, o.key)
  }

  function CountPython(plans: seq<Plan>): nat {
    if plans == [] then 0 else CountPython(plans[..|plans| - 1]) + (if plans[|plans| - 1].isPython then 1 else 0)
  }

  ghost predicate PlansOf(text: Text, ms: seq<Member>, plans: seq<Plan>)
    requires AllNamed(text, ms)
  {
    |plans| == |ms| && forall i :: 0 <= i < |ms| ==> plans[i] == PlanOf(text, ms[i])
  }

  /** The first fault of member `i`, those before it having passed. */
  ghost predicate FaultAt(text: Text, lim: Limits, ms: seq<Member>, i: nat, e: ZipError)
    requires i < |ms| && Passed(text, lim, ms, i)
  {
    var fault := MemberFault(text, lim, ms[i]);
    if fault.Some? then e == fault.value
    else if TotalSize(ms[..i + 1]) > lim.maxTotalBytes then e == TotalTooLarge
    else
      exists j :: 0 <= j < i && KeyOf(text, ms[j]) == KeyOf(text, ms[i]) &&
        e == if IsDirectory(ms[j]) == IsDirectory(ms[i]) then DuplicateDestination else FileDirectoryConflict
  }

  /** `_validate_all_metadata`. */
  method ValidateAllMetadata(text: Text, lim: Limits, ms: seq<Member>) returns (r: Result<(seq<Plan>, int), ZipError>)
    ensures r.Ok? ==> Accepted(text, lim, ms, r.value.0) && r.value.1 == TotalSize(ms)
    ensures r.Err? ==> Rejected(text, lim, ms, r.error)
  {
    hide FaultAt, Accepted, Rejected, Passed, Recorded, PlansOf, PlanOf, Canonical, Classify, SizeFault, IsDirectory,
    TotalSize;
    if |ms| > lim.maxMembers {
      TooMany(text, lim, ms);
      return Err(TooManyMembers);
    }
    var plans: seq<Plan> := [];
    var total := 0;
    var destinations: map<Path, bool> := map[];
    NothingYet(text, lim, ms);
    for i := 0 to |ms|
      invariant Passed(text, lim, ms, i) && AllNamed(text, ms[..i])
      invariant total == TotalSize(ms[..i])
      invariant PlansOf(text, ms[..i], plans)
      invariant Recorded(text, ms[..i], destinations)
    {
      var info := ms[i];
      NextMember(ms, i);
      ghost var fault := MemberFault(text, lim, info);
      if fault.Some? { Faulty(text, lim, ms, i, fault.value); }
      if info.originalName != info.name { return Err(InvalidMemberPath); }
      var path := CanonicalizeMemberPath(text, info.originalName);
      if path.None? { return Err(InvalidMemberPath); }
      var kind := Classify(info);
      if kind.Err? { return Err(kind.error); }
      var sizes := SizeFault(lim, info, kind.value);
      if sizes.Some? { return Err(sizes.value); }
      total := total + info.size;
      if total > lim.maxTotalBytes {
        Overflows(text, lim, ms, i);
        return Err(TotalTooLarge);
      }
      var plan := PlanOf(text, info);
      if plan.key in destinations {
        var e := if destinations[plan.key] == kind.value then DuplicateDestination else FileDirectoryConflict;
        Collides(text, lim, ms, i, destinations, e);
        return Err(e);
      }
      Passes(text, lim, ms, i, destinations, plans);
      destinations := destinations[plan.key := kind.value];
      plans := plans + [plan];
    }
    assert ms[..|ms|] == ms;
    var conflict := HasFileAncestor(plans);
    if conflict {
      Conflicts(text, lim, ms, plans, FileDirectoryConflict);
      return Err(FileDirectoryConflict);
    }
    if CountPython(plans) > lim.maxPythonFiles {
      Conflicts(text, lim, ms, plans, TooManyPythonFiles);
      return Err(TooManyPythonFiles);
    }
    r := Ok((plans, total));
    assert Accepted(text, lim, ms, plans) by { Accepts(text, lim, ms, plans); }
  }

  /** `_validate_file_directory_conflicts`. */
  method HasFileAncestor(plans: seq<Plan>) returns (conflict: bool)
    ensures conflict <==> !NoFileIsAncestor(plans)
  {
    for i := 0 to |plans|
      invariant forall f, o :: f in plans[..i] && o in plans && !f.isDirectory ==> !ProperPrefix(f.key, o.key)
    {
      if !plans[i].isDirectory && exists o :: o in plans && ProperPrefix(plans[i].key, o.key) {
        assert plans[i] in plans;
        return true;
      }
    }
    assert plans[..|plans|] == plans;
    return false;
  }

  ghost predicate Recorded(text: Text, ms: seq<Member>, destinations: map<Path, bool>)
    requires AllNamed(text, ms)
  {
    (forall k :: k in destinations ==>
       exists j :: 0 <= j < |ms| && KeyOf(text, ms[j]) == k && destinations[k] == IsDirectory(ms[j])) &&
    (forall j :: 0 <= j < |ms| ==> KeyOf(text, ms[j]) in destinations)
  }

  lemma NextMember(ms: seq<Member>, i: nat)
    requires i < |ms|
    ensures ms[..i + 1] == ms[..i] + [ms[i]] && TotalSize(ms[..i + 1]) == TotalSize(ms[..i]) + ms[i].size
  {
    assert ms[..i + 1][..i] == ms[..i];
  }

  lemma NothingYet(text: Text, lim: Limits, ms: seq<Member>)
    ensures Passed(text, lim, ms, 0) && AllNamed(text, ms[..0]) && PlansOf(text, ms[..0], []) &&
      Recorded(text, ms[..0], map[])
    ensures TotalSize(ms[..0]) == 0
  {}

  lemma TooMany(text: Text, lim: Limits, ms: seq<Member>)
    requires |ms| > lim.maxMembers
    ensures Rejected(text, lim, ms, TooManyMembers)
  {}

  lemma Faulty(text: Text, lim: Limits, ms: seq<Member>, i: nat, e: ZipError)
    requires i < |ms| <= lim.maxMembers && Passed(text, lim, ms, i) && MemberFault(text, lim, ms[i]) == Some(e)
    ensures Rejected(text, lim, ms, e)
  {
    hide Passed, MemberFault;
    assert FaultAt(text, lim, ms, i, e);
  }

  lemma Overflows(text: Text, lim: Limits, ms: seq<Member>, i: nat)
    requires i < |ms| <= lim.maxMembers && Passed(text, lim, ms, i) && MemberFault(text, lim, ms[i]).None?
    requires TotalSize(ms[..i + 1]) > lim.maxTotalBytes
    ensures Rejected(text, lim, ms, TotalTooLarge)
  {
    hide Passed, MemberFault;
    assert FaultAt(text, lim, ms, i, TotalTooLarge);
  }

  lemma Collides(text: Text, lim: Limits, ms: seq<Member>, i: nat, destinations: map<Path, bool>, e: ZipError)
    requires i < |ms| <= lim.maxMembers && Passed(text, lim, ms, i) && MemberFault(text, lim, ms[i]).None?
    requires TotalSize(ms[..i + 1]) <= lim.maxTotalBytes && AllNamed(text, ms[..i]) &&
      Recorded(text, ms[..i], destinations)
    requires Canonical(text, ms[i].originalName).Some? && KeyOf(text, ms[i]) in destinations
    requires e ==
      if destinations[KeyOf(text, ms[i])] == IsDirectory(ms[i]) then DuplicateDestination else FileDirectoryConflict
    ensures Rejected(text, lim, ms, e)
  {
    hide MemberFault, KeyOf, IsDirectory, TotalSize, Canonical;
    var key := KeyOf(text, ms[i]);
    var j :| 0 <= j < |ms[..i]| && KeyOf(text, ms[..i][j]) == key && destinations[key] == IsDirectory(ms[..i][j]);
    assert ms[..i][j] == ms[j];
    hide Passed;
    assert FaultAt(text, lim, ms, i, e);
  }

  lemma Passes(text: Text, lim: Limits, ms: seq<Member>, i: nat, destinations: map<Path, bool>, plans: seq<Plan>)
    requires i < |ms| && Passed(text, lim, ms, i) && MemberFault(text, lim, ms[i]).None?
    requires TotalSize(ms[..i + 1]) <= lim.maxTotalBytes && AllNamed(text, ms[..i]) &&
      Recorded(text, ms[..i], destinations)
    requires Canonical(text, ms[i].originalName).Some? && KeyOf(text, ms[i]) !in destinations &&
      PlansOf(text, ms[..i], plans)
    ensures Passed(text, lim, ms, i + 1) && AllNamed(text, ms[..i + 1])
    ensures PlansOf(text, ms[..i + 1], plans + [PlanOf(text, ms[i])])
    ensures Recorded(text, ms[..i + 1], destinations[KeyOf(text, ms[i]) := IsDirectory(ms[i])])
  {
    hide MemberFault, IsDirectory, TotalSize, Canonical, PlanOf, KeyOf;
    var before, now := ms[..i], ms[..i + 1];
    assert now == before + [ms[i]];
    assert AllNamed(text, now);
    var after := destinations[KeyOf(text, ms[i]) := IsDirectory(ms[i])];
    forall k | k in after
      ensures exists j :: 0 <= j < |now| && KeyOf(text, now[j]) == k && after[k] == IsDirectory(now[j])
    {
      if k == KeyOf(text, ms[i]) {
        assert now[i] == ms[i];
      } else {
        var j :| 0 <= j < |before| && KeyOf(text, before[j]) == k && destinations[k] == IsDirectory(before[j]);
        assert now[j] == before[j];
      }
    }
    assert PlanOf(text, ms[i]).key == KeyOf(text, ms[i]) by { KeyOfPlan(text, ms[i]); }
  }

  lemma KeyOfPlan(text: Text, m: Member)
    requires Canonical(text, m.originalName).Some?
    ensures PlanOf(text, m).key == KeyOf(text, m)
  {}

  lemma Conflicts(text: Text, lim: Limits, ms: seq<Member>, plans: seq<Plan>, e: ZipError)
    requires |ms| <= lim.maxMembers && Passed(text, lim, ms, |ms|) && AllNamed(text, ms) && PlansOf(text, ms, plans)
    requires if !NoFileIsAncestor(plans) then e == FileDirectoryConflict
             else CountPython(plans) > lim.maxPythonFiles && e == TooManyPythonFiles
    ensures Rejected(text, lim, ms, e)
  {
    hide Passed, NoFileIsAncestor, CountPython, PlansOf, AllNamed;
  }

  lemma Accepts(text: Text, lim: Limits, ms: seq<Member>, plans: seq<Plan>)
    requires |ms| <= lim.maxMembers && Passed(text, lim, ms, |ms|) && AllNamed(text, ms) && PlansOf(text, ms, plans)
    requires NoFileIsAncestor(plans) && CountPython(plans) <= lim.maxPythonFiles
    ensures Accepted(text, lim, ms, plans)
  {}

  /** What an accepted archive guarantees. */
  ghost predicate Accepted(text: Text, lim: Limits, ms: seq<Member>, plans: seq<Plan>) {
    |ms| <= lim.maxMembers && Passed(text, lim, ms, |ms|) && AllNamed(text, ms) &&
    PlansOf(text, ms, plans) && NoFileIsAncestor(plans) && CountPython(plans) <= lim.maxPythonFiles
  }

  /** An error names the first thing that is wrong. */
  ghost predicate Rejected(text: Text, lim: Limits, ms: seq<Member>, e: ZipError) {
    if |ms| > lim.maxMembers then e == TooManyMembers
    else
      (exists i :: 0 <= i < |ms| && Passed(text, lim, ms, i) && FaultAt(text, lim, ms, i, e)) ||
      (Passed(text, lim, ms, |ms|) && AllNamed(text, ms) &&
       exists plans :: PlansOf(text, ms, plans) &&
         if !NoFileIsAncestor(plans) then e == FileDirectoryConflict
         else CountPython(plans) > lim.maxPythonFiles && e == TooManyPythonFiles)
  }

  lemma {:induction false} TotalGrows(text: Text, lim: Limits, ms: seq<Member>, i: nat)
    requires i <= |ms| && Sound(text, lim, ms)
    ensures TotalSize(ms[..i]) <= TotalSize(ms)
    decreases |ms| - i
  {
    if i < |ms| {
      NextMember(ms, i);
      TotalGrows(text, lim, ms, i + 1);
      assert MemberFault(text, lim, ms[i]).None?;
    } else {
      assert ms[..i] == ms;
    }
  }

  lemma PassedEarlier(text: Text, lim: Limits, ms: seq<Member>, i: nat)
    requires i < |ms| && Passed(text, lim, ms, |ms|)
    ensures MemberFault(text, lim, ms[i]).None? && TotalSize(ms[..i + 1]) <= lim.maxTotalBytes
    ensures forall j :: 0 <= j < i ==> KeyOf(text, ms[j]) != KeyOf(text, ms[i])
  {
    hide MemberFault, KeyOf, TotalSize, Canonical;
    assert ms[..|ms|] == ms;
    TotalGrows(text, lim, ms, i + 1);
  }

  /** Every archive is either accepted or rejected: the checks accept exactly the sound archives. */
  lemma AcceptedIsNotRejected(text: Text, lim: Limits, ms: seq<Member>, plans: seq<Plan>, e: ZipError)
    requires Accepted(text, lim, ms, plans)
    ensures !Rejected(text, lim, ms, e)
  {
    hide MemberFault, KeyOf, TotalSize, Canonical, Passed, NoFileIsAncestor, CountPython, PlanOf, IsDirectory;
    assert ms[..|ms|] == ms;
    forall i | 0 <= i < |ms| && Passed(text, lim, ms, i)
      ensures !FaultAt(text, lim, ms, i, e)
    {
      PassedEarlier(text, lim, ms, i);
    }
    forall other | PlansOf(text, ms, other)
      ensures other == plans
    {}
  }
}
