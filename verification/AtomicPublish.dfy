/**
  Publishing several files as one transaction, with rollback, over a file system in which
  every operation may fail (app/evaluation/artifacts.py:22-86).
 */
module AtomicPublish {
  import opened Wrappers

  /** A name in a directory: a caller's name, or the temporary or backup of one transaction. */
  datatype Leaf = Named(name: string) | Temporary(tx: nat, index: nat) | Backup(tx: nat, index: nat) {
    predicate Of(id: nat) { !Named? && tx == id }
  }

  datatype Path = Path(dir: string, leaf: Leaf)

  type Files = map<Path, Bytes>

  datatype Artifact = Artifact(target: Path, content: Bytes)

  /**
    Files by path. `fault(t)` says whether the operation at time `t` fails; `torn(t)` how much of
    a failing write arrives. `history` records the files after every operation.
   */
  class FileSystem {
    var files: Files
    var clock: nat
    const fault: nat -> bool
    const torn: nat -> nat
    ghost var history: seq<Files>

    constructor (files: Files, fault: nat -> bool, torn: nat -> nat)
      ensures this.files == files && this.fault == fault && this.torn == torn && clock == 0 && history == [files]
    {
      this.files, this.fault, this.torn := files, fault, torn;
      clock, history := 0, [files];
    }

    /** No operation from time `a` up to time `b` fails. */
    ghost predicate NoFault(a: nat, b: nat) {
      forall t :: a <= t < b ==> !fault(t)
    }

    /** The operations from time `a` on all work but the one just before `b`. */
    ghost predicate FirstFault(a: nat, b: nat) {
      a < b && fault(b - 1) && NoFault(a, b - 1)
    }

    twostate predicate Ticked()
      reads this
    {
      clock == old(clock) + 1 && history == old(history) + [files]
    }

    method Tick() returns (ok: bool)
      modifies this`clock
      ensures clock == old(clock) + 1 && ok == !fault(old(clock))
    {
      ok := !fault(clock);
      clock := clock + 1;
    }

    /** Directories are not part of the file map: creating one only succeeds or fails. */
    method MakeDirectory() returns (ok: bool)
      modifies this
      ensures Ticked() && files == old(files) && ok == !fault(old(clock))
    {
      ok := Tick();
      history := history + [files];
    }

    method CreateExclusive(p: Path) returns (ok: bool)
      modifies this
      ensures Ticked()
      ensures ok == (!fault(old(clock)) && p !in old(files))
      ensures files == if ok then old(files)[p := []] else old(files)
    {
      var working := Tick();
      ok := working && p !in files;
      if ok {
        files := files[p := []];
      }
      history := history + [files];
    }

    /** A failing write leaves a prefix of the content behind. */
    method Write(p: Path, content: Bytes) returns (ok: bool)
      modifies this
      ensures Ticked() && ok == !fault(old(clock))
      ensures files == old(files)[p := if ok then content else Prefix(content, torn(old(clock)))]
    {
      var now := clock;
      ok := Tick();
      files := files[p := if ok then content else Prefix(content, torn(now))];
      history := history + [files];
    }

    method Sync() returns (ok: bool)
      modifies this
      ensures Ticked() && files == old(files) && ok == !fault(old(clock))
    {
      ok := Tick();
      history := history + [files];
    }

    /** `os.replace`: moves atomically, or fails and changes nothing. */
    method Replace(source: Path, target: Path) returns (ok: bool)
      modifies this
      ensures Ticked()
      ensures ok == (!fault(old(clock)) && source in old(files))
      ensures files == if ok then Moved(old(files), source, target) else old(files)
    {
      var working := Tick();
      ok := working && source in files;
      if ok {
        files := Moved(files, source, target);
      }
      history := history + [files];
    }

    /** `unlink(missing_ok=True)`. */
    method Unlink(p: Path) returns (ok: bool)
      modifies this
      ensures Ticked() && ok == !fault(old(clock))
      ensures files == if ok then old(files) - {p} else old(files)
    {
      ok := Tick();
      if ok {
        files := files - {p};
      }
      history := history + [files];
    }
  }

  function Prefix(content: Bytes, n: nat): Bytes {
    if n <= |content| then content[..n] else content
  }

  function Moved(files: Files, source: Path, target: Path): Files
    requires source in files
  {
    (files - {source})[target := files[source]]
  }

  /** A move touches its two paths only. */
  lemma MovedOnly(files: Files, source: Path, target: Path)
    requires source in files && source != target
    ensures var g := Moved(files, source, target);
            source !in g && target in g && g[target] == files[source] &&
            forall p :: p != source && p != target ==> (p in g <==> p in files) && (p in g ==> g[p] == files[p])
  {}

  // ----- names of one transaction -----

  function TemporaryOf(target: Path, tx: nat, index: nat): Path { Path(target.dir, Temporary(tx, index)) }

  function BackupOf(target: Path, tx: nat, index: nat): Path { Path(target.dir, Backup(tx, index)) }

  predicate Distinct(arts: seq<Artifact>) {
    forall i, j :: 0 <= i < j < |arts| ==> arts[i].target != arts[j].target
  }

  /** The transaction identifier is new: no file and no target carries it. */
  ghost predicate FreshTx(files: Files, arts: seq<Artifact>, tx: nat) {
    (forall p :: p in files ==> !p.leaf.Of(tx)) && forall j :: 0 <= j < |arts| ==> !arts[j].target.leaf.Of(tx)
  }

  // ----- what never goes wrong -----

  ghost predicate Same(f: Files, g: Files, p: Path) {
    (p in f <==> p in g) && (p in f ==> f[p] == g[p])
  }

  ghost predicate IsTarget(arts: seq<Artifact>, p: Path) {
    exists j :: 0 <= j < |arts| && arts[j].target == p
  }

  /**
    Target `j` holds complete new or complete old bytes or nothing; its backup holds the old bytes;
    and while it existed before, at least one of the two is there.
   */
  ghost predicate TargetSafe(f: Files, f0: Files, arts: seq<Artifact>, tx: nat, j: nat)
    requires j < |arts|
  {
    var t, b := arts[j].target, BackupOf(arts[j].target, tx, j);
    (t in f ==> f[t] == arts[j].content || (t in f0 && f[t] == f0[t])) &&
    (b in f ==> t in f0 && f[b] == f0[t]) &&
    (t in f0 ==> t in f || b in f)
  }

  ghost predicate IsBackupPath(arts: seq<Artifact>, tx: nat, p: Path) {
    exists j :: 0 <= j < |arts| && BackupOf(arts[j].target, tx, j) == p
  }

  /** Nothing is lost: every target is safe, and files of others are untouched. */
  ghost predicate Safe(f: Files, f0: Files, arts: seq<Artifact>, tx: nat) {
    (forall p: Path :: p in f && p.leaf.Backup? && p.leaf.tx == tx ==> IsBackupPath(arts, tx, p)) &&
    (forall p: Path :: !p.leaf.Of(tx) && !IsTarget(arts, p) ==> Same(f, f0, p)) &&
    (forall j :: 0 <= j < |arts| ==> TargetSafe(f, f0, arts, tx, j))
  }

  ghost predicate AllSafe(history: seq<Files>, from: nat, f0: Files, arts: seq<Artifact>, tx: nat) {
    from <= |history| && forall k :: from <= k < |history| ==> Safe(history[k], f0, arts, tx)
  }

  // ----- how far the transaction has come -----

  /** The first `n` temporaries are complete and nothing else has happened, but for one torn file. */
  ghost predicate Written(f: Files, f0: Files, arts: seq<Artifact>, tx: nat, n: nat) {
    n <= |arts| && (forall p: Path :: !p.leaf.Temporary? || p.leaf.tx != tx ==> Same(f, f0, p)) &&
    forall j :: 0 <= j < n ==>
           TemporaryOf(arts[j].target, tx, j) in f &&
           f[TemporaryOf(arts[j].target, tx, j)] == arts[j].content
  }

  /**
    The first `n` targets are replaced and backed up; if `away`, target `n` has moved to its backup;
    the remaining targets are untouched and their temporaries wait.
   */
  ghost predicate Swapped(f: Files, f0: Files, arts: seq<Artifact>, tx: nat, n: nat, away: bool) {
    n <= |arts| && (away ==> n < |arts|) && Safe(f, f0, arts, tx) &&
    (forall j :: 0 <= j < n ==>
       arts[j].target in f && f[arts[j].target] == arts[j].content &&
       (BackupOf(arts[j].target, tx, j) in f <==> arts[j].target in f0)) &&
    (forall j :: n <= j < |arts| ==>
       TemporaryOf(arts[j].target, tx, j) in f && f[TemporaryOf(arts[j].target, tx, j)] == arts[j].content) &&
    (forall j :: n <= j < |arts| ==>
       if away && j == n
       then arts[j].target in f0 && arts[j].target !in f
       else Same(f, f0, arts[j].target) && BackupOf(arts[j].target, tx, j) !in f)
  }

  lemma WrittenIsSwapped(f: Files, f0: Files, arts: seq<Artifact>, tx: nat)
    requires Written(f, f0, arts, tx, |arts|) && FreshTx(f0, arts, tx)
    ensures Swapped(f, f0, arts, tx, 0, false)
  {}

  lemma WrittenIsSafe(f: Files, f0: Files, arts: seq<Artifact>, tx: nat, n: nat)
    requires Written(f, f0, arts, tx, n) && FreshTx(f0, arts, tx)
    ensures Safe(f, f0, arts, tx)
  {}

  /** The names of target `j` differ from those of target `n`. */
  lemma NamesApart(f0: Files, arts: seq<Artifact>, tx: nat, n: nat, j: nat)
    requires FreshTx(f0, arts, tx) && Distinct(arts) && n < |arts| && j < |arts|
    ensures var t, b, x := arts[j].target, BackupOf(arts[j].target, tx, j), TemporaryOf(arts[j].target, tx, j);
            t !in {BackupOf(arts[n].target, tx, n), TemporaryOf(arts[n].target, tx, n)} &&
            (j != n ==>
             t != arts[n].target && b != BackupOf(arts[n].target, tx, n) &&
             x != TemporaryOf(arts[n].target, tx, n)) &&
            b != arts[n].target && x != arts[n].target && b != TemporaryOf(arts[n].target, tx, n) &&
            x != BackupOf(arts[n].target, tx, n)
  {}

  /** Moving target `n` to its backup keeps every target safe. */
  lemma TakeAwaySafe(f: Files, f0: Files, arts: seq<Artifact>, tx: nat, n: nat)
    requires Safe(f, f0, arts, tx) && FreshTx(f0, arts, tx) && Distinct(arts)
    requires n < |arts| && arts[n].target in f && Same(f, f0, arts[n].target)
    ensures Safe(Moved(f, arts[n].target, BackupOf(arts[n].target, tx, n)), f0, arts, tx)
  {
    var g := Moved(f, arts[n].target, BackupOf(arts[n].target, tx, n));
    forall j | 0 <= j < |arts|
      ensures TargetSafe(g, f0, arts, tx, j)
    {
      assert TargetSafe(f, f0, arts, tx, j);
      NamesApart(f0, arts, tx, n, j);
    }
  }

  /** Moving target `n` to its backup. */
  lemma TakeAway(f: Files, f0: Files, arts: seq<Artifact>, tx: nat, n: nat)
    requires Swapped(f, f0, arts, tx, n, false) && FreshTx(f0, arts, tx) && Distinct(arts)
    requires n < |arts| && arts[n].target in f
    ensures Swapped(Moved(f, arts[n].target, BackupOf(arts[n].target, tx, n)), f0, arts, tx, n, true)
  {
    TakeAwaySafe(f, f0, arts, tx, n);
    hide Safe, Distinct, FreshTx, Moved, TemporaryOf, BackupOf;
    NamesApart(f0, arts, tx, n, n);
    MovedOnly(f, arts[n].target, BackupOf(arts[n].target, tx, n));
    forall j | 0 <= j < |arts|
      ensures arts[j].target !in {BackupOf(arts[n].target, tx, n), TemporaryOf(arts[n].target, tx, n)}
      ensures j != n ==>
        arts[j].target != arts[n].target &&
        BackupOf(arts[j].target, tx, j) != BackupOf(arts[n].target, tx, n)
      ensures TemporaryOf(arts[j].target, tx, j) != arts[n].target && BackupOf(arts[j].target, tx, j) != arts[n].target
    {
      NamesApart(f0, arts, tx, n, j);
    }
  }

  /** Moving temporary `n` over a target that is away or never existed keeps every target safe. */
  lemma PutInPlaceSafe(f: Files, f0: Files, arts: seq<Artifact>, tx: nat, n: nat)
    requires Safe(f, f0, arts, tx) && FreshTx(f0, arts, tx) && Distinct(arts) && n < |arts|
    requires TemporaryOf(arts[n].target, tx, n) in f && f[TemporaryOf(arts[n].target, tx, n)] == arts[n].content
    ensures Safe(Moved(f, TemporaryOf(arts[n].target, tx, n), arts[n].target), f0, arts, tx)
  {
    var g := Moved(f, TemporaryOf(arts[n].target, tx, n), arts[n].target);
    forall j | 0 <= j < |arts|
      ensures TargetSafe(g, f0, arts, tx, j)
    {
      assert TargetSafe(f, f0, arts, tx, j);
      NamesApart(f0, arts, tx, n, j);
    }
  }

  /** Moving temporary `n` over its target. */
  lemma PutInPlace(f: Files, f0: Files, arts: seq<Artifact>, tx: nat, n: nat, away: bool)
    requires Swapped(f, f0, arts, tx, n, away) && FreshTx(f0, arts, tx) && Distinct(arts)
    requires n < |arts| && (arts[n].target in f ==> away)
    ensures Swapped(Moved(f, TemporaryOf(arts[n].target, tx, n), arts[n].target), f0, arts, tx, n + 1, false)
  {
    PutInPlaceSafe(f, f0, arts, tx, n);
    assert TargetSafe(f, f0, arts, tx, n);
    hide Safe, Distinct, FreshTx, Moved, TemporaryOf, BackupOf;
    NamesApart(f0, arts, tx, n, n);
    MovedOnly(f, TemporaryOf(arts[n].target, tx, n), arts[n].target);
    forall j | 0 <= j < |arts|
      ensures arts[j].target != TemporaryOf(arts[n].target, tx, n)
      ensures j != n ==>
        arts[j].target != arts[n].target &&
        TemporaryOf(arts[j].target, tx, j) != TemporaryOf(arts[n].target, tx, n)
      ensures BackupOf(arts[j].target, tx, j) != arts[n].target &&
        BackupOf(arts[j].target, tx, j) != TemporaryOf(arts[n].target, tx, n)
      ensures TemporaryOf(arts[j].target, tx, j) != arts[n].target
    {
      NamesApart(f0, arts, tx, n, j);
    }
  }

  // ----- the transaction -----

  datatype Outcome = Published | NoArtifacts | DuplicateTarget | Failed(rollbackFailed: bool)

  /** A file written at temporary `n` leaves everything else as it was. */
  lemma WriteOne(f: Files, f0: Files, arts: seq<Artifact>, tx: nat, n: nat, content: Bytes)
    requires Written(f, f0, arts, tx, n) && n < |arts|
    ensures var g := f[TemporaryOf(arts[n].target, tx, n) := content];
            Written(g, f0, arts, tx, n) && (content == arts[n].content ==> Written(g, f0, arts, tx, n + 1))
  {}

  lemma HistoryGrows(history: seq<Files>, from: nat, g: Files, f0: Files, arts: seq<Artifact>, tx: nat)
    requires AllSafe(history, from, f0, arts, tx) && Safe(g, f0, arts, tx)
    ensures AllSafe(history + [g], from, f0, arts, tx)
  {
    hide Safe;
  }

  /**
    Temporary phase: write and sync every temporary, stopping at the first failure. Each takes four
    operations; one that fails at the write or the sync leaves its file behind, unregistered.
   */
  method WriteTemporaries(fs: FileSystem, arts: seq<Artifact>, tx: nat, ghost from: nat)
    returns (ok: bool, temporary: seq<Path>)
    requires FreshTx(fs.files, arts, tx) && AllSafe(fs.history, from, fs.files, arts, tx)
    modifies fs
    ensures |temporary| <= |arts| && (ok <==> |temporary| == |arts|)
    ensures forall j :: 0 <= j < |temporary| ==> temporary[j] == TemporaryOf(arts[j].target, tx, j)
    ensures Written(fs.files, old(fs.files), arts, tx, |temporary|)
    ensures AllSafe(fs.history, from, old(fs.files), arts, tx)
    ensures if ok then fs.NoFault(old(fs.clock), fs.clock) else fs.FirstFault(old(fs.clock), fs.clock)
    ensures TemporariesWithin(fs.files, arts, tx, if ok then |arts| else |temporary| + 1)
    ensures var start := old(fs.clock) + 4 * |temporary|;
            if ok then fs.clock == start
            else
              start < fs.clock <= start + 4 &&
              (TemporaryOf(arts[|temporary|].target, tx, |temporary|) in fs.files <==> start + 3 <= fs.clock)
  {
    hide Written, Safe;
    ghost var f0 := fs.files;
    temporary := [];
    NothingWritten(f0, arts, tx);
    hide FreshTx;
    for i := 0 to |arts|
      invariant |temporary| == i && fs.clock == old(fs.clock) + 4 * i
      invariant forall j :: 0 <= j < i ==> temporary[j] == TemporaryOf(arts[j].target, tx, j)
      invariant Written(fs.files, f0, arts, tx, i)
      invariant forall j :: i <= j < |arts| ==> TemporaryOf(arts[j].target, tx, j) !in fs.files
      invariant AllSafe(fs.history, from, f0, arts, tx) && TemporariesWithin(fs.files, arts, tx, i)
      invariant fs.NoFault(old(fs.clock), fs.clock)
    {
      var temp := TemporaryOf(arts[i].target, tx, i);
      ghost var before := fs.files;
      ok := WriteTemporary(fs, arts, tx, i, f0, from);
      OneMoreTemporary(before, fs.files, arts, tx, i);
      if !ok { return; }
      temporary := temporary + [temp];
    }
    ok := true;
  }

  lemma NothingWritten(f0: Files, arts: seq<Artifact>, tx: nat)
    requires FreshTx(f0, arts, tx)
    ensures Written(f0, f0, arts, tx, 0) && TemporariesWithin(f0, arts, tx, 0)
  {}

  /** `p` is the temporary of one of the first `n` targets. */
  ghost predicate IsTemporaryPath(arts: seq<Artifact>, tx: nat, n: nat, p: Path)
    requires n <= |arts|
  {
    exists j :: 0 <= j < n && TemporaryOf(arts[j].target, tx, j) == p
  }

  /** The transaction has no temporaries but those of its first `n` targets. */
  ghost predicate TemporariesWithin(f: Files, arts: seq<Artifact>, tx: nat, n: nat) {
    n <= |arts| && forall p: Path :: p in f && p.leaf.Temporary? && p.leaf.tx == tx ==> IsTemporaryPath(arts, tx, n, p)
  }

  lemma OneMoreTemporary(f: Files, g: Files, arts: seq<Artifact>, tx: nat, i: nat)
    requires i < |arts| && TemporariesWithin(f, arts, tx, i)
    requires forall p :: p in g ==> p in f || p == TemporaryOf(arts[i].target, tx, i)
    ensures TemporariesWithin(g, arts, tx, i + 1)
  {
    forall p: Path | p in g && p.leaf.Temporary? && p.leaf.tx == tx
      ensures IsTemporaryPath(arts, tx, i + 1, p)
    {
      if p in f {
        var j :| 0 <= j < i && TemporaryOf(arts[j].target, tx, j) == p;
        assert j < i + 1;
      }
    }
  }

  /** One temporary: its directory, its exclusive creation, its content, its sync. */
  method WriteTemporary(fs: FileSystem, arts: seq<Artifact>, tx: nat, i: nat, ghost f0: Files, ghost from: nat)
    returns (ok: bool)
    requires i < |arts| && FreshTx(f0, arts, tx)
    requires Written(fs.files, f0, arts, tx, i) && AllSafe(fs.history, from, f0, arts, tx)
    requires TemporaryOf(arts[i].target, tx, i) !in fs.files
    modifies fs
    ensures Written(fs.files, f0, arts, tx, if ok then i + 1 else i)
    ensures AllSafe(fs.history, from, f0, arts, tx)
    ensures forall p :: p in fs.files ==> p in old(fs.files) || p == TemporaryOf(arts[i].target, tx, i)
    ensures old(fs.clock) < fs.clock <= old(fs.clock) + 4 && (ok ==> fs.clock == old(fs.clock) + 4)
    ensures if ok then fs.NoFault(old(fs.clock), fs.clock) else fs.FirstFault(old(fs.clock), fs.clock)
    ensures !ok ==> (TemporaryOf(arts[i].target, tx, i) in fs.files <==> old(fs.clock) + 3 <= fs.clock)
  {
    hide Written, Safe, FreshTx, AllSafe;
    var temp, content := TemporaryOf(arts[i].target, tx, i), arts[i].content;
    WrittenIsSafe(fs.files, f0, arts, tx, i);
    HistoryGrows(fs.history, from, fs.files, f0, arts, tx);
    ok := fs.MakeDirectory();
    if !ok { return; }
    WriteOne(fs.files, f0, arts, tx, i, []);
    ghost var empty := fs.files[temp := []];
    WrittenIsSafe(empty, f0, arts, tx, i);
    HistoryGrows(fs.history, from, fs.files, f0, arts, tx);
    HistoryGrows(fs.history, from, empty, f0, arts, tx);
    ok := fs.CreateExclusive(temp);
    if !ok { return; }
    ghost var arrived := if fs.fault(fs.clock) then Prefix(content, fs.torn(fs.clock)) else content;
    WriteOne(fs.files, f0, arts, tx, i, arrived);
    WrittenIsSafe(fs.files[temp := arrived], f0, arts, tx, i);
    HistoryGrows(fs.history, from, fs.files[temp := arrived], f0, arts, tx);
    ok := fs.Write(temp, content);
    if !ok { return; }
    HistoryGrows(fs.history, from, fs.files, f0, arts, tx);
    ok := fs.Sync();
    if !ok { WrittenBefore(fs.files, f0, arts, tx, i); }
  }

  lemma WrittenBefore(f: Files, f0: Files, arts: seq<Artifact>, tx: nat, n: nat)
    requires Written(f, f0, arts, tx, n + 1)
    ensures Written(f, f0, arts, tx, n)
  {}

  datatype Saved = Saved(target: Path, backup: Path)

  ghost predicate IsBackup(x: Saved, f0: Files, arts: seq<Artifact>, tx: nat, j: nat)
    requires j < |arts|
  {
    x == Saved(arts[j].target, BackupOf(arts[j].target, tx, j)) && arts[j].target in f0
  }

  ghost predicate IsSomeBackup(x: Saved, f0: Files, arts: seq<Artifact>, tx: nat, n: nat)
    requires n <= |arts|
  {
    exists j :: 0 <= j < n && IsBackup(x, f0, arts, tx, j)
  }

  ghost predicate HasBackup(backups: seq<Saved>, f0: Files, arts: seq<Artifact>, tx: nat, j: nat)
    requires j < |arts|
  {
    exists k :: 0 <= k < |backups| && IsBackup(backups[k], f0, arts, tx, j)
  }

  /** The backups recorded are those of the targets among the first `n` that existed. */
  ghost predicate BackupsOf(backups: seq<Saved>, f0: Files, arts: seq<Artifact>, tx: nat, n: nat)
    requires n <= |arts|
  {
    (forall k :: 0 <= k < |backups| ==> IsSomeBackup(backups[k], f0, arts, tx, n)) &&
    (forall j :: 0 <= j < n && arts[j].target in f0 ==> HasBackup(backups, f0, arts, tx, j))
  }

  lemma BackupAdded(backups: seq<Saved>, f0: Files, arts: seq<Artifact>, tx: nat, n: nat)
    requires n < |arts| && BackupsOf(backups, f0, arts, tx, n)
    ensures arts[n].target in f0 ==>
      BackupsOf(backups + [Saved(arts[n].target, BackupOf(arts[n].target, tx, n))], f0, arts, tx, n + 1)
    ensures arts[n].target !in f0 ==> BackupsOf(backups, f0, arts, tx, n + 1)
  {
    var more := backups + if arts[n].target in f0 then [Saved(arts[n].target, BackupOf(arts[n].target, tx, n))] else [];
    forall j | 0 <= j < n + 1 && arts[j].target in f0
      ensures HasBackup(more, f0, arts, tx, j)
    {
      if j < n {
        assert HasBackup(backups, f0, arts, tx, j);
        var k :| 0 <= k < |backups| && IsBackup(backups[k], f0, arts, tx, j);
        assert IsBackup(more[k], f0, arts, tx, j);
      } else {
        assert IsBackup(more[|backups|], f0, arts, tx, n);
      }
    }
    forall k | 0 <= k < |more|
      ensures IsSomeBackup(more[k], f0, arts, tx, n + 1)
    {
      if k < |backups| {
        assert IsSomeBackup(backups[k], f0, arts, tx, n);
        var j :| 0 <= j < n && IsBackup(backups[k], f0, arts, tx, j);
        assert IsBackup(more[k], f0, arts, tx, j);
      } else {
        assert IsBackup(more[k], f0, arts, tx, n);
      }
    }
    assert BackupsOf(more, f0, arts, tx, n + 1);
    if arts[n].target !in f0 { assert more == backups; }
  }

  /** What the swap phase knows of target `n` before it touches it. */
  lemma NextTarget(f: Files, f0: Files, arts: seq<Artifact>, tx: nat, n: nat, away: bool)
    requires Swapped(f, f0, arts, tx, n, away) && n < |arts|
    ensures TemporaryOf(arts[n].target, tx, n) in f && Safe(f, f0, arts, tx)
    ensures away ==> arts[n].target in f0 && arts[n].target !in f
    ensures !away ==> (arts[n].target in f <==> arts[n].target in f0)
  {}

  /** How many of the first `n` targets existed. */
  function Existing(f0: Files, arts: seq<Artifact>, n: nat): nat
    requires n <= |arts|
  {
    if n == 0 then 0 else Existing(f0, arts, n - 1) + if arts[n - 1].target in f0 then 1 else 0
  }

  lemma {:induction false} ExistingGrows(f0: Files, arts: seq<Artifact>, i: nat, j: nat)
    requires i <= j <= |arts|
    ensures Existing(f0, arts, i) <= Existing(f0, arts, j)
    ensures i < j && arts[i].target in f0 ==> Existing(f0, arts, i) < Existing(f0, arts, j)
    decreases j
  {
    if i < j { ExistingGrows(f0, arts, i, j - 1); }
  }

  /** The backups are recorded in the order of their targets. */
  ghost predicate InOrder(backups: seq<Saved>, f0: Files, arts: seq<Artifact>, tx: nat, n: nat)
    requires n <= |arts|
  {
    |backups| == Existing(f0, arts, n) &&
    forall j :: 0 <= j < n && arts[j].target in f0 ==>
      Existing(f0, arts, j) < |backups| && IsBackup(backups[Existing(f0, arts, j)], f0, arts, tx, j)
  }

  lemma OrderAdded(backups: seq<Saved>, f0: Files, arts: seq<Artifact>, tx: nat, n: nat)
    requires n < |arts| && InOrder(backups, f0, arts, tx, n)
    ensures arts[n].target in f0 ==>
      InOrder(backups + [Saved(arts[n].target, BackupOf(arts[n].target, tx, n))], f0, arts, tx, n + 1)
    ensures arts[n].target !in f0 ==> InOrder(backups, f0, arts, tx, n + 1)
  {}

  /** The target whose backup was recorded as number `k`. */
  lemma {:induction false} TargetOfBackup(backups: seq<Saved>, f0: Files, arts: seq<Artifact>, tx: nat, n: nat, k: nat)
    returns (j: nat)
    requires n <= |arts| && InOrder(backups, f0, arts, tx, n) && k < |backups|
    ensures j < n && arts[j].target in f0 && Existing(f0, arts, j) == k && IsBackup(backups[k], f0, arts, tx, j)
  {
    j := ExistingReaches(f0, arts, n, k);
  }

  lemma {:induction false} ExistingReaches(f0: Files, arts: seq<Artifact>, n: nat, k: nat) returns (j: nat)
    requires n <= |arts| && k < Existing(f0, arts, n)
    ensures j < n && arts[j].target in f0 && Existing(f0, arts, j) == k
  {
    if k < Existing(f0, arts, n - 1) { j := ExistingReaches(f0, arts, n - 1, k); } else { j := n - 1; }
  }

  /** The swap phase failed at its operation `steps`, with `count` targets in place. */
  ghost predicate SwapStopped(f0: Files, arts: seq<Artifact>, steps: nat, count: nat) {
    count < |arts| &&
    (steps == count + Existing(f0, arts, count) + 1 ||
     (steps == count + Existing(f0, arts, count) + 2 && arts[count].target in f0))
  }

  lemma NoneExisting(f0: Files, arts: seq<Artifact>)
    ensures Existing(f0, arts, 0) == 0
  {}

  lemma NextExisting(f0: Files, arts: seq<Artifact>, i: nat)
    requires i < |arts|
    ensures Existing(f0, arts, i + 1) == Existing(f0, arts, i) + if arts[i].target in f0 then 1 else 0
    ensures SwapStopped(f0, arts, i + Existing(f0, arts, i) + 1, i)
    ensures arts[i].target in f0 ==> SwapStopped(f0, arts, i + Existing(f0, arts, i) + 2, i)
  {}

  /** Swap phase: back up each existing target, then move its temporary over it. */
  method SwapIn(fs: FileSystem, arts: seq<Artifact>, tx: nat, ghost f0: Files, ghost from: nat)
    returns (ok: bool, backups: seq<Saved>, replaced: seq<Path>, ghost away: bool)
    requires FreshTx(f0, arts, tx) && Distinct(arts) && Swapped(fs.files, f0, arts, tx, 0, false)
    requires AllSafe(fs.history, from, f0, arts, tx)
    modifies fs
    ensures |replaced| <= |arts| && (ok ==> |replaced| == |arts| && !away) && (away ==> |replaced| < |arts|)
    ensures forall j :: 0 <= j < |replaced| ==> replaced[j] == arts[j].target
    ensures Swapped(fs.files, f0, arts, tx, |replaced|, away)
    ensures BackupsOf(backups, f0, arts, tx, if away then |replaced| + 1 else |replaced|)
    ensures InOrder(backups, f0, arts, tx, if away then |replaced| + 1 else |replaced|)
    ensures AllSafe(fs.history, from, f0, arts, tx)
    ensures forall p: Path :: p in fs.files && p.leaf.Temporary? && p.leaf.tx == tx ==> p in old(fs.files)
    ensures if ok then fs.NoFault(old(fs.clock), fs.clock) else fs.FirstFault(old(fs.clock), fs.clock)
    ensures fs.clock >= old(fs.clock) && (arts != [] ==> fs.clock > old(fs.clock))
    ensures if ok then fs.clock == old(fs.clock) + |arts| + Existing(f0, arts, |arts|)
            else SwapStopped(f0, arts, fs.clock - old(fs.clock), |replaced|)
  {
    hide Swapped, Safe, AllSafe, BackupsOf, InOrder, Existing, SwapStopped, FreshTx, Distinct;
    backups, replaced, away := [], [], false;
    NoneExisting(f0, arts);
    assert BackupsOf([], f0, arts, tx, 0) && InOrder([], f0, arts, tx, 0) by { NoBackups(f0, arts, tx); }
    for i := 0 to |arts|
      invariant |replaced| == i && !away && forall j :: 0 <= j < i ==> replaced[j] == arts[j].target
      invariant Swapped(fs.files, f0, arts, tx, i, false) && BackupsOf(backups, f0, arts, tx, i)
      invariant InOrder(backups, f0, arts, tx, i)
      invariant AllSafe(fs.history, from, f0, arts, tx)
      invariant forall p: Path :: p in fs.files && p.leaf.Temporary? && p.leaf.tx == tx ==> p in old(fs.files)
      invariant fs.clock == old(fs.clock) + i + Existing(f0, arts, i) && fs.NoFault(old(fs.clock), fs.clock)
    {
      var target := arts[i].target;
      NextTarget(fs.files, f0, arts, tx, i, false);
      NextExisting(f0, arts, i);
      TargetIsNoBackup(f0, arts, tx, i);
      BackupAdded(backups, f0, arts, tx, i);
      OrderAdded(backups, f0, arts, tx, i);
      if target in fs.files {
        var backup := BackupOf(target, tx, i);
        TakeAway(fs.files, f0, arts, tx, i);
        NextTarget(Moved(fs.files, target, backup), f0, arts, tx, i, true);
        HistoryGrows(fs.history, from, fs.files, f0, arts, tx);
        HistoryGrows(fs.history, from, Moved(fs.files, target, backup), f0, arts, tx);
        ok := fs.Replace(target, backup);
        if !ok { return; }
        backups := backups + [Saved(target, backup)];
        away := true;
      }
      PutInPlace(fs.files, f0, arts, tx, i, away);
      SwappedIsSafe(Moved(fs.files, TemporaryOf(target, tx, i), target), f0, arts, tx, i + 1, false);
      NextTarget(fs.files, f0, arts, tx, i, away);
      HistoryGrows(fs.history, from, fs.files, f0, arts, tx);
      HistoryGrows(fs.history, from, Moved(fs.files, TemporaryOf(target, tx, i), target), f0, arts, tx);
      ok := fs.Replace(TemporaryOf(target, tx, i), target);
      if !ok { return; }
      replaced := replaced + [target];
      away := false;
    }
    ok := true;
  }

  lemma NoBackups(f0: Files, arts: seq<Artifact>, tx: nat)
    ensures BackupsOf([], f0, arts, tx, 0) && InOrder([], f0, arts, tx, 0)
  {}

  lemma SwappedIsSafe(f: Files, f0: Files, arts: seq<Artifact>, tx: nat, n: nat, away: bool)
    requires Swapped(f, f0, arts, tx, n, away)
    ensures Safe(f, f0, arts, tx)
  {}

  // ----- rollback -----

  /** Target `j` is as it was before the transaction, and has no backup. */
  ghost predicate Restored(f: Files, f0: Files, arts: seq<Artifact>, tx: nat, j: nat)
    requires j < |arts|
  {
    Same(f, f0, arts[j].target) && BackupOf(arts[j].target, tx, j) !in f
  }

  /**
    Rolling back: below `m` a target that existed has been restored or still has its backup, and a
    new target is gone if it was removed; from `m` on nothing was ever changed.
   */
  ghost predicate Rolling(f: Files, f0: Files, arts: seq<Artifact>, tx: nat, m: nat) {
    m <= |arts| && Safe(f, f0, arts, tx) &&
    (forall j :: m <= j < |arts| ==> Restored(f, f0, arts, tx, j)) &&
    (forall j :: 0 <= j < m && arts[j].target in f0 ==>
       Restored(f, f0, arts, tx, j) || BackupOf(arts[j].target, tx, j) in f)
  }

  lemma SwappedIsRolling(f: Files, f0: Files, arts: seq<Artifact>, tx: nat, n: nat, away: bool)
    requires Swapped(f, f0, arts, tx, n, away)
    ensures Rolling(f, f0, arts, tx, if away then n + 1 else n)
    ensures forall j :: 0 <= j < (if away then n + 1 else n) && arts[j].target in f0 ==>
      BackupOf(arts[j].target, tx, j) in f
  {
    forall j | n <= j < |arts| && !(away && j == n)
      ensures Restored(f, f0, arts, tx, j)
    {}
    if away { assert TargetSafe(f, f0, arts, tx, n); }
  }

  /** Removing a replaced target whose backup, if it had one, is still there. */
  lemma RemoveTarget(f: Files, f0: Files, arts: seq<Artifact>, tx: nat, m: nat, n: nat)
    requires Rolling(f, f0, arts, tx, m) && n < m && Distinct(arts) && FreshTx(f0, arts, tx)
    requires arts[n].target in f0 ==> BackupOf(arts[n].target, tx, n) in f
    ensures Rolling(f - {arts[n].target}, f0, arts, tx, m)
  {
    var g := f - {arts[n].target};
    forall j | 0 <= j < |arts|
      ensures TargetSafe(g, f0, arts, tx, j)
      ensures Restored(f, f0, arts, tx, j) && j != n ==> Restored(g, f0, arts, tx, j)
    {
      assert TargetSafe(f, f0, arts, tx, j);
      if j != n { assert arts[j].target != arts[n].target; }
    }
  }

  /** Moving backup `n` back over its target restores it and disturbs no other. */
  lemma MoveBack(f: Files, f0: Files, arts: seq<Artifact>, tx: nat, m: nat, n: nat)
    requires Rolling(f, f0, arts, tx, m) && n < m && Distinct(arts) && FreshTx(f0, arts, tx)
    requires BackupOf(arts[n].target, tx, n) in f
    ensures var g := Moved(f, BackupOf(arts[n].target, tx, n), arts[n].target);
            Rolling(g, f0, arts, tx, m) && Restored(g, f0, arts, tx, n) &&
            forall j :: 0 <= j < |arts| && j != n ==>
              Same(g, f, arts[j].target) &&
              (BackupOf(arts[j].target, tx, j) in g <==> BackupOf(arts[j].target, tx, j) in f) &&
              (Restored(f, f0, arts, tx, j) ==> Restored(g, f0, arts, tx, j))
  {
    var g := Moved(f, BackupOf(arts[n].target, tx, n), arts[n].target);
    assert TargetSafe(f, f0, arts, tx, n);
    forall j | 0 <= j < |arts|
      ensures TargetSafe(g, f0, arts, tx, j)
      ensures j != n ==> Same(g, f, arts[j].target)
      ensures j != n ==> (BackupOf(arts[j].target, tx, j) in g <==> BackupOf(arts[j].target, tx, j) in f)
      ensures j != n && Restored(f, f0, arts, tx, j) ==> Restored(g, f0, arts, tx, j)
    {
      assert TargetSafe(f, f0, arts, tx, j);
      if j != n { assert arts[j].target != arts[n].target; }
    }
  }

  ghost predicate SameTemporaries(f: Files, g: Files, tx: nat) {
    forall p: Path :: p.leaf.Temporary? && p.leaf.tx == tx ==> (p in f <==> p in g)
  }

  /** The first `n` targets hold their new bytes or nothing. */
  ghost predicate NewOrGone(f: Files, arts: seq<Artifact>, n: nat) {
    forall j :: 0 <= j < n && j < |arts| && arts[j].target in f ==> f[arts[j].target] == arts[j].content
  }

  /** First half of the rollback: remove what was put in place, ignoring failures. */
  method RemoveReplaced(fs: FileSystem, arts: seq<Artifact>, tx: nat, replaced: seq<Path>, ghost f0: Files,
                        ghost m: nat, ghost from: nat)
    requires FreshTx(f0, arts, tx) && Distinct(arts) && |replaced| <= m <= |arts| && Rolling(fs.files, f0, arts, tx, m)
    requires forall j :: 0 <= j < |replaced| ==> replaced[j] == arts[j].target
    requires forall j :: 0 <= j < m && arts[j].target in f0 ==> BackupOf(arts[j].target, tx, j) in fs.files
    requires forall j :: 0 <= j < |replaced| ==> arts[j].target in fs.files
    requires forall j :: |replaced| <= j < m ==> arts[j].target !in fs.files
    requires NewOrGone(fs.files, arts, |replaced|)
    requires AllSafe(fs.history, from, f0, arts, tx)
    modifies fs
    ensures forall j :: 0 <= j < m && arts[j].target in f0 ==> BackupOf(arts[j].target, tx, j) in fs.files
    ensures forall j :: |replaced| <= j < m ==> arts[j].target !in fs.files
    ensures NewOrGone(fs.files, arts, |replaced|)
    ensures Rolling(fs.files, f0, arts, tx, m) && SameTemporaries(fs.files, old(fs.files), tx)
    ensures AllSafe(fs.history, from, f0, arts, tx) && fs.clock == old(fs.clock) + |replaced|
    ensures forall j :: 0 <= j < |replaced| ==>
      (arts[j].target in fs.files <==> fs.fault(UnlinkTime(old(fs.clock), |replaced|, j)))
  {
    hide Rolling, Safe, FreshTx, Distinct;
    for i := |replaced| downto 0
      invariant Rolling(fs.files, f0, arts, tx, m) && SameTemporaries(fs.files, old(fs.files), tx)
      invariant forall j :: 0 <= j < m && arts[j].target in f0 ==> BackupOf(arts[j].target, tx, j) in fs.files
      invariant AllSafe(fs.history, from, f0, arts, tx) && fs.clock == old(fs.clock) + |replaced| - i
      invariant forall j :: 0 <= j < i ==> arts[j].target in fs.files
      invariant forall j :: |replaced| <= j < m ==> arts[j].target !in fs.files
      invariant NewOrGone(fs.files, arts, |replaced|)
      invariant forall j :: i <= j < |replaced| ==>
        (arts[j].target in fs.files <==> fs.fault(UnlinkTime(old(fs.clock), |replaced|, j)))
    {
      RemoveTarget(fs.files, f0, arts, tx, m, i);
      TargetIsNoBackup(f0, arts, tx, i);
      RollingIsSafe(fs.files, f0, arts, tx, m);
      RollingIsSafe(fs.files - {replaced[i]}, f0, arts, tx, m);
      TargetsApart(arts, i);
      var _ := fs.Unlink(replaced[i]);
    }
  }

  /** When the rollback removes target `j`: in reverse order, one operation each. */
  function UnlinkTime(start: nat, count: nat, j: nat): nat
    requires j < count
  {
    start + count - 1 - j
  }

  lemma TargetsApart(arts: seq<Artifact>, i: nat)
    requires Distinct(arts) && i < |arts|
    ensures forall j :: 0 <= j < |arts| && j != i ==> arts[j].target != arts[i].target
  {}

  lemma TargetIsNoBackup(f0: Files, arts: seq<Artifact>, tx: nat, i: nat)
    requires FreshTx(f0, arts, tx) && i < |arts|
    ensures forall j :: 0 <= j < |arts| ==> arts[i].target != BackupOf(arts[j].target, tx, j)
    ensures !arts[i].target.leaf.Of(tx)
  {}

  lemma RollingIsSafe(f: Files, f0: Files, arts: seq<Artifact>, tx: nat, m: nat)
    requires Rolling(f, f0, arts, tx, m)
    ensures Safe(f, f0, arts, tx)
  {}

  lemma RollingBeyond(f: Files, f0: Files, arts: seq<Artifact>, tx: nat, m: nat)
    requires Rolling(f, f0, arts, tx, m)
    ensures forall j :: m <= j < |arts| ==> Restored(f, f0, arts, tx, j)
  {}

  lemma BackupIndex(backups: seq<Saved>, f0: Files, arts: seq<Artifact>, tx: nat, m: nat, k: nat) returns (n: nat)
    requires m <= |arts| && BackupsOf(backups, f0, arts, tx, m) && k < |backups|
    ensures n < m && IsBackup(backups[k], f0, arts, tx, n)
  {
    assert IsSomeBackup(backups[k], f0, arts, tx, m);
    n :| 0 <= n < m && IsBackup(backups[k], f0, arts, tx, n);
  }

  lemma BackedUpNext(backups: seq<Saved>, f0: Files, arts: seq<Artifact>, tx: nat, k: nat, n: nat)
    requires Distinct(arts) && k < |backups| && n < |arts| && IsBackup(backups[k], f0, arts, tx, n)
    ensures forall j :: 0 <= j < |arts| && HasBackup(backups[..k + 1], f0, arts, tx, j) ==>
      j == n || HasBackup(backups[..k], f0, arts, tx, j)
  {
    forall j | 0 <= j < |arts| && j != n && HasBackup(backups[..k + 1], f0, arts, tx, j)
      ensures HasBackup(backups[..k], f0, arts, tx, j)
    {
      var l :| 0 <= l < k + 1 && IsBackup(backups[..k + 1][l], f0, arts, tx, j);
      assert arts[j].target != arts[n].target;
      assert IsBackup(backups[..k][l], f0, arts, tx, j);
    }
  }

  lemma NoneBackedUp(backups: seq<Saved>, f0: Files, arts: seq<Artifact>, tx: nat)
    ensures forall j :: 0 <= j < |arts| ==> !HasBackup(backups[..0], f0, arts, tx, j)
  {}

  lemma AllRestored(f: Files, f0: Files, arts: seq<Artifact>, tx: nat, m: nat, backups: seq<Saved>)
    requires Rolling(f, f0, arts, tx, m) && BackupsOf(backups, f0, arts, tx, m)
    requires forall j :: 0 <= j < m && HasBackup(backups, f0, arts, tx, j) ==> Restored(f, f0, arts, tx, j)
    ensures forall j :: 0 <= j < |arts| && arts[j].target in f0 ==> Restored(f, f0, arts, tx, j)
  {
    hide Restored, HasBackup;
  }

  /** What moving backup `j` back at `time` came to, from the files `g`. */
  ghost predicate RestoreTried(fs: FileSystem, f: Files, g: Files, f0: Files, arts: seq<Artifact>, tx: nat, j: nat,
                               time: nat)
    requires j < |arts|
  {
    if fs.fault(time) then BackupOf(arts[j].target, tx, j) in f && Same(f, g, arts[j].target)
    else Restored(f, f0, arts, tx, j)
  }

  /** Second half: move every backup back, noting failures. */
  method RestoreBackups(fs: FileSystem, arts: seq<Artifact>, tx: nat, backups: seq<Saved>, ghost f0: Files,
                        ghost m: nat, ghost from: nat)
    returns (failed: bool)
    requires FreshTx(f0, arts, tx) && Distinct(arts) && m <= |arts| && Rolling(fs.files, f0, arts, tx, m)
    requires BackupsOf(backups, f0, arts, tx, m) && InOrder(backups, f0, arts, tx, m)
    requires forall j :: 0 <= j < m && arts[j].target in f0 ==> BackupOf(arts[j].target, tx, j) in fs.files
    requires AllSafe(fs.history, from, f0, arts, tx)
    modifies fs
    ensures Rolling(fs.files, f0, arts, tx, m) && SameTemporaries(fs.files, old(fs.files), tx)
    ensures AllSafe(fs.history, from, f0, arts, tx) && fs.clock == old(fs.clock) + |backups|
    ensures forall j :: 0 <= j < m && arts[j].target in f0 ==>
      RestoreTried(fs, fs.files, old(fs.files), f0, arts, tx, j, old(fs.clock) + Existing(f0, arts, j))
    ensures !failed ==> forall j :: 0 <= j < |arts| && arts[j].target in f0 ==> Restored(fs.files, f0, arts, tx, j)
    ensures forall j :: 0 <= j < |arts| && arts[j].target !in f0 ==>
      (arts[j].target in fs.files <==> arts[j].target in old(fs.files))
    ensures fs.NoFault(old(fs.clock), fs.clock) ==> !failed
  {
    hide Rolling, Restored, BackupsOf, InOrder, Safe, HasBackup, Distinct, FreshTx, Existing;
    ghost var start := fs.files;
    failed := false;
    RollingIsSafe(fs.files, f0, arts, tx, m);
    NoneBackedUp(backups, f0, arts, tx);
    for k := 0 to |backups|
      invariant Rolling(fs.files, f0, arts, tx, m) && Safe(fs.files, f0, arts, tx)
      invariant SameTemporaries(fs.files, start, tx)
      invariant AllSafe(fs.history, from, f0, arts, tx) && fs.clock == old(fs.clock) + k
      invariant forall j :: 0 <= j < |arts| && arts[j].target !in f0 ==>
        (arts[j].target in fs.files <==> arts[j].target in start)
      invariant !failed ==> forall j :: 0 <= j < m && HasBackup(backups[..k], f0, arts, tx, j) ==>
        Restored(fs.files, f0, arts, tx, j)
      invariant fs.NoFault(old(fs.clock), fs.clock) ==> !failed
      invariant forall j :: 0 <= j < m && arts[j].target in f0 && Existing(f0, arts, j) < k ==>
        RestoreTried(fs, fs.files, start, f0, arts, tx, j, old(fs.clock) + Existing(f0, arts, j))
      invariant forall j :: 0 <= j < m && arts[j].target in f0 && Existing(f0, arts, j) >= k ==>
        BackupOf(arts[j].target, tx, j) in fs.files && Same(fs.files, start, arts[j].target)
    {
      var x := backups[k];
      ghost var n := TargetOfBackup(backups, f0, arts, tx, m, k);
      BackedUpNext(backups, f0, arts, tx, k, n);
      OtherExisting(f0, arts, n, m);
      if x.backup !in fs.files {
        assert false;
        continue;
      }
      MoveBack(fs.files, f0, arts, tx, m, n);
      TargetIsNoBackup(f0, arts, tx, n);
      RollingIsSafe(Moved(fs.files, x.backup, x.target), f0, arts, tx, m);
      var ok := fs.Replace(x.backup, x.target);
      if !ok {
        failed := true;
      }
    }
    assert backups[..|backups|] == backups;
    AllBefore(backups, f0, arts, tx, m);
    if !failed { AllRestored(fs.files, f0, arts, tx, m, backups); }
  }

  lemma OtherExisting(f0: Files, arts: seq<Artifact>, n: nat, m: nat)
    requires n < m <= |arts| && arts[n].target in f0
    ensures forall j :: 0 <= j < m && j != n && arts[j].target in f0 ==> Existing(f0, arts, j) != Existing(f0, arts, n)
  {
    hide Existing;
    forall j | 0 <= j < m && j != n && arts[j].target in f0
      ensures Existing(f0, arts, j) != Existing(f0, arts, n)
    {
      if j < n { ExistingGrows(f0, arts, j, n); } else { ExistingGrows(f0, arts, n, j); }
    }
  }

  lemma AllBefore(backups: seq<Saved>, f0: Files, arts: seq<Artifact>, tx: nat, m: nat)
    requires m <= |arts| && InOrder(backups, f0, arts, tx, m)
    ensures forall j :: 0 <= j < m && arts[j].target in f0 ==> Existing(f0, arts, j) < |backups|
  {}

  // ----- clean-up -----

  /** Removing a temporary of the transaction touches no target and no backup. */
  lemma DropTemporary(f: Files, f0: Files, arts: seq<Artifact>, tx: nat, n: nat)
    requires Safe(f, f0, arts, tx) && FreshTx(f0, arts, tx) && n < |arts|
    ensures Safe(f - {TemporaryOf(arts[n].target, tx, n)}, f0, arts, tx)
  {
    var g := f - {TemporaryOf(arts[n].target, tx, n)};
    forall j | 0 <= j < |arts|
      ensures TargetSafe(g, f0, arts, tx, j)
    {
      assert TargetSafe(f, f0, arts, tx, j);
    }
  }

  /** Removing the backup of a target that is in place loses nothing. */
  lemma DropBackup(f: Files, f0: Files, arts: seq<Artifact>, tx: nat, n: nat)
    requires Safe(f, f0, arts, tx) && FreshTx(f0, arts, tx) && n < |arts| && arts[n].target in f
    ensures Safe(f - {BackupOf(arts[n].target, tx, n)}, f0, arts, tx)
  {
    var g := f - {BackupOf(arts[n].target, tx, n)};
    forall j | 0 <= j < |arts|
      ensures TargetSafe(g, f0, arts, tx, j)
    {
      assert TargetSafe(f, f0, arts, tx, j);
    }
  }

  /** `g` differs from `f` only by lacking some temporaries and backups of the transaction. */
  ghost predicate OnlyCleaned(g: Files, f: Files, tx: nat) {
    (forall p :: p in g ==> p in f && g[p] == f[p]) && forall p: Path :: p in f && !p.leaf.Of(tx) ==> p in g
  }

  /** The `finally` clause: remove temporaries, then backups of targets that exist, ignoring failures. */
  method CleanUp(fs: FileSystem, arts: seq<Artifact>, tx: nat, temporary: seq<Path>, backups: seq<Saved>,
                 ghost f0: Files, ghost m: nat, ghost from: nat)
    requires FreshTx(f0, arts, tx) && Safe(fs.files, f0, arts, tx) && |temporary| <= |arts| && m <= |arts|
    requires forall j :: 0 <= j < |temporary| ==> temporary[j] == TemporaryOf(arts[j].target, tx, j)
    requires Distinct(arts) && BackupsOf(backups, f0, arts, tx, m) && InOrder(backups, f0, arts, tx, m)
    requires AllSafe(fs.history, from, f0, arts, tx)
    modifies fs
    ensures Safe(fs.files, f0, arts, tx) && OnlyCleaned(fs.files, old(fs.files), tx)
    ensures AllSafe(fs.history, from, f0, arts, tx) && fs.clock >= old(fs.clock)
    ensures forall p: Path :: p.leaf.Temporary? && p !in temporary ==> (p in fs.files <==> p in old(fs.files))
    ensures fs.NoFault(old(fs.clock), fs.clock) ==>
      (forall j :: 0 <= j < |temporary| ==> temporary[j] !in fs.files) &&
      forall k :: 0 <= k < |backups| && backups[k].target in old(fs.files) ==> backups[k].backup !in fs.files
    ensures forall j :: 0 <= j < m && arts[j].target in f0 ==>
      BackupLeft(fs, fs.files, old(fs.files), f0, arts, tx, j, old(fs.clock) + |temporary|)
  {
    hide Safe, BackupsOf, InOrder, AllSafe, FreshTx, Distinct, Count, StillThere;
    RemoveTemporaries(fs, arts, tx, temporary, f0, from);
    ghost var middle, f := fs.clock, fs.files;
    RemoveBackups(fs, arts, tx, backups, f0, m, from);
    forall k | 0 <= k < |backups|
      ensures backups[k].target in f <==> backups[k].target in old(fs.files)
    {
      var n := BackupIndex(backups, f0, arts, tx, m, k);
      TargetIsNoBackup(f0, arts, tx, n);
    }
    if fs.NoFault(old(fs.clock), fs.clock) { assert fs.NoFault(old(fs.clock), middle) && fs.NoFault(middle, fs.clock); }
    forall j | 0 <= j < m && arts[j].target in f0
      ensures BackupLeft(fs, fs.files, old(fs.files), f0, arts, tx, j, old(fs.clock) + |temporary|)
    {
      SameThere(fs, fs.files, f, old(fs.files), f0, arts, tx, j, middle);
    }
  }

  /** Removing temporaries changes nothing about backups. */
  lemma SameThere(fs: FileSystem, f: Files, g: Files, h: Files, f0: Files, arts: seq<Artifact>, tx: nat, j: nat,
                  start: nat)
    requires j < |arts| && FreshTx(f0, arts, tx) && BackupLeft(fs, f, g, f0, arts, tx, j, start)
    requires forall p: Path :: !p.leaf.Temporary? || p.leaf.tx != tx ==> (p in g <==> p in h)
    ensures BackupLeft(fs, f, h, f0, arts, tx, j, start)
  {
    hide Count;
    assert forall i :: 0 <= i < |arts| ==> !arts[i].target.leaf.Of(tx);
    CountSame(StillThere(g, f0, arts), StillThere(h, f0, arts), j);
  }

  method RemoveTemporaries(fs: FileSystem, arts: seq<Artifact>, tx: nat, temporary: seq<Path>, ghost f0: Files,
                           ghost from: nat)
    requires FreshTx(f0, arts, tx) && Safe(fs.files, f0, arts, tx) && |temporary| <= |arts|
    requires forall j :: 0 <= j < |temporary| ==> temporary[j] == TemporaryOf(arts[j].target, tx, j)
    requires AllSafe(fs.history, from, f0, arts, tx)
    modifies fs
    ensures Safe(fs.files, f0, arts, tx) && OnlyCleaned(fs.files, old(fs.files), tx)
    ensures AllSafe(fs.history, from, f0, arts, tx) && fs.clock >= old(fs.clock)
    ensures forall p: Path :: p.leaf.Temporary? && p !in temporary ==> (p in fs.files <==> p in old(fs.files))
    ensures fs.NoFault(old(fs.clock), fs.clock) ==> forall j :: 0 <= j < |temporary| ==> temporary[j] !in fs.files
    ensures fs.clock == old(fs.clock) + |temporary|
    ensures forall p: Path :: !p.leaf.Temporary? || p.leaf.tx != tx ==> (p in fs.files <==> p in old(fs.files))
  {
    hide Safe;
    ghost var start := fs.files;
    for k := 0 to |temporary|
      invariant Safe(fs.files, f0, arts, tx) && OnlyCleaned(fs.files, start, tx)
      invariant AllSafe(fs.history, from, f0, arts, tx) && fs.clock == old(fs.clock) + k
      invariant forall p: Path :: p.leaf.Temporary? && p !in temporary ==> (p in fs.files <==> p in start)
      invariant forall p: Path :: !p.leaf.Temporary? || p.leaf.tx != tx ==> (p in fs.files <==> p in start)
      invariant fs.NoFault(old(fs.clock), fs.clock) ==> forall j :: 0 <= j < k ==> temporary[j] !in fs.files
    {
      DropTemporary(fs.files, f0, arts, tx, k);
      var _ := fs.Unlink(temporary[k]);
    }
  }

  /** How many of the first `n` numbers have the property. */
  ghost function Count(p: nat -> bool, n: nat): nat {
    if n == 0 then 0 else Count(p, n - 1) + if p(n - 1) then 1 else 0
  }

  lemma {:induction false} CountSame(p: nat -> bool, q: nat -> bool, n: nat)
    requires forall i: nat :: i < n ==> p(i) == q(i)
    ensures Count(p, n) == Count(q, n)
  {
    if n > 0 { CountSame(p, q, n - 1); }
  }

  /** Nothing is counted where no target existed. */
  lemma {:induction false} CountSkips(p: nat -> bool, f0: Files, arts: seq<Artifact>, i: nat, j: nat)
    requires i <= j <= |arts| && Existing(f0, arts, i) == Existing(f0, arts, j)
    requires forall k: nat :: k < |arts| && arts[k].target !in f0 ==> !p(k)
    ensures Count(p, i) == Count(p, j)
    decreases j
  {
    if i < j {
      ExistingGrows(f0, arts, i, j - 1);
      CountSkips(p, f0, arts, i, j - 1);
    }
  }

  /** The target existed and is there. */
  ghost function StillThere(f: Files, f0: Files, arts: seq<Artifact>): nat -> bool {
    (i: nat) => i < |arts| && arts[i].target in f0 && arts[i].target in f
  }

  /** What the clean-up, coming to the backups at `start`, left of the backup of target `j` in the files `g`. */
  ghost predicate BackupLeft(fs: FileSystem, f: Files, g: Files, f0: Files, arts: seq<Artifact>, tx: nat, j: nat,
                             start: nat)
    requires j < |arts|
  {
    var b := BackupOf(arts[j].target, tx, j);
    b in f <==> b in g && (arts[j].target !in g || fs.fault(start + Count(StillThere(g, f0, arts), j)))
  }

  /** The next existing target comes when those before it have been dealt with. */
  lemma NextCount(g: Files, f0: Files, arts: seq<Artifact>, n: nat, m: nat, time: nat, start: nat)
    requires n < m <= |arts| && arts[n].target in f0
    requires time == start + Count(StillThere(g, f0, arts), n) + if arts[n].target in g then 1 else 0
    ensures forall j :: 0 <= j < m && arts[j].target in f0 && Existing(f0, arts, j) == Existing(f0, arts, n) + 1 ==>
      time == start + Count(StillThere(g, f0, arts), j)
  {
    var p := StillThere(g, f0, arts);
    forall j | 0 <= j < m && arts[j].target in f0 && Existing(f0, arts, j) == Existing(f0, arts, n) + 1
      ensures time == start + Count(p, j)
    {
      if j <= n { ExistingGrows(f0, arts, j, n); }
      CountSkips(p, f0, arts, n + 1, j);
    }
  }

  lemma FirstCount(g: Files, f0: Files, arts: seq<Artifact>, m: nat)
    requires m <= |arts|
    ensures forall j :: 0 <= j < m && Existing(f0, arts, j) == 0 ==> Count(StillThere(g, f0, arts), j) == 0
  {
    forall j | 0 <= j < m && Existing(f0, arts, j) == 0
      ensures Count(StillThere(g, f0, arts), j) == 0
    {
      CountSkips(StillThere(g, f0, arts), f0, arts, 0, j);
    }
  }

  method RemoveBackups(fs: FileSystem, arts: seq<Artifact>, tx: nat, backups: seq<Saved>, ghost f0: Files, ghost m: nat,
                       ghost from: nat)
    requires FreshTx(f0, arts, tx) && Safe(fs.files, f0, arts, tx) && m <= |arts| && BackupsOf(backups, f0, arts, tx, m)
    requires Distinct(arts) && InOrder(backups, f0, arts, tx, m)
    requires AllSafe(fs.history, from, f0, arts, tx)
    modifies fs
    ensures Safe(fs.files, f0, arts, tx) && OnlyCleaned(fs.files, old(fs.files), tx)
    ensures AllSafe(fs.history, from, f0, arts, tx) && fs.clock >= old(fs.clock)
    ensures forall p: Path :: p.leaf.Temporary? ==> (p in fs.files <==> p in old(fs.files))
    ensures forall j :: 0 <= j < |backups| ==> (backups[j].target in fs.files <==> backups[j].target in old(fs.files))
    ensures fs.NoFault(old(fs.clock), fs.clock) ==>
      forall k :: 0 <= k < |backups| && backups[k].target in old(fs.files) ==> backups[k].backup !in fs.files
    ensures forall j :: 0 <= j < m && arts[j].target in f0 ==>
      BackupLeft(fs, fs.files, old(fs.files), f0, arts, tx, j, old(fs.clock))
  {
    hide Safe, BackupsOf, InOrder, FreshTx, Distinct, Existing, Count, StillThere;
    ghost var start := fs.files;
    FirstCount(start, f0, arts, m);
    for k := 0 to |backups|
      invariant Safe(fs.files, f0, arts, tx) && OnlyCleaned(fs.files, start, tx)
      invariant AllSafe(fs.history, from, f0, arts, tx) && fs.clock >= old(fs.clock)
      invariant forall p: Path :: p.leaf.Temporary? ==> (p in fs.files <==> p in start)
      invariant fs.NoFault(old(fs.clock), fs.clock) ==>
        forall l :: 0 <= l < k && backups[l].target in start ==> backups[l].backup !in fs.files
      invariant forall j :: 0 <= j < m && arts[j].target in f0 && Existing(f0, arts, j) == k ==>
        fs.clock == old(fs.clock) + Count(StillThere(start, f0, arts), j)
      invariant forall j :: 0 <= j < m && arts[j].target in f0 && Existing(f0, arts, j) < k ==>
        BackupLeft(fs, fs.files, start, f0, arts, tx, j, old(fs.clock))
      invariant forall j :: 0 <= j < m && arts[j].target in f0 && Existing(f0, arts, j) >= k ==>
        (BackupOf(arts[j].target, tx, j) in fs.files <==> BackupOf(arts[j].target, tx, j) in start)
    {
      ghost var n := TargetOfBackup(backups, f0, arts, tx, m, k);
      TargetIsNoBackup(f0, arts, tx, n);
      OtherExisting(f0, arts, n, m);
      BackupsApart(arts, tx, n);
      ghost var now := fs.clock;
      if backups[k].target in fs.files {
        DropBackup(fs.files, f0, arts, tx, n);
        var _ := fs.Unlink(backups[k].backup);
      }
      assert BackupLeft(fs, fs.files, start, f0, arts, tx, n, old(fs.clock));
      NextCount(start, f0, arts, n, m, fs.clock, old(fs.clock));
    }
    AllBefore(backups, f0, arts, tx, m);
    forall k | 0 <= k < |backups|
      ensures backups[k].target in fs.files <==> backups[k].target in start
    {
      var n := BackupIndex(backups, f0, arts, tx, m, k);
      TargetIsNoBackup(f0, arts, tx, n);
    }
  }

  lemma BackupsApart(arts: seq<Artifact>, tx: nat, n: nat)
    requires n < |arts|
    ensures forall j :: 0 <= j < |arts| && j != n ==> BackupOf(arts[j].target, tx, j) != BackupOf(arts[n].target, tx, n)
  {}

  // ----- the whole transaction -----

  /** Everything the caller can see is as before, and no backup is left. */
  ghost predicate FullyRestored(f: Files, f0: Files, tx: nat) {
    (forall p: Path :: !p.leaf.Of(tx) ==> Same(f, f0, p)) &&
    forall p: Path :: p in f && p.leaf.Backup? ==> p.leaf.tx != tx
  }

  lemma RestoredEverywhere(f: Files, f0: Files, arts: seq<Artifact>, tx: nat)
    requires Safe(f, f0, arts, tx) && forall j :: 0 <= j < |arts| ==> Restored(f, f0, arts, tx, j)
    ensures FullyRestored(f, f0, tx)
  {
    forall p: Path | !p.leaf.Of(tx)
      ensures Same(f, f0, p)
    {
      if IsTarget(arts, p) {
        var j :| 0 <= j < |arts| && arts[j].target == p;
        assert Restored(f, f0, arts, tx, j);
      }
    }
    forall p | IsBackupPath(arts, tx, p)
      ensures p !in f
    {
      var j :| 0 <= j < |arts| && BackupOf(arts[j].target, tx, j) == p;
      assert Restored(f, f0, arts, tx, j);
    }
  }

  lemma WrittenIsRolling(f: Files, f0: Files, arts: seq<Artifact>, tx: nat, n: nat)
    requires Written(f, f0, arts, tx, n) && FreshTx(f0, arts, tx)
    ensures Rolling(f, f0, arts, tx, 0)
  {}

  lemma StartIsSafe(f0: Files, arts: seq<Artifact>, tx: nat)
    requires FreshTx(f0, arts, tx)
    ensures Safe(f0, f0, arts, tx)
  {}

  /** What holds when the attempt stops, whether it succeeded or not. */
  ghost predicate Stopped(f: Files, f0: Files, arts: seq<Artifact>, tx: nat, backups: seq<Saved>, replaced: seq<Path>,
                          m: nat) {
    |replaced| <= m <= |arts| && Rolling(f, f0, arts, tx, m) && BackupsOf(backups, f0, arts, tx, m) &&
    InOrder(backups, f0, arts, tx, m) && (forall j :: |replaced| <= j < m ==> arts[j].target !in f) &&
    NewOrGone(f, arts, |replaced|) &&
    (forall j :: 0 <= j < |replaced| ==> replaced[j] == arts[j].target && arts[j].target in f) &&
    (forall j :: 0 <= j < m && arts[j].target in f0 ==> BackupOf(arts[j].target, tx, j) in f) &&
    (forall j :: 0 <= j < m && arts[j].target !in f0 ==> j < |replaced|)
  }

  lemma SwappedStops(f: Files, f0: Files, arts: seq<Artifact>, tx: nat, n: nat, away: bool, backups: seq<Saved>,
                     replaced: seq<Path>)
    requires Swapped(f, f0, arts, tx, n, away) && n == |replaced|
    requires forall j :: 0 <= j < n ==> replaced[j] == arts[j].target
    requires BackupsOf(backups, f0, arts, tx, if away then n + 1 else n)
    requires InOrder(backups, f0, arts, tx, if away then n + 1 else n)
    ensures Stopped(f, f0, arts, tx, backups, replaced, if away then n + 1 else n)
  {
    SwappedIsRolling(f, f0, arts, tx, n, away);
    hide Rolling, BackupsOf, InOrder;
  }

  /** The attempt failed at its operation `steps`, with `count` targets in place. */
  ghost predicate AttemptStopped(f0: Files, arts: seq<Artifact>, steps: nat, count: nat) {
    if steps <= 4 * |arts| then count == 0 else SwapStopped(f0, arts, steps - 4 * |arts|, count)
  }

  /** The `try` block. */
  method Attempt(fs: FileSystem, arts: seq<Artifact>, tx: nat, ghost from: nat)
    returns (ok: bool, temporary: seq<Path>, backups: seq<Saved>, replaced: seq<Path>, ghost m: nat)
    requires FreshTx(fs.files, arts, tx) && Distinct(arts) && AllSafe(fs.history, from, fs.files, arts, tx)
    modifies fs
    ensures Stopped(fs.files, old(fs.files), arts, tx, backups, replaced, m)
    ensures AllSafe(fs.history, from, old(fs.files), arts, tx) && fs.clock >= old(fs.clock)
    ensures ok ==> forall j :: 0 <= j < |arts| ==>
      arts[j].target in fs.files && fs.files[arts[j].target] == arts[j].content
    ensures if ok then fs.NoFault(old(fs.clock), fs.clock) else fs.FirstFault(old(fs.clock), fs.clock)
    ensures !ok ==> AttemptStopped(old(fs.files), arts, fs.clock - old(fs.clock), |replaced|)
    ensures ok ==> m == |replaced| == |arts|
    ensures m > 0 ==> |temporary| == |arts|
    ensures ok ==> fs.clock == old(fs.clock) + 5 * |arts| + Existing(old(fs.files), arts, |arts|)
    ensures |temporary| <= |arts| && forall j :: 0 <= j < |temporary| ==>
      temporary[j] == TemporaryOf(arts[j].target, tx, j)
    ensures forall p: Path :: p.leaf.Temporary? && p.leaf.tx == tx && p !in temporary ==>
      (p in fs.files <==> IsTorn(arts, tx, old(fs.clock), fs.clock, p))
    ensures forall p :: p in temporary ==> !IsTorn(arts, tx, old(fs.clock), fs.clock, p)
  {
    hide Written, BackupsOf, InOrder, AllSafe, Safe, Rolling, TemporariesWithin, IsTorn;
    ghost var f0, start := fs.files, fs.clock;
    ok, temporary := WriteTemporaries(fs, arts, tx, from);
    backups, replaced, m := [], [], 0;
    NoBackups(f0, arts, tx);
    WrittenIsRolling(fs.files, f0, arts, tx, |temporary|);
    ghost var f1 := fs.files;
    if !ok { TornIs(fs.files, arts, tx, temporary, start, fs.clock); } else {
      WrittenIsSwapped(fs.files, f0, arts, tx);
      ghost var away;
      ok, backups, replaced, away := SwapIn(fs, arts, tx, f0, from);
      SwappedStops(fs.files, f0, arts, tx, |replaced|, away, backups, replaced);
      m := if away then |replaced| + 1 else |replaced|;
      NothingTorn(f1, fs.files, arts, tx, temporary, start, fs.clock);
    }
  }

  /** `p` is the temporary whose write or sync failed. */
  ghost predicate IsTorn(arts: seq<Artifact>, tx: nat, start: nat, stop: nat, p: Path) {
    exists n :: 0 <= n < |arts| && WriteFailed(start, n, stop) && TemporaryOf(arts[n].target, tx, n) == p
  }

  lemma TornIs(f: Files, arts: seq<Artifact>, tx: nat, temporary: seq<Path>, start: nat, stop: nat)
    requires |temporary| < |arts| && forall j :: 0 <= j < |temporary| ==>
      temporary[j] == TemporaryOf(arts[j].target, tx, j)
    requires TemporariesWithin(f, arts, tx, |temporary| + 1)
    requires var time := start + 4 * |temporary|;
             time < stop <= time + 4 && (TemporaryOf(arts[|temporary|].target, tx, |temporary|) in f <==>
                                         time + 3 <= stop)
    ensures forall p: Path :: p.leaf.Temporary? && p.leaf.tx == tx && p !in temporary ==>
      (p in f <==> IsTorn(arts, tx, start, stop, p))
    ensures forall p :: p in temporary ==> !IsTorn(arts, tx, start, stop, p)
  {
    var n := |temporary|;
    var torn := TemporaryOf(arts[n].target, tx, n);
    forall k | 0 <= k < |arts| && WriteFailed(start, k, stop)
      ensures k == n
    {}
    assert forall j :: 0 <= j < n ==> TemporaryOf(arts[j].target, tx, j) == temporary[j] && temporary[j] in temporary;
    forall p: Path | p.leaf.Temporary? && p.leaf.tx == tx && p !in temporary
      ensures p in f <==> IsTorn(arts, tx, start, stop, p)
    {
      if p in f {
        var j :| 0 <= j < n + 1 && TemporaryOf(arts[j].target, tx, j) == p;
        assert WriteFailed(start, n, stop);
      }
    }
    forall p | p in temporary
      ensures p != torn
    {
      var j :| 0 <= j < n && temporary[j] == p;
    }
  }

  lemma NothingTorn(f: Files, g: Files, arts: seq<Artifact>, tx: nat, temporary: seq<Path>, start: nat, stop: nat)
    requires |temporary| == |arts| && forall j :: 0 <= j < |temporary| ==>
      temporary[j] == TemporaryOf(arts[j].target, tx, j)
    requires TemporariesWithin(f, arts, tx, |arts|) && (arts != [] ==> stop > start + 4 * |arts|)
    requires forall p: Path :: p in g && p.leaf.Temporary? && p.leaf.tx == tx ==> p in f
    ensures forall p: Path :: p.leaf.Temporary? && p.leaf.tx == tx && p !in temporary ==> p !in g
    ensures forall p :: !IsTorn(arts, tx, start, stop, p)
  {
    forall p: Path | p in g && p.leaf.Temporary? && p.leaf.tx == tx
      ensures p in temporary
    {
      var j :| 0 <= j < |arts| && TemporaryOf(arts[j].target, tx, j) == p;
      assert temporary[j] == p;
    }
  }

  /** Started at `start`, the attempt stopped at `stop` because the write or sync of temporary `n` failed. */
  ghost predicate WriteFailed(start: nat, n: nat, stop: nat) {
    stop == start + 4 * n + 3 || stop == start + 4 * n + 4
  }

  /** When the rollback moves the backup of target `j` back: after the removals, in order. */
  function RestoreTime(f0: Files, arts: seq<Artifact>, start: nat, count: nat, j: nat): nat
    requires j <= |arts|
  {
    start + count + Existing(f0, arts, j)
  }

  /** What a rollback begun at `start`, with `count` targets in place, made of a target that existed. */
  ghost predicate RolledBack(fs: FileSystem, f: Files, f0: Files, arts: seq<Artifact>, tx: nat, start: nat, count: nat,
                             j: nat)
    requires j < |arts|
  {
    if fs.fault(RestoreTime(f0, arts, start, count, j))
    then
      BackupOf(arts[j].target, tx, j) in f && (arts[j].target in f <==> NewBytesStay(fs, start, count, j)) &&
      (arts[j].target in f ==> f[arts[j].target] == arts[j].content)
    else Restored(f, f0, arts, tx, j)
  }

  /** The `except` clause: remove what was put in place, then move the backups back. */
  method RollBack(fs: FileSystem, arts: seq<Artifact>, tx: nat, backups: seq<Saved>, replaced: seq<Path>,
                  ghost f0: Files, ghost m: nat, ghost from: nat)
    returns (failed: bool)
    requires FreshTx(f0, arts, tx) && Distinct(arts) && Stopped(fs.files, f0, arts, tx, backups, replaced, m)
    requires AllSafe(fs.history, from, f0, arts, tx)
    modifies fs
    ensures Safe(fs.files, f0, arts, tx) && SameTemporaries(fs.files, old(fs.files), tx)
    ensures AllSafe(fs.history, from, f0, arts, tx) && fs.clock >= old(fs.clock) + |replaced|
    ensures !failed ==> forall j :: 0 <= j < |arts| && arts[j].target in f0 ==> Restored(fs.files, f0, arts, tx, j)
    ensures forall j :: 0 <= j < |arts| && arts[j].target !in f0 ==>
      (Restored(fs.files, f0, arts, tx, j) <==> !NewBytesStay(fs, old(fs.clock), |replaced|, j))
    ensures fs.NoFault(old(fs.clock) + |replaced|, fs.clock) ==> !failed
    ensures forall j :: 0 <= j < m && arts[j].target in f0 ==>
      RolledBack(fs, fs.files, f0, arts, tx, old(fs.clock), |replaced|, j)
    ensures forall j :: m <= j < |arts| ==> Restored(fs.files, f0, arts, tx, j)
    ensures fs.NoFault(old(fs.clock), fs.clock) ==>
      !failed && forall j :: 0 <= j < |arts| ==> Restored(fs.files, f0, arts, tx, j)
  {
    hide Rolling, BackupsOf, InOrder, AllSafe, Safe, SameTemporaries, Existing, Restored;
    ghost var a := fs.clock;
    RemoveReplaced(fs, arts, tx, replaced, f0, m, from);
    ghost var b, f := fs.clock, fs.files;
    failed := RestoreBackups(fs, arts, tx, backups, f0, m, from);
    RollingIsSafe(fs.files, f0, arts, tx, m);
    RollingBeyond(fs.files, f0, arts, tx, m);
    if fs.NoFault(a, fs.clock) { assert fs.NoFault(b, fs.clock); }
    NewTargets(fs, a, |replaced|, fs.files, f, f0, arts, tx, m);
    SameTemporariesTwice(old(fs.files), f, fs.files, tx);
  }

  lemma SameTemporariesTwice(f: Files, g: Files, h: Files, tx: nat)
    requires SameTemporaries(g, f, tx) && SameTemporaries(h, g, tx)
    ensures SameTemporaries(h, f, tx)
  {}

  /** The removal of target `j`, put in place as one of `count`, failed in a rollback begun at `start`. */
  ghost predicate NewBytesStay(fs: FileSystem, start: nat, count: nat, j: nat) {
    j < count && fs.fault(UnlinkTime(start, count, j))
  }

  /** A target that did not exist before is restored unless its removal failed. */
  lemma NewTargets(fs: FileSystem, start: nat, count: nat, g: Files, f: Files, f0: Files, arts: seq<Artifact>, tx: nat,
                   m: nat)
    requires Rolling(g, f0, arts, tx, m) && count <= m
    requires forall j :: 0 <= j < |arts| && arts[j].target !in f0 ==> (arts[j].target in g <==> arts[j].target in f)
    requires forall j :: 0 <= j < count ==> (arts[j].target in f <==> fs.fault(UnlinkTime(start, count, j)))
    requires forall j :: 0 <= j < m && arts[j].target !in f0 ==> j < count
    ensures forall j :: 0 <= j < |arts| && arts[j].target !in f0 ==>
      (Restored(g, f0, arts, tx, j) <==> !NewBytesStay(fs, start, count, j))
  {
    forall j | 0 <= j < |arts| && arts[j].target !in f0
      ensures Restored(g, f0, arts, tx, j) <==> !NewBytesStay(fs, start, count, j)
    {
      assert TargetSafe(g, f0, arts, tx, j);
    }
  }

  /**
    `atomic_publish_files`. The ghost results say when the attempt stopped, when the clean-up began,
    and how many targets had their new bytes when the attempt stopped.
   */
  method PublishFiles(fs: FileSystem, arts: seq<Artifact>, tx: nat)
    returns (outcome: Outcome, ghost stopped: nat, ghost rolledBack: nat, ghost swapped: nat)
    requires FreshTx(fs.files, arts, tx)
    modifies fs
    ensures outcome.NoArtifacts? <==> arts == []
    ensures outcome.DuplicateTarget? <==> !Distinct(arts)
    ensures outcome.NoArtifacts? || outcome.DuplicateTarget? ==>
      fs.files == old(fs.files) && fs.history == old(fs.history)
    // The attempt stops at its first fault, and succeeds if there is none.
    ensures outcome.Published? ==>
      fs.NoFault(old(fs.clock), stopped) &&
      stopped == old(fs.clock) + 5 * |arts| + Existing(old(fs.files), arts, |arts|)
    ensures outcome.Failed? ==>
      fs.FirstFault(old(fs.clock), stopped) && AttemptStopped(old(fs.files), arts, stopped - old(fs.clock), swapped)
    ensures outcome.Failed? ==> rolledBack >= stopped + swapped
    // Whatever fails, in every state the files go through, nothing is lost.
    ensures Safe(fs.files, old(fs.files), arts, tx)
    ensures AllSafe(fs.history, |old(fs.history)|, old(fs.files), arts, tx)
    // Success: every target has its new bytes.
    ensures outcome.Published? ==> forall j :: 0 <= j < |arts| ==>
      arts[j].target in fs.files && fs.files[arts[j].target] == arts[j].content
    // Failure, with a rollback in which no operation fails: everything is as before.
    ensures outcome.Failed? && fs.NoFault(stopped, rolledBack) ==>
      !outcome.rollbackFailed && FullyRestored(fs.files, old(fs.files), tx)
    // Only a failing restore is reported.
    ensures outcome.Failed? && fs.NoFault(stopped + swapped, rolledBack) ==> !outcome.rollbackFailed
    // Failure with every restore successful: every file that existed has its old bytes, and everything
    // is as before exactly when no removal of a target that did not exist before failed.
    ensures outcome.Failed? && !outcome.rollbackFailed ==>
      forall j :: 0 <= j < |arts| && arts[j].target in old(fs.files) ==>
      arts[j].target in fs.files && fs.files[arts[j].target] == old(fs.files)[arts[j].target]
    ensures outcome == Failed(false) ==>
      (FullyRestored(fs.files, old(fs.files), tx) <==>
       forall j :: 0 <= j < |arts| && arts[j].target !in old(fs.files) ==> !NewBytesStay(fs, stopped, swapped, j))
    // After a failure the old bytes of a file are gone, from its place and from its backup, exactly when
    // it had been replaced, its removal failed, its restore failed and the clean-up removed its backup.
    ensures outcome.Failed? ==> forall j :: 0 <= j < |arts| && arts[j].target in old(fs.files) ==>
      (OldBytesKept(fs.files, old(fs.files), arts, tx, j) <==>
       arts[j].content == old(fs.files)[arts[j].target] ||
       !BytesLost(fs, old(fs.files), arts, stopped, swapped, rolledBack, j))
    // After a clean-up without failure only a temporary whose write or sync failed is left,
    // and after success nothing at all.
    ensures outcome.Failed? ==> forall p :: IsTorn(arts, tx, old(fs.clock), stopped, p) ==> p in fs.files
    ensures fs.NoFault(rolledBack, fs.clock) && arts != [] && Distinct(arts) ==> forall p: Path ::
      p.leaf.Temporary? && p.leaf.tx == tx ==> (p in fs.files <==> IsTorn(arts, tx, old(fs.clock), stopped, p))
    ensures fs.NoFault(rolledBack, fs.clock) && outcome.Published? ==> forall p: Path :: p.leaf.Of(tx) ==>
      p !in fs.files
  {
    stopped, rolledBack, swapped := fs.clock, fs.clock, 0;
    StartIsSafe(fs.files, arts, tx);
    if arts == [] { return NoArtifacts, stopped, rolledBack, swapped; }
    if !Distinct(arts) { return DuplicateTarget, stopped, rolledBack, swapped; }
    hide BackupsOf, InOrder, AllSafe, Safe, Rolling, FullyRestored, IsTorn, NewBytesStay, Restored, OnlyCleaned;
    hide FreshTx, Distinct, RolledBack, BackupLeft, BytesLost, OldBytesKept;
    hide FileSystem.NoFault, FileSystem.FirstFault;
    ghost var f0, from := fs.files, |fs.history|;
    assert AllSafe(fs.history, from, f0, arts, tx) by { EmptyHistorySafe(fs.history, f0, arts, tx); }
    var ok, failed, temporary, backups;
    ghost var m;
    ok, failed, temporary, backups, m, stopped, swapped := AttemptOrRollBack(fs, arts, tx, from);
    rolledBack := fs.clock;
    ghost var f2 := fs.files;
    FinishUp(fs, arts, tx, temporary, backups, f0, m, from, ok, old(fs.clock), stopped, swapped);
    outcome := if ok then Published else Failed(failed);
    if ok {
      TargetsStay(fs.files, f2, f0, arts, tx);
      NoneTorn(arts, tx, old(fs.clock), stopped);
      if fs.NoFault(rolledBack, fs.clock) { NothingLeft(fs.files, f2, f0, arts, tx, backups); }
    } else if !failed {
      RestoredIff(fs, fs.files, f0, arts, tx, stopped, swapped);
      OldBytes(fs.files, f0, arts, tx);
      if fs.NoFault(stopped, rolledBack) { RestoredEverywhere(fs.files, f0, arts, tx); }
    }
  }

  /** The old bytes of target `j` are in its place or in its backup. */
  ghost predicate OldBytesKept(f: Files, f0: Files, arts: seq<Artifact>, tx: nat, j: nat)
    requires j < |arts| && arts[j].target in f0
  {
    (arts[j].target in f && f[arts[j].target] == f0[arts[j].target]) || BackupOf(arts[j].target, tx, j) in f
  }

  /** After the rollback target `i` is there: moved back, or never removed. */
  ghost function ThereAfter(fs: FileSystem, f0: Files, arts: seq<Artifact>, start: nat, count: nat): nat -> bool {
    (i: nat) =>
      i < |arts| && arts[i].target in f0 &&
      (!fs.fault(RestoreTime(f0, arts, start, count, i)) || NewBytesStay(fs, start, count, i))
  }

  /** Removal and restore of target `j` failed, and the removal of its backup, in the order of the clean-up, did not. */
  ghost predicate BytesLost(fs: FileSystem, f0: Files, arts: seq<Artifact>, start: nat, count: nat, cleaning: nat,
                            j: nat)
    requires j < |arts|
  {
    NewBytesStay(fs, start, count, j) && fs.fault(RestoreTime(f0, arts, start, count, j)) &&
    !fs.fault(cleaning + |arts| + Count(ThereAfter(fs, f0, arts, start, count), j))
  }

  /** Where the targets are after the rollback. */
  lemma ThereIs(fs: FileSystem, f: Files, f0: Files, arts: seq<Artifact>, tx: nat, m: nat, start: nat, count: nat,
                n: nat)
    requires n <= m <= |arts|
    requires forall j :: 0 <= j < m && arts[j].target in f0 ==> RolledBack(fs, f, f0, arts, tx, start, count, j)
    ensures Count(StillThere(f, f0, arts), n) == Count(ThereAfter(fs, f0, arts, start, count), n)
  {
    hide Count, NewBytesStay;
    forall i: nat | i < n
      ensures StillThere(f, f0, arts)(i) == ThereAfter(fs, f0, arts, start, count)(i)
    {
      if arts[i].target in f0 { assert RolledBack(fs, f, f0, arts, tx, start, count, i); }
    }
    CountSame(StillThere(f, f0, arts), ThereAfter(fs, f0, arts, start, count), n);
  }

  /** From the files `f` after the rollback to the files `g` after the clean-up. */
  lemma KeptIff(fs: FileSystem, g: Files, f: Files, f0: Files, arts: seq<Artifact>, tx: nat, m: nat, temporaries: nat,
                start: nat, count: nat, cleaning: nat)
    requires count <= m <= |arts| && FreshTx(f0, arts, tx) && OnlyCleaned(g, f, tx)
    requires m > 0 ==> temporaries == |arts|
    requires forall j :: 0 <= j < m && arts[j].target in f0 ==> RolledBack(fs, f, f0, arts, tx, start, count, j)
    requires forall j :: m <= j < |arts| ==> Restored(f, f0, arts, tx, j)
    requires forall j :: 0 <= j < m && arts[j].target in f0 ==>
      BackupLeft(fs, g, f, f0, arts, tx, j, cleaning + temporaries)
    ensures forall j :: 0 <= j < |arts| && arts[j].target in f0 ==>
      (OldBytesKept(g, f0, arts, tx, j) <==>
       arts[j].content == f0[arts[j].target] || !BytesLost(fs, f0, arts, start, count, cleaning, j))
  {
    hide Count, StillThere, ThereAfter;
    forall j | 0 <= j < |arts| && arts[j].target in f0
      ensures OldBytesKept(g, f0, arts, tx, j) <==>
        arts[j].content == f0[arts[j].target] || !BytesLost(fs, f0, arts, start, count, cleaning, j)
    {
      assert arts[j].target in f ==> arts[j].target in g && g[arts[j].target] == f[arts[j].target];
      assert arts[j].target in g ==> arts[j].target in f;
      if j < m {
        ThereIs(fs, f, f0, arts, tx, m, start, count, j);
        KeptOne(fs, g, f, f0, arts, tx, start, count, cleaning, j);
      } else {
        assert Restored(f, f0, arts, tx, j) && !NewBytesStay(fs, start, count, j);
      }
    }
  }

  lemma KeptOne(fs: FileSystem, g: Files, f: Files, f0: Files, arts: seq<Artifact>, tx: nat, start: nat, count: nat,
                cleaning: nat, j: nat)
    requires j < |arts| && arts[j].target in f0 && RolledBack(fs, f, f0, arts, tx, start, count, j)
    requires BackupLeft(fs, g, f, f0, arts, tx, j, cleaning + |arts|)
    requires Count(StillThere(f, f0, arts), j) == Count(ThereAfter(fs, f0, arts, start, count), j)
    requires Same(g, f, arts[j].target)
    ensures OldBytesKept(g, f0, arts, tx, j) <==>
      arts[j].content == f0[arts[j].target] || !BytesLost(fs, f0, arts, start, count, cleaning, j)
  {
    hide Count, StillThere, ThereAfter, NewBytesStay;
  }

  /** The `finally` clause, after an attempt that stopped at `stopped` and, if it failed, a rollback. */
  method FinishUp(fs: FileSystem, arts: seq<Artifact>, tx: nat, temporary: seq<Path>, backups: seq<Saved>,
                  ghost f0: Files, ghost m: nat, ghost from: nat, ghost ok: bool, ghost began: nat, ghost stopped: nat,
                  ghost swapped: nat)
    requires FreshTx(f0, arts, tx) && Safe(fs.files, f0, arts, tx) && Distinct(arts) && swapped <= m <= |arts|
    requires |temporary| <= |arts| && forall j :: 0 <= j < |temporary| ==>
      temporary[j] == TemporaryOf(arts[j].target, tx, j)
    requires BackupsOf(backups, f0, arts, tx, m) && InOrder(backups, f0, arts, tx, m)
    requires m > 0 ==> |temporary| == |arts|
    requires AllSafe(fs.history, from, f0, arts, tx)
    requires forall p: Path :: p.leaf.Temporary? && p.leaf.tx == tx && p !in temporary ==>
      (p in fs.files <==> IsTorn(arts, tx, began, stopped, p))
    requires forall p :: p in temporary ==> !IsTorn(arts, tx, began, stopped, p)
    requires !ok ==> forall j :: 0 <= j < m && arts[j].target in f0 ==>
      RolledBack(fs, fs.files, f0, arts, tx, stopped, swapped, j)
    requires !ok ==> forall j :: m <= j < |arts| ==> Restored(fs.files, f0, arts, tx, j)
    modifies fs
    ensures Safe(fs.files, f0, arts, tx) && OnlyCleaned(fs.files, old(fs.files), tx)
    ensures AllSafe(fs.history, from, f0, arts, tx) && fs.clock >= old(fs.clock)
    ensures fs.NoFault(old(fs.clock), fs.clock) ==>
      forall k :: 0 <= k < |backups| && backups[k].target in old(fs.files) ==> backups[k].backup !in fs.files
    ensures forall p :: IsTorn(arts, tx, began, stopped, p) ==> p in fs.files
    ensures fs.NoFault(old(fs.clock), fs.clock) ==> forall p: Path ::
      p.leaf.Temporary? && p.leaf.tx == tx ==> (p in fs.files <==> IsTorn(arts, tx, began, stopped, p))
    ensures forall j :: 0 <= j < |arts| ==>
      (Restored(old(fs.files), f0, arts, tx, j) ==> Restored(fs.files, f0, arts, tx, j))
    ensures forall j :: 0 <= j < |arts| && arts[j].target !in f0 ==>
      (Restored(fs.files, f0, arts, tx, j) ==> Restored(old(fs.files), f0, arts, tx, j))
    ensures !ok ==> forall j :: 0 <= j < |arts| && arts[j].target in f0 ==>
      (OldBytesKept(fs.files, f0, arts, tx, j) <==>
       arts[j].content == f0[arts[j].target] || !BytesLost(fs, f0, arts, stopped, swapped, old(fs.clock), j))
  {
    hide BackupsOf, InOrder, AllSafe, Safe, IsTorn, Restored, OnlyCleaned, FreshTx, Distinct, RolledBack, BackupLeft,
    BytesLost, OldBytesKept, FileSystem.NoFault;
    ghost var f, cleaning := fs.files, fs.clock;
    CleanUp(fs, arts, tx, temporary, backups, f0, m, from);
    LeftTemporaries(f, fs.files, arts, tx, temporary, began, stopped);
    RestoredStays(fs.files, f, f0, arts, tx);
    if !ok { KeptIff(fs, fs.files, f, f0, arts, tx, m, |temporary|, stopped, swapped, cleaning); }
  }

  /** The `try` block and, if it fails, the `except` clause. */
  method AttemptOrRollBack(fs: FileSystem, arts: seq<Artifact>, tx: nat, ghost from: nat)
    returns (ok: bool, failed: bool, temporary: seq<Path>, backups: seq<Saved>, ghost m: nat, ghost stopped: nat,
             ghost swapped: nat)
    requires FreshTx(fs.files, arts, tx) && Distinct(arts) && AllSafe(fs.history, from, fs.files, arts, tx)
    modifies fs
    ensures if ok then fs.NoFault(old(fs.clock), stopped) else fs.FirstFault(old(fs.clock), stopped)
    ensures m <= |arts| && BackupsOf(backups, old(fs.files), arts, tx, m) && (ok ==> m == |arts|)
    ensures InOrder(backups, old(fs.files), arts, tx, m) && swapped <= m && (m > 0 ==> |temporary| == |arts|)
    ensures !ok ==> forall j :: 0 <= j < m && arts[j].target in old(fs.files) ==>
      RolledBack(fs, fs.files, old(fs.files), arts, tx, stopped, swapped, j)
    ensures !ok ==> forall j :: m <= j < |arts| ==> Restored(fs.files, old(fs.files), arts, tx, j)
    ensures !ok ==> AttemptStopped(old(fs.files), arts, stopped - old(fs.clock), swapped)
    ensures ok ==> !failed && fs.clock == stopped == old(fs.clock) + 5 * |arts| + Existing(old(fs.files), arts, |arts|)
    ensures !ok && fs.NoFault(stopped + swapped, fs.clock) ==> !failed
    ensures Safe(fs.files, old(fs.files), arts, tx) && AllSafe(fs.history, from, old(fs.files), arts, tx)
    ensures fs.clock >= stopped && (!ok ==> fs.clock >= stopped + swapped)
    ensures ok ==> forall j :: 0 <= j < |arts| ==>
      arts[j].target in fs.files && fs.files[arts[j].target] == arts[j].content
    ensures !ok && !failed ==> forall j :: 0 <= j < |arts| && arts[j].target in old(fs.files) ==>
      Restored(fs.files, old(fs.files), arts, tx, j)
    ensures !ok ==> forall j :: 0 <= j < |arts| && arts[j].target !in old(fs.files) ==>
      (Restored(fs.files, old(fs.files), arts, tx, j) <==> !NewBytesStay(fs, stopped, swapped, j))
    ensures !ok && fs.NoFault(stopped, fs.clock) ==>
      !failed && forall j :: 0 <= j < |arts| ==> Restored(fs.files, old(fs.files), arts, tx, j)
    ensures |temporary| <= |arts| && forall j :: 0 <= j < |temporary| ==>
      temporary[j] == TemporaryOf(arts[j].target, tx, j)
    ensures forall p: Path :: p.leaf.Temporary? && p.leaf.tx == tx && p !in temporary ==>
      (p in fs.files <==> IsTorn(arts, tx, old(fs.clock), stopped, p))
    ensures forall p :: p in temporary ==> !IsTorn(arts, tx, old(fs.clock), stopped, p)
  {
    hide BackupsOf, InOrder, AllSafe, Safe, Rolling, IsTorn, NewBytesStay, Restored, RolledBack, FreshTx, Distinct;
    ghost var f0 := fs.files;
    var replaced;
    ok, temporary, backups, replaced, m := Attempt(fs, arts, tx, from);
    stopped, swapped, failed := fs.clock, |replaced|, false;
    RollingIsSafe(fs.files, f0, arts, tx, m);
    if !ok { failed := RollBack(fs, arts, tx, backups, replaced, f0, m, from); }
  }

  lemma NoneTorn(arts: seq<Artifact>, tx: nat, start: nat, stop: nat)
    requires stop >= start + 5 * |arts|
    ensures forall p :: !IsTorn(arts, tx, start, stop, p)
  {}

  lemma TargetsStay(g: Files, f: Files, f0: Files, arts: seq<Artifact>, tx: nat)
    requires OnlyCleaned(g, f, tx) && FreshTx(f0, arts, tx)
    requires forall j :: 0 <= j < |arts| ==> arts[j].target in f && f[arts[j].target] == arts[j].content
    ensures forall j :: 0 <= j < |arts| ==> arts[j].target in g && g[arts[j].target] == arts[j].content
  {}

  lemma OldBytes(g: Files, f0: Files, arts: seq<Artifact>, tx: nat)
    requires forall j :: 0 <= j < |arts| && arts[j].target in f0 ==> Restored(g, f0, arts, tx, j)
    ensures forall j :: 0 <= j < |arts| && arts[j].target in f0 ==>
      arts[j].target in g && g[arts[j].target] == f0[arts[j].target]
  {}

  /** What the clean-up leaves of the temporaries, given that the torn one is not registered. */
  lemma LeftTemporaries(f: Files, g: Files, arts: seq<Artifact>, tx: nat, temporary: seq<Path>, start: nat, stop: nat)
    requires forall p: Path :: p.leaf.Temporary? && p.leaf.tx == tx && p !in temporary ==>
      (p in f <==> IsTorn(arts, tx, start, stop, p))
    requires forall p :: p in temporary ==> !IsTorn(arts, tx, start, stop, p)
    requires forall p: Path :: p.leaf.Temporary? && p !in temporary ==> (p in g <==> p in f)
    ensures forall p :: IsTorn(arts, tx, start, stop, p) ==> p in g
    ensures (forall j :: 0 <= j < |temporary| ==> temporary[j] !in g) ==> forall p: Path ::
      p.leaf.Temporary? && p.leaf.tx == tx ==> (p in g <==> IsTorn(arts, tx, start, stop, p))
  {
    forall p | IsTorn(arts, tx, start, stop, p)
      ensures p.leaf.Temporary? && p.leaf.tx == tx
    {}
  }

  /** The clean-up neither restores nor spoils a target. */
  lemma RestoredStays(g: Files, f: Files, f0: Files, arts: seq<Artifact>, tx: nat)
    requires OnlyCleaned(g, f, tx) && FreshTx(f0, arts, tx) && Safe(f, f0, arts, tx)
    ensures forall j :: 0 <= j < |arts| ==> (Restored(f, f0, arts, tx, j) ==> Restored(g, f0, arts, tx, j))
    ensures forall j :: 0 <= j < |arts| && arts[j].target !in f0 ==>
      (Restored(g, f0, arts, tx, j) ==> Restored(f, f0, arts, tx, j))
  {
    hide Safe;
    forall j | 0 <= j < |arts|
      ensures Restored(f, f0, arts, tx, j) ==> Restored(g, f0, arts, tx, j)
      ensures arts[j].target !in f0 && Restored(g, f0, arts, tx, j) ==> Restored(f, f0, arts, tx, j)
    {
      assert TargetSafe(f, f0, arts, tx, j) by { SafeAt(f, f0, arts, tx, j); }
    }
  }

  lemma SafeAt(f: Files, f0: Files, arts: seq<Artifact>, tx: nat, j: nat)
    requires Safe(f, f0, arts, tx) && j < |arts|
    ensures TargetSafe(f, f0, arts, tx, j)
  {}

  lemma RestoredIff(fs: FileSystem, g: Files, f0: Files, arts: seq<Artifact>, tx: nat, start: nat, count: nat)
    requires Safe(g, f0, arts, tx) && FreshTx(f0, arts, tx)
    requires forall j :: 0 <= j < |arts| && arts[j].target in f0 ==> Restored(g, f0, arts, tx, j)
    requires forall j :: 0 <= j < |arts| && arts[j].target !in f0 ==>
      (Restored(g, f0, arts, tx, j) <==> !NewBytesStay(fs, start, count, j))
    ensures FullyRestored(g, f0, tx) <==>
      forall j :: 0 <= j < |arts| && arts[j].target !in f0 ==> !NewBytesStay(fs, start, count, j)
  {
    hide NewBytesStay, Safe, FullyRestored;
    if forall j :: 0 <= j < |arts| && arts[j].target !in f0 ==> !NewBytesStay(fs, start, count, j) {
      RestoredEverywhere(g, f0, arts, tx);
    }
    if FullyRestored(g, f0, tx) { EverywhereRestored(g, f0, arts, tx); }
  }

  lemma EverywhereRestored(g: Files, f0: Files, arts: seq<Artifact>, tx: nat)
    requires FullyRestored(g, f0, tx) && FreshTx(f0, arts, tx)
    ensures forall j :: 0 <= j < |arts| ==> Restored(g, f0, arts, tx, j)
  {}

  /** After success and a clean-up without failure nothing of the transaction is left. */
  lemma NothingLeft(g: Files, f: Files, f0: Files, arts: seq<Artifact>, tx: nat, backups: seq<Saved>)
    requires Safe(g, f0, arts, tx) && BackupsOf(backups, f0, arts, tx, |arts|) && OnlyCleaned(g, f, tx)
    requires forall j :: 0 <= j < |arts| ==> arts[j].target in f
    requires forall k :: 0 <= k < |backups| && backups[k].target in f ==> backups[k].backup !in g
    requires forall p: Path :: p.leaf.Temporary? && p.leaf.tx == tx ==> p !in g
    ensures forall p: Path :: p.leaf.Of(tx) ==> p !in g
  {
    forall p | IsBackupPath(arts, tx, p)
      ensures p !in g
    {
      var j :| 0 <= j < |arts| && BackupOf(arts[j].target, tx, j) == p;
      assert TargetSafe(g, f0, arts, tx, j);
      if arts[j].target in f0 {
        assert HasBackup(backups, f0, arts, tx, j);
        var k :| 0 <= k < |backups| && IsBackup(backups[k], f0, arts, tx, j);
      }
    }
  }

  lemma EmptyHistorySafe(history: seq<Files>, f0: Files, arts: seq<Artifact>, tx: nat)
    ensures AllSafe(history, |history|, f0, arts, tx)
  {}

  // ----- what a failure can leave behind -----

  /** One failing write, everything else working: the torn temporary stays. */
  method TornTemporaryStays(target: string, content: Bytes) returns (fs: FileSystem, temp: Path)
    ensures forall t :: fs.fault(t) <==> t == 2
    ensures temp.leaf.Temporary? && temp in fs.files
  {
    fs := new FileSystem(map[], t => t == 2, t => 0);
    var arts := [Artifact(Path("", Named(target)), content)];
    temp := TemporaryOf(arts[0].target, 0, 0);
    var outcome, stopped, rolledBack, swapped := PublishFiles(fs, arts, 0);
    assert fs.fault(2);
    assert outcome.Failed? && stopped == 3;
    assert WriteFailed(0, 0, stopped);
    assert IsTorn(arts, 0, 0, stopped, temp);
  }

  /**
    Two new targets; the second swap and the removal of the first target fail. The rollback counts
    as successful, and the first target keeps its new bytes.
   */
  method NewBytesStayUnnoticed(a: string, b: string, content: Bytes) returns (fs: FileSystem, outcome: Outcome)
    requires a != b
    ensures outcome == Failed(false) && !FullyRestored(fs.files, map[], 0)
  {
    fs := new FileSystem(map[], t => t == 9 || t == 10, t => 0);
    var arts := [Artifact(Path("", Named(a)), content), Artifact(Path("", Named(b)), content)];
    ghost var stopped, rolledBack, swapped;
    outcome, stopped, rolledBack, swapped := PublishFiles(fs, arts, 0);
    assert fs.fault(9) && fs.fault(10);
    assert outcome.Failed? && stopped == 10;
    assert Existing(map[], arts, 1) == 0 && Existing(map[], arts, 0) == 0;
    assert swapped == 1;
    assert NewBytesStay(fs, stopped, swapped, 0);
  }

  /**
    One existing target and a new one; the second swap, the removal of the first target and its restore
    fail. The clean-up then removes the backup, and the old bytes are gone.
   */
  method OldBytesGone(a: string, b: string, content: Bytes, before: Bytes) returns (fs: FileSystem, outcome: Outcome)
    requires a != b && content != before
    ensures outcome.Failed? && !OldBytesKept(fs.files, map[Path("", Named(a)) := before],
                                             [Artifact(Path("", Named(a)), content),
                                              Artifact(Path("", Named(b)), content)], 0, 0)
  {
    var f0 := map[Path("", Named(a)) := before];
    fs := new FileSystem(f0, t => t == 10 || t == 11 || t == 12, t => 0);
    var arts := [Artifact(Path("", Named(a)), content), Artifact(Path("", Named(b)), content)];
    ghost var stopped, rolledBack, swapped;
    outcome, stopped, rolledBack, swapped := PublishFiles(fs, arts, 0);
    assert fs.fault(10) && fs.fault(11) && fs.fault(12);
    assert Existing(f0, arts, 0) == 0 && Existing(f0, arts, 1) == 1 && Existing(f0, arts, 2) == 1;
    assert outcome.Failed? && stopped == 11;
    assert swapped == 1;
    assert NewBytesStay(fs, stopped, swapped, 0);
    assert RestoreTime(f0, arts, stopped, swapped, 0) == 12;
    assert Count(ThereAfter(fs, f0, arts, stopped, swapped), 0) == 0;
    assert rolledBack >= stopped;
  }
}
