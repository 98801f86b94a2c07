/**
 * The per-crate lint registry: a table from crate root to the crate's
 * record, created on demand, plus the clearing of one crate's lints from the
 * shared diagnostic collection.
 *
 * The crate's lint cache and the lookup of a crate's main target are not
 * part of this model: a crate keeps the log of the updates forwarded to its
 * cache, cache queries are function parameters, and the main target is a
 * parameter of `UpdateTarget`.
 */
module Crates {
  import opened Wrappers
  import opened Paths
  import opened Diagnostics
  import opened Common

  datatype TargetKind = Library | Binary | Example | Test

  /** A build target; equality is structural. */
  datatype Target = Target(name: string, kind: TargetKind, sourceEntryPath: Path, crateRoot: Path)

  /** One `lintCache.updateTarget(target, lints)` call forwarded to a crate's cache. */
  datatype CacheUpdate = CacheUpdate(target: Target, lints: map<Path, seq<Diagnostic>>)

  /** A crate: its root, the name of its terminal, its lint flag and cache log. */
  datatype Crate = Crate(root: Path, terminalName: string, hasBeenLintedOnce: bool, lintLog: seq<CacheUpdate>)

  /** `new Crate(root, dia)`: a terminal named after the root's last segment, nothing linted. */
  function NewCrate(root: Path): (c: Crate)
    ensures c.root == root && !c.hasBeenLintedOnce && c.lintLog == []
    ensures c.terminalName == "Rust: " + Basename(root)
  {
    Crate(root, "Rust: " + Basename(root), false, [])
  }

  /**
   * The crate table after `updateTarget(target, lints)`, where `mainTarget`
   * is what `findTarget(crate.root, false)` returns.
   */
  function UpdatedCrates(crates: map<Path, Crate>, target: Target, lints: map<Path, seq<Diagnostic>>,
                         mainTarget: Option<Target>): (r: map<Path, Crate>)
    ensures r.Keys == crates.Keys + {target.crateRoot}
    ensures forall k :: k in crates && k != target.crateRoot ==> r[k] == crates[k]
    ensures target.crateRoot !in crates ==>
              r[target.crateRoot].(hasBeenLintedOnce := false) ==
              NewCrate(target.crateRoot).(lintLog := [CacheUpdate(target, lints)])
    ensures target.crateRoot in crates ==>
              r[target.crateRoot].root == crates[target.crateRoot].root &&
              r[target.crateRoot].terminalName == crates[target.crateRoot].terminalName &&
              r[target.crateRoot].lintLog == crates[target.crateRoot].lintLog + [CacheUpdate(target, lints)]
    ensures r[target.crateRoot].hasBeenLintedOnce <==>
              (target.crateRoot in crates && crates[target.crateRoot].hasBeenLintedOnce) ||
              mainTarget == Some(target)
  {
    var root := target.crateRoot;
    var crate := if root in crates then crates[root] else NewCrate(root);
    var logged := crate.(lintLog := crate.lintLog + [CacheUpdate(target, lints)]);
    var flagged := if !logged.hasBeenLintedOnce && mainTarget == Some(target)
                   then logged.(hasBeenLintedOnce := true) else logged;
    crates[root := flagged]
  }

  /** A crate that has been linted once stays so through any update. */
  lemma LintedFlagNeverReverts(crates: map<Path, Crate>, target: Target, lints: map<Path, seq<Diagnostic>>,
                               mainTarget: Option<Target>, root: Path)
    requires root in crates && crates[root].hasBeenLintedOnce
    ensures UpdatedCrates(crates, target, lints, mainTarget)[root].hasBeenLintedOnce
  {
  }

  /** The files, in order, that `clearLints(crateRoot)` keeps. */
  function OutsideRoot(files: seq<Path>, crateRoot: Path): (r: seq<Path>)
    ensures forall f :: f in r <==> f in files && !UnderRoot(f, crateRoot)
    ensures |r| <= |files|
  {
    if files == [] then []
    else
      var last := files[|files| - 1];
      OutsideRoot(files[..|files| - 1], crateRoot) + (if UnderRoot(last, crateRoot) then [] else [last])
  }

  /** Every file inside the crate's directory is cleared with it. */
  lemma FilesInCrateAreCleared(files: seq<Path>, crateRoot: Path, f: Path)
    requires crateRoot <= f
    ensures f !in OutsideRoot(files, crateRoot)
  {
    RenderPrefix(crateRoot, f);
  }

  /**
   * The prefix test is on strings, so clearing "/a/b" also clears the lints
   * of a sibling directory "/a/bc".
   */
  lemma SiblingDirectoryIsCleared()
    ensures UnderRoot(["a", "bc", "x.rs"], ["a", "b"])
    ensures !(["a", "b"] <= ["a", "bc", "x.rs"])
  {
    assert Render(["a", "bc", "x.rs"]) == "/a/bc/x.rs" by {
      assert Joined(["a", "bc"]) == "a/bc" by {
        assert ["a", "bc"][..1] == ["a"];
      }
      assert ["a", "bc", "x.rs"][..2] == ["a", "bc"];
    }
    assert Render(["a", "b"]) == "/a/b" by {
      assert ["a", "b"][..1] == ["a"];
    }
  }

  lemma WithoutMiddle(a: seq<Path>, x: Path, b: seq<Path>)
    requires x !in a && x !in b
    ensures Without(a + [x] + b, x) == a + b
  {
    var w := Without([x], x);
    assert w == [] by {
      assert [x][1..] == [];
    }
    WithoutAppend(a, [x], x);
    assert Without(a + [x], x) == a;
    WithoutAppend(a + [x], b, x);
  }

  class CrateManager {
    var crates: map<Path, Crate>
    const dia: DiagnosticCollection

    constructor (dia: DiagnosticCollection)
      ensures crates == map[] && this.dia == dia
    {
      crates := map[];
      this.dia := dia;
    }

    /**
     * `addCrate(root)`. `alreadyAdded` is the exception thrown for a root
     * that is already in the table; then nothing changes.
     */
    method AddCrate(root: Path) returns (alreadyAdded: bool)
      modifies this
      ensures alreadyAdded <==> root in old(crates)
      ensures alreadyAdded ==> crates == old(crates)
      ensures !alreadyAdded ==> crates == old(crates)[root := NewCrate(root)]
    {
      if root in crates {
        return true;
      }
      crates := crates[root := NewCrate(root)];
      return false;
    }

    /** `updateTarget(target, lints)`; `mainTarget` is the crate's main target. */
    method UpdateTarget(target: Target, lints: map<Path, seq<Diagnostic>>, mainTarget: Option<Target>)
      modifies this
      ensures crates == UpdatedCrates(old(crates), target, lints, mainTarget)
    {
      if target.crateRoot !in crates {
        var _ := AddCrate(target.crateRoot);
      }
      var crate := crates[target.crateRoot];
      crate := crate.(lintLog := crate.lintLog + [CacheUpdate(target, lints)]);
      if !crate.hasBeenLintedOnce {
        if mainTarget == Some(target) {
          crate := crate.(hasBeenLintedOnce := true);
        }
      }
      crates := crates[target.crateRoot := crate];
    }

    /** `hasLintsForTarget`; `cacheHasTarget` is the crate cache's `hasTarget`. */
    function HasLintsForTarget(target: Target, cacheHasTarget: (Crate, Target) -> bool): (r: bool)
      reads this
      ensures target.crateRoot !in crates ==> !r
      ensures target.crateRoot in crates ==> (r <==> cacheHasTarget(crates[target.crateRoot], target))
    {
      target.crateRoot in crates && cacheHasTarget(crates[target.crateRoot], target)
    }

    /**
     * `hasLintsForFile`: the file's crate is found by walking up from it;
     * `cacheHasFile` is the crate cache's `hasFile`. With no manifest on the
     * way up the walk, and so the call, never returns.
     */
    function HasLintsForFile(filePath: Path, fs: set<Path>, cacheHasFile: (Crate, Path) -> bool): (r: Ends<bool>)
      reads this
      ensures r.Hangs? <==> CrateRoot(filePath, fs).None?
      ensures r.Returns? ==>
                (r.value <==> CrateRoot(filePath, fs).value in crates &&
                              cacheHasFile(crates[CrateRoot(filePath, fs).value], filePath))
    {
      match CrateSearch(filePath, fs)
      case Hangs => Hangs
      case Returns(root) => Returns(root in crates && cacheHasFile(crates[root], filePath))
    }

    /** `hasCrateBeenLinted`. */
    function HasCrateBeenLinted(crateRoot: Path): (r: bool)
      reads this
      ensures r <==> crateRoot in crates && crates[crateRoot].hasBeenLintedOnce
    {
      crateRoot in crates && crates[crateRoot].hasBeenLintedOnce
    }

    /** `getTerminal`: the crate is created if missing; its terminal's name is returned. */
    method GetTerminal(crateRoot: Path) returns (terminalName: string)
      modifies this
      ensures crateRoot in crates
      ensures crates == if crateRoot in old(crates) then old(crates) else old(crates)[crateRoot := NewCrate(crateRoot)]
      ensures terminalName == crates[crateRoot].terminalName
    {
      if crateRoot !in crates {
        var _ := AddCrate(crateRoot);
      }
      terminalName := crates[crateRoot].terminalName;
    }

    /**
     * `clearLints(crateRoot)`: for a known crate, every entry of the
     * collection whose path string starts with the root's string is deleted.
     */
    method ClearLints(crateRoot: Path)
      requires dia.Valid()
      modifies dia
      ensures dia.Valid()
      ensures crateRoot !in crates ==> dia.files == old(dia.files) && dia.entries == old(dia.entries)
      ensures crateRoot in crates ==>
                dia.entries == old(dia.entries) - (set f | f in old(dia.entries) && UnderRoot(f, crateRoot)) &&
                dia.files == OutsideRoot(old(dia.files), crateRoot)
    {
      if crateRoot !in crates {
        return;
      }
      ClearedAll(dia.entries, dia.files, crateRoot);
      DeleteUnderRoot(dia, crateRoot);
    }

    /** `dispose()`: every crate's terminal is closed and the table emptied. */
    method Dispose()
      modifies this
      ensures crates == map[]
    {
      crates := map[];
    }
  }

  /** The collection's files once the first `i` files of the snapshot were visited. */
  function ClearedFiles(snapshot: seq<Path>, i: nat, crateRoot: Path): seq<Path>
    requires i <= |snapshot|
  {
    OutsideRoot(snapshot[..i], crateRoot) + snapshot[i..]
  }

  /** The collection's entries once the first `i` files of the snapshot were visited. */
  function ClearedEntries(entries0: map<Path, seq<Diagnostic>>, snapshot: seq<Path>, i: nat, crateRoot: Path)
    : map<Path, seq<Diagnostic>>
    requires i <= |snapshot|
  {
    entries0 - (set f | f in snapshot[..i] && UnderRoot(f, crateRoot))
  }

  ghost predicate ClearedUpTo(snapshot: seq<Path>, i: nat, crateRoot: Path, dia: DiagnosticCollection,
                              entries0: map<Path, seq<Diagnostic>>)
    reads dia
  {
    i <= |snapshot| && Distinct(snapshot) &&
    dia.files == ClearedFiles(snapshot, i, crateRoot) &&
    dia.entries == ClearedEntries(entries0, snapshot, i, crateRoot)
  }

  lemma ClearedFilesStep(snapshot: seq<Path>, i: nat, crateRoot: Path)
    requires i < |snapshot| && Distinct(snapshot)
    ensures ClearedFiles(snapshot, i + 1, crateRoot) ==
            if UnderRoot(snapshot[i], crateRoot) then Without(ClearedFiles(snapshot, i, crateRoot), snapshot[i])
            else ClearedFiles(snapshot, i, crateRoot)
  {
    var f, rest := snapshot[i], snapshot[i + 1..];
    var done := OutsideRoot(snapshot[..i], crateRoot);
    assert snapshot[i..] == [f] + rest;
    assert ClearedFiles(snapshot, i, crateRoot) == done + [f] + rest;
    OutsideRootStep(snapshot, i, crateRoot);
    if UnderRoot(f, crateRoot) {
      assert ClearedFiles(snapshot, i + 1, crateRoot) == done + rest;
      DistinctSplit(snapshot, i);
      assert f !in done;
      WithoutMiddle(done, f, rest);
    } else {
      assert ClearedFiles(snapshot, i + 1, crateRoot) == done + [f] + rest;
    }
  }

  /** Visiting the next file of the snapshot keeps it when it lies outside the crate. */
  lemma OutsideRootStep(snapshot: seq<Path>, i: nat, crateRoot: Path)
    requires i < |snapshot|
    ensures OutsideRoot(snapshot[..i + 1], crateRoot) ==
            OutsideRoot(snapshot[..i], crateRoot) + (if UnderRoot(snapshot[i], crateRoot) then [] else [snapshot[i]])
  {
    assert snapshot[..i + 1][..i] == snapshot[..i];
  }

  lemma ClearedEntriesStep(entries0: map<Path, seq<Diagnostic>>, snapshot: seq<Path>, i: nat, crateRoot: Path)
    requires i < |snapshot|
    ensures ClearedEntries(entries0, snapshot, i + 1, crateRoot) ==
            if UnderRoot(snapshot[i], crateRoot) then ClearedEntries(entries0, snapshot, i, crateRoot) - {snapshot[i]}
            else ClearedEntries(entries0, snapshot, i, crateRoot)
  {
    assert snapshot[..i + 1] == snapshot[..i] + [snapshot[i]];
  }

  lemma ClearedAll(entries0: map<Path, seq<Diagnostic>>, snapshot: seq<Path>, crateRoot: Path)
    requires forall f :: f in entries0 <==> f in snapshot
    ensures ClearedFiles(snapshot, |snapshot|, crateRoot) == OutsideRoot(snapshot, crateRoot)
    ensures ClearedEntries(entries0, snapshot, |snapshot|, crateRoot) ==
            entries0 - (set f | f in entries0 && UnderRoot(f, crateRoot))
  {
    assert snapshot[..|snapshot|] == snapshot;
    assert snapshot[|snapshot|..] == [];
    assert OutsideRoot(snapshot, crateRoot) + [] == OutsideRoot(snapshot, crateRoot);
    assert (set f | f in snapshot && UnderRoot(f, crateRoot)) == (set f | f in entries0 && UnderRoot(f, crateRoot));
  }

  /** The `forEach` of `clearLints`: every file whose path string starts with the root's is deleted. */
  method DeleteUnderRoot(dia: DiagnosticCollection, crateRoot: Path)
    requires dia.Valid()
    modifies dia
    ensures dia.Valid()
    ensures dia.files == ClearedFiles(old(dia.files), |old(dia.files)|, crateRoot)
    ensures dia.entries == ClearedEntries(old(dia.entries), old(dia.files), |old(dia.files)|, crateRoot)
  {
    var snapshot := dia.files;
    ghost var entries0 := dia.entries;
    for i := 0 to |snapshot|
      invariant dia.Valid()
      invariant ClearedUpTo(snapshot, i, crateRoot, dia, entries0)
    {
      ClearNext(snapshot, i, crateRoot, dia, entries0);
    }
  }

  /** One step of the `forEach` in `clearLints`. */
  method ClearNext(snapshot: seq<Path>, i: nat, crateRoot: Path, dia: DiagnosticCollection,
                   ghost entries0: map<Path, seq<Diagnostic>>)
    requires i < |snapshot|
    requires dia.Valid() && ClearedUpTo(snapshot, i, crateRoot, dia, entries0)
    modifies dia
    ensures dia.Valid() && ClearedUpTo(snapshot, i + 1, crateRoot, dia, entries0)
  {
    var f := snapshot[i];
    ClearedFilesStep(snapshot, i, crateRoot);
    ClearedEntriesStep(entries0, snapshot, i, crateRoot);
    if UnderRoot(f, crateRoot) {
      dia.Delete(f);
    }
  }

  lemma DistinctSplit(s: seq<Path>, i: nat)
    requires i < |s| && Distinct(s)
    ensures s[i] !in s[..i] && s[i] !in s[i + 1..]
  {
    var before, after := s[..i], s[i + 1..];
    assert forall k :: 0 <= k < |before| ==> before[k] == s[k];
    assert forall k :: 0 <= k < |after| ==> after[k] == s[i + 1 + k];
  }
}
