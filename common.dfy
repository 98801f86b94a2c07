/**
 * The walk up the directory tree that finds the crate a source file belongs
 * to: the nearest directory, starting at the file's own directory, that
 * holds a manifest file.
 *
 * The file system is a parameter `fs`, the set of paths that exist.
 */
module Common {
  import opened Wrappers
  import opened Paths

  const Manifest := "Cargo.toml"

  /**
   * The walk as it is meant to behave: probe `dir`, then each of its
   * ancestors, and give up after probing the root.
   */
  function CrateRootFrom(dir: Path, fs: set<Path>, manifest: string): (r: Option<Path>)
    decreases |dir|
  {
    if dir + [manifest] in fs then Some(dir)
    else if dir == [] then None
    else CrateRootFrom(Dirname(dir), fs, manifest)
  }

  /** `findCrateRoot` of common.ts: the walk starts at the file's directory. */
  function CrateRoot(file: Path, fs: set<Path>): Option<Path>
  {
    CrateRootFrom(Dirname(file), fs, Manifest)
  }

  /** A root found is an ancestor of the start (or the start) and holds the manifest. */
  lemma {:induction false} CrateRootHoldsManifest(dir: Path, fs: set<Path>, manifest: string)
    ensures var r := CrateRootFrom(dir, fs, manifest);
            r.Some? ==> r.value <= dir && r.value + [manifest] in fs
    decreases |dir|
  {
    if dir + [manifest] !in fs && dir != [] {
      CrateRootHoldsManifest(Dirname(dir), fs, manifest);
    }
  }

  /** No directory between the start and the root found holds a manifest. */
  lemma {:induction false} CrateRootIsNearest(dir: Path, fs: set<Path>, manifest: string)
    ensures var r := CrateRootFrom(dir, fs, manifest);
            r.Some? ==> forall k :: |r.value| < k <= |dir| ==> dir[..k] + [manifest] !in fs
    decreases |dir|
  {
    var r := CrateRootFrom(dir, fs, manifest);
    if dir + [manifest] !in fs && dir != [] {
      var up := Dirname(dir);
      CrateRootIsNearest(up, fs, manifest);
      CrateRootHoldsManifest(up, fs, manifest);
      if r.Some? {
        forall k | |r.value| < k <= |dir|
          ensures dir[..k] + [manifest] !in fs
        {
          if k == |dir| {
            assert dir[..k] == dir;
          } else {
            assert dir[..k] == up[..k];
          }
        }
      }
    }
  }

  /** The walk finds nothing exactly when no ancestor (nor the start) holds a manifest. */
  lemma {:induction false} NoCrateRootIff(dir: Path, fs: set<Path>, manifest: string)
    ensures CrateRootFrom(dir, fs, manifest).None? <==>
            forall k :: 0 <= k <= |dir| ==> dir[..k] + [manifest] !in fs
    decreases |dir|
  {
    if dir + [manifest] in fs {
      assert dir[..|dir|] == dir;
    } else if dir == [] {
      forall k | 0 <= k <= |dir| ensures dir[..k] + [manifest] !in fs {
        assert dir[..k] == dir;
      }
    } else {
      var up := Dirname(dir);
      NoCrateRootIff(up, fs, manifest);
      assert forall k :: 0 <= k <= |up| ==> dir[..k] == up[..k];
      assert dir[..|dir|] == dir;
    }
  }

  /**
   * The loop of `findCrateRoot` as it is meant to behave, starting at
   * `start` and probing for `manifest`: it stops after the root has been
   * probed.
   */
  method FindCrateRootFrom(start: Path, fs: set<Path>, manifest: string) returns (r: Option<Path>)
    ensures r == CrateRootFrom(start, fs, manifest)
  {
    var dir := start;
    while true
      invariant CrateRootFrom(dir, fs, manifest) == CrateRootFrom(start, fs, manifest)
      decreases |dir|
    {
      if dir + [manifest] in fs {
        return Some(dir);
      }
      if dir == [] {
        return None;
      }
      dir := Dirname(dir);
    }
  }

  /** How a call that runs the walk as written ends: it returns `value`, or it never returns. */
  datatype Ends<+T> = Returns(value: T) | Hangs

  /** How an event handler's run ends: it returns, it throws, or it never returns. */
  datatype Outcome = Completed | Thrown | Spinning

  /**
   * What the walk as written does from `dir`: it returns the nearest
   * directory holding `manifest`, or, when there is none, it never returns.
   */
  function SearchFrom(dir: Path, fs: set<Path>, manifest: string): Ends<Path>
  {
    match CrateRootFrom(dir, fs, manifest)
    case Some(root) => Returns(root)
    case None => Hangs
  }

  /** `findCrateRoot` of common.ts as written, for a file. */
  function CrateSearch(file: Path, fs: set<Path>): Ends<Path>
  {
    SearchFrom(Dirname(file), fs, Manifest)
  }

  /**
   * `SearchFrom` is the loop as written: it hangs exactly when the loop is
   * still running after any number of iterations, and otherwise returns
   * the root the loop returns.
   */
  lemma SearchFromIsTheWalk(dir: Path, fs: set<Path>, manifest: string)
    ensures SearchFrom(dir, fs, manifest).Hangs? <==>
            forall steps: nat :: WalkAsWritten(dir, fs, manifest, steps).Walking?
    ensures SearchFrom(dir, fs, manifest).Returns? ==>
            WalkAsWritten(dir, fs, manifest, |dir| + 1) == Found(SearchFrom(dir, fs, manifest).value)
  {
    if CrateRootFrom(dir, fs, manifest).None? {
      forall steps: nat ensures WalkAsWritten(dir, fs, manifest, steps).Walking? {
        WalkAsWrittenSpins(dir, fs, manifest, steps);
      }
    } else {
      WalkAsWrittenAgrees(dir, fs, manifest, |dir| + 1);
    }
  }

  /**
   * The `while (dir != "")` loop as written, from `start`. Its test always
   * holds (a path's string is never empty), so the loop is `while true`
   * here; once `dir` is the root, whose parent is the root again, each
   * further iteration repeats the last one and the call never returns.
   */
  method SearchCrateRootFrom(start: Path, fs: set<Path>, manifest: string) returns (r: Ends<Path>)
    ensures r == SearchFrom(start, fs, manifest)
  {
    var dir := start;
    while true
      invariant CrateRootFrom(dir, fs, manifest) == CrateRootFrom(start, fs, manifest)
      decreases |dir|
    {
      if dir + [manifest] in fs {
        return Returns(dir);
      }
      var up := Dirname(dir);
      if up == dir {
        return Hangs;
      }
      dir := up;
    }
  }

  /** `findCrateRoot` of common.ts: the loop as written from the file's directory. */
  method FindCrateRoot(memberFilePath: Path, fs: set<Path>) returns (r: Ends<Path>)
    ensures r == CrateSearch(memberFilePath, fs)
    ensures r.Returns? ==> r.value <= Dirname(memberFilePath) && r.value + [Manifest] in fs
  {
    r := SearchCrateRootFrom(Dirname(memberFilePath), fs, Manifest);
    CrateRootHoldsManifest(Dirname(memberFilePath), fs, Manifest);
  }

  /**
   * The state of the loop as written after some iterations: it has returned
   * a root, returned `null`, or is still walking at `dir`.
   */
  datatype Walk = Found(root: Path) | GaveUp | Walking(dir: Path)

  /**
   * The loop as written: it runs while the directory string is not empty,
   * and the parent of the root is the root again. `steps` bounds the number
   * of iterations looked at.
   */
  function WalkAsWritten(dir: Path, fs: set<Path>, manifest: string, steps: nat): Walk
    decreases steps
  {
    if steps == 0 then Walking(dir)
    else if Render(dir) == "" then GaveUp
    else if dir + [manifest] in fs then Found(dir)
    else WalkAsWritten(Dirname(dir), fs, manifest, steps - 1)
  }

  /** The loop as written never gives up: a path's string is never empty. */
  lemma {:induction false} WalkAsWrittenNeverGivesUp(dir: Path, fs: set<Path>, manifest: string, steps: nat)
    ensures !WalkAsWritten(dir, fs, manifest, steps).GaveUp?
    decreases steps
  {
    if steps > 0 && dir + [manifest] !in fs {
      WalkAsWrittenNeverGivesUp(Dirname(dir), fs, manifest, steps - 1);
    }
  }

  /**
   * With no manifest on the way up, the loop as written is still walking
   * after any number of iterations.
   */
  lemma {:induction false} WalkAsWrittenSpins(dir: Path, fs: set<Path>, manifest: string, steps: nat)
    requires CrateRootFrom(dir, fs, manifest).None?
    ensures WalkAsWritten(dir, fs, manifest, steps).Walking?
    decreases steps
  {
    if steps > 0 {
      assert dir + [manifest] !in fs;
      WalkAsWrittenSpins(Dirname(dir), fs, manifest, steps - 1);
    }
  }

  /** A file at the top of a file system without manifests: the loop never returns. */
  lemma WalkAsWrittenCounterexample(steps: nat)
    ensures CrateRoot(["main.rs"], {}).None?
    ensures WalkAsWritten(Dirname(["main.rs"]), {}, Manifest, steps) == Walking([])
  {
    WalkAsWrittenRootLoops({}, steps);
  }

  lemma {:induction false} WalkAsWrittenRootLoops(fs: set<Path>, steps: nat)
    requires [Manifest] !in fs
    ensures WalkAsWritten([], fs, Manifest, steps) == Walking([])
    decreases steps
  {
    if steps > 0 {
      assert [] + [Manifest] == [Manifest];
      WalkAsWrittenRootLoops(fs, steps - 1);
    }
  }

  /** Where a manifest exists, both walks return the same root. */
  lemma {:induction false} WalkAsWrittenAgrees(dir: Path, fs: set<Path>, manifest: string, steps: nat)
    requires CrateRootFrom(dir, fs, manifest).Some?
    requires steps > |dir|
    ensures WalkAsWritten(dir, fs, manifest, steps) == Found(CrateRootFrom(dir, fs, manifest).value)
    decreases steps
  {
    if dir + [manifest] !in fs {
      WalkAsWrittenAgrees(Dirname(dir), fs, manifest, steps - 1);
    }
  }
}
