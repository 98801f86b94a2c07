/**
 * src/lintStatus.ts: the status bar that shows the current file's and the
 * current crate's error and warning counts, keeps the crate's lints
 * (errors first, then warnings) and steps through them.
 *
 * Strings `""` that the source uses for "no crate yet" and "no file yet"
 * are `None` here: no path renders as the empty string.
 */
module LintStatus {
  import opened Wrappers
  import opened Paths
  import opened Text
  import opened Diagnostics
  import opened Common
  import opened FilePicks
  import opened PickOrder

  /** A lint of the crate and the file it is in. */
  datatype LintSource = LintSource(diagnostic: Diagnostic, filePath: Path)

  /** The crate's lints; `root == None` is the initial `""` root. */
  datatype CrateLints = CrateLints(root: Option<Path>, lints: seq<LintSource>, errors: nat, warnings: nat)

  /** The lints with severity `sev` of one file, in order. */
  function SourcesIn(f: Path, ds: seq<Diagnostic>, sev: Severity): seq<LintSource>
  {
    if ds == [] then []
    else
      var last := ds[|ds| - 1];
      SourcesIn(f, ds[..|ds| - 1], sev) + (if last.severity == sev then [LintSource(last, f)] else [])
  }

  /** The lints with severity `sev` of every file under `root`, in the collection's order. */
  function CrateSources(files: seq<Path>, entries: map<Path, seq<Diagnostic>>, root: Path, sev: Severity)
    : seq<LintSource>
    requires forall f :: f in files ==> f in entries
  {
    if files == [] then []
    else
      var last := files[|files| - 1];
      CrateSources(files[..|files| - 1], entries, root, sev) +
        (if UnderRoot(last, root) then SourcesIn(last, entries[last], sev) else [])
  }

  /** A file contributes as many lints as it has diagnostics of that severity. */
  lemma {:induction false} SourcesInCount(f: Path, ds: seq<Diagnostic>, sev: Severity)
    ensures |SourcesIn(f, ds, sev)| == Count(ds, sev)
  {
    if ds != [] {
      SourcesInCount(f, ds[..|ds| - 1], sev);
    }
  }

  lemma {:induction false} SourcesInExact(f: Path, ds: seq<Diagnostic>, sev: Severity, src: LintSource)
    ensures src in SourcesIn(f, ds, sev) <==>
            src.filePath == f && src.diagnostic in ds && src.diagnostic.severity == sev
  {
    if ds != [] {
      var init := ds[..|ds| - 1];
      SourcesInExact(f, init, sev, src);
      assert ds == init + [ds[|ds| - 1]];
    }
  }

  /**
   * The crate's lints of one severity are exactly the diagnostics of that
   * severity in the files whose path string starts with the root's.
   */
  lemma {:induction false} CrateSourcesExact(files: seq<Path>, entries: map<Path, seq<Diagnostic>>, root: Path,
                                             sev: Severity, src: LintSource)
    requires forall f :: f in files ==> f in entries
    ensures src in CrateSources(files, entries, root, sev) <==>
            src.filePath in files && UnderRoot(src.filePath, root) &&
            src.diagnostic in entries[src.filePath] && src.diagnostic.severity == sev
  {
    if files != [] {
      var init, last := files[..|files| - 1], files[|files| - 1];
      CrateSourcesExact(init, entries, root, sev, src);
      SourcesInExact(last, entries[last], sev, src);
      assert files == init + [last];
    }
  }

  /** The crate record `updateCrateLints` builds for the crate at `root`. */
  function CrateLintsAt(files: seq<Path>, entries: map<Path, seq<Diagnostic>>, root: Path): (c: CrateLints)
    requires forall f :: f in files ==> f in entries
    ensures |c.lints| == c.errors + c.warnings
  {
    var errs := CrateSources(files, entries, root, Error);
    var warns := CrateSources(files, entries, root, Warning);
    CrateLints(Some(root), errs + warns, |errs|, |warns|)
  }

  /** The literals of the bar text, around its four numbers. */
  const StatusLits := ["$(circle-slash) ", "/", " $(alert) ", "/"]

  /** The bar text: `"$(circle-slash) e/E $(alert) w/W"`. */
  function StatusText(errors: nat, crateErrors: nat, warnings: nat, crateWarnings: nat): string
  {
    Interleave(StatusLits, [NatToString(errors), NatToString(crateErrors), NatToString(warnings), NatToString(crateWarnings)])
  }

  /** Reads the four counts back from a bar text. */
  function ParseStatusText(t: string): Option<(nat, nat, nat, nat)>
  {
    match ReadFields(t, StatusLits)
    case None => None
    case Some(ns) => Some((ns[0], ns[1], ns[2], ns[3]))
  }

  /** The bar text gives back the four counts it shows. */
  lemma StatusTextReadsBack(errors: nat, crateErrors: nat, warnings: nat, crateWarnings: nat)
    ensures ParseStatusText(StatusText(errors, crateErrors, warnings, crateWarnings)) ==
            Some((errors, crateErrors, warnings, crateWarnings))
  {
    var ds := [NatToString(errors), NatToString(crateErrors), NatToString(warnings), NatToString(crateWarnings)];
    assert Separated(StatusLits) by {
      assert StatusLits[1][0] == '/' && StatusLits[2][0] == ' ' && StatusLits[3][0] == '/';
    }
    ReadInterleaved(StatusLits, ds);
    ParseNatToString(errors);
    ParseNatToString(crateErrors);
    ParseNatToString(warnings);
    ParseNatToString(crateWarnings);
  }

  /** The index `gotoNextCrateLint` computes as written: `current + 1 % length`. */
  function NextLintIndexAsWritten(current: int, length: nat): int
    requires length > 0
  {
    current + 1 % length
  }

  /**
   * As written, with two or more lints a step from the last lint, or from
   * beyond it, lands beyond the list, where `lints[index]` is `undefined`
   * and reading its `filePath` throws; with one lint the index stays put.
   */
  lemma NextLintIndexAsWrittenLeavesList(current: int, length: nat)
    requires length > 0
    ensures length > 1 && current >= length - 1 ==> NextLintIndexAsWritten(current, length) >= length
    ensures length > 1 ==> NextLintIndexAsWritten(current, length) == current + 1
    ensures length == 1 ==> NextLintIndexAsWritten(current, length) == current
  {
  }

  /** The index with the evidently intended grouping: `(current + 1) % length`. */
  function NextLintIndex(current: int, length: nat): (r: int)
    requires length > 0 && current >= -1
    ensures 0 <= r < length
    ensures current < length - 1 ==> r == current + 1
    ensures current == length - 1 ==> r == 0
  {
    (current + 1) % length
  }

  /**
   * Stepping `k` times from the last lint, for `k` from 1 to the number of
   * lints, visits lint `k - 1`: every lint in turn, then the last again.
   */
  lemma {:induction false} NextLintIndexCycles(length: nat, k: nat)
    requires 0 < k <= length
    ensures StepsFrom(length - 1, length, k) == k - 1
  {
    if k > 1 {
      NextLintIndexCycles(length, k - 1);
    }
  }

  /** The index after `k` steps from `start`. */
  function StepsFrom(start: int, length: nat, k: nat): (r: int)
    requires length > 0 && -1 <= start < length
    ensures k > 0 ==> 0 <= r < length
  {
    if k == 0 then start else NextLintIndex(StepsFrom(start, length, k - 1), length)
  }

  /** The `dia.forEach` of `updateCrateLints`: the errors and the warnings of the crate at `root`. */
  method CollectCrateLints(dia: DiagnosticCollection, root: Path)
    returns (errors: seq<LintSource>, warnings: seq<LintSource>, errorCount: nat, warningCount: nat)
    requires dia.Valid()
    ensures errors == CrateSources(dia.files, dia.entries, root, Error) && errorCount == |errors|
    ensures warnings == CrateSources(dia.files, dia.entries, root, Warning) && warningCount == |warnings|
  {
    var files := dia.files;
    errors, warnings, errorCount, warningCount := [], [], 0, 0;
    for i := 0 to |files|
      invariant errors == CrateSources(files[..i], dia.entries, root, Error) && errorCount == |errors|
      invariant warnings == CrateSources(files[..i], dia.entries, root, Warning) && warningCount == |warnings|
    {
      assert files[..i + 1][..i] == files[..i];
      var f := files[i];
      if UnderRoot(f, root) {
        errors, warnings, errorCount, warningCount :=
          CollectFileLints(f, dia.entries[f], errors, warnings, errorCount, warningCount);
      }
    }
    assert files[..|files|] == files;
  }

  /** The inner `diagnostics.forEach` of `updateCrateLints`, for one file. */
  method CollectFileLints(f: Path, ds: seq<Diagnostic>, errors0: seq<LintSource>, warnings0: seq<LintSource>,
                          errorCount0: nat, warningCount0: nat)
    returns (errors: seq<LintSource>, warnings: seq<LintSource>, errorCount: nat, warningCount: nat)
    requires errorCount0 == |errors0| && warningCount0 == |warnings0|
    ensures errors == errors0 + SourcesIn(f, ds, Error) && errorCount == |errors|
    ensures warnings == warnings0 + SourcesIn(f, ds, Warning) && warningCount == |warnings|
  {
    errors, warnings, errorCount, warningCount := errors0, warnings0, errorCount0, warningCount0;
    for j := 0 to |ds|
      invariant errors == errors0 + SourcesIn(f, ds[..j], Error) && errorCount == |errors|
      invariant warnings == warnings0 + SourcesIn(f, ds[..j], Warning) && warningCount == |warnings|
    {
      assert ds[..j + 1][..j] == ds[..j];
      var diagnostic := ds[j];
      if diagnostic.severity == Error {
        errorCount := errorCount + 1;
        errors := errors + [LintSource(diagnostic, f)];
      } else if diagnostic.severity == Warning {
        warningCount := warningCount + 1;
        warnings := warnings + [LintSource(diagnostic, f)];
      }
    }
    assert ds[..|ds|] == ds;
  }

  class LintStatusBar {
    var crate: CrateLints
    var currentShownLintIndex: int
    var errors: nat
    var warnings: nat
    /** `None` is the initial `""`. */
    var currentFilePath: Option<Path>
    /** The bar item's text. */
    var text: string
    const dia: DiagnosticCollection

    /**
     * The crate's lints are its errors and its warnings, and whenever there
     * is a lint the shown index is not before the first. (Stepping as
     * written can leave it beyond the last.)
     */
    ghost predicate Valid()
      reads this, dia
    {
      && dia.Valid()
      && |crate.lints| == crate.errors + crate.warnings
      && -1 <= currentShownLintIndex
      && (|crate.lints| > 0 ==> 0 <= currentShownLintIndex)
    }

    /**
     * The constructor: with no active editor nothing is counted and the text
     * shows zeros; with one, its file is made current and its crate counted.
     * For an active file with no crate the walk never returns: the last
     * ensures gives the state in which the walk starts.
     */
    constructor (dia: DiagnosticCollection, activeFile: Option<Path>, fs: set<Path>)
      requires dia.Valid()
      ensures Valid() && this.dia == dia
      ensures activeFile.None? ==>
                && crate == CrateLints(None, [], 0, 0) && currentShownLintIndex == 0
                && errors == 0 && warnings == 0 && currentFilePath == None
                && text == StatusText(0, 0, 0, 0)
      ensures activeFile.Some? && CrateRoot(activeFile.value, fs).Some? ==>
                currentFilePath == activeFile && Refreshed(activeFile.value, fs)
      ensures activeFile.Some? && CrateRoot(activeFile.value, fs).None? ==>
                && currentFilePath == activeFile && crate == CrateLints(None, [], 0, 0)
                && currentShownLintIndex == 0 && errors == 0 && warnings == 0 && text == ""
    {
      currentShownLintIndex := 0;
      errors := 0;
      warnings := 0;
      this.dia := dia;
      currentFilePath := None;
      crate := CrateLints(None, [], 0, 0);
      text := "";
      new;
      if activeFile.Some? {
        var _ := UpdateCurrentFile(activeFile.value, fs);
      } else {
        UpdateText();
      }
    }

    /** `updateText`. */
    method UpdateText()
      modifies this
      ensures text == StatusText(errors, crate.errors, warnings, crate.warnings)
      ensures crate == old(crate) && currentShownLintIndex == old(currentShownLintIndex)
      ensures errors == old(errors) && warnings == old(warnings) && currentFilePath == old(currentFilePath)
    {
      text := StatusText(errors, crate.errors, warnings, crate.warnings);
    }

    /**
     * `updateCrateLints(filePath)`. `hangs`: the file has no crate root, so
     * the walk never returns; only the current file has changed by then.
     */
    method UpdateCrateLints(filePath: Path, fs: set<Path>) returns (hangs: bool)
      requires Valid()
      modifies this
      ensures Valid()
      ensures currentFilePath == Some(filePath)
      ensures hangs <==> CrateRoot(filePath, fs).None?
      ensures hangs ==> crate == old(crate) && currentShownLintIndex == old(currentShownLintIndex) &&
                        errors == old(errors) && warnings == old(warnings) && text == old(text)
      ensures !hangs ==> Refreshed(filePath, fs)
      decreases 3
    {
      currentFilePath := Some(filePath);
      var crateRoot := FindCrateRoot(filePath, fs);
      if crateRoot.Hangs? {
        return true;
      }
      var errs, warns, errorCount, warningCount := CollectCrateLints(dia, crateRoot.value);
      crate := CrateLints(Some(crateRoot.value), errs + warns, errorCount, warningCount);
      currentShownLintIndex := |crate.lints| - 1;
      hangs := UpdateCurrentFile(filePath, fs);
    }

    /**
     * The state after the crate of `filePath` has been recounted: its lints,
     * the index at the last lint, the file's counts and the text.
     */
    ghost predicate Refreshed(filePath: Path, fs: set<Path>)
      reads this, dia
      requires dia.Valid()
    {
      && CrateRoot(filePath, fs).Some?
      && crate == CrateLintsAt(dia.files, dia.entries, CrateRoot(filePath, fs).value)
      && currentShownLintIndex == |crate.lints| - 1
      && Counted(filePath)
    }

    /** The file's counts are the collection's, and the text shows them. */
    ghost predicate Counted(filePath: Path)
      reads this, dia
    {
      && errors == FileCount(dia.entries, filePath, Error)
      && warnings == FileCount(dia.entries, filePath, Warning)
      && text == StatusText(errors, crate.errors, warnings, crate.warnings)
    }

    /** The measure that orders the three mutually calling updates. */
    function Fresh(filePath: Path, fs: set<Path>): nat
      reads this
    {
      if CrateRoot(filePath, fs).Some? && crate.root == CrateRoot(filePath, fs) then 0 else 1
    }

    /**
     * `updateCrateLintsIfNew(filePath)`: the crate is recounted only when the
     * file's crate root differs from the current one; the text is refreshed.
     * `hangs`: the walk never returns.
     */
    method UpdateCrateLintsIfNew(filePath: Path, fs: set<Path>) returns (hangs: bool)
      requires Valid()
      modifies this
      ensures Valid()
      ensures currentFilePath == Some(filePath)
      ensures hangs <==> CrateRoot(filePath, fs).None?
      ensures hangs ==> crate == old(crate) && currentShownLintIndex == old(currentShownLintIndex) &&
                        errors == old(errors) && warnings == old(warnings) && text == old(text)
      ensures !hangs && old(crate.root) == CrateRoot(filePath, fs) ==>
                crate == old(crate) && currentShownLintIndex == old(currentShownLintIndex) &&
                errors == old(errors) && warnings == old(warnings) &&
                text == StatusText(errors, crate.errors, warnings, crate.warnings)
      ensures !hangs && old(crate.root) != CrateRoot(filePath, fs) ==> Refreshed(filePath, fs)
      decreases 1 + 3 * Fresh(filePath, fs)
    {
      currentFilePath := Some(filePath);
      var crateRoot := FindCrateRoot(filePath, fs);
      if crateRoot.Hangs? {
        return true;
      }
      if Some(crateRoot.value) != crate.root {
        hangs := UpdateCrateLints(filePath, fs);
      }
      UpdateText();
      hangs := false;
    }

    /**
     * `updateCurrentFile(filePath)`: the crate is recounted if it is new,
     * then the file's own errors and warnings are counted (0 and 0 when the
     * collection has no entry for it) and the text is refreshed.
     */
    method UpdateCurrentFile(filePath: Path, fs: set<Path>) returns (hangs: bool)
      requires Valid()
      modifies this
      ensures Valid()
      ensures currentFilePath == Some(filePath)
      ensures hangs <==> CrateRoot(filePath, fs).None?
      ensures hangs ==> crate == old(crate) && currentShownLintIndex == old(currentShownLintIndex) &&
                        errors == old(errors) && warnings == old(warnings) && text == old(text)
      ensures !hangs && old(crate.root) == CrateRoot(filePath, fs) ==>
                crate == old(crate) && currentShownLintIndex == old(currentShownLintIndex) && Counted(filePath)
      ensures !hangs && old(crate.root) != CrateRoot(filePath, fs) ==> Refreshed(filePath, fs)
      decreases 2 + 3 * Fresh(filePath, fs)
    {
      hangs := UpdateCrateLintsIfNew(filePath, fs);
      if hangs {
        return;
      }
      var diagnostics := dia.Get(filePath);
      errors := 0;
      warnings := 0;
      if diagnostics.Some? {
        errors, warnings := CountFile(diagnostics.value);
      }
      UpdateText();
    }

    /**
     * `gotoNextCrateLint` as written: nothing happens without lints;
     * otherwise the index moves to `current + 1 % length` and the lint there
     * is revealed. `threw`: the index is beyond the list, so `lint` is
     * `undefined` and reading its `filePath` throws (the index stays moved).
     */
    method GotoNextCrateLint() returns (revealed: Option<LintSource>, threw: bool)
      requires Valid()
      modifies this
      ensures Valid()
      ensures crate == old(crate) && errors == old(errors) && warnings == old(warnings)
      ensures text == old(text) && currentFilePath == old(currentFilePath)
      ensures crate.errors + crate.warnings == 0 ==>
                revealed.None? && !threw && currentShownLintIndex == old(currentShownLintIndex)
      ensures crate.errors + crate.warnings != 0 ==>
                && currentShownLintIndex == NextLintIndexAsWritten(old(currentShownLintIndex), |crate.lints|)
                && (threw <==> currentShownLintIndex >= |crate.lints|)
                && (threw ==> revealed.None?)
                && (!threw ==> revealed == Some(crate.lints[currentShownLintIndex]))
    {
      if crate.errors + crate.warnings == 0 {
        return None, false;
      }
      var index := NextLintIndexAsWritten(currentShownLintIndex, |crate.lints|);
      currentShownLintIndex := index;
      if index >= |crate.lints| {
        return None, true;
      }
      revealed, threw := Some(crate.lints[index]), false;
    }

    /**
     * `showErrorFiles`: the picks of the files under the current crate root
     * (every file while there is none), sorted, unless building them throws
     * or hangs.
     */
    method ShowErrorFiles(fs: set<Path>, rangeLess: RangeLess) returns (r: Listing)
      requires Valid()
      ensures r.Aborted? ==> r == PicksOf(dia.files, dia.entries, crate.root, fs, rangeLess)
      ensures r.Listed? <==> PicksOf(dia.files, dia.entries, crate.root, fs, rangeLess).Listed?
      ensures r.Listed? ==> r.picks == SortPicks(PicksOf(dia.files, dia.entries, crate.root, fs, rangeLess).picks)
    {
      r := BuildPicks(dia, crate.root, fs, rangeLess);
      if r.Listed? {
        r := Listed(SortPicks(r.picks));
      }
    }
  }
}
