/**
 * src/fancyLint.ts: the earlier status bar item that shows the active
 * file's error and warning counts and lists the files with lints.
 */
module FancyLint {
  import opened Wrappers
  import opened Paths
  import opened Text
  import opened Diagnostics
  import opened FilePicks
  import opened PickOrder

  /** The literals of the bar text, around its two numbers. */
  const FancyLits := ["-> $(circle-slash) ", " $(alert) "]

  /** The bar text: `"-> $(circle-slash) e $(alert) w"`. */
  function FancyText(errors: nat, warnings: nat): string
  {
    Interleave(FancyLits, [NatToString(errors), NatToString(warnings)])
  }

  /** Reads the two counts back from a bar text. */
  function ParseFancyText(t: string): Option<(nat, nat)>
  {
    match ReadFields(t, FancyLits)
    case None => None
    case Some(ns) => Some((ns[0], ns[1]))
  }

  /** The bar text gives back the two counts it shows. */
  lemma FancyTextReadsBack(errors: nat, warnings: nat)
    ensures ParseFancyText(FancyText(errors, warnings)) == Some((errors, warnings))
  {
    assert Separated(FancyLits) by {
      assert FancyLits[1][0] == ' ';
    }
    ReadInterleaved(FancyLits, [NatToString(errors), NatToString(warnings)]);
    ParseNatToString(errors);
    ParseNatToString(warnings);
  }

  /** The value of a `DiagnosticSeverity` enum member. */
  function EnumValue(s: Severity): int
  {
    match s
    case Error => 0
    case Warning => 1
    case Information => 2
    case Hint => 3
  }

  /** JavaScript truthiness of a number. */
  predicate Truthy(n: int)
  {
    n != 0
  }

  /**
   * One diagnostic through the callback of `updateStatus` as written: the
   * conditions are assignments, whose value is the assigned enum member.
   * Returns the diagnostic after the assignments and whether it counted as
   * an error and as a warning.
   */
  function StepAsWritten(d: Diagnostic): (Diagnostic, bool, bool)
  {
    var d1 := d.(severity := Error);
    if Truthy(EnumValue(Error)) then (d1, true, false)
    else
      var d2 := d1.(severity := Warning);
      if Truthy(EnumValue(Warning)) then (d2, false, true) else (d2, false, false)
  }

  /** The diagnostics and the counts `updateStatus` as written leaves behind. */
  function CountsAsWritten(ds: seq<Diagnostic>): (seq<Diagnostic>, nat, nat)
  {
    if ds == [] then ([], 0, 0)
    else
      var (rest, e, w) := CountsAsWritten(ds[..|ds| - 1]);
      var (d, isError, isWarning) := StepAsWritten(ds[|ds| - 1]);
      (rest + [d], e + (if isError then 1 else 0), w + (if isWarning then 1 else 0))
  }

  /** `ds` with every severity set to Warning, nothing else changed. */
  function AllWarnings(ds: seq<Diagnostic>): (r: seq<Diagnostic>)
    ensures |r| == |ds|
    ensures forall i :: 0 <= i < |ds| ==> r[i] == ds[i].(severity := Warning)
  {
    seq(|ds|, i requires 0 <= i < |ds| => ds[i].(severity := Warning))
  }

  /**
   * As written, `updateStatus` counts no error and every diagnostic as a
   * warning, and turns every diagnostic of the file into a warning.
   */
  lemma {:induction false} CountsAsWrittenAreAllWarnings(ds: seq<Diagnostic>)
    ensures CountsAsWritten(ds) == (AllWarnings(ds), 0, |ds|)
  {
    if ds != [] {
      CountsAsWrittenAreAllWarnings(ds[..|ds| - 1]);
      assert AllWarnings(ds) == AllWarnings(ds[..|ds| - 1]) + [ds[|ds| - 1].(severity := Warning)];
    }
  }

  /** A file with one error shows `0` errors and `1` warning as written; `1` and `0` are intended. */
  lemma CountsAsWrittenMiscount(d: Diagnostic)
    requires d.severity == Error
    ensures CountsAsWritten([d]).1 == 0 && CountsAsWritten([d]).2 == 1
    ensures Count([d], Error) == 1 && Count([d], Warning) == 0
  {
    assert [d][..0] == [];
  }

  /**
   * What `updateStatus` as written leaves for `filePath`: the text shows no
   * error and the file's number of diagnostics as warnings, and the file's
   * diagnostics, if it has an entry, are all warnings now.
   */
  ghost predicate ShownAsWritten(filePath: Path, before: map<Path, seq<Diagnostic>>,
                                 after: map<Path, seq<Diagnostic>>, text: string)
  {
    if filePath in before then
      text == FancyText(0, |before[filePath]|) && after == before[filePath := AllWarnings(before[filePath])]
    else
      text == FancyText(0, 0) && after == before
  }

  class LintStatusHelper {
    /** The bar item's text. */
    var text: string
    const dia: DiagnosticCollection

    /**
     * The constructor: `0` and `0` without an active editor; with one,
     * `updateStatus` as written on its file: no error, every diagnostic of
     * the file counted as a warning and left a warning in the collection.
     */
    constructor (dia: DiagnosticCollection, activeFile: Option<Path>)
      requires dia.Valid()
      modifies dia
      ensures this.dia == dia && dia.Valid() && dia.files == old(dia.files)
      ensures activeFile.None? ==> text == FancyText(0, 0) && dia.entries == old(dia.entries)
      ensures activeFile.Some? ==> ShownAsWritten(activeFile.value, old(dia.entries), dia.entries, text)
    {
      this.dia := dia;
      text := FancyText(0, 0);
      new;
      if activeFile.Some? {
        UpdateStatusAsWritten(activeFile.value);
      }
    }

    /** `setFancyLintText`. */
    method SetFancyLintText(errors: nat, warnings: nat)
      modifies this
      ensures ParseFancyText(text) == Some((errors, warnings))
      ensures text == FancyText(errors, warnings)
    {
      text := FancyText(errors, warnings);
      FancyTextReadsBack(errors, warnings);
    }

    /**
     * `updateStatus` with comparisons where the source assigns: the file's
     * errors and warnings, `0` and `0` when the collection has no entry for
     * it; the collection is left alone.
     */
    method UpdateStatus(filePath: Path)
      modifies this
      ensures text == FancyText(FileCount(dia.entries, filePath, Error), FileCount(dia.entries, filePath, Warning))
    {
      var diagnostics := dia.Get(filePath);
      if diagnostics.Some? {
        var errors, warnings := CountFile(diagnostics.value);
        SetFancyLintText(errors, warnings);
      } else {
        SetFancyLintText(0, 0);
      }
    }

    /**
     * `updateStatus` as written: every diagnostic of the file is counted as
     * a warning and left with severity Warning in the collection.
     */
    method UpdateStatusAsWritten(filePath: Path)
      requires dia.Valid()
      modifies this, dia
      ensures dia.Valid() && dia.files == old(dia.files)
      ensures filePath !in old(dia.entries) ==> dia.entries == old(dia.entries) && text == FancyText(0, 0)
      ensures filePath in old(dia.entries) ==>
                var ds := old(dia.entries)[filePath];
                && dia.entries == old(dia.entries)[filePath := CountsAsWritten(ds).0]
                && text == FancyText(CountsAsWritten(ds).1, CountsAsWritten(ds).2)
      ensures ShownAsWritten(filePath, old(dia.entries), dia.entries, text)
    {
      var diagnostics := dia.Get(filePath);
      if diagnostics.None? {
        SetFancyLintText(0, 0);
        return;
      }
      var ds := diagnostics.value;
      var updated: seq<Diagnostic> := [];
      var errors, warnings := 0, 0;
      for j := 0 to |ds|
        invariant (updated, errors, warnings) == CountsAsWritten(ds[..j])
      {
        assert ds[..j + 1][..j] == ds[..j];
        var diagnostic := ds[j].(severity := Error);
        if Truthy(EnumValue(Error)) {
          errors := errors + 1;
        } else {
          diagnostic := diagnostic.(severity := Warning);
          if Truthy(EnumValue(Warning)) {
            warnings := warnings + 1;
          }
        }
        updated := updated + [diagnostic];
      }
      assert ds[..|ds|] == ds;
      dia.entries := dia.entries[filePath := updated];
      SetFancyLintText(errors, warnings);
      CountsAsWrittenAreAllWarnings(ds);
    }

    /**
     * The handler of `onDidChangeActiveTextEditor`: nothing without an
     * editor, `updateStatus` as written on its file otherwise.
     */
    method OnDidChangeActiveTextEditor(editor: Option<Path>)
      requires dia.Valid()
      modifies this, dia
      ensures dia.Valid() && dia.files == old(dia.files)
      ensures editor.None? ==> text == old(text) && dia.entries == old(dia.entries)
      ensures editor.Some? ==> ShownAsWritten(editor.value, old(dia.entries), dia.entries, text)
    {
      if editor.Some? {
        UpdateStatusAsWritten(editor.value);
      }
    }

    /**
     * `showErrorFiles`: the picks of every file with lints, sorted, unless
     * building them throws or hangs.
     */
    method ShowErrorFiles(fs: set<Path>, rangeLess: RangeLess) returns (r: Listing)
      requires dia.Valid()
      ensures r.Aborted? ==> r == PicksOf(dia.files, dia.entries, None, fs, rangeLess)
      ensures r.Listed? <==> PicksOf(dia.files, dia.entries, None, fs, rangeLess).Listed?
      ensures r.Listed? ==> r.picks == SortPicks(PicksOf(dia.files, dia.entries, None, fs, rangeLess).picks)
    {
      r := BuildPicks(dia, None, fs, rangeLess);
      if r.Listed? {
        r := Listed(SortPicks(r.picks));
      }
    }
  }
}
