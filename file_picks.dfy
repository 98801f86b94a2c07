/**
 * What the two status bars compute from the diagnostic collection: the
 * error and warning counts of a file, the diagnostic a file is shown by, and
 * the quick-pick entries of `showErrorFiles` (src/lintStatus.ts and
 * src/fancyLint.ts hold the same code for these).
 *
 * `rangeLess` stands for `diagnostic.range < mainError.range`, a relational
 * comparison of two range objects.
 */
module FilePicks {
  import opened Wrappers
  import opened Paths
  import opened Text
  import opened Diagnostics
  import opened Common

  type RangeLess = (Range, Range) -> bool

  /** The number of diagnostics with severity `sev`. */
  function Count(ds: seq<Diagnostic>, sev: Severity): (n: nat)
    ensures n <= |ds|
  {
    if ds == [] then 0
    else Count(ds[..|ds| - 1], sev) + (if ds[|ds| - 1].severity == sev then 1 else 0)
  }

  /** One iteration of the loop that picks `mainError`. */
  function MainStep(main: Option<Diagnostic>, d: Diagnostic, rangeLess: RangeLess): Option<Diagnostic>
  {
    if d.severity == Error then
      if main.None? || main.value.severity == Warning then Some(d)
      else if main.value.severity == Error && rangeLess(d.range, main.value.range) then Some(d)
      else main
    else if d.severity == Warning then
      if main.None? then Some(d)
      else if main.value.severity == Warning && rangeLess(d.range, main.value.range) then Some(d)
      else main
    else main
  }

  /** `mainError` after the loop over a file's diagnostics; `None` is `undefined`. */
  function MainOf(ds: seq<Diagnostic>, rangeLess: RangeLess): Option<Diagnostic>
  {
    if ds == [] then None else MainStep(MainOf(ds[..|ds| - 1], rangeLess), ds[|ds| - 1], rangeLess)
  }

  /**
   * A file is shown by one of its own diagnostics; there is one exactly when
   * the file has an error or a warning, and it is an error exactly when the
   * file has an error.
   */
  lemma {:induction false} MainOfIsErrorFirst(ds: seq<Diagnostic>, rangeLess: RangeLess)
    ensures var m := MainOf(ds, rangeLess);
            && (m.Some? <==> Count(ds, Error) + Count(ds, Warning) > 0)
            && (m.Some? ==> m.value in ds && (m.value.severity == Error || m.value.severity == Warning))
            && (m.Some? ==> (m.value.severity == Error <==> Count(ds, Error) > 0))
  {
    if ds != [] {
      var init := ds[..|ds| - 1];
      MainOfIsErrorFirst(init, rangeLess);
      assert forall x :: x in init ==> x in ds;
    }
  }

  /** The first diagnostic with severity `sev`. */
  function FirstWith(ds: seq<Diagnostic>, sev: Severity): (r: Option<Diagnostic>)
    ensures r.Some? ==> r.value in ds && r.value.severity == sev
  {
    if ds == [] then None
    else if ds[0].severity == sev then Some(ds[0])
    else FirstWith(ds[1..], sev)
  }

  lemma {:induction false} FirstWithAppend(ds: seq<Diagnostic>, d: Diagnostic, sev: Severity)
    ensures FirstWith(ds + [d], sev) ==
            if FirstWith(ds, sev).Some? then FirstWith(ds, sev) else if d.severity == sev then Some(d) else None
  {
    if ds == [] {
      assert [] + [d] == [d];
      assert [d][1..] == [];
    } else {
      assert (ds + [d])[1..] == ds[1..] + [d];
      FirstWithAppend(ds[1..], d, sev);
    }
  }

  /**
   * When no range compares below another (plain objects compare neither
   * way), a file is shown by its first error, or else by its first warning.
   */
  lemma {:induction false} MainOfWithoutRangeOrder(ds: seq<Diagnostic>, rangeLess: RangeLess)
    requires forall a, b :: !rangeLess(a, b)
    ensures MainOf(ds, rangeLess) ==
            if FirstWith(ds, Error).Some? then FirstWith(ds, Error) else FirstWith(ds, Warning)
  {
    if ds != [] {
      var init, d := ds[..|ds| - 1], ds[|ds| - 1];
      MainOfWithoutRangeOrder(init, rangeLess);
      assert init + [d] == ds;
      FirstWithAppend(init, d, Error);
      FirstWithAppend(init, d, Warning);
    }
  }

  /**
   * The `for (let diagnostic of diagnostics)` loop of `showErrorFiles`: the
   * file's error and warning counts and the diagnostic it is shown by.
   */
  method SummarizeFile(ds: seq<Diagnostic>, rangeLess: RangeLess)
    returns (errors: nat, warnings: nat, main: Option<Diagnostic>)
    ensures errors == Count(ds, Error) && warnings == Count(ds, Warning)
    ensures main == MainOf(ds, rangeLess)
  {
    errors, warnings, main := 0, 0, None;
    for i := 0 to |ds|
      invariant errors == Count(ds[..i], Error) && warnings == Count(ds[..i], Warning)
      invariant main == MainOf(ds[..i], rangeLess)
    {
      assert ds[..i + 1][..i] == ds[..i];
      var diagnostic := ds[i];
      if diagnostic.severity == Error {
        errors := errors + 1;
        if main.None? || main.value.severity == Warning {
          main := Some(diagnostic);
        } else if main.value.severity == Error {
          if rangeLess(diagnostic.range, main.value.range) {
            main := Some(diagnostic);
          }
        }
      } else if diagnostic.severity == Warning {
        warnings := warnings + 1;
        if main.None? {
          main := Some(diagnostic);
        } else if main.value.severity == Warning {
          if rangeLess(diagnostic.range, main.value.range) {
            main := Some(diagnostic);
          }
        }
      }
    }
    assert ds[..|ds|] == ds;
  }

  /** The number of diagnostics of severity `sev` the collection holds for `f`; 0 without an entry. */
  function FileCount(entries: map<Path, seq<Diagnostic>>, f: Path, sev: Severity): nat
  {
    if f in entries then Count(entries[f], sev) else 0
  }

  /** A file's error and warning counts, as `updateCurrentFile` and `updateStatus` count them. */
  method CountFile(ds: seq<Diagnostic>) returns (errors: nat, warnings: nat)
    ensures errors == Count(ds, Error) && warnings == Count(ds, Warning)
  {
    errors, warnings := 0, 0;
    for j := 0 to |ds|
      invariant errors == Count(ds[..j], Error) && warnings == Count(ds[..j], Warning)
    {
      assert ds[..j + 1][..j] == ds[..j];
      if ds[j].severity == Error {
        errors := errors + 1;
      } else if ds[j].severity == Warning {
        warnings := warnings + 1;
      }
    }
    assert ds[..|ds|] == ds;
  }

  /** The pick's description: `"Errors: n "` when n is not 0, then `"Warnings: m"` when m is not 0. */
  function Description(errors: nat, warnings: nat): string
  {
    (if errors != 0 then "Errors: " + NatToString(errors) + " " else "") +
    WarningsPart(warnings)
  }

  /**
   * Reads a field `name` + number + `sep` at the start of `s`; a missing
   * field reads as 0.
   */
  function ReadField(s: string, name: string, sep: string): Option<(nat, string)>
  {
    match After(s, name)
    case None => Some((0, s))
    case Some(t) =>
      match ReadNumber(t)
      case None => None
      case Some((n, r)) =>
        match After(r, sep)
        case None => None
        case Some(r2) => Some((n, r2))
  }

  /** Reads the two counts back from a description. */
  function ParseDescription(d: string): Option<(nat, nat)>
  {
    match ReadField(d, "Errors: ", " ")
    case None => None
    case Some((e, r)) =>
      match ReadField(r, "Warnings: ", "")
      case None => None
      case Some((w, r2)) => if r2 == "" then Some((e, w)) else None
  }

  /** A description gives back the counts it was made from. */
  lemma DescriptionReadsBack(errors: nat, warnings: nat)
    ensures ParseDescription(Description(errors, warnings)) == Some((errors, warnings))
  {
    WarningsPartReadsBack(warnings);
    ErrorsPartReadsBack(errors, WarningsPart(warnings));
  }

  lemma ErrorsPartReadsBack(errors: nat, rest: string)
    requires rest == [] || rest[0] == 'W'
    ensures ReadField((if errors != 0 then "Errors: " + NatToString(errors) + " " else "") + rest, "Errors: ", " ")
            == Some((errors, rest))
  {
    if errors != 0 {
      ErrorsFieldReadsBack(errors, rest);
    } else {
      assert "" + rest == rest;
      NoErrorsField(rest);
    }
  }

  lemma ErrorsFieldReadsBack(errors: nat, rest: string)
    ensures ReadField("Errors: " + NatToString(errors) + " " + rest, "Errors: ", " ") == Some((errors, rest))
  {
    var t := NatToString(errors) + (" " + rest);
    assert "Errors: " + NatToString(errors) + " " + rest == "Errors: " + t;
    AfterLiteral("Errors: ", t);
    ReadPrinted(errors, " " + rest);
    AfterLiteral(" ", rest);
  }

  lemma NoErrorsField(rest: string)
    requires rest == [] || rest[0] == 'W'
    ensures ReadField(rest, "Errors: ", " ") == Some((0, rest))
  {
    if rest != [] {
      assert rest[0] != "Errors: "[0];
    }
  }

  function WarningsPart(warnings: nat): string
  {
    if warnings != 0 then "Warnings: " + NatToString(warnings) else ""
  }

  lemma WarningsPartReadsBack(warnings: nat)
    ensures ReadField(WarningsPart(warnings), "Warnings: ", "") == Some((warnings, ""))
    ensures WarningsPart(warnings) == [] || WarningsPart(warnings)[0] == 'W'
    ensures Description(0, warnings) == WarningsPart(warnings)
  {
    if warnings != 0 {
      ReadPrinted(warnings, "");
      assert WarningsPart(warnings) == "Warnings: " + (NatToString(warnings) + "");
    }
  }

  /** A quick-pick entry of `showErrorFiles`. */
  datatype Pick = Pick(labelText: string, description: string, errors: nat, warnings: nat, filePath: Path, range: Range)

  /** What visiting one file of the collection does to the list of picks. */
  datatype Visit = Skipped | Picked(pick: Pick) | Threw | Hung

  /**
   * How the `forEach` of `showErrorFiles` ends: with the list of picks, or
   * stopped by a callback that threw or never returned.
   */
  datatype Listing = Listed(picks: seq<Pick>) | Aborted(stop: Visit)

  /**
   * The `forEach` callback of `showErrorFiles` for one file. `filter` is the
   * crate root files must be under (none: every file). For a file with no
   * crate root the walk never returns; a file with neither an error nor a
   * warning has no `mainError`, and reading its range throws.
   */
  function VisitFile(f: Path, ds: seq<Diagnostic>, filter: Option<Path>, fs: set<Path>, rangeLess: RangeLess)
    : (v: Visit)
  {
    if |ds| == 0 then Skipped
    else if filter.Some? && !UnderRoot(f, filter.value) then Skipped
    else
      match CrateSearch(f, fs)
      case Hangs => Hung
      case Returns(root) =>
        CrateRootHoldsManifest(Dirname(f), fs, Manifest);
        var main := MainOf(ds, rangeLess);
        if main.None? then Threw
        else
          var errors, warnings := Count(ds, Error), Count(ds, Warning);
          Picked(Pick(Joined(f[|root|..]), Description(errors, warnings), errors, warnings, f, main.value.range))
  }

  /** The listing after visiting `files` in order; the first callback that throws or hangs ends it. */
  function PicksOf(files: seq<Path>, entries: map<Path, seq<Diagnostic>>, filter: Option<Path>,
                   fs: set<Path>, rangeLess: RangeLess): (r: Listing)
    requires forall f :: f in files ==> f in entries
    ensures r.Aborted? ==> r.stop == Threw || r.stop == Hung
  {
    if files == [] then Listed([])
    else
      var last := files[|files| - 1];
      match PicksOf(files[..|files| - 1], entries, filter, fs, rangeLess)
      case Aborted(v) => Aborted(v)
      case Listed(ps) =>
        match VisitFile(last, entries[last], filter, fs, rangeLess)
        case Skipped => Listed(ps)
        case Picked(p) => Listed(ps + [p])
        case Threw => Aborted(Threw)
        case Hung => Aborted(Hung)
  }

  /** The files `showErrorFiles` lists: non-empty ones, under the filter root if any. */
  function Shown(files: seq<Path>, entries: map<Path, seq<Diagnostic>>, filter: Option<Path>): (r: seq<Path>)
    requires forall f :: f in files ==> f in entries
    ensures forall f :: f in r ==> f in files
  {
    if files == [] then []
    else
      var last := files[|files| - 1];
      Shown(files[..|files| - 1], entries, filter) +
        (if |entries[last]| != 0 && (filter.None? || UnderRoot(last, filter.value)) then [last] else [])
  }

  /**
   * When the listing is not stopped, the picks are the shown files in
   * order, each with its file's counts and their description, and each with
   * at least one error or warning.
   */
  lemma {:induction false} PicksAreShownFiles(files: seq<Path>, entries: map<Path, seq<Diagnostic>>,
                                              filter: Option<Path>, fs: set<Path>, rangeLess: RangeLess)
    requires forall f :: f in files ==> f in entries
    ensures var r := PicksOf(files, entries, filter, fs, rangeLess);
            var shown := Shown(files, entries, filter);
            r.Listed? ==>
              |r.picks| == |shown| &&
              forall i :: 0 <= i < |shown| ==>
                var p := r.picks[i];
                && p.filePath == shown[i]
                && p.errors == Count(entries[shown[i]], Error)
                && p.warnings == Count(entries[shown[i]], Warning)
                && p.errors + p.warnings > 0
                && p.description == Description(p.errors, p.warnings)
  {
    if files != [] {
      var init, last := files[..|files| - 1], files[|files| - 1];
      PicksAreShownFiles(init, entries, filter, fs, rangeLess);
      MainOfIsErrorFirst(entries[last], rangeLess);
    }
  }

  /** A shown file the callback gets through: it has a crate root and an error or a warning. */
  ghost predicate Lists(f: Path, entries: map<Path, seq<Diagnostic>>, fs: set<Path>)
  {
    CrateRoot(f, fs).Some? && FileCount(entries, f, Error) + FileCount(entries, f, Warning) > 0
  }

  /** `shown[i]` is the first shown file that does not get through. */
  ghost predicate FirstStopAt(shown: seq<Path>, i: int, entries: map<Path, seq<Diagnostic>>, fs: set<Path>)
  {
    0 <= i < |shown| && !Lists(shown[i], entries, fs) && forall j :: 0 <= j < i ==> Lists(shown[j], entries, fs)
  }

  /**
   * The listing completes exactly when every shown file gets through.
   * Otherwise the first shown file that does not decides how it stops: it
   * hangs in the walk when that file has no crate root, and throws when the
   * file has a root but neither an error nor a warning.
   */
  lemma {:induction false} PicksStopAtFirstStop(files: seq<Path>, entries: map<Path, seq<Diagnostic>>,
                                                filter: Option<Path>, fs: set<Path>, rangeLess: RangeLess)
    requires forall f :: f in files ==> f in entries
    ensures var r := PicksOf(files, entries, filter, fs, rangeLess);
            var shown := Shown(files, entries, filter);
            && (r.Listed? <==> forall f :: f in shown ==> Lists(f, entries, fs))
            && (r.Aborted? ==>
                  exists i :: FirstStopAt(shown, i, entries, fs) &&
                              r.stop == if CrateRoot(shown[i], fs).None? then Hung else Threw)
  {
    if files != [] {
      var init, last := files[..|files| - 1], files[|files| - 1];
      PicksStopAtFirstStop(init, entries, filter, fs, rangeLess);
      var before := Shown(init, entries, filter);
      var shown := Shown(files, entries, filter);
      var r0 := PicksOf(init, entries, filter, fs, rangeLess);
      if r0.Aborted? {
        var i :| FirstStopAt(before, i, entries, fs) &&
                 r0.stop == if CrateRoot(before[i], fs).None? then Hung else Threw;
        FirstStopExtends(before, shown, i, entries, fs);
      } else if shown != before {
        assert shown == before + [last];
        VisitShown(last, entries, filter, fs, rangeLess);
        if !Lists(last, entries, fs) {
          LastStops(before, last, entries, fs);
        }
      }
    }
  }

  /** A first stop stays the first stop when files are shown after it. */
  lemma FirstStopExtends(before: seq<Path>, shown: seq<Path>, i: int, entries: map<Path, seq<Diagnostic>>,
                         fs: set<Path>)
    requires before <= shown && FirstStopAt(before, i, entries, fs)
    ensures FirstStopAt(shown, i, entries, fs) && shown[i] == before[i]
    ensures !forall f :: f in shown ==> Lists(f, entries, fs)
  {
    assert shown[i] in shown;
  }

  /** After files that all get through, a file that does not is the first stop. */
  lemma LastStops(before: seq<Path>, last: Path, entries: map<Path, seq<Diagnostic>>, fs: set<Path>)
    requires forall f :: f in before ==> Lists(f, entries, fs)
    requires !Lists(last, entries, fs)
    ensures FirstStopAt(before + [last], |before|, entries, fs)
  {
    var shown := before + [last];
    forall j | 0 <= j < |before| ensures Lists(shown[j], entries, fs) {
      assert shown[j] in before;
    }
  }

  /** A shown file is picked when it gets through; otherwise it hangs or throws, as `Lists` fails. */
  lemma VisitShown(f: Path, entries: map<Path, seq<Diagnostic>>, filter: Option<Path>, fs: set<Path>,
                   rangeLess: RangeLess)
    requires f in entries && |entries[f]| != 0 && (filter.None? || UnderRoot(f, filter.value))
    ensures var v := VisitFile(f, entries[f], filter, fs, rangeLess);
            && (v.Picked? <==> Lists(f, entries, fs))
            && (v == Hung <==> CrateRoot(f, fs).None?)
            && (v == Threw <==> CrateRoot(f, fs).Some? && !Lists(f, entries, fs))
  {
    MainOfIsErrorFirst(entries[f], rangeLess);
  }

  /** A stopped listing stays stopped, the same way, through the files after. */
  lemma {:induction false} PicksStayAborted(files: seq<Path>, k: nat, entries: map<Path, seq<Diagnostic>>,
                                            filter: Option<Path>, fs: set<Path>, rangeLess: RangeLess)
    requires k <= |files|
    requires forall f :: f in files ==> f in entries
    requires PicksOf(files[..k], entries, filter, fs, rangeLess).Aborted?
    ensures PicksOf(files, entries, filter, fs, rangeLess) == PicksOf(files[..k], entries, filter, fs, rangeLess)
    decreases |files|
  {
    if |files| == k {
      assert files[..k] == files;
    } else {
      var init := files[..|files| - 1];
      assert init[..k] == files[..k];
      PicksStayAborted(init, k, entries, filter, fs, rangeLess);
    }
  }

  /** The callback of `showErrorFiles` for one file, as the source runs it. */
  method VisitOne(f: Path, diagnostics: seq<Diagnostic>, filter: Option<Path>, fs: set<Path>, rangeLess: RangeLess)
    returns (v: Visit)
    ensures v == VisitFile(f, diagnostics, filter, fs, rangeLess)
  {
    if |diagnostics| == 0 {
      return Skipped;
    }
    if filter.Some? && !UnderRoot(f, filter.value) {
      return Skipped;
    }
    var errors, warnings, main := SummarizeFile(diagnostics, rangeLess);
    var crateRoot := FindCrateRoot(f, fs);
    if crateRoot.Hangs? {
      return Hung;
    }
    if main.None? {
      return Threw;
    }
    var relPath := Joined(f[|crateRoot.value|..]);
    v := Picked(Pick(relPath, Description(errors, warnings), errors, warnings, f, main.value.range));
  }

  lemma PicksStep(files: seq<Path>, i: nat, entries: map<Path, seq<Diagnostic>>,
                  filter: Option<Path>, fs: set<Path>, rangeLess: RangeLess)
    requires i < |files|
    requires forall f :: f in files ==> f in entries
    ensures PicksOf(files[..i + 1], entries, filter, fs, rangeLess) ==
            match PicksOf(files[..i], entries, filter, fs, rangeLess)
            case Aborted(v) => Aborted(v)
            case Listed(ps) =>
              match VisitFile(files[i], entries[files[i]], filter, fs, rangeLess)
              case Skipped => Listed(ps)
              case Picked(p) => Listed(ps + [p])
              case Threw => Aborted(Threw)
              case Hung => Aborted(Hung)
  {
    assert files[..i + 1][..i] == files[..i];
  }

  /**
   * The `dia.forEach` of `showErrorFiles`, building the picks in the
   * collection's order until a callback throws or hangs.
   */
  method BuildPicks(dia: DiagnosticCollection, filter: Option<Path>, fs: set<Path>, rangeLess: RangeLess)
    returns (r: Listing)
    requires dia.Valid()
    ensures r == PicksOf(dia.files, dia.entries, filter, fs, rangeLess)
  {
    var files := dia.files;
    var picks: seq<Pick> := [];
    for i := 0 to |files|
      invariant PicksOf(files[..i], dia.entries, filter, fs, rangeLess) == Listed(picks)
    {
      var f := files[i];
      var v := VisitOne(f, dia.entries[f], filter, fs, rangeLess);
      PicksStep(files, i, dia.entries, filter, fs, rangeLess);
      match v
      case Skipped =>
      case Picked(p) =>
        picks := picks + [p];
      case _ =>
        PicksStayAborted(files, i + 1, dia.entries, filter, fs, rangeLess);
        return Aborted(v);
    }
    assert files[..|files|] == files;
    r := Listed(picks);
  }
}
