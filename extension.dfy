/**
 * src/extension.ts: the earlier entry point. It finds the crate by looking
 * for a lower-case `cargo.toml`, starting one directory above the file's
 * own, lints the whole crate with the linter of src/diagnostics.ts, and
 * shows the unpadded time of the last run.
 */
module Extension {
  import opened Wrappers
  import opened Paths
  import opened Text
  import opened Diagnostics
  import opened DiagnosticStream
  import opened Common
  import opened LegacyLinter

  const LegacyManifest := "cargo.toml"

  /**
   * The crate `findCrateRoot` of extension.ts is meant to find: the walk
   * starts at the parent of the file's directory.
   */
  function LegacyCrateRoot(file: Path, fs: set<Path>): Option<Path>
  {
    CrateRootFrom(Dirname(Dirname(file)), fs, LegacyManifest)
  }

  /**
   * How `findCrateRoot` of extension.ts ends as written: its loop, like the
   * one of common.ts, never returns when no ancestor holds a manifest.
   */
  function LegacySearch(file: Path, fs: set<Path>): Ends<Path>
  {
    SearchFrom(Dirname(Dirname(file)), fs, LegacyManifest)
  }

  /** The loop of `findCrateRoot` in extension.ts. */
  method FindLegacyCrateRoot(memberFilePath: Path, fs: set<Path>) returns (r: Ends<Path>)
    ensures r == LegacySearch(memberFilePath, fs)
    ensures r.Hangs? <==> LegacyCrateRoot(memberFilePath, fs).None?
    ensures r.Returns? ==>
              r.value + [LegacyManifest] in fs && r.value <= Dirname(Dirname(memberFilePath)) &&
              LegacyCrateRoot(memberFilePath, fs) == Some(r.value)
  {
    r := SearchCrateRootFrom(Dirname(Dirname(memberFilePath)), fs, LegacyManifest);
    CrateRootHoldsManifest(Dirname(Dirname(memberFilePath)), fs, LegacyManifest);
  }

  /**
   * A crate whose manifest sits in the file's own directory (a `build.rs`
   * next to `cargo.toml`) is not found by the earlier walk; the walk of
   * common.ts finds it when the manifest is named `Cargo.toml`. (At the
   * root, the parent of `/` is `/` again.)
   */
  lemma LegacyWalkSkipsOwnDirectory(crate: Path, name: string)
    requires crate != []
    ensures LegacyCrateRoot(crate + [name], {crate + [LegacyManifest]}).None?
    ensures CrateRoot(crate + [name], {crate + [Manifest]}) == Some(crate)
  {
    var fs := {crate + [LegacyManifest]};
    var start := Dirname(Dirname(crate + [name]));
    assert Dirname(crate + [name]) == crate;
    forall k | 0 <= k <= |start| ensures start[..k] + [LegacyManifest] !in fs {
      assert |start[..k] + [LegacyManifest]| < |crate + [LegacyManifest]|;
    }
    NoCrateRootIff(start, fs, LegacyManifest);
  }

  /** A crate with only an upper-case `Cargo.toml` is not found by the earlier walk. */
  lemma LegacyWalkNeedsLowerCase(crate: Path, dir: string, name: string)
    ensures LegacyCrateRoot(crate + [dir, name], {crate + [Manifest]}).None?
  {
    var fs := {crate + [Manifest]};
    var start := Dirname(Dirname(crate + [dir, name]));
    assert Dirname(crate + [dir, name]) == crate + [dir];
    assert start == crate;
    forall k | 0 <= k <= |start| ensures start[..k] + [LegacyManifest] !in fs {
      assert (start[..k] + [LegacyManifest])[k] != (crate + [Manifest])[k] || k != |crate|;
    }
    NoCrateRootIff(start, fs, LegacyManifest);
  }

  const RocketPrefix := "$(rocket) Linted at "
  const DefaultBarText := "$(rocket) Cogs Activated"

  const TimeLits := [RocketPrefix, ":", ":"]

  /** The text `updateLastLintTime` of extension.ts shows: the fields unpadded. */
  function LegacyTimeText(hours: nat, minutes: nat, seconds: nat): string
  {
    Interleave(TimeLits, [NatToString(hours), NatToString(minutes), NatToString(seconds)])
  }

  function ParseLegacyTimeText(t: string): Option<(nat, nat, nat)>
  {
    match ReadFields(t, TimeLits)
    case None => None
    case Some(ns) => Some((ns[0], ns[1], ns[2]))
  }

  /** The unpadded text still gives back the time it shows. */
  lemma LegacyTimeTextReadsBack(hours: nat, minutes: nat, seconds: nat)
    ensures ParseLegacyTimeText(LegacyTimeText(hours, minutes, seconds)) == Some((hours, minutes, seconds))
  {
    var ds := [NatToString(hours), NatToString(minutes), NatToString(seconds)];
    assert Separated(TimeLits) by {
      assert TimeLits[1][0] == ':' && TimeLits[2][0] == ':';
    }
    ReadInterleaved(TimeLits, ds);
    ParseNatToString(hours);
    ParseNatToString(minutes);
    ParseNatToString(seconds);
  }

  /** The width of the unpadded text grows with the number of digits in each field. */
  lemma TimeTextLength(hours: nat, minutes: nat, seconds: nat)
    ensures |LegacyTimeText(hours, minutes, seconds)| ==
            |RocketPrefix| + |NatToString(hours)| + |NatToString(minutes)| + |NatToString(seconds)| + 2
  {
    var ds := [NatToString(hours), NatToString(minutes), NatToString(seconds)];
    assert Interleave(TimeLits[2..], ds[2..]) == ":" + (ds[2] + "");
    assert Interleave(TimeLits[1..], ds[1..]) == ":" + (ds[1] + Interleave(TimeLits[2..], ds[2..]));
  }

  /** The state extension.ts keeps at module level. */
  class LegacySession {
    var hasRunLinterOnce: bool
    var barText: string
    var barVisible: bool
    /** `settings.runLinterOnSave`. */
    var runLinterOnSave: bool
    const dia: DiagnosticCollection

    /** Loading the module and creating the collection. */
    constructor (configured: bool)
      ensures !hasRunLinterOnce && !barVisible && barText == ""
      ensures runLinterOnSave == configured
      ensures fresh(dia) && dia.Valid() && dia.files == [] && dia.entries == map[]
    {
      hasRunLinterOnce := false;
      barText := "";
      barVisible := false;
      runLinterOnSave := configured;
      dia := new DiagnosticCollection();
    }

    /**
     * The collection and the bar after a run of `runLinter` from the given
     * state, and how the run ends.
     */
    ghost predicate RanLinter(file: Path, fs: set<Path>, output: seq<Line>, time: (nat, nat, nat), outcome: Outcome,
                              oldFiles: seq<Path>, oldEntries: map<Path, seq<Diagnostic>>, oldText: string)
      reads this, dia
    {
      var crate := LegacySearch(file, fs);
      && (outcome == Spinning <==> crate.Hangs?)
      && (outcome == Thrown <==> crate.Returns? && MissingMessage in output)
      && (outcome != Completed ==> dia.files == oldFiles && dia.entries == oldEntries && barText == oldText)
      && (outcome == Completed ==>
            Some(FileMap(dia.files, dia.entries)) == Collect(output, LegacyConverter(crate.value, fs)) &&
            barText == LegacyTimeText(time.0, time.1, time.2))
    }

    /**
     * `runLinter` of extension.ts: the whole crate is linted and the time
     * shown. It never returns for a file with no crate.
     */
    method RunLinter(file: Path, fs: set<Path>, output: seq<Line>, time: (nat, nat, nat)) returns (outcome: Outcome)
      requires dia.Valid()
      modifies this, dia
      ensures dia.Valid()
      ensures RanLinter(file, fs, output, time, outcome, old(dia.files), old(dia.entries), old(barText))
      ensures hasRunLinterOnce == old(hasRunLinterOnce) && barVisible == old(barVisible)
      ensures runLinterOnSave == old(runLinterOnSave)
    {
      var crate := FindLegacyCrateRoot(file, fs);
      if crate.Hangs? {
        return Spinning;
      }
      var completed := RunLegacyLinterForProject(output, crate.value, fs, dia);
      if !completed {
        return Thrown;
      }
      barText := LegacyTimeText(time.0, time.1, time.2);
      outcome := Completed;
    }

    /** `activate` of extension.ts: the bar shows the default text; nothing is linted yet. */
    method Activate()
      modifies this
      ensures barText == DefaultBarText && barVisible
      ensures hasRunLinterOnce == old(hasRunLinterOnce) && runLinterOnSave == old(runLinterOnSave)
    {
      barText := DefaultBarText;
      barVisible := true;
    }

    /** The `onDidSaveTextDocument` listener: files ending in `.rs` are linted when the setting is on. */
    method OnDidSaveTextDocument(fileName: Path, fs: set<Path>, output: seq<Line>, time: (nat, nat, nat))
      returns (outcome: Outcome)
      requires dia.Valid()
      modifies this, dia
      ensures dia.Valid()
      ensures hasRunLinterOnce == old(hasRunLinterOnce) && runLinterOnSave == old(runLinterOnSave)
      ensures barVisible == old(barVisible)
      ensures EndsWith(Render(fileName), ".rs") && runLinterOnSave ==>
                RanLinter(fileName, fs, output, time, outcome, old(dia.files), old(dia.entries), old(barText))
      ensures !(EndsWith(Render(fileName), ".rs") && runLinterOnSave) ==>
                outcome == Completed && barText == old(barText) && dia.files == old(dia.files) && dia.entries == old(dia.entries)
    {
      outcome := Completed;
      if EndsWith(Render(fileName), ".rs") && runLinterOnSave {
        outcome := RunLinter(fileName, fs, output, time);
      }
    }

    /**
     * The `onDidOpenTextDocument` listener and, for a defined editor, the
     * `onDidChangeActiveTextEditor` one: the first document lints its
     * crate; the latch is set once the run has returned.
     */
    method OnFirstDocument(fileName: Path, fs: set<Path>, output: seq<Line>, time: (nat, nat, nat))
      returns (outcome: Outcome)
      requires dia.Valid()
      modifies this, dia
      ensures dia.Valid()
      ensures runLinterOnSave == old(runLinterOnSave) && barVisible == old(barVisible)
      ensures !old(hasRunLinterOnce) ==>
                RanLinter(fileName, fs, output, time, outcome, old(dia.files), old(dia.entries), old(barText)) &&
                hasRunLinterOnce == (outcome == Completed)
      ensures old(hasRunLinterOnce) ==>
                outcome == Completed && hasRunLinterOnce && barText == old(barText) &&
                dia.files == old(dia.files) && dia.entries == old(dia.entries)
    {
      outcome := Completed;
      if !hasRunLinterOnce {
        outcome := RunLinter(fileName, fs, output, time);
        if outcome == Completed {
          hasRunLinterOnce := true;
        }
      }
    }

    /** The `onDidOpenTextDocument` listener. */
    method OnDidOpenTextDocument(fileName: Path, fs: set<Path>, output: seq<Line>, time: (nat, nat, nat))
      returns (outcome: Outcome)
      requires dia.Valid()
      modifies this, dia
      ensures dia.Valid()
      ensures runLinterOnSave == old(runLinterOnSave) && barVisible == old(barVisible)
      ensures old(hasRunLinterOnce) ==>
                outcome == Completed && hasRunLinterOnce && barText == old(barText) &&
                dia.files == old(dia.files) && dia.entries == old(dia.entries)
      ensures !old(hasRunLinterOnce) ==>
                RanLinter(fileName, fs, output, time, outcome, old(dia.files), old(dia.entries), old(barText)) &&
                hasRunLinterOnce == (outcome == Completed)
    {
      outcome := OnFirstDocument(fileName, fs, output, time);
    }

    /** The `onDidChangeActiveTextEditor` listener: nothing without an editor. */
    method OnDidChangeActiveTextEditor(editor: Option<Path>, fs: set<Path>, output: seq<Line>, time: (nat, nat, nat))
      returns (outcome: Outcome)
      requires dia.Valid()
      modifies this, dia
      ensures dia.Valid()
      ensures runLinterOnSave == old(runLinterOnSave) && barVisible == old(barVisible)
      ensures old(hasRunLinterOnce) ==> hasRunLinterOnce
      ensures editor.Some? && old(hasRunLinterOnce) ==>
                outcome == Completed && barText == old(barText) &&
                dia.files == old(dia.files) && dia.entries == old(dia.entries)
      ensures editor.None? ==>
                outcome == Completed && hasRunLinterOnce == old(hasRunLinterOnce) && barText == old(barText) &&
                dia.files == old(dia.files) && dia.entries == old(dia.entries)
      ensures editor.Some? && !old(hasRunLinterOnce) ==>
                RanLinter(editor.value, fs, output, time, outcome, old(dia.files), old(dia.entries), old(barText)) &&
                hasRunLinterOnce == (outcome == Completed)
    {
      outcome := Completed;
      if editor.Some? {
        outcome := OnFirstDocument(editor.value, fs, output, time);
      }
    }

    /** The `onDidChangeConfiguration` listener. */
    method OnDidChangeConfiguration(configured: bool)
      modifies this
      ensures runLinterOnSave == configured
      ensures hasRunLinterOnce == old(hasRunLinterOnce) && barText == old(barText) && barVisible == old(barVisible)
    {
      runLinterOnSave := configured;
    }
  }
}
