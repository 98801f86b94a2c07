/**
 * src/main.ts: the extension's entry point. It decides which linter run a
 * file calls for (the whole crate, or one example), keeps the "Linted at"
 * status bar item, and runs the linter from the editor's events.
 *
 * The environment of each event is given as parameters: the set of paths
 * that exist (`fs`), the output cargo prints for the run the event asks for
 * (`output`), the clock (`now`) and the workspace folder.
 */
module CogsMain {
  import opened Wrappers
  import opened Paths
  import opened Text
  import opened Diagnostics
  import opened DiagnosticStream
  import opened Common
  import opened Linter

  /** A `TextDocument`: its file and its language. */
  datatype Document = Document(fileName: Path, languageId: string)

  /** The local time of `new Date()`. */
  datatype Clock = Clock(hours: nat, minutes: nat, seconds: nat)

  /**
   * `isExample`: the file's string starts with the crate's `example` path
   * and ends in `.rs`. For a file with no crate the walk never returns.
   */
  function IsExample(file: Path, fs: set<Path>): Ends<bool>
  {
    match CrateSearch(file, fs)
    case Hangs => Hangs
    case Returns(crate) =>
      Returns(StartsWith(Render(file), Render(crate + ["example"])) && EndsWith(Render(file), ".rs"))
  }

  /** A file one directory below a crate's root, with no manifest in that directory, belongs to that crate. */
  lemma SubdirectoryCrate(crate: Path, dir: string, name: string, fs: set<Path>)
    requires crate + [Manifest] in fs && crate + [dir, Manifest] !in fs
    ensures CrateRoot(crate + [dir, name], fs) == Some(crate)
  {
    var sub := crate + [dir];
    assert Dirname(crate + [dir, name]) == sub;
    assert sub + [Manifest] == crate + [dir, Manifest];
    assert Dirname(sub) == crate;
    assert CrateRootFrom(sub, fs, Manifest) == CrateRootFrom(crate, fs, Manifest);
  }

  /** The string of a file one directory below `crate`. */
  lemma RenderSubdirectory(crate: Path, dir: string, name: string)
    ensures Render(crate + [dir, name]) == (if crate == [] then "" else Render(crate)) + "/" + dir + "/" + name
    ensures Render(crate + ["example"]) == (if crate == [] then "" else Render(crate)) + "/" + "example"
  {
    RenderAppend(crate, ["example"]);
    RenderAppend(crate, [dir, name]);
    assert Joined([dir, name]) == Joined([dir]) + "/" + name;
  }

  /**
   * A `.rs` file in a directory of the crate whose name starts with
   * `example` is an example: `examples`, but also `example-data`, since the
   * joined prefix has no trailing separator.
   */
  lemma ExampleDirectoryFile(crate: Path, dir: string, name: string, fs: set<Path>)
    requires crate + [Manifest] in fs && crate + [dir, Manifest] !in fs
    requires StartsWith(dir, "example") && EndsWith(name, ".rs")
    ensures IsExample(crate + [dir, name], fs) == Returns(true)
  {
    SubdirectoryCrate(crate, dir, name, fs);
    RenderSubdirectory(crate, dir, name);
    var head := if crate == [] then "" else Render(crate);
    PrefixedDirectory(head, dir, name);
    SuffixKept(head + "/" + dir + "/", name, ".rs");
  }

  lemma PrefixedDirectory(head: string, dir: string, name: string)
    requires StartsWith(dir, "example")
    ensures StartsWith(head + "/" + dir + "/" + name, head + "/" + "example")
  {
    var s := head + "/" + dir + "/" + name;
    var p := head + "/" + "example";
    assert forall i :: 0 <= i < |p| ==> s[i] == p[i];
  }

  lemma SuffixKept(prefix: string, s: string, suffix: string)
    requires EndsWith(s, suffix)
    ensures EndsWith(prefix + s, suffix)
  {
    assert (prefix + s)[|prefix + s| - |suffix|..] == s[|s| - |suffix|..];
  }

  /** A `.rs` file in the crate's `examples` directory is an example. */
  lemma ExampleFileIsExample(crate: Path, name: string, fs: set<Path>)
    requires crate + [Manifest] in fs && crate + ["examples", Manifest] !in fs
    requires EndsWith(name, ".rs")
    ensures IsExample(crate + ["examples", name], fs) == Returns(true)
  {
    ExampleDirectoryFile(crate, "examples", name, fs);
  }

  /**
   * A file of the crate whose first directory below the root does not start
   * with `e` (`src`, `tests`, `benches`) is not an example.
   */
  lemma OtherFileIsNotExample(crate: Path, dir: string, rest: Path, fs: set<Path>)
    requires CrateRoot(crate + [dir] + rest, fs) == Some(crate)
    requires dir != [] && dir[0] != 'e'
    ensures IsExample(crate + [dir] + rest, fs) == Returns(false)
  {
    var head := if crate == [] then "" else Render(crate);
    var below := Joined([dir] + rest);
    RenderAppend(crate, ["example"]);
    RenderAppend(crate, [dir] + rest);
    assert crate + ([dir] + rest) == crate + [dir] + rest;
    FirstSegment(dir, rest);
    OtherDirectory(head, below);
  }

  /** The relative text of a path starts with its first segment. */
  lemma FirstSegment(dir: string, rest: Path)
    requires dir != []
    ensures Joined([dir] + rest) != [] && Joined([dir] + rest)[0] == dir[0]
  {
    if rest != [] {
      JoinedAppend([dir], rest);
      assert Joined([dir] + rest) == dir + ("/" + Joined(rest));
    } else {
      assert [dir] + rest == [dir];
    }
  }

  lemma OtherDirectory(head: string, below: string)
    requires below != [] && below[0] != 'e'
    ensures !StartsWith(head + "/" + below, head + "/" + "example")
  {
    assert (head + "/" + below)[|head| + 1] == below[0];
    assert (head + "/" + "example")[|head| + 1] == 'e';
  }

  /** `isCargoFile`: the document is a `Cargo.toml`. */
  predicate IsCargoFile(doc: Document)
  {
    Basename(doc.fileName) == Manifest
  }

  /**
   * A document is a manifest exactly when its last segment is `Cargo.toml`,
   * spelt with a capital `C`; the root directory is no manifest.
   */
  lemma CargoFileIsManifestName(dir: Path, lang: string)
    ensures IsCargoFile(Document(dir + [Manifest], lang))
    ensures !IsCargoFile(Document(dir + ["cargo.toml"], lang))
    ensures !IsCargoFile(Document([], lang))
  {
    assert "cargo.toml"[0] != Manifest[0];
  }

  /** `path.basename(filename, ".rs")`: the last segment without its `.rs`. */
  function ExampleName(file: Path): (name: string)
    ensures EndsWith(Basename(file), ".rs") && |Basename(file)| > 3 ==> name + ".rs" == Basename(file)
    ensures !EndsWith(Basename(file), ".rs") ==> name == Basename(file)
  {
    var base := Basename(file);
    if EndsWith(base, ".rs") && |base| > 3 then base[..|base| - 3] else base
  }

  /** The run `runLinter` makes for a file. */
  datatype LintRequest = ExampleLint(example: string, crate: Path) | ProjectLint(crate: Path)

  /**
   * The choice `runLinter` makes: one example of the crate, or the whole
   * crate. For a file with no crate the walk never returns, so the "No
   * cargo project found" branch is never reached.
   */
  function Dispatch(file: Path, fs: set<Path>): (r: Ends<LintRequest>)
    ensures r.Hangs? <==> CrateRoot(file, fs).None?
    ensures r.Returns? ==> r.value.crate == CrateRoot(file, fs).value
    ensures r.Returns? ==> (r.value.ExampleLint? <==> IsExample(file, fs) == Returns(true))
    ensures r.Returns? && r.value.ExampleLint? ==> r.value.example == ExampleName(file)
  {
    match CrateSearch(file, fs)
    case Hangs => Hangs
    case Returns(crate) =>
      Returns(if IsExample(file, fs) == Returns(true) then ExampleLint(ExampleName(file), crate) else ProjectLint(crate))
  }

  /** Linting the workspace's manifest lints the whole workspace crate. */
  lemma ManifestDispatchesToProject(root: Path, fs: set<Path>)
    requires root + [Manifest] in fs
    ensures Dispatch(root + [Manifest], fs) == Returns(ProjectLint(root))
  {
    assert Dirname(root + [Manifest]) == root;
    var s := Render(root + [Manifest]);
    RenderAppend(root, [Manifest]);
    assert s[|s| - 3..] == Manifest[|Manifest| - 3..];
  }

  /** What a completed run leaves in the collection, from the collection before it. */
  ghost predicate Applied(req: LintRequest, output: seq<Line>, fs: set<Path>,
                          oldFiles: seq<Path>, oldEntries: map<Path, seq<Diagnostic>>,
                          files: seq<Path>, entries: map<Path, seq<Diagnostic>>)
  {
    match req
    case ProjectLint(crate) => Some(FileMap(files, entries)) == Collect(output, Linter.Converter(crate, fs))
    case ExampleLint(_, crate) =>
      var r := Collect(output, Linter.Converter(crate, fs));
      && r.Some?
      && entries == oldEntries + r.value.entries
      && files == oldFiles + NewFiles(r.value.files, oldEntries)
  }

  const RocketPrefix := "$(rocket) Linted at "
  const DefaultBarText := "$(rocket) Cogs Activated"

  /** The literals of the "Linted at" text, around its three numbers. */
  const TimeLits := [RocketPrefix, ":", ":"]

  /** The text `updateLastLintTime` shows: each field padded to two digits. */
  function TimeText(now: Clock): string
  {
    Interleave(TimeLits, [Pad2(now.hours), Pad2(now.minutes), Pad2(now.seconds)])
  }

  /** Reads the time back from a "Linted at" text. */
  function ParseTimeText(t: string): Option<Clock>
  {
    match ReadFields(t, TimeLits)
    case None => None
    case Some(ns) => Some(Clock(ns[0], ns[1], ns[2]))
  }

  /** The shown time is the time of the run. */
  lemma TimeTextReadsBack(now: Clock)
    ensures ParseTimeText(TimeText(now)) == Some(now)
  {
    var ds := [Pad2(now.hours), Pad2(now.minutes), Pad2(now.seconds)];
    assert Separated(TimeLits) by {
      assert TimeLits[1][0] == ':' && TimeLits[2][0] == ':';
    }
    ReadInterleaved(TimeLits, ds);
  }

  /** A clock time shows as `HH:MM:SS`: the text has a fixed length. */
  lemma TimeTextLength(now: Clock)
    requires now.hours < 24 && now.minutes < 60 && now.seconds < 60
    ensures |TimeText(now)| == |RocketPrefix| + 8
  {
    var ds := [Pad2(now.hours), Pad2(now.minutes), Pad2(now.seconds)];
    assert Interleave(TimeLits[2..], ds[2..]) == ":" + (ds[2] + "");
    assert Interleave(TimeLits[1..], ds[1..]) == ":" + (ds[1] + Interleave(TimeLits[2..], ds[2..]));
  }

  /**
   * The call `runLinter` makes once the crate is known: `runLinterForExample`
   * for an example, `runLinterForProject` otherwise. `completed` is false
   * when the parse throws, and then nothing has changed.
   */
  method Lint(req: LintRequest, output: seq<Line>, fs: set<Path>, dia: DiagnosticCollection) returns (completed: bool)
    requires dia.Valid()
    modifies dia
    ensures dia.Valid()
    ensures completed <==> MissingMessage !in output
    ensures completed ==> Applied(req, output, fs, old(dia.files), old(dia.entries), dia.files, dia.entries)
    ensures !completed ==> dia.files == old(dia.files) && dia.entries == old(dia.entries)
  {
    if req.ExampleLint? {
      completed := RunLinterForExample(output, req.crate, fs, dia);
    } else {
      completed := RunLinterForProject(output, req.crate, fs, dia);
    }
  }

  /** The state main.ts keeps at module level. */
  class Session {
    var hasRunLinterOnce: bool
    /** The status bar item's text and visibility. */
    var barText: string
    var barVisible: bool
    /** `settings.runLinterOnSave`. */
    var runLinterOnSave: bool
    const dia: DiagnosticCollection

    /** Loading the module and creating the collection: no run yet, the bar hidden. */
    constructor (configured: bool)
      ensures !hasRunLinterOnce && !barVisible && barText == ""
      ensures runLinterOnSave == configured
      ensures fresh(dia) && dia.Valid() && dia.files == [] && dia.entries == map[]
    {
      hasRunLinterOnce := false;
      barText := "";
      barVisible := false;
      runLinterOnSave := configured;
      dia := new DiagnosticCollection();
    }

    /**
     * The collection and the bar after a run of `runLinter` from the given
     * state, and how the run ends.
     */
    ghost predicate RanLinter(file: Path, fs: set<Path>, output: seq<Line>, now: Clock, outcome: Outcome,
                              oldFiles: seq<Path>, oldEntries: map<Path, seq<Diagnostic>>, oldText: string)
      reads this, dia
    {
      var req := Dispatch(file, fs);
      && (outcome == Spinning <==> req.Hangs?)
      && (outcome == Thrown <==> req.Returns? && MissingMessage in output)
      && (outcome != Completed ==> dia.files == oldFiles && dia.entries == oldEntries && barText == oldText)
      && (outcome == Completed ==>
            Applied(req.value, output, fs, oldFiles, oldEntries, dia.files, dia.entries) && barText == TimeText(now))
    }

    /**
     * `runLinter`: the example or the whole crate is linted and the time
     * shown. It never returns for a file with no crate; a parse that throws
     * leaves the collection and the bar as they were.
     */
    method RunLinter(file: Path, fs: set<Path>, output: seq<Line>, now: Clock) returns (outcome: Outcome)
      requires dia.Valid()
      modifies this, dia
      ensures dia.Valid()
      ensures RanLinter(file, fs, output, now, outcome, old(dia.files), old(dia.entries), old(barText))
      ensures hasRunLinterOnce == old(hasRunLinterOnce) && barVisible == old(barVisible)
      ensures runLinterOnSave == old(runLinterOnSave)
    {
      var crate := FindCrateRoot(file, fs);
      if crate.Hangs? {
        return Spinning;
      }
      var completed := Lint(Dispatch(file, fs).value, output, fs, dia);
      if !completed {
        return Thrown;
      }
      barText := TimeText(now);
      outcome := Completed;
    }

    /**
     * `activate`: the bar shows the default text, then the active Rust
     * document, or else the workspace's manifest, is linted. The latch is
     * set only once the run has returned.
     */
    method Activate(activeEditor: Option<Document>, workspaceRoot: Path, fs: set<Path>,
                    output: seq<Line>, now: Clock) returns (outcome: Outcome)
      requires dia.Valid()
      modifies this, dia
      ensures dia.Valid() && barVisible
      ensures runLinterOnSave == old(runLinterOnSave)
      ensures activeEditor.Some? && activeEditor.value.languageId == "rust" ==>
                RanLinter(activeEditor.value.fileName, fs, output, now, outcome, old(dia.files), old(dia.entries),
                          DefaultBarText) &&
                hasRunLinterOnce == (old(hasRunLinterOnce) || outcome == Completed)
      ensures !(activeEditor.Some? && activeEditor.value.languageId == "rust") && workspaceRoot + [Manifest] in fs ==>
                RanLinter(workspaceRoot + [Manifest], fs, output, now, outcome, old(dia.files), old(dia.entries),
                          DefaultBarText) &&
                hasRunLinterOnce == (old(hasRunLinterOnce) || outcome == Completed)
      ensures !(activeEditor.Some? && activeEditor.value.languageId == "rust") && workspaceRoot + [Manifest] !in fs ==>
                outcome == Completed && barText == DefaultBarText && hasRunLinterOnce == old(hasRunLinterOnce) &&
                dia.files == old(dia.files) && dia.entries == old(dia.entries)
    {
      barText := DefaultBarText;
      barVisible := true;
      outcome := Completed;
      if activeEditor.Some? && activeEditor.value.languageId == "rust" {
        outcome := RunLinter(activeEditor.value.fileName, fs, output, now);
        if outcome == Completed {
          hasRunLinterOnce := true;
        }
      } else if workspaceRoot + [Manifest] in fs {
        outcome := RunLinter(workspaceRoot + [Manifest], fs, output, now);
        if outcome == Completed {
          hasRunLinterOnce := true;
        }
      }
    }

    /** The `onDidSaveTextDocument` listener: Rust files and manifests are linted when the setting is on. */
    method OnDidSaveTextDocument(document: Document, fs: set<Path>, output: seq<Line>, now: Clock)
      returns (outcome: Outcome)
      requires dia.Valid()
      modifies this, dia
      ensures dia.Valid()
      ensures hasRunLinterOnce == old(hasRunLinterOnce) && barVisible == old(barVisible)
      ensures runLinterOnSave == old(runLinterOnSave)
      ensures (document.languageId == "rust" || IsCargoFile(document)) && runLinterOnSave ==>
                RanLinter(document.fileName, fs, output, now, outcome, old(dia.files), old(dia.entries), old(barText))
      ensures !((document.languageId == "rust" || IsCargoFile(document)) && runLinterOnSave) ==>
                outcome == Completed && barText == old(barText) &&
                dia.files == old(dia.files) && dia.entries == old(dia.entries)
    {
      outcome := Completed;
      if (document.languageId == "rust" || IsCargoFile(document)) && runLinterOnSave {
        outcome := RunLinter(document.fileName, fs, output, now);
      }
    }

    /**
     * The `onDidChangeActiveTextEditor` listener. For a Rust document the
     * bar is shown and the file is linted if nothing has been linted yet, or
     * if it is an example the collection knows nothing of. For another
     * document in a cargo workspace the first run is made and the bar shown;
     * outside one the bar is hidden. For a Rust file without a crate,
     * `isExample` never returns.
     */
    method OnDidChangeActiveTextEditor(editor: Option<Document>, workspaceRoot: Path, fs: set<Path>,
                                       output: seq<Line>, now: Clock) returns (outcome: Outcome)
      requires dia.Valid()
      modifies this, dia
      ensures dia.Valid()
      ensures runLinterOnSave == old(runLinterOnSave)
      ensures old(hasRunLinterOnce) ==> hasRunLinterOnce
      ensures editor.None? ==>
                outcome == Completed && barText == old(barText) && barVisible == old(barVisible) &&
                hasRunLinterOnce == old(hasRunLinterOnce) &&
                dia.files == old(dia.files) && dia.entries == old(dia.entries)
      ensures editor.Some? && editor.value.languageId == "rust" ==>
                var file := editor.value.fileName;
                && barVisible
                && (!old(hasRunLinterOnce) ==>
                      RanLinter(file, fs, output, now, outcome, old(dia.files), old(dia.entries), old(barText)) &&
                      hasRunLinterOnce == (outcome == Completed))
                && (old(hasRunLinterOnce) && IsExample(file, fs).Hangs? ==>
                      outcome == Spinning && barText == old(barText) &&
                      dia.files == old(dia.files) && dia.entries == old(dia.entries))
                && (old(hasRunLinterOnce) && IsExample(file, fs) == Returns(true) && file !in old(dia.entries) ==>
                      RanLinter(file, fs, output, now, outcome, old(dia.files), old(dia.entries), old(barText)))
                && (old(hasRunLinterOnce) && IsExample(file, fs).Returns? &&
                    !(IsExample(file, fs) == Returns(true) && file !in old(dia.entries)) ==>
                      outcome == Completed && barText == old(barText) &&
                      dia.files == old(dia.files) && dia.entries == old(dia.entries))
      ensures editor.Some? && editor.value.languageId != "rust" && workspaceRoot + [Manifest] in fs ==>
                var file := editor.value.fileName;
                && (!old(hasRunLinterOnce) ==>
                      RanLinter(file, fs, output, now, outcome, old(dia.files), old(dia.entries), old(barText)) &&
                      hasRunLinterOnce == (outcome == Completed) &&
                      barVisible == (outcome == Completed || old(barVisible)))
                && (old(hasRunLinterOnce) ==>
                      outcome == Completed && barVisible && barText == old(barText) &&
                      dia.files == old(dia.files) && dia.entries == old(dia.entries))
      ensures editor.Some? && editor.value.languageId != "rust" && workspaceRoot + [Manifest] !in fs ==>
                outcome == Completed && !barVisible && barText == old(barText) &&
                hasRunLinterOnce == old(hasRunLinterOnce) &&
                dia.files == old(dia.files) && dia.entries == old(dia.entries)
    {
      outcome := Completed;
      if editor.None? {
        return;
      }
      var file := editor.value.fileName;
      if editor.value.languageId == "rust" {
        barVisible := true;
        if !hasRunLinterOnce {
          outcome := RunLinter(file, fs, output, now);
          if outcome == Completed {
            hasRunLinterOnce := true;
          }
        } else {
          var example := IsExample(file, fs);
          if example.Hangs? {
            return Spinning;
          }
          if example.value && dia.Get(file).None? {
            outcome := RunLinter(file, fs, output, now);
          }
        }
      } else {
        if workspaceRoot + [Manifest] in fs {
          if !hasRunLinterOnce {
            outcome := RunLinter(file, fs, output, now);
            if outcome != Completed {
              return;
            }
            hasRunLinterOnce := true;
          }
          barVisible := true;
        } else {
          barVisible := false;
        }
      }
    }

    /** The `onDidChangeConfiguration` listener: the setting is read again. */
    method OnDidChangeConfiguration(configured: bool)
      modifies this
      ensures runLinterOnSave == configured
      ensures hasRunLinterOnce == old(hasRunLinterOnce) && barText == old(barText) && barVisible == old(barVisible)
    {
      runLinterOnSave := configured;
    }
  }
}
