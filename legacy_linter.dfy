/**
 * src/diagnostics.ts, the earlier linter driven by src/extension.ts: the same
 * line protocol as src/linter.ts, but every message keeps its own text, is
 * tagged with the source "check", carries no code, and is dropped whenever
 * its file is outside the project, errors included.
 */
module LegacyLinter {
  import opened Wrappers
  import opened Paths
  import opened Diagnostics
  import opened DiagnosticStream

  const CheckSource := "check"

  /** The body of the line callback after the message has been read. */
  function LegacyConvert(msg: CompilerMessage, projectDir: Path, fs: set<Path>): (r: Option<Entry>)
  {
    if msg.message == AbortNoise then None
    else
      match FirstPrimary(msg.spans)
      case None => None
      case Some(primary) =>
        var file := projectDir + primary.fileName;
        if file !in fs then None
        else Some(Entry(file, Diagnostic(ZeroBased(primary), msg.message, StoredSeverity(SeverityOf(msg.level)), None,
                                           Some(CheckSource))))
  }

  function LegacyConverter(projectDir: Path, fs: set<Path>): Converter
  {
    msg => LegacyConvert(msg, projectDir, fs)
  }

  /**
   * A message yields a diagnostic exactly when it is not the abort notice,
   * has a primary span and names an existing file; the diagnostic has the
   * message's text, the span's zero-based range and the source "check".
   */
  lemma LegacyConvertKeeps(msg: CompilerMessage, projectDir: Path, fs: set<Path>)
    ensures var r := LegacyConvert(msg, projectDir, fs);
            (r.Some? <==> msg.message != AbortNoise && FirstPrimary(msg.spans).Some? &&
                          projectDir + FirstPrimary(msg.spans).value.fileName in fs) &&
            (r.Some? ==>
               var p := FirstPrimary(msg.spans).value;
               && r.value.file == projectDir + p.fileName
               && r.value.file in fs
               && r.value.diagnostic.message == msg.message
               && r.value.diagnostic.range == Range(p.lineStart - 1, p.columnStart - 1, p.lineEnd - 1, p.columnEnd - 1)
               && (r.value.diagnostic.severity == Error <==> msg.level != "warning")
               && (r.value.diagnostic.severity == Warning <==> msg.level == "warning")
               && r.value.diagnostic.source == Some(CheckSource)
               && r.value.diagnostic.code.None?)
  {
  }

  /** Every file the earlier linter files a diagnostic under exists. */
  lemma {:induction false} LegacyFilesExist(lines: seq<Line>, projectDir: Path, fs: set<Path>)
    ensures forall e :: e in Kept(lines, LegacyConverter(projectDir, fs)) ==> e.file in fs
  {
    if lines != [] {
      var init := lines[..|lines| - 1];
      LegacyFilesExist(init, projectDir, fs);
      var last := lines[|lines| - 1];
      if last.Record? {
        LegacyConvertKeeps(last.msg, projectDir, fs);
      }
    }
  }

  /**
   * `runLinterForProject` of src/diagnostics.ts once cargo's output is
   * given: the collection is cleared and then holds exactly the parsed map.
   * A throwing parse leaves the collection as it was.
   */
  method RunLegacyLinterForProject(output: seq<Line>, projectDir: Path, fs: set<Path>, dia: DiagnosticCollection)
    returns (completed: bool)
    requires dia.Valid()
    modifies dia
    ensures dia.Valid()
    ensures completed <==> MissingMessage !in output
    ensures completed ==> Some(FileMap(dia.files, dia.entries)) == Collect(output, LegacyConverter(projectDir, fs))
    ensures completed ==> forall f :: f in dia.entries ==> f in fs
    ensures !completed ==> dia.files == old(dia.files) && dia.entries == old(dia.entries)
  {
    var parsed := ParseLegacyOutput(output, projectDir, fs);
    if parsed.None? {
      return false;
    }
    var m := parsed.value;
    dia.Clear();
    Publish(m, dia);
    assert NewFiles(m.files, map[]) == m.files by {
      NoNewFilesWhenEmpty(m.files);
    }
    assert map[] + m.entries == m.entries;
    assert [] + m.files == m.files;
    assert FileMap(dia.files, dia.entries) == m;
    completed := true;
  }

  /** The `forEach` over the output lines in `runLinterForProject` of src/diagnostics.ts. */
  method ParseLegacyOutput(lines: seq<Line>, projectDir: Path, fs: set<Path>) returns (r: Option<FileMap>)
    ensures r == Collect(lines, LegacyConverter(projectDir, fs))
    ensures r.None? <==> MissingMessage in lines
    ensures r.Some? ==> forall f :: f in r.value.entries ==> f in fs
    ensures r.Some? ==> r.value.files == FirstMentions(Kept(lines, LegacyConverter(projectDir, fs)))
  {
    r := CollectDiagnostics(lines, LegacyConverter(projectDir, fs));
    CollectAbortsIff(lines, LegacyConverter(projectDir, fs));
    LegacyMapFilesExist(lines, projectDir, fs);
    if r.Some? {
      CollectGroupsByFile(lines, LegacyConverter(projectDir, fs));
    }
  }

  /** Every file of the parsed map exists. */
  lemma LegacyMapFilesExist(lines: seq<Line>, projectDir: Path, fs: set<Path>)
    ensures var r := Collect(lines, LegacyConverter(projectDir, fs));
            r.Some? ==> forall f :: f in r.value.entries ==> f in fs
  {
    var convert := LegacyConverter(projectDir, fs);
    if Collect(lines, convert).Some? {
      CollectGroupsByFile(lines, convert);
      LegacyFilesExist(lines, projectDir, fs);
      forall f | f in Collect(lines, convert).value.entries ensures f in fs {
        FiledUnderKeptFile(Kept(lines, convert), f);
      }
    }
  }

  /** A file with diagnostics is the file of some kept entry. */
  lemma {:induction false} FiledUnderKeptFile(es: seq<Entry>, f: Path)
    requires DiagnosticsFor(es, f) != []
    ensures exists e :: e in es && e.file == f
  {
    if es != [] {
      var init := es[..|es| - 1];
      if es[|es| - 1].file != f {
        FiledUnderKeptFile(init, f);
        var e :| e in init && e.file == f;
        assert e in es;
      }
    }
  }
}
