/**
 * src/linter.ts: turning cargo's JSON output into per-file diagnostics and
 * writing them into the collection, for a whole project or one example.
 */
module Linter {
  import opened Wrappers
  import opened Paths
  import opened Diagnostics
  import opened DiagnosticStream

  /** The message rustc gives type errors. */
  const MismatchedTypes := "mismatched types"

  /** The text the source compares with instead (see Findings in README). */
  const MismatchedTypesAsWritten := "mistmatched types"

  /**
   * The message a record's diagnostic gets. A record whose message is
   * `sentinel` gets its two children's text, or without exactly two
   * children its primary span's label; the source tests the sentinel
   * `MismatchedTypesAsWritten`.
   */
  function SelectMessage(msg: CompilerMessage, primary: Span, sentinel: string): string
  {
    if msg.message == sentinel then
      if |msg.children| == 2 then msg.children[0] + "\n" + msg.children[1] else primary.spanLabel
    else msg.message
  }

  /**
   * The body of the line callback after `JSON.parse`: one compiler message
   * to the diagnostic it contributes and the file it is filed under.
   */
  function Convert(msg: CompilerMessage, projectDir: Path, fs: set<Path>, sentinel: string): (r: Option<Entry>)
    ensures msg.message == AbortNoise ==> r.None?
    ensures (forall j :: 0 <= j < |msg.spans| ==> !msg.spans[j].isPrimary) ==> r.None?
    ensures r.Some? <==>
              msg.message != AbortNoise && FirstPrimary(msg.spans).Some? &&
              (projectDir + FirstPrimary(msg.spans).value.fileName in fs || msg.level == "error")
    ensures r.Some? ==>
              var p := FirstPrimary(msg.spans).value;
              var d := r.value.diagnostic;
              && r.value.file == projectDir + p.fileName
              && d.range.startLine == p.lineStart - 1 && d.range.startCharacter == p.columnStart - 1
              && d.range.endLine == p.lineEnd - 1 && d.range.endCharacter == p.columnEnd - 1
              && (d.severity == Warning <==> msg.level == "warning")
              && (d.severity == Error <==> msg.level != "warning")
              && d.code == msg.code && d.source == None
              && (msg.message != sentinel ==> d.message == msg.message)
              && (msg.message == sentinel && |msg.children| == 2 ==>
                    d.message == msg.children[0] + "\n" + msg.children[1])
              && (msg.message == sentinel && |msg.children| != 2 ==> d.message == p.spanLabel)
  {
    if msg.message == AbortNoise then None
    else
      match FirstPrimary(msg.spans)
      case None => None
      case Some(primary) =>
        var severity := SeverityOf(msg.level);
        var diagnostic := Diagnostic(ZeroBased(primary), SelectMessage(msg, primary, sentinel),
                                     StoredSeverity(severity), msg.code, None);
        var file := projectDir + primary.fileName;
        if file !in fs && severity != Some(Error) then None   // out-of-project warnings are ignored
        else Some(Entry(file, diagnostic))
  }

  /** The converter of linter.ts as written. */
  function Converter(projectDir: Path, fs: set<Path>): Converter
  {
    msg => Convert(msg, projectDir, fs, MismatchedTypesAsWritten)
  }

  /**
   * As written, a type-mismatch record as rustc prints it is converted like
   * any other record: its diagnostic keeps the top-level message.
   */
  lemma MisspeltCaseNeverFires(msg: CompilerMessage, projectDir: Path, fs: set<Path>)
    requires msg.message == MismatchedTypes
    ensures var r := Converter(projectDir, fs)(msg);
            r.Some? ==> r.value.diagnostic.message == MismatchedTypes
  {
    assert MismatchedTypes != MismatchedTypesAsWritten by {
      assert MismatchedTypes[3] != MismatchedTypesAsWritten[3];
    }
  }

  /**
   * With the sentinel spelt as rustc prints it, the same record is kept or
   * dropped as before, and a kept one with two children gets their text.
   */
  lemma RustcSpellingJoinsChildren(msg: CompilerMessage, projectDir: Path, fs: set<Path>)
    requires msg.message == MismatchedTypes && |msg.children| == 2
    ensures var r := Convert(msg, projectDir, fs, MismatchedTypes);
            && (r.Some? <==> Converter(projectDir, fs)(msg).Some?)
            && (r.Some? ==> r.value.diagnostic.message == msg.children[0] + "\n" + msg.children[1])
  {
  }

  /** `parseDiagnosticsFromJsonLines`; `None` when a line makes it throw. */
  method ParseDiagnosticsFromJsonLines(lines: seq<Line>, projectDir: Path, fs: set<Path>)
    returns (r: Option<FileMap>)
    ensures r == Collect(lines, Converter(projectDir, fs))
    ensures r.None? <==> MissingMessage in lines
    ensures r.Some? ==>
              forall f :: (f in r.value.entries <==> DiagnosticsFor(Kept(lines, Converter(projectDir, fs)), f) != []) &&
                          (f in r.value.entries ==>
                             r.value.entries[f] == DiagnosticsFor(Kept(lines, Converter(projectDir, fs)), f))
    ensures r.Some? ==> r.value.files == FirstMentions(Kept(lines, Converter(projectDir, fs)))
  {
    r := CollectDiagnostics(lines, Converter(projectDir, fs));
    CollectAbortsIff(lines, Converter(projectDir, fs));
    if r.Some? {
      CollectGroupsByFile(lines, Converter(projectDir, fs));
    }
  }

  /** Output made only of blank lines and the abort notice yields an empty map. */
  lemma AbortNoticeOnlyGivesEmpty(lines: seq<Line>, projectDir: Path, fs: set<Path>)
    requires forall i :: 0 <= i < |lines| ==>
               lines[i] == Blank || (lines[i].Record? && lines[i].msg.message == AbortNoise)
    ensures Collect(lines, Converter(projectDir, fs)) == Some(EmptyFileMap)
  {
    AbortNoticeKeepsNothing(lines, projectDir, fs);
    NoMissingMessage(lines);
    NothingKeptGivesEmpty(lines, Converter(projectDir, fs));
  }

  lemma NoMissingMessage(lines: seq<Line>)
    requires forall i :: 0 <= i < |lines| ==> lines[i] == Blank || lines[i].Record?
    ensures MissingMessage !in lines
  {
    forall i | 0 <= i < |lines| ensures lines[i] != MissingMessage { }
  }

  lemma AbortNoticeKeepsNothing(lines: seq<Line>, projectDir: Path, fs: set<Path>)
    requires forall i :: 0 <= i < |lines| && lines[i].Record? ==> lines[i].msg.message == AbortNoise
    ensures Kept(lines, Converter(projectDir, fs)) == []
  {
    var convert := Converter(projectDir, fs);
    forall i | 0 <= i < |lines| && lines[i].Record?
      ensures convert(lines[i].msg).None?
    {
      assert lines[i].msg.message == AbortNoise;
    }
    KeptNothing(lines, convert);
  }

  /**
   * `runLinterForProject` once cargo's output is given: the collection ends
   * up holding exactly the parsed map, in its order. A throwing parse
   * leaves the collection as it was.
   */
  method RunLinterForProject(output: seq<Line>, projectDir: Path, fs: set<Path>, dia: DiagnosticCollection)
    returns (completed: bool)
    requires dia.Valid()
    modifies dia
    ensures dia.Valid()
    ensures completed <==> MissingMessage !in output
    ensures completed ==> Some(FileMap(dia.files, dia.entries)) == Collect(output, Converter(projectDir, fs))
    ensures !completed ==> dia.files == old(dia.files) && dia.entries == old(dia.entries)
  {
    var parsed := ParseDiagnosticsFromJsonLines(output, projectDir, fs);
    if parsed.None? {
      return false;
    }
    var m := parsed.value;
    dia.Clear();
    Publish(m, dia);
    assert NewFiles(m.files, map[]) == m.files by {
      NoNewFilesWhenEmpty(m.files);
    }
    assert map[] + m.entries == m.entries;
    assert [] + m.files == m.files;
    assert FileMap(dia.files, dia.entries) == m;
    completed := true;
  }

  /**
   * `runLinterForExample` once cargo's output is given: the parsed files get
   * their new lists, every other file keeps its diagnostics.
   */
  method RunLinterForExample(output: seq<Line>, projectDir: Path, fs: set<Path>, dia: DiagnosticCollection)
    returns (completed: bool)
    requires dia.Valid()
    modifies dia
    ensures dia.Valid()
    ensures completed <==> MissingMessage !in output
    ensures completed ==>
              Collect(output, Converter(projectDir, fs)).Some? &&
              var m := Collect(output, Converter(projectDir, fs)).value;
              dia.entries == old(dia.entries) + m.entries &&
              dia.files == old(dia.files) + NewFiles(m.files, old(dia.entries))
    ensures !completed ==> dia.files == old(dia.files) && dia.entries == old(dia.entries)
  {
    var parsed := ParseDiagnosticsFromJsonLines(output, projectDir, fs);
    if parsed.None? {
      return false;
    }
    Publish(parsed.value, dia);
    completed := true;
  }
}
