/**
 * The line-by-line walk over `cargo --message-format json` output that both
 * parsers share: blank lines and lines that are not JSON are skipped, a
 * JSON value without a `message` object aborts the walk (reading
 * `tm.level` of `undefined` throws), and every record a converter keeps is
 * appended to its file's list, files in order of first appearance.
 */
module DiagnosticStream {
  import opened Wrappers
  import opened Paths
  import opened Diagnostics

  /** One entry of a compiler message's `spans` (1-based lines and columns). */
  datatype Span = Span(
    fileName: Path,
    isPrimary: bool,
    lineStart: int,
    columnStart: int,
    lineEnd: int,
    columnEnd: int,
    spanLabel: string)

  /** The `message` object of one record; `children` holds the children's messages. */
  datatype CompilerMessage = CompilerMessage(
    level: string,
    message: string,
    spans: seq<Span>,
    children: seq<string>,
    code: Option<string>)

  /** One line of the output after `JSON.parse`. */
  datatype Line =
    | Blank                        // ""
    | Malformed                    // JSON.parse throws
    | MissingMessage               // valid JSON whose `message` field is absent
    | Record(msg: CompilerMessage)

  /** A diagnostic together with the file it is filed under. */
  datatype Entry = Entry(file: Path, diagnostic: Diagnostic)

  /** The record-to-diagnostic step each parser supplies (`None`: the record is dropped). */
  type Converter = CompilerMessage -> Option<Entry>

  const AbortNoise := "aborting due to previous error"

  /** `spans.find(span => span.is_primary)`. */
  function FirstPrimary(spans: seq<Span>): (r: Option<Span>)
    ensures r.None? <==> forall j :: 0 <= j < |spans| ==> !spans[j].isPrimary
    ensures r.Some? ==> exists i :: 0 <= i < |spans| && spans[i] == r.value && r.value.isPrimary &&
                                    forall j :: 0 <= j < i ==> !spans[j].isPrimary
  {
    if spans == [] then None
    else if spans[0].isPrimary then Some(spans[0])
    else
      var r := FirstPrimary(spans[1..]);
      assert forall j :: 1 <= j < |spans| ==> spans[j] == spans[1..][j - 1];
      r
  }

  /**
   * The level-to-severity mapping of both parsers; `None` is the `undefined`
   * the local variable keeps for any other level.
   */
  function SeverityOf(level: string): (s: Option<Severity>)
    ensures s == Some(Error) <==> level == "error"
    ensures s == Some(Warning) <==> level == "warning"
    ensures s.None? <==> level != "error" && level != "warning"
  {
    if level == "error" then Some(Error)
    else if level == "warning" then Some(Warning)
    else None
  }

  /** The span's 1-based positions moved to the editor's 0-based range. */
  function ZeroBased(span: Span): (r: Range)
    ensures r.startLine + 1 == span.lineStart && r.startCharacter + 1 == span.columnStart
    ensures r.endLine + 1 == span.lineEnd && r.endCharacter + 1 == span.columnEnd
  {
    Range(span.lineStart - 1, span.columnStart - 1, span.lineEnd - 1, span.columnEnd - 1)
  }

  /** `map.get(file)`, then `push` or `set(file, [d])`. */
  function Append(m: FileMap, e: Entry): (r: FileMap)
    requires m.Valid()
    ensures r.Valid()
    ensures r.entries == m.entries[e.file := (if e.file in m.entries then m.entries[e.file] else []) + [e.diagnostic]]
    ensures r.files == if e.file in m.entries then m.files else m.files + [e.file]
  {
    if e.file in m.entries then FileMap(m.files, m.entries[e.file := m.entries[e.file] + [e.diagnostic]])
    else
      assert [] + [e.diagnostic] == [e.diagnostic];
      FileMap(m.files + [e.file], m.entries[e.file := [e.diagnostic]])
  }

  /** One line's effect on the map built so far (`None`: the walk has thrown). */
  function Step(acc: Option<FileMap>, line: Line, convert: Converter): (r: Option<FileMap>)
    requires acc.Some? ==> acc.value.Valid()
    ensures r.Some? ==> r.value.Valid()
  {
    match acc
    case None => None
    case Some(m) =>
      match line
      case Blank => acc
      case Malformed => acc
      case MissingMessage => None
      case Record(msg) =>
        match convert(msg)
        case None => acc
        case Some(e) => Some(Append(m, e))
  }

  /** The map after walking all lines, in order. */
  function Collect(lines: seq<Line>, convert: Converter): (r: Option<FileMap>)
    ensures r.Some? ==> r.value.Valid()
    decreases |lines|
  {
    if lines == [] then Some(EmptyFileMap)
    else Step(Collect(lines[..|lines| - 1], convert), lines[|lines| - 1], convert)
  }

  /** The entries the converter keeps, in arrival order: an independent account of the walk. */
  function Kept(lines: seq<Line>, convert: Converter): seq<Entry>
    decreases |lines|
  {
    if lines == [] then []
    else
      var last := lines[|lines| - 1];
      Kept(lines[..|lines| - 1], convert) +
        (if last.Record? && convert(last.msg).Some? then [convert(last.msg).value] else [])
  }

  /** The diagnostics of the entries filed under `f`, in order. */
  function DiagnosticsFor(es: seq<Entry>, f: Path): seq<Diagnostic>
  {
    if es == [] then []
    else DiagnosticsFor(es[..|es| - 1], f) + (if es[|es| - 1].file == f then [es[|es| - 1].diagnostic] else [])
  }

  /** The files the entries are filed under, each once, in order of first appearance. */
  function FirstMentions(es: seq<Entry>): (r: seq<Path>)
    ensures forall f :: f in r <==> exists e :: e in es && e.file == f
    ensures Distinct(r)
  {
    if es == [] then []
    else
      var init := es[..|es| - 1];
      var f := es[|es| - 1].file;
      assert forall e :: e in es <==> e in init || e == es[|es| - 1];
      FirstMentions(init) + (if f in FirstMentions(init) then [] else [f])
  }

  /**
   * The walk groups the kept entries by file: a file has an entry exactly
   * when some kept record is filed under it, and its list holds those
   * records' diagnostics in arrival order. The files are in the order in
   * which kept records first name them.
   */
  lemma {:induction false} CollectGroupsByFile(lines: seq<Line>, convert: Converter)
    requires Collect(lines, convert).Some?
    ensures var m := Collect(lines, convert).value;
            forall f :: (f in m.entries <==> DiagnosticsFor(Kept(lines, convert), f) != []) &&
                        (f in m.entries ==> m.entries[f] == DiagnosticsFor(Kept(lines, convert), f))
    ensures Collect(lines, convert).value.files == FirstMentions(Kept(lines, convert))
  {
    if lines != [] {
      var init := lines[..|lines| - 1];
      var last := lines[|lines| - 1];
      CollectGroupsByFile(init, convert);
      var m0 := Collect(init, convert).value;
      var k0 := Kept(init, convert);
      if last.Record? && convert(last.msg).Some? {
        var e := convert(last.msg).value;
        assert Kept(lines, convert) == k0 + [e];
        assert (k0 + [e])[..|k0 + [e]| - 1] == k0;
        forall f
          ensures DiagnosticsFor(k0 + [e], f) ==
                  DiagnosticsFor(k0, f) + (if e.file == f then [e.diagnostic] else [])
        {
        }
      } else {
        assert Kept(lines, convert) == k0;
      }
    }
  }

  /** Once the walk has thrown it stays thrown. */
  lemma {:induction false} AbortedStaysAborted(a: seq<Line>, b: seq<Line>, convert: Converter)
    requires Collect(a, convert).None?
    ensures Collect(a + b, convert).None?
    decreases |b|
  {
    if b == [] {
      assert a + b == a;
    } else {
      var b' := b[..|b| - 1];
      assert (a + b)[..|a + b| - 1] == a + b';
      AbortedStaysAborted(a, b', convert);
    }
  }

  /** The walk throws exactly when some line is valid JSON without a `message`. */
  lemma {:induction false} CollectAbortsIff(lines: seq<Line>, convert: Converter)
    ensures Collect(lines, convert).None? <==> MissingMessage in lines
  {
    if lines != [] {
      var init := lines[..|lines| - 1];
      CollectAbortsIff(init, convert);
      assert lines == init + [lines[|lines| - 1]];
    }
  }

  /**
   * A blank or non-JSON line is skipped without stopping the lines after it:
   * removing it changes nothing.
   */
  lemma {:induction false} SkippedLineIsInert(a: seq<Line>, line: Line, b: seq<Line>, convert: Converter)
    requires line == Blank || line == Malformed
    ensures Collect(a + [line] + b, convert) == Collect(a + b, convert)
    decreases |b|
  {
    if b == [] {
      assert (a + [line] + b)[..|a + [line] + b| - 1] == a;
      assert a + b == a;
    } else {
      var b' := b[..|b| - 1];
      assert (a + [line] + b)[..|a + [line] + b| - 1] == a + [line] + b';
      assert (a + b)[..|a + b| - 1] == a + b';
      SkippedLineIsInert(a, line, b', convert);
    }
  }

  /** An output in which the converter keeps nothing and nothing throws gives the empty map. */
  lemma {:induction false} NothingKeptGivesEmpty(lines: seq<Line>, convert: Converter)
    requires MissingMessage !in lines
    requires Kept(lines, convert) == []
    ensures Collect(lines, convert) == Some(EmptyFileMap)
  {
    if lines != [] {
      var init := lines[..|lines| - 1];
      assert Kept(init, convert) == [];
      assert forall x :: x in init ==> x in lines;
      NothingKeptGivesEmpty(init, convert);
    }
  }

  /** If the converter drops every record, nothing is kept. */
  lemma {:induction false} KeptNothing(lines: seq<Line>, convert: Converter)
    requires forall i :: 0 <= i < |lines| && lines[i].Record? ==> convert(lines[i].msg).None?
    ensures Kept(lines, convert) == []
  {
    if lines != [] {
      var init := lines[..|lines| - 1];
      assert forall i :: 0 <= i < |init| ==> init[i] == lines[i];
      KeptNothing(init, convert);
    }
  }

  /** The `forEach` over the output lines that fills a fresh Map. */
  method CollectDiagnostics(lines: seq<Line>, convert: Converter) returns (r: Option<FileMap>)
    ensures r == Collect(lines, convert)
  {
    var files: seq<Path> := [];
    var entries: map<Path, seq<Diagnostic>> := map[];
    for i := 0 to |lines|
      invariant Collect(lines[..i], convert) == Some(FileMap(files, entries))
    {
      assert lines[..i + 1][..i] == lines[..i];
      match lines[i]
      case Blank =>
      case Malformed =>
      case MissingMessage =>
        assert lines[..i + 1] + lines[i + 1..] == lines;
        AbortedStaysAborted(lines[..i + 1], lines[i + 1..], convert);
        return None;
      case Record(msg) =>
        var converted := convert(msg);
        if converted.Some? {
          var e := converted.value;
          if e.file in entries {
            entries := entries[e.file := entries[e.file] + [e.diagnostic]];
          } else {
            files := files + [e.file];
            entries := entries[e.file := [e.diagnostic]];
          }
        }
    }
    assert lines[..|lines|] == lines;
    r := Some(FileMap(files, entries));
  }

  /** The files of `s` that `known` has no entry for, in order. */
  function NewFiles(s: seq<Path>, known: map<Path, seq<Diagnostic>>): (r: seq<Path>)
    ensures forall f :: f in r <==> f in s && f !in known
  {
    if s == [] then []
    else NewFiles(s[..|s| - 1], known) + (if s[|s| - 1] !in known then [s[|s| - 1]] else [])
  }

  /** Into an empty collection every file is new. */
  lemma {:induction false} NoNewFilesWhenEmpty(s: seq<Path>)
    ensures NewFiles(s, map[]) == s
  {
    if s != [] {
      var init := s[..|s| - 1];
      NoNewFilesWhenEmpty(init);
      assert NewFiles(s, map[]) == NewFiles(init, map[]) + [s[|s| - 1]];
      assert init + [s[|s| - 1]] == s;
    }
  }

  /**
   * `map.forEach((diagnostics, filepath) => dia.set(Uri.file(filepath), diagnostics))`:
   * every file of the map gets the map's list, the other files keep theirs,
   * and files new to the collection are added in the map's order.
   */
  method Publish(m: FileMap, dia: DiagnosticCollection)
    requires m.Valid() && dia.Valid()
    modifies dia
    ensures dia.Valid()
    ensures dia.entries == old(dia.entries) + m.entries
    ensures dia.files == old(dia.files) + NewFiles(m.files, old(dia.entries))
  {
    ghost var entries0 := dia.entries;
    ghost var files0 := dia.files;
    for i := 0 to |m.files|
      invariant PublishedUpTo(m, i, dia, entries0, files0)
    {
      PublishNext(m, i, dia, entries0, files0);
    }
    assert m.files[..|m.files|] == m.files;
    assert PrefixEntries(m, |m.files|) == m.entries;
  }

  ghost predicate PublishedUpTo(m: FileMap, i: nat, dia: DiagnosticCollection,
                                entries0: map<Path, seq<Diagnostic>>, files0: seq<Path>)
    reads dia
  {
    && m.Valid() && i <= |m.files| && dia.Valid()
    && dia.entries == entries0 + PrefixEntries(m, i)
    && dia.files == files0 + NewFiles(m.files[..i], entries0)
  }

  /** One `dia.set` of the `forEach` in `Publish`. */
  method PublishNext(m: FileMap, i: nat, dia: DiagnosticCollection,
                     ghost entries0: map<Path, seq<Diagnostic>>, ghost files0: seq<Path>)
    requires PublishedUpTo(m, i, dia, entries0, files0) && i < |m.files|
    modifies dia
    ensures PublishedUpTo(m, i + 1, dia, entries0, files0)
  {
    var f := m.files[i];
    ghost var before := PrefixEntries(m, i);
    ghost var after := PrefixEntries(m, i + 1);
    PrefixEntriesStep(m, i);
    UpdateUnion(entries0, before, f, m.entries[f]);
    NewFilesStep(m.files, i, entries0);
    assert f in dia.entries <==> f in entries0;
    dia.Set(f, m.entries[f]);
    calc {
      dia.entries;
      (entries0 + before)[f := m.entries[f]];
      entries0 + before[f := m.entries[f]];
      entries0 + after;
    }
  }

  /** Updating a union updates its right operand. */
  lemma UpdateUnion(a: map<Path, seq<Diagnostic>>, b: map<Path, seq<Diagnostic>>, f: Path, v: seq<Diagnostic>)
    ensures (a + b)[f := v] == a + b[f := v]
  {
  }

  /** The next file of the map is not yet published, and publishing it adds its list. */
  lemma PrefixEntriesStep(m: FileMap, i: nat)
    requires m.Valid() && i < |m.files|
    ensures m.files[i] !in PrefixEntries(m, i)
    ensures PrefixEntries(m, i + 1) == PrefixEntries(m, i)[m.files[i] := m.entries[m.files[i]]]
  {
    var f := m.files[i];
    assert m.files[..i + 1] == m.files[..i] + [f];
    assert f !in m.files[..i] by {
      forall k | 0 <= k < i ensures m.files[k] != f { }
    }
  }

  lemma NewFilesStep(files: seq<Path>, i: nat, known: map<Path, seq<Diagnostic>>)
    requires i < |files|
    ensures NewFiles(files[..i + 1], known) ==
            NewFiles(files[..i], known) + (if files[i] !in known then [files[i]] else [])
  {
    assert files[..i + 1][..i] == files[..i];
  }

  /** The part of `m` covering its first `i` files. */
  function PrefixEntries(m: FileMap, i: nat): map<Path, seq<Diagnostic>>
    requires m.Valid() && i <= |m.files|
  {
    map f | f in m.files[..i] :: m.entries[f]
  }
}
