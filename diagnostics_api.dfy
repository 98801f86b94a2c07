/**
 * The editor's diagnostic types and its DiagnosticCollection, the shared
 * store every lint writes into and every status bar reads from.
 */
module Diagnostics {
  import opened Wrappers
  import opened Paths

  /** The editor's DiagnosticSeverity. */
  datatype Severity = Error | Warning | Information | Hint

  /**
   * The severity `new Diagnostic(range, message, severity)` stores: an
   * `undefined` severity defaults to Error.
   */
  function StoredSeverity(severity: Option<Severity>): (s: Severity)
    ensures severity.Some? ==> s == severity.value
    ensures severity.None? ==> s == Error
  {
    if severity.None? then Error else severity.value
  }

  /** A zero-based range (`new Range(startLine, startCharacter, endLine, endCharacter)`). */
  datatype Range = Range(startLine: int, startCharacter: int, endLine: int, endCharacter: int)

  datatype Diagnostic = Diagnostic(
    range: Range,
    message: string,
    severity: Severity,
    code: Option<string>,
    source: Option<string>)

  predicate Distinct<T(==)>(s: seq<T>)
  {
    forall i, j :: 0 <= i < j < |s| ==> s[i] != s[j]
  }

  /**
   * A file-to-diagnostics map that remembers the order in which files were
   * first added, as a JavaScript Map does.
   */
  datatype FileMap = FileMap(files: seq<Path>, entries: map<Path, seq<Diagnostic>>)
  {
    ghost predicate Valid()
    {
      Distinct(files) && forall f :: f in entries <==> f in files
    }
  }

  const EmptyFileMap := FileMap([], map[])

  /** `s` without the element `x`, order kept. */
  function Without(s: seq<Path>, x: Path): (r: seq<Path>)
    ensures forall y :: y in r <==> y in s && y != x
    ensures Distinct(s) ==> Distinct(r)
    ensures x !in s ==> r == s
  {
    if s == [] then []
    else
      var rest := Without(s[1..], x);
      assert Distinct(s) ==> Distinct(s[1..]) && s[0] !in s[1..] by {
        if Distinct(s) {
          forall k | 0 <= k < |s[1..]| ensures s[1..][k] != s[0] {
            assert s[1..][k] == s[k + 1];
          }
        }
      }
      (if s[0] == x then [] else [s[0]]) + rest
  }

  lemma {:induction false} WithoutAppend(a: seq<Path>, b: seq<Path>, x: Path)
    ensures Without(a + b, x) == Without(a, x) + Without(b, x)
  {
    if a != [] {
      assert (a + b)[1..] == a[1..] + b;
      WithoutAppend(a[1..], b, x);
    } else {
      assert a + b == b;
    }
  }

  class DiagnosticCollection {
    /** Files in iteration order (`forEach` visits them in this order). */
    var files: seq<Path>
    var entries: map<Path, seq<Diagnostic>>

    ghost predicate Valid()
      reads this
    {
      FileMap(files, entries).Valid()
    }

    constructor ()
      ensures Valid() && files == [] && entries == map[]
    {
      files, entries := [], map[];
    }

    /** `dia.get(uri)`: the file's diagnostics, `undefined` when it has no entry. */
    function Get(f: Path): (r: Option<seq<Diagnostic>>)
      reads this
      ensures r.Some? <==> f in entries
      ensures r.Some? ==> r.value == entries[f]
    {
      if f in entries then Some(entries[f]) else None
    }

    /** `dia.set(uri, diagnostics)`: replaces one file's list; a new file goes last. */
    method Set(f: Path, ds: seq<Diagnostic>)
      requires Valid()
      modifies this
      ensures Valid()
      ensures entries == old(entries)[f := ds]
      ensures files == if f in old(entries) then old(files) else old(files) + [f]
    {
      if f !in entries {
        files := files + [f];
      }
      entries := entries[f := ds];
    }

    /** `dia.delete(uri)`. */
    method Delete(f: Path)
      requires Valid()
      modifies this
      ensures Valid()
      ensures entries == old(entries) - {f}
      ensures files == Without(old(files), f)
    {
      files := Without(files, f);
      entries := entries - {f};
    }

    /** `dia.clear()`. */
    method Clear()
      modifies this
      ensures Valid() && files == [] && entries == map[]
    {
      files, entries := [], map[];
    }
  }
}
