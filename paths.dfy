/**
 * File-system paths as sequences of segments. `[]` is the root directory
 * "/", and `["home", "u", "crate"]` is "/home/u/crate". The string form a
 * path has in the editor (its `fsPath`) is `Render(p)`; every
 * `startsWith`/`endsWith` test of the extension is made on that string.
 */
module Paths {
  type Path = seq<string>

  /** `path.dirname`: the parent directory; the root is its own parent. */
  function Dirname(p: Path): (r: Path)
    ensures p == [] ==> r == []
    ensures p != [] ==> |r| == |p| - 1 && r <= p
  {
    if p == [] then [] else p[..|p| - 1]
  }

  /** `path.basename`: the last segment, "" for the root. */
  function Basename(p: Path): string
  {
    if p == [] then "" else p[|p| - 1]
  }

  /** Segments joined with "/" (the relative-path text `path.relative` yields). */
  function Joined(segs: seq<string>): string
  {
    if segs == [] then ""
    else if |segs| == 1 then segs[0]
    else Joined(segs[..|segs| - 1]) + "/" + segs[|segs| - 1]
  }

  /** The `fsPath` string of a path. */
  function Render(p: Path): (s: string)
    ensures |s| > 0 && s[0] == '/'
  {
    "/" + Joined(p)
  }

  predicate StartsWith(s: string, prefix: string)
  {
    prefix <= s
  }

  predicate EndsWith(s: string, suffix: string)
  {
    |suffix| <= |s| && s[|s| - |suffix|..] == suffix
  }

  /** `fsPath.startsWith(root)`: the path's string starts with the root's string. */
  predicate UnderRoot(f: Path, root: Path)
  {
    StartsWith(Render(f), Render(root))
  }

  lemma {:induction false} JoinedAppend(a: seq<string>, b: seq<string>)
    requires a != [] && b != []
    ensures Joined(a + b) == Joined(a) + "/" + Joined(b)
    decreases |b|
  {
    if |b| == 1 {
      assert (a + b)[..|a + b| - 1] == a;
    } else {
      var b' := b[..|b| - 1];
      assert (a + b)[..|a + b| - 1] == a + b';
      JoinedAppend(a, b');
    }
  }

  /**
   * The string form of a path nested in a directory extends the string form
   * of that directory by "/" and the path relative to it.
   */
  lemma RenderAppend(dir: Path, rest: Path)
    requires rest != []
    ensures Render(dir + rest) == (if dir == [] then "" else Render(dir)) + "/" + Joined(rest)
  {
    if dir == [] {
      assert dir + rest == rest;
    } else {
      JoinedAppend(dir, rest);
    }
  }

  /** A file below a directory has the directory's string as a prefix. */
  lemma RenderPrefix(dir: Path, p: Path)
    requires dir <= p
    ensures StartsWith(Render(p), Render(dir))
  {
    if |p| > |dir| {
      var rest := p[|dir|..];
      assert p == dir + rest;
      RenderAppend(dir, rest);
    } else {
      assert p == dir;
    }
  }
}
