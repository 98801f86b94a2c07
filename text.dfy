/**
 * Decimal text of numbers, as JavaScript's template literals print them
 * and as `parseInt` reads them back.
 */
module Text {
  import opened Wrappers
  predicate IsDigit(c: char)
  {
    '0' <= c <= '9'
  }

  predicate AllDigits(s: string)
  {
    forall i :: 0 <= i < |s| ==> IsDigit(s[i])
  }

  function DigitChar(d: nat): (c: char)
    requires d < 10
    ensures IsDigit(c) && c as int - '0' as int == d
  {
    ('0' as int + d) as char
  }

  /** The decimal rendering of a non-negative number (`${n}`). */
  function NatToString(n: nat): (s: string)
    ensures |s| >= 1 && AllDigits(s)
    ensures n < 10 <==> |s| == 1
    ensures 10 <= n < 100 ==> |s| == 2
  {
    if n < 10 then [DigitChar(n)] else NatToString(n / 10) + [DigitChar(n % 10)]
  }

  /** `parseInt` on a string of decimal digits. */
  function ParseDecimal(s: string): nat
    requires AllDigits(s)
  {
    if s == [] then 0 else ParseDecimal(s[..|s| - 1]) * 10 + (s[|s| - 1] as int - '0' as int)
  }

  lemma {:induction false} ParseNatToString(n: nat)
    ensures ParseDecimal(NatToString(n)) == n
  {
    if n >= 10 {
      var s := NatToString(n);
      assert s[..|s| - 1] == NatToString(n / 10);
      ParseNatToString(n / 10);
    }
  }

  /** `n > 9 ? n : "0" + n`: a number padded to two digits. */
  function Pad2(n: nat): (s: string)
    ensures |s| >= 2 && (n <= 99 ==> |s| == 2)
    ensures AllDigits(s) && ParseDecimal(s) == n
  {
    ParseNatToString(n);
    if n > 9 then NatToString(n)
    else
      var s := "0" + NatToString(n);
      assert s[..|s| - 1] == "0";
      s
  }
  /** The number of decimal digits at the start of `s`. */
  function LeadingDigits(s: string): (k: nat)
    ensures k <= |s| && AllDigits(s[..k])
    ensures k < |s| ==> !IsDigit(s[k])
  {
    if s == [] || !IsDigit(s[0]) then 0
    else
      var k := 1 + LeadingDigits(s[1..]);
      assert s[..k] == [s[0]] + s[1..][..k - 1];
      k
  }

  /** Digits followed by a non-digit (or nothing) are read up to that point. */
  lemma {:induction false} LeadingDigitsOf(d: string, rest: string)
    requires AllDigits(d)
    requires rest == [] || !IsDigit(rest[0])
    ensures LeadingDigits(d + rest) == |d|
  {
    if d != [] {
      assert (d + rest)[1..] == d[1..] + rest;
      LeadingDigitsOf(d[1..], rest);
    } else {
      assert d + rest == rest;
    }
  }

  /**
   * Reads the number at the start of `s` (as `parseInt` does) and returns it
   * with the text after it; `None` when `s` does not start with a digit.
   */
  function ReadNumber(s: string): (r: Option<(nat, string)>)
    ensures r.Some? ==> r.value.1 == s[LeadingDigits(s)..]
  {
    var k := LeadingDigits(s);
    if k == 0 then None else Some((ParseDecimal(s[..k]), s[k..]))
  }

  /** A printed number is read back, and the text after it is left over. */
  lemma ReadPrinted(n: nat, rest: string)
    requires rest == [] || !IsDigit(rest[0])
    ensures ReadNumber(NatToString(n) + rest) == Some((n, rest))
  {
    ReadDigits(NatToString(n), rest);
    ParseNatToString(n);
  }

  /** A run of digits is read as its value, and the text after it is left over. */
  lemma ReadDigits(d: string, rest: string)
    requires d != [] && AllDigits(d)
    requires rest == [] || !IsDigit(rest[0])
    ensures ReadNumber(d + rest) == Some((ParseDecimal(d), rest))
  {
    LeadingDigitsOf(d, rest);
    assert (d + rest)[..|d|] == d;
    assert (d + rest)[|d|..] == rest;
  }

  /** The text after the literal `lit` at the start of `s`. */
  function After(s: string, lit: string): (r: Option<string>)
    ensures r.Some? <==> lit <= s
    ensures r.Some? ==> s == lit + r.value
  {
    if lit <= s then Some(s[|lit|..]) else None
  }

  lemma AfterLiteral(lit: string, rest: string)
    ensures After(lit + rest, lit) == Some(rest)
  {
    assert lit <= lit + rest;
    assert (lit + rest)[|lit|..] == rest;
  }

  /** The number right after the literal `lit` at the start of `s`, and the text after it. */
  function ReadAfter(s: string, lit: string): Option<(nat, string)>
  {
    match After(s, lit)
    case None => None
    case Some(t) => ReadNumber(t)
  }

  /**
   * A text made of literals and digit runs in turn: `lits[0]`, `ds[0]`,
   * `lits[1]`, `ds[1]`, and so on (a template literal whose holes are
   * numbers).
   */
  function Interleave(lits: seq<string>, ds: seq<string>): string
    requires |lits| == |ds|
  {
    if lits == [] then "" else lits[0] + (ds[0] + Interleave(lits[1..], ds[1..]))
  }

  /** Reads the numbers of a text made by `Interleave` with the literals `lits`; the text must end there. */
  function ReadFields(s: string, lits: seq<string>): (r: Option<seq<nat>>)
    ensures r.Some? ==> |r.value| == |lits|
  {
    if lits == [] then (if s == "" then Some([]) else None)
    else
      match ReadAfter(s, lits[0])
      case None => None
      case Some((n, rest)) =>
        match ReadFields(rest, lits[1..])
        case None => None
        case Some(ns) => Some([n] + ns)
  }

  /** Every literal after the first starts with a character that is not a digit. */
  predicate Separated(lits: seq<string>)
  {
    forall i :: 1 <= i < |lits| ==> lits[i] != [] && !IsDigit(lits[i][0])
  }

  predicate AllRuns(ds: seq<string>)
  {
    forall i :: 0 <= i < |ds| ==> ds[i] != [] && AllDigits(ds[i])
  }

  /** The values of the digit runs. */
  function Values(ds: seq<string>): (r: seq<nat>)
    requires AllRuns(ds)
    ensures |r| == |ds| && forall i :: 0 <= i < |ds| ==> r[i] == ParseDecimal(ds[i])
  {
    if ds == [] then [] else [ParseDecimal(ds[0])] + Values(ds[1..])
  }

  /** The numbers of an interleaved text are read back. */
  lemma {:induction false} ReadInterleaved(lits: seq<string>, ds: seq<string>)
    requires |lits| == |ds| && Separated(lits) && AllRuns(ds)
    ensures ReadFields(Interleave(lits, ds), lits) == Some(Values(ds))
  {
    if lits != [] {
      var rest := Interleave(lits[1..], ds[1..]);
      assert Separated(lits[1..]);
      ReadInterleaved(lits[1..], ds[1..]);
      if lits[1..] != [] {
        assert rest == lits[1] + (ds[1] + Interleave(lits[2..], ds[2..]));
        assert rest[0] == lits[1][0];
      }
      AfterLiteral(lits[0], ds[0] + rest);
      ReadDigits(ds[0], rest);
    }
  }
}
