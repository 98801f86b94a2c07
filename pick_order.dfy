/**
 * The order `showErrorFiles` sorts its picks in: more errors first, then
 * more warnings first, then labels in ascending string order. The sort
 * itself is the array's library sort; `SortPicks` is its result.
 */
module PickOrder {
  import opened FilePicks

  /** JavaScript's `<` on strings: code unit by code unit, a proper prefix first. */
  predicate StringLess(a: string, b: string)
  {
    if a == [] then b != []
    else if b == [] then false
    else if a[0] != b[0] then a[0] < b[0]
    else StringLess(a[1..], b[1..])
  }

  lemma {:induction false} StringLessIrreflexive(a: string)
    ensures !StringLess(a, a)
  {
    if a != [] {
      StringLessIrreflexive(a[1..]);
    }
  }

  lemma {:induction false} StringLessAsymmetric(a: string, b: string)
    requires StringLess(a, b)
    ensures !StringLess(b, a)
  {
    if a != [] && b != [] && a[0] == b[0] {
      StringLessAsymmetric(a[1..], b[1..]);
    }
  }

  lemma {:induction false} StringLessTotal(a: string, b: string)
    requires a != b
    ensures StringLess(a, b) || StringLess(b, a)
  {
    if a != [] && b != [] && a[0] == b[0] {
      assert a == [a[0]] + a[1..] && b == [b[0]] + b[1..];
      StringLessTotal(a[1..], b[1..]);
    }
  }

  lemma {:induction false} StringLessTransitive(a: string, b: string, c: string)
    requires StringLess(a, b) && StringLess(b, c)
    ensures StringLess(a, c)
  {
    if a != [] && b != [] && c != [] && a[0] == b[0] && b[0] == c[0] {
      StringLessTransitive(a[1..], b[1..], c[1..]);
    }
  }

  /** The comparator given to `picks.sort`. */
  function Compare(a: Pick, b: Pick): int
  {
    if a.errors > b.errors then -1
    else if b.errors > a.errors then 1
    else if a.warnings > b.warnings then -1
    else if b.warnings > a.warnings then 1
    else if a.labelText == b.labelText then 0
    else if StringLess(b.labelText, a.labelText) then 1
    else -1
  }

  /** `a` may come before `b`. */
  predicate InOrder(a: Pick, b: Pick)
  {
    Compare(a, b) <= 0
  }

  /**
   * The comparator is consistent: it answers the opposite with its
   * arguments swapped, is 0 exactly when the three keys agree, and orders by
   * errors descending, warnings descending, label ascending.
   */
  lemma CompareIsConsistent(a: Pick, b: Pick)
    ensures Compare(a, b) == -Compare(b, a)
    ensures Compare(a, b) == 0 <==>
              a.errors == b.errors && a.warnings == b.warnings && a.labelText == b.labelText
    ensures Compare(a, b) < 0 <==>
              a.errors > b.errors ||
              (a.errors == b.errors && a.warnings > b.warnings) ||
              (a.errors == b.errors && a.warnings == b.warnings && StringLess(a.labelText, b.labelText))
  {
    if a.labelText != b.labelText {
      StringLessTotal(a.labelText, b.labelText);
      if StringLess(a.labelText, b.labelText) {
        StringLessAsymmetric(a.labelText, b.labelText);
      } else {
        StringLessAsymmetric(b.labelText, a.labelText);
      }
    } else {
      StringLessIrreflexive(a.labelText);
    }
  }

  lemma InOrderTotal(a: Pick, b: Pick)
    ensures InOrder(a, b) || InOrder(b, a)
  {
    CompareIsConsistent(a, b);
  }

  lemma InOrderTransitive(a: Pick, b: Pick, c: Pick)
    requires InOrder(a, b) && InOrder(b, c)
    ensures InOrder(a, c)
  {
    CompareIsConsistent(a, b);
    CompareIsConsistent(b, c);
    CompareIsConsistent(a, c);
    if a.errors == b.errors == c.errors && a.warnings == b.warnings == c.warnings {
      if StringLess(a.labelText, b.labelText) && StringLess(b.labelText, c.labelText) {
        StringLessTransitive(a.labelText, b.labelText, c.labelText);
      }
    }
  }

  predicate Sorted(ps: seq<Pick>)
  {
    forall i, j :: 0 <= i < j < |ps| ==> InOrder(ps[i], ps[j])
  }

  /** `p` placed before the first pick it may precede. */
  function Insert(p: Pick, ps: seq<Pick>): (r: seq<Pick>)
    ensures multiset(r) == multiset(ps) + multiset{p}
    ensures |r| == |ps| + 1
  {
    if ps == [] then [p]
    else if InOrder(p, ps[0]) then [p] + ps
    else
      assert ps == [ps[0]] + ps[1..];
      [ps[0]] + Insert(p, ps[1..])
  }

  lemma {:induction false} InsertSorted(p: Pick, ps: seq<Pick>)
    requires Sorted(ps)
    ensures Sorted(Insert(p, ps))
  {
    if ps != [] {
      var r := Insert(p, ps);
      if InOrder(p, ps[0]) {
        forall j | 0 < j < |r| ensures InOrder(r[0], r[j]) {
          if j > 1 {
            InOrderTransitive(p, ps[0], r[j]);
          }
        }
      } else {
        InOrderTotal(p, ps[0]);
        var rest := Insert(p, ps[1..]);
        assert Sorted(ps[1..]);
        InsertSorted(p, ps[1..]);
        forall j | 0 <= j < |rest| ensures InOrder(ps[0], rest[j]) {
          assert rest[j] in multiset(rest);
          if rest[j] != p {
            assert rest[j] in multiset(ps[1..]);
            var k :| 0 <= k < |ps[1..]| && ps[1..][k] == rest[j];
            assert ps[k + 1] == rest[j];
          }
        }
      }
    }
  }

  /**
   * `picks.sort(comparator)`: the picks in comparator order (insertion
   * from the last pick backwards).
   */
  function SortPicks(ps: seq<Pick>): (r: seq<Pick>)
    ensures Sorted(r)
    ensures multiset(r) == multiset(ps)
  {
    if ps == [] then []
    else
      var rest := SortPicks(ps[1..]);
      InsertSorted(ps[0], rest);
      assert ps == [ps[0]] + ps[1..];
      Insert(ps[0], rest)
  }
}
