/**
 * String collation and the .NET whitespace test.
 *
 * `Le` is the lexicographic order on code points, which is SQLite's BINARY collation
 * (UTF-8 byte order coincides with code-point order). The model uses the same order for
 * the C# `OrderBy(n => n)` sorts.
 */
module Strings {
  import opened Wrappers
  import opened Seqs

  /** `a` sorts no later than `b`: the first differing character decides; a prefix sorts first. */
  predicate Le(a: string, b: string) {
    if a == [] then true
    else if b == [] then false
    else if a[0] != b[0] then a[0] < b[0]
    else Le(a[1..], b[1..])
  }

  predicate Lt(a: string, b: string) {
    Le(a, b) && a != b
  }

  lemma {:induction false} LeTotal(a: string, b: string)
    ensures Le(a, b) || Le(b, a)
  {
    if a != [] && b != [] && a[0] == b[0] {
      LeTotal(a[1..], b[1..]);
    }
  }

  lemma {:induction false} LeTransitive(a: string, b: string, c: string)
    requires Le(a, b) && Le(b, c)
    ensures Le(a, c)
  {
    if a != [] && b != [] && c != [] && a[0] == b[0] && b[0] == c[0] {
      LeTransitive(a[1..], b[1..], c[1..]);
    }
  }

  lemma {:induction false} LeAntisymmetric(a: string, b: string)
    requires Le(a, b) && Le(b, a)
    ensures a == b
  {
    if a != [] && b != [] {
      LeAntisymmetric(a[1..], b[1..]);
      assert a == [a[0]] + a[1..] && b == [b[0]] + b[1..];
    }
  }

  lemma LeIsTotalPreorder()
    ensures TotalPreorder(Le)
  {
    forall a: string, b: string ensures Le(a, b) || Le(b, a) {
      LeTotal(a, b);
    }
    forall a: string, b: string, c: string | Le(a, b) && Le(b, c) ensures Le(a, c) {
      LeTransitive(a, b, c);
    }
  }

  /** Ascending with no two equal entries: the shape of every name list the program shows. */
  predicate StrictlyAscending(s: seq<string>) {
    forall j, k :: 0 <= j < k < |s| ==> Lt(s[j], s[k])
  }

  /**
   * Under a total order a strictly ascending list is determined by its elements: whatever order
   * the names were collected in, the sorted result is the same.
   */
  lemma {:induction false} StrictlyAscendingUnique(a: seq<string>, b: seq<string>)
    requires StrictlyAscending(a) && StrictlyAscending(b)
    requires forall x :: x in a <==> x in b
    ensures a == b
    decreases |a|
  {
    if a != [] && b != [] {
      if a[0] != b[0] {
        assert b[0] in a;
        var j :| 0 <= j < |a| && a[j] == b[0];
        assert a[0] in b;
        var k :| 0 <= k < |b| && b[k] == a[0];
        assert Lt(a[0], a[j]) && Lt(b[0], b[k]);
        LeAntisymmetric(a[0], b[0]);
        assert false;
      }
      forall x ensures x in a[1..] <==> x in b[1..] {
        if x in a[1..] {
          var j :| 1 <= j < |a| && a[j] == x;
          assert Lt(a[0], x);
          assert x in b && x != b[0];
          var k :| 0 <= k < |b| && b[k] == x;
          assert k != 0;
          assert b[1..][k - 1] == x;
        }
        if x in b[1..] {
          var k :| 1 <= k < |b| && b[k] == x;
          assert Lt(b[0], x);
          assert x in a && x != a[0];
          var j :| 0 <= j < |a| && a[j] == x;
          assert j != 0;
          assert a[1..][j - 1] == x;
        }
      }
      StrictlyAscendingUnique(a[1..], b[1..]);
      assert a == [a[0]] + a[1..] && b == [b[0]] + b[1..];
    } else {
      FirstIsMember(a);
      FirstIsMember(b);
    }
  }

  /** Sorting a duplicate-free list of names gives a strictly ascending list of the same names. */
  lemma SortedNames(s: seq<string>)
    requires NoDuplicates(s)
    ensures StrictlyAscending(SortBy(s, Le))
    ensures forall n :: n in SortBy(s, Le) <==> n in s
  {
    LeIsTotalPreorder();
    SortBySorted(s, Le);
    PermutationKeepsNoDuplicates(s, SortBy(s, Le));
    SameElements(s, SortBy(s, Le));
  }

  /**
   * `char.IsWhiteSpace`: the Unicode space, line and paragraph separators plus the control
   * characters U+0009 to U+000D and U+0085.
   */
  predicate IsWhiteSpace(c: char) {
    || '\U{0009}' <= c <= '\U{000D}'
    || c == '\U{0020}' || c == '\U{0085}' || c == '\U{00A0}' || c == '\U{1680}'
    || '\U{2000}' <= c <= '\U{200A}'
    || c == '\U{2028}' || c == '\U{2029}' || c == '\U{202F}' || c == '\U{205F}' || c == '\U{3000}'
  }

  /** `string.IsNullOrWhiteSpace`: null, empty, or white space only. */
  predicate IsNullOrWhiteSpace(s: Option<string>) {
    s.None? || forall k :: 0 <= k < |s.value| ==> IsWhiteSpace(s.value[k])
  }

  /** A name with a visible character: what the merged name list keeps. */
  predicate IsVisible(s: string) {
    !IsNullOrWhiteSpace(Some(s))
  }
}
