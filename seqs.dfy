/**
 * Relational operations over finite sequences of rows: the building blocks the
 * query models use for projection, selection, joins, DISTINCT and ORDER BY.
 */
module Seqs {

  /** Projection: apply `f` to every row, keeping order and multiplicity. */
  function Map<A(!new), B(!new)>(xs: seq<A>, f: A -> B): (r: seq<B>)
    ensures |r| == |xs|
    ensures forall k :: 0 <= k < |xs| ==> r[k] == f(xs[k])
    ensures forall y :: y in r <==> exists x :: x in xs && y == f(x)
  {
    seq(|xs|, k requires 0 <= k < |xs| => f(xs[k]))
  }

  /** Selection (a WHERE clause): the rows satisfying `p`, in order. */
  function Filter<A(!new)>(xs: seq<A>, p: A -> bool): (r: seq<A>)
    ensures |r| <= |xs|
    ensures forall x :: x in r <==> x in xs && p(x)
  {
    if xs == [] then [] else (if p(xs[0]) then [xs[0]] else []) + Filter(xs[1..], p)
  }

  /** Nested-loop join step: for every row `x`, the rows `f(x)` it produces, concatenated. */
  function FlatMap<A(!new), B(!new)>(xs: seq<A>, f: A -> seq<B>): (r: seq<B>)
    ensures forall y :: y in r <==> exists x :: x in xs && y in f(x)
  {
    if xs == [] then [] else f(xs[0]) + FlatMap(xs[1..], f)
  }

  /** A join in which every outer row produces at least one row never has fewer rows than its input. */
  lemma {:induction false} FlatMapAtLeastOneEach<A(!new), B(!new)>(xs: seq<A>, f: A -> seq<B>)
    requires forall x :: x in xs ==> |f(x)| >= 1
    ensures |FlatMap(xs, f)| >= |xs|
  {
    if xs != [] {
      FlatMapAtLeastOneEach(xs[1..], f);
    }
  }

  /** A join in which every outer row produces exactly one row has exactly as many rows as its input. */
  lemma {:induction false} FlatMapExactlyOneEach<A(!new), B(!new)>(xs: seq<A>, f: A -> seq<B>)
    requires forall x :: x in xs ==> |f(x)| == 1
    ensures |FlatMap(xs, f)| == |xs|
  {
    if xs != [] {
      FlatMapExactlyOneEach(xs[1..], f);
    }
  }

  lemma FirstIsMember<A>(s: seq<A>)
    ensures s != [] ==> s[0] in s
  {
  }

  predicate NoDuplicates<A(==)>(s: seq<A>) {
    forall j, k :: 0 <= j < k < |s| ==> s[j] != s[k]
  }

  /** SELECT DISTINCT: the first occurrence of every row, in order. */
  function Distinct<A(!new, ==)>(xs: seq<A>): (r: seq<A>)
    ensures forall x :: x in r <==> x in xs
    ensures NoDuplicates(r)
  {
    if xs == [] then []
    else
      var rest := Distinct(xs[..|xs| - 1]);
      if xs[|xs| - 1] in rest then rest else rest + [xs[|xs| - 1]]
  }

  /** Adding to a set kept as a duplicate-free sequence: `x` is appended unless already present. */
  function AddIfAbsent<T(!new, ==)>(s: seq<T>, x: T): (r: seq<T>)
    ensures forall y :: y in r <==> y in s || y == x
    ensures NoDuplicates(s) ==> NoDuplicates(r)
  {
    if x in s then s else s + [x]
  }

  /** `le` is a total preorder: total and transitive (ties allowed). */
  ghost predicate TotalPreorder<T(!new)>(le: (T, T) -> bool) {
    && (forall x, y :: le(x, y) || le(y, x))
    && (forall x, y, z :: le(x, y) && le(y, z) ==> le(x, z))
  }

  predicate SortedBy<T>(s: seq<T>, le: (T, T) -> bool) {
    forall j, k :: 0 <= j < k < |s| ==> le(s[j], s[k])
  }

  /** Insert `x` before the first element it does not follow. */
  function Insert<T>(x: T, s: seq<T>, le: (T, T) -> bool): (r: seq<T>)
    ensures multiset(r) == multiset(s) + multiset{x}
  {
    if s == [] then [x]
    else if le(x, s[0]) then [x] + s
    else
      assert s == [s[0]] + s[1..];
      [s[0]] + Insert(x, s[1..], le)
  }

  /** ORDER BY: a stable insertion sort by `le`. */
  function SortBy<T>(s: seq<T>, le: (T, T) -> bool): (r: seq<T>)
    ensures multiset(r) == multiset(s)
    ensures |r| == |s|
  {
    if s == [] then []
    else
      assert s == [s[0]] + s[1..];
      Insert(s[0], SortBy(s[1..], le), le)
  }

  lemma {:induction false} InsertSorted<T(!new)>(x: T, s: seq<T>, le: (T, T) -> bool)
    requires TotalPreorder(le)
    requires SortedBy(s, le)
    ensures SortedBy(Insert(x, s, le), le)
  {
    if s != [] && !le(x, s[0]) {
      var tail := Insert(x, s[1..], le);
      InsertSorted(x, s[1..], le);
      assert le(s[0], x);
      forall y | y in tail ensures le(s[0], y) {
        assert y in multiset(tail);
        if y != x {
          assert y in multiset(s[1..]);
          var k :| 0 <= k < |s[1..]| && s[1..][k] == y;
          assert s[k + 1] == y;
        }
      }
      var r := [s[0]] + tail;
      forall j, k | 0 <= j < k < |r| ensures le(r[j], r[k]) {
        if j == 0 {
          assert r[k] == tail[k - 1];
          assert r[k] in tail;
        } else {
          assert r[j] == tail[j - 1] && r[k] == tail[k - 1];
        }
      }
    }
  }

  /** The result of ORDER BY is sorted and is a permutation of its input. */
  lemma {:induction false} SortBySorted<T(!new)>(s: seq<T>, le: (T, T) -> bool)
    requires TotalPreorder(le)
    ensures SortedBy(SortBy(s, le), le)
    ensures multiset(SortBy(s, le)) == multiset(s)
  {
    if s != [] {
      SortBySorted(s[1..], le);
      InsertSorted(s[0], SortBy(s[1..], le), le);
    }
  }

  /** ORDER BY neither adds nor drops rows. */
  lemma SortByMember<T>(s: seq<T>, le: (T, T) -> bool, x: T)
    ensures x in SortBy(s, le) <==> x in s
  {
    assert x in SortBy(s, le) <==> x in multiset(SortBy(s, le));
    assert x in s <==> x in multiset(s);
  }

  lemma SameElements<T>(a: seq<T>, b: seq<T>)
    requires multiset(a) == multiset(b)
    ensures |a| == |b|
    ensures forall x :: x in a <==> x in b
  {
    assert |a| == |multiset(a)|;
    forall x ensures x in a <==> x in b {
      assert x in a <==> x in multiset(a);
      assert x in b <==> x in multiset(b);
    }
  }

  /** A permutation of a duplicate-free sequence is duplicate-free. */
  lemma {:induction false} PermutationKeepsNoDuplicates<T>(a: seq<T>, b: seq<T>)
    requires multiset(a) == multiset(b)
    requires NoDuplicates(a)
    ensures NoDuplicates(b)
  {
    forall j, k | 0 <= j < k < |b| ensures b[j] != b[k] {
      if b[j] == b[k] {
        var x := b[j];
        assert b == b[..j] + [x] + b[j + 1..k] + [x] + b[k + 1..];
        assert multiset(b)[x] >= 2;
        CountAtMostOne(a, x);
        assert false;
      }
    }
  }

  lemma {:induction false} CountAtMostOne<T>(a: seq<T>, x: T)
    requires NoDuplicates(a)
    ensures multiset(a)[x] <= 1
  {
    if a != [] {
      assert NoDuplicates(a[1..]) by {
        forall j, k | 0 <= j < k < |a[1..]| ensures a[1..][j] != a[1..][k] {
          assert a[1..][j] == a[j + 1] && a[1..][k] == a[k + 1];
        }
      }
      CountAtMostOne(a[1..], x);
      assert a == [a[0]] + a[1..];
      if a[0] == x {
        assert x !in a[1..] by {
          forall k | 0 <= k < |a[1..]| ensures a[1..][k] != x {
            assert a[1..][k] == a[k + 1];
          }
        }
      }
    }
  }

  /**
   * Projecting rows by `f` and then sorting by `le2` gives the same rows as sorting by `le` and
   * then projecting, when `f` carries the sort key over unchanged.
   */
  lemma {:induction false} MapSortBy<A(!new), B(!new)>(s: seq<A>, le: (A, A) -> bool, f: A -> B, le2: (B, B) -> bool)
    requires forall x, y :: le(x, y) == le2(f(x), f(y))
    ensures Map(SortBy(s, le), f) == SortBy(Map(s, f), le2)
  {
    if s != [] {
      MapSortBy(s[1..], le, f, le2);
      assert Map(s, f)[1..] == Map(s[1..], f);
      MapInsert(s[0], SortBy(s[1..], le), le, f, le2);
    }
  }

  lemma {:induction false} MapInsert<A(!new), B(!new)>(x: A, s: seq<A>, le: (A, A) -> bool, f: A -> B, le2: (B, B) -> bool)
    requires forall x, y :: le(x, y) == le2(f(x), f(y))
    ensures Map(Insert(x, s, le), f) == Insert(f(x), Map(s, f), le2)
  {
    if s != [] {
      assert Map(s, f)[1..] == Map(s[1..], f);
      if !le(x, s[0]) {
        MapInsert(x, s[1..], le, f, le2);
      }
    }
  }

  /** The set of keys of the rows of `xs`: never more keys than rows. */
  function Keys<A>(xs: seq<A>, key: A -> int): (r: set<int>)
    ensures forall k :: k in r <==> exists x :: x in xs && key(x) == k
    ensures |r| <= |xs|
  {
    if xs == [] then {}
    else
      assert xs == [xs[0]] + xs[1..];
      {key(xs[0])} + Keys(xs[1..], key)
  }

  lemma {:induction false} SubsetCardinality<K>(a: set<K>, b: set<K>)
    requires a <= b
    ensures |a| <= |b|
    decreases b
  {
    if a != {} {
      var x :| x in a;
      SubsetCardinality(a - {x}, b - {x});
    }
  }
}
