/**
 * SQLite's `LIKE` operator in its default configuration: `%` matches any run of characters,
 * `_` matches exactly one character, there is no escape character, and letters are compared
 * case-insensitively for ASCII only (every other character must match exactly).
 */
module SqlLike {

  /** SQLite's ASCII-only case folding: 'A'..'Z' become 'a'..'z', every other character is kept. */
  function FoldAscii(c: char): (r: char)
    ensures 'A' <= c <= 'Z' ==> r as int == c as int + 32
    ensures !('A' <= c <= 'Z') ==> r == c
  {
    if 'A' <= c <= 'Z' then (c as int + 32) as char else c
  }

  /** `s LIKE pattern`. */
  predicate Like(s: string, pattern: string)
    decreases |s| + |pattern|
  {
    if pattern == [] then s == []
    else if pattern[0] == '%' then Like(s, pattern[1..]) || (s != [] && Like(s[1..], pattern))
    else if s == [] then false
    else if pattern[0] == '_' then Like(s[1..], pattern[1..])
    else FoldAscii(s[0]) == FoldAscii(pattern[0]) && Like(s[1..], pattern[1..])
  }

  /** The pattern contains neither wildcard, so every character stands for itself. */
  predicate NoWildcards(p: string) {
    forall k :: 0 <= k < |p| ==> p[k] != '%' && p[k] != '_'
  }

  /** `a` and `b` are equal up to ASCII case. */
  predicate EqualIgnoringAsciiCase(a: string, b: string) {
    |a| == |b| && forall k :: 0 <= k < |a| ==> FoldAscii(a[k]) == FoldAscii(b[k])
  }

  /** `s` contains `p` as a substring, up to ASCII case. */
  predicate ContainsIgnoringAsciiCase(s: string, p: string) {
    exists i :: 0 <= i <= |s| - |p| && OccursAt(s, p, i)
  }

  /** `p` occurs in `s` at offset `i`, up to ASCII case. */
  predicate OccursAt(s: string, p: string, i: int) {
    0 <= i <= |s| - |p| && EqualIgnoringAsciiCase(s[i..i + |p|], p)
  }

  /** `%` alone matches every string. */
  lemma {:induction false} PercentMatchesAll(s: string)
    ensures Like(s, "%")
  {
    if s != [] {
      PercentMatchesAll(s[1..]);
    }
  }

  /** A leading `%` matches exactly when the rest of the pattern matches some suffix. */
  lemma {:induction false} LeadingPercent(s: string, q: string)
    ensures Like(s, "%" + q) <==> exists k :: 0 <= k <= |s| && Like(s[k..], q)
  {
    var pq := "%" + q;
    assert pq[0] == '%' && pq[1..] == q;
    assert s[0..] == s;
    if s == [] {
      assert Like(s, pq) <==> Like(s, q);
    } else {
      assert Like(s, pq) <==> Like(s, q) || Like(s[1..], pq);
      LeadingPercent(s[1..], q);
      if Like(s, pq) && !Like(s, q) {
        var k :| 0 <= k <= |s[1..]| && Like(s[1..][k..], q);
        assert s[1..][k..] == s[k + 1..];
        assert 0 <= k + 1 <= |s| && Like(s[k + 1..], q);
      }
      if k :| 0 <= k <= |s| && Like(s[k..], q) {
        if k > 0 {
          assert s[1..][k - 1..] == s[k..];
          assert 0 <= k - 1 <= |s[1..]| && Like(s[1..][k - 1..], q);
        }
      }
    }
  }

  /** A wildcard-free pattern followed by `%` matches exactly the strings that start with it. */
  lemma {:induction false} TrailingPercent(s: string, p: string)
    requires NoWildcards(p)
    ensures Like(s, p + "%") <==> |p| <= |s| && EqualIgnoringAsciiCase(s[..|p|], p)
  {
    if p == [] {
      assert p + "%" == "%";
      PercentMatchesAll(s);
    } else {
      assert (p + "%")[1..] == p[1..] + "%";
      assert (p + "%")[0] == p[0];
      if s != [] {
        TrailingPercent(s[1..], p[1..]);
        if |p| <= |s| {
          assert EqualIgnoringAsciiCase(s[..|p|], p) <==>
            FoldAscii(s[0]) == FoldAscii(p[0]) && EqualIgnoringAsciiCase(s[1..][..|p| - 1], p[1..]) by {
            assert s[1..][..|p| - 1] == s[..|p|][1..];
            if FoldAscii(s[0]) == FoldAscii(p[0]) && EqualIgnoringAsciiCase(s[1..][..|p| - 1], p[1..]) {
              forall k | 0 <= k < |p| ensures FoldAscii(s[..|p|][k]) == FoldAscii(p[k]) {
                if k > 0 {
                  assert s[..|p|][k] == s[1..][..|p| - 1][k - 1];
                }
              }
            }
          }
        }
      }
    }
  }

  /**
   * The search patterns the reader builds, `%p%` with `p` free of wildcards, mean
   * "contains `p`, ignoring ASCII case".
   */
  lemma {:induction false} SubstringPattern(s: string, p: string)
    requires NoWildcards(p)
    ensures Like(s, "%" + p + "%") <==> ContainsIgnoringAsciiCase(s, p)
  {
    assert "%" + p + "%" == "%" + (p + "%");
    LeadingPercent(s, p + "%");
    if Like(s, "%" + p + "%") {
      var k :| 0 <= k <= |s| && Like(s[k..], p + "%");
      TrailingPercent(s[k..], p);
      assert s[k..][..|p|] == s[k..k + |p|];
      assert OccursAt(s, p, k);
    }
    if ContainsIgnoringAsciiCase(s, p) {
      var i :| 0 <= i <= |s| - |p| && OccursAt(s, p, i);
      TrailingPercent(s[i..], p);
      assert s[i..][..|p|] == s[i..i + |p|];
      assert 0 <= i <= |s| && Like(s[i..], p + "%");
    }
  }

  /** The empty search term yields `%%`, which matches every string. */
  lemma EmptyTermMatchesAll(s: string)
    ensures Like(s, "%" + "" + "%")
  {
    assert "%" + "" + "%" == "%" + "%";
    LeadingPercent(s, "%");
    PercentMatchesAll(s);
    assert s[0..] == s;
  }

  /**
   * Because the search term is not escaped, a `_` in it matches any character:
   * the term "a_n" finds "Ann" although "Ann" does not contain "a_n".
   */
  lemma UnescapedUnderscore()
    ensures Like("Ann", "%" + "a_n" + "%")
    ensures !ContainsIgnoringAsciiCase("Ann", "a_n")
  {
    var pat := "%" + "a_n" + "%";
    assert pat == "%a_n%";
    assert Like("Ann", "a_n%") by {
      assert "Ann"[1..] == "nn" && "nn"[1..] == "n" && "n"[1..] == "";
      assert "a_n%"[1..] == "_n%" && "_n%"[1..] == "n%" && "n%"[1..] == "%";
      assert Like("", "%");
      assert Like("n", "n%");
      assert Like("nn", "_n%");
    }
    LeadingPercent("Ann", "a_n%");
    assert "Ann"[0..] == "Ann";
    assert !EqualIgnoringAsciiCase("Ann"[0..3], "a_n") by {
      assert "Ann"[0..3][1] == 'n';
    }
  }
}
