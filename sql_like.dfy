/**
 * SQLite's `LIKE` operator as the store's queries use it: no ESCAPE clause,
 * `%` matches any run of characters, `_` matches exactly one character, and
 * every other character matches itself ignoring ASCII case.
 */
module SqlLike {
  import opened Text

  predicate Like(s: string, pattern: string): (b: bool)
    ensures pattern != [] && (forall i :: 0 <= i < |pattern| ==> pattern[i] == '%') ==> b
    decreases |s| + |pattern|
  {
    if pattern == [] then s == []
    else if pattern[0] == '%' then Like(s, pattern[1..]) || (s != [] && Like(s[1..], pattern))
    else if pattern[0] == '_' then s != [] && Like(s[1..], pattern[1..])
    else s != [] && LowerChar(s[0]) == LowerChar(pattern[0]) && Like(s[1..], pattern[1..])
  }

  /** The pattern `f'%{keyword}%'` the store builds for every query. */
  function ContainsPattern(keyword: string): (p: string)
    ensures |p| == |keyword| + 2 && p[0] == '%' && p[1..] == keyword + "%"
  {
    "%" + keyword + "%"
  }

  predicate NoWildcards(w: string) {
    '%' !in w && '_' !in w
  }

  lemma {:induction false} PercentMatchesAll(s: string)
    ensures Like(s, "%")
    decreases |s|
  {
    assert "%"[1..] == [];
    if s != [] {
      PercentMatchesAll(s[1..]);
    }
  }

  /** A leading `%` may match nothing. */
  lemma PercentMayBeEmpty(s: string, rest: string)
    requires Like(s, rest)
    ensures Like(s, "%" + rest)
  {
    assert ("%" + rest)[1..] == rest;
  }

  /** A string that literally starts with `w` matches `w%`, whatever `w` holds. */
  lemma {:induction false} LiteralPrefixMatches(s: string, w: string)
    requires StartsWith(s, w)
    ensures Like(s, w + "%")
    decreases |w|
  {
    if w == [] {
      PercentMatchesAll(s);
      assert w + "%" == "%";
    } else {
      var p := w + "%";
      assert p[0] == w[0] && p[1..] == w[1..] + "%";
      assert s[0] == w[0];
      assert StartsWith(s[1..], w[1..]) by {
        assert s[1..][..|w[1..]|] == s[..|w|][1..];
      }
      LiteralPrefixMatches(s[1..], w[1..]);
      if w[0] == '%' {
        assert p == "%" + (w[1..] + "%");
        PercentMayBeEmpty(s[1..], w[1..] + "%");
      }
    }
  }

  /** A string that literally contains `w` matches `%w%`: literal containment is never missed. */
  lemma {:induction false} ContainsMatchesPattern(s: string, w: string)
    ensures Contains(s, w) ==> Like(s, ContainsPattern(w))
    decreases |s|
  {
    if StartsWith(s, w) {
      LiteralPrefixMatches(s, w);
    } else if s != [] {
      ContainsMatchesPattern(s[1..], w);
    }
  }

  /** Without wildcards, `w%` matches exactly the strings that start with `w` ignoring case. */
  lemma {:induction false} PrefixPatternIsPrefix(s: string, w: string)
    requires NoWildcards(w)
    ensures Like(s, w + "%") <==> StartsWith(Lower(s), Lower(w))
    decreases |w|
  {
    if w == [] {
      PercentMatchesAll(s);
      assert w + "%" == "%";
    } else {
      var p := w + "%";
      assert p[0] == w[0] && p[1..] == w[1..] + "%";
      assert w[0] in w;
      assert NoWildcards(w[1..]) by {
        forall c | c in w[1..] ensures c in w { }
      }
      LiteralHead(s, p);
      if s != [] {
        PrefixPatternIsPrefix(s[1..], w[1..]);
        LowerTail(s);
        LowerTail(w);
        StartsWithCons(Lower(s), Lower(w));
      }
    }
  }

  /** A pattern that starts with an ordinary character matches one character of `s` with it. */
  lemma LiteralHead(s: string, p: string)
    requires p != [] && p[0] != '%' && p[0] != '_'
    ensures Like(s, p) <==> s != [] && LowerChar(s[0]) == LowerChar(p[0]) && Like(s[1..], p[1..])
  {
  }

  /**
   * Without wildcards, `lower(col) LIKE '%w%'` holds exactly when the lower-cased
   * `w` is a substring of the lower-cased column.
   */
  lemma {:induction false} PatternIsContains(s: string, w: string)
    requires NoWildcards(w)
    ensures Like(s, ContainsPattern(w)) <==> Contains(Lower(s), Lower(w))
    decreases |s|
  {
    PrefixPatternIsPrefix(s, w);
    if s != [] {
      PatternIsContains(s[1..], w);
      assert Lower(s)[1..] == Lower(s[1..]);
    }
  }
}
