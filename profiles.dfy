/**
 * A stored profile, how a search keyword scores it, and the "matched keywords"
 * explanation shown beside each search hit.
 */
module Profiles {
  import opened Wrappers
  import opened Text
  import opened SqlLike

  /** One row of the `profiles` table; every text column may be NULL. */
  datatype Profile = Profile(
    userId: string,
    name: Option<string>,
    role: Option<string>,
    description: Option<string>,
    keywords: Option<string>,
    companyName: Option<string>,
    linkedinUrl: Option<string>,
    updatedAt: int)

  /** The six columns a search looks at. */
  datatype Column = Name | Role | Description | Keywords | CompanyName | LinkedinUrl

  const SearchColumns: seq<Column> := [Name, Role, Description, Keywords, CompanyName, LinkedinUrl]

  function ColumnValue(p: Profile, c: Column): Option<string> {
    match c
    case Name => p.name
    case Role => p.role
    case Description => p.description
    case Keywords => p.keywords
    case CompanyName => p.companyName
    case LinkedinUrl => p.linkedinUrl
  }

  /** `lower(col) LIKE '%keyword%'`: a NULL column never matches. */
  predicate ColumnLike(v: Option<string>, keyword: string): (b: bool)
    ensures b ==> v.Some?
    ensures v.Some? && Contains(Lower(v.value), keyword) ==> b
  {
    v.Some? && (ContainsMatchesPattern(Lower(v.value), keyword); Like(Lower(v.value), ContainsPattern(keyword)))
  }

  function Point(b: bool): nat {
    if b then 1 else 0
  }

  /** The search score: one point per `CASE WHEN lower(col) LIKE ? THEN 1 ELSE 0 END`. */
  function Score(p: Profile, keyword: string): (n: nat)
    ensures n <= 6
  {
    Point(ColumnLike(p.name, keyword))
    + Point(ColumnLike(p.role, keyword))
    + Point(ColumnLike(p.description, keyword))
    + Point(ColumnLike(p.keywords, keyword))
    + Point(ColumnLike(p.companyName, keyword))
    + Point(ColumnLike(p.linkedinUrl, keyword))
  }

  /** The search's WHERE clause: some column is LIKE the pattern. */
  predicate Qualifies(p: Profile, keyword: string): (b: bool)
    ensures b <==> Score(p, keyword) >= 1
  {
    || ColumnLike(p.name, keyword)
    || ColumnLike(p.role, keyword)
    || ColumnLike(p.description, keyword)
    || ColumnLike(p.keywords, keyword)
    || ColumnLike(p.companyName, keyword)
    || ColumnLike(p.linkedinUrl, keyword)
  }

  /** How many of `cols` hold the keyword: the count the score is meant to be. */
  function MatchCount(p: Profile, keyword: string, cols: seq<Column>): (n: nat)
    ensures n <= |cols|
  {
    if cols == [] then 0
    else Point(ColumnLike(ColumnValue(p, cols[0]), keyword)) + MatchCount(p, keyword, cols[1..])
  }

  /** The score is the number of searchable columns, out of six, that hold the keyword. */
  lemma ScoreCountsColumns(p: Profile, keyword: string)
    ensures Score(p, keyword) == MatchCount(p, keyword, SearchColumns)
    ensures Score(p, keyword) <= |SearchColumns| == 6
  {
    var cs := SearchColumns;
    assert cs[5..] == [LinkedinUrl] && cs[5..][1..] == [];
    assert cs[4..][1..] == cs[5..] && cs[3..][1..] == cs[4..] && cs[2..][1..] == cs[3..];
    assert cs[1..][1..] == cs[2..] && cs[0..][1..] == cs[1..] && cs[0..] == cs;
    assert MatchCount(p, keyword, cs[5..]) == Point(ColumnLike(p.linkedinUrl, keyword));
    assert MatchCount(p, keyword, cs[4..]) == Point(ColumnLike(p.companyName, keyword)) + MatchCount(p, keyword, cs[5..]);
    assert MatchCount(p, keyword, cs[3..]) == Point(ColumnLike(p.keywords, keyword)) + MatchCount(p, keyword, cs[4..]);
    assert MatchCount(p, keyword, cs[2..]) == Point(ColumnLike(p.description, keyword)) + MatchCount(p, keyword, cs[3..]);
    assert MatchCount(p, keyword, cs[1..]) == Point(ColumnLike(p.role, keyword)) + MatchCount(p, keyword, cs[2..]);
    assert MatchCount(p, keyword, cs) == Point(ColumnLike(p.name, keyword)) + MatchCount(p, keyword, cs[1..]);
  }

  /** A row passes the WHERE clause exactly when it scores at least one point. */
  lemma QualifiesIffScored(p: Profile, keyword: string)
    ensures Qualifies(p, keyword) <==> Score(p, keyword) >= 1
  {
  }

  lemma {:induction false} MatchCountMonotone(a: Profile, b: Profile, keyword: string, cols: seq<Column>)
    requires forall c :: ColumnLike(ColumnValue(a, c), keyword) ==> ColumnLike(ColumnValue(b, c), keyword)
    ensures MatchCount(a, keyword, cols) <= MatchCount(b, keyword, cols)
  {
    if cols != [] {
      MatchCountMonotone(a, b, keyword, cols[1..]);
    }
  }

  /** A row matching the keyword in every column another row matches never scores lower. */
  lemma ScoreMonotone(a: Profile, b: Profile, keyword: string)
    requires forall c :: ColumnLike(ColumnValue(a, c), keyword) ==> ColumnLike(ColumnValue(b, c), keyword)
    ensures Score(a, keyword) <= Score(b, keyword)
  {
    ScoreCountsColumns(a, keyword);
    ScoreCountsColumns(b, keyword);
    MatchCountMonotone(a, b, keyword, SearchColumns);
  }

  /** The empty keyword matches every non-NULL column, so it selects every row with some searchable value. */
  lemma EmptyKeywordQualifies(p: Profile)
    ensures Qualifies(p, "") <==> exists c :: ColumnValue(p, c).Some?
    ensures Score(p, "") == MatchCount(p, "", SearchColumns)
  {
    forall v: Option<string> | v.Some? ensures ColumnLike(v, "") {
      assert ContainsPattern("") == "%" + "%";
      PercentMatchesAll(Lower(v.value));
      PercentMayBeEmpty(Lower(v.value), "%");
    }
    if Qualifies(p, "") {
      assert ColumnValue(p, Name).Some? || ColumnValue(p, Role).Some? || ColumnValue(p, Description).Some?
        || ColumnValue(p, Keywords).Some? || ColumnValue(p, CompanyName).Some? || ColumnValue(p, LinkedinUrl).Some?;
    }
    ScoreCountsColumns(p, "");
  }

  // ---------------------------------------------------------------------------
  // Match explanation
  // ---------------------------------------------------------------------------

  /** The stored keyword terms of a row, trimmed, blanks dropped; a NULL column reads as ''. */
  function StoredTerms(p: Profile): seq<string> {
    CommaTerms(p.keywords.GetOr(""))
  }

  /** The terms whose lower-cased text contains `keyword`, kept in stored order. */
  function TermsMatching(terms: seq<string>, keyword: string): (r: seq<string>)
    ensures |r| <= |terms|
  {
    if terms == [] then []
    else
      var last := terms[|terms| - 1];
      TermsMatching(terms[..|terms| - 1], keyword) + (if Contains(Lower(last), keyword) then [last] else [])
  }

  /** A string as Python sees `(col or '').lower()`. */
  function LowerOrEmpty(v: Option<string>): string {
    Lower(v.GetOr(""))
  }

  /** The labels of a hit: matching stored terms, then `name`, then `company`. */
  function MatchedLabels(p: Profile, keyword: string): seq<string> {
    TermsMatching(StoredTerms(p), keyword)
    + (if Contains(LowerOrEmpty(p.name), keyword) then ["name"] else [])
    + (if Contains(LowerOrEmpty(p.companyName), keyword) then ["company"] else [])
  }

  const FallbackExplanation: string := "profile match"

  /** The `matched_keywords` string of a hit. */
  function Explanation(p: Profile, keyword: string): string {
    Render(MatchedLabels(p, keyword))
  }

  /** Labels joined with ", ", or the fallback text when there are none. */
  function Render(labels: seq<string>): string {
    if |labels| == 0 then FallbackExplanation else JoinWith(", ", labels)
  }

  /** A term is listed exactly when it is stored and its lower-cased text contains the keyword. */
  lemma {:induction false} TermsMatchingMembers(terms: seq<string>, keyword: string, t: string)
    ensures t in TermsMatching(terms, keyword) <==> t in terms && Contains(Lower(t), keyword)
  {
    if terms != [] {
      var init := terms[..|terms| - 1];
      TermsMatchingMembers(init, keyword, t);
      assert terms == init + [terms[|terms| - 1]];
    }
  }

  /** Every label names a stored term, the name or the company that contains the keyword, and each such one is listed. */
  lemma MatchedLabelsMembers(p: Profile, keyword: string, entry: string)
    ensures entry in MatchedLabels(p, keyword) <==>
      || (entry in StoredTerms(p) && Contains(Lower(entry), keyword))
      || (entry == "name" && Contains(LowerOrEmpty(p.name), keyword))
      || (entry == "company" && Contains(LowerOrEmpty(p.companyName), keyword))
  {
    TermsMatchingMembers(StoredTerms(p), keyword, entry);
  }

  /**
   * For a non-empty keyword every label is backed by a match of the search
   * filter on the same column, so a row explained by something other than the
   * fallback is always one the search selects.
   */
  lemma LabelsWitnessFilter(p: Profile, keyword: string)
    requires keyword != []
    ensures TermsMatching(StoredTerms(p), keyword) != [] ==> ColumnLike(p.keywords, keyword)
    ensures Contains(LowerOrEmpty(p.name), keyword) ==> ColumnLike(p.name, keyword)
    ensures Contains(LowerOrEmpty(p.companyName), keyword) ==> ColumnLike(p.companyName, keyword)
    ensures MatchedLabels(p, keyword) != [] ==> Qualifies(p, keyword)
  {
    var matching := TermsMatching(StoredTerms(p), keyword);
    if matching != [] {
      var t := matching[0];
      TermsMatchingMembers(StoredTerms(p), keyword, t);
      var s := p.keywords.GetOr("");
      CommaTermsOccur(s);
      var i :| 0 <= i < |StoredTerms(p)| && StoredTerms(p)[i] == t;
      ContainsLower(s, t);
      ContainsTransitive(Lower(s), Lower(t), keyword);
      ContainsMatchesPattern(Lower(s), keyword);
    }
    LabelWitness(p.name, keyword);
    LabelWitness(p.companyName, keyword);
  }

  lemma LabelWitness(v: Option<string>, keyword: string)
    requires keyword != []
    ensures Contains(LowerOrEmpty(v), keyword) ==> ColumnLike(v, keyword)
  {
    if v.Some? && Contains(LowerOrEmpty(v), keyword) {
      ContainsMatchesPattern(LowerOrEmpty(v), keyword);
    }
  }

  /**
   * For a lower-case keyword without wildcards (what the bot sends once it has
   * lower-cased the user's words) the `name` and `company` labels appear exactly
   * when the search filter matched that column.
   */
  lemma FieldLabelsExact(p: Profile, keyword: string)
    requires keyword != [] && IsLowerCase(keyword) && NoWildcards(keyword)
    ensures Contains(LowerOrEmpty(p.name), keyword) <==> ColumnLike(p.name, keyword)
    ensures Contains(LowerOrEmpty(p.companyName), keyword) <==> ColumnLike(p.companyName, keyword)
  {
    LabelExact(p.name, keyword);
    LabelExact(p.companyName, keyword);
  }

  lemma LabelExact(v: Option<string>, keyword: string)
    requires keyword != [] && IsLowerCase(keyword) && NoWildcards(keyword)
    ensures Contains(LowerOrEmpty(v), keyword) <==> ColumnLike(v, keyword)
  {
    LabelWitness(v, keyword);
    if v.Some? {
      PatternIsContains(Lower(v.value), keyword);
      LowerIsLowerCase(v.value);
      LowerOfLowerCase(Lower(v.value));
      LowerOfLowerCase(keyword);
    }
  }

  /**
   * On the empty keyword the explanation and the filter part ways: `'' in ''`
   * holds, so a NULL name or company is labelled, while `lower(NULL) LIKE '%%'`
   * is NULL and never matches.
   */
  lemma EmptyKeywordLabelsNullColumns(p: Profile)
    requires p.name.None? && p.companyName.None?
    ensures "name" in MatchedLabels(p, "") && "company" in MatchedLabels(p, "")
    ensures !ColumnLike(p.name, "") && !ColumnLike(p.companyName, "")
  {
    assert Contains(LowerOrEmpty(p.name), "");
    MatchedLabelsMembers(p, "", "name");
    MatchedLabelsMembers(p, "", "company");
  }

  /**
   * The filter ignores case but the explanation does not: a keyword with an
   * upper-case letter selects a row whose name holds it in lower case, yet
   * labels nothing and falls back to the fixed text.
   */
  lemma MixedCaseKeywordFallsBack()
    ensures var p := Profile("u1", Some("ai lab"), None, None, None, None, None, 0);
      Qualifies(p, "AI") && Score(p, "AI") == 1 && Explanation(p, "AI") == FallbackExplanation
  {
    LowerNameMatchesUpperKeyword();
    LowerNameNotLabelled();
  }

  lemma LowerNameMatchesUpperKeyword()
    ensures ColumnLike(Some("ai lab"), "AI")
  {
    var name := "ai lab";
    assert Lower(name) == name by {
      assert IsLowerCase(name);
      LowerOfLowerCase(name);
    }
    assert Lower("AI") == "ai";
    assert OccursAt(name, "ai", 0);
    ContainsAt(name, "ai", 0);
    PatternIsContains(name, "AI");
  }

  lemma LowerNameNotLabelled()
    ensures MatchedLabels(Profile("u1", Some("ai lab"), None, None, None, None, None, 0), "AI") == []
  {
    var p := Profile("u1", Some("ai lab"), None, None, None, None, None, 0);
    NoKeywordsNoTerms(p);
    LowerNameLacksUpperKeyword();
    NullColumnLacksKeyword(p.companyName, "AI");
  }

  /** A row whose keywords column is NULL has no stored terms. */
  lemma NoKeywordsNoTerms(p: Profile)
    requires p.keywords.None?
    ensures StoredTerms(p) == []
  {
    assert SplitOn("", ',') == [[]];
  }

  lemma LowerNameLacksUpperKeyword()
    ensures !Contains(LowerOrEmpty(Some("ai lab")), "AI")
  {
    assert LowerOrEmpty(Some("ai lab")) == "ai lab" by {
      assert IsLowerCase("ai lab");
      LowerOfLowerCase("ai lab");
    }
    LacksPair("ai lab", 'A', 'I');
    assert "AI" == ['A', 'I'];
  }

  /** A NULL column reads as '' and so contains no non-empty keyword. */
  lemma NullColumnLacksKeyword(v: Option<string>, keyword: string)
    requires v.None? && keyword != []
    ensures !Contains(LowerOrEmpty(v), keyword)
  {
  }

  // ---------------------------------------------------------------------------
  // A worked example
  // ---------------------------------------------------------------------------

  /** Alice's row after she creates her profile through the bot. */
  function Alice(now: int): Profile {
    Profile("1", Some("Alice"), Some("AI founder"), Some("builds agents"), Some("ai,investor"), None, None, now)
  }

  /** Searching "ai" scores Alice's row 2 (role and keywords) and explains it by the term `ai` alone. */
  lemma AliceScenario(now: int)
    ensures Score(Alice(now), "ai") == 2 && Explanation(Alice(now), "ai") == "ai"
  {
    AliceScore(now);
    AliceExplanation(now);
  }

  lemma AliceScore(now: int)
    ensures Score(Alice(now), "ai") == 2
  {
    AliceColumns(now);
  }

  lemma AliceExplanation(now: int)
    ensures Explanation(Alice(now), "ai") == "ai"
  {
    AliceStoredTermsMatch(now);
    AliceLabels(now);
    assert MatchedLabels(Alice(now), "ai") == ["ai"];
  }

  lemma AliceColumns(now: int)
    ensures !ColumnLike(Alice(now).name, "ai") && ColumnLike(Alice(now).role, "ai")
    ensures !ColumnLike(Alice(now).description, "ai") && ColumnLike(Alice(now).keywords, "ai")
  {
    AliceNameMisses();
    AliceRoleMatches();
    AliceDescriptionMisses();
    AliceKeywordsMatch();
  }

  lemma AliceNameMisses()
    ensures !ColumnLike(Some("Alice"), "ai")
  {
    assert Lower("Alice") == "alice";
    LacksPair("alice", 'a', 'i');
    AiIsLowerLiteral();
    LabelExact(Some("Alice"), "ai");
  }

  lemma AliceRoleMatches()
    ensures ColumnLike(Some("AI founder"), "ai")
  {
    assert Lower("AI founder")[..2] == "ai";
    ContainsAt(Lower("AI founder"), "ai", 0);
  }

  lemma AliceDescriptionMisses()
    ensures !ColumnLike(Some("builds agents"), "ai")
  {
    assert Lower("builds agents") == "builds agents";
    LacksPair("builds agents", 'a', 'i');
    AiIsLowerLiteral();
    LabelExact(Some("builds agents"), "ai");
  }

  lemma AliceKeywordsMatch()
    ensures ColumnLike(Some("ai,investor"), "ai")
  {
    assert Lower("ai,investor")[..2] == "ai";
    ContainsAt(Lower("ai,investor"), "ai", 0);
  }

  lemma AiIsLowerLiteral()
    ensures "ai" == ['a', 'i'] && IsLowerCase("ai") && NoWildcards("ai") && Lower("ai") == "ai"
  {
  }

  lemma AliceTerms()
    ensures CommaTerms("ai,investor") == ["ai", "investor"]
  {
    var ts := ["ai", "investor"];
    assert JoinWith(",", ts) == "ai,investor";
    assert IsStripped("ai") && IsStripped("investor");
    CommaTermsOfJoin(ts);
  }

  lemma AliceTermsMatching()
    ensures TermsMatching(["ai", "investor"], "ai") == ["ai"]
  {
    assert ["ai", "investor"][..1] == ["ai"];
    AiIsLowerLiteral();
    assert OccursAt("ai", "ai", 0);
    ContainsAt("ai", "ai", 0);
    assert Lower("investor") == "investor";
    LacksPair("investor", 'a', 'i');
  }

  lemma AliceStoredTermsMatch(now: int)
    ensures TermsMatching(StoredTerms(Alice(now)), "ai") == ["ai"]
  {
    AliceTerms();
    AliceTermsMatching();
    assert StoredTerms(Alice(now)) == CommaTerms("ai,investor");
  }

  lemma AliceLabels(now: int)
    ensures !Contains(LowerOrEmpty(Alice(now).name), "ai") && !Contains(LowerOrEmpty(Alice(now).companyName), "ai")
  {
    assert LowerOrEmpty(Alice(now).name) == "alice";
    LacksPair("alice", 'a', 'i');
    assert "ai" == ['a', 'i'];
    NullColumnLacksKeyword(Alice(now).companyName, "ai");
  }
}
