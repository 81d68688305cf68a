/**
 * The profile store: a table of profiles keyed by `user_id`, written by
 * upsert and read by point lookup, keyword search, role search and listing.
 */
module Store {
  import opened Wrappers
  import opened Text
  import opened Profiles
  import opened Ranking

  /** One `search` result: the row's columns except `updated_at`, and why it matched. */
  datatype SearchHit = SearchHit(
    userId: string,
    name: Option<string>,
    role: Option<string>,
    description: Option<string>,
    keywords: Option<string>,
    companyName: Option<string>,
    linkedinUrl: Option<string>,
    matchedKeywords: string)

  /** One `search_roles` result: the row's columns except `updated_at`. */
  datatype RoleHit = RoleHit(
    userId: string,
    name: Option<string>,
    role: Option<string>,
    description: Option<string>,
    keywords: Option<string>,
    companyName: Option<string>,
    linkedinUrl: Option<string>)

  /** One `list_all_profiles` entry. */
  datatype Listing = Listing(userId: string, name: Option<string>)

  function HitOf(p: Profile, matched: string): SearchHit {
    SearchHit(p.userId, p.name, p.role, p.description, p.keywords, p.companyName, p.linkedinUrl, matched)
  }

  function RoleHitOf(p: Profile): RoleHit {
    RoleHit(p.userId, p.name, p.role, p.description, p.keywords, p.companyName, p.linkedinUrl)
  }

  function RoleHitsOf(ps: seq<Profile>): (r: seq<RoleHit>)
    ensures |r| == |ps| && forall i :: 0 <= i < |ps| ==> r[i] == RoleHitOf(ps[i])
  {
    seq(|ps|, i requires 0 <= i < |ps| => RoleHitOf(ps[i]))
  }

  /** The hits of ranked rows, each with its explanation, in the same order. */
  function HitsOf(ps: seq<Profile>, keyword: string): (r: seq<SearchHit>)
    ensures |r| == |ps|
  {
    seq(|ps|, i requires 0 <= i < |ps| => HitOf(ps[i], Explanation(ps[i], keyword)))
  }

  /** Each hit of a correct keyword-search answer is a stored row, explained, scoring one to six. */
  lemma SearchHitsAreRows(keyword: string, rows: map<string, Profile>, top: seq<Profile>, limit: int)
    requires IsRankedSelection(ByScore(keyword), rows, top, limit)
    ensures forall i :: 0 <= i < |top| ==>
      && HitsOf(top, keyword)[i].userId in rows
      && HitsOf(top, keyword)[i] == HitOf(rows[top[i].userId], Explanation(rows[top[i].userId], keyword))
      && 1 <= Score(rows[top[i].userId], keyword) <= 6
  {
    SearchScoresInRange(keyword, rows, top, limit);
  }

  /** The hits of a correct keyword-search answer come by score, then by recency. */
  lemma SearchHitsInOrder(keyword: string, rows: map<string, Profile>, top: seq<Profile>, limit: int)
    requires IsRankedSelection(ByScore(keyword), rows, top, limit)
    ensures forall i, j :: 0 <= i < j < |top| ==>
      var a, b := rows[top[i].userId], rows[top[j].userId];
      Score(a, keyword) > Score(b, keyword)
      || (Score(a, keyword) == Score(b, keyword) && a.updatedAt >= b.updatedAt)
  {
    forall i, j | 0 <= i < j < |top|
      ensures var a, b := rows[top[i].userId], rows[top[j].userId];
        Score(a, keyword) > Score(b, keyword)
        || (Score(a, keyword) == Score(b, keyword) && a.updatedAt >= b.updatedAt)
    {
      assert RanksAtLeast(ByScore(keyword), top[i], top[j]);
    }
  }

  function ListingsOf(ps: seq<Profile>): (r: seq<Listing>)
    ensures |r| == |ps| && forall i :: 0 <= i < |ps| ==> r[i] == Listing(ps[i].userId, ps[i].name)
  {
    seq(|ps|, i requires 0 <= i < |ps| => Listing(ps[i].userId, ps[i].name))
  }

  /** The listing of a full recency ranking names every stored row once, with its name, newest first. */
  lemma ListingOfFullRanking(rows: map<string, Profile>, top: seq<Profile>)
    requires IsRankedSelection(Everything, rows, top, -1)
    ensures var listing := ListingsOf(top);
      && |listing| == |rows|
      && (forall id :: id in rows <==> exists i :: 0 <= i < |listing| && listing[i].userId == id)
      && (forall i, j :: 0 <= i < j < |listing| ==> listing[i].userId != listing[j].userId)
      && (forall i :: 0 <= i < |listing| ==>
            listing[i].userId in rows && listing[i].name == rows[listing[i].userId].name)
      && (forall i, j :: 0 <= i < j < |listing| ==>
            rows[listing[i].userId].updatedAt >= rows[listing[j].userId].updatedAt)
  {
    ListingCoversTable(rows, top);
    ListingNamesEveryRow(rows, top);
    ListingFollowsRanking(rows, top);
  }

  lemma ListingNamesEveryRow(rows: map<string, Profile>, top: seq<Profile>)
    requires IdsOf(top) == rows.Keys && |top| == |rows|
    ensures var listing := ListingsOf(top);
      && |listing| == |rows|
      && (forall id :: id in rows <==> exists i :: 0 <= i < |listing| && listing[i].userId == id)
  {
    var listing := ListingsOf(top);
    forall id | id in rows ensures exists i :: 0 <= i < |listing| && listing[i].userId == id {
      assert id in IdsOf(top);
      var i :| 0 <= i < |top| && top[i].userId == id;
      assert listing[i].userId == id;
    }
    forall id | (exists i :: 0 <= i < |listing| && listing[i].userId == id) ensures id in rows {
      var i :| 0 <= i < |listing| && listing[i].userId == id;
      assert top[i].userId in IdsOf(top);
    }
  }

  lemma ListingFollowsRanking(rows: map<string, Profile>, top: seq<Profile>)
    requires FromTable(rows, top) && DistinctIds(top) && Ordered(Everything, top)
    ensures var listing := ListingsOf(top);
      && (forall i, j :: 0 <= i < j < |listing| ==> listing[i].userId != listing[j].userId)
      && (forall i :: 0 <= i < |listing| ==>
            listing[i].userId in rows && listing[i].name == rows[listing[i].userId].name)
      && (forall i, j :: 0 <= i < j < |listing| ==>
            rows[listing[i].userId].updatedAt >= rows[listing[j].userId].updatedAt)
  {
  }

  /** The stored terms that contain the keyword once lower-cased, collected in order. */
  method MatchingTerms(terms: seq<string>, keyword: string) returns (matched: seq<string>)
    ensures matched == TermsMatching(terms, keyword)
  {
    matched := [];
    for i := 0 to |terms|
      invariant matched == TermsMatching(terms[..i], keyword)
    {
      assert terms[..i + 1][..i] == terms[..i];
      if Contains(Lower(terms[i]), keyword) {
        matched := matched + [terms[i]];
      }
    }
    assert terms[..|terms|] == terms;
  }

  /** The explanation of one hit, built as the store builds it: term by term, then name, then company. */
  method ExplainMatch(p: Profile, keyword: string) returns (explanation: string)
    ensures explanation == Explanation(p, keyword)
  {
    var matched := MatchingTerms(StoredTerms(p), keyword);
    ghost var fromTerms := matched;
    var named := Contains(LowerOrEmpty(p.name), keyword);
    var company := Contains(LowerOrEmpty(p.companyName), keyword);
    if named {
      matched := matched + ["name"];
    }
    ghost var upToName := matched;
    if company {
      matched := matched + ["company"];
    }
    assert upToName == fromTerms + (if named then ["name"] else []);
    assert matched == upToName + (if company then ["company"] else []);
    assert matched == MatchedLabels(p, keyword);
    explanation := if |matched| > 0 then JoinWith(", ", matched) else FallbackExplanation;
  }

  /** The hits of the ranked rows, each with its explanation, built row by row. */
  method ExplainAll(top: seq<Profile>, keyword: string) returns (results: seq<SearchHit>)
    ensures results == HitsOf(top, keyword)
  {
    results := [];
    ghost var explained := HitsOf(top, keyword);
    for i := 0 to |top|
      invariant results == explained[..i]
    {
      var matched := ExplainMatch(top[i], keyword);
      ExtendPrefix(explained, i, HitOf(top[i], matched));
      results := results + [HitOf(top[i], matched)];
    }
    assert explained[..|top|] == explained;
  }

  lemma ExtendPrefix(hits: seq<SearchHit>, i: nat, h: SearchHit)
    requires i < |hits| && hits[i] == h
    ensures hits[..i] + [h] == hits[..i + 1]
  {
  }

  class Database {
    /** The `profiles` table: each row filed under its primary key `user_id`. */
    var rows: map<string, Profile>

    ghost predicate Valid()
      reads this
    {
      WellKeyed(rows)
    }

    /** A store over an empty table. */
    constructor ()
      ensures Valid() && rows == map[]
    {
      rows := map[];
    }

    /**
     * Inserts the row for `userId`, or replaces every column of the existing
     * one (no merging: a column passed as NULL becomes NULL), stamping it with
     * the time `now`.
     */
    method UpsertProfile(userId: string, name: Option<string>, role: Option<string>,
                         description: Option<string>, keywords: Option<string>,
                         companyName: Option<string>, linkedinUrl: Option<string>, now: int)
      requires Valid()
      modifies this
      ensures Valid()
      ensures GetProfile(userId) == Some(Profile(userId, name, role, description, keywords, companyName, linkedinUrl, now))
      ensures forall id :: id != userId ==> GetProfile(id) == old(GetProfile(id))
      ensures rows.Keys == old(rows.Keys) + {userId}
    {
      rows := rows[userId := Profile(userId, name, role, description, keywords, companyName, linkedinUrl, now)];
    }

    /** The row of `userId`, or None when there is none. */
    function GetProfile(userId: string): (r: Option<Profile>)
      reads this
      ensures r.Some? <==> userId in rows
      ensures r.Some? ==> r.value == rows[userId]
      ensures Valid() && r.Some? ==> r.value.userId == userId
    {
      if userId in rows then Some(rows[userId]) else None
    }

    /**
     * Keyword search: the rows with the keyword in at least one column, by
     * score then recency, at most `limit` of them, each with its explanation.
     */
    method Search(keyword: string, limit: int) returns (results: seq<SearchHit>)
      requires Valid()
      ensures exists top :: IsRankedSelection(ByScore(keyword), rows, top, limit) && results == HitsOf(top, keyword)
      ensures 0 <= limit ==> |results| <= limit
      ensures forall i :: 0 <= i < |results| ==>
        && results[i].userId in rows
        && results[i] == HitOf(rows[results[i].userId], Explanation(rows[results[i].userId], keyword))
        && 1 <= Score(rows[results[i].userId], keyword) <= 6
      ensures forall i, j :: 0 <= i < j < |results| ==>
        var a, b := rows[results[i].userId], rows[results[j].userId];
        Score(a, keyword) > Score(b, keyword)
        || (Score(a, keyword) == Score(b, keyword) && a.updatedAt >= b.updatedAt)
    {
      var top := Select(rows, ByScore(keyword), limit);
      results := ExplainAll(top, keyword);
      SearchHitsAreRows(keyword, rows, top, limit);
      SearchHitsInOrder(keyword, rows, top, limit);
      assert forall i :: 0 <= i < |top| ==> results[i].userId == top[i].userId;
    }

    /** Role search: the rows whose role holds the keyword, most recent first, at most `limit`. */
    method SearchRoles(keyword: string, limit: int) returns (results: seq<RoleHit>)
      requires Valid()
      ensures exists top :: IsRankedSelection(ByRole(keyword), rows, top, limit) && results == RoleHitsOf(top)
      ensures 0 <= limit ==> |results| <= limit
      ensures forall i :: 0 <= i < |results| ==>
        var p := GetProfile(results[i].userId);
        p.Some? && results[i] == RoleHitOf(p.value) && ColumnLike(p.value.role, keyword)
      ensures forall i, j :: 0 <= i < j < |results| ==>
        rows[results[i].userId].updatedAt >= rows[results[j].userId].updatedAt
    {
      var top := Select(rows, ByRole(keyword), limit);
      results := RoleHitsOf(top);
      assert forall i :: 0 <= i < |top| ==> results[i].userId == top[i].userId;
    }

    /** Every stored profile once, as `(user_id, name)`, most recent first. */
    method ListAllProfiles() returns (listing: seq<Listing>)
      requires Valid()
      ensures |listing| == |rows|
      ensures forall id :: id in rows <==> exists i :: 0 <= i < |listing| && listing[i].userId == id
      ensures forall i, j :: 0 <= i < j < |listing| ==> listing[i].userId != listing[j].userId
      ensures forall i :: 0 <= i < |listing| ==>
        listing[i].userId in rows && listing[i].name == rows[listing[i].userId].name
      ensures forall i, j :: 0 <= i < j < |listing| ==>
        rows[listing[i].userId].updatedAt >= rows[listing[j].userId].updatedAt
    {
      var top := Select(rows, Everything, -1);
      listing := ListingsOf(top);
      ListingOfFullRanking(rows, top);
    }
  }

  /**
   * The store's write rules on one owner: a later write wins outright, a
   * column left out of it reads back as NULL, other owners keep their rows,
   * and an owner who never wrote has no row.
   */
  method UpsertScenario(now: int) returns (alice: Option<Profile>, bob: Option<Profile>, nobody: Option<Profile>)
    ensures alice == Some(Profile("1", Some("Alice B"), Some("Alice B"), Some("builds agents"), Some("ai"),
                                  None, None, now + 10))
    ensures bob.Some? && bob.value.updatedAt == now && bob.value.keywords == Some("vc")
    ensures nobody == None
  {
    var db := new Database();
    db.UpsertProfile("1", Some("Alice"), Some("Alice"), Some("builds agents"), Some("ai,investor"),
                     Some("Acme"), None, now);
    db.UpsertProfile("2", Some("Bob"), Some("Bob"), Some("invests"), Some("vc"), None, None, now);
    db.UpsertProfile("1", Some("Alice B"), Some("Alice B"), Some("builds agents"), Some("ai"),
                     None, None, now + 10);
    alice := db.GetProfile("1");
    bob := db.GetProfile("2");
    nobody := db.GetProfile("3");
  }
}
