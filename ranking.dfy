/**
 * The three queries the store runs (`search`, `search_roles`,
 * `list_all_profiles`) as one filter-sort-limit over the table, and what a
 * correct answer to each is. Rows that tie on every sort key come back in an
 * order the storage engine chooses; the specification fixes the answer only
 * up to such ties.
 */
module Ranking {
  import opened Profiles

  datatype Query =
    | ByScore(keyword: string)  // any column LIKE the keyword; score first, then recency
    | ByRole(keyword: string)   // role LIKE the keyword; recency only
    | Everything                // every row; recency only

  predicate Selects(q: Query, p: Profile) {
    match q
    case ByScore(keyword) => Qualifies(p, keyword)
    case ByRole(keyword) => ColumnLike(p.role, keyword)
    case Everything => true
  }

  /** The leading sort key: the score for a keyword search, the same for every row otherwise. */
  function Primary(q: Query, p: Profile): int {
    match q
    case ByScore(keyword) => Score(p, keyword)
    case _ => 0
  }

  /** `a` may come before `b`: a higher leading key, or the same one and an update no older. */
  predicate RanksAtLeast(q: Query, a: Profile, b: Profile) {
    Primary(q, a) > Primary(q, b) || (Primary(q, a) == Primary(q, b) && a.updatedAt >= b.updatedAt)
  }

  /** How many rows `LIMIT limit` lets through out of `n`; SQLite reads a negative limit as none. */
  function Capped(limit: int, n: nat): (r: nat)
    ensures r <= n
    ensures 0 <= limit ==> r <= limit
    ensures r < n ==> r == limit
  {
    if limit < 0 || n <= limit then n else limit
  }

  /** Each row is filed under its own `user_id`, the table's primary key. */
  ghost predicate WellKeyed(rows: map<string, Profile>) {
    forall id :: id in rows ==> rows[id].userId == id
  }

  ghost function Selected(q: Query, rows: map<string, Profile>): set<string> {
    set id | id in rows && Selects(q, rows[id])
  }

  ghost function IdsOf(ps: seq<Profile>): set<string> {
    set i | 0 <= i < |ps| :: ps[i].userId
  }

  ghost predicate FromTable(rows: map<string, Profile>, ps: seq<Profile>) {
    forall i :: 0 <= i < |ps| ==> ps[i].userId in rows && rows[ps[i].userId] == ps[i]
  }

  ghost predicate DistinctIds(ps: seq<Profile>) {
    forall i, j :: 0 <= i < j < |ps| ==> ps[i].userId != ps[j].userId
  }

  ghost predicate Ordered(q: Query, ps: seq<Profile>) {
    forall i, j :: 0 <= i < j < |ps| ==> RanksAtLeast(q, ps[i], ps[j])
  }

  /**
   * `top` is a correct answer to `q` under `limit`: rows of the table that the
   * query selects, each at most once, in rank order, as many as the limit lets
   * through, and a selected row is left out only when the limit is reached and
   * every listed row ranks at least as high.
   */
  ghost predicate IsRankedSelection(q: Query, rows: map<string, Profile>, top: seq<Profile>, limit: int) {
    && FromTable(rows, top)
    && (forall i :: 0 <= i < |top| ==> Selects(q, top[i]))
    && DistinctIds(top)
    && Ordered(q, top)
    && |top| == Capped(limit, |Selected(q, rows)|)
    && (forall id :: id in Selected(q, rows) && id !in IdsOf(top) ==>
          0 <= limit == |top| && forall i :: 0 <= i < |top| ==> RanksAtLeast(q, top[i], rows[id]))
  }

  /** Where `x` goes in a ranked list: after every row that ranks at least as high. */
  function InsertionPoint(q: Query, s: seq<Profile>, x: Profile): (i: nat)
    ensures i <= |s|
    ensures forall j :: 0 <= j < i ==> RanksAtLeast(q, s[j], x)
    ensures i < |s| ==> !RanksAtLeast(q, s[i], x)
  {
    if s == [] || !RanksAtLeast(q, s[0], x) then 0 else 1 + InsertionPoint(q, s[1..], x)
  }

  /** The ranked list `s` with `x` placed at its insertion point. */
  function InsertRanked(q: Query, s: seq<Profile>, x: Profile): seq<Profile> {
    var i := InsertionPoint(q, s, x);
    s[..i] + [x] + s[i..]
  }

  /** The rows of `s` with `x` inserted at `i`, position by position. */
  lemma InsertedAt(s: seq<Profile>, i: nat, x: Profile, k: nat)
    requires i <= |s| && k <= |s|
    ensures (s[..i] + [x] + s[i..])[k] == if k < i then s[k] else if k == i then x else s[k - 1]
  {
  }

  lemma InsertKeepsOrder(q: Query, s: seq<Profile>, x: Profile)
    requires Ordered(q, s)
    ensures var i := InsertionPoint(q, s, x); Ordered(q, s[..i] + [x] + s[i..])
  {
    var i := InsertionPoint(q, s, x);
    var r := s[..i] + [x] + s[i..];
    forall a, b | 0 <= a < b < |r| ensures RanksAtLeast(q, r[a], r[b]) {
      InsertedAt(s, i, x, a);
      InsertedAt(s, i, x, b);
      if a == i && i < b - 1 {
        assert RanksAtLeast(q, s[i], s[b - 1]);
      }
    }
  }

  lemma InsertKeepsIds(s: seq<Profile>, i: nat, x: Profile)
    requires i <= |s|
    requires DistinctIds(s) && x.userId !in IdsOf(s)
    ensures var r := s[..i] + [x] + s[i..]; DistinctIds(r) && IdsOf(r) == IdsOf(s) + {x.userId}
  {
    var r := s[..i] + [x] + s[i..];
    forall a, b | 0 <= a < b < |r| ensures r[a].userId != r[b].userId {
      InsertedAt(s, i, x, a);
      InsertedAt(s, i, x, b);
      if a == i {
        assert r[b].userId in IdsOf(s);
      } else if b == i {
        assert r[a].userId in IdsOf(s);
      }
    }
    forall id | id in IdsOf(r) ensures id in IdsOf(s) + {x.userId} {
      var k :| 0 <= k < |r| && r[k].userId == id;
      InsertedAt(s, i, x, k);
    }
    forall id | id in IdsOf(s) + {x.userId} ensures id in IdsOf(r) {
      if id == x.userId {
        InsertedAt(s, i, x, i);
      } else {
        var k :| 0 <= k < |s| && s[k].userId == id;
        var k' := if k < i then k else k + 1;
        InsertedAt(s, i, x, k');
        assert r[k'].userId == id;
      }
    }
  }

  /** The ranking of the rows already taken from the table is correct so far. */
  ghost predicate RankedSoFar(q: Query, rows: map<string, Profile>, ranked: seq<Profile>, pending: set<string>) {
    && pending <= rows.Keys
    && FromTable(rows, ranked) && DistinctIds(ranked) && Ordered(q, ranked)
    && (forall i :: 0 <= i < |ranked| ==> Selects(q, ranked[i]))
    && IdsOf(ranked) == Selected(q, rows) - pending
    && |ranked| == |Selected(q, rows) - pending|
  }

  lemma TakeSelected(q: Query, rows: map<string, Profile>, ranked: seq<Profile>, pending: set<string>, id: string)
    requires WellKeyed(rows) && RankedSoFar(q, rows, ranked, pending)
    requires id in pending && Selects(q, rows[id])
    ensures RankedSoFar(q, rows, InsertRanked(q, ranked, rows[id]), pending - {id})
  {
    var p := rows[id];
    var i := InsertionPoint(q, ranked, p);
    InsertKeepsOrder(q, ranked, p);
    InsertKeepsIds(ranked, i, p);
    InsertFromTable(q, rows, ranked, i, p);
    assert Selected(q, rows) - (pending - {id}) == (Selected(q, rows) - pending) + {id};
  }

  /** Inserting a selected row of the table keeps a list made of selected rows of the table. */
  lemma InsertFromTable(q: Query, rows: map<string, Profile>, ranked: seq<Profile>, i: nat, p: Profile)
    requires FromTable(rows, ranked) && forall k :: 0 <= k < |ranked| ==> Selects(q, ranked[k])
    requires p.userId in rows && rows[p.userId] == p && Selects(q, p)
    requires i <= |ranked|
    ensures var r := ranked[..i] + [p] + ranked[i..];
      FromTable(rows, r) && forall k :: 0 <= k < |r| ==> Selects(q, r[k])
  {
    var r := ranked[..i] + [p] + ranked[i..];
    forall k | 0 <= k < |r| ensures r[k].userId in rows && rows[r[k].userId] == r[k] && Selects(q, r[k]) {
      if k < i {
        assert r[k] == ranked[k];
      } else if k > i {
        assert r[k] == ranked[k - 1];
      }
    }
  }

  lemma SkipUnselected(q: Query, rows: map<string, Profile>, ranked: seq<Profile>, pending: set<string>, id: string)
    requires RankedSoFar(q, rows, ranked, pending)
    requires id in pending && !Selects(q, rows[id])
    ensures RankedSoFar(q, rows, ranked, pending - {id})
  {
    assert Selected(q, rows) - (pending - {id}) == Selected(q, rows) - pending;
  }

  /**
   * Runs `q` over the table: the rows it selects, ranked, cut to `limit`.
   * Rows are taken from the table in an order the model leaves open, which is
   * how ties beyond the sort keys get the engine's order.
   */
  method Select(rows: map<string, Profile>, q: Query, limit: int) returns (top: seq<Profile>)
    requires WellKeyed(rows)
    ensures IsRankedSelection(q, rows, top, limit)
  {
    var ranked: seq<Profile> := [];
    var pending := rows.Keys;
    while pending != {}
      invariant RankedSoFar(q, rows, ranked, pending)
      decreases pending
    {
      var id :| id in pending;
      var p := rows[id];
      if Selects(q, p) {
        TakeSelected(q, rows, ranked, pending, id);
        ranked := InsertRanked(q, ranked, p);
      } else {
        SkipUnselected(q, rows, ranked, pending, id);
      }
      pending := pending - {id};
    }
    top := ranked[..Capped(limit, |ranked|)];
    CutIsRankedSelection(q, rows, ranked, limit);
  }

  /** Cutting the full ranking of the selected rows to the limit answers the query. */
  lemma CutIsRankedSelection(q: Query, rows: map<string, Profile>, ranked: seq<Profile>, limit: int)
    requires RankedSoFar(q, rows, ranked, {})
    ensures IsRankedSelection(q, rows, ranked[..Capped(limit, |ranked|)], limit)
  {
    assert Selected(q, rows) - {} == Selected(q, rows);
    var top := ranked[..Capped(limit, |ranked|)];
    PrefixKeepsRanking(q, rows, ranked, |top|);
    forall id | id in Selected(q, rows) && id !in IdsOf(top)
      ensures 0 <= limit == |top| && forall i :: 0 <= i < |top| ==> RanksAtLeast(q, top[i], rows[id])
    {
      LeftOutRanksBelow(q, rows, ranked, limit, id);
    }
  }

  /** A prefix of a ranking of selected rows of the table is one too. */
  lemma PrefixKeepsRanking(q: Query, rows: map<string, Profile>, ranked: seq<Profile>, n: nat)
    requires FromTable(rows, ranked) && DistinctIds(ranked) && Ordered(q, ranked)
    requires forall i :: 0 <= i < |ranked| ==> Selects(q, ranked[i])
    requires n <= |ranked|
    ensures var top := ranked[..n];
      && FromTable(rows, top) && DistinctIds(top) && Ordered(q, top)
      && forall i :: 0 <= i < |top| ==> Selects(q, top[i])
  {
  }

  /**
   * A selected row missing from the cut ranking was cut by the limit, and
   * every row that made the cut ranks at least as high as it.
   */
  lemma LeftOutRanksBelow(q: Query, rows: map<string, Profile>, ranked: seq<Profile>, limit: int, id: string)
    requires FromTable(rows, ranked) && Ordered(q, ranked)
    requires IdsOf(ranked) == Selected(q, rows)
    requires id in Selected(q, rows) && id !in IdsOf(ranked[..Capped(limit, |ranked|)])
    ensures 0 <= limit == Capped(limit, |ranked|)
    ensures forall i :: 0 <= i < Capped(limit, |ranked|) ==> RanksAtLeast(q, ranked[i], rows[id])
  {
    var n := Capped(limit, |ranked|);
    var top := ranked[..n];
    forall k | 0 <= k < n ensures ranked[k].userId != id {
      assert top[k] == ranked[k] && top[k].userId in IdsOf(top);
    }
    var j :| 0 <= j < |ranked| && ranked[j].userId == id;
    assert n <= j && rows[id] == ranked[j];
  }

  /** A keyword search lists only rows scoring between one and six. */
  lemma SearchScoresInRange(keyword: string, rows: map<string, Profile>, top: seq<Profile>, limit: int)
    requires IsRankedSelection(ByScore(keyword), rows, top, limit)
    ensures forall i :: 0 <= i < |top| ==> 1 <= Score(top[i], keyword) <= 6
  {
    forall i | 0 <= i < |top| ensures 1 <= Score(top[i], keyword) <= 6 {
      QualifiesIffScored(top[i], keyword);
      ScoreCountsColumns(top[i], keyword);
    }
  }

  /**
   * The empty keyword selects every row that has a searchable value, so a
   * search for it returns as many rows as the limit allows.
   */
  lemma EmptyKeywordSelectsAll(rows: map<string, Profile>, top: seq<Profile>, limit: int)
    requires forall id :: id in rows ==> exists c :: ColumnValue(rows[id], c).Some?
    requires IsRankedSelection(ByScore(""), rows, top, limit)
    ensures Selected(ByScore(""), rows) == rows.Keys
    ensures |top| == Capped(limit, |rows|)
  {
    forall id | id in rows ensures id in Selected(ByScore(""), rows) {
      EmptyKeywordQualifies(rows[id]);
    }
    assert |rows.Keys| == |rows|;
  }

  /** Without a limit, listing every row returns each stored `user_id` exactly once. */
  lemma ListingCoversTable(rows: map<string, Profile>, top: seq<Profile>)
    requires IsRankedSelection(Everything, rows, top, -1)
    ensures IdsOf(top) == rows.Keys
    ensures |top| == |rows|
  {
    assert Selected(Everything, rows) == rows.Keys;
    forall id | id in IdsOf(top) ensures id in rows {
      var i :| 0 <= i < |top| && top[i].userId == id;
    }
    assert |rows.Keys| == |rows|;
  }
}
