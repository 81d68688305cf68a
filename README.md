# Profile store and chat front-end helpers, in Dafny

This project models the matchmaking bot's profile store (`Database` in `db.py`)
and the string handling in `bot.py` that feeds it. It proves what each
operation promises.

The store is a table of profiles keyed by `user_id`. Owners write their row
with an upsert. Readers use a point lookup, a keyword search, a role search or a
full listing. The keyword search is modelled faithfully:

- each row scores one point per column (out of six) whose lower-cased text is
  `LIKE '%keyword%'`;
- rows scoring at least one are kept, ordered by score and then by recency, and
  cut to the limit;
- each kept row gets a "matched keywords" explanation built from its stored
  keyword terms and its name and company.

The bot side covers these steps:

- recognising a message that mentions the bot;
- splitting the command into words;
- normalising a comma-separated keyword list;
- routing a message to an action;
- computing what the create and update conversations write, where an empty
  reply keeps the current value.

Modules, one file each:

- `Wrappers` (`wrappers.dfy`): `Option`.
- `Text` (`text.dfy`): the Python string operations used:
  - `isspace`, `strip`, `lower`, `in`, `startswith`;
  - `split(',')`, `split()` and `join`.
- `SqlLike` (`sql_like.dfy`): SQLite's `LIKE`. `%` and `_` are wildcards; every
  other character matches itself ignoring ASCII case.
- `Profiles` (`profiles.dfy`): the row type, the score, the WHERE clause and the
  match explanation.
- `Ranking` (`ranking.dfy`): the three queries as one filter, sort and limit.
  - `Select` is a loop that ranks the selected rows.
  - `IsRankedSelection` says what a correct answer is.
- `Store` (`store.dfy`): `class Database`, whose field `rows` is a map
  `user_id → Profile`.
- `Bot` (`bot.dfy`): the front end's pure logic.

Ties in `ORDER BY` are left open. Two rows equal on every sort key may come back
in either order, so the search methods promise an answer that is correct up to
such ties.

A plain-substring reading of the search (the lower-cased keyword is a
substring of a column) differs from what the code does. The code matches with
`LIKE '%keyword%'` against `lower(column)`. That treats `%` and `_` in the
keyword as wildcards and ignores case on both sides. The model follows the
code. `SqlLike.PatternIsContains` proves the two readings agree when the
keyword has no wildcard.

The explanation, however, uses Python's case-sensitive `in` on the keyword as
passed. A keyword with an upper-case letter can therefore select a row and
still be explained only by the fallback text
(`Profiles.MixedCaseKeywordFallsBack`). The bot always lower-cases the keyword
before searching (`Bot.SearchKeyword`), but it leaves `%` and `_` in place.
For ASCII text and a non-empty, lower-case keyword without `%` or `_`, the
`name` and `company` labels agree exactly with the filter
(`Profiles.FieldLabelsExact`).
A wildcard breaks the agreement: `a_c` selects a row named `abc` but is not a
substring of it. So does the empty keyword: `'' in ''` labels a NULL name or
company that the filter never matches (`Profiles.EmptyKeywordLabelsNullColumns`).
So does a letter outside ASCII: Python's `str.lower()` folds it, SQLite's
`lower()` and `LIKE` do not. The keyword `é` labels a row named `École`
(`'é' in 'école'`), yet `lower('École') LIKE '%é%'` is false, since SQLite
leaves `É` as it is. The model folds ASCII only on both sides, so the
agreement lemmas hold for ASCII text only.

## Model

| member | source | states |
|---|---|---|
| Store.Database.constructor | db.py:12-25 | A new store holds an empty table whose rows are filed under their own primary key |
| Store.Database.UpsertProfile | db.py:63-77 | Afterwards the lookup of the id returns exactly the written columns stamped `now`. Every other id reads as before. The set of ids gains exactly this id, so an existing id leaves it unchanged. Omitted company/LinkedIn columns are written as NULL: no merging |
| Store.Database.GetProfile | db.py:79-84 | Returns the row exactly when the id is stored. An unknown id gives None, not an error. The row returned carries the id asked for |
| Store.UpsertScenario | db.py:63-84 | After two writes to one owner and one to another: the later write wins outright, a column left out reads back NULL, the other owner keeps their row and an unknown id reads None |
| Store.Database.Search | db.py:86-138 | The hits are a correct ranked selection (`IsRankedSelection`) for the keyword query, projected with their explanations. There are at most `limit` of them. Each is a stored row, scores 1 to 6 and is explained by `Explanation`. They are ordered by score, then `updated_at`, descending |
| Store.ExplainAll | db.py:104-138 | The loop over the ranked rows yields, position by position, each row's columns with its explanation (`HitsOf`) |
| Store.ExplainMatch | db.py:104-136 | The loop builds exactly `Explanation(p, keyword)`: matching stored terms, then `name`, then `company`, joined by ", ", or `profile match` |
| Store.MatchingTerms | db.py:118-120 | The loop collects exactly the matching stored terms, in stored order (`TermsMatching`) |
| Store.SearchHitsAreRows | db.py:102-136 | Each hit of a correct keyword answer is the stored row's columns with its explanation, scoring between one and six |
| Store.SearchHitsInOrder | db.py:99 | Hits of a correct keyword answer are in score-then-recency descending order |
| Store.Database.SearchRoles | db.py:140-160 | A correct ranked selection over `role LIKE`, with at most `limit` hits. Every hit is a stored row whose role matches. Hits are ordered by `updated_at` descending |
| Store.Database.ListAllProfiles | db.py:162-166 | Lists every stored id exactly once (same count, no repeats, nothing else) with its name, most recently updated first |
| Store.ListingOfFullRanking | db.py:164-166 | The listing built from a full recency ranking names every stored id once, with its name, most recently updated first |
| Store.ListingNamesEveryRow | db.py:164-166 | A listing of a ranking that holds every stored id names exactly the stored ids, one entry per row |
| Store.ListingFollowsRanking | db.py:164-166 | A listing of a distinct, recency-ordered ranking of table rows has no repeated id, carries each row's name and runs newest first |
| Ranking.Select | db.py:96-100 | The filter, sort and limit loop returns a correct ranked selection. Only selected rows appear, each once, in rank order, `min(limit, #selected)` of them. A selected row is missing only when the limit is full of rows ranking at least as high |
| Ranking.Capped | db.py:100 | The number of rows `LIMIT` lets through is at most the row count and at most a non-negative limit. Fewer rows than selected means exactly `limit` |
| Ranking.InsertionPoint | db.py:99 | The insertion point follows every row that ranks at least as high as the new row and stops at the first that does not |
| Ranking.CutIsRankedSelection | db.py:99-100 | Cutting the full ranking of the selected rows to the limit is a correct answer |
| Ranking.PrefixKeepsRanking | db.py:99-100 | A prefix of a ranking of selected rows of the table, distinct and in rank order, is one too |
| Ranking.LeftOutRanksBelow | db.py:99-100 | A selected row missing after the cut was cut by a non-negative limit, and every listed row ranks at least as high as it |
| Ranking.InsertRanked | db.py:99 | One step of the sort: the row placed at its insertion point. `InsertKeepsOrder` and `InsertKeepsIds` prove it keeps the list ranked and its ids distinct |
| Ranking.InsertKeepsOrder | db.py:99 | Inserting a row at its insertion point keeps a ranked list ranked |
| Ranking.InsertKeepsIds | db.py:99 | Inserting a row adds its id to the listed ids and keeps them distinct |
| Ranking.TakeSelected | db.py:97-99 | Ranking in a selected row keeps the loop invariant of `Select` |
| Ranking.InsertFromTable | db.py:97-99 | Inserting a selected row of the table keeps the list made of selected rows of the table |
| Ranking.SkipUnselected | db.py:97-98 | Passing over an unselected row keeps the loop invariant of `Select` |
| Ranking.SearchScoresInRange | db.py:90-98 | Every row a keyword search returns scores between 1 and 6 |
| Ranking.EmptyKeywordSelectsAll | db.py:87-98 | The empty keyword selects every row with a non-NULL searchable column, so the search returns as many rows as the limit allows |
| Ranking.ListingCoversTable | db.py:164-166 | With no limit, the listing's ids are exactly the stored ids, one row each |
| Profiles.ScoreCountsColumns | db.py:89-95 | The score is the number of the six columns that match, hence at most 6 |
| Profiles.ColumnLike | db.py:90-98 | `lower(col) LIKE '%kw%'` holds only for a non-NULL column, and always when the lower-cased column contains the keyword literally: wildcards only add matches |
| Profiles.Score | db.py:89-95 | The score of a row is at most 6, one point per column (the exact count is `ScoreCountsColumns`) |
| Profiles.Qualifies | db.py:97-98 | The WHERE clause holds exactly when the score is at least 1 |
| Profiles.QualifiesIffScored | db.py:90-98 | A row passes the WHERE clause exactly when its score is at least 1 |
| Profiles.MatchCountMonotone | db.py:89-95 | Matching in a superset of columns never counts fewer |
| Profiles.ScoreMonotone | db.py:89-95 | A row matching in every column another row matches never scores lower |
| Profiles.EmptyKeywordQualifies | db.py:87-98 | The pattern `%%` matches every non-NULL column. A row qualifies for the empty keyword exactly when some column is non-NULL |
| Profiles.StoredTerms | db.py:108 | The row's keyword terms: `keywords or ''` split on commas, each stripped, blanks dropped. `NoKeywordsNoTerms` and `Text.CommaTermsOccur` prove their properties |
| Profiles.TermsMatching | db.py:118-120 | The matching terms in stored order, never more than stored. `TermsMatchingMembers` characterises its members |
| Profiles.TermsMatchingMembers | db.py:108-120 | A stored term is listed exactly when its lower-cased text contains the keyword |
| Profiles.MatchedLabels | db.py:117-126 | The labels: matching stored terms, then `name`, then `company`. `MatchedLabelsMembers` and `LabelsWitnessFilter` prove what it holds |
| Profiles.Render | db.py:136 | The labels joined by ", ", or `profile match` when there are none. `Store.ExplainMatch` and `MixedCaseKeywordFallsBack` use both branches |
| Profiles.Explanation | db.py:104-136 | The `matched_keywords` text of a hit. `Store.ExplainMatch` proves the loop computes it and `AliceExplanation` gives a value |
| Profiles.MatchedLabelsMembers | db.py:117-126 | A label is listed exactly when it is a matching stored term, or `name`/`company` whose lower-cased column contains the keyword |
| Profiles.LabelsWitnessFilter | db.py:117-126 | For ASCII text and a non-empty keyword each label is backed by the SQL filter matching the same column, so an explained row is always a selected one |
| Profiles.LabelWitness | db.py:123-126 | For ASCII text, a field label implies that column matched the filter (a NULL column never labels a non-empty keyword) |
| Profiles.FieldLabelsExact | db.py:119-126 | For ASCII text and a non-empty, lower-case keyword without wildcards, `name` and `company` are listed exactly when the filter matched those columns |
| Profiles.LabelExact | db.py:123-126 | For ASCII text, one column and a non-empty, lower-case keyword without wildcards: the label appears if and only if the filter matched |
| Profiles.EmptyKeywordLabelsNullColumns | db.py:90-126 | For the empty keyword, a NULL name and a NULL company are both labelled, yet neither column matches the filter |
| Profiles.MixedCaseKeywordFallsBack | db.py:90-136 | Keyword "AI" selects a row named "ai lab" (score 1) but its explanation is `profile match` |
| Profiles.LowerNameMatchesUpperKeyword | db.py:90 | `lower('ai lab') LIKE '%AI%'` holds |
| Profiles.LowerNameNotLabelled | db.py:117-126 | No label is produced for that row and keyword |
| Profiles.NoKeywordsNoTerms | db.py:108 | A NULL keyword column gives no stored terms |
| Profiles.AliceScenario | db.py:86-136 | Alice ("AI founder", keywords `ai,investor`) scores 2 for "ai" and is explained by `ai` alone |
| Profiles.AliceScore | db.py:89-95 | Alice's score for "ai" is 2 |
| Profiles.AliceExplanation | db.py:104-136 | Alice's explanation for "ai" is `ai` |
| Profiles.AliceColumns | db.py:90-93 | Role and keywords match "ai"; name and description do not |
| Profiles.AliceNameMisses | db.py:90 | `lower('Alice') LIKE '%ai%'` is false |
| Profiles.AliceRoleMatches | db.py:91 | `lower('AI founder') LIKE '%ai%'` holds |
| Profiles.AliceDescriptionMisses | db.py:92 | `lower('builds agents') LIKE '%ai%'` is false |
| Profiles.AliceKeywordsMatch | db.py:93 | `lower('ai,investor') LIKE '%ai%'` holds |
| Profiles.AliceTerms | db.py:108 | Her stored list splits into the terms `ai`, `investor` |
| Profiles.AliceTermsMatching | db.py:118-120 | Of those, only `ai` contains "ai" |
| Profiles.AliceStoredTermsMatch | db.py:108-120 | The matching stored terms of her row are exactly `ai` |
| Profiles.AliceLabels | db.py:123-126 | Neither her name nor her (NULL) company contains "ai" |
| SqlLike.ContainsPattern | db.py:87 | The pattern is the keyword wrapped in `%` on both sides |
| SqlLike.Like | db.py:90-98 | SQLite's `LIKE` with `%` and `_` as wildcards, case-blind on ASCII. A pattern of `%` alone matches every string. `PatternIsContains` and `PrefixPatternIsPrefix` characterise the wildcard-free case |
| SqlLike.PercentMatchesAll | db.py:87 | `%` alone matches every string |
| SqlLike.PercentMayBeEmpty | db.py:87 | A leading `%` may match nothing |
| SqlLike.LiteralPrefixMatches | db.py:90-98 | A string that starts with `w` matches `w%` whatever `w` holds |
| SqlLike.ContainsMatchesPattern | db.py:90-98 | A string that contains `w` literally matches `%w%`, whatever `w` holds |
| SqlLike.PrefixPatternIsPrefix | db.py:90-98 | Without wildcards, `s LIKE 'w%'` holds if and only if lower-cased `s` starts with lower-cased `w` |
| SqlLike.LiteralHead | db.py:90 | A pattern that starts with an ordinary character matches exactly when the first characters agree ignoring case and the rests match |
| SqlLike.PatternIsContains | db.py:90-98 | Without wildcards, `s LIKE '%w%'` holds if and only if lower-cased `w` is a substring of lower-cased `s` |
| Text.Strip | bot.py:59 | `strip()` leaves no leading or trailing whitespace |
| Text.StripOccurs | bot.py:59 | The stripped text is the original with leading and trailing whitespace removed |
| Text.StripAvoids | db.py:108 | Stripping introduces no character that was absent |
| Text.StripOfStripped | bot.py:64 | Stripping a stripped text changes nothing |
| Text.StripLeadingSpace | bot.py:59 | Leading whitespace does not change the stripped result |
| Text.StripTrailingSpace | bot.py:64 | A stripped text followed by whitespace strips back to itself |
| Text.TrimRightTrailingSpace | bot.py:64 | Trailing whitespace is dropped by the right trim |
| Text.StripPadded | bot.py:59-64 | A stripped text with whitespace on both sides strips back to itself |
| Text.TrimLeftLeadingSpace | bot.py:59 | Leading whitespace is dropped by the left trim |
| Text.TrimLeft | bot.py:59 | The left trim is a suffix that starts with no whitespace, and everything it drops is whitespace |
| Text.TrimRight | bot.py:59 | The right trim is a prefix that ends with no whitespace, and everything it drops is whitespace |
| Text.LowerChar | db.py:90 | ASCII lower-casing of one character: no upper-case result, and whitespace and commas are kept |
| Text.Lower | db.py:90 | Lower-casing keeps the length and lower-cases each character in place |
| Text.LowerIsLowerCase | bot.py:126 | `lower()` leaves no upper-case letter |
| Text.LowerOfLowerCase | bot.py:163 | Lower-casing lower-case text changes nothing |
| Text.LowerKeepsStripped | bot.py:163 | Lower-casing a stripped text leaves it stripped |
| Text.LowerConcat | bot.py:163 | Lower-casing distributes over concatenation |
| Text.StartsWith | bot.py:63-66 | `startswith`: the text begins with the prefix. `StartsWithCons` proves it character by character |
| Text.Contains | db.py:119 | Python's `in` on strings: only a part no longer than the text can occur in it. `ContainsAt` and `ContainsIndex` prove it means an occurrence at some index |
| Text.ContainsAt | db.py:119 | An occurrence at some index makes `in` true |
| Text.StartsWithCons | bot.py:63-66 | A text starts with a non-empty prefix exactly when the first characters agree and the rest starts with the rest of the prefix |
| Text.ContainsIndex | db.py:119 | `in` being true yields an index of an occurrence |
| Text.ContainsTransitive | db.py:119 | A substring of a substring is a substring |
| Text.ContainsLower | db.py:119 | Lower-casing both sides keeps a substring a substring |
| Text.LacksPair | db.py:119 | A text without two adjacent characters `a`,`b` does not contain `ab` |
| Text.SplitOn | db.py:108 | `split(',')` yields at least one piece, none containing the separator, the first a prefix |
| Text.SplitOnWithoutSep | db.py:108 | A text without the separator splits into itself |
| Text.SplitOnAfterPiece | db.py:108 | Splitting `piece + sep + rest` yields `piece` then the pieces of `rest` |
| Text.SplitJoinRoundTrip | bot.py:162-164 | Splitting a join of separator-free pieces gives back the pieces |
| Text.JoinWith | bot.py:162-164 | `sep.join(parts)`. `SplitJoinRoundTrip`, `CommaTermsOfJoin` and `SplitWsJoinRoundTrip` prove that splitting undoes it |
| Text.SplitOnPiecesOccur | db.py:108 | Each piece is a substring of the split text |
| Text.NonBlankStripped | db.py:108 | The kept terms are non-empty and stripped |
| Text.NonBlankStrippedAvoids | db.py:108 | Terms avoid a character the pieces avoid |
| Text.NonBlankStrippedWithin | db.py:108 | Each term is a substring of some piece |
| Text.CommaTermsOccur | db.py:108 | Each stored term is comma-free and a substring of the stored list |
| Text.CommaTerms | db.py:108 | `[k.strip() for k in s.split(',') if k.strip()]`. `CommaTermsOccur` and `CommaTermsOfJoin` prove what it yields and that it inverts a comma-join |
| Text.NonBlankStrippedOfTerms | db.py:108 | Non-empty stripped pieces are kept as they are |
| Text.CommaTermsOfJoin | bot.py:162-164 | Reading a comma-join of non-empty, stripped, comma-free terms gives back the terms |
| Text.Word | bot.py:122 | The leading non-whitespace run of a text |
| Text.SplitWs | bot.py:122 | `split()` yields non-empty tokens free of whitespace |
| Text.WordBeforeSpace | bot.py:122 | A token followed by whitespace is read back as that token |
| Text.SplitWsJoinRoundTrip | bot.py:122 | Splitting tokens joined by single spaces gives back the tokens |
| Text.SplitWsLeadingSpace | bot.py:122 | Leading whitespace does not change the words `split()` finds |
| Text.SplitWsAfterToken | bot.py:122 | A token followed by whitespace or nothing is the first word, and the split goes on after it |
| Text.SplitWsLayout | bot.py:122 | `split()` returns exactly the tokens of any layout: any whitespace before and after, and a non-empty whitespace run between each two tokens |
| Text.JoinTokensStripped | bot.py:268 | Tokens joined by single spaces form a stripped text |
| Text.Decimal | bot.py:60-61 | The decimal text of an id is non-empty, all digits, and spells the id back (`DigitsValue`) |
| Text.DigitsValue | bot.py:60-61 | The number a digit string spells, the inverse `Decimal` is proved against |
| Text.DecimalInjective | bot.py:60-61 | Different ids are written differently, so each bot id has its own mention text |
| Bot.MentionCommand | bot.py:47-67 | Returns the rest of the message exactly when its stripped text starts with `<@id>` or `<@!id>`. The result is stripped |
| Bot.PlainMention | bot.py:60 | `<@id>`: starts with `<@`, ends with `>`, and the digits between spell the bot id |
| Bot.NickMention | bot.py:61 | `<@!id>`: starts with `<@!`, ends with `>`, and the digits between spell the bot id |
| Bot.MentionIsStripped | bot.py:59-66 | A mention is non-empty with no whitespace at either end |
| Bot.MentionFormsExclusive | bot.py:63-66 | No text starts with both mention forms, so the order they are tried in does not matter |
| Bot.MentionCommandAfter | bot.py:59-66 | With a mention form present, the result is the stripped remainder after it |
| Bot.StripLeadSpaceCommand | bot.py:59 | Stripping a mention, a space and a stripped command drops only the space when the command is empty |
| Bot.StripPadLeadCommand | bot.py:59-66 | After leading whitespace the stripped message starts with the mention and its remainder strips to the command |
| Bot.LeadThenCommand | bot.py:64 | A mention, a space and a stripped command leave that command |
| Bot.MentionRoundTrip | bot.py:47-67 | Whitespace, a mention in either form, a space and a stripped command yield exactly the command |
| Bot.BareMentionCommand | bot.py:59-66 | A mention in either form with only whitespace around it yields the empty command |
| Bot.PlainMentionOf | bot.py:63-64 | `<@id> command` yields the command |
| Bot.LowerEach | bot.py:163 | Each term is lower-cased in place |
| Bot.NormalizeKeywords | bot.py:162-164 | The stored form of a typed keyword list (also bot.py:237-239): terms stripped, lower-cased, blanks dropped, comma-joined. `NormalizeReadBack` and `NormalizeIdempotent` prove its properties |
| Bot.LowerTermIsKeywordTerm | bot.py:163 | A non-empty, stripped, comma-free term lower-cases to a keyword term |
| Bot.NormalizeReadBack | bot.py:162-164 | Normalised terms are non-empty, trimmed, lower-case and comma-free. The store's own comma split reads them back exactly |
| Bot.NormalizeIdempotent | bot.py:162-164 | Normalising an already-normalised list leaves it unchanged |
| Bot.ParseCommand | bot.py:122-127 | No command exactly when the text has no words. Otherwise the name is non-empty and lower-case, and the arguments are whitespace-free words. `ParseCommandLayout` proves which words they are |
| Bot.ParseCommandRoundTrip | bot.py:122-127 | Words joined by single spaces parse back into the lower-cased first word and the rest |
| Bot.ParseCommandLayout | bot.py:122-127 | Words with any whitespace before, after and between them (at least one character between two words) parse into the lower-cased first word and the words after it |
| Bot.SearchKeyword | bot.py:268 | The keyword is stripped and lower-case. For at least one word it is non-empty and equals the words joined by single spaces, lower-cased |
| Bot.Route | bot.py:111-303 | A message is ignored exactly when it comes from a bot, does not start with a mention of the bot, or has no command word after it. A search runs only in the search channel, with a non-empty, stripped, lower-case keyword. The usage text too is sent only there. `RouteCommand` and `RouteSearchCommand` prove which action each command word gets |
| Bot.RouteCommand | bot.py:132-304 | A parsed command other than `search`: `create-profile` starts the create conversation, `update-profile` the update conversation, and every other word is answered as unknown |
| Bot.RouteSearchCommand | bot.py:254-269 | A parsed `search` is refused outside the channel, gets the usage text with no words, and otherwise runs the search |
| Bot.SearchLineIsTokens | bot.py:122 | `search` followed by words is a list of tokens |
| Bot.RouteSearch | bot.py:122-127 | `<@id> search w1 … wn` is refused outside the search channel. With no words it gets the usage text. Otherwise it searches for the words joined by single spaces, lower-cased |
| Bot.RouteBareMention | bot.py:122-124 | A message that is only a mention, in either form, with whitespace around it is ignored |
| Bot.CreateFlow | bot.py:139-173 | Nothing is written if any reply timed out. Otherwise the name/role reply is written as both name and role, with the description, and the keyword reply normalised (`NormalizeKeywords`), a list that normalising again leaves unchanged |
| Bot.CreateFlowReadBack | bot.py:162-173 | The keyword list a new profile stores is read back by the search as exactly the typed terms, blanks dropped and lower-cased, each a keyword term |
| Bot.UpdateFlow | bot.py:187-247 | No profile means no write. Any timeout cancels. Otherwise name and role are written from the same value |
| Bot.KeepIfEmpty | bot.py:215-216 | An empty reply keeps the current value (also bot.py:224-225); `UpdateMerge` proves the update uses it for name and description |
| Bot.UpdateMerge | bot.py:209-247 | Each empty reply keeps the current value of its field and any other replaces it. New keywords are normalised; kept ones are reused verbatim. The role is written from the name value |
| Bot.UpdateKeepsKeywordsNormalized | bot.py:234-239 | An update over a normalised (or NULL) keyword list leaves a normalised (or NULL) list |
| Bot.UpdateWithEmptyReplies | bot.py:209-247 | Replying empty to every prompt rewrites the current name (as name and role), description and keywords |

## Left out

- The SQLite connection, `row_factory`, and the `ALTER TABLE` migrations (db.py:6-61) are not modelled. The table is an in-memory map, and the migrations only add the two optional columns.
- Store.Database.constructor: starts from an empty table. Rows persisted by an earlier run are not modelled.
- `time.time()` (db.py:64) is the `now` parameter of `UpsertProfile`.
- Ties beyond `updated_at` are left to the storage engine. `Search`, `SearchRoles` and `ListAllProfiles` promise an answer correct up to the order of rows equal on every sort key, not one fixed order.
- `search_fields` (db.py:109-115) is computed but never read, so it has no counterpart.
- Case folding is ASCII only. SQLite's `lower()` and `LIKE` fold only ASCII letters. Python's `str.lower()` in the explanation and in the bot folds all of Unicode; that wider folding is not modelled.
- Profiles.LabelsWitnessFilter, Profiles.LabelWitness, Profiles.FieldLabelsExact and Profiles.LabelExact hold in the model because one ASCII `Lower` stands for both foldings. In the program they fail for non-ASCII letters: the keyword `é` labels the name `École` (Python's `'é' in 'école'`), while `lower('École') LIKE '%é%'` does not match in SQLite.
- `check_same_thread=False` and concurrent access are not modelled. Every operation runs alone.
- The Discord client, event registration, `.env` loading, replies and embeds sent to users, and `client.run` are outside the model (bot.py:1-40, bot.py:105-108, bot.py:271-313). Routing stops at the action chosen.
- `prompt_user` (bot.py:70-98) is a DM round-trip with a timeout. Its reply enters the flows as a parameter: the text already stripped, or None on timeout.
- Bot.CreateFlow: a timed-out reply makes the later prompts never happen. The function receives all three replies and ignores those after the first None, which gives the same write.
- Bot.UpdateFlow: the same holds for the update prompts. Sending the current profile to the user is not modelled.
- Bot.Route: the unknown-command and wrong-channel replies are chosen but not sent.
- `limit` is a parameter of `Search` and `SearchRoles`; its default of 20 (db.py:86, db.py:140) is not modelled. The call bot.py:269 makes for `RunSearch` with that default is outside the model, which stops at the action.
- `MentionCommand` takes the bot's numeric id as a `nat`, written in decimal as Python's `str` writes it.
