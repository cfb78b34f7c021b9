# Social media analytics backend, modelled in Dafny

This project models the backend of a social-activity dashboard (`backend/main.py`):
users write posts, like them and comment on them, and a set of analytics
endpoints answers SQL queries over the four tables `users`, `posts`, `likes` and
`comments`.

The model has two parts:

- **The analytics queries are pure functions over relations held as sequences.**
  These are `group_by_engagement`, `get_union_activities`, `search_posts` and
  `get_engagement_stats`. Each function states what its SQL means: the inner
  join, the `GROUP BY` with its `HAVING` and `CASE`, `UNION ALL`,
  `ORDER BY ... DESC`, `LIMIT`, `LIKE`, the aggregates and `RANK()`.
- **The write endpoints are methods of a `Database` class that holds the four
  tables as maps from id to row.** Each method returns the HTTP outcome:
  a body, or a status with its detail text.

`export_report` is a method with the loop of the source. It writes the header
record and then one record per row.

Files and modules:

| file | module | what it holds |
|---|---|---|
| `records.dfy` | `Records` | row datatypes (after `backend/schemas/schema.py`), `Option`, the inner join on `users.id` |
| `ordering.dfy` | `Ordering` | `ORDER BY key DESC` as an insertion sort; `LIMIT` as `TopN` |
| `like_pattern.dfy` | `LikePattern` | PostgreSQL `LIKE` with `%`, `_` and backslash escape; the substring theorem |
| `analytics.dfy` | `Analytics` | `group_by_engagement`, the overall stats, `RANK()` of the top engaged users |
| `timeline.dfy` | `Timeline` | `get_union_activities` |
| `search.dfy` | `Search` | `search_posts` |
| `export.dfy` | `Export` | `export_report` |
| `store.dfy` | `Store` | the `Database` class and the write endpoints, plus `get_user` |

Modelling conventions:

- Scores and averages are exact `real`s.
- Timestamps are `int`s.
- A post's `like_count`, `comment_count` and `engagement_score` are inputs, as
  found in the table.
- `SUM`, `AVG` and `MAX` of no rows are SQL `NULL`. Here they are `None`.
- SQL leaves the order of rows with equal sort keys unspecified. `SortDesc`
  picks one order, and every contract states only what SQL guarantees: the
  result is sorted, and it is a permutation of its input (`multiset` equality).
- An inner join pairs a row with **every** `users` row of the same id, so the
  joins of the timeline and the search need no assumption. Lemmas that count
  rows assume the primary key (`UniqueUserIds`): each record then gives one
  row when its user exists and none when it does not.
- `Analytics.Groups` makes one group per `users` row. `GROUP BY u.id,
  u.username` merges rows that share id and username, so the grouping agrees
  with SQL only under the primary key, which rules such rows out.
- The database decides whether a statement succeeds. It enforces unique fields,
  foreign keys, duplicate likes and triggers, none of which are in the backend's
  source. So each write takes a `Verdict` parameter: `Accepted`, or
  `Rejected(message)` with the database's error text. The clock behind
  `created_at` is a parameter `now`.

The model follows the code as written:

- Tiers use the fixed thresholds `> 2` (High) and `> 1` (Medium). They are not
  configurable `>=` thresholds.
- The only group filter is `HAVING COUNT(p.id) >= 1`.
- Search is a case-sensitive `LIKE '%q%'`. An empty query matches every post
  that has an owner; it does not fail.
- `%`, `_` and backslash in the query act as `LIKE` metacharacters.
- LIKE rows of the timeline carry the constant text "Liked a post", not the
  post's content. The timeline is cut to 20 rows.
- Not-found errors in `update_user`, `delete_user` and `remove_like` come back
  as status 400, not 404. The `HTTPException(404)` is raised inside the `try`
  and caught by `except Exception`, which answers 400. Its detail is the
  exception's string form, "404: User not found" or "404: Like not found".
  Only `get_user` answers 404.
- Top engaged users are ranked with `RANK()`: ties share a rank and the next
  rank skips. Ranks come from the `user_engagement_summary` view, not from
  posts.
- The export reads the `top_posts` view directly. There is no snapshot.

## Model

| member | source | states |
|---|---|---|
| `Records.OwnersOf` | backend/main.py:203 | the users a row joins with are exactly the `users` rows whose id equals the row's user id |
| `Records.OwnersOfUnique` | backend/main.py:203 | under the primary key, a row whose user exists joins with exactly one user |
| `Ordering.Insert` | backend/main.py:251 | inserting into a sorted relation keeps it sorted and adds exactly the one row (multiset) |
| `Ordering.SortDesc` | backend/main.py:251 | `ORDER BY key DESC` gives a sorted permutation of its input |
| `Ordering.PrefixIsTop` | backend/main.py:210-211 | in a sorted relation, no row after the first `m` has a larger key than a row among them |
| `Ordering.TopN` | backend/main.py:210-211 | `ORDER BY ... DESC LIMIT n` returns min(n, size) sorted rows drawn from the input, all of them when the input is small, and never drops a row with a larger key than a kept one |
| `LikePattern.PercentMatchesAll` | backend/main.py:219 | the pattern `%` matches every text |
| `LikePattern.LiteralPrefix` | backend/main.py:219 | a wildcard-free literal followed by `%` matches exactly the texts that begin with it |
| `LikePattern.LeadingPercent` | backend/main.py:219 | a leading `%` matches when the rest of the pattern matches some suffix of the text |
| `LikePattern.SearchPatternIsSubstring` | backend/main.py:218-219 | for a query without `%`, `_` or backslash, `content LIKE '%q%'` holds iff `q` occurs contiguously in the content, case-sensitively |
| `LikePattern.EmptyQueryMatchesAll` | backend/main.py:219 | the empty query's pattern `%%` matches every content |
| `Analytics.PostsBy` | backend/main.py:248 | the posts joined to a user are exactly the posts whose `user_id` is that user's id, each as many times as the table holds it |
| `Analytics.TierOf` | backend/main.py:242-246 | High iff avg > 2, Medium iff 1 < avg <= 2, Low iff avg <= 1 |
| `Analytics.TierBoundaries` | backend/main.py:243-244 | avg exactly 2 is Medium and exactly 1 is Low (strict comparisons) |
| `Analytics.SumsPermutation` | backend/main.py:179-181 | `SUM` of like counts, of comment counts and of scores depends only on the bag of rows, not on their order |
| `Analytics.GroupOfOrderIndependent` | backend/main.py:238-250 | a user's group row (count, average, like total, tier) depends only on the bag of posts, not on the table order |
| `Analytics.Groups` | backend/main.py:247-250 | the grouped inner join has a row exactly for the users with at least one post |
| `Analytics.GroupByEngagement` | backend/main.py:236-252 | rows are sorted by average engagement non-increasing and are a permutation of the groups; a row is present iff it is the group of a user with posts, and every row's post count is at least 1 |
| `Analytics.GroupByEngagementRows` | backend/main.py:247-250 | the row count equals the number of users with posts, and every such user's group is present |
| `Analytics.MaxScore` | backend/main.py:182 | `MAX(engagement_score)` is at least every post's score and equals one of them |
| `Analytics.OverallStatsOf` | backend/main.py:176-184 | total_posts is the post count; the sums are the sums of like and comment counts, and the average is sum / count; with no posts, the sums, average and max are NULL |
| `Analytics.CountAbovePermutation` | backend/main.py:189 | the number of rows with a larger total does not depend on row order |
| `Analytics.PeerRank` | backend/main.py:189 | `RANK()` at a window position is 1 + the number of rows with a strictly greater total |
| `Analytics.RankWindow` | backend/main.py:187-191 | the first rows of the window order with their ranks: a row tied with its predecessor shares its rank, otherwise its rank is its position plus one |
| `Analytics.TopEngagedUsers` | backend/main.py:187-192 | min(5, size) rows; each rank is 1 + the number of summary rows (before the limit) with a greater total; a row tied with its predecessor shares its rank, otherwise its rank is its position plus one, so ranks skip after ties |
| `Analytics.TopEngagedIsTop` | backend/main.py:187-192 | the kept rows are summary rows in non-increasing total order, all of the summary when it has at most 5 rows, and no dropped row has a larger total than a kept one |
| `Analytics.GetEngagementStats` | backend/main.py:173-197 | the response pairs the overall stats (post count) with the ranked top engaged users (at most 5, ranked against the whole summary) |
| `Timeline.RowsFor` | backend/main.py:202-209 | an event contributes one row per user it joins with, carrying that user's name |
| `Timeline.Join` | backend/main.py:203 | a row of a branch is present iff it pairs an event with a user of the same id |
| `Timeline.UnionActivities` | backend/main.py:199-213 | at most 20 rows, min(20, size of the union); sorted by activity date, newest first; drawn from the `UNION ALL` without duplication; all of it when it has at most 20 rows; no omitted row is newer than a returned one |
| `Timeline.UnionRowOrigin` | backend/main.py:202-209 | every union row is one post, like or comment joined with its user, with `activity_type` "POST", "LIKE" or "COMMENT"; POST and COMMENT rows carry their own content, LIKE rows "Liked a post" |
| `Timeline.UnionRowComplete` | backend/main.py:202-209 | every post, like and comment whose user exists has its row in the union |
| `Timeline.JoinSize` | backend/main.py:203-209 | under the primary key, a branch keeps one row per event whose user exists (duplicates preserved) and none for an event without a user |
| `Timeline.UnionCount` | backend/main.py:201-211 | under the primary key, the union has one row per post, like and comment whose user exists, and all of them come back when there are at most 20 |
| `Timeline.CountOwnedAll` | backend/main.py:201-211 | when every record's user exists, every record is counted, so the union then has \|posts\| + \|likes\| + \|comments\| rows |
| `Search.RowsFor` | backend/main.py:218 | a matching post contributes one row per owner, carrying the owner's username |
| `Search.SearchCount` | backend/main.py:218-219 | under the primary key, the search returns exactly one row per matching post whose user exists |
| `Search.SearchPosts` | backend/main.py:215-221 | a row is returned iff it pairs a post whose content is `LIKE '%query%'` with a user whose id is the post's `user_id` |
| `Search.LiteralSearch` | backend/main.py:217-220 | for a query without metacharacters, the rows are exactly the owned posts whose content contains the query, case-sensitively |
| `Search.EmptySearchReturnsAll` | backend/main.py:219 | the empty query returns every post that has an owner |
| `Search.SearchIsCaseSensitive` | backend/main.py:218 | "hello" is found in "say hello" but not in "Hello world" or "say HELLO" |
| `Export.ExportReport` | backend/main.py:255-264 | the output is the header record then one record per result row, in result order; an empty result gives the header only |
| `Store.LikeRemovalExact` | backend/main.py:134-137 | after the `DELETE`, no like of that user on that post is left, and every other like is kept unchanged |
| `Store.Database.CreateUser` | backend/main.py:44-55 | success inserts the user under a fresh id and returns it; a rejected insert answers 400 with the database's text and changes nothing |
| `Store.Database.GetUser` | backend/main.py:62-68 | returns the user with that id, or 404 "User not found" iff there is none |
| `Store.Database.UpdateUser` | backend/main.py:70-84 | replaces username, email and full name of an existing user; an unknown id answers 400 "404: User not found"; every error is 400 and changes nothing |
| `Store.Database.DeleteUser` | backend/main.py:86-96 | removes an existing user row; an unknown id answers 400 "404: User not found"; every error is 400 and changes nothing |
| `Store.Database.CreatePost` | backend/main.py:99-110 | success inserts the post under a fresh id with counters 0 and score 0; a rejected insert answers 400 and changes nothing |
| `Store.Database.CreateLike` | backend/main.py:118-129 | success inserts the like under a fresh id; every failure answers 400 "Already liked or invalid data" and changes nothing |
| `Store.Database.RemoveLike` | backend/main.py:131-144 | deletes every like of that user on that post; none answers 400 "404: Like not found"; every error is 400 and changes nothing |
| `Store.Database.CreateComment` | backend/main.py:147-158 | success inserts the comment under a fresh id; a rejected insert answers 400 and changes nothing |
| `Store.NotFoundStatuses` | backend/main.py:62-96 | on an unknown id, `get_user` answers 404 while `update_user`, `delete_user` and an unknown `remove_like` answer 400 |

## Left out

- Database triggers are not modelled. They maintain `like_count`,
  `comment_count` and `engagement_score`, but they are not in the backend's
  source. The counters are inputs to the queries, and `CreateLike` and
  `CreateComment` do not change them.
- `Store.Database.CreatePost` assumes the column defaults. It stores counters 0
  and score 0.0, but the schema that sets those defaults is not in the source.
- The views `top_posts` and `user_engagement_summary`, the materialized view
  `post_engagement_mv` and the procedure `refresh_engagement_metrics` have no
  visible definition. So `get_top_posts`, `get_user_summary` and
  `refresh_materialized_view` are not modelled. Their rows enter the model as
  inputs: `summary` for the ranking, `rows` for the export.
- `get_users` and `get_posts` are not modelled. They read a whole table
  `ORDER BY created_at DESC` and add nothing beyond `SortDesc`.
- `Store.Database.DeleteUser` does not cascade. It removes only the user row.
  Whether the schema cascades to or rejects posts, likes and comments is not in
  the source: a rejection arrives as a `Rejected` verdict. Posts and rows left
  without a user then drop out of every inner join.
- `Store.Database.UpdateUser` leaves `updated_at` out. It does not model the
  column, which the response model does not return.
- Sequence values consumed by a failed insert are not modelled. PostgreSQL does
  not roll sequences back, but the model keeps the id counters unchanged on
  failure. Ids stay fresh either way.
- Which constraint rejects a write is not modelled. The `Verdict` parameter
  stands for it.
- CSV quoting is not modelled. Rendering field values as text (`str()`) and the
  quoting and line endings of Python's `csv` writer are a foreign library. The
  export produces records: sequences of fields.
- `returns_rows` is a parameter of `Export.ExportReport`. It is always true for
  a `SELECT`.
- Floating-point rounding of `AVG` and of the scores is not modelled. Exact
  reals are used.
- `NULL` counter values are not modelled. Counters are taken as present
  integers.
- `NULL` totals in `user_engagement_summary` are not modelled. PostgreSQL sorts
  `NULL` first under `DESC`, so such a row would head the ranking; the model's
  totals are integers.
- `Analytics.TopEngagedUsers` keeps the first five rows in window order. The
  query has no outer `ORDER BY`, so SQL does not fix which five rows `LIMIT`
  keeps; in practice PostgreSQL returns the window's order.
- A `LIKE` pattern ending in a lone backslash is an error in PostgreSQL. It
  matches nothing in `LikePattern.Matches`. The search pattern always ends in
  `%`, so it never has one.
- Row order among equal sort keys, and the order of `search_posts` without
  `ORDER BY`, are unspecified in SQL. The model fixes one order, and the
  contracts do not depend on it.
- `Analytics.GetEngagementStats` states only the post count and the ranks of
  the combined response. The full contracts are on `OverallStatsOf` and
  `TopEngagedUsers`, which it returns unchanged.
- Transactions, concurrency and connection handling are not modelled: commit,
  rollback, sessions, CORS, startup and the health checks. Each method is one
  atomic step.
