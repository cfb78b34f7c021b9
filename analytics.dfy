/**
 * The aggregate queries of the analytics endpoints: the per-user engagement
 * tiers (`GROUP BY` with a `HAVING` filter and a `CASE` classification) and
 * the overall engagement statistics with the `RANK()` of the most liked users.
 *
 * Averages are exact reals; the engagement counters of each post are inputs.
 */
module Analytics {
  import opened Records
  import opened Ordering

  // ---------------------------------------------------------------------------
  // Sums over a relation of posts

  function SumLikes(posts: seq<Post>): int {
    if posts == [] then 0 else posts[0].likeCount + SumLikes(posts[1..])
  }

  function SumComments(posts: seq<Post>): int {
    if posts == [] then 0 else posts[0].commentCount + SumComments(posts[1..])
  }

  function SumScores(posts: seq<Post>): real {
    if posts == [] then 0.0 else posts[0].engagementScore + SumScores(posts[1..])
  }

  /** The posts joined to the user with id `userId`, in table order. */
  function PostsBy(posts: seq<Post>, userId: int): (r: seq<Post>)
    ensures forall p :: p in r <==> p in posts && p.userId == userId
    ensures forall p :: multiset(r)[p] == if p.userId == userId then multiset(posts)[p] else 0
  {
    if posts == [] then []
    else
      assert posts == [posts[0]] + posts[1..];
      if posts[0].userId == userId then [posts[0]] + PostsBy(posts[1..], userId)
      else PostsBy(posts[1..], userId)
  }

  // ---------------------------------------------------------------------------
  // group_by_engagement

  datatype Tier = High | Medium | Low

  /** The `CASE` of the query: strictly above 2 is High, strictly above 1 is Medium. */
  function TierOf(avg: real): (t: Tier)
    ensures t == High <==> avg > 2.0
    ensures t == Medium <==> 1.0 < avg <= 2.0
    ensures t == Low <==> avg <= 1.0
  {
    if avg > 2.0 then High else if avg > 1.0 then Medium else Low
  }

  lemma TierBoundaries()
    ensures TierOf(2.0) == Medium
    ensures TierOf(1.0) == Low
    ensures TierOf(2.5) == High && TierOf(1.5) == Medium && TierOf(0.0) == Low
  {
  }

  datatype EngagementGroup = EngagementGroup(
    username: string,
    postCount: nat,
    avgEngagement: real,
    totalLikes: int,
    level: Tier)

  predicate HasPosts(u: User, posts: seq<Post>) {
    |PostsBy(posts, u.id)| >= 1
  }


  /** The row `g` is the group of user `u`: its count, average, sum and tier. */
  predicate IsGroupOf(g: EngagementGroup, u: User, posts: seq<Post>) {
    var mine := PostsBy(posts, u.id);
    && |mine| >= 1
    && g.username == u.username
    && g.postCount == |mine|
    && g.avgEngagement == SumScores(mine) / (|mine| as real)
    && g.totalLikes == SumLikes(mine)
    && g.level == TierOf(g.avgEngagement)
  }

  /** The aggregate row of one user's group. */
  function GroupOf(u: User, posts: seq<Post>): (g: EngagementGroup)
    requires HasPosts(u, posts)
    ensures forall g' :: IsGroupOf(g', u, posts) <==> g' == g
  {
    var mine := PostsBy(posts, u.id);
    var avg := SumScores(mine) / (|mine| as real);
    EngagementGroup(u.username, |mine|, avg, SumLikes(mine), TierOf(avg))
  }

  lemma {:induction false} SumsConcat(a: seq<Post>, b: seq<Post>)
    ensures SumLikes(a + b) == SumLikes(a) + SumLikes(b)
    ensures SumComments(a + b) == SumComments(a) + SumComments(b)
    ensures SumScores(a + b) == SumScores(a) + SumScores(b)
  {
    if a == [] {
      assert a + b == b;
    } else {
      assert (a + b)[1..] == a[1..] + b;
      SumsConcat(a[1..], b);
    }
  }

  /** The sums with the row at `i` taken out. */
  lemma SumsRemove(b: seq<Post>, i: nat)
    requires i < |b|
    ensures SumLikes(b) == b[i].likeCount + SumLikes(b[..i] + b[i + 1..])
    ensures SumComments(b) == b[i].commentCount + SumComments(b[..i] + b[i + 1..])
    ensures SumScores(b) == b[i].engagementScore + SumScores(b[..i] + b[i + 1..])
  {
    var front, back := b[..i], b[i + 1..];
    var tail := [b[i]] + back;
    assert b == front + tail;
    assert tail != [] && tail[0] == b[i] && tail[1..] == back;
    SumsConcat(front, tail);
    SumsConcat(front, back);
    assert SumLikes(tail) == b[i].likeCount + SumLikes(back);
    assert SumComments(tail) == b[i].commentCount + SumComments(back);
    assert SumScores(tail) == b[i].engagementScore + SumScores(back);
  }

  /** `SUM` is a function of the bag of rows: reordering the posts changes no sum. */
  lemma {:induction false} SumsPermutation(a: seq<Post>, b: seq<Post>)
    requires multiset(a) == multiset(b)
    ensures SumLikes(a) == SumLikes(b)
    ensures SumComments(a) == SumComments(b)
    ensures SumScores(a) == SumScores(b)
    decreases |a|
  {
    if a == [] {
      assert |b| == |multiset(b)| == 0;
    } else {
      assert a[0] in multiset(b);
      var i :| 0 <= i < |b| && b[i] == a[0];
      RemoveOne(a, b, i);
      SumsPermutation(a[1..], b[..i] + b[i + 1..]);
      SumsRemove(b, i);
    }
  }

  /**
   * A group's row depends only on the bag of posts, not on their order in
   * the table: two tables holding the same posts give every user the same
   * count, average, sum and tier.
   */
  lemma GroupOfOrderIndependent(u: User, posts: seq<Post>, posts': seq<Post>)
    requires multiset(posts) == multiset(posts')
    requires HasPosts(u, posts)
    ensures HasPosts(u, posts')
    ensures GroupOf(u, posts) == GroupOf(u, posts')
  {
    var mine, mine' := PostsBy(posts, u.id), PostsBy(posts', u.id);
    assert multiset(mine) == multiset(mine') by {
      assert forall p :: multiset(mine)[p] == multiset(mine')[p];
    }
    assert |mine| == |multiset(mine)| == |multiset(mine')| == |mine'|;
    SumsPermutation(mine, mine');
  }

  /** The inner join, grouped per users row: users without posts produce no group. */
  function Groups(users: seq<User>, posts: seq<Post>): (r: seq<EngagementGroup>)
    ensures forall g :: g in r <==> exists u :: u in users && IsGroupOf(g, u, posts)
    ensures |r| <= |users|
  {
    if users == [] then []
    else
      var rest := Groups(users[1..], posts);
      var r := if HasPosts(users[0], posts) then [GroupOf(users[0], posts)] + rest else rest;
      GroupsStep(users, posts, rest, r);
      r
  }

  lemma GroupsStep(users: seq<User>, posts: seq<Post>, rest: seq<EngagementGroup>, r: seq<EngagementGroup>)
    requires users != []
    requires forall g :: g in rest <==> exists u :: u in users[1..] && IsGroupOf(g, u, posts)
    requires r == if HasPosts(users[0], posts) then [GroupOf(users[0], posts)] + rest else rest
    ensures forall g :: g in r <==> exists u :: u in users && IsGroupOf(g, u, posts)
  {
    forall g | g in r ensures exists u :: u in users && IsGroupOf(g, u, posts) {
      if g !in rest {
        assert g == GroupOf(users[0], posts);
        assert IsGroupOf(g, users[0], posts);
      } else {
        var u :| u in users[1..] && IsGroupOf(g, u, posts);
        assert u in users;
      }
    }
    forall g | exists u :: u in users && IsGroupOf(g, u, posts) ensures g in r {
      var u :| u in users && IsGroupOf(g, u, posts);
      if u == users[0] {
        assert HasPosts(users[0], posts);
        assert g == GroupOf(users[0], posts);
      } else {
        assert u in users[1..];
      }
    }
  }

  function AvgKey(g: EngagementGroup): real {
    g.avgEngagement
  }

  /**
   * `group_by_engagement`: one row per user having at least one post, with
   * that user's post count, average score, like total and tier, ordered by
   * average score, largest first.
   */
  function GroupByEngagement(users: seq<User>, posts: seq<Post>): (r: seq<EngagementGroup>)
    ensures SortedDesc(r, AvgKey)
    ensures forall g :: g in r <==> exists u :: u in users && IsGroupOf(g, u, posts)
    ensures multiset(r) == multiset(Groups(users, posts))
    ensures forall g :: g in r ==> g.postCount >= 1
  {
    var groups := Groups(users, posts);
    var r := SortDesc(groups, AvgKey);
    assert forall g :: g in r <==> g in multiset(r);
    assert forall g :: g in groups <==> g in multiset(groups);
    r
  }

  /**
   * One row per users row that has posts: the row count is the number of such
   * users, and each of them has its group among the rows.
   */
  lemma GroupByEngagementRows(users: seq<User>, posts: seq<Post>)
    ensures |GroupByEngagement(users, posts)| == CountPosters(users, posts)
    ensures forall u :: u in users && HasPosts(u, posts) ==> GroupOf(u, posts) in GroupByEngagement(users, posts)
  {
    PostersCount(users, posts);
    var r := GroupByEngagement(users, posts);
    assert |multiset(r)| == |multiset(Groups(users, posts))|;
  }

  /** The number of users that have at least one post. */
  function CountPosters(users: seq<User>, posts: seq<Post>): nat {
    if users == [] then 0
    else (if HasPosts(users[0], posts) then 1 else 0) + CountPosters(users[1..], posts)
  }

  lemma {:induction false} PostersCount(users: seq<User>, posts: seq<Post>)
    ensures |Groups(users, posts)| == CountPosters(users, posts)
  {
    if users != [] {
      PostersCount(users[1..], posts);
    }
  }

  // ---------------------------------------------------------------------------
  // get_engagement_stats: overall_stats

  /**
   * `COUNT(*)`, `SUM`, `AVG` and `MAX` over all posts. `SUM`, `AVG` and `MAX`
   * of no rows are `NULL`, which is `None` here.
   */
  datatype OverallStats = OverallStats(
    totalPosts: nat,
    totalLikes: Option<int>,
    totalComments: Option<int>,
    avgEngagement: Option<real>,
    maxEngagement: Option<real>)

  /** The largest engagement score of a non-empty relation of posts. */
  function MaxScore(posts: seq<Post>): (m: real)
    requires posts != []
    ensures forall p :: p in posts ==> p.engagementScore <= m
    ensures exists p :: p in posts && p.engagementScore == m
  {
    if |posts| == 1 then posts[0].engagementScore
    else
      var rest := MaxScore(posts[1..]);
      assert forall p :: p in posts <==> p == posts[0] || p in posts[1..];
      if posts[0].engagementScore >= rest then posts[0].engagementScore else rest
  }

  function OverallStatsOf(posts: seq<Post>): (s: OverallStats)
    ensures s.totalPosts == |posts|
    ensures posts == [] <==> s.totalLikes == None
    ensures posts == [] ==> s.totalComments == None && s.avgEngagement == None && s.maxEngagement == None
    ensures posts != [] ==>
      && s.totalLikes == Some(SumLikes(posts))
      && s.totalComments == Some(SumComments(posts))
      && s.avgEngagement == Some(SumScores(posts) / (|posts| as real))
    ensures s.maxEngagement.Some? ==>
      && (forall p :: p in posts ==> p.engagementScore <= s.maxEngagement.value)
      && (exists p :: p in posts && p.engagementScore == s.maxEngagement.value)
    ensures posts != [] ==> s.maxEngagement.Some?
  {
    if posts == [] then OverallStats(0, None, None, None, None)
    else
      OverallStats(
        |posts|,
        Some(SumLikes(posts)),
        Some(SumComments(posts)),
        Some(SumScores(posts) / (|posts| as real)),
        Some(MaxScore(posts)))
  }

  // ---------------------------------------------------------------------------
  // get_engagement_stats: top_engaged_users

  /** The two columns of `user_engagement_summary` that the ranking reads. */
  datatype SummaryRow = SummaryRow(username: string, totalLikesReceived: int)

  datatype RankedUser = RankedUser(username: string, totalLikesReceived: int, rank: nat)

  const TopEngagedLimit: nat := 5

  function TotalKey(row: SummaryRow): real {
    row.totalLikesReceived as real
  }

  /** The number of rows whose like total is strictly greater than `v`. */
  function CountAbove(rows: seq<SummaryRow>, v: int): nat {
    if rows == [] then 0
    else (if rows[0].totalLikesReceived > v then 1 else 0) + CountAbove(rows[1..], v)
  }

  lemma {:induction false} CountAboveConcat(a: seq<SummaryRow>, b: seq<SummaryRow>, v: int)
    ensures CountAbove(a + b, v) == CountAbove(a, v) + CountAbove(b, v)
  {
    if a != [] {
      var ab := a + b;
      assert ab != [] && ab[0] == a[0];
      assert ab[1..] == a[1..] + b;
      CountAboveConcat(a[1..], b, v);
      assert CountAbove(ab, v) == (if a[0].totalLikesReceived > v then 1 else 0) + CountAbove(a[1..] + b, v);
    } else {
      assert a + b == b;
    }
  }

  /** Counting does not depend on the order of the rows. */
  lemma {:induction false} CountAbovePermutation(a: seq<SummaryRow>, b: seq<SummaryRow>, v: int)
    requires multiset(a) == multiset(b)
    ensures CountAbove(a, v) == CountAbove(b, v)
    decreases |a|
  {
    if a != [] {
      assert a[0] in multiset(b);
      var i :| 0 <= i < |b| && b[i] == a[0];
      var b' := b[..i] + b[i + 1..];
      RemoveOne(a, b, i);
      CountAbovePermutation(a[1..], b', v);
      CountAboveRemove(b, i, v);
    }
  }

  /** Counting with one row taken out. */
  lemma CountAboveRemove(b: seq<SummaryRow>, i: nat, v: int)
    requires i < |b|
    ensures CountAbove(b, v) == CountAbove(b[..i] + b[i + 1..], v) + (if b[i].totalLikesReceived > v then 1 else 0)
  {
    assert b == b[..i] + [b[i]] + b[i + 1..];
    CountAboveConcat(b[..i] + [b[i]], b[i + 1..], v);
    CountAboveConcat(b[..i], [b[i]], v);
    CountAboveConcat(b[..i], b[i + 1..], v);
    assert CountAbove([b[i]], v) == if b[i].totalLikesReceived > v then 1 else 0 by {
      assert [b[i]][1..] == [];
    }
  }

  /** In a relation every row of which is above `v`, all rows are counted. */
  lemma {:induction false} CountAboveAll(rows: seq<SummaryRow>, v: int)
    requires forall i :: 0 <= i < |rows| ==> rows[i].totalLikesReceived > v
    ensures CountAbove(rows, v) == |rows|
  {
    if rows != [] {
      CountAboveAll(rows[1..], v);
    }
  }

  lemma {:induction false} CountAboveNone(rows: seq<SummaryRow>, v: int)
    requires forall i :: 0 <= i < |rows| ==> rows[i].totalLikesReceived <= v
    ensures CountAbove(rows, v) == 0
  {
    if rows != [] {
      CountAboveNone(rows[1..], v);
    }
  }

  /**
   * `RANK()` at position `k` of the window order: a row tied with its
   * predecessor shares its rank, and otherwise the rank is the row's position
   * plus one. This is 1 + the number of strictly larger totals.
   */
  function PeerRank(s: seq<SummaryRow>, k: nat): (rank: nat)
    requires k < |s|
    requires SortedDesc(s, TotalKey)
    ensures rank == 1 + CountAbove(s, s[k].totalLikesReceived)
  {
    if k == 0 || s[k - 1].totalLikesReceived != s[k].totalLikesReceived then
      var v := s[k].totalLikesReceived;
      assert s == s[..k] + s[k..];
      assert forall i :: 0 <= i < k ==> TotalKey(s[i]) >= TotalKey(s[k - 1]);
      CountAboveAll(s[..k], v);
      assert forall i :: k <= i < |s| ==> TotalKey(s[k]) >= TotalKey(s[i]);
      CountAboveNone(s[k..], v);
      CountAboveConcat(s[..k], s[k..], v);
      k + 1
    else
      PeerRank(s, k - 1)
  }

  function Unranked(r: seq<RankedUser>): (rows: seq<SummaryRow>)
    ensures |rows| == |r|
    ensures forall i :: 0 <= i < |r| ==> rows[i] == SummaryRow(r[i].username, r[i].totalLikesReceived)
  {
    seq(|r|, i requires 0 <= i < |r| => SummaryRow(r[i].username, r[i].totalLikesReceived))
  }

  /** The first `n` rows of the window order, each with its `RANK()`. */
  function RankWindow(sorted: seq<SummaryRow>, n: nat): (r: seq<RankedUser>)
    requires SortedDesc(sorted, TotalKey)
    requires n <= |sorted|
    ensures |r| == n
    ensures Unranked(r) == sorted[..n]
    ensures forall i :: 0 <= i < n ==> r[i].rank == 1 + CountAbove(sorted, sorted[i].totalLikesReceived)
    ensures forall k :: 0 <= k < n && (k == 0 || r[k - 1].totalLikesReceived != r[k].totalLikesReceived) ==>
      r[k].rank == k + 1
    ensures forall k :: 0 < k < n && r[k - 1].totalLikesReceived == r[k].totalLikesReceived ==>
      r[k].rank == r[k - 1].rank
  {
    seq(n, i requires 0 <= i < n =>
      RankedUser(sorted[i].username, sorted[i].totalLikesReceived, PeerRank(sorted, i)))
  }

  /**
   * `RANK() OVER (ORDER BY total_likes_received DESC) ... LIMIT 5`: the five
   * most liked summary rows in window order, each ranked against the whole
   * summary before the limit, so that equal totals share a rank and a rank
   * after a tie skips the tied positions.
   */
  function TopEngagedUsers(summary: seq<SummaryRow>): (r: seq<RankedUser>)
    ensures |r| == Min(|summary|, TopEngagedLimit)
    ensures forall i :: 0 <= i < |r| ==> r[i].rank == 1 + CountAbove(summary, r[i].totalLikesReceived)
    ensures forall k :: 0 <= k < |r| && (k == 0 || r[k - 1].totalLikesReceived != r[k].totalLikesReceived) ==>
      r[k].rank == k + 1
    ensures forall k :: 0 < k < |r| && r[k - 1].totalLikesReceived == r[k].totalLikesReceived ==>
      r[k].rank == r[k - 1].rank
  {
    var sorted := SortDesc(summary, TotalKey);
    var r := RankWindow(sorted, Min(|sorted|, TopEngagedLimit));
    RanksAgainstSummary(summary, sorted, r);
    r
  }

  /**
   * The rows `TopEngagedUsers` keeps are summary rows in descending order of
   * their totals, all of them when there are at most five, and none of the
   * rows it drops has a larger total than a row it keeps.
   */
  lemma TopEngagedIsTop(summary: seq<SummaryRow>)
    ensures var r := TopEngagedUsers(summary);
      && (forall i, j :: 0 <= i < j < |r| ==> r[i].totalLikesReceived >= r[j].totalLikesReceived)
      && multiset(Unranked(r)) <= multiset(summary)
      && (|summary| <= TopEngagedLimit ==> multiset(Unranked(r)) == multiset(summary))
      && (forall x, y :: x in Unranked(r) && y in multiset(summary) - multiset(Unranked(r)) ==>
            x.totalLikesReceived >= y.totalLikesReceived)
  {
    var sorted := SortDesc(summary, TotalKey);
    WindowIsTop(summary, sorted, TopEngagedUsers(summary));
  }

  lemma RanksAgainstSummary(summary: seq<SummaryRow>, sorted: seq<SummaryRow>, r: seq<RankedUser>)
    requires multiset(sorted) == multiset(summary)
    requires |r| <= |sorted| && Unranked(r) == sorted[..|r|]
    requires forall i :: 0 <= i < |r| ==> r[i].rank == 1 + CountAbove(sorted, sorted[i].totalLikesReceived)
    ensures forall i :: 0 <= i < |r| ==> r[i].rank == 1 + CountAbove(summary, r[i].totalLikesReceived)
  {
    forall i | 0 <= i < |r|
      ensures r[i].rank == 1 + CountAbove(summary, r[i].totalLikesReceived)
    {
      assert Unranked(r)[i] == sorted[i];
      CountAbovePermutation(sorted, summary, sorted[i].totalLikesReceived);
    }
  }

  lemma WindowIsTop(summary: seq<SummaryRow>, sorted: seq<SummaryRow>, r: seq<RankedUser>)
    requires multiset(sorted) == multiset(summary) && |sorted| == |summary|
    requires SortedDesc(sorted, TotalKey)
    requires |r| <= |sorted| && Unranked(r) == sorted[..|r|]
    ensures forall i, j :: 0 <= i < j < |r| ==> r[i].totalLikesReceived >= r[j].totalLikesReceived
    ensures multiset(Unranked(r)) <= multiset(summary)
    ensures |r| == |summary| ==> multiset(Unranked(r)) == multiset(summary)
    ensures forall x, y :: x in Unranked(r) && y in multiset(summary) - multiset(Unranked(r)) ==>
      x.totalLikesReceived >= y.totalLikesReceived
  {
    var n := |r|;
    forall i, j | 0 <= i < j < n ensures r[i].totalLikesReceived >= r[j].totalLikesReceived {
      assert Unranked(r)[i] == sorted[i] && Unranked(r)[j] == sorted[j];
      assert TotalKey(sorted[i]) >= TotalKey(sorted[j]);
    }
    PrefixIsTop(sorted, n, TotalKey);
    if n == |summary| {
      assert sorted[..n] == sorted;
    }
    forall x, y | x in Unranked(r) && y in multiset(summary) - multiset(Unranked(r))
      ensures x.totalLikesReceived >= y.totalLikesReceived
    {
      assert TotalKey(x) >= TotalKey(y);
    }
  }

  datatype EngagementStats = EngagementStats(overallStats: OverallStats, topEngagedUsers: seq<RankedUser>)

  /** `get_engagement_stats`: the overall aggregates of posts and the ranked top of the summary view. */
  function GetEngagementStats(posts: seq<Post>, summary: seq<SummaryRow>): (r: EngagementStats)
    ensures r.overallStats.totalPosts == |posts|
    ensures |r.topEngagedUsers| <= TopEngagedLimit
    ensures forall i :: 0 <= i < |r.topEngagedUsers| ==>
      r.topEngagedUsers[i].rank == 1 + CountAbove(summary, r.topEngagedUsers[i].totalLikesReceived)
  {
    EngagementStats(OverallStatsOf(posts), TopEngagedUsers(summary))
  }
}
