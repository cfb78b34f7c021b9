/**
 * `search_posts`: the posts joined to their owners whose content is `LIKE`
 * the pattern `%query%`, each row carrying the post and the owner's username.
 * The rows come in table order (the query has no `ORDER BY`).
 */
module Search {
  import opened Records
  import opened LikePattern

  datatype SearchRow = SearchRow(post: Post, username: string)

  /** The bound parameter of the query: the user's text between two `%` wildcards. */
  function SearchPattern(query: string): string {
    "%" + query + "%"
  }

  /** The rows one matching post contributes: one per user it joins with. */
  function RowsFor(p: Post, owners: seq<User>): (r: seq<SearchRow>)
    ensures |r| == |owners|
    ensures forall row :: row in r <==> exists u :: u in owners && row == SearchRow(p, u.username)
  {
    if owners == [] then []
    else
      assert forall u :: u in owners <==> u == owners[0] || u in owners[1..];
      [SearchRow(p, owners[0].username)] + RowsFor(p, owners[1..])
  }

  /**
   * A row is returned exactly when it pairs a post whose content matches the
   * pattern with a user whose id is the post's owner.
   */
  function SearchPosts(users: seq<User>, posts: seq<Post>, query: string): (r: seq<SearchRow>)
    ensures forall row :: row in r <==>
      exists p, u :: p in posts && u in users && u.id == p.userId &&
        Matches(SearchPattern(query), p.content) && row == SearchRow(p, u.username)
  {
    if posts == [] then []
    else
      var p := posts[0];
      var rest := SearchPosts(users, posts[1..], query);
      assert forall p' :: p' in posts <==> p' == p || p' in posts[1..];
      if Matches(SearchPattern(query), p.content) then RowsFor(p, OwnersOf(users, p.userId)) + rest
      else rest
  }

  /** The number of posts whose content matches the pattern and whose user exists. */
  function CountFound(users: seq<User>, posts: seq<Post>, query: string): nat {
    if posts == [] then 0
    else
      (if Matches(SearchPattern(query), posts[0].content) && HasUser(users, posts[0].userId) then 1 else 0)
      + CountFound(users, posts[1..], query)
  }

  /**
   * Under the primary key, the search returns one row per matching post whose
   * user exists: no post is repeated or lost.
   */
  lemma {:induction false} SearchCount(users: seq<User>, posts: seq<Post>, query: string)
    requires UniqueUserIds(users)
    ensures |SearchPosts(users, posts, query)| == CountFound(users, posts, query)
  {
    if posts != [] {
      var id := posts[0].userId;
      if HasUser(users, id) {
        OwnersOfUnique(users, id);
      } else {
        OwnersOfNone(users, id);
      }
      SearchCount(users, posts[1..], query);
    }
  }

  /**
   * For a query without `%`, `_` or backslash, the search returns exactly the
   * posts with an existing owner whose content contains the query as a
   * contiguous, case-sensitive substring.
   */
  lemma LiteralSearch(users: seq<User>, posts: seq<Post>, query: string)
    requires IsLiteral(query)
    ensures forall row :: row in SearchPosts(users, posts, query) <==>
      exists p, u :: p in posts && u in users && u.id == p.userId &&
        Contains(p.content, query) && row == SearchRow(p, u.username)
  {
    forall p | p in posts ensures Matches(SearchPattern(query), p.content) <==> Contains(p.content, query) {
      SearchPatternIsSubstring(query, p.content);
    }
  }

  /** The empty query matches every post that has an owner. */
  lemma EmptySearchReturnsAll(users: seq<User>, posts: seq<Post>)
    ensures forall row :: row in SearchPosts(users, posts, "") <==>
      exists p, u :: p in posts && u in users && u.id == p.userId && row == SearchRow(p, u.username)
  {
    forall p | p in posts ensures Matches(SearchPattern(""), p.content) {
      EmptyQueryMatchesAll(p.content);
    }
  }

  /** Matching is case-sensitive: `hello` finds `say hello` but neither `Hello world` nor `say HELLO`. */
  lemma SearchIsCaseSensitive()
    ensures Contains("say hello", "hello")
    ensures !Contains("Hello world", "hello")
    ensures !Contains("say HELLO", "hello")
  {
    assert OccursAt("say hello", "hello", 4);
    NoLowerH("Hello world", "hello");
    NoLowerH("say HELLO", "hello");
  }

  /** A text without the letter `h` contains no query that starts with it. */
  lemma NoLowerH(t: string, q: string)
    requires |q| > 0 && q[0] == 'h'
    requires forall k :: 0 <= k < |t| ==> t[k] != 'h'
    ensures !Contains(t, q)
  {
    forall i | 0 <= i <= |t| - |q| ensures !OccursAt(t, q, i) {
      assert t[i..i + |q|][0] == t[i];
    }
  }
}
