/**
 * `get_union_activities`: the `UNION ALL` of three inner joins of `users`
 * with posts, likes and comments, each row tagged with its kind, ordered by
 * date with the newest first and cut to 20 rows.
 */
module Timeline {
  import opened Records
  import opened Ordering

  datatype ActivityType = PostActivity | LikeActivity | CommentActivity

  /** The `activity_type` column of each branch of the union. */
  function TagOf(t: ActivityType): string {
    match t
    case PostActivity => "POST"
    case LikeActivity => "LIKE"
    case CommentActivity => "COMMENT"
  }

  datatype Activity = Activity(activityType: string, username: string, content: string, activityDate: int)

  /** The constant `content` of a like row: likes do not carry the liked post's text. */
  const LikedContent: string := "Liked a post"

  const ActivityLimit: nat := 20

  /** One branch's row, before the join supplies the username. */
  datatype Event = Event(kind: ActivityType, userId: int, content: string, date: int)

  function PostEvent(p: Post): Event {
    Event(PostActivity, p.userId, p.content, p.createdAt)
  }

  function LikeEvent(l: Like): Event {
    Event(LikeActivity, l.userId, LikedContent, l.createdAt)
  }

  function CommentEvent(c: Comment): Event {
    Event(CommentActivity, c.userId, c.content, c.createdAt)
  }

  function PostEvents(posts: seq<Post>): (r: seq<Event>)
    ensures |r| == |posts| && forall i :: 0 <= i < |posts| ==> r[i] == PostEvent(posts[i])
  {
    seq(|posts|, i requires 0 <= i < |posts| => PostEvent(posts[i]))
  }

  function LikeEvents(likes: seq<Like>): (r: seq<Event>)
    ensures |r| == |likes| && forall i :: 0 <= i < |likes| ==> r[i] == LikeEvent(likes[i])
  {
    seq(|likes|, i requires 0 <= i < |likes| => LikeEvent(likes[i]))
  }

  function CommentEvents(comments: seq<Comment>): (r: seq<Event>)
    ensures |r| == |comments| && forall i :: 0 <= i < |comments| ==> r[i] == CommentEvent(comments[i])
  {
    seq(|comments|, i requires 0 <= i < |comments| => CommentEvent(comments[i]))
  }

  function ActivityOf(e: Event, u: User): Activity {
    Activity(TagOf(e.kind), u.username, e.content, e.date)
  }

  /** The rows one event contributes: one per user it joins with. */
  function RowsFor(e: Event, owners: seq<User>): (r: seq<Activity>)
    ensures |r| == |owners|
    ensures forall a :: a in r <==> exists u :: u in owners && a == ActivityOf(e, u)
  {
    if owners == [] then []
    else
      assert forall u :: u in owners <==> u == owners[0] || u in owners[1..];
      [ActivityOf(e, owners[0])] + RowsFor(e, owners[1..])
  }

  /** `FROM users u JOIN <events> ON u.id = <events>.user_id`. */
  function Join(users: seq<User>, events: seq<Event>): (r: seq<Activity>)
    ensures forall a :: a in r <==> exists e, u :: e in events && u in users && u.id == e.userId && a == ActivityOf(e, u)
  {
    if events == [] then []
    else
      var e := events[0];
      assert forall e' :: e' in events <==> e' == e || e' in events[1..];
      RowsFor(e, OwnersOf(users, e.userId)) + Join(users, events[1..])
  }

  /** The three branches of the union, before `ORDER BY` and `LIMIT`. */
  function AllActivities(users: seq<User>, posts: seq<Post>, likes: seq<Like>, comments: seq<Comment>): seq<Activity> {
    Join(users, PostEvents(posts)) + Join(users, LikeEvents(likes)) + Join(users, CommentEvents(comments))
  }

  function DateKey(a: Activity): real {
    a.activityDate as real
  }

  /**
   * `get_union_activities`: at most 20 rows, newest first, each one a row of
   * the union; when the union has at most 20 rows all of them are returned,
   * and otherwise no row left out is newer than a row returned.
   */
  function UnionActivities(users: seq<User>, posts: seq<Post>, likes: seq<Like>, comments: seq<Comment>): (r: seq<Activity>)
    ensures |r| == Min(|AllActivities(users, posts, likes, comments)|, ActivityLimit)
    ensures SortedDesc(r, DateKey)
    ensures multiset(r) <= multiset(AllActivities(users, posts, likes, comments))
    ensures |AllActivities(users, posts, likes, comments)| <= ActivityLimit ==>
      multiset(r) == multiset(AllActivities(users, posts, likes, comments))
    ensures forall x, y :: x in r && y in multiset(AllActivities(users, posts, likes, comments)) - multiset(r) ==>
      x.activityDate >= y.activityDate
  {
    var all := AllActivities(users, posts, likes, comments);
    var r := TopN(all, ActivityLimit, DateKey);
    forall x, y | x in r && y in multiset(all) - multiset(r) ensures x.activityDate >= y.activityDate {
      assert DateKey(x) >= DateKey(y);
    }
    r
  }

  /**
   * Every row of the union is exactly one post, like or comment joined with
   * its user: POST and COMMENT rows carry their own content, LIKE rows the
   * constant text.
   */
  lemma UnionRowOrigin(users: seq<User>, posts: seq<Post>, likes: seq<Like>, comments: seq<Comment>, a: Activity)
    requires a in AllActivities(users, posts, likes, comments)
    ensures
      || (exists p, u :: p in posts && u in users && u.id == p.userId &&
            a == Activity("POST", u.username, p.content, p.createdAt))
      || (exists l, u :: l in likes && u in users && u.id == l.userId &&
            a == Activity("LIKE", u.username, LikedContent, l.createdAt))
      || (exists c, u :: c in comments && u in users && u.id == c.userId &&
            a == Activity("COMMENT", u.username, c.content, c.createdAt))
  {
    if a in Join(users, PostEvents(posts)) {
      PostRowOrigin(users, posts, a);
    } else if a in Join(users, LikeEvents(likes)) {
      LikeRowOrigin(users, likes, a);
    } else {
      CommentRowOrigin(users, comments, a);
    }
  }

  lemma PostRowOrigin(users: seq<User>, posts: seq<Post>, a: Activity)
    requires a in Join(users, PostEvents(posts))
    ensures exists p, u :: p in posts && u in users && u.id == p.userId &&
              a == Activity("POST", u.username, p.content, p.createdAt)
  {
    var pe := PostEvents(posts);
    var e, u :| e in pe && u in users && u.id == e.userId && a == ActivityOf(e, u);
    var i :| 0 <= i < |pe| && pe[i] == e;
    assert e == PostEvent(posts[i]);
    assert posts[i] in posts;
  }

  lemma LikeRowOrigin(users: seq<User>, likes: seq<Like>, a: Activity)
    requires a in Join(users, LikeEvents(likes))
    ensures exists l, u :: l in likes && u in users && u.id == l.userId &&
              a == Activity("LIKE", u.username, LikedContent, l.createdAt)
  {
    var le := LikeEvents(likes);
    var e, u :| e in le && u in users && u.id == e.userId && a == ActivityOf(e, u);
    var i :| 0 <= i < |le| && le[i] == e;
    assert e == LikeEvent(likes[i]);
    assert likes[i] in likes;
  }

  lemma CommentRowOrigin(users: seq<User>, comments: seq<Comment>, a: Activity)
    requires a in Join(users, CommentEvents(comments))
    ensures exists c, u :: c in comments && u in users && u.id == c.userId &&
              a == Activity("COMMENT", u.username, c.content, c.createdAt)
  {
    var ce := CommentEvents(comments);
    var e, u :| e in ce && u in users && u.id == e.userId && a == ActivityOf(e, u);
    var i :| 0 <= i < |ce| && ce[i] == e;
    assert e == CommentEvent(comments[i]);
    assert comments[i] in comments;
  }

  /** Every post, like and comment whose user exists appears in the union. */
  lemma UnionRowComplete(users: seq<User>, posts: seq<Post>, likes: seq<Like>, comments: seq<Comment>, u: User)
    requires u in users
    ensures forall p :: p in posts && p.userId == u.id ==>
      Activity("POST", u.username, p.content, p.createdAt) in AllActivities(users, posts, likes, comments)
    ensures forall l :: l in likes && l.userId == u.id ==>
      Activity("LIKE", u.username, LikedContent, l.createdAt) in AllActivities(users, posts, likes, comments)
    ensures forall c :: c in comments && c.userId == u.id ==>
      Activity("COMMENT", u.username, c.content, c.createdAt) in AllActivities(users, posts, likes, comments)
  {
    PostRowsComplete(users, posts, u);
    LikeRowsComplete(users, likes, u);
    CommentRowsComplete(users, comments, u);
  }

  lemma PostRowsComplete(users: seq<User>, posts: seq<Post>, u: User)
    requires u in users
    ensures forall p :: p in posts && p.userId == u.id ==>
      Activity("POST", u.username, p.content, p.createdAt) in Join(users, PostEvents(posts))
  {
    var pe := PostEvents(posts);
    forall p | p in posts && p.userId == u.id
      ensures Activity("POST", u.username, p.content, p.createdAt) in Join(users, pe)
    {
      var i :| 0 <= i < |posts| && posts[i] == p;
      assert pe[i] == PostEvent(p);
      assert ActivityOf(PostEvent(p), u) in Join(users, pe);
    }
  }

  lemma LikeRowsComplete(users: seq<User>, likes: seq<Like>, u: User)
    requires u in users
    ensures forall l :: l in likes && l.userId == u.id ==>
      Activity("LIKE", u.username, LikedContent, l.createdAt) in Join(users, LikeEvents(likes))
  {
    var le := LikeEvents(likes);
    forall l | l in likes && l.userId == u.id
      ensures Activity("LIKE", u.username, LikedContent, l.createdAt) in Join(users, le)
    {
      var i :| 0 <= i < |likes| && likes[i] == l;
      assert le[i] == LikeEvent(l);
      assert ActivityOf(LikeEvent(l), u) in Join(users, le);
    }
  }

  lemma CommentRowsComplete(users: seq<User>, comments: seq<Comment>, u: User)
    requires u in users
    ensures forall c :: c in comments && c.userId == u.id ==>
      Activity("COMMENT", u.username, c.content, c.createdAt) in Join(users, CommentEvents(comments))
  {
    var ce := CommentEvents(comments);
    forall c | c in comments && c.userId == u.id
      ensures Activity("COMMENT", u.username, c.content, c.createdAt) in Join(users, ce)
    {
      var i :| 0 <= i < |comments| && comments[i] == c;
      assert ce[i] == CommentEvent(c);
      assert ActivityOf(CommentEvent(c), u) in Join(users, ce);
    }
  }

  function EventOwner(e: Event): int {
    e.userId
  }

  function PostOwner(p: Post): int {
    p.userId
  }

  function LikeOwner(l: Like): int {
    l.userId
  }

  function CommentOwner(c: Comment): int {
    c.userId
  }

  /**
   * Under the primary key, the join has one row per event whose user exists:
   * events of the same user are all kept, and events without a user drop out.
   */
  lemma {:induction false} JoinSize(users: seq<User>, events: seq<Event>)
    requires UniqueUserIds(users)
    ensures |Join(users, events)| == CountOwned(users, events, EventOwner)
  {
    if events != [] {
      var id := events[0].userId;
      if HasUser(users, id) {
        OwnersOfUnique(users, id);
      } else {
        OwnersOfNone(users, id);
      }
      JoinSize(users, events[1..]);
    }
  }

  /** Events made row by row from records count the same owners as the records. */
  lemma {:induction false} EventsCount<T>(users: seq<User>, rows: seq<T>, owner: T -> int, events: seq<Event>)
    requires |events| == |rows|
    requires forall i :: 0 <= i < |rows| ==> events[i].userId == owner(rows[i])
    ensures CountOwned(users, events, EventOwner) == CountOwned(users, rows, owner)
  {
    if rows != [] {
      assert events[0].userId == owner(rows[0]);
      EventsCount(users, rows[1..], owner, events[1..]);
    }
  }

  /**
   * Under the primary key, the union has one row per post, like and comment
   * whose user exists, and when there are at most 20 of them all come back.
   */
  lemma UnionCount(users: seq<User>, posts: seq<Post>, likes: seq<Like>, comments: seq<Comment>)
    requires UniqueUserIds(users)
    ensures |AllActivities(users, posts, likes, comments)| ==
      CountOwned(users, posts, PostOwner) + CountOwned(users, likes, LikeOwner) + CountOwned(users, comments, CommentOwner)
    ensures (CountOwned(users, posts, PostOwner) + CountOwned(users, likes, LikeOwner) +
               CountOwned(users, comments, CommentOwner) <= ActivityLimit) ==>
      |UnionActivities(users, posts, likes, comments)| == |AllActivities(users, posts, likes, comments)|
  {
    var pe, le, ce := PostEvents(posts), LikeEvents(likes), CommentEvents(comments);
    JoinSize(users, pe);
    JoinSize(users, le);
    JoinSize(users, ce);
    EventsCount(users, posts, PostOwner, pe);
    EventsCount(users, likes, LikeOwner, le);
    EventsCount(users, comments, CommentOwner, ce);
  }

  /** When every record's user exists, each of them is counted. */
  lemma {:induction false} CountOwnedAll<T>(users: seq<User>, rows: seq<T>, owner: T -> int)
    requires forall i :: 0 <= i < |rows| ==> HasUser(users, owner(rows[i]))
    ensures CountOwned(users, rows, owner) == |rows|
  {
    if rows != [] {
      assert HasUser(users, owner(rows[0]));
      CountOwnedAll(users, rows[1..], owner);
    }
  }
}
