/**
 * The write endpoints and `get_user`: each runs one statement against the
 * tables, commits or rolls back, and answers with a body or an HTTP error.
 *
 * What the database itself decides (unique usernames and e-mails, foreign
 * keys, one like per user and post, whatever else its constraints and
 * triggers check) is not visible in the backend, so each write takes the
 * database's verdict on its statement as a parameter. The clock that fills
 * `created_at` is a parameter too. Ids come from one counter per table.
 */
module Store {
  import opened Records

  datatype UserCreate = UserCreate(username: string, email: string, fullName: string)
  datatype PostCreate = PostCreate(userId: int, content: string)
  datatype LikeCreate = LikeCreate(postId: int, userId: int)
  datatype CommentCreate = CommentCreate(postId: int, userId: int, content: string)

  /** Whether the database executes a statement, or the error text it raises instead. */
  datatype Verdict = Accepted | Rejected(message: string)

  datatype Body =
    | UserBody(user: User)
    | PostBody(post: Post)
    | LikeBody(message: string, like: Like)
    | CommentBody(message: string, comment: Comment)
    | MessageBody(message: string)

  datatype Response = Ok(body: Body) | HttpError(status: int, detail: string) {
    function Status(): int {
      if Ok? then 200 else status
    }
  }

  const UserNotFound: string := "User not found"
  const LikeNotFound: string := "Like not found"
  const LikeFailed: string := "Already liked or invalid data"

  /**
   * The text of a caught `HTTPException(404, detail)`: its string form is the
   * status code, a colon and the detail, and that text becomes the detail of
   * the 400 the broad exception handler raises.
   */
  function CaughtNotFound(detail: string): string {
    "404: " + detail
  }

  datatype Tables = Tables(
    users: map<int, User>,
    posts: map<int, Post>,
    likes: map<int, Like>,
    comments: map<int, Comment>)

  /** The next value of each table's id sequence. */
  datatype NextIds = NextIds(user: int, post: int, like: int, comment: int)

  /** The ids of the likes that one user has on one post. */
  function LikesOf(likes: map<int, Like>, postId: int, userId: int): (ks: set<int>)
    ensures forall k :: k in ks <==> k in likes && likes[k].postId == postId && likes[k].userId == userId
  {
    set k | k in likes && likes[k].postId == postId && likes[k].userId == userId
  }

  /**
   * Deleting the likes of one user on one post leaves none of them and keeps
   * every other like as it was.
   */
  lemma LikeRemovalExact(likes: map<int, Like>, postId: int, userId: int)
    ensures var rest := likes - LikesOf(likes, postId, userId);
      && LikesOf(rest, postId, userId) == {}
      && (forall k :: k in rest ==> k in likes)
      && (forall k :: k in likes && (likes[k].postId != postId || likes[k].userId != userId) ==>
            k in rest && rest[k] == likes[k])
  {
  }

  class Database {
    var users: map<int, User>
    var posts: map<int, Post>
    var likes: map<int, Like>
    var comments: map<int, Comment>
    var next: NextIds

    /** Every row is stored under its own id, and every id is below its sequence's next value. */
    ghost predicate Valid()
      reads this
    {
      && (forall k :: k in users ==> users[k].id == k && k < next.user)
      && (forall k :: k in posts ==> posts[k].id == k && k < next.post)
      && (forall k :: k in likes ==> likes[k].id == k && k < next.like)
      && (forall k :: k in comments ==> comments[k].id == k && k < next.comment)
    }

    function State(): Tables
      reads this
    {
      Tables(users, posts, likes, comments)
    }

    constructor ()
      ensures Valid()
      ensures State() == Tables(map[], map[], map[], map[])
    {
      users, posts, likes, comments := map[], map[], map[], map[];
      next := NextIds(1, 1, 1, 1);
    }

    /** `create_user`: inserts the user under a fresh id, or answers 400 with the database's error. */
    method CreateUser(input: UserCreate, now: int, verdict: Verdict) returns (r: Response)
      requires Valid()
      modifies this
      ensures Valid()
      ensures verdict.Accepted? ==>
        var u := User(old(next.user), input.username, input.email, input.fullName, now);
        && old(u.id !in users)
        && r == Ok(UserBody(u))
        && State() == old(State()).(users := old(users)[u.id := u])
        && next == old(next).(user := old(next.user) + 1)
      ensures verdict.Rejected? ==> r == HttpError(400, verdict.message) && unchanged(this)
    {
      if verdict.Rejected? {
        return HttpError(400, verdict.message);
      }
      var u := User(next.user, input.username, input.email, input.fullName, now);
      users := users[u.id := u];
      next := next.(user := next.user + 1);
      r := Ok(UserBody(u));
    }

    /** `get_user`: the user with that id, or 404 when there is none. */
    function GetUser(userId: int): (r: Response)
      requires Valid()
      reads this
      ensures r.Ok? <==> userId in users
      ensures r.Ok? ==> r.body.UserBody? && r.body.user.id == userId && r.body.user == users[userId]
      ensures r.HttpError? ==> r == HttpError(404, UserNotFound)
    {
      if userId in users then Ok(UserBody(users[userId])) else HttpError(404, UserNotFound)
    }

    /**
     * `update_user`: replaces the three user-supplied columns. An unknown id
     * updates nothing, and the 404 raised for it is caught by the handler
     * and answered as a 400.
     */
    method UpdateUser(userId: int, input: UserCreate, verdict: Verdict) returns (r: Response)
      requires Valid()
      modifies this
      ensures Valid()
      ensures r.HttpError? ==> r.status == 400 && unchanged(this)
      ensures verdict.Rejected? ==> r == HttpError(400, verdict.message)
      ensures verdict.Accepted? && old(userId !in users) ==> r == HttpError(400, CaughtNotFound(UserNotFound))
      ensures verdict.Accepted? && old(userId in users) ==>
        var u := old(users[userId]).(username := input.username, email := input.email, fullName := input.fullName);
        && r == Ok(UserBody(u))
        && State() == old(State()).(users := old(users)[userId := u])
        && next == old(next)
    {
      if verdict.Rejected? {
        return HttpError(400, verdict.message);
      }
      if userId !in users {
        return HttpError(400, CaughtNotFound(UserNotFound));
      }
      var u := users[userId].(username := input.username, email := input.email, fullName := input.fullName);
      users := users[userId := u];
      r := Ok(UserBody(u));
    }

    /**
     * `delete_user`: removes the user row. An unknown id is answered with a
     * 400, because the 404 raised for it is caught by the handler.
     */
    method DeleteUser(userId: int, verdict: Verdict) returns (r: Response)
      requires Valid()
      modifies this
      ensures Valid()
      ensures r.HttpError? ==> r.status == 400 && unchanged(this)
      ensures verdict.Rejected? ==> r == HttpError(400, verdict.message)
      ensures verdict.Accepted? && old(userId !in users) ==> r == HttpError(400, CaughtNotFound(UserNotFound))
      ensures verdict.Accepted? && old(userId in users) ==>
        && r == Ok(MessageBody("User deleted successfully"))
        && State() == old(State()).(users := old(users) - {userId})
        && next == old(next)
    {
      if verdict.Rejected? {
        return HttpError(400, verdict.message);
      }
      if userId !in users {
        return HttpError(400, CaughtNotFound(UserNotFound));
      }
      users := users - {userId};
      r := Ok(MessageBody("User deleted successfully"));
    }

    /**
     * `create_post`: inserts the post under a fresh id with its counters at
     * their initial values, or answers 400 with the database's error.
     */
    method CreatePost(input: PostCreate, now: int, verdict: Verdict) returns (r: Response)
      requires Valid()
      modifies this
      ensures Valid()
      ensures verdict.Accepted? ==>
        var p := Post(old(next.post), input.userId, input.content, 0, 0, 0.0, now);
        && old(p.id !in posts)
        && r == Ok(PostBody(p))
        && State() == old(State()).(posts := old(posts)[p.id := p])
        && next == old(next).(post := old(next.post) + 1)
      ensures verdict.Rejected? ==> r == HttpError(400, verdict.message) && unchanged(this)
    {
      if verdict.Rejected? {
        return HttpError(400, verdict.message);
      }
      var p := Post(next.post, input.userId, input.content, 0, 0, 0.0, now);
      posts := posts[p.id := p];
      next := next.(post := next.post + 1);
      r := Ok(PostBody(p));
    }

    /** `create_like`: any failure is answered with the same 400 and fixed text. */
    method CreateLike(input: LikeCreate, now: int, verdict: Verdict) returns (r: Response)
      requires Valid()
      modifies this
      ensures Valid()
      ensures verdict.Accepted? ==>
        var l := Like(old(next.like), input.postId, input.userId, now);
        && old(l.id !in likes)
        && r == Ok(LikeBody("Post liked successfully", l))
        && State() == old(State()).(likes := old(likes)[l.id := l])
        && next == old(next).(like := old(next.like) + 1)
      ensures verdict.Rejected? ==> r == HttpError(400, LikeFailed) && unchanged(this)
    {
      if verdict.Rejected? {
        return HttpError(400, LikeFailed);
      }
      var l := Like(next.like, input.postId, input.userId, now);
      likes := likes[l.id := l];
      next := next.(like := next.like + 1);
      r := Ok(LikeBody("Post liked successfully", l));
    }

    /**
     * `remove_like`: deletes every like of that user on that post. When there
     * is none, the 404 raised for it is caught and answered as a 400.
     */
    method RemoveLike(input: LikeCreate, verdict: Verdict) returns (r: Response)
      requires Valid()
      modifies this
      ensures Valid()
      ensures r.HttpError? ==> r.status == 400 && unchanged(this)
      ensures verdict.Rejected? ==> r == HttpError(400, verdict.message)
      ensures verdict.Accepted? && LikesOf(old(likes), input.postId, input.userId) == {} ==>
        r == HttpError(400, CaughtNotFound(LikeNotFound))
      ensures verdict.Accepted? && LikesOf(old(likes), input.postId, input.userId) != {} ==>
        && r == Ok(MessageBody("Like removed successfully"))
        && State() == old(State()).(likes := old(likes) - LikesOf(old(likes), input.postId, input.userId))
        && next == old(next)
    {
      if verdict.Rejected? {
        return HttpError(400, verdict.message);
      }
      var gone := LikesOf(likes, input.postId, input.userId);
      if gone == {} {
        return HttpError(400, CaughtNotFound(LikeNotFound));
      }
      likes := likes - gone;
      r := Ok(MessageBody("Like removed successfully"));
    }

    /** `create_comment`: inserts the comment under a fresh id, or answers 400 with the database's error. */
    method CreateComment(input: CommentCreate, now: int, verdict: Verdict) returns (r: Response)
      requires Valid()
      modifies this
      ensures Valid()
      ensures verdict.Accepted? ==>
        var c := Comment(old(next.comment), input.postId, input.userId, input.content, now);
        && old(c.id !in comments)
        && r == Ok(CommentBody("Comment added successfully", c))
        && State() == old(State()).(comments := old(comments)[c.id := c])
        && next == old(next).(comment := old(next.comment) + 1)
      ensures verdict.Rejected? ==> r == HttpError(400, verdict.message) && unchanged(this)
    {
      if verdict.Rejected? {
        return HttpError(400, verdict.message);
      }
      var c := Comment(next.comment, input.postId, input.userId, input.content, now);
      comments := comments[c.id := c];
      next := next.(comment := next.comment + 1);
      r := Ok(CommentBody("Comment added successfully", c));
    }
  }

  /**
   * The status quirk end to end: on the same unknown id, `get_user` answers
   * 404 while `update_user` and `delete_user` answer 400, and an unknown like
   * is a 400 as well.
   */
  method NotFoundStatuses(db: Database, userId: int, like: LikeCreate, input: UserCreate)
    returns (get: int, update: int, delete: int, unlike: int)
    requires db.Valid()
    requires userId !in db.users
    requires LikesOf(db.likes, like.postId, like.userId) == {}
    modifies db
    ensures get == 404 && update == 400 && delete == 400 && unlike == 400
  {
    get := db.GetUser(userId).Status();
    var r := db.UpdateUser(userId, input, Accepted);
    update := r.Status();
    r := db.DeleteUser(userId, Accepted);
    delete := r.Status();
    r := db.RemoveLike(like, Accepted);
    unlike := r.Status();
  }
}
