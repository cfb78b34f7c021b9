/**
 * The rows of the four tables the backend reads and writes (users, posts,
 * likes, comments), shaped after the record schemas of the backend, and the
 * inner join on `users.id` that every analytics query uses.
 *
 * Timestamps are integers (any monotone encoding of a `TIMESTAMP`); the
 * engagement counters of a post are inputs maintained outside this model.
 */
module Records {

  datatype Option<T> = None | Some(value: T)

  datatype User = User(id: int, username: string, email: string, fullName: string, createdAt: int)

  datatype Post = Post(
    id: int,
    userId: int,
    content: string,
    likeCount: int,
    commentCount: int,
    engagementScore: real,
    createdAt: int)

  datatype Like = Like(id: int, postId: int, userId: int, createdAt: int)

  datatype Comment = Comment(id: int, postId: int, userId: int, content: string, createdAt: int)

  /** `users.id` is the primary key: no two rows share it. */
  predicate UniqueUserIds(users: seq<User>) {
    forall i, j :: 0 <= i < j < |users| ==> users[i].id != users[j].id
  }

  /** The rows of `users` that `JOIN ... ON u.id = <id>` pairs with a row whose user column is `id`. */
  function OwnersOf(users: seq<User>, id: int): (r: seq<User>)
    ensures forall u :: u in r <==> u in users && u.id == id
    ensures |r| <= |users|
  {
    if users == [] then []
    else if users[0].id == id then [users[0]] + OwnersOf(users[1..], id)
    else OwnersOf(users[1..], id)
  }

  predicate HasUser(users: seq<User>, id: int) {
    exists u :: u in users && u.id == id
  }

  /** The number of rows whose owner, read by `owner`, is an existing user: the rows an inner join keeps. */
  function CountOwned<T>(users: seq<User>, rows: seq<T>, owner: T -> int): nat {
    if rows == [] then 0
    else (if HasUser(users, owner(rows[0])) then 1 else 0) + CountOwned(users, rows[1..], owner)
  }

  /** Under the primary key, a row whose user exists is joined with exactly one user. */
  lemma {:induction false} OwnersOfUnique(users: seq<User>, id: int)
    requires UniqueUserIds(users)
    requires HasUser(users, id)
    ensures |OwnersOf(users, id)| == 1
  {
    var u :| u in users && u.id == id;
    if users[0].id == id {
      forall v | v in users[1..] ensures v.id != id {
        var j :| 0 <= j < |users[1..]| && users[1..][j] == v;
        assert users[j + 1] == v;
      }
      OwnersOfNone(users[1..], id);
    } else {
      assert u in users[1..];
      assert UniqueUserIds(users[1..]);
      OwnersOfUnique(users[1..], id);
    }
  }

  lemma {:induction false} OwnersOfNone(users: seq<User>, id: int)
    requires forall v :: v in users ==> v.id != id
    ensures OwnersOf(users, id) == []
  {
    if users != [] {
      assert users[0] in users;
      OwnersOfNone(users[1..], id);
    }
  }
}
