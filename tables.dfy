/** The database behind the handlers: the Users, Posts, Comments and PostLikes tables
    in insertion order, the auto-increment counters and the creation clock, the
    lookups the handlers perform (`findByPk`, `findOne`), and the consistency
    invariant the handlers keep. */
module Tables {
  import opened Common
  import opened Models

  datatype Db = Db(users: seq<User>, posts: seq<Post>, comments: seq<Comment>,
                   likes: seq<PostLike>, nextUserId: int, nextPostId: int,
                   nextCommentId: int, clock: nat)

  const EmptyDb: Db := Db([], [], [], [], 1, 1, 1, 0)

  /** The database after a handler, and the handler's response. */
  datatype Step<+T> = Step(db: Db, out: Outcome<T>)

  /** The position of the first element satisfying `p`. */
  function FirstIndex<T>(s: seq<T>, p: T -> bool): (r: Option<nat>)
    ensures r.Some? ==> r.value < |s| && p(s[r.value])
    ensures r.Some? ==> forall k :: 0 <= k < r.value ==> !p(s[k])
    ensures r.None? ==> forall k :: 0 <= k < |s| ==> !p(s[k])
  {
    if s == [] then None
    else if p(s[0]) then Some(0)
    else match FirstIndex(s[1..], p)
      case None => None
      case Some(k) => Some(k + 1)
  }

  /** `Post.findByPk(id)`, as a position in the Posts table. */
  function FindPost(posts: seq<Post>, id: int): (r: Option<nat>)
    ensures r.Some? ==> r.value < |posts| && posts[r.value].id == id
    ensures r.None? ==> forall k :: 0 <= k < |posts| ==> posts[k].id != id
  {
    FirstIndex(posts, (p: Post) => p.id == id)
  }

  /** `User.findByPk(id)`. */
  function FindUser(users: seq<User>, id: int): (r: Option<User>)
    ensures r.Some? ==> r.value in users && r.value.id == id
    ensures r.None? ==> forall u :: u in users ==> u.id != id
  {
    match FirstIndex(users, (u: User) => u.id == id)
    case None => None
    case Some(k) => Some(users[k])
  }

  /** `PostLike.findOne({ where: { postId, userId } })`, as a position in the ledger. */
  function FindLike(likes: seq<PostLike>, postId: int, userId: int): (r: Option<nat>)
    ensures r.Some? ==> r.value < |likes| && likes[r.value] == PostLike(postId, userId)
    ensures r.Some? ==> forall k :: 0 <= k < r.value ==> likes[k] != PostLike(postId, userId)
    ensures r.None? ==> PostLike(postId, userId) !in likes
  {
    FirstIndex(likes, (l: PostLike) => l == PostLike(postId, userId))
  }

  function RemoveAt<T>(s: seq<T>, i: nat): (r: seq<T>)
    requires i < |s|
    ensures |r| == |s| - 1
    ensures forall k :: 0 <= k < i ==> r[k] == s[k]
    ensures forall k :: i <= k < |r| ==> r[k] == s[k + 1]
  {
    s[..i] + s[i + 1..]
  }

  lemma RemoveAtMultiset<T>(s: seq<T>, i: nat)
    requires i < |s|
    ensures multiset(RemoveAt(s, i)) == multiset(s) - multiset{s[i]}
  {
    assert s == s[..i] + [s[i]] + s[i + 1..];
  }

  /** The number of ledger rows recorded for `postId`. */
  function LikeCount(likes: seq<PostLike>, postId: int): nat {
    if likes == [] then 0
    else (if likes[0].postId == postId then 1 else 0) + LikeCount(likes[1..], postId)
  }

  lemma {:induction false} LikeCountConcat(a: seq<PostLike>, b: seq<PostLike>, postId: int)
    ensures LikeCount(a + b, postId) == LikeCount(a, postId) + LikeCount(b, postId)
  {
    if a == [] {
      assert a + b == b;
    } else {
      assert (a + b)[1..] == a[1..] + b;
      LikeCountConcat(a[1..], b, postId);
    }
  }

  /** Removing one row lowers the count of its post by one and no other count. */
  lemma LikeCountRemoveAt(likes: seq<PostLike>, i: nat, postId: int)
    requires i < |likes|
    ensures LikeCount(RemoveAt(likes, i), postId)
            == LikeCount(likes, postId) - (if likes[i].postId == postId then 1 else 0)
  {
    assert likes == likes[..i] + ([likes[i]] + likes[i + 1..]);
    LikeCountConcat(likes[..i], [likes[i]] + likes[i + 1..], postId);
    LikeCountConcat([likes[i]], likes[i + 1..], postId);
    LikeCountConcat(likes[..i], likes[i + 1..], postId);
  }

  /** Appending one row raises the count of its post by one and no other count. */
  lemma LikeCountAppend(likes: seq<PostLike>, row: PostLike, postId: int)
    ensures LikeCount(likes + [row], postId)
            == LikeCount(likes, postId) + (if row.postId == postId then 1 else 0)
  {
    LikeCountConcat(likes, [row], postId);
  }

  /** The ledger without the rows of `postId` (the cascade of a post's deletion). */
  function LikesWithout(likes: seq<PostLike>, postId: int): (r: seq<PostLike>)
    ensures forall l :: l in r <==> l in likes && l.postId != postId
  {
    if likes == [] then []
    else if likes[0].postId == postId then LikesWithout(likes[1..], postId)
    else [likes[0]] + LikesWithout(likes[1..], postId)
  }

  /** The Comments table without the comments of `postId`. */
  function CommentsWithout(comments: seq<Comment>, postId: int): (r: seq<Comment>)
    ensures forall c :: c in r <==> c in comments && c.postId != postId
  {
    if comments == [] then []
    else if comments[0].postId == postId then CommentsWithout(comments[1..], postId)
    else [comments[0]] + CommentsWithout(comments[1..], postId)
  }

  lemma {:induction false} LikeCountWithout(likes: seq<PostLike>, dropped: int, postId: int)
    requires dropped != postId
    ensures LikeCount(LikesWithout(likes, dropped), postId) == LikeCount(likes, postId)
  {
    if likes != [] {
      LikeCountWithout(likes[1..], dropped, postId);
    }
  }

  lemma {:induction false} LikeCountOfDropped(likes: seq<PostLike>, dropped: int)
    ensures LikeCount(LikesWithout(likes, dropped), dropped) == 0
  {
    if likes != [] {
      LikeCountOfDropped(likes[1..], dropped);
    }
  }

  /** Each element occurs once. */
  predicate NoDup<T(==)>(s: seq<T>) {
    s == [] || (s[0] !in s[1..] && NoDup(s[1..]))
  }

  lemma {:induction false} NoDupLikesWithout(likes: seq<PostLike>, postId: int)
    requires NoDup(likes)
    ensures NoDup(LikesWithout(likes, postId))
  {
    if likes != [] {
      NoDupLikesWithout(likes[1..], postId);
    }
  }

  lemma {:induction false} NoDupAppend<T>(s: seq<T>, x: T)
    requires NoDup(s) && x !in s
    ensures NoDup(s + [x])
  {
    if s != [] {
      assert (s + [x])[1..] == s[1..] + [x];
      NoDupAppend(s[1..], x);
    }
  }

  lemma InRemoveAt<T>(s: seq<T>, i: nat, x: T)
    requires i < |s| && x in RemoveAt(s, i)
    ensures x in s
  {
    var k :| 0 <= k < |RemoveAt(s, i)| && RemoveAt(s, i)[k] == x;
    if k < i { assert s[k] == x; } else { assert s[k + 1] == x; }
  }

  lemma {:induction false} NoDupRemoveAt<T>(s: seq<T>, i: nat)
    requires NoDup(s) && i < |s|
    ensures NoDup(RemoveAt(s, i))
    ensures s[i] !in RemoveAt(s, i)
  {
    if i == 0 {
      assert RemoveAt(s, i) == s[1..];
    } else {
      var t := s[1..];
      NoDupRemoveAt(t, i - 1);
      assert RemoveAt(s, i) == [s[0]] + RemoveAt(t, i - 1);
      assert s[i] == t[i - 1];
      if s[0] in RemoveAt(t, i - 1) {
        InRemoveAt(t, i - 1, s[0]);
      }
    }
  }

  /** The ids of the Posts table. */
  function PostIds(posts: seq<Post>): set<int> {
    set k | 0 <= k < |posts| :: posts[k].id
  }

  /** Users table: ids ascending below the counter, usernames and emails unique, and
      every row passed the model's validators on its username and email. */
  predicate UsersOk(db: Db, v: Validators) {
    && (forall i :: 0 <= i < |db.users| ==>
          db.users[i].id < db.nextUserId && 3 <= |db.users[i].username| <= 50
          && v.isEmail(db.users[i].email))
    && (forall i, j :: 0 <= i < j < |db.users| ==>
          db.users[i].id < db.users[j].id
          && db.users[i].username != db.users[j].username
          && db.users[i].email != db.users[j].email)
  }

  /** Posts table: every row valid, ids and creation times ascending in table order
      and below their counters. */
  predicate PostsOk(db: Db, v: Validators) {
    && (forall i :: 0 <= i < |db.posts| ==>
          ValidPost(v, db.posts[i]) && db.posts[i].id < db.nextPostId
          && db.posts[i].createdAt < db.clock)
    && (forall i, j :: 0 <= i < j < |db.posts| ==>
          db.posts[i].id < db.posts[j].id && db.posts[i].createdAt < db.posts[j].createdAt)
  }

  /** The like ledger: at most one row per pair, no row of a missing post, and every
      post's `likes` equal to the number of its rows. */
  predicate LikesOk(db: Db) {
    && NoDup(db.likes)
    && (forall l :: l in db.likes ==> l.postId in PostIds(db.posts))
    && (forall i :: 0 <= i < |db.posts| ==> db.posts[i].likes == LikeCount(db.likes, db.posts[i].id))
  }

  /** Comments: each belongs to an existing post and has non-blank content. */
  predicate CommentsOk(db: Db) {
    forall c :: c in db.comments ==> c.postId in PostIds(db.posts) && ValidComment(c)
  }

  predicate Inv(db: Db, v: Validators) {
    UsersOk(db, v) && PostsOk(db, v) && LikesOk(db) && CommentsOk(db)
  }

  lemma EmptyInv(v: Validators)
    ensures Inv(EmptyDb, v)
  {
  }

  /** A post's id occurs in the table exactly at its position. */
  lemma FindPostAt(db: Db, v: Validators, i: nat)
    requires PostsOk(db, v) && i < |db.posts|
    ensures FindPost(db.posts, db.posts[i].id) == Some(i)
  {
  }
}
