/** What the post handlers keep and undo: each one preserves the database invariant
    (`Tables.Inv`), a deletion leaves no comment or like row behind, and liking a post
    twice gives back what was there. */
module PostLaws {
  import opened Common
  import opened Models
  import opened Tables
  import opened Posts

  // ---------------------------------------------------------------- helpers

  lemma PostIdsAppend(posts: seq<Post>, p: Post)
    ensures PostIds(posts + [p]) == PostIds(posts) + {p.id}
  {
    var s := posts + [p];
    forall x | x in PostIds(posts) ensures x in PostIds(s) {
      var k :| 0 <= k < |posts| && posts[k].id == x;
      assert s[k].id == x;
    }
    assert s[|posts|].id == p.id;
  }

  lemma PostIdsUpdate(posts: seq<Post>, i: nat, q: Post)
    requires i < |posts| && q.id == posts[i].id
    ensures PostIds(posts[i := q]) == PostIds(posts)
  {
    var s := posts[i := q];
    forall x | x in PostIds(posts) ensures x in PostIds(s) {
      var k :| 0 <= k < |posts| && posts[k].id == x;
      assert s[k].id == x;
    }
  }

  /** Replacing a row by one with the same id leaves every lookup where it was. */
  lemma FindPostUpdate(posts: seq<Post>, i: nat, q: Post, id: int)
    requires i < |posts| && q.id == posts[i].id
    ensures FindPost(posts[i := q], id) == FindPost(posts, id)
  {
    var a := FindPost(posts, id);
    var b := FindPost(posts[i := q], id);
    if a.Some? {
      assert posts[i := q][a.value].id == id;
    }
    if b.Some? {
      assert posts[b.value].id == id;
    }
  }

  /** The position in the Posts table of a surviving row of `RemoveAt(posts, i)`. */
  function Origin(i: nat, a: nat): (r: nat)
    ensures r != i && (a < i ==> r == a) && (a >= i ==> r == a + 1)
  {
    if a < i then a else a + 1
  }

  lemma PostIdsRemoveAtKeeps(posts: seq<Post>, i: nat)
    requires i < |posts|
    ensures PostIds(posts) - {posts[i].id} <= PostIds(RemoveAt(posts, i))
  {
    var s := RemoveAt(posts, i);
    forall x | x in PostIds(posts) - {posts[i].id} ensures x in PostIds(s) {
      var k :| 0 <= k < |posts| && posts[k].id == x;
      if k < i { assert s[k].id == x; } else { assert s[k - 1].id == x; }
    }
  }

  lemma PostIdsRemoveAtDrops(db: Db, v: Validators, i: nat)
    requires PostsOk(db, v) && i < |db.posts|
    ensures PostIds(RemoveAt(db.posts, i)) <= PostIds(db.posts) - {db.posts[i].id}
  {
    var s := RemoveAt(db.posts, i);
    forall x | x in PostIds(s) ensures x in PostIds(db.posts) - {db.posts[i].id} {
      var a :| 0 <= a < |s| && s[a].id == x;
      assert db.posts[Origin(i, a)].id == x;
    }
  }

  lemma PostIdsRemoveAt(db: Db, v: Validators, i: nat)
    requires PostsOk(db, v) && i < |db.posts|
    ensures PostIds(RemoveAt(db.posts, i)) == PostIds(db.posts) - {db.posts[i].id}
  {
    PostIdsRemoveAtKeeps(db.posts, i);
    PostIdsRemoveAtDrops(db, v, i);
  }

  /** No ledger row names a post id at or past the counter. */
  lemma {:induction false} LikeCountAbsent(likes: seq<PostLike>, postId: int)
    requires forall l :: l in likes ==> l.postId != postId
    ensures LikeCount(likes, postId) == 0
  {
    if likes != [] {
      assert likes[0] in likes;
      LikeCountAbsent(likes[1..], postId);
    }
  }

  lemma FreshPostId(db: Db, v: Validators)
    requires PostsOk(db, v) && LikesOk(db)
    ensures forall l :: l in db.likes ==> l.postId != db.nextPostId
  {
    forall l | l in db.likes ensures l.postId != db.nextPostId {
      var k :| 0 <= k < |db.posts| && db.posts[k].id == l.postId;
    }
  }

  // ---------------------------------------------------------------- preservation

  /** Appending a valid post with the next id, the current time and no likes keeps the
      invariant: the new id is above every existing one, so no ledger row counts for it
      and its `likes` of 0 is right. */
  lemma AppendPostOk(db: Db, v: Validators, p: Post)
    requires Inv(db, v) && p.id == db.nextPostId && p.createdAt == db.clock && p.likes == 0 && ValidPost(v, p)
    ensures Inv(db.(posts := db.posts + [p], nextPostId := db.nextPostId + 1, clock := db.clock + 1), v)
  {
    var d := db.(posts := db.posts + [p], nextPostId := db.nextPostId + 1, clock := db.clock + 1);
    PostIdsAppend(db.posts, p);
    FreshPostId(db, v);
    LikeCountAbsent(db.likes, p.id);
    assert PostsOk(d, v);
    assert LikesOk(d) by {
      forall i | 0 <= i < |d.posts| ensures d.posts[i].likes == LikeCount(d.likes, d.posts[i].id) {
        if i < |db.posts| { assert d.posts[i] == db.posts[i]; }
      }
    }
  }

  /** Creating a post keeps the invariant. */
  lemma CreatePreservesInv(db: Db, v: Validators, userId: int, title: Input, description: Input,
                           imageUrl: Input, category: Input)
    requires Inv(db, v)
    ensures Inv(CreatePost(db, v, userId, title, description, imageUrl, category).db, v)
  {
    var r := CreatePost(db, v, userId, title, description, imageUrl, category);
    if r.out.Success? {
      assert r.out.value.id == db.nextPostId && r.out.value.createdAt == db.clock;
      AppendPostOk(db, v, r.out.value);
    }
  }

  /** Updating a post keeps the invariant: id, creation time and like count are kept,
      and the new values passed the validators. */
  lemma UpdatePreservesInv(db: Db, v: Validators, userId: int, id: int, title: Input,
                           description: Input, imageUrl: Input, category: Input)
    requires Inv(db, v)
    ensures Inv(UpdatePost(db, v, userId, id, title, description, imageUrl, category).db, v)
  {
    var r := UpdatePost(db, v, userId, id, title, description, imageUrl, category);
    if r.out.Success? {
      var i := FindPost(db.posts, id).value;
      PostIdsUpdate(db.posts, i, r.out.value);
      assert PostsOk(r.db, v);
      assert LikesOk(r.db);
    }
  }

  lemma DeletePostsOk(db: Db, v: Validators, i: nat)
    requires PostsOk(db, v) && i < |db.posts|
    ensures PostsOk(db.(posts := RemoveAt(db.posts, i)), v)
  {
    var s := RemoveAt(db.posts, i);
    forall a, b | 0 <= a < b < |s|
      ensures s[a].id < s[b].id && s[a].createdAt < s[b].createdAt
    {
      assert s[a] == db.posts[Origin(i, a)] && s[b] == db.posts[Origin(i, b)];
    }
  }

  /** Deleting a post keeps the invariant, and afterwards neither the post nor any of
      its comments or like rows is left. */
  lemma DeletePreservesInv(db: Db, v: Validators, userId: int, id: int)
    requires Inv(db, v)
    ensures var r := DeletePost(db, userId, id);
            && Inv(r.db, v)
            && (r.out.Success? ==> id !in PostIds(r.db.posts)
                                   && (forall c :: c in r.db.comments ==> c.postId != id)
                                   && (forall l :: l in r.db.likes ==> l.postId != id))
  {
    var r := DeletePost(db, userId, id);
    if r.out.Success? {
      var i := FindPost(db.posts, id).value;
      var d := r.db;
      PostIdsRemoveAt(db, v, i);
      DeletePostsOk(db, v, i);
      NoDupLikesWithout(db.likes, id);
      assert LikesOk(d) by {
        forall a | 0 <= a < |d.posts| ensures d.posts[a].likes == LikeCount(d.likes, d.posts[a].id) {
          assert d.posts[a] == db.posts[Origin(i, a)];
          LikeCountWithout(db.likes, id, d.posts[a].id);
        }
      }
    }
  }

  /** Removing a like row of post `i` and lowering its counter keeps the invariant. */
  lemma UnlikeOk(db: Db, v: Validators, i: nat, j: nat)
    requires Inv(db, v) && i < |db.posts| && j < |db.likes| && db.likes[j].postId == db.posts[i].id
    ensures Inv(db.(likes := RemoveAt(db.likes, j), posts := db.posts[i := db.posts[i].(likes := db.posts[i].likes - 1)]), v)
  {
    var d := db.(likes := RemoveAt(db.likes, j), posts := db.posts[i := db.posts[i].(likes := db.posts[i].likes - 1)]);
    PostIdsUpdate(db.posts, i, d.posts[i]);
    assert PostsOk(d, v);
    NoDupRemoveAt(db.likes, j);
    forall l | l in d.likes ensures l.postId in PostIds(d.posts) {
      InRemoveAt(db.likes, j, l);
    }
    forall a | 0 <= a < |d.posts| ensures d.posts[a].likes == LikeCount(d.likes, d.posts[a].id) {
      LikeCountRemoveAt(db.likes, j, d.posts[a].id);
    }
    assert LikesOk(d);
  }

  /** Appending a new like row of post `i` and raising its counter keeps the invariant. */
  lemma LikeOk(db: Db, v: Validators, i: nat, row: PostLike)
    requires Inv(db, v) && i < |db.posts| && row.postId == db.posts[i].id && row !in db.likes
    ensures Inv(db.(likes := db.likes + [row], posts := db.posts[i := db.posts[i].(likes := db.posts[i].likes + 1)]), v)
  {
    var d := db.(likes := db.likes + [row], posts := db.posts[i := db.posts[i].(likes := db.posts[i].likes + 1)]);
    PostIdsUpdate(db.posts, i, d.posts[i]);
    assert PostsOk(d, v);
    NoDupAppend(db.likes, row);
    forall a | 0 <= a < |d.posts| ensures d.posts[a].likes == LikeCount(d.likes, d.posts[a].id) {
      LikeCountAppend(db.likes, row, d.posts[a].id);
    }
    assert LikesOk(d);
  }

  /** Toggling keeps the invariant: the ledger stays free of duplicates and the post's
      counter moves with its number of rows. */
  lemma TogglePreservesInv(db: Db, v: Validators, postId: int, userId: int)
    requires Inv(db, v)
    ensures Inv(ToggleLike(db, postId, userId).db, v)
  {
    match FindPost(db.posts, postId)
    case None =>
    case Some(i) =>
      match FindLike(db.likes, postId, userId)
      case Some(j) =>
        ToggleRemoves(db, i, j, postId, userId);
        UnlikeOk(db, v, i, j);
      case None =>
        ToggleAdds(db, i, postId, userId);
        LikeOk(db, v, i, PostLike(postId, userId));
  }

  /** Appending a comment of an existing post with non-blank content keeps the invariant. */
  lemma CommentOk(db: Db, v: Validators, c: Comment)
    requires Inv(db, v) && c.postId in PostIds(db.posts) && ValidComment(c)
    ensures Inv(db.(comments := db.comments + [c], nextCommentId := db.nextCommentId + 1, clock := db.clock + 1), v)
  {
  }

  /** Adding a comment keeps the invariant: its post exists and a content that trims to
      something is not white space only. */
  lemma AddCommentPreservesInv(db: Db, v: Validators, userId: int, postId: int, content: Input)
    requires Inv(db, v)
    ensures Inv(AddComment(db, userId, postId, content).db, v)
  {
    var r := AddComment(db, userId, postId, content);
    if r.out.Success? {
      CommentOk(db, v, r.out.value);
    }
  }

  // ---------------------------------------------------------------- like toggle

  /** The toggle's branch for a caller who had liked the post. */
  lemma ToggleRemoves(db: Db, i: nat, j: nat, postId: int, userId: int)
    requires FindPost(db.posts, postId) == Some(i) && FindLike(db.likes, postId, userId) == Some(j)
    ensures ToggleLike(db, postId, userId)
            == Step(db.(likes := RemoveAt(db.likes, j), posts := db.posts[i := db.posts[i].(likes := db.posts[i].likes - 1)]),
                    Success(200, false))
  {
  }

  /** The toggle's branch for a caller who had not liked the post. */
  lemma ToggleAdds(db: Db, i: nat, postId: int, userId: int)
    requires FindPost(db.posts, postId) == Some(i) && FindLike(db.likes, postId, userId).None?
    ensures ToggleLike(db, postId, userId)
            == Step(db.(likes := db.likes + [PostLike(postId, userId)],
                        posts := db.posts[i := db.posts[i].(likes := db.posts[i].likes + 1)]),
                    Success(200, true))
  {
  }

  /** A successful toggle adds or removes exactly one copy of the caller's row and
      moves that post's counter by one in the same direction; nothing else changes. */
  lemma ToggleEffect(db: Db, postId: int, userId: int)
    ensures var r := ToggleLike(db, postId, userId);
            r.out.Success? ==>
              var row := PostLike(postId, userId);
              var i := FindPost(db.posts, postId).value;
              var delta := if r.out.value then 1 else -1;
              && multiset(r.db.likes) == (if r.out.value then multiset(db.likes) + multiset{row}
                                          else multiset(db.likes) - multiset{row})
              && r.db == db.(posts := db.posts[i := db.posts[i].(likes := db.posts[i].likes + delta)],
                             likes := r.db.likes)
  {
    match FindPost(db.posts, postId)
    case None =>
    case Some(i) =>
      match FindLike(db.likes, postId, userId)
      case Some(j) =>
        ToggleRemoves(db, i, j, postId, userId);
        RemoveAtMultiset(db.likes, j);
      case None =>
        ToggleAdds(db, i, postId, userId);
  }

  /** After a successful toggle the reply says whether the caller's row is now in the
      ledger. */
  lemma ToggleReportsLedger(db: Db, v: Validators, postId: int, userId: int)
    requires Inv(db, v)
    ensures var r := ToggleLike(db, postId, userId);
            r.out.Success? ==> (r.out.value <==> PostLike(postId, userId) in r.db.likes)
  {
    var r := ToggleLike(db, postId, userId);
    if r.out.Success? {
      match FindLike(db.likes, postId, userId)
      case Some(j) => NoDupRemoveAt(db.likes, j);
      case None =>
    }
  }

  /** The row removed by an unlike is appended again by the next toggle, and the post's
      counter goes back to what it was. */
  lemma RelikeRestoresPosts(db: Db, i: nat, j: nat, postId: int, userId: int)
    requires NoDup(db.likes)
    requires FindPost(db.posts, postId) == Some(i) && FindLike(db.likes, postId, userId) == Some(j)
    ensures var p := db.posts[i];
            var d := db.(likes := RemoveAt(db.likes, j), posts := db.posts[i := p.(likes := p.likes - 1)]);
            ToggleLike(d, postId, userId) == Step(db.(likes := d.likes + [PostLike(postId, userId)]), Success(200, true))
  {
    var p := db.posts[i];
    var d := db.(likes := RemoveAt(db.likes, j), posts := db.posts[i := p.(likes := p.likes - 1)]);
    FindPostUpdate(db.posts, i, d.posts[i], postId);
    NoDupRemoveAt(db.likes, j);
    ToggleAdds(d, i, postId, userId);
    assert d.posts[i := d.posts[i].(likes := d.posts[i].likes + 1)] == db.posts;
  }

  /** A like removed and added back: same posts, same rows, the row now last. */
  lemma ToggleTwiceLiked(db: Db, i: nat, postId: int, userId: int)
    requires NoDup(db.likes) && PostLike(postId, userId) in db.likes
    requires FindPost(db.posts, postId) == Some(i)
    ensures var once := ToggleLike(db, postId, userId);
            var twice := ToggleLike(once.db, postId, userId);
            && once.out == Success(200, false) && twice.out == Success(200, true)
            && twice.db == db.(likes := twice.db.likes)
            && multiset(twice.db.likes) == multiset(db.likes)
  {
    var row := PostLike(postId, userId);
    var j := FindLike(db.likes, postId, userId).value;
    var p := db.posts[i];
    var d := db.(likes := RemoveAt(db.likes, j), posts := db.posts[i := p.(likes := p.likes - 1)]);
    assert ToggleLike(db, postId, userId) == Step(d, Success(200, false)) by {
      ToggleRemoves(db, i, j, postId, userId);
    }
    RelikeRestoresPosts(db, i, j, postId, userId);
    assert multiset(d.likes + [row]) == multiset(db.likes) by {
      RemoveAtMultiset(db.likes, j);
    }
  }

  /** A like added and removed again: the database is exactly what it was. */
  lemma ToggleTwiceUnliked(db: Db, i: nat, postId: int, userId: int)
    requires PostLike(postId, userId) !in db.likes
    requires FindPost(db.posts, postId) == Some(i)
    ensures var once := ToggleLike(db, postId, userId);
            var twice := ToggleLike(once.db, postId, userId);
            && once.out == Success(200, true) && twice.out == Success(200, false)
            && twice.db == db
  {
    var row := PostLike(postId, userId);
    var p := db.posts[i];
    var d := db.(likes := db.likes + [row], posts := db.posts[i := p.(likes := p.likes + 1)]);
    assert ToggleLike(db, postId, userId) == Step(d, Success(200, true)) by {
      ToggleAdds(db, i, postId, userId);
    }
    assert ToggleLike(d, postId, userId) == Step(db, Success(200, false)) by {
      FindPostUpdate(db.posts, i, d.posts[i], postId);
      var j := FindLike(d.likes, postId, userId).value;
      assert j == |db.likes|;
      ToggleRemoves(d, i, j, postId, userId);
      assert RemoveAt(d.likes, j) == db.likes;
      assert d.posts[i := d.posts[i].(likes := d.posts[i].likes - 1)] == db.posts;
    }
  }

  /** Toggling twice gives the first reply's opposite and restores the Posts table and
      the ledger's rows; when the caller had not liked the post, the whole database is
      restored exactly (a removed row comes back at the end of the ledger). */
  lemma ToggleTwice(db: Db, v: Validators, postId: int, userId: int)
    requires Inv(db, v)
    ensures var once := ToggleLike(db, postId, userId);
            var twice := ToggleLike(once.db, postId, userId);
            && twice.out.Success? == once.out.Success?
            && (once.out.Success? ==> twice.out.value == !once.out.value)
            && twice.db == db.(likes := twice.db.likes)
            && multiset(twice.db.likes) == multiset(db.likes)
            && (PostLike(postId, userId) !in db.likes ==> twice.db == db)
  {
    match FindPost(db.posts, postId)
    case None =>
    case Some(i) =>
      if PostLike(postId, userId) in db.likes {
        ToggleTwiceLiked(db, i, postId, userId);
      } else {
        ToggleTwiceUnliked(db, i, postId, userId);
      }
  }
}
