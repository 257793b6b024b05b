/** The post routes of the relational backend (`GET /posts`, `GET /posts/:id`,
    `POST /posts`, `PUT /posts/:id`, `DELETE /posts/:id`, `POST /posts/:id/like`,
    `POST /posts/:id/comments`), each as a step from one database state to the next
    together with the response it sends. `userId` is the id the authentication
    middleware put on the request. */
module Posts {
  import opened Common
  import opened Models
  import opened Tables
  import Text

  const MsgServerError: string := "서버 오류가 발생했습니다"
  const MsgPostNotFound: string := "게시글을 찾을 수 없습니다"
  const MsgTitleImageRequired: string := "제목과 이미지는 필수입니다"
  const MsgUserNotFound: string := "사용자를 찾을 수 없습니다"
  const MsgInvalidInput: string := "입력 데이터가 올바르지 않습니다"
  const MsgNoEditPermission: string := "수정 권한이 없습니다"
  const MsgNoDeletePermission: string := "삭제 권한이 없습니다"
  const MsgCommentRequired: string := "댓글 내용을 입력해주세요"

  /** The joined `author` / `user` with attributes `id` and `username`. */
  datatype UserRef = UserRef(id: int, username: string)
  datatype PostView = PostView(post: Post, author: Option<UserRef>)
  datatype CommentView = CommentView(comment: Comment, user: Option<UserRef>)
  datatype PostDetail = PostDetail(post: Post, author: Option<UserRef>, comments: seq<CommentView>)

  /** The left outer join on the Users table. */
  function RefOf(users: seq<User>, id: int): Option<UserRef> {
    match FindUser(users, id)
    case None => None
    case Some(u) => Some(UserRef(u.id, u.username))
  }

  // ---------------------------------------------------------------- listing

  /** The posts of one category, in table order. */
  function InCategory(posts: seq<Post>, category: string): (r: seq<Post>)
    ensures forall p :: p in r <==> p in posts && p.category == category
  {
    if posts == [] then []
    else if posts[0].category == category then [posts[0]] + InCategory(posts[1..], category)
    else InCategory(posts[1..], category)
  }

  /** The rows in reverse table order, each joined with its author. */
  function NewestFirst(posts: seq<Post>, users: seq<User>): (r: seq<PostView>)
    ensures |r| == |posts|
    ensures forall k :: 0 <= k < |r| ==>
              r[k] == PostView(posts[|posts| - 1 - k], RefOf(users, posts[|posts| - 1 - k].authorId))
  {
    if posts == [] then []
    else NewestFirst(posts[1..], users) + [PostView(posts[0], RefOf(users, posts[0].authorId))]
  }

  /** `GET /posts?category=c`: a truthy category filters on equality, otherwise every
      post is listed; ordered by `createdAt` descending. */
  function ListPosts(db: Db, category: Input): seq<PostView> {
    var rows := if category.Truthy() then InCategory(db.posts, category.s) else db.posts;
    NewestFirst(rows, db.users)
  }

  predicate Ascending(posts: seq<Post>) {
    forall i, j :: 0 <= i < j < |posts| ==> posts[i].createdAt < posts[j].createdAt
  }

  /** A post created before every row of an ascending table can be put in front of it. */
  lemma AscendingCons(p: Post, s: seq<Post>)
    requires Ascending(s)
    requires forall q :: q in s ==> p.createdAt < q.createdAt
    ensures Ascending([p] + s)
  {
    var r := [p] + s;
    forall i, j | 0 <= i < j < |r| ensures r[i].createdAt < r[j].createdAt {
      assert r[j] == s[j - 1];
      if i == 0 {
        assert r[j] in s;
      } else {
        assert r[i] == s[i - 1];
      }
    }
  }

  lemma {:induction false} InCategoryAscending(posts: seq<Post>, category: string)
    requires Ascending(posts)
    ensures Ascending(InCategory(posts, category))
  {
    if posts != [] {
      var t := posts[1..];
      assert Ascending(t) by {
        forall i, j | 0 <= i < j < |t| ensures t[i].createdAt < t[j].createdAt {
          assert t[i] == posts[i + 1] && t[j] == posts[j + 1];
        }
      }
      InCategoryAscending(t, category);
      if posts[0].category == category {
        var rest := InCategory(t, category);
        forall q | q in rest ensures posts[0].createdAt < q.createdAt {
          var m :| 0 <= m < |t| && t[m] == q;
          assert t[m] == posts[m + 1];
        }
        AscendingCons(posts[0], rest);
      }
    }
  }

  /** The listing `r` holds a view of post `p`. */
  predicate Shows(r: seq<PostView>, p: Post) {
    exists k :: 0 <= k < |r| && r[k].post == p
  }

  /** Reversing an ascending table lists exactly its rows, newest first. */
  lemma NewestFirstSpec(rows: seq<Post>, users: seq<User>)
    requires Ascending(rows)
    ensures forall p :: p in rows <==> Shows(NewestFirst(rows, users), p)
    ensures var r := NewestFirst(rows, users);
            forall i, j :: 0 <= i < j < |r| ==> r[i].post.createdAt > r[j].post.createdAt
  {
    var r := NewestFirst(rows, users);
    forall p ensures p in rows <==> Shows(r, p) {
      if p in rows {
        var m :| 0 <= m < |rows| && rows[m] == p;
        assert r[|rows| - 1 - m].post == p;
      }
      if Shows(r, p) {
        var k :| 0 <= k < |r| && r[k].post == p;
        assert rows[|rows| - 1 - k] == p;
      }
    }
  }

  /** The listing holds exactly the posts that match the filter (every post when the
      filter is absent or empty), each with its author joined, newest first. */
  lemma ListPostsSpec(db: Db, v: Validators, category: Input)
    requires Inv(db, v)
    ensures var r := ListPosts(db, category);
            && (forall p :: p in db.posts && (category.Truthy() ==> p.category == category.s) <==> Shows(r, p))
            && (forall k :: 0 <= k < |r| ==> r[k].author == RefOf(db.users, r[k].post.authorId))
            && (forall i, j :: 0 <= i < j < |r| ==> r[i].post.createdAt > r[j].post.createdAt)
  {
    assert PostsOk(db, v);
    assert Ascending(db.posts);
    if category.Truthy() {
      InCategoryAscending(db.posts, category.s);
      NewestFirstSpec(InCategory(db.posts, category.s), db.users);
    } else {
      NewestFirstSpec(db.posts, db.users);
    }
  }

  // ---------------------------------------------------------------- detail

  /** The comments of one post, in table order. */
  function CommentsFor(comments: seq<Comment>, postId: int): (r: seq<Comment>)
    ensures forall c :: c in r <==> c in comments && c.postId == postId
  {
    if comments == [] then []
    else if comments[0].postId == postId then [comments[0]] + CommentsFor(comments[1..], postId)
    else CommentsFor(comments[1..], postId)
  }

  /** Each comment joined with its user. */
  function JoinUsers(cs: seq<Comment>, users: seq<User>): (r: seq<CommentView>)
    ensures |r| == |cs|
    ensures forall k :: 0 <= k < |r| ==> r[k] == CommentView(cs[k], RefOf(users, cs[k].userId))
  {
    seq(|cs|, k requires 0 <= k < |cs| => CommentView(cs[k], RefOf(users, cs[k].userId)))
  }

  /** `GET /posts/:id`: 404 exactly when no post has the id; otherwise that post,
      its author, and all of its comments. */
  function GetPost(db: Db, id: int): (r: Outcome<PostDetail>)
    ensures r.Failure? <==> id !in PostIds(db.posts)
    ensures r.Failure? ==> r == Failure(404, MsgPostNotFound)
    ensures r.Success? ==> r.status == 200 && r.value.post in db.posts && r.value.post.id == id
    ensures r.Success? ==> r.value.author == RefOf(db.users, r.value.post.authorId)
    ensures r.Success? ==> |r.value.comments| == |CommentsFor(db.comments, id)|
    ensures r.Success? ==> forall k :: 0 <= k < |r.value.comments| ==>
              r.value.comments[k].comment == CommentsFor(db.comments, id)[k]
    ensures r.Success? ==> forall k :: 0 <= k < |r.value.comments| ==>
              && r.value.comments[k].comment in db.comments && r.value.comments[k].comment.postId == id
              && r.value.comments[k].user == RefOf(db.users, r.value.comments[k].comment.userId)
  {
    match FindPost(db.posts, id)
    case None => Failure(404, MsgPostNotFound)
    case Some(i) =>
      var p := db.posts[i];
      Success(200, PostDetail(p, RefOf(db.users, p.authorId), JoinUsers(CommentsFor(db.comments, id), db.users)))
  }

  // ---------------------------------------------------------------- create

  /** `POST /posts`: 400 when the title or the image URL is missing or empty, 404 when
      the caller is not a user, 400 when the model's validators reject the row;
      otherwise a new row with the defaults and the author's current username. */
  function CreatePost(db: Db, v: Validators, userId: int, title: Input, description: Input,
                      imageUrl: Input, category: Input): (r: Step<Post>)
    ensures r.out.Failure? ==> r.db == db
    ensures !title.Truthy() || !imageUrl.Truthy() ==> r.out == Failure(400, MsgTitleImageRequired)
    ensures title.Truthy() && imageUrl.Truthy() && FindUser(db.users, userId).None?
            ==> r.out == Failure(404, MsgUserNotFound)
    ensures title.Truthy() && imageUrl.Truthy() && FindUser(db.users, userId).Some? ==>
              var p := Post(db.nextPostId, title.s, Some(description.Or("")), imageUrl.s,
                            category.Or(DefaultCategory), userId, FindUser(db.users, userId).value.username,
                            0, db.clock);
              && (r.out.Success? <==> ValidPost(v, p))
              && (!ValidPost(v, p) ==> r.out == Failure(400, MsgInvalidInput))
    ensures r.out.Success? ==>
              var p := r.out.value;
              && r.out.status == 201
              && FindUser(db.users, userId).Some?
              && p.title == title.s && p.imageUrl == imageUrl.s
              && p.description == Some(description.Or(""))
              && p.category == category.Or(DefaultCategory)
              && p.authorId == userId && p.authorName == FindUser(db.users, userId).value.username
              && p.likes == 0 && ValidPost(v, p)
              && r.db == db.(posts := db.posts + [p], nextPostId := db.nextPostId + 1, clock := db.clock + 1)
  {
    if !title.Truthy() || !imageUrl.Truthy() then Step(db, Failure(400, MsgTitleImageRequired))
    else match FindUser(db.users, userId)
      case None => Step(db, Failure(404, MsgUserNotFound))
      case Some(user) =>
        var p := Post(db.nextPostId, title.s, Some(description.Or("")), imageUrl.s,
                      category.Or(DefaultCategory), userId, user.username, 0, db.clock);
        if !ValidPost(v, p) then Step(db, Failure(400, MsgInvalidInput))
        else Step(db.(posts := db.posts + [p], nextPostId := db.nextPostId + 1, clock := db.clock + 1),
                  Success(201, p))
  }

  // ---------------------------------------------------------------- update

  /** The description after an update: kept only when the field is absent, so an
      empty string (or `null`) overwrites it. */
  function DescriptionAfter(d: Input, previous: Option<string>): Option<string> {
    match d
    case Undefined => previous
    case Null => None
    case Str(s) => Some(s)
  }

  /** `PUT /posts/:id`: 404 for a missing post before 403 for a caller who is not the
      author; otherwise each of title, image URL and category falls back to its old
      value when the new one is missing or empty, and the description when it is
      absent. A row the validators reject reaches the generic handler: 500. */
  function UpdatePost(db: Db, v: Validators, userId: int, id: int, title: Input,
                      description: Input, imageUrl: Input, category: Input): (r: Step<Post>)
    ensures r.out.Failure? ==> r.db == db
    ensures id !in PostIds(db.posts) ==> r.out == Failure(404, MsgPostNotFound)
    ensures FindPost(db.posts, id).Some? && db.posts[FindPost(db.posts, id).value].authorId != userId
            ==> r.out == Failure(403, MsgNoEditPermission)
    ensures FindPost(db.posts, id).Some? && db.posts[FindPost(db.posts, id).value].authorId == userId ==>
              var old_ := db.posts[FindPost(db.posts, id).value];
              var q := old_.(title := title.Or(old_.title), imageUrl := imageUrl.Or(old_.imageUrl),
                             category := category.Or(old_.category),
                             description := DescriptionAfter(description, old_.description));
              && (r.out.Success? <==> ValidPost(v, q))
              && (!ValidPost(v, q) ==> r.out == Failure(500, MsgServerError))
    ensures r.out.Success? ==>
              var i := FindPost(db.posts, id).value;
              var old_ := db.posts[i];
              var p := r.out.value;
              && r.out.status == 200 && old_.authorId == userId
              && p == old_.(title := title.Or(old_.title), imageUrl := imageUrl.Or(old_.imageUrl),
                            category := category.Or(old_.category),
                            description := DescriptionAfter(description, old_.description))
              && ValidPost(v, p)
              && r.db == db.(posts := db.posts[i := p])
  {
    match FindPost(db.posts, id)
    case None => Step(db, Failure(404, MsgPostNotFound))
    case Some(i) =>
      var p := db.posts[i];
      if p.authorId != userId then Step(db, Failure(403, MsgNoEditPermission))
      else
        var q := p.(title := title.Or(p.title), description := DescriptionAfter(description, p.description),
                    imageUrl := imageUrl.Or(p.imageUrl), category := category.Or(p.category));
        if !ValidPost(v, q) then Step(db, Failure(500, MsgServerError))
        else Step(db.(posts := db.posts[i := q]), Success(200, q))
  }

  // ---------------------------------------------------------------- delete

  /** `DELETE /posts/:id`: 404 before 403 as for an update; the author's delete removes
      the row together with its comments and its like rows. */
  function DeletePost(db: Db, userId: int, id: int): (r: Step<()>)
    ensures r.out.Failure? ==> r.db == db
    ensures id !in PostIds(db.posts) ==> r.out == Failure(404, MsgPostNotFound)
    ensures FindPost(db.posts, id).Some? && db.posts[FindPost(db.posts, id).value].authorId != userId
            ==> r.out == Failure(403, MsgNoDeletePermission)
    ensures FindPost(db.posts, id).Some? && db.posts[FindPost(db.posts, id).value].authorId == userId
            ==> r.out.Success?
    ensures r.out.Success? ==>
              && r.out.status == 200
              && FindPost(db.posts, id).Some? && db.posts[FindPost(db.posts, id).value].authorId == userId
              && r.db == db.(posts := RemoveAt(db.posts, FindPost(db.posts, id).value),
                             comments := CommentsWithout(db.comments, id),
                             likes := LikesWithout(db.likes, id))
  {
    match FindPost(db.posts, id)
    case None => Step(db, Failure(404, MsgPostNotFound))
    case Some(i) =>
      if db.posts[i].authorId != userId then Step(db, Failure(403, MsgNoDeletePermission))
      else Step(db.(posts := RemoveAt(db.posts, i), comments := CommentsWithout(db.comments, id),
                    likes := LikesWithout(db.likes, id)),
                Success(200, ()))
  }

  // ---------------------------------------------------------------- like toggle

  /** `POST /posts/:id/like`: 404 for a missing post; otherwise an existing
      `(postId, userId)` row is deleted and `likes` drops by one (`liked` false), or a
      row is inserted and `likes` rises by one (`liked` true). Nothing else changes. */
  function ToggleLike(db: Db, postId: int, userId: int): (r: Step<bool>)
    ensures postId !in PostIds(db.posts) ==> r == Step(db, Failure(404, MsgPostNotFound))
    ensures postId in PostIds(db.posts) ==> r.out == Success(200, PostLike(postId, userId) !in db.likes)
  {
    match FindPost(db.posts, postId)
    case None => Step(db, Failure(404, MsgPostNotFound))
    case Some(i) =>
      var p := db.posts[i];
      match FindLike(db.likes, postId, userId)
      case Some(j) =>
        Step(db.(likes := RemoveAt(db.likes, j), posts := db.posts[i := p.(likes := p.likes - 1)]),
             Success(200, false))
      case None =>
        Step(db.(likes := db.likes + [PostLike(postId, userId)], posts := db.posts[i := p.(likes := p.likes + 1)]),
             Success(200, true))
  }

  // ---------------------------------------------------------------- comments

  /** `POST /posts/:id/comments`: missing, empty or white-space content (what `trim`
      turns into the empty string, by the contract of `Text.Trim`) is rejected with 400
      before the post is looked up; a missing post gives 404; a caller who is
      not a user makes the handler read `username` of null, which the generic handler
      turns into 500. Otherwise the content is stored as sent (not trimmed) with the
      caller's current username. */
  function AddComment(db: Db, userId: int, postId: int, content: Input): (r: Step<Comment>)
    ensures r.out.Failure? ==> r.db == db
    ensures !content.Truthy() || Text.IsBlank(content.s) ==> r.out == Failure(400, MsgCommentRequired)
    ensures content.Truthy() && !Text.IsBlank(content.s) && postId !in PostIds(db.posts)
            ==> r.out == Failure(404, MsgPostNotFound)
    ensures content.Truthy() && !Text.IsBlank(content.s) && postId in PostIds(db.posts)
            ==> (r.out.Success? <==> FindUser(db.users, userId).Some?)
    ensures content.Truthy() && !Text.IsBlank(content.s) && postId in PostIds(db.posts)
            && FindUser(db.users, userId).None?
            ==> r.out == Failure(500, MsgServerError)
    ensures r.out.Success? ==>
              && r.out.status == 201
              && postId in PostIds(db.posts) && FindUser(db.users, userId).Some?
              && r.out.value == Comment(db.nextCommentId, postId, userId,
                                        FindUser(db.users, userId).value.username, content.s, db.clock)
              && r.db == db.(comments := db.comments + [r.out.value], nextCommentId := db.nextCommentId + 1,
                             clock := db.clock + 1)
  {
    if !content.Truthy() || Text.IsBlank(content.s) then Step(db, Failure(400, MsgCommentRequired))
    else match FindPost(db.posts, postId)
      case None => Step(db, Failure(404, MsgPostNotFound))
      case Some(_) =>
        match FindUser(db.users, userId)
        case None => Step(db, Failure(500, MsgServerError))
        case Some(user) =>
          var c := Comment(db.nextCommentId, postId, userId, user.username, content.s, db.clock);
          Step(db.(comments := db.comments + [c], nextCommentId := db.nextCommentId + 1, clock := db.clock + 1),
               Success(201, c))
  }
}
