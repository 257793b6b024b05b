/** The relational backend as one object: the tables and counters are its fields, and
    each route handler updates them step by step (look up, check, write). Every
    handler keeps the database invariant and leaves exactly the state, and sends
    exactly the response, that the route's step function in `Posts` or `Auth` gives. */
module Backend {
  import opened Common
  import opened Models
  import opened Tables
  import Text
  import Posts
  import PostLaws
  import Auth

  /** `!content || content.trim() === ''`: the comment route's emptiness test. */
  method ContentMissing(content: Input) returns (missing: bool)
    ensures missing <==> !content.Truthy() || Text.IsBlank(content.s)
  {
    missing := !content.Truthy() || Text.Trim(content.s) == "";
  }

  class Store {
    var users: seq<User>
    var posts: seq<Post>
    var comments: seq<Comment>
    var likes: seq<PostLike>
    var nextUserId: int
    var nextPostId: int
    var nextCommentId: int
    var clock: nat
    /** The library validators of the models and bcrypt. */
    const checks: Validators
    const crypto: Crypto

    function State(): Db
      reads this
    {
      Db(users, posts, comments, likes, nextUserId, nextPostId, nextCommentId, clock)
    }

    predicate Valid()
      reads this
    {
      Inv(State(), checks)
    }

    /** A freshly synchronised database: empty tables, counters at 1. */
    constructor (checks: Validators, crypto: Crypto)
      ensures State() == EmptyDb && Valid()
      ensures this.checks == checks && this.crypto == crypto
    {
      this.checks := checks;
      this.crypto := crypto;
      users, posts, comments, likes := [], [], [], [];
      nextUserId, nextPostId, nextCommentId, clock := 1, 1, 1, 0;
      new;
      EmptyInv(checks);
    }

    /** `GET /posts`. Changes nothing. */
    method List(category: Input) returns (views: seq<Posts.PostView>)
      requires Valid()
      ensures views == Posts.ListPosts(State(), category)
      ensures forall p :: p in posts && (category.Truthy() ==> p.category == category.s) <==> Posts.Shows(views, p)
      ensures forall i, j :: 0 <= i < j < |views| ==> views[i].post.createdAt > views[j].post.createdAt
    {
      views := Posts.ListPosts(State(), category);
      Posts.ListPostsSpec(State(), checks, category);
    }

    /** `GET /posts/:id`. Changes nothing. */
    method Get(id: int) returns (out: Outcome<Posts.PostDetail>)
      ensures out == Posts.GetPost(State(), id)
      ensures out.Failure? <==> id !in PostIds(posts)
      ensures out.Success? ==> out.value.post in posts && out.value.post.id == id
    {
      out := Posts.GetPost(State(), id);
    }

    /** `POST /posts`. */
    method CreatePost(userId: int, title: Input, description: Input, imageUrl: Input, category: Input)
      returns (out: Outcome<Post>)
      requires Valid()
      modifies this
      ensures Valid()
      ensures var r := Posts.CreatePost(old(State()), checks, userId, title, description, imageUrl, category);
              State() == r.db && out == r.out
    {
      ghost var before := State();
      PostLaws.CreatePreservesInv(before, checks, userId, title, description, imageUrl, category);
      if !title.Truthy() || !imageUrl.Truthy() {
        return Failure(400, Posts.MsgTitleImageRequired);
      }
      var author := FindUser(users, userId);
      if author.None? {
        return Failure(404, Posts.MsgUserNotFound);
      }
      var p := Post(nextPostId, title.s, Some(description.Or("")), imageUrl.s,
                    category.Or(DefaultCategory), userId, author.value.username, 0, clock);
      if !ValidPost(checks, p) {
        return Failure(400, Posts.MsgInvalidInput);
      }
      posts := posts + [p];
      nextPostId := nextPostId + 1;
      clock := clock + 1;
      out := Success(201, p);
    }

    /** `PUT /posts/:id`. */
    method UpdatePost(userId: int, id: int, title: Input, description: Input, imageUrl: Input,
                      category: Input) returns (out: Outcome<Post>)
      requires Valid()
      modifies this
      ensures Valid()
      ensures var r := Posts.UpdatePost(old(State()), checks, userId, id, title, description, imageUrl, category);
              State() == r.db && out == r.out
    {
      ghost var before := State();
      PostLaws.UpdatePreservesInv(before, checks, userId, id, title, description, imageUrl, category);
      var found := FindPost(posts, id);
      if found.None? {
        return Failure(404, Posts.MsgPostNotFound);
      }
      var i := found.value;
      var p := posts[i];
      if p.authorId != userId {
        return Failure(403, Posts.MsgNoEditPermission);
      }
      p := p.(title := title.Or(p.title), description := Posts.DescriptionAfter(description, p.description),
              imageUrl := imageUrl.Or(p.imageUrl), category := category.Or(p.category));
      if !ValidPost(checks, p) {
        return Failure(500, Posts.MsgServerError);
      }
      posts := posts[i := p];
      out := Success(200, p);
    }

    /** `DELETE /posts/:id`: the row goes, and the cascade takes its comments and likes. */
    method DeletePost(userId: int, id: int) returns (out: Outcome<()>)
      requires Valid()
      modifies this
      ensures Valid()
      ensures var r := Posts.DeletePost(old(State()), userId, id);
              State() == r.db && out == r.out
      ensures out.Success? ==> id !in PostIds(posts) && forall c :: c in comments ==> c.postId != id
    {
      ghost var before := State();
      PostLaws.DeletePreservesInv(before, checks, userId, id);
      var found := FindPost(posts, id);
      if found.None? {
        return Failure(404, Posts.MsgPostNotFound);
      }
      var i := found.value;
      if posts[i].authorId != userId {
        return Failure(403, Posts.MsgNoDeletePermission);
      }
      posts := RemoveAt(posts, i);
      comments := CommentsWithout(comments, id);
      likes := LikesWithout(likes, id);
      out := Success(200, ());
    }

    /** `existingLike.destroy()` then `post.decrement('likes')`: row `j` of the ledger
        goes and post `i` loses one like. */
    method Unlike(i: nat, j: nat)
      requires Valid() && i < |posts| && j < |likes| && likes[j].postId == posts[i].id
      modifies this
      ensures Valid()
      ensures State() == old(State()).(likes := RemoveAt(old(likes), j),
                                       posts := old(posts)[i := old(posts)[i].(likes := old(posts)[i].likes - 1)])
    {
      PostLaws.UnlikeOk(State(), checks, i, j);
      likes := RemoveAt(likes, j);
      posts := posts[i := posts[i].(likes := posts[i].likes - 1)];
    }

    /** `PostLike.create(row)` then `post.increment('likes')`: the row is appended and
        post `i` gains one like. */
    method Like(i: nat, row: PostLike)
      requires Valid() && i < |posts| && row.postId == posts[i].id && row !in likes
      modifies this
      ensures Valid()
      ensures State() == old(State()).(likes := old(likes) + [row],
                                       posts := old(posts)[i := old(posts)[i].(likes := old(posts)[i].likes + 1)])
    {
      PostLaws.LikeOk(State(), checks, i, row);
      likes := likes + [row];
      posts := posts[i := posts[i].(likes := posts[i].likes + 1)];
    }

    /** `POST /posts/:id/like`: look for the caller's row, then delete it and decrement,
        or insert one and increment. */
    method ToggleLike(userId: int, postId: int) returns (out: Outcome<bool>)
      requires Valid()
      modifies this
      ensures Valid()
      ensures var r := Posts.ToggleLike(old(State()), postId, userId);
              State() == r.db && out == r.out
      ensures out.Success? ==> (out.value <==> PostLike(postId, userId) in likes)
    {
      var found := FindPost(posts, postId);
      if found.None? {
        return Failure(404, Posts.MsgPostNotFound);
      }
      var existing := FindLike(likes, postId, userId);
      if existing.Some? {
        PostLaws.ToggleRemoves(State(), found.value, existing.value, postId, userId);
        NoDupRemoveAt(likes, existing.value);
        Unlike(found.value, existing.value);
        out := Success(200, false);
      } else {
        PostLaws.ToggleAdds(State(), found.value, postId, userId);
        Like(found.value, PostLike(postId, userId));
        out := Success(200, true);
      }
    }

    /** `POST /posts/:id/comments`. */
    method AddComment(userId: int, postId: int, content: Input) returns (out: Outcome<Comment>)
      requires Valid()
      modifies this
      ensures Valid()
      ensures var r := Posts.AddComment(old(State()), userId, postId, content);
              State() == r.db && out == r.out
    {
      ghost var before := State();
      ghost var r := Posts.AddComment(before, userId, postId, content);
      var blank := ContentMissing(content);
      if blank {
        assert r == Step(before, Failure(400, Posts.MsgCommentRequired));
        return Failure(400, Posts.MsgCommentRequired);
      }
      var found := FindPost(posts, postId);
      if found.None? {
        assert r == Step(before, Failure(404, Posts.MsgPostNotFound));
        return Failure(404, Posts.MsgPostNotFound);
      }
      var user := FindUser(users, userId);
      if user.None? {
        assert r == Step(before, Failure(500, Posts.MsgServerError));
        return Failure(500, Posts.MsgServerError);
      }
      var c := Comment(nextCommentId, postId, userId, user.value.username, content.s, clock);
      assert posts[found.value].id == postId;
      PostLaws.CommentOk(before, checks, c);
      comments := comments + [c];
      nextCommentId := nextCommentId + 1;
      clock := clock + 1;
      out := Success(201, c);
      assert r == Step(before.(comments := comments, nextCommentId := nextCommentId, clock := clock), out);
    }

    /** `POST /auth/signup`: the row is built, run through the create hook, and stored. */
    method Signup(username: Input, email: Input, password: Input) returns (out: Outcome<Auth.AuthReply>)
      requires Valid()
      modifies this
      ensures Valid()
      ensures var r := Auth.Signup(old(State()), checks, crypto, username, email, password);
              State() == r.db && out == r.out
    {
      ghost var before := State();
      Auth.SignupPreservesInv(before, checks, crypto, username, email, password);
      if !username.Truthy() || !email.Truthy() || !password.Truthy() {
        return Failure(400, Auth.MsgAllFieldsRequired);
      }
      if |password.s| < Auth.MinPasswordLength {
        return Failure(400, Auth.MsgPasswordTooShort);
      }
      if Auth.Taken(users, username.s, email.s) {
        return Failure(400, Auth.MsgUserExists);
      }
      if !ValidUserFields(checks, username.s, email.s, password.s) {
        return Failure(400, Auth.MsgInvalidInput);
      }
      var row := new UserInstance(User(nextUserId, username.s, email.s, password.s));
      row.BeforeCreate(crypto);
      var u := row.dataValues;
      users := users + [u];
      nextUserId := nextUserId + 1;
      out := Success(201, Auth.AuthReply(Auth.MsgSignupOk, Auth.Token(u.id, Auth.TokenLifetime), Auth.PublicUser(u)));
    }

    /** `POST /auth/login`: the user's instance checks the password. Changes nothing. */
    method Login(email: Input, password: Input) returns (out: Outcome<Auth.AuthReply>)
      ensures out == Auth.Login(State(), crypto, email, password)
    {
      if !email.Truthy() || !password.Truthy() {
        return Failure(400, Auth.MsgCredentialsRequired);
      }
      var found := Auth.FindByEmail(users, email.s);
      if found.None? {
        return Failure(401, Auth.MsgBadCredentials);
      }
      var row := new UserInstance(found.value);
      var ok := row.ValidatePassword(crypto, password.s);
      if !ok {
        return Failure(401, Auth.MsgBadCredentials);
      }
      var u := found.value;
      out := Success(200, Auth.AuthReply(Auth.MsgLoginOk, Auth.Token(u.id, Auth.TokenLifetime), Auth.PublicUser(u)));
    }
  }
}
