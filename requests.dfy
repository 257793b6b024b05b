/** Any sequence of the writing requests of the relational backend, applied one after
    the other from a freshly synchronised database, keeps the database invariant; in
    particular no post's like counter ever goes below zero, although the toggle route
    decrements it without a check. */
module Requests {
  import opened Common
  import opened Models
  import opened Tables
  import Posts
  import PostLaws
  import Auth

  /** The routes that write to the database (the reading ones change nothing). */
  datatype Request =
    | SignupRequest(username: Input, email: Input, password: Input)
    | CreateRequest(userId: int, title: Input, description: Input, imageUrl: Input, category: Input)
    | UpdateRequest(userId: int, id: int, title: Input, description: Input, imageUrl: Input, category: Input)
    | DeleteRequest(userId: int, id: int)
    | ToggleRequest(userId: int, postId: int)
    | CommentRequest(userId: int, postId: int, content: Input)

  /** The database after one request, whatever its response. */
  function Apply(db: Db, v: Validators, c: Crypto, req: Request): Db {
    match req
    case SignupRequest(username, email, password) => Auth.Signup(db, v, c, username, email, password).db
    case CreateRequest(userId, title, description, imageUrl, category) =>
      Posts.CreatePost(db, v, userId, title, description, imageUrl, category).db
    case UpdateRequest(userId, id, title, description, imageUrl, category) =>
      Posts.UpdatePost(db, v, userId, id, title, description, imageUrl, category).db
    case DeleteRequest(userId, id) => Posts.DeletePost(db, userId, id).db
    case ToggleRequest(userId, postId) => Posts.ToggleLike(db, postId, userId).db
    case CommentRequest(userId, postId, content) => Posts.AddComment(db, userId, postId, content).db
  }

  /** The database after the requests, in order. */
  function Run(db: Db, v: Validators, c: Crypto, reqs: seq<Request>): Db
    decreases |reqs|
  {
    if reqs == [] then db else Run(Apply(db, v, c, reqs[0]), v, c, reqs[1..])
  }

  lemma ApplyPreservesInv(db: Db, v: Validators, c: Crypto, req: Request)
    requires Inv(db, v)
    ensures Inv(Apply(db, v, c, req), v)
  {
    match req
    case SignupRequest(username, email, password) =>
      Auth.SignupPreservesInv(db, v, c, username, email, password);
    case CreateRequest(userId, title, description, imageUrl, category) =>
      PostLaws.CreatePreservesInv(db, v, userId, title, description, imageUrl, category);
    case UpdateRequest(userId, id, title, description, imageUrl, category) =>
      PostLaws.UpdatePreservesInv(db, v, userId, id, title, description, imageUrl, category);
    case DeleteRequest(userId, id) => PostLaws.DeletePreservesInv(db, v, userId, id);
    case ToggleRequest(userId, postId) => PostLaws.TogglePreservesInv(db, v, postId, userId);
    case CommentRequest(userId, postId, content) => PostLaws.AddCommentPreservesInv(db, v, userId, postId, content);
  }

  lemma {:induction false} RunPreservesInv(db: Db, v: Validators, c: Crypto, reqs: seq<Request>)
    requires Inv(db, v)
    ensures Inv(Run(db, v, c, reqs), v)
    decreases |reqs|
  {
    if reqs != [] {
      ApplyPreservesInv(db, v, c, reqs[0]);
      RunPreservesInv(Apply(db, v, c, reqs[0]), v, c, reqs[1..]);
    }
  }

  /** Whatever requests arrive, every post's counter equals its number of ledger rows
      (so it is never negative), no ledger row is duplicated, and no comment or like
      row outlives its post. */
  lemma Reachable(v: Validators, c: Crypto, reqs: seq<Request>)
    ensures var db := Run(EmptyDb, v, c, reqs);
            && (forall i :: 0 <= i < |db.posts| ==> db.posts[i].likes == LikeCount(db.likes, db.posts[i].id) >= 0)
            && NoDup(db.likes)
            && (forall l :: l in db.likes ==> l.postId in PostIds(db.posts))
            && (forall cm :: cm in db.comments ==> cm.postId in PostIds(db.posts))
  {
    EmptyInv(v);
    RunPreservesInv(EmptyDb, v, c, reqs);
  }
}
