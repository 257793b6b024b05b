# community-site: the post store, accounts, token middlewares and browser client in Dafny

This project models the core of a small community board (NazarethCampos/community-site).
It covers:

- the relational backend's post, comment and like store (`src/routes/posts.js` over the
  Sequelize models in `src/models/`);
- its signup and login routes (`src/routes/auth.js`);
- the two `Authorization` middlewares (`src/middleware/auth.js` for the JWT backend,
  `server/middleware/auth.js` for the Firebase backend);
- the browser client's logic in `public/static/app.js`: hash routing and page dispatch,
  the session in `localStorage` and the default header, the like-count update, the
  comment check, `formatDate` and `escapeHtml`.

Layout:

| file | module | what |
|---|---|---|
| common.dfy | `Common` | `Option`, the JavaScript view of a request field (`Input`: undefined, null or a string, with truthiness and `x \|\| d`), and a handler's `Outcome` |
| text.dfy | `Text` | JavaScript `trim`, `split` (first, second piece), decimal printing and `parseInt` |
| escape.dfy | `HtmlEscape` | `escapeHtml` and its inverse |
| models.dfy | `Models` | the four records, their validators, the User instance with its password hooks, `toJSON` and `validatePassword` |
| tables.dfy | `Tables` | the database value `Db`, table lookups, cascade filters, like counting and the database invariant `Inv` |
| posts.dfy | `Posts` | each post route as a step function `Db -> (Db, response)` with its full contract |
| post_laws.dfy | `PostLaws` | every post route keeps `Inv`; two toggles undo each other |
| auth.dfy | `Auth` | signup and login as step functions; signup then login succeeds |
| store.dfy | `Backend` | the class `Store`, whose fields are the tables and whose methods run each route step by step; each method keeps `Inv` and ends in the state its step function gives |
| requests.dfy | `Requests` | any sequence of writing requests from an empty database keeps the invariant (counters equal ledger rows, never negative) |
| jwt_auth.dfy | `JwtAuth` | `authenticate`: header parsing, the mapping of verifier outcomes to 401/500, and the request object it writes |
| firebase_auth.dfy | `FirebaseAuth` | `verifyToken` and `optionalAuth` |
| client.dfy | `Client` | routing, dispatch, the `Session` class, the like-count text, the comment check and `formatDate` |

The database invariant (`Tables.Inv`) says:

- user ids are below the next id and usernames and emails are unique, with usernames
  of 3 to 50 characters and emails accepted by `isEmail`;
- post ids and creation times strictly increase along the table and every post passes
  the Post validators;
- each post's `likes` equals the number of its rows in the like ledger;
- the ledger has no duplicate pair and no row for a missing post;
- every comment is non-empty and belongs to an existing post.

External services are parameters:

- bcrypt `hash` and `compare` form `Models.Crypto`;
- the `isUrl` and `isEmail` validators form `Models.Validators`;
- `jwt.verify` is a function from token to outcome;
- Firebase `verifyIdToken` is an optional function, absent when the SDK is not initialised;
- in `formatDate`, the time difference and the `toLocaleDateString` text are arguments.

`createdAt` is a store counter that ticks on every post and comment insert.

## Model

| member | source | states |
|---|---|---|
| Common.Input.Or | src/routes/posts.js:89-96 | `x \|\| fallback`: the value when it is a non-empty string, the fallback otherwise |
| Text.Trim | src/routes/posts.js:227 | `trim` removes leading and trailing white space: the result is empty exactly when the text is all white space, and otherwise starts and ends with a non-space character |
| Text.TrimIsInfix | src/routes/posts.js:227 | the trimmed text sits inside the original with only white space before and after it |
| Text.TrimIdempotent | public/static/app.js:389 | trimming a trimmed text changes nothing |
| Text.SplitJoin | src/middleware/auth.js:11 | `split` loses nothing: joining the pieces with the separator gives back the text |
| Text.SplitNoOccurrence | src/middleware/auth.js:11 | a text without the separator splits into itself alone |
| Text.SplitFirstOccurrence | src/middleware/auth.js:11 | the first piece is the text before the first separator; the rest is split again |
| Text.ParseShowInt | public/static/app.js:376-379 | `Text.ParseInt` (`parseInt`) reads back every integer printed in decimal by `Text.ShowInt`, negative ones included |
| HtmlEscape.EscapeHtml | public/static/app.js:439-448 | no `<`, `>`, `"` or `'` in the output; the output is never shorter, and is the same length exactly when no one of the five characters occurs |
| HtmlEscape.UnescapeEscape | public/static/app.js:440-447 | decoding the five entities gives back the original text, so every other character is kept and the escape loses nothing |
| HtmlEscape.EscapeInjective | public/static/app.js:439-448 | two different texts never escape to the same output |
| HtmlEscape.EscapeIdentity | public/static/app.js:439-448 | a text without any of the five characters is unchanged |
| Models.HashedOnCreate | src/models/user.js:64-68 | the stored password after the create hook is the hash of a present password |
| Models.UserInstance.constructor | src/models/user.js:35-58 | an instance holding the given values with no pending password change |
| Models.UserInstance.SetPassword | src/models/user.js:70 | assigning the password raises the change flag exactly when the value differs |
| Models.UserInstance.BeforeCreate | src/models/user.js:64-68 | the create hook replaces a present password with its hash and touches nothing else |
| Models.UserInstance.BeforeUpdate | src/models/user.js:69-73 | the update hook re-hashes only a changed password; otherwise the row stays exactly as it is |
| Models.UserInstance.ValidatePassword | src/models/user.js:23-25 | true exactly when bcrypt's compare of the plaintext and the stored digest holds |
| Models.UserInstance.ToJson | src/models/user.js:28-32 | `toJSON` keeps every attribute with its value except `password` |
| Tables.FindPost | src/routes/posts.js:123 | `findByPk`: the index of the row with that id, or none when no row has it |
| Tables.FindUser | src/routes/posts.js:82 | `findByPk` on users: a row with that id, or none when no user has it |
| Tables.FindLike | src/routes/posts.js:191-193 | `findOne` on the ledger: the first row for the pair, or none when the pair is absent |
| Tables.LikesWithout | src/models/post.js:16-20 | the delete cascade on the ledger keeps exactly the rows of other posts |
| Tables.CommentsWithout | src/models/post.js:11-15 | the delete cascade on comments keeps exactly the comments of other posts |
| Tables.LikeCountWithout | src/models/post.js:16-20 | the cascade leaves every other post's like count unchanged |
| Tables.LikeCountOfDropped | src/models/post.js:16-20 | after the cascade the deleted post has no ledger row left |
| Tables.NoDupRemoveAt | src/models/postlike.js:18-27 | destroying one row of a duplicate-free ledger keeps it duplicate-free and removes that pair |
| Tables.EmptyInv | src/models/postlike.js:18-27 | initial state: the tables of the schema definitions, all empty (no seeding code exists), satisfy the invariant |
| Posts.InCategory | src/routes/posts.js:10-11 | the category filter keeps exactly the posts of that category |
| Posts.InCategoryAscending | src/routes/posts.js:10-15 | filtering a table kept in creation order keeps the rows in creation order, so reversing it lists them newest first |
| Posts.NewestFirst | src/routes/posts.js:13-23 | one row per post, in reverse table order, each joined with its author's id and username |
| Posts.ListPostsSpec | src/routes/posts.js:8-30 | `Posts.ListPosts` shows exactly the posts of the category (all posts when the category is missing or empty), each with its author, newest first |
| Posts.CommentsFor | src/routes/posts.js:44-55 | the included comments are exactly the comments of that post |
| Posts.JoinUsers | src/routes/posts.js:48-54 | each comment is joined with its writer's id and username |
| Posts.GetPost | src/routes/posts.js:33-68 | 404 exactly when no post has the id; otherwise 200 with that post, its author, and its comments: the k-th listed comment is the k-th comment of that post in table order, each joined with its user |
| Posts.CreatePost | src/routes/posts.js:71-114 | 400 for a missing title or image, then 404 for an unknown caller, each leaving the store as it was; for a known caller with both fields, the request succeeds exactly when the validators accept the new row and otherwise gives 400 `MsgInvalidInput`; a success is 201 and one new row with description `''` and category `갤러리` by default, the caller as author with their current username, and 0 likes |
| Posts.UpdatePost | src/routes/posts.js:117-150 | 404 before 403; for the author, the update succeeds exactly when the validators accept the updated row and otherwise gives 500; in that row title, image and category fall back when missing or empty, the description only when absent, and the id, author and likes are kept; failures change nothing |
| Posts.DeletePost | src/routes/posts.js:153-176 | 404 before 403; the author's delete always succeeds with 200, removing the row, and the cascade removes exactly its comments and like rows; failures change nothing |
| Posts.ToggleLike | src/routes/posts.js:179-218 | 404 with no change for a missing post; for an existing post a 200 whose `liked` is true exactly when the pair was absent |
| Posts.AddComment | src/routes/posts.js:221-256 | 400 for missing or white-space content before the post lookup, then 404; for an existing post, success exactly when the caller is a user, and 500 otherwise; a success is 201 with the content as sent and the caller's username |
| PostLaws.AppendPostOk | src/routes/posts.js:89-96 | appending a valid post with the next id, the current time and no likes keeps the invariant |
| PostLaws.CreatePreservesInv | src/routes/posts.js:89-96 | creating a post keeps the invariant |
| PostLaws.UpdatePreservesInv | src/routes/posts.js:135-140 | updating a post keeps the invariant |
| PostLaws.DeletePreservesInv | src/models/post.js:11-20 | a delete keeps the invariant, leaves no comment or like of the deleted post, and the id is gone |
| PostLaws.TogglePreservesInv | src/routes/posts.js:191-213 | a toggle keeps `likes` equal to the post's ledger rows and the ledger free of duplicates |
| PostLaws.AddCommentPreservesInv | src/routes/posts.js:241-246 | adding a comment keeps the invariant |
| PostLaws.ToggleEffect | src/routes/posts.js:195-207 | a successful toggle adds or removes exactly one copy of the caller's row, moves that post's `likes` by one in the same direction, and changes nothing else |
| PostLaws.ToggleReportsLedger | src/routes/posts.js:195-212 | after a successful toggle, `liked` is true exactly when the caller's row is in the ledger |
| PostLaws.RelikeRestoresPosts | src/routes/posts.js:195-207 | after an unlike, the next toggle appends the row again and returns the post's `likes` to its earlier value |
| PostLaws.ToggleTwice | src/routes/posts.js:191-213 | two toggles in a row restore every post and the ledger's rows: exactly when the post was not liked before, and up to row order when it was |
| Auth.PublicUserHidesPassword | src/routes/auth.js:45-49 | the reply's user object is the model's attributes without the password |
| Auth.FindByEmail | src/routes/auth.js:80 | the row with that email, or none when no user has it |
| Auth.Signup | src/routes/auth.js:7-67 | 400 in order for a missing field, a password shorter than 6, a taken email or username, and fields the validators reject, with no change; for free, long-enough fields the signup succeeds exactly when the validators accept them, with 201, exactly one new user holding the hashed password, and a 7-day token for its id with the public fields |
| Auth.Login | src/routes/auth.js:70-113 | 400 for a missing field; the same 401 for an unknown email and a wrong password; for the user found by the email, 200 exactly when bcrypt accepts the password, with a 7-day token for that user and its public fields |
| Auth.SignupPreservesInv | src/routes/auth.js:33 | signing up keeps usernames and emails unique and the invariant intact |
| Auth.SignupThenLogin | src/routes/auth.js:33-50 | right after a signup, logging in with the same email and password succeeds with the same user and a token with the same claims (user id and 7-day lifetime) |
| Backend.ContentMissing | src/routes/posts.js:227 | the comment emptiness test is true exactly for missing, empty or white-space content |
| Backend.Store.constructor | src/models/post.js:24-66 | initial state: a store holding the schema's tables, all empty, with its counters at their start values, satisfying the invariant |
| Backend.Store.List | src/routes/posts.js:8-30 | the reply is `Posts.ListPosts` of the current state, so the listed rows are exactly the posts of the category, newest first; nothing changes |
| Backend.Store.Get | src/routes/posts.js:33-68 | the reply is `Posts.GetPost` of the current state (post, author and comments as that row states), so a failure exactly when no post has the id; nothing changes |
| Backend.Store.CreatePost | src/routes/posts.js:71-114 | keeps the invariant and produces the state and response of `Posts.CreatePost` |
| Backend.Store.UpdatePost | src/routes/posts.js:117-150 | keeps the invariant and produces the state and response of `Posts.UpdatePost` |
| Backend.Store.DeletePost | src/routes/posts.js:153-176 | keeps the invariant, produces the state and response of `Posts.DeletePost`, and leaves no comment of the deleted post |
| Backend.Store.ToggleLike | src/routes/posts.js:179-218 | keeps the invariant, produces the state and response of `Posts.ToggleLike`, and reports whether the caller's row is now in the ledger |
| Backend.Store.Unlike | src/routes/posts.js:197-198 | `existingLike.destroy()` then `post.decrement('likes')`: the row leaves the ledger, that post loses one like, nothing else changes, and the invariant is kept |
| Backend.Store.Like | src/routes/posts.js:206-207 | `PostLike.create` then `post.increment('likes')`: the row is appended, that post gains one like, nothing else changes, and the invariant is kept |
| Backend.Store.AddComment | src/routes/posts.js:221-256 | keeps the invariant and produces the state and response of `Posts.AddComment` |
| Backend.Store.Signup | src/routes/auth.js:7-67 | runs the create hook on a new instance, keeps the invariant, and produces the state and response of `Auth.Signup` |
| Backend.Store.Login | src/routes/auth.js:70-113 | changes nothing and answers as `Auth.Login` |
| Requests.RunPreservesInv | src/routes/posts.js:179-218 | any sequence of signups, creates, updates, deletes, toggles and comments keeps the invariant |
| Requests.Reachable | src/routes/posts.js:195-212 | from an empty database, every post's `likes` equals its ledger rows and is never negative, the ledger has no duplicates, and no comment or like outlives its post |
| JwtAuth.Decide | src/middleware/auth.js:3-29 | 401 without a header, 401 without a second word; the handler continues exactly when the verifier decodes the token, with its `userId`; `JsonWebTokenError` gives 401 with the invalid-token message, `TokenExpiredError` 401 with the expired message, any other error 500 with the failure message |
| JwtAuth.AnySchemeWord | src/middleware/auth.js:11 | `JwtAuth.BearerToken` does not check the first word: any single word before the space is accepted as the scheme, and the rest is the token |
| JwtAuth.OneWordHeader | src/middleware/auth.js:13-15 | a header of one word has no token: 401 |
| JwtAuth.DoubleSpaceHeader | src/middleware/auth.js:11-15 | two spaces after the scheme leave an empty second field: 401 |
| JwtAuth.AuthRequest.Authenticate | src/middleware/auth.js:17-19 | answers as `Decide`; on success `req.userId` holds the decoded id, on rejection it is untouched |
| FirebaseAuth.VerifyOutcome | server/middleware/auth.js:3-22 | 401 without a token, checked before the SDK; 500 without the SDK; 401 `Invalid token` when the SDK rejects the token; the handler continues exactly when the SDK accepts it, with the decoded token as the user |
| FirebaseAuth.OptionalUser | server/middleware/auth.js:24-38 | a user is attached exactly when `verifyToken` would continue, and it is the same decoded token |
| FirebaseAuth.BearerHeaderToken | server/middleware/auth.js:5 | `FirebaseAuth.HeaderToken` gives the text after `Bearer ` when it holds no second `Bearer ` |
| FirebaseAuth.SchemeIsCaseSensitive | server/middleware/auth.js:5-9 | a header without a capital `B` carries no token and gets 401, whatever the SDK would say |
| FirebaseAuth.FirebaseRequest.VerifyToken | server/middleware/auth.js:3-22 | answers as `VerifyOutcome` and sets `req.user` only when the request continues |
| FirebaseAuth.FirebaseRequest.OptionalAuth | server/middleware/auth.js:24-38 | sets `req.user` exactly when `OptionalUser` gives one, and otherwise leaves it |
| Client.EmptyHashIsHome | public/static/app.js:33 | `Client.ParseHash` of an empty fragment is the home page with no id |
| Client.RouteOfPage | public/static/app.js:33-35 | `Client.ParseHash` of `#page` names that page with no id |
| Client.RouteOfPageAndId | public/static/app.js:33-35 | `Client.ParseHash` takes the page as the text before the first `/` and the id as the text between the first and the second |
| Client.Dispatch | public/static/app.js:41-70 | login and signup show their forms; `post` shows the post exactly when the id is non-empty, and the not-found message otherwise; `create` shows the form when signed in and redirects to login otherwise; every other page shows home |
| Client.NavigateToPost | public/static/app.js:414-416 | following a link to a post shows that post, signed in or not |
| Client.ServerReadsClientHeader | public/static/app.js:24-27 | the server middleware reads the token of the client's header back unchanged and lets a decodable token through |
| Client.Session.constructor | public/static/app.js:9-10 | no user and the page `home` before start-up |
| Client.Session.LoadUserFromStorage | public/static/app.js:20-28 | the user and the header are restored only when both a non-empty token and a user are stored |
| Client.Session.Render | public/static/app.js:41-70 | shows the dispatched view and moves an anonymous `create` visit to `#login` |
| Client.Session.Start | public/static/app.js:13-17 | a page load restores the session as `loadUserFromStorage` does (with a non-empty stored token and a stored user, the user and the `Bearer` header become current; otherwise both stay as they were), keeps both stored entries, the page `home` and the fragment, and shows the home page whatever the fragment |
| Client.Session.OnHashChange | public/static/app.js:31-38 | the page named by the new fragment (`Client.ParseHash`) becomes current and is shown with its id; the user, the header and both stored entries are kept |
| Client.Session.SignedIn | public/static/app.js:306-348 | after a login or signup the token and user are stored and kept, the header is set, and the hash goes home |
| Client.Session.Logout | public/static/app.js:405-411 | both stored entries, the user and the header are removed and the hash goes home |
| Client.Session.ToggleLikeOnPage | public/static/app.js:368-384 | nothing is sent for an anonymous visitor; a signed-in click sends the request, and on a successful reply the count element, when present, shows `Client.NextLikeText` of its text and `liked`; a failed reply leaves it as it was |
| Client.ReloadRestoresSignIn | public/static/app.js:20-28 | on sessions: after `SignedIn` with a non-empty token, a new page load on the stored entries (`Client.Session.Start`) restores the same user and `Bearer` header; with an empty token nothing is restored; after `Logout` the next page load restores no user |
| Client.LikeTextFollowsServer | public/static/app.js:374-380 | when the page showed the post's count, `Client.NextLikeText` after a successful toggle shows the count the server now stores |
| Client.CommentPayload | public/static/app.js:387-394 | a sent comment is the trimmed input |
| Client.CommentPayloadMatchesServer | public/static/app.js:389-394 | the client stops exactly the inputs the server would reject, and what it sends passes the server's check and is already trimmed |
| Client.Bucket | public/static/app.js:423-437 | under a minute `방금 전`; then floor of minutes below an hour, of hours below a day, of days below a week; then the calendar date |
| Client.BucketMonotone | public/static/app.js:426-434 | an older date never reads as more recent: the form and its number only grow with the distance |
| Client.FormatDate | public/static/app.js:423-437 | beyond a week the text is the calendar date the caller supplies |

## Left out

- Hashing and tokens: bcrypt salts and cost, and JWT signatures, secrets and the expiry
  clock, are not modelled. `hash`, `compare` and `verify` are arbitrary functions supplied
  by the caller.
- `isUrl` and `isEmail` are parameters. Their rules belong to the validator library.
- The signup route's `password.length < 6` counts UTF-16 code units, so a character
  outside the Basic Multilingual Plane counts twice there. The model counts characters
  (code points) here, which is also how the validators' `len` bounds count.
- Request fields that are JSON numbers, arrays or objects are not modelled. A field is
  missing, `null`, or a string.
- Ids are plain integers. The route parameters are strings that Sequelize converts, and
  that conversion is not modelled.
- Concurrency is not modelled. Each request runs to completion before the next starts.
  Two effects follow:
  - the toggle's separate find, insert/delete and increment/decrement steps appear atomic;
  - the signup branch for the unique-constraint error (src/routes/auth.js:61-63) cannot be
    reached.
- Tables.Inv says nothing about a stored user's password. The User model's length
  rule (6 to 100) is checked on the plaintext at signup, and the row then holds the
  digest, which the model does not constrain.
- No foreign key from a like row to its user is checked. The route never checks one, and
  users are never deleted.
- `Posts.GetPost`: the comments come in table order. The source asks for ascending
  `createdAt` inside an `include`, which Sequelize does not guarantee to apply. Since
  comments are appended with increasing times, table order is ascending time.
- `updatedAt` and `createdAt` are not modelled as timestamps. `createdAt` is a counter,
  and `updatedAt` is not modelled at all.
- The 500 branches for database failures are not modelled. The only 500 branches kept
  are the ones the modelled data can cause: update validation, a comment from an unknown
  user, and middleware errors.
- Client side:
  - DOM rendering, the HTML templates, `alert` and the axios calls are not modelled;
  - `JSON.stringify`/`JSON.parse` of the stored user are taken as exact inverses;
  - `Date` parsing and `toLocaleDateString` are not modelled, since the difference in
    milliseconds and the calendar text are arguments;
  - the page templates read `post.author_name`, `post.image_url`, `post.created_at`
    and `comment.user_name` (public/static/app.js:127-136, 163-172, 195-196), but the
    relational models have no `underscored` option, so their JSON keys are camelCase
    (`authorName`, `imageUrl`, ...). Reading the code, `escapeHtml(undefined)` then
    throws as soon as a post is listed, and the page never shows a count. So against this
    backend the premise of `Client.LikeTextFollowsServer` (the page showed the count)
    is not reached; the lemma states what the client would do if the keys matched;
  - `handleCreatePost` is not modelled: it only forwards the form to the create route;
  - `window.location.reload` after a comment is not modelled beyond
    `Client.Session.Start`, which says a fresh page load shows home.
- Text.ParseInt: leading white space, one `+` or `-` sign and a run of decimal digits
  are read, and the text after the digits is ignored. The `0x` prefix and radix
  guessing of `parseInt` are not modelled; the client only calls it on counts it wrote
  itself.
- Client.FormatDate: only the calendar branch is stated. The relative labels are the
  number of `Client.Bucket` followed by the unit, as built in the body.
- The React client (`client/src`), the Firebase Admin initialisation
  (`server/config/firebase-admin.js`), and the stub routes under `server/routes` are not
  part of this model. Only the presence or absence of the Admin `auth` handle enters, as
  an argument of `FirebaseAuth`.
