/** The browser client of the relational backend: hash routing and page dispatch, the
    session kept in `localStorage` and in the default `Authorization` header, the
    like-count update after a toggle, the comment check before sending, and the
    relative dates of `formatDate`. The DOM, `alert` and the HTTP calls are left to
    the caller; their results enter as parameters. */
module Client {
  import opened Common
  import opened Models
  import opened Tables
  import Text
  import Posts
  import PostLaws
  import JwtAuth

  // ---------------------------------------------------------------- routing

  /** `window.location.hash.slice(1) || 'home'` split at `/`: the page and the id. */
  datatype Route = Route(page: string, id: Option<string>)

  /** `hash.slice(1)`. */
  function Fragment(hash: string): string {
    if hash == [] then [] else hash[1..]
  }

  function ParseHash(hash: string): Route {
    var h := if Fragment(hash) == "" then "home" else Fragment(hash);
    var pieces := Text.Split(h, "/");
    Route(pieces[0], if |pieces| > 1 then Some(pieces[1]) else None)
  }

  predicate HasNoSlash(w: string) {
    forall i :: 0 <= i < |w| ==> w[i] != '/'
  }

  /** An empty fragment is the home page. */
  lemma EmptyHashIsHome()
    ensures ParseHash("") == Route("home", None)
    ensures ParseHash("#") == Route("home", None)
  {
    Text.NoCharBefore("home", '/', 5);
    Text.SplitNoOccurrence("home", "/");
  }

  /** `#page` names the page, with no id. */
  lemma RouteOfPage(page: string)
    requires page != "" && HasNoSlash(page)
    ensures ParseHash("#" + page) == Route(page, None)
  {
    assert Fragment("#" + page) == page;
    Text.NoCharBefore(page, '/', |page| + 1);
    Text.SplitNoOccurrence(page, "/");
  }

  /** `#page/id`, possibly followed by more `/`-separated parts: the page is the text
      before the first `/`, the id the text between the first and the second. */
  lemma RouteOfPageAndId(page: string, id: string, rest: string)
    requires HasNoSlash(page) && HasNoSlash(id)
    requires rest == "" || rest[0] == '/'
    ensures ParseHash("#" + page + "/" + id + rest) == Route(page, Some(id))
  {
    var h := page + "/" + (id + rest);
    assert "#" + page + "/" + id + rest == "#" + h;
    assert Fragment("#" + h) == h;
    Text.NoCharBefore(h, '/', |page|);
    Text.SplitFirstOccurrence(page, "/", id + rest);
    if rest == "" {
      assert id + rest == id;
      Text.NoCharBefore(id, '/', |id| + 1);
      Text.SplitNoOccurrence(id, "/");
    } else {
      var tail := rest[1..];
      assert id + rest == id + "/" + tail;
      Text.NoCharBefore(id + "/" + tail, '/', |id|);
      Text.SplitFirstOccurrence(id, "/", tail);
    }
  }

  /** What `render` puts on the screen. */
  datatype View =
    | LoginView
    | SignupView
    | PostDetailView(postId: string)
    | PostNotFoundView
    | CreateView
    | RedirectToLogin
    | HomeView

  const KnownPages: set<string> := {"login", "signup", "post", "create"}

  /** `render(id)` for the current page: the post page needs a non-empty id, the create
      page a signed-in user (otherwise the hash is sent to `login`), and every other
      page name shows the home page. */
  function Dispatch(route: Route, signedIn: bool): (v: View)
    ensures v == LoginView <==> route.page == "login"
    ensures v == SignupView <==> route.page == "signup"
    ensures v.PostDetailView? <==> route.page == "post" && route.id.Some? && route.id.value != ""
    ensures v.PostDetailView? ==> v.postId == route.id.value
    ensures v == PostNotFoundView <==> route.page == "post" && (route.id.None? || route.id.value == "")
    ensures v == CreateView <==> route.page == "create" && signedIn
    ensures v == RedirectToLogin <==> route.page == "create" && !signedIn
    ensures v == HomeView <==> route.page !in KnownPages
  {
    match route.page
    case "login" => LoginView
    case "signup" => SignupView
    case "post" => if route.id.Some? && route.id.value != "" then PostDetailView(route.id.value) else PostNotFoundView
    case "create" => if signedIn then CreateView else RedirectToLogin
    case _ => HomeView
  }

  /** `navigateToPost(id)` leads to that post's page, signed in or not. */
  lemma NavigateToPost(id: nat, signedIn: bool)
    ensures Dispatch(ParseHash("#post/" + Text.ShowInt(id)), signedIn) == PostDetailView(Text.ShowInt(id))
  {
    var s := Text.ShowInt(id);
    assert HasNoSlash(s);
    assert "#post/" + s == "#" + "post" + "/" + s + "";
    RouteOfPageAndId("post", s, "");
  }

  // ---------------------------------------------------------------- session

  /** The stored user object (written with `JSON.stringify`, read with `JSON.parse`). */
  type UserInfo = map<string, JsonValue>

  /** The default header the client sends once signed in. */
  function BearerHeader(token: string): string {
    "Bearer " + token
  }

  /** What `loadUserFromStorage` restores: the user and the header, when both the
      token (non-empty) and the user are stored. */
  function Restored(token: Option<string>, user: Option<UserInfo>): Option<(UserInfo, string)> {
    if token.Some? && token.value != "" && user.Some? then Some((user.value, BearerHeader(token.value)))
    else None
  }

  /** The header the client builds is the one the server's middleware reads: the token
      comes back out of it unchanged. */
  lemma ServerReadsClientHeader(token: string, verify: string -> JwtAuth.Verified)
    requires token != "" && JwtAuth.HasNoSpace(token)
    ensures JwtAuth.BearerToken(BearerHeader(token)) == Some(token)
    ensures verify(token).Decoded? ==> JwtAuth.Decide(Str(BearerHeader(token)), verify) == JwtAuth.Next(verify(token).userId)
  {
    JwtAuth.AnySchemeWord("Bearer", token);
    assert BearerHeader(token) == "Bearer" + " " + token;
  }

  /** The client's global state: `currentUser`, `currentPage`, the two `localStorage`
      entries, the default `Authorization` header and `window.location.hash`. */
  class Session {
    var currentUser: Option<UserInfo>
    var currentPage: string
    var storedToken: Option<string>
    var storedUser: Option<UserInfo>
    var authorization: Option<string>
    var hash: string

    /** A page load, before `DOMContentLoaded`. */
    constructor (storedToken: Option<string>, storedUser: Option<UserInfo>, hash: string)
      ensures this.storedToken == storedToken && this.storedUser == storedUser && this.hash == hash
      ensures currentUser == None && currentPage == "home" && authorization == None
    {
      this.storedToken := storedToken;
      this.storedUser := storedUser;
      this.hash := hash;
      currentUser := None;
      currentPage := "home";
      authorization := None;
    }

    method LoadUserFromStorage()
      modifies this
      ensures Restored(storedToken, storedUser).Some? ==>
                currentUser == Some(Restored(storedToken, storedUser).value.0)
                && authorization == Some(Restored(storedToken, storedUser).value.1)
      ensures Restored(storedToken, storedUser).None? ==>
                currentUser == old(currentUser) && authorization == old(authorization)
      ensures storedToken == old(storedToken) && storedUser == old(storedUser)
      ensures currentPage == old(currentPage) && hash == old(hash)
    {
      if storedToken.Some? && storedToken.value != "" && storedUser.Some? {
        currentUser := storedUser;
        authorization := Some(BearerHeader(storedToken.value));
      }
    }

    /** `render(id)`: the view of the current page; an anonymous visit to `create`
        moves the hash to `login`. */
    method Render(id: Option<string>) returns (v: View)
      modifies this
      ensures v == Dispatch(Route(currentPage, id), currentUser.Some?)
      ensures hash == (if v == RedirectToLogin then "#login" else old(hash))
      ensures currentUser == old(currentUser) && currentPage == old(currentPage)
      ensures authorization == old(authorization)
      ensures storedToken == old(storedToken) && storedUser == old(storedUser)
    {
      v := Dispatch(Route(currentPage, id), currentUser.Some?);
      if v == RedirectToLogin {
        hash := "#login";
      }
    }

    /** `DOMContentLoaded`: restore the session, then render the current page, which
        is still `home`: the first screen is the home page whatever the fragment. */
    method Start() returns (v: View)
      requires currentPage == "home"
      modifies this
      ensures v == HomeView
      ensures Restored(old(storedToken), old(storedUser)).Some? ==>
                currentUser == Some(Restored(old(storedToken), old(storedUser)).value.0)
                && authorization == Some(Restored(old(storedToken), old(storedUser)).value.1)
      ensures Restored(old(storedToken), old(storedUser)).None? ==>
                currentUser == old(currentUser) && authorization == old(authorization)
      ensures currentPage == "home" && hash == old(hash)
      ensures storedToken == old(storedToken) && storedUser == old(storedUser)
    {
      LoadUserFromStorage();
      v := Render(None);
    }

    /** The `hashchange` listener: the page named by the new fragment becomes current
        and is rendered with its id. */
    method OnHashChange() returns (v: View)
      modifies this
      ensures currentPage == ParseHash(old(hash)).page
      ensures v == Dispatch(ParseHash(old(hash)), currentUser.Some?)
      ensures currentUser == old(currentUser) && authorization == old(authorization)
      ensures storedToken == old(storedToken) && storedUser == old(storedUser)
      ensures hash == (if v == RedirectToLogin then "#login" else old(hash))
    {
      var route := ParseHash(hash);
      currentPage := route.page;
      v := Render(route.id);
    }

    /** The success path of `handleLogin` and `handleSignup`: the token and the user
        are stored, kept in memory and sent from now on, and the hash goes home. */
    method SignedIn(token: string, user: UserInfo)
      modifies this
      ensures storedToken == Some(token) && storedUser == Some(user)
      ensures currentUser == Some(user) && authorization == Some(BearerHeader(token))
      ensures hash == "#home" && currentPage == old(currentPage)
    {
      storedToken := Some(token);
      storedUser := Some(user);
      currentUser := Some(user);
      authorization := Some(BearerHeader(token));
      hash := "#home";
    }

    /** `logout`: both entries and the header are removed. */
    method Logout()
      modifies this
      ensures storedToken == None && storedUser == None
      ensures currentUser == None && authorization == None
      ensures hash == "#home" && currentPage == old(currentPage)
    {
      storedToken := None;
      storedUser := None;
      currentUser := None;
      authorization := None;
      hash := "#home";
    }

    /** `toggleLike`: nothing is sent for an anonymous visitor; otherwise the like
        request goes out, and when it succeeds and the page shows the post's count,
        that count moves by one in the direction of the reply's `liked`. `countText` is
        the text of the count element (`None` when it is not on the page) and `reply`
        the server's answer; `shown` is the element's text afterwards. */
    method ToggleLikeOnPage(countText: Option<string>, reply: Outcome<bool>) returns (sent: bool, shown: Option<string>)
      ensures sent <==> currentUser.Some?
      ensures !sent || reply.Failure? ==> shown == countText
      ensures sent && reply.Success? && countText.Some? ==> shown == Some(NextLikeText(countText.value, reply.value))
      ensures countText.None? ==> shown == None
    {
      if currentUser.None? {
        return false, countText;
      }
      sent := true;
      shown := countText;
      if reply.Success? && countText.Some? {
        shown := Some(NextLikeText(countText.value, reply.value));
      }
    }
  }

  /** A sign-in survives a reload: after `SignedIn`, a new page load built on what
      was stored restores the same user and header when the token is not empty; after
      a logout, the next page load restores nothing. */
  method ReloadRestoresSignIn(token: string, user: UserInfo, hash: string)
    returns (restored: Option<UserInfo>, header: Option<string>, afterLogout: Option<UserInfo>)
    ensures token != "" ==> restored == Some(user) && header == Some(BearerHeader(token))
    ensures token == "" ==> restored == None && header == None
    ensures afterLogout == None
  {
    var first := new Session(None, None, hash);
    first.SignedIn(token, user);
    var reload := new Session(first.storedToken, first.storedUser, first.hash);
    var _ := reload.Start();
    restored, header := reload.currentUser, reload.authorization;
    first.Logout();
    var again := new Session(first.storedToken, first.storedUser, first.hash);
    var _ := again.Start();
    afterLogout := again.currentUser;
  }


  // ---------------------------------------------------------------- likes

  /** `parseInt(text)` of the shown count, plus or minus one as `liked` says; `NaN`
      stays `NaN`. */
  function NextLikeText(text: string, liked: bool): string {
    match Text.ParseInt(text)
    case None => "NaN"
    case Some(k) => Text.ShowInt(if liked then k + 1 else k - 1)
  }

  /** When the page showed the post's count, the count it shows after a successful
      toggle is the count the server now stores. */
  lemma LikeTextFollowsServer(db: Db, postId: int, userId: int)
    ensures var r := Posts.ToggleLike(db, postId, userId);
            r.out.Success? ==>
              var i := FindPost(db.posts, postId).value;
              NextLikeText(Text.ShowInt(db.posts[i].likes), r.out.value) == Text.ShowInt(r.db.posts[i].likes)
  {
    var r := Posts.ToggleLike(db, postId, userId);
    if r.out.Success? {
      var i := FindPost(db.posts, postId).value;
      PostLaws.ToggleEffect(db, postId, userId);
      Text.ParseShowInt(db.posts[i].likes);
    }
  }

  // ---------------------------------------------------------------- comments

  /** `addComment`: the input is trimmed; an empty result is stopped with an alert
      (`None`), anything else is sent. */
  function CommentPayload(value: string): (r: Option<string>)
    ensures r.Some? ==> r.value == Text.Trim(value)
  {
    var content := Text.Trim(value);
    if content == "" then None else Some(content)
  }

  /** The client stops exactly the inputs the server's check would reject, and what it
      sends passes that check and is stored already trimmed. */
  lemma CommentPayloadMatchesServer(value: string)
    ensures CommentPayload(value).None? <==> Text.IsBlank(value)
    ensures CommentPayload(value).Some? ==>
              var t := CommentPayload(value).value;
              Str(t).Truthy() && !Text.IsBlank(t) && Text.Trim(t) == t
  {
    var t := Text.Trim(value);
    if t != "" {
      Text.TrimIdempotent(value);
      assert !Text.IsJsSpace(t[0]);
    }
  }

  // ---------------------------------------------------------------- dates

  /** The four relative forms of `formatDate` and the calendar date. */
  datatype Ago = JustNow | MinutesAgo(n: nat) | HoursAgo(n: nat) | DaysAgo(n: nat) | OnDate

  const MinuteMs: int := 60000
  const HourMs: int := 3600000
  const DayMs: int := 86400000
  const WeekMs: int := 7 * DayMs

  /** The form chosen for a distance of `diff` milliseconds from now (negative for a
      date in the future): `Math.floor` of the quotient, which Dafny's division by a
      positive divisor is. */
  function Bucket(diff: int): (r: Ago)
    ensures r == JustNow <==> diff < MinuteMs
    ensures r.MinutesAgo? <==> MinuteMs <= diff < HourMs
    ensures r.HoursAgo? <==> HourMs <= diff < DayMs
    ensures r.DaysAgo? <==> DayMs <= diff < WeekMs
    ensures r == OnDate <==> WeekMs <= diff
    ensures r.MinutesAgo? ==> 1 <= r.n < 60 && r.n * MinuteMs <= diff < (r.n + 1) * MinuteMs
    ensures r.HoursAgo? ==> 1 <= r.n < 24 && r.n * HourMs <= diff < (r.n + 1) * HourMs
    ensures r.DaysAgo? ==> 1 <= r.n < 7 && r.n * DayMs <= diff < (r.n + 1) * DayMs
  {
    var minutes := diff / MinuteMs;
    var hours := diff / HourMs;
    var days := diff / DayMs;
    if minutes < 1 then JustNow
    else if minutes < 60 then MinutesAgo(minutes)
    else if hours < 24 then HoursAgo(hours)
    else if days < 7 then DaysAgo(days)
    else OnDate
  }

  /** The order of the forms from the most recent to the oldest. */
  function Rank(a: Ago): nat {
    match a
    case JustNow => 0
    case MinutesAgo(_) => 1
    case HoursAgo(_) => 2
    case DaysAgo(_) => 3
    case OnDate => 4
  }

  /** An older date never reads as more recent: the form and its number only grow
      with the distance. */
  lemma BucketMonotone(d1: int, d2: int)
    requires d1 <= d2
    ensures Rank(Bucket(d1)) <= Rank(Bucket(d2))
    ensures Rank(Bucket(d1)) == Rank(Bucket(d2)) && (Bucket(d1).MinutesAgo? || Bucket(d1).HoursAgo? || Bucket(d1).DaysAgo?)
            ==> Bucket(d1).n <= Bucket(d2).n
  {
    var a, b := Bucket(d1), Bucket(d2);
    if a.MinutesAgo? && b.MinutesAgo? {
      assert a.n * MinuteMs <= d1 <= d2 < (b.n + 1) * MinuteMs;
    } else if a.HoursAgo? && b.HoursAgo? {
      assert a.n * HourMs <= d1 <= d2 < (b.n + 1) * HourMs;
    } else if a.DaysAgo? && b.DaysAgo? {
      assert a.n * DayMs <= d1 <= d2 < (b.n + 1) * DayMs;
    }
  }

  /** `formatDate`: the relative text, or the calendar date (`toLocaleDateString`,
      given by the caller) beyond a week. */
  function FormatDate(diff: int, calendar: string): (r: string)
    ensures Bucket(diff) == OnDate ==> r == calendar
  {
    match Bucket(diff)
    case JustNow => "방금 전"
    case MinutesAgo(n) => Text.ShowInt(n) + "분 전"
    case HoursAgo(n) => Text.ShowInt(n) + "시간 전"
    case DaysAgo(n) => Text.ShowInt(n) + "일 전"
    case OnDate => calendar
  }
}
