/** The Firestore backend's middlewares: `verifyToken` requires an ID token after
    `Bearer ` and a configured Firebase Admin SDK; `optionalAuth` attaches the decoded
    token when it can and always continues. */
module FirebaseAuth {
  import opened Common
  import Text

  const MsgNoToken: string := "No token provided"
  const MsgNotInitialized: string := "Firebase Admin not initialized"
  const MsgInvalidToken: string := "Invalid token"

  /** The decoded ID token (`req.user`), reduced to the account's uid. */
  datatype DecodedToken = DecodedToken(uid: string)

  /** `auth.verifyIdToken`: the decoded token, or `None` when it rejects. `auth` itself
      is `None` when the Admin SDK failed to initialise. */
  type Verifier = string -> Option<DecodedToken>

  /** Call the next handler, or answer with `{ error }`. */
  datatype Decision = Next | Reject(status: int, error: string)

  const Scheme: string := "Bearer "

  /** `req.headers.authorization?.split('Bearer ')[1]`. */
  function HeaderToken(header: Input): Option<string> {
    if header.Str? then Text.Piece(header.s, Scheme, 1) else None
  }

  /** A token is present: defined and not empty. */
  predicate HasToken(header: Input) {
    HeaderToken(header).Some? && HeaderToken(header).value != ""
  }

  /** `verifyToken`: 401 without a token (checked before the SDK), 500 without the SDK,
      401 when the SDK rejects the token, otherwise `req.user` is the decoded token. */
  function VerifyOutcome(header: Input, auth: Option<Verifier>): (r: (Decision, Option<DecodedToken>))
    ensures !HasToken(header) ==> r.0 == Reject(401, MsgNoToken)
    ensures HasToken(header) && auth.None? ==> r.0 == Reject(500, MsgNotInitialized)
    ensures HasToken(header) && auth.Some? && auth.value(HeaderToken(header).value).None?
            ==> r.0 == Reject(401, MsgInvalidToken)
    ensures r.0 == Next <==> HasToken(header) && auth.Some? && auth.value(HeaderToken(header).value).Some?
    ensures r.0 == Next ==> r.1 == auth.value(HeaderToken(header).value)
    ensures r.0.Reject? ==> r.1 == None
  {
    if !HasToken(header) then (Reject(401, MsgNoToken), None)
    else if auth.None? then (Reject(500, MsgNotInitialized), None)
    else match auth.value(HeaderToken(header).value)
      case None => (Reject(401, MsgInvalidToken), None)
      case Some(decoded) => (Next, Some(decoded))
  }

  /** `optionalAuth`: the decoded token when there is a token, the SDK, and the SDK
      accepts it; nothing otherwise. The request always continues. */
  function OptionalUser(header: Input, auth: Option<Verifier>): (r: Option<DecodedToken>)
    ensures r.Some? <==> VerifyOutcome(header, auth).0 == Next
    ensures r == VerifyOutcome(header, auth).1
  {
    if HasToken(header) && auth.Some? then auth.value(HeaderToken(header).value) else None
  }

  /** The token after `Bearer ` is read as it is, when it holds no second `Bearer `. */
  lemma BearerHeaderToken(token: string)
    requires Text.NoOccurrenceBefore(token, Scheme, |token| + 1)
    ensures HeaderToken(Str(Scheme + token)) == Some(token)
  {
    Text.SplitFirstOccurrence("", Scheme, token);
    assert "" + Scheme + token == Scheme + token;
    Text.SplitNoOccurrence(token, Scheme);
  }

  /** The scheme is matched with its case and its space: a header without a capital
      `B` anywhere (`bearer t`, `Token t`) carries no token and gets 401, whatever the
      SDK would say. */
  lemma SchemeIsCaseSensitive(s: string, auth: Option<Verifier>)
    requires forall i :: 0 <= i < |s| ==> s[i] != 'B'
    ensures VerifyOutcome(Str(s), auth).0 == Reject(401, MsgNoToken)
  {
    forall k | 0 <= k < |s| + 1 && k <= |s| ensures !(Scheme <= s[k..]) {
      if k < |s| {
        assert s[k..][0] == s[k];
      }
    }
    Text.SplitNoOccurrence(s, Scheme);
  }

  /** The part of an Express request the middlewares write. */
  class FirebaseRequest {
    const authorization: Input
    var user: Option<DecodedToken>

    constructor (authorization: Input)
      ensures this.authorization == authorization && user == None
    {
      this.authorization := authorization;
      user := None;
    }

    method VerifyToken(auth: Option<Verifier>) returns (d: Decision)
      modifies this
      ensures (d, if d == Next then user else None) == VerifyOutcome(authorization, auth)
      ensures d.Reject? ==> user == old(user)
    {
      var token := HeaderToken(authorization);
      if token.None? || token.value == "" {
        return Reject(401, MsgNoToken);
      }
      if auth.None? {
        return Reject(500, MsgNotInitialized);
      }
      var decoded := auth.value(token.value);
      if decoded.None? {
        return Reject(401, MsgInvalidToken);
      }
      user := decoded;
      d := Next;
    }

    /** Always continues; `req.user` is set only when the token verifies. */
    method OptionalAuth(auth: Option<Verifier>)
      modifies this
      ensures OptionalUser(authorization, auth).Some? ==> user == OptionalUser(authorization, auth)
      ensures OptionalUser(authorization, auth).None? ==> user == old(user)
    {
      var token := HeaderToken(authorization);
      if token.Some? && token.value != "" && auth.Some? {
        var decoded := auth.value(token.value);
        if decoded.Some? {
          user := decoded;
        }
      }
    }
  }
}
