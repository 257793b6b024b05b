/** The relational backend's `authenticate` middleware: the token is the second
    space-separated word of the `Authorization` header, `jwt.verify` decides, and the
    caller's id is put on the request. */
module JwtAuth {
  import opened Common
  import Text

  const MsgAuthRequired: string := "인증이 필요합니다"
  const MsgTokenRequired: string := "인증 토큰이 필요합니다"
  const MsgInvalidToken: string := "유효하지 않은 토큰입니다"
  const MsgTokenExpired: string := "토큰이 만료되었습니다"
  const MsgAuthFailed: string := "인증 처리 중 오류가 발생했습니다"

  /** What `jwt.verify` does with a token under the server's secret: the decoded
      claims, or the error it throws, by name. */
  datatype Verified = Decoded(userId: int) | JsonWebTokenError | TokenExpiredError | OtherError

  /** Call the next handler with the caller's id, or answer with an error. */
  datatype Decision = Next(userId: int) | Reject(status: int, message: string)

  /** `authHeader.split(' ')[1]`. */
  function BearerToken(header: string): Option<string> {
    Text.Piece(header, " ", 1)
  }

  /** The middleware's decision: 401 without a header, 401 without a second word,
      then `jwt.verify`: its claims pass, an invalid or expired token is 401 with its
      own message, and any other error is 500. */
  function Decide(header: Input, verify: string -> Verified): (d: Decision)
    ensures !header.Truthy() ==> d == Reject(401, MsgAuthRequired)
    ensures header.Truthy() && (BearerToken(header.s).None? || BearerToken(header.s) == Some(""))
            ==> d == Reject(401, MsgTokenRequired)
    ensures d.Next? <==> header.Truthy() && BearerToken(header.s).Some? && BearerToken(header.s).value != ""
                         && verify(BearerToken(header.s).value).Decoded?
    ensures d.Next? ==> verify(BearerToken(header.s).value) == Decoded(d.userId)
    ensures header.Truthy() && BearerToken(header.s).Some? && BearerToken(header.s).value != "" ==>
              var token := BearerToken(header.s).value;
              && (verify(token) == JsonWebTokenError ==> d == Reject(401, MsgInvalidToken))
              && (verify(token) == TokenExpiredError ==> d == Reject(401, MsgTokenExpired))
              && (verify(token) == OtherError ==> d == Reject(500, MsgAuthFailed))
  {
    if !header.Truthy() then Reject(401, MsgAuthRequired)
    else match BearerToken(header.s)
      case None => Reject(401, MsgTokenRequired)
      case Some(token) =>
        if token == "" then Reject(401, MsgTokenRequired)
        else match verify(token)
          case Decoded(id) => Next(id)
          case JsonWebTokenError => Reject(401, MsgInvalidToken)
          case TokenExpiredError => Reject(401, MsgTokenExpired)
          case OtherError => Reject(500, MsgAuthFailed)
  }

  predicate HasNoSpace(w: string) {
    forall i :: 0 <= i < |w| ==> w[i] != ' '
  }

  /** The first word is never looked at: `Bearer t`, `Basic t` or any other word
      followed by one space and a token hands the token to `jwt.verify`. */
  lemma AnySchemeWord(scheme: string, token: string)
    requires HasNoSpace(scheme) && HasNoSpace(token)
    ensures BearerToken(scheme + " " + token) == Some(token)
  {
    var s := scheme + " " + token;
    Text.NoCharBefore(s, ' ', |scheme|);
    Text.SplitFirstOccurrence(scheme, " ", token);
    Text.NoCharBefore(token, ' ', |token| + 1);
    Text.SplitNoOccurrence(token, " ");
  }

  /** A header of one word (no space) has no token: 401. */
  lemma OneWordHeader(header: string, verify: string -> Verified)
    requires header != "" && HasNoSpace(header)
    ensures Decide(Str(header), verify) == Reject(401, MsgTokenRequired)
  {
    Text.NoCharBefore(header, ' ', |header| + 1);
    Text.SplitNoOccurrence(header, " ");
  }

  /** Two spaces after the scheme leave an empty second word: 401. */
  lemma DoubleSpaceHeader(scheme: string, rest: string, verify: string -> Verified)
    requires HasNoSpace(scheme)
    ensures Decide(Str(scheme + "  " + rest), verify) == Reject(401, MsgTokenRequired)
  {
    var s := scheme + "  " + rest;
    assert s == scheme + " " + (" " + rest);
    Text.NoCharBefore(s, ' ', |scheme|);
    Text.SplitFirstOccurrence(scheme, " ", " " + rest);
    Text.SplitFirstOccurrence("", " ", rest);
    assert "" + " " + rest == " " + rest;
  }

  /** The part of an Express request the middleware reads and writes. */
  class AuthRequest {
    const authorization: Input
    var userId: Option<int>

    constructor (authorization: Input)
      ensures this.authorization == authorization && userId == None
    {
      this.authorization := authorization;
      userId := None;
    }

    /** Runs the middleware: on success `req.userId` is set and `next()` is called
        (`Next`); otherwise the response is sent and the request is left alone. */
    method Authenticate(verify: string -> Verified) returns (d: Decision)
      modifies this
      ensures d == Decide(authorization, verify)
      ensures d.Next? ==> userId == Some(d.userId)
      ensures d.Reject? ==> userId == old(userId)
    {
      if !authorization.Truthy() {
        return Reject(401, MsgAuthRequired);
      }
      var token := BearerToken(authorization.s);
      if token.None? || token.value == "" {
        return Reject(401, MsgTokenRequired);
      }
      var decoded := verify(token.value);
      match decoded {
        case Decoded(id) =>
          userId := Some(id);
          d := Next(id);
        case JsonWebTokenError => d := Reject(401, MsgInvalidToken);
        case TokenExpiredError => d := Reject(401, MsgTokenExpired);
        case OtherError => d := Reject(500, MsgAuthFailed);
      }
    }
  }
}
