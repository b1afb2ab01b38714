/**
 * The JWTAuth request interceptor of internal/middleware/jwt.go, as a decision
 * on the Authorization header: answer 401 or hand the request, untouched, to
 * the next handler.
 *
 * It reads the header differently from ExtractBearerToken: it splits on every
 * space, wants exactly two pieces, and never looks at the first one.
 */
module Middleware {
  import opened Wrappers
  import opened Text
  import opened Config
  import opened Token
  import Http

  /** What JWTAuth does with a request: call `next` with it, or answer with an error. */
  datatype Decision<R> = Next(request: R) | Reject(status: nat, message: string)

  /** JWTAuth: header present, exactly two space-separated pieces, second piece verified. */
  function JWTAuth<R>(cfg: Option<Config>, now: nat, authorization: string, request: R): (d: Decision<R>)
    ensures d.Reject? ==> d.status == Http.StatusUnauthorized
    ensures d.Next? ==> d.request == request
    ensures authorization == "" ==> d == Reject(Http.StatusUnauthorized, "Authorization header is required")
    ensures authorization != "" && Count(authorization, ' ') != 1 ==>
      d == Reject(Http.StatusUnauthorized, "Invalid token format")
    ensures (Count(authorization, ' ') == 1 && ' ' in authorization
             && VerifyToken(cfg, SplitFirst(authorization, ' ')[1], now) != Success(true)) ==>
      d == Reject(Http.StatusUnauthorized, "Invalid or expired token")
    ensures d.Next? <==>
      (Count(authorization, ' ') == 1 && ' ' in authorization
       && VerifyToken(cfg, SplitFirst(authorization, ' ')[1], now) == Success(true))
  {
    if authorization == "" then Reject(Http.StatusUnauthorized, "Authorization header is required")
    else
      var bearerToken := Split(authorization, ' ');
      if |bearerToken| != 2 then Reject(Http.StatusUnauthorized, "Invalid token format")
      else
        SplitOneSeparator(authorization, ' ');
        match VerifyToken(cfg, bearerToken[1], now)
        case Success(true) => Next(request)
        case _ => Reject(Http.StatusUnauthorized, "Invalid or expired token")
  }

  /** The scheme word is never checked: any word, even an empty one, in front of a valid token passes. */
  lemma SchemeNeverChecked<R>(cfg: Option<Config>, now: nat, scheme: string, token: string, request: R)
    requires ' ' !in scheme && ' ' !in token
    requires VerifyToken(cfg, token, now) == Success(true)
    ensures JWTAuth(cfg, now, scheme + " " + token, request) == Next(request)
  {
    var h := scheme + " " + token;
    CountAppend(scheme, " " + token, ' ');
    CountAppend(" ", token, ' ');
    CountZero(scheme, ' ');
    CountZero(token, ' ');
    assert h[..|scheme|] == scheme && h[|scheme|] == ' ';
    assert IndexOf(h, ' ') == Some(|scheme|);
    assert h[|scheme| + 1..] == token;
  }

  /** A header with two or more spaces is always refused, whatever follows the scheme. */
  lemma ExtraSpacesRefused<R>(cfg: Option<Config>, now: nat, authorization: string, request: R)
    requires Count(authorization, ' ') >= 2
    ensures JWTAuth(cfg, now, authorization, request) == Reject(Http.StatusUnauthorized, "Invalid token format")
  {
    CountZero(authorization, ' ');
  }

  /**
   * The two readings of the header disagree: with a Bearer scheme and a
   * credential that itself holds a space, ExtractBearerToken accepts what
   * JWTAuth refuses.
   */
  lemma ReadersDisagreeOnSpaces<R>(cfg: Option<Config>, now: nat, scheme: string, credential: string, request: R)
    requires ' ' !in scheme && IsBearer(scheme) && ' ' in credential
    ensures ExtractBearerToken(scheme + " " + credential) == Success(credential)
    ensures JWTAuth(cfg, now, scheme + " " + credential, request).Reject?
  {
    ExtractComposed(scheme, credential);
    var h := scheme + " " + credential;
    assert h == scheme + (" " + credential);
    assert Count(" ", ' ') == 1;
    CountAppend(scheme, " " + credential, ' ');
    CountAppend(" ", credential, ' ');
    CountZero(scheme, ' ');
    CountZero(credential, ' ');
    ExtraSpacesRefused(cfg, now, h, request);
  }

  /** And with another scheme word JWTAuth forwards what ExtractBearerToken refuses. */
  lemma ReadersDisagreeOnScheme<R>(cfg: Option<Config>, now: nat, scheme: string, token: string, request: R)
    requires ' ' !in scheme && !IsBearer(scheme) && ' ' !in token
    requires VerifyToken(cfg, token, now) == Success(true)
    ensures JWTAuth(cfg, now, scheme + " " + token, request) == Next(request)
    ensures ExtractBearerToken(scheme + " " + token) == Failure(HeaderFormat)
  {
    SchemeNeverChecked(cfg, now, scheme, token, request);
    ExtractOtherScheme(scheme, token);
  }

  /**
   * Where both readers accept a header, they read the same token: a request
   * JWTAuth forwards is re-read by the handler as the very token JWTAuth verified.
   */
  lemma ReadersAgreeWhenBothAccept<R>(cfg: Option<Config>, now: nat, authorization: string, request: R)
    requires JWTAuth(cfg, now, authorization, request).Next?
    requires ExtractBearerToken(authorization).Success?
    ensures |Split(authorization, ' ')| == 2
    ensures ExtractBearerToken(authorization).value == Split(authorization, ' ')[1]
    ensures VerifyToken(cfg, ExtractBearerToken(authorization).value, now) == Success(true)
  {
    var token := ExtractBearerToken(authorization).value;
    var scheme :| ' ' !in scheme && IsBearer(scheme) && authorization == scheme + " " + token;
    assert authorization == scheme + [' '] + token;
    SplitAfterFirst(scheme, token, ' ');
    JoinSplit(token, ' ');
    SplitOneSeparator(authorization, ' ');
  }

  /** The double-space header "Bearer  x" and the three-piece header "Bearer a b" in concrete form. */
  lemma DisagreementExamples<R>(cfg: Option<Config>, now: nat, request: R)
    ensures ExtractBearerToken("Bearer  x") == Success(" x")
    ensures JWTAuth(cfg, now, "Bearer  x", request).Reject?
    ensures ExtractBearerToken("Bearer a b") == Success("a b")
    ensures JWTAuth(cfg, now, "Bearer a b", request).Reject?
  {
    assert Lower("Bearer") == "bearer";
    assert "Bearer  x" == "Bearer" + " " + " x";
    assert "Bearer a b" == "Bearer" + " " + "a b";
    assert " x"[0] == ' ';
    assert "a b"[1] == ' ';
    ReadersDisagreeOnSpaces(cfg, now, "Bearer", " x", request);
    ReadersDisagreeOnSpaces(cfg, now, "Bearer", "a b", request);
  }
}
