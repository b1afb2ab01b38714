/**
 * The token service of pkg/utils/token.go: reading the bearer credential out
 * of an Authorization header (section 2.1 of RFC 6750, the scheme name matched
 * without regard to case as section 2.1 of RFC 7235 asks), and issuing,
 * verifying and reading 24-hour tokens signed with the configured secret.
 *
 * Every function takes the configuration currently installed (`cfg`, what
 * getConfig returns) and the clock (`now`, seconds since the Unix epoch).
 */
module Token {
  import opened Wrappers
  import opened Text
  import opened Config
  import opened Jwt

  /** Tokens live 24 hours. */
  const TokenLifetime: nat := 24 * 60 * 60

  datatype TokenError =
    | HeaderMissing
    | HeaderFormat
    | ConfigNotSet
    | SecretNotSet
    | EmptyToken
    | ParseFailed(cause: ParseError)
    | ErrorParsingToken(cause: ParseError)
    | UserIdNotFound
  {
    /** The text of the Go error value. */
    function Message(): string
    {
      match this
      case HeaderMissing => "Authorization header missing"
      case HeaderFormat => "Authorization header format must be Bearer {token}"
      case ConfigNotSet => "configuration not set"
      case SecretNotSet => "JWTSecret is not set in configuration"
      case EmptyToken => "empty token string"
      case ParseFailed(cause) => LibraryMessage(cause)
      case ErrorParsingToken(cause) => "error parsing token: " + LibraryMessage(cause)
      case UserIdNotFound => "user ID not found in token"
    }
  }

  /** The text of the JWT library's error for each reason Parse rejects a token. */
  function LibraryMessage(e: ParseError): string
  {
    match e
    case Malformed => "token contains an invalid number of segments"
    case Expired => "Token is expired"
    case SignatureInvalid => "signature is invalid"
  }

  /** The signing secret, or the error every token function reports first. */
  function Secret(cfg: Option<Config>): (r: Result<string, TokenError>)
    ensures r.Success? <==> Usable(cfg)
    ensures r.Success? ==> r.value == cfg.value.jwtSecret
    ensures cfg.None? ==> r == Failure(ConfigNotSet)
    ensures cfg.Some? && cfg.value.jwtSecret == "" ==> r == Failure(SecretNotSet)
  {
    if cfg.None? then Failure(ConfigNotSet)
    else if cfg.value.jwtSecret == "" then Failure(SecretNotSet)
    else Success(cfg.value.jwtSecret)
  }

  /** True when `scheme` names the Bearer scheme, in any letter case. */
  predicate IsBearer(scheme: string)
  {
    Lower(scheme) == "bearer"
  }

  /**
   * ExtractBearerToken: the credential is everything after the first space of
   * the header, provided the word before it is "bearer" in some letter case.
   */
  function ExtractBearerToken(authHeader: string): (r: Result<string, TokenError>)
    ensures authHeader == "" ==> r == Failure(HeaderMissing)
    ensures authHeader != "" && r.Failure? ==> r.error == HeaderFormat
    ensures ' ' !in authHeader ==> r.Failure?
    ensures r.Success? ==>
      exists scheme :: ' ' !in scheme && IsBearer(scheme) && authHeader == scheme + " " + r.value
  {
    if authHeader == "" then Failure(HeaderMissing)
    else
      var parts := SplitFirst(authHeader, ' ');
      if |parts| != 2 || Lower(parts[0]) != "bearer" then Failure(HeaderFormat)
      else
        assert authHeader == parts[0] + " " + parts[1];
        Success(parts[1])
  }

  /** Every header made of a Bearer scheme word, one space and a credential yields exactly that credential. */
  lemma ExtractComposed(scheme: string, credential: string)
    requires ' ' !in scheme && IsBearer(scheme)
    ensures ExtractBearerToken(scheme + " " + credential) == Success(credential)
  {
    var h := scheme + " " + credential;
    assert h[..|scheme|] == scheme && h[|scheme|] == ' ';
    assert IndexOf(h, ' ') == Some(|scheme|);
    assert h[|scheme| + 1..] == credential;
  }

  /** Any other scheme word is refused. */
  lemma ExtractOtherScheme(scheme: string, credential: string)
    requires ' ' !in scheme && !IsBearer(scheme)
    ensures ExtractBearerToken(scheme + " " + credential) == Failure(HeaderFormat)
  {
    var h := scheme + " " + credential;
    assert h[..|scheme|] == scheme && h[|scheme|] == ' ';
    assert IndexOf(h, ' ') == Some(|scheme|);
  }

  /** GenerateToken: a token carrying `user_id` and an `exp` 24 hours after `now`, signed with the secret. */
  function GenerateToken(cfg: Option<Config>, userId: nat, now: nat): (r: Result<string, TokenError>)
    ensures Secret(cfg).Failure? ==> r == Failure(Secret(cfg).error)
    ensures r.Success? <==> Usable(cfg)
    ensures r.Success? ==>
      Decode(r.value) == Some(Sign(cfg.value.jwtSecret, Number(userId), Number(now + TokenLifetime)))
    ensures r.Success? ==> r.value != "" && ' ' !in r.value
  {
    match Secret(cfg)
    case Failure(e) => Failure(e)
    case Success(secret) =>
      var t := Sign(secret, Number(userId), Number(now + TokenLifetime));
      DecodeEncode(t);
      Success(Encode(t))
  }

  /** VerifyToken: configuration first, then the empty string, then the library's Parse, whose error it wraps. */
  function VerifyToken(cfg: Option<Config>, token: string, now: nat): (r: Result<bool, TokenError>)
    ensures Secret(cfg).Failure? ==> r == Failure(Secret(cfg).error)
    ensures Usable(cfg) && token == "" ==> r == Failure(EmptyToken)
    ensures Usable(cfg) && token != "" && Parse(cfg.value.jwtSecret, token, now).Failure? ==>
      r == Failure(ErrorParsingToken(Parse(cfg.value.jwtSecret, token, now).error))
    ensures r.Success? ==> r.value
    ensures r.Success? <==> Usable(cfg) && token != "" && Parse(cfg.value.jwtSecret, token, now).Success?
  {
    match Secret(cfg)
    case Failure(e) => Failure(e)
    case Success(secret) =>
      if token == "" then Failure(EmptyToken)
      else
        match Parse(secret, token, now)
        case Failure(e) => Failure(ErrorParsingToken(e))
        case Success(_) => Success(true)
  }

  /** GetUserIDFromToken: configuration first, then the library's Parse, then the `user_id` claim. */
  function GetUserIDFromToken(cfg: Option<Config>, token: string, now: nat): (r: Result<nat, TokenError>)
    ensures Secret(cfg).Failure? ==> r == Failure(Secret(cfg).error)
    ensures Usable(cfg) && Parse(cfg.value.jwtSecret, token, now).Failure? ==>
      r == Failure(ParseFailed(Parse(cfg.value.jwtSecret, token, now).error))
    ensures r.Success? <==>
      (Usable(cfg) && Parse(cfg.value.jwtSecret, token, now).Success?
       && Parse(cfg.value.jwtSecret, token, now).value.userId.Number?)
    ensures r.Success? ==> Parse(cfg.value.jwtSecret, token, now).value.userId == Number(r.value)
    ensures r == Failure(UserIdNotFound) <==>
      (Usable(cfg) && Parse(cfg.value.jwtSecret, token, now).Success?
       && !Parse(cfg.value.jwtSecret, token, now).value.userId.Number?)
  {
    match Secret(cfg)
    case Failure(e) => Failure(e)
    case Success(secret) =>
      match Parse(secret, token, now)
      case Failure(e) => Failure(ParseFailed(e))
      case Success(t) =>
        if t.userId.Number? then Success(t.userId.value) else Failure(UserIdNotFound)
  }

  /** The empty string is never a token: both readers reject it once the configuration is usable. */
  lemma EmptyTokenRejected(cfg: Option<Config>, now: nat)
    requires Usable(cfg)
    ensures VerifyToken(cfg, "", now) == Failure(EmptyToken)
    ensures GetUserIDFromToken(cfg, "", now) == Failure(ParseFailed(Malformed))
  {
    assert Split("", '.') == [""];
  }

  /** Round trip: before its expiry a freshly issued token verifies and gives back the user id. */
  lemma IssuedTokenAccepted(cfg: Option<Config>, userId: nat, issuedAt: nat, now: nat)
    requires Usable(cfg) && now < issuedAt + TokenLifetime
    ensures VerifyToken(cfg, GenerateToken(cfg, userId, issuedAt).value, now) == Success(true)
    ensures GetUserIDFromToken(cfg, GenerateToken(cfg, userId, issuedAt).value, now) == Success(userId)
  {
    ParseSigned(cfg.value.jwtSecret, Number(userId), Number(issuedAt + TokenLifetime), now);
  }

  /** After its expiry the same token is rejected by both readers. */
  lemma IssuedTokenExpires(cfg: Option<Config>, userId: nat, issuedAt: nat, now: nat)
    requires Usable(cfg) && now > issuedAt + TokenLifetime
    ensures VerifyToken(cfg, GenerateToken(cfg, userId, issuedAt).value, now) == Failure(ErrorParsingToken(Expired))
    ensures GetUserIDFromToken(cfg, GenerateToken(cfg, userId, issuedAt).value, now) == Failure(ParseFailed(Expired))
  {
    var secret := cfg.value.jwtSecret;
    ParseAfterExpiry(secret, Number(userId), issuedAt + TokenLifetime, now);
  }

  /**
   * A token issued under one secret is rejected by a service configured with
   * another, for its signature, at any time: past its expiry too.
   */
  lemma IssuedTokenForeignSecret(cfg: Option<Config>, other: Option<Config>, userId: nat, issuedAt: nat, now: nat)
    requires Usable(cfg) && Usable(other) && other.value.jwtSecret != cfg.value.jwtSecret
    ensures VerifyToken(other, GenerateToken(cfg, userId, issuedAt).value, now) == Failure(ErrorParsingToken(SignatureInvalid))
    ensures GetUserIDFromToken(other, GenerateToken(cfg, userId, issuedAt).value, now) == Failure(ParseFailed(SignatureInvalid))
  {
    ParseOtherSecret(cfg.value.jwtSecret, other.value.jwtSecret, Number(userId), Number(issuedAt + TokenLifetime), now);
  }

  /**
   * A correctly signed live token whose `user_id` claim is missing or not a
   * number passes VerifyToken but not GetUserIDFromToken.
   */
  lemma MissingUserIdClaim(cfg: Option<Config>, userId: Claim, exp: Claim, now: nat)
    requires Usable(cfg) && Canonical(userId) && Canonical(exp) && Live(exp, now) && !userId.Number?
    ensures VerifyToken(cfg, Encode(Sign(cfg.value.jwtSecret, userId, exp)), now) == Success(true)
    ensures GetUserIDFromToken(cfg, Encode(Sign(cfg.value.jwtSecret, userId, exp)), now) == Failure(UserIdNotFound)
  {
    ParseSigned(cfg.value.jwtSecret, userId, exp, now);
    DecodeEncode(Sign(cfg.value.jwtSecret, userId, exp));
  }
}
