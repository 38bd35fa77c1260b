/** Bearer-token authentication (`AuthGuard`, libs/auth/src/guards/auth.guard.ts). */
module AuthGuard {
  import opened Wrappers
  import opened Http
  import opened JsString
  import opened AuthService

  /** The header prefixes the guard accepts, in the order it tries them; both are case-sensitive. */
  const PREFIXES: seq<string> := ["Bearer ", "Token "]

  const MISSING_HEADER := HttpException(Unauthorized, "Missing or invalid Authorization header")
  const INVALID_OR_EXPIRED := HttpException(Unauthorized, "Invalid or expired token")

  /** `prefixes.find(prefix => header.startsWith(prefix))`. */
  function PrefixUsed(header: string): (p: Option<string>)
    ensures p.Some? ==> p.value in PREFIXES && p.value <= header
    ensures p.None? <==> forall q :: q in PREFIXES ==> !(q <= header)
  {
    if "Bearer " <= header then Some("Bearer ")
    else if "Token " <= header then Some("Token ")
    else None
  }

  /**
   * The token the guard takes from the `Authorization` header: the text after an accepted
   * prefix, trimmed.  A missing header, an empty one, or one with neither prefix is refused.
   */
  function ExtractToken(header: Option<string>): (r: Result<string, HttpException>)
    ensures r.Failure? <==> header.None? || forall q :: q in PREFIXES ==> !(q <= header.value)
    ensures r.Failure? ==> r.error == MISSING_HEADER
    ensures r.Success? && "Bearer " <= header.value ==> r.value == Trim(header.value[7..])
    ensures r.Success? && "Token " <= header.value ==> r.value == Trim(header.value[6..])
  {
    if header.None? || header.value == "" then Failure(MISSING_HEADER)
    else
      var used := PrefixUsed(header.value);
      assert "Bearer " <= header.value ==> used == Some("Bearer ");
      assert "Token " <= header.value ==> header.value[0] == 'T' && used == Some("Token ");
      match used
      case None => Failure(MISSING_HEADER)
      case Some(prefix) => Success(Trim(header.value[|prefix|..]))
  }

  /** Putting an accepted prefix in front of a token and extracting it gives the token back, trimmed. */
  lemma ExtractPrefixed(prefix: string, token: string)
    requires prefix in PREFIXES
    ensures ExtractToken(Some(prefix + token)) == Success(Trim(token))
  {
    var header := prefix + token;
    assert header[..|prefix|] == prefix;
    assert header[|prefix|..] == token;
    if prefix == "Token " {
      assert header[0] == 'T';
      assert !("Bearer " <= header);
    }
  }

  /** An extracted token neither starts nor ends with white space. */
  lemma ExtractedTokenIsTrimmed(header: Option<string>, token: string)
    requires ExtractToken(header) == Success(token)
    ensures token != [] ==> !IsWhitespace(token[0]) && !IsWhitespace(token[|token| - 1])
  {
    assert "Bearer " <= header.value || "Token " <= header.value;
  }

  /**
   * The user object the guard attaches to a request with this header, or the exception it
   * throws: the validated claims with `access_token` set to the extracted token.
   */
  function Authenticate(header: Option<string>, decode: string -> Option<Claims>): (r: Result<Claims, HttpException>)
    ensures r.Failure? ==> r.error == (if ExtractToken(header).Failure? then MISSING_HEADER else INVALID_OR_EXPIRED)
    ensures r.Success? <==> ExtractToken(header).Success? && ValidateToken(ExtractToken(header).value, decode).Success?
    ensures r.Success? ==>
      && r.value.accessToken == Some(ExtractToken(header).value)
      && r.value == ValidateToken(ExtractToken(header).value, decode).value.(accessToken := r.value.accessToken)
  {
    match ExtractToken(header)
    case Failure(e) => Failure(e)
    case Success(token) =>
      match ValidateToken(token, decode)
      case Failure(_) => Failure(INVALID_OR_EXPIRED)
      case Success(claims) => Success(claims.(accessToken := Some(token)))
  }

  /**
   * With the decoder as imported, no header authenticates: a header the guard accepts fails
   * validation and is refused as an invalid or expired token.
   */
  lemma AuthenticateRejectsAsImported(header: Option<string>)
    ensures Authenticate(header, ImportedDecode).Failure?
    ensures ExtractToken(header).Success? ==> Authenticate(header, ImportedDecode).error == INVALID_OR_EXPIRED
  {
  }

  /** An authenticated user always carries a subject and the token it was authenticated with. */
  lemma AuthenticatedUserHasSubject(header: Option<string>, decode: string -> Option<Claims>)
    requires Authenticate(header, decode).Success?
    ensures HasSubject(Authenticate(header, decode).value)
    ensures Authenticate(header, decode).value.accessToken.Some?
  {
  }

  /**
   * A header made of an accepted prefix and a token authenticates with the claims validation
   * finds for the trimmed token, and stores that trimmed token as the user's access token.
   */
  lemma AuthenticatePrefixed(prefix: string, token: string, decode: string -> Option<Claims>)
    requires prefix in PREFIXES
    ensures Authenticate(Some(prefix + token), decode) ==
      match ValidateToken(Trim(token), decode)
      case Failure(_) => Failure(INVALID_OR_EXPIRED)
      case Success(claims) => Success(claims.(accessToken := Some(Trim(token))))
  {
    ExtractPrefixed(prefix, token);
  }

  /** A token that starts with a scheme word and ends without white space is unchanged by trimming. */
  lemma SchemeTokenIsTrimmed(scheme: string, space: string, rest: string)
    requires IsScheme(scheme)
    requires rest != [] && !IsWhitespace(rest[0]) && !IsWhitespace(rest[|rest| - 1])
    ensures Trim(scheme + space + rest) == scheme + space + rest
  {
    var token := scheme + space + rest;
    assert token[0] == scheme[0] && token[|token| - 1] == rest[|rest| - 1];
    assert LowerAscii(scheme[0]) == 'b' || LowerAscii(scheme[0]) == 't';
    TrimFixesUnpadded(token);
  }

  /**
   * The guard strips its prefix and validation then strips a scheme word again: the header
   * `Bearer Token abc` authenticates with the claims of `abc` while the user keeps `Token abc`
   * as its access token.
   */
  lemma SchemeIsStrippedTwice(prefix: string, scheme: string, space: string, rest: string, decode: string -> Option<Claims>)
    requires prefix in PREFIXES && IsScheme(scheme)
    requires space != [] && forall i :: 0 <= i < |space| ==> IsWhitespace(space[i])
    requires rest != [] && !IsWhitespace(rest[0]) && !IsWhitespace(rest[|rest| - 1])
    ensures Authenticate(Some(prefix + (scheme + space + rest)), decode) ==
      if decode(rest).Some? && HasSubject(decode(rest).value)
      then Success(decode(rest).value.(accessToken := Some(scheme + space + rest)))
      else Failure(INVALID_OR_EXPIRED)
  {
    AuthenticatePrefixed(prefix, scheme + space + rest, decode);
    SchemeTokenIsTrimmed(scheme, space, rest);
    PrefixedTokenValidatesBare(scheme, space, rest, decode);
  }

  /**
   * `AuthGuard.canActivate`: on success the request's `user` becomes the authenticated user and
   * the guard returns `true`; every failure is an `UnauthorizedException` and leaves the request
   * alone.
   */
  method CanActivate(request: Request, decode: string -> Option<Claims>) returns (d: Decision)
    modifies request
    ensures d != Refuse && (d.Deny? ==> d.kind == Unauthorized)
    ensures d == Allow <==> Authenticate(old(request.authorization), decode).Success?
    ensures d == Allow ==> request.user == Some(Authenticate(old(request.authorization), decode).value)
    ensures d.Deny? ==> d == Throw(Authenticate(old(request.authorization), decode).error) && request.user == old(request.user)
    ensures request.authorization == old(request.authorization) && request.kauth == old(request.kauth)
    ensures request.originalUrl == old(request.originalUrl)
  {
    var header := request.authorization;
    if header.None? || header.value == "" || PrefixUsed(header.value).None? {
      return Throw(MISSING_HEADER);
    }
    var prefix := PrefixUsed(header.value).value;
    var token := Trim(header.value[|prefix|..]);
    var validated := ValidateToken(token, decode);
    if validated.Failure? {
      return Throw(INVALID_OR_EXPIRED);
    }
    request.user := Some(validated.value.(accessToken := Some(token)));
    return Allow;
  }
}
