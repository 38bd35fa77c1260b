/** Token validation (`AuthService.validateToken`, libs/auth/src/auth.service.ts). */
module AuthService {
  import opened Wrappers
  import opened Http
  import opened JsString

  /** A word the group `(Bearer|Token)` matches under the `i` flag. */
  predicate IsScheme(w: string)
  {
    EqualIgnoringCase(w, "Bearer") || EqualIgnoringCase(w, "Token")
  }

  /**
   * `/^(Bearer|Token)\s+/i` can match the first `k` characters of `s`: a scheme word followed by
   * one or more white-space characters.
   */
  ghost predicate PrefixMatch(s: string, k: nat)
  {
    k <= |s| && exists j :: 0 < j < k && IsScheme(s[..j]) && forall i :: j <= i < k ==> IsWhitespace(s[i])
  }

  /** Scheme words are five or six characters long and their first letter tells them apart. */
  lemma SchemeShape(s: string, j: nat)
    requires j <= |s| && IsScheme(s[..j])
    ensures j == 6 ==> EqualIgnoringCase(s[..6], "Bearer")
    ensures j == 5 ==> EqualIgnoringCase(s[..5], "Token") && !(|s| >= 6 && EqualIgnoringCase(s[..6], "Bearer"))
    ensures j == 5 || j == 6
  {
    assert s[..j][0] == s[0];
    assert |s| >= 6 ==> s[..6][0] == s[0];
  }

  /** The length of the scheme word `s` starts with, or 0 when it starts with none. */
  function SchemeLength(s: string): (j: nat)
    ensures j <= |s|
    ensures j > 0 ==> IsScheme(s[..j])
    ensures forall j' :: 0 < j' <= |s| && IsScheme(s[..j']) ==> j' == j
  {
    if |s| >= 6 && EqualIgnoringCase(s[..6], "Bearer") then
      assert forall j' :: 0 < j' <= |s| && IsScheme(s[..j']) ==> j' == 6 by {
        forall j' | 0 < j' <= |s| && IsScheme(s[..j']) ensures j' == 6 {
          SchemeShape(s, j');
        }
      }
      6
    else if |s| >= 5 && EqualIgnoringCase(s[..5], "Token") then
      assert forall j' :: 0 < j' <= |s| && IsScheme(s[..j']) ==> j' == 5 by {
        forall j' | 0 < j' <= |s| && IsScheme(s[..j']) ensures j' == 5 {
          SchemeShape(s, j');
        }
      }
      5
    else
      assert forall j' :: 0 < j' <= |s| && IsScheme(s[..j']) ==> false by {
        forall j' | 0 < j' <= |s| && IsScheme(s[..j']) ensures false {
          SchemeShape(s, j');
        }
      }
      0
  }

  /** Every match of the pattern ends within the scheme word and the white space after it. */
  lemma MatchBound(s: string, k: nat)
    requires PrefixMatch(s, k)
    ensures SchemeLength(s) > 0 && LeadingWhitespace(s[SchemeLength(s)..]) > 0
    ensures k <= SchemeLength(s) + LeadingWhitespace(s[SchemeLength(s)..])
  {
    var j := SchemeLength(s);
    var j' :| 0 < j' < k && IsScheme(s[..j']) && forall i :: j' <= i < k ==> IsWhitespace(s[i]);
    assert j' == j;
    var rest := s[j..];
    forall i | 0 <= i < k - j
      ensures IsWhitespace(rest[i])
    {
      assert rest[i] == s[j + i];
    }
    LeadingWhitespaceIsLongest(rest, k - j);
  }

  /**
   * The length of the text the pattern removes from the start of `s`, 0 when it does not match.
   * `\s+` is greedy, so a match takes the longest such prefix.
   */
  function MatchLength(s: string): (k: nat)
    ensures k <= |s|
    ensures k > 0 ==> PrefixMatch(s, k)
    ensures forall k': nat :: PrefixMatch(s, k') ==> 0 < k' <= k
  {
    var j := SchemeLength(s);
    var w := LeadingWhitespace(s[j..]);
    assert forall k': nat :: PrefixMatch(s, k') ==> 0 < j && 0 < w && k' <= j + w by {
      forall k': nat | PrefixMatch(s, k')
        ensures 0 < j && 0 < w && k' <= j + w
      {
        MatchBound(s, k');
      }
    }
    if j == 0 || w == 0 then 0
    else
      assert PrefixMatch(s, j + w) by {
        forall i | j <= i < j + w
          ensures IsWhitespace(s[i])
        {
          assert s[i] == s[j..][i - j];
        }
      }
      j + w
  }

  /**
   * `token.replace(/^(Bearer|Token)\s+/i, "")`: remove one leading scheme word and the white space
   * after it.  A token the pattern does not match is returned unchanged; otherwise the result is
   * what follows the longest match.
   */
  function StripScheme(token: string): (clean: string)
    ensures |clean| <= |token| && clean == token[|token| - |clean|..]
    ensures (forall k: nat :: !PrefixMatch(token, k)) <==> clean == token
    ensures clean != token ==> PrefixMatch(token, |token| - |clean|)
    ensures forall k: nat :: PrefixMatch(token, k) ==> k <= |token| - |clean|
  {
    token[MatchLength(token)..]
  }

  /** A scheme word and white space in front of a token are removed, and nothing more. */
  lemma StripSchemeRemovesOnePrefix(scheme: string, space: string, rest: string)
    requires IsScheme(scheme)
    requires space != [] && forall i :: 0 <= i < |space| ==> IsWhitespace(space[i])
    requires rest == [] || !IsWhitespace(rest[0])
    ensures StripScheme(scheme + space + rest) == rest
  {
    var s := scheme + space + rest;
    var k := |scheme| + |space|;
    assert s[..|scheme|] == scheme;
    assert PrefixMatch(s, k) by {
      assert forall i :: |scheme| <= i < k ==> IsWhitespace(s[i]) by {
        forall i | |scheme| <= i < k ensures IsWhitespace(s[i]) {
          assert s[i] == space[i - |scheme|];
        }
      }
    }
    var m := MatchLength(s);
    var j' :| 0 < j' < m && IsScheme(s[..j']) && forall i :: j' <= i < m ==> IsWhitespace(s[i]);
    SchemeShape(s, j');
    SchemeShape(s, |scheme|);
    assert s[k..] == rest;
  }

  /** The exception `validateToken` throws for every failure. */
  const INVALID_ACCESS_TOKEN := HttpException(Unauthorized, "Invalid access token")

  /** `!claims.sub`: the subject claim is missing or empty. */
  predicate HasSubject(claims: Claims)
  {
    claims.sub.Some? && claims.sub.value != ""
  }

  /**
   * `validateToken(token)`.  `decode` stands for `arctic.decodeIdToken`, with `None` for a token
   * it rejects.  The decoded claims come back unchanged when they carry a subject.
   */
  function ValidateToken(token: string, decode: string -> Option<Claims>): (r: Result<Claims, HttpException>)
    ensures r.Failure? ==> r.error == INVALID_ACCESS_TOKEN
    ensures r.Success? <==> decode(StripScheme(token)).Some? && HasSubject(decode(StripScheme(token)).value)
    ensures r.Success? ==> Some(r.value) == decode(StripScheme(token))
  {
    match decode(StripScheme(token))
    case Some(claims) =>
      if HasSubject(claims) then Success(claims) else Failure(INVALID_ACCESS_TOKEN)
    case None => Failure(INVALID_ACCESS_TOKEN)
  }

  /**
   * `arctic.decodeIdToken` as the module binds it: `arctic` is an async function that loads the
   * library, not the library, so `decodeIdToken` is undefined on it and calling it throws a
   * `TypeError`.  No token decodes.
   */
  function ImportedDecode(token: string): Option<Claims>
  {
    None
  }

  /** With the decoder as imported, `validateToken` rejects every token. */
  lemma ValidateTokenRejectsAsImported(token: string)
    ensures ValidateToken(token, ImportedDecode) == Failure(INVALID_ACCESS_TOKEN)
  {
  }

  /** A validated token's claims always carry a subject. */
  lemma ValidatedClaimsHaveSubject(token: string, decode: string -> Option<Claims>)
    requires ValidateToken(token, decode).Success?
    ensures HasSubject(ValidateToken(token, decode).value)
  {
  }

  /**
   * Validating `Bearer <token>` decodes `<token>` itself: the scheme and the white space after
   * it are stripped, and nothing of the token is.
   */
  lemma PrefixedTokenValidatesBare(scheme: string, space: string, token: string, decode: string -> Option<Claims>)
    requires IsScheme(scheme)
    requires space != [] && forall i :: 0 <= i < |space| ==> IsWhitespace(space[i])
    requires token == [] || !IsWhitespace(token[0])
    ensures ValidateToken(scheme + space + token, decode) ==
      if decode(token).Some? && HasSubject(decode(token).value) then Success(decode(token).value)
      else Failure(INVALID_ACCESS_TOKEN)
  {
    StripSchemeRemovesOnePrefix(scheme, space, token);
  }
}
