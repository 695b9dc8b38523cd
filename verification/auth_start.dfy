/**
 * The auth-start edge function: it checks its configuration, draws a PKCE
 * verifier and a `state`, seals them with the redirect target into a
 * short-lived session cookie, and redirects the browser to Google's
 * authorization endpoint (section 4.1.1 of RFC 6749, section 4.3 of
 * RFC 7636).
 *
 * The 64 random bytes, `crypto.randomUUID()`, `Date.now()`, SHA-256, the
 * UTF-8 encoder and the cookie codec are parameters.
 */
module AuthStart {
  import opened Wrappers
  import opened Bytes
  import opened Strings
  import opened Http
  import opened Pkce
  import opened Cookies
  import opened OAuthSession

  const DefaultScope: string := "openid email profile https://www.googleapis.com/auth/photospicker.mediaitems.readonly"
  const AuthorizationEndpoint: string := "https://accounts.google.com/o/oauth2/v2/auth"

  /** `buildCookie`'s default lifetime, in seconds: ten minutes to finish the consent screen. */
  const PendingMaxAge: nat := 600

  /** All four settings the handler needs are set and non-empty. */
  predicate Configured(env: map<string, string>)
  {
    Truthy(Lookup(env, "GOOGLE_CLIENT_ID")) && Truthy(Lookup(env, "GOOGLE_REDIRECT_URI"))
    && Truthy(Lookup(env, "SESSION_SECRET")) && Truthy(Lookup(env, "FRONTEND_URL"))
  }

  /** `GOOGLE_PHOTOS_SCOPE ?? DEFAULT_SCOPE`: only an unset variable falls back. */
  function Scope(env: map<string, string>): (s: string)
    ensures "GOOGLE_PHOTOS_SCOPE" !in env ==> s == DefaultScope
    ensures "GOOGLE_PHOTOS_SCOPE" in env ==> s == env["GOOGLE_PHOTOS_SCOPE"]
  {
    if "GOOGLE_PHOTOS_SCOPE" in env then env["GOOGLE_PHOTOS_SCOPE"] else DefaultScope
  }

  /** `searchParams.get("redirect_to") ?? FRONTEND_URL`: an empty `redirect_to` is kept. */
  function RedirectTo(env: map<string, string>, query: map<string, string>): (s: string)
    requires Configured(env)
    ensures "redirect_to" in query ==> s == query["redirect_to"]
    ensures "redirect_to" !in query ==> s == env["FRONTEND_URL"]
  {
    if "redirect_to" in query then query["redirect_to"] else env["FRONTEND_URL"]
  }

  /** The payload of the pending session: no user yet. */
  function PendingPayload(env: map<string, string>, query: map<string, string>, randomValues: seq<byte>, uuid: string, now: int): SessionPayload
    requires Configured(env)
  {
    SessionPayload(Some(uuid), Some(CodeVerifierOf(randomValues)), Some(RedirectTo(env, query)), now, None)
  }

  /** The authorization request's query, in the order the handler builds it. */
  function AuthorizationQuery(clientId: string, redirectUri: string, scope: string, state: string, challenge: string): seq<(string, string)>
  {
    [("client_id", clientId), ("redirect_uri", redirectUri), ("response_type", "code"),
     ("access_type", "offline"), ("include_granted_scopes", "true"), ("scope", scope),
     ("state", state), ("code_challenge", challenge), ("code_challenge_method", "S256"),
     ("prompt", "consent")]
  }

  /**
   * The handler: a 400 when a setting is missing, otherwise a 302 to the
   * authorization endpoint that sets the pending session cookie.
   */
  function AuthStart(
    env: map<string, string>, query: map<string, string>,
    randomValues: seq<byte>, uuid: string, now: int,
    codec: Codec, encode: string -> seq<byte>, sha256: seq<byte> -> Digest): (r: Response)
    requires |randomValues| == DefaultVerifierLength
    ensures !Configured(env) <==> r == BadRequest("Missing required environment variables.")
    ensures !Configured(env) ==> r.status == 400 && r.setCookie.None?
    ensures Configured(env) ==> r.status == 302 && r.setCookie.Some? && r.location.Some?
                                && r.location.value.AuthorizationRequest?
                                && r.location.value.endpoint == AuthorizationEndpoint
  {
    if !Configured(env) then BadRequest("Missing required environment variables.")
    else
      var payload := PendingPayload(env, query, randomValues, uuid, now);
      var verifier := CodeVerifierOf(randomValues);
      var challenge := GenerateCodeChallenge(verifier, encode, sha256);
      var cookieValue := Seal(payload, env["SESSION_SECRET"], codec);
      var params := AuthorizationQuery(env["GOOGLE_CLIENT_ID"], env["GOOGLE_REDIRECT_URI"], Scope(env), uuid, challenge);
      Response(302, Some(AuthorizationRequest(AuthorizationEndpoint, params)),
               Some(BuildCookie(cookieValue, PendingMaxAge)), map[], NoBody)
  }

  /** Every value in the query, looked up by name. */
  lemma QueryValues(clientId: string, redirectUri: string, scope: string, state: string, challenge: string)
    ensures var q := AuthorizationQuery(clientId, redirectUri, scope, state, challenge);
      && QueryValue(q, "client_id") == Some(clientId)
      && QueryValue(q, "redirect_uri") == Some(redirectUri)
      && QueryValue(q, "response_type") == Some("code")
      && QueryValue(q, "access_type") == Some("offline")
      && QueryValue(q, "include_granted_scopes") == Some("true")
      && QueryValue(q, "scope") == Some(scope)
      && QueryValue(q, "state") == Some(state)
      && QueryValue(q, "code_challenge") == Some(challenge)
      && QueryValue(q, "code_challenge_method") == Some("S256")
      && QueryValue(q, "prompt") == Some("consent")
  {
    var q := AuthorizationQuery(clientId, redirectUri, scope, state, challenge);
    QueryValueUnique(q, 0); QueryValueUnique(q, 1); QueryValueUnique(q, 2); QueryValueUnique(q, 3);
    QueryValueUnique(q, 4); QueryValueUnique(q, 5); QueryValueUnique(q, 6); QueryValueUnique(q, 7);
    QueryValueUnique(q, 8); QueryValueUnique(q, 9);
  }

  /**
   * The request asks for an authorization code with offline access and a
   * fresh consent, under an S256 challenge, for the configured client and
   * redirect URI and the configured scope, which defaults to DEFAULT_SCOPE.
   */
  lemma StartRequestParameters(
    env: map<string, string>, query: map<string, string>,
    randomValues: seq<byte>, uuid: string, now: int,
    codec: Codec, encode: string -> seq<byte>, sha256: seq<byte> -> Digest)
    requires |randomValues| == DefaultVerifierLength
    requires Configured(env)
    ensures var q := AuthStart(env, query, randomValues, uuid, now, codec, encode, sha256).location.value.query;
      && QueryValue(q, "response_type") == Some("code")
      && QueryValue(q, "access_type") == Some("offline")
      && QueryValue(q, "prompt") == Some("consent")
      && QueryValue(q, "code_challenge_method") == Some("S256")
      && QueryValue(q, "include_granted_scopes") == Some("true")
      && QueryValue(q, "client_id") == Some(env["GOOGLE_CLIENT_ID"])
      && QueryValue(q, "redirect_uri") == Some(env["GOOGLE_REDIRECT_URI"])
      && QueryValue(q, "scope") == Some(if "GOOGLE_PHOTOS_SCOPE" in env then env["GOOGLE_PHOTOS_SCOPE"] else DefaultScope)
  {
    var challenge := GenerateCodeChallenge(CodeVerifierOf(randomValues), encode, sha256);
    QueryValues(env["GOOGLE_CLIENT_ID"], env["GOOGLE_REDIRECT_URI"], Scope(env), uuid, challenge);
  }

  /**
   * The cookie binds the request: the session cookie the browser receives
   * opens, under the session secret, to a pending payload whose `state` is
   * the `state` sent to Google, whose verifier is the one the sent
   * `code_challenge` was derived from, which is a 64-character verifier of
   * unreserved characters, and whose `redirectTo` is the `redirect_to`
   * parameter or else FRONTEND_URL.
   */
  lemma StartBindsSession(
    env: map<string, string>, query: map<string, string>,
    randomValues: seq<byte>, uuid: string, now: int,
    codec: Codec, encode: string -> seq<byte>, sha256: seq<byte> -> Digest)
    requires |randomValues| == DefaultVerifierLength
    requires Configured(env)
    requires Faithful(codec)
    ensures var r := AuthStart(env, query, randomValues, uuid, now, codec, encode, sha256);
      var q := r.location.value.query;
      && SetCookieValue(r).Some?
      && var session := Open(SetCookieValue(r).value, env["SESSION_SECRET"], codec);
      && session.Some?
      && session.value.state == QueryValue(q, "state") == Some(uuid)
      && session.value.codeVerifier.Some?
      && |session.value.codeVerifier.value| == DefaultVerifierLength
      && QueryValue(q, "code_challenge") == Some(GenerateCodeChallenge(session.value.codeVerifier.value, encode, sha256))
      && session.value.redirectTo == Some(if "redirect_to" in query then query["redirect_to"] else env["FRONTEND_URL"])
      && session.value.issuedAt == now
      && session.value.googleUserId.None?
  {
    var payload := PendingPayload(env, query, randomValues, uuid, now);
    var secret := env["SESSION_SECRET"];
    var cookieValue := Seal(payload, secret, codec);
    var challenge := GenerateCodeChallenge(CodeVerifierOf(randomValues), encode, sha256);
    QueryValues(env["GOOGLE_CLIENT_ID"], env["GOOGLE_REDIRECT_URI"], Scope(env), uuid, challenge);
    SealedCookieReadBack(payload, secret, codec, PendingMaxAge);
  }

  /**
   * The cookie header is the session pair followed by Path=/, HttpOnly,
   * SameSite=None, Secure and Max-Age=600.
   */
  lemma StartCookieAttributes(
    env: map<string, string>, query: map<string, string>,
    randomValues: seq<byte>, uuid: string, now: int,
    codec: Codec, encode: string -> seq<byte>, sha256: seq<byte> -> Digest)
    requires |randomValues| == DefaultVerifierLength
    requires Configured(env)
    ensures var r := AuthStart(env, query, randomValues, uuid, now, codec, encode, sha256);
      Split(r.setCookie.value, ';')[1..] == [" Path=/", " HttpOnly", " SameSite=None", " Secure", " Max-Age=600"]
  {
    var payload := PendingPayload(env, query, randomValues, uuid, now);
    var cookieValue := Seal(payload, env["SESSION_SECRET"], codec);
    var r := AuthStart(env, query, randomValues, uuid, now, codec, encode, sha256);
    assert r.setCookie.value == BuildCookie(cookieValue, PendingMaxAge);
    SealIsCookieSafe(payload, env["SESSION_SECRET"], codec);
    BuildCookieParts(cookieValue, PendingMaxAge);
    MaxAgeText();
  }

  lemma MaxAgeText()
    ensures " Max-Age=" + NatToString(PendingMaxAge) == " Max-Age=600"
  {
    assert NatToString(6) == "6";
    assert NatToString(60) == "60";
  }
}
