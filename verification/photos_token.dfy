/**
 * The photos-token edge function: the browser calls it with its session
 * cookie to get a fresh Google access token. The handler answers CORS
 * preflights, checks the cookie, refreshes the access token with the
 * stored refresh token (section 6 of RFC 6749) and records the new access
 * token.
 *
 * Google's token endpoint and `Date.now()` are parameters; FRONTEND_URL,
 * read once when the function loads, is `allowedOrigin`.
 */
module PhotosToken {
  import opened Wrappers
  import opened Strings
  import opened Http
  import opened Cookies
  import opened OAuthSession
  import opened TokenStore
  import AuthCallback

  // ---------------------------------------------------------------------------
  // corsHeaders
  // ---------------------------------------------------------------------------

  /**
   * The origin the response allows: the request's origin when FRONTEND_URL
   * is set and the origin begins with it, else FRONTEND_URL, else nothing.
   */
  function AllowOrigin(origin: Option<string>, allowedOrigin: Option<string>): string
  {
    if Truthy(origin) && Truthy(allowedOrigin) && StartsWith(origin.value, allowedOrigin.value) then origin.value
    else if allowedOrigin.Some? then allowedOrigin.value
    else ""
  }

  /** `corsHeaders(origin)`: the four CORS headers for a non-empty allowed origin, none otherwise. */
  function CorsHeaders(origin: Option<string>, allowedOrigin: Option<string>): (h: map<string, string>)
    ensures h == map[] <==> !Truthy(allowedOrigin)
    ensures h != map[] ==>
      && h.Keys == {"Access-Control-Allow-Origin", "Access-Control-Allow-Credentials",
                    "Access-Control-Allow-Headers", "Access-Control-Allow-Methods"}
      && StartsWith(h["Access-Control-Allow-Origin"], allowedOrigin.value)
      && h["Access-Control-Allow-Credentials"] == "true"
      && h["Access-Control-Allow-Headers"] == "content-type"
      && h["Access-Control-Allow-Methods"] == "GET,OPTIONS"
  {
    var allow := AllowOrigin(origin, allowedOrigin);
    assert allow != "" <==> Truthy(allowedOrigin);
    if allow != "" then
      var h := map["Access-Control-Allow-Origin" := allow,
                   "Access-Control-Allow-Credentials" := "true",
                   "Access-Control-Allow-Headers" := "content-type",
                   "Access-Control-Allow-Methods" := "GET,OPTIONS"];
      assert "Access-Control-Allow-Origin" in h;
      h
    else map[]
  }

  /**
   * The allowed origin in the headers: the request's origin exactly when it
   * begins with FRONTEND_URL, FRONTEND_URL itself otherwise.
   */
  lemma CorsOriginChoice(origin: Option<string>, allowedOrigin: string)
    requires allowedOrigin != ""
    ensures var h := CorsHeaders(origin, Some(allowedOrigin));
      && (Truthy(origin) && StartsWith(origin.value, allowedOrigin) ==> h["Access-Control-Allow-Origin"] == origin.value)
      && (!Truthy(origin) || !StartsWith(origin.value, allowedOrigin) ==> h["Access-Control-Allow-Origin"] == allowedOrigin)
  {
  }

  /**
   * The check is a prefix test, not an equality: any origin that extends
   * FRONTEND_URL, such as FRONTEND_URL followed by `.example.net`, is
   * echoed with credentials allowed.
   */
  lemma CorsEchoesExtendedOrigin(allowedOrigin: string, suffix: string)
    requires allowedOrigin != ""
    ensures var h := CorsHeaders(Some(allowedOrigin + suffix), Some(allowedOrigin));
      && h["Access-Control-Allow-Origin"] == allowedOrigin + suffix
      && h["Access-Control-Allow-Credentials"] == "true"
  {
    assert (allowedOrigin + suffix)[..|allowedOrigin|] == allowedOrigin;
  }

  // ---------------------------------------------------------------------------
  // The handler
  // ---------------------------------------------------------------------------

  /** The form `refreshAccessToken` posts to the token endpoint. */
  datatype RefreshRequest = RefreshRequest(refreshToken: string, clientId: string, clientSecret: string)

  /** The token endpoint's answer to a refresh. */
  datatype RefreshGrant = RefreshGrant(accessToken: string, expiresIn: int)

  /** Google's token endpoint for refreshes: a non-ok response is an error. */
  type Refresher = RefreshRequest -> Result<RefreshGrant>

  predicate Configured(env: map<string, string>)
  {
    Truthy(Lookup(env, "SESSION_SECRET")) && Truthy(Lookup(env, "GOOGLE_CLIENT_ID")) && Truthy(Lookup(env, "GOOGLE_CLIENT_SECRET"))
  }

  /** The user a session cookie names, `session?.googleUserId`. */
  function SignedInUser(cookie: string, secret: string, codec: Codec): Option<string>
  {
    var session := Open(cookie, secret, codec);
    if session.Some? then session.value.googleUserId else None
  }

  /** The row after a refresh: the same refresh token and email, the new access token and expiry. */
  function RefreshedRow(googleUserId: string, record: TokenRecord, grant: RefreshGrant, now: int): TokenRecord
  {
    TokenRecord(googleUserId, record.refreshToken, Some(grant.accessToken), Some(ExpiryOf(now, grant.expiresIn)), record.profileEmail)
  }

  /** The `try` block: refresh, record, answer. */
  function Refresh(
    googleUserId: string, record: TokenRecord, env: map<string, string>, headers: map<string, string>,
    refresh: Refresher, records: map<string, TokenRecord>, faults: Faults, now: int): Outcome
    requires Configured(env)
  {
    var failed := Outcome(ErrorResponse(500, "Failed to refresh access token.", headers), records);
    match refresh(RefreshRequest(record.refreshToken, env["GOOGLE_CLIENT_ID"], env["GOOGLE_CLIENT_SECRET"]))
    case Err(_) => failed
    case Ok(grant) =>
      if faults.upsertFails then failed
      else
        Outcome(Response(200, None, None, headers, TokenJson(grant.accessToken, grant.expiresIn)),
                Upserted(records, RefreshedRow(googleUserId, record, grant, now)))
  }

  /** Where the checks before the table is read leave a request. */
  datatype TokenChecked =
    | Answered(response: Response)
    | Authenticated(googleUserId: string)

  /**
   * The checks, in the handler's order: a preflight is answered at once;
   * then the configuration, the cookie, and the user the cookie names. A
   * request passes only with a cookie that opens under the session secret
   * to a session naming a user.
   */
  function CheckTokenRequest(
    httpMethod: string, origin: Option<string>, cookieHeader: Option<string>,
    env: map<string, string>, allowedOrigin: Option<string>, codec: Codec): (c: TokenChecked)
    ensures c.Answered? ==> c.response.status in {204, 400, 401} && c.response.setCookie.None?
    ensures c.Authenticated? ==>
      && httpMethod != "OPTIONS" && Configured(env)
      && Truthy(SessionCookie(cookieHeader))
      && SignedInUser(SessionCookie(cookieHeader).value, env["SESSION_SECRET"], codec) == Some(c.googleUserId)
      && c.googleUserId != ""
  {
    var headers := CorsHeaders(origin, allowedOrigin);
    if httpMethod == "OPTIONS" then Answered(Response(204, None, None, headers, NoBody))
    else if !Configured(env) then Answered(BadRequest("Missing server configuration."))
    else
      var cookie := SessionCookie(cookieHeader);
      if !Truthy(cookie) then Answered(ErrorResponse(401, "Not authenticated.", headers))
      else
        var googleUserId := SignedInUser(cookie.value, env["SESSION_SECRET"], codec);
        if !Truthy(googleUserId) then Answered(ErrorResponse(401, "Invalid session.", headers))
        else Authenticated(googleUserId.value)
  }

  /** From the table read on, for an authenticated user. */
  function Serve(
    googleUserId: string, env: map<string, string>, headers: map<string, string>,
    refresh: Refresher, records: map<string, TokenRecord>, faults: Faults, now: int): Outcome
    requires Configured(env)
  {
    // The table read is outside the `try`: its failure escapes to the runtime.
    if faults.getFails then Outcome(Response(500, None, None, map[], InternalServerError), records)
    else
      var record := Find(records, googleUserId);
      if record.None? then Outcome(ErrorResponse(401, "No stored credentials. Re-authenticate.", headers), records)
      else Refresh(googleUserId, record.value, env, headers, refresh, records, faults, now)
  }

  /** The handler, from the request and the table to the response and the new table. */
  function PhotosToken(
    httpMethod: string, origin: Option<string>, cookieHeader: Option<string>,
    env: map<string, string>, allowedOrigin: Option<string>,
    codec: Codec, refresh: Refresher, records: map<string, TokenRecord>, faults: Faults, now: int): Outcome
  {
    match CheckTokenRequest(httpMethod, origin, cookieHeader, env, allowedOrigin, codec)
    case Answered(response) => Outcome(response, records)
    case Authenticated(googleUserId) => Serve(googleUserId, env, CorsHeaders(origin, allowedOrigin), refresh, records, faults, now)
  }

  /**
   * The handler, run against the token table: the response it sends and
   * the table it leaves are those of `PhotosToken`.
   */
  method HandlePhotosToken(
    store: Store,
    httpMethod: string, origin: Option<string>, cookieHeader: Option<string>,
    env: map<string, string>, allowedOrigin: Option<string>,
    codec: Codec, refresh: Refresher, faults: Faults, now: int)
    returns (response: Response)
    requires store.Valid()
    modifies store
    ensures store.Valid()
    ensures Outcome(response, store.records)
         == PhotosToken(httpMethod, origin, cookieHeader, env, allowedOrigin, codec, refresh, old(store.records), faults, now)
  {
    var checked := CheckTokenRequest(httpMethod, origin, cookieHeader, env, allowedOrigin, codec);
    if checked.Answered? {
      return checked.response;
    }
    var googleUserId := checked.googleUserId;
    var headers := CorsHeaders(origin, allowedOrigin);
    var record := store.GetTokenRecord(googleUserId, faults.getFails);
    if record.Err? {
      return Response(500, None, None, map[], InternalServerError);
    }
    if record.value.None? {
      return ErrorResponse(401, "No stored credentials. Re-authenticate.", headers);
    }
    var failed := ErrorResponse(500, "Failed to refresh access token.", headers);
    var refreshed := refresh(RefreshRequest(record.value.value.refreshToken, env["GOOGLE_CLIENT_ID"], env["GOOGLE_CLIENT_SECRET"]));
    if refreshed.Err? {
      return failed;
    }
    var ok := store.UpsertTokenRecord(RefreshedRow(googleUserId, record.value.value, refreshed.value, now), faults.upsertFails);
    if !ok {
      return failed;
    }
    response := Response(200, None, None, headers, TokenJson(refreshed.value.accessToken, refreshed.value.expiresIn));
  }

  // ---------------------------------------------------------------------------
  // Properties of the handler
  // ---------------------------------------------------------------------------

  /**
   * A preflight is answered with 204 and the CORS headers before anything
   * else is looked at, and changes nothing.
   */
  lemma PreflightFirst(
    origin: Option<string>, cookieHeader: Option<string>, env: map<string, string>, allowedOrigin: Option<string>,
    codec: Codec, refresh: Refresher, records: map<string, TokenRecord>, faults: Faults, now: int)
    ensures PhotosToken("OPTIONS", origin, cookieHeader, env, allowedOrigin, codec, refresh, records, faults, now)
         == Outcome(Response(204, None, None, CorsHeaders(origin, allowedOrigin), NoBody), records)
  {
  }

  /**
   * Only a successful refresh writes, and only it returns a token; the
   * statuses are 200, 204, 400, 401 and 500.
   */
  lemma TokenWritesOnlyOnSuccess(
    httpMethod: string, origin: Option<string>, cookieHeader: Option<string>,
    env: map<string, string>, allowedOrigin: Option<string>,
    codec: Codec, refresh: Refresher, records: map<string, TokenRecord>, faults: Faults, now: int)
    ensures var o := PhotosToken(httpMethod, origin, cookieHeader, env, allowedOrigin, codec, refresh, records, faults, now);
      && o.response.status in {200, 204, 400, 401, 500}
      && (o.response.status != 200 ==> o.records == records)
      && (o.response.body.TokenJson? <==> o.response.status == 200)
  {
    match CheckTokenRequest(httpMethod, origin, cookieHeader, env, allowedOrigin, codec)
    case Answered(response) =>
    case Authenticated(googleUserId) =>
      ServeWritesOnlyOnSuccess(googleUserId, env, CorsHeaders(origin, allowedOrigin), refresh, records, faults, now);
  }

  lemma ServeWritesOnlyOnSuccess(
    googleUserId: string, env: map<string, string>, headers: map<string, string>,
    refresh: Refresher, records: map<string, TokenRecord>, faults: Faults, now: int)
    requires Configured(env)
    ensures var o := Serve(googleUserId, env, headers, refresh, records, faults, now);
      && o.response.status in {200, 401, 500}
      && (o.response.status != 200 ==> o.records == records)
      && (o.response.body.TokenJson? <==> o.response.status == 200)
  {
    if !faults.getFails && googleUserId in records {
      var record := records[googleUserId];
      match refresh(RefreshRequest(record.refreshToken, env["GOOGLE_CLIENT_ID"], env["GOOGLE_CLIENT_SECRET"]))
      case Err(_) =>
      case Ok(grant) =>
    }
  }


  /**
   * Without a session cookie that opens under the secret to a session
   * naming a user, the answer is a 401 (with the CORS headers); a pending
   * session from auth-start, which names no user, is such a cookie.
   */
  lemma UnauthenticatedRejected(
    httpMethod: string, origin: Option<string>, cookieHeader: Option<string>,
    env: map<string, string>, allowedOrigin: Option<string>,
    codec: Codec, refresh: Refresher, records: map<string, TokenRecord>, faults: Faults, now: int)
    requires httpMethod != "OPTIONS" && Configured(env)
    requires !Truthy(SessionCookie(cookieHeader))
             || !Truthy(SignedInUser(SessionCookie(cookieHeader).value, env["SESSION_SECRET"], codec))
    ensures var o := PhotosToken(httpMethod, origin, cookieHeader, env, allowedOrigin, codec, refresh, records, faults, now);
      && o.response.status == 401
      && o.response.cors == CorsHeaders(origin, allowedOrigin)
      && o.records == records
  {
  }

  /** A user with no stored row gets a 401 asking to sign in again. */
  lemma NoStoredCredentialsRejected(
    httpMethod: string, origin: Option<string>, cookieHeader: Option<string>,
    env: map<string, string>, allowedOrigin: Option<string>,
    codec: Codec, refresh: Refresher, records: map<string, TokenRecord>, faults: Faults, now: int)
    requires httpMethod != "OPTIONS" && Configured(env) && !faults.getFails
    requires Truthy(SessionCookie(cookieHeader))
    requires var user := SignedInUser(SessionCookie(cookieHeader).value, env["SESSION_SECRET"], codec);
      Truthy(user) && user.value !in records
    ensures PhotosToken(httpMethod, origin, cookieHeader, env, allowedOrigin, codec, refresh, records, faults, now)
         == Outcome(ErrorResponse(401, "No stored credentials. Re-authenticate.", CorsHeaders(origin, allowedOrigin)), records)
  {
  }

  /**
   * A refresh keeps the user's credentials: the refresh token sent is the
   * stored one; on success the user's row keeps its refresh token and
   * email and gets the new access token and expiry, no other row changes,
   * and the response carries the new token; when the refresh or the write
   * fails the answer is a 500 and the table is unchanged.
   */
  lemma RefreshKeepsCredentials(
    googleUserId: string, env: map<string, string>, headers: map<string, string>,
    refresh: Refresher, records: map<string, TokenRecord>, faults: Faults, now: int)
    requires Configured(env) && Keyed(records) && googleUserId in records
    ensures var record := records[googleUserId];
      var o := Refresh(googleUserId, record, env, headers, refresh, records, faults, now);
      var sent := refresh(RefreshRequest(record.refreshToken, env["GOOGLE_CLIENT_ID"], env["GOOGLE_CLIENT_SECRET"]));
      && (sent.Err? || faults.upsertFails ==> o == Outcome(ErrorResponse(500, "Failed to refresh access token.", headers), records))
      && (sent.Ok? && !faults.upsertFails ==>
            && o.response.body == TokenJson(sent.value.accessToken, sent.value.expiresIn)
            && o.records == records[googleUserId := record.(accessToken := Some(sent.value.accessToken),
                                                            tokenExpiresAt := Some(ExpiryOf(now, sent.value.expiresIn)))])
  {
  }

  /**
   * Sign-in carries over: a session cookie set by a successful callback,
   * sent back by the browser, authenticates its user here, so that with
   * the same secret, a stored row and a working token endpoint the answer
   * is the new access token.
   */
  lemma SignedInSessionAuthenticates(
    secret: string, session: SessionPayload, user: AuthCallback.UserInfo, uuid: string, issuedAt: int,
    httpMethod: string, origin: Option<string>, env: map<string, string>, allowedOrigin: Option<string>,
    codec: Codec, refresh: Refresher, records: map<string, TokenRecord>, now: int, grant: RefreshGrant)
    requires Faithful(codec)
    requires httpMethod != "OPTIONS" && Configured(env) && env["SESSION_SECRET"] == secret
    requires user.sub != "" && user.sub in records
    requires refresh(RefreshRequest(records[user.sub].refreshToken, env["GOOGLE_CLIENT_ID"], env["GOOGLE_CLIENT_SECRET"])) == Ok(grant)
    ensures var cookieHeader := Split(AuthCallback.SignedIn(secret, session, user, codec, uuid, issuedAt).setCookie.value, ';')[0];
      PhotosToken(httpMethod, origin, Some(cookieHeader), env, allowedOrigin, codec, refresh, records, Faults(false, false), now).response
      == Response(200, None, None, CorsHeaders(origin, allowedOrigin), TokenJson(grant.accessToken, grant.expiresIn))
  {
    var payload := AuthCallback.AuthenticatedPayload(session, user, uuid, issuedAt);
    SealedCookieReadBack(payload, secret, codec, AuthCallback.SessionMaxAge);
  }
}
