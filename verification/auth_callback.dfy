/**
 * The auth-callback edge function: Google redirects here with `code` and
 * `state`. The handler checks them against the pending session cookie,
 * redeems the code with the PKCE verifier (section 4.1.3 of RFC 6749,
 * section 4.5 of RFC 7636), records the user's refresh token, and replaces
 * the cookie with an authenticated session.
 *
 * Google's token and userinfo endpoints, `crypto.randomUUID()` and
 * `Date.now()` are parameters; the token table is a `Store`.
 */
module AuthCallback {
  import opened Wrappers
  import opened Strings
  import opened Http
  import opened Cookies
  import opened OAuthSession
  import opened TokenStore
  import opened Bytes
  import opened Pkce
  import AuthStart

  /** The lifetime of the authenticated session cookie, in seconds: 30 days. */
  const SessionMaxAge: nat := 60 * 60 * 24 * 30

  /** The form `exchangeCode` posts to the token endpoint. */
  datatype ExchangeRequest = ExchangeRequest(
    code: string, codeVerifier: string, clientId: string, clientSecret: string, redirectUri: string)

  /** The token endpoint's answer; Google may leave out the refresh token. */
  datatype TokenGrant = TokenGrant(accessToken: string, refreshToken: Option<string>, expiresIn: int)

  /** The userinfo endpoint's answer. */
  datatype UserInfo = UserInfo(sub: string, email: Option<string>)

  /** Google's endpoints as the handler sees them: a non-ok response is an error. */
  datatype Provider = Provider(
    exchange: ExchangeRequest -> Result<TokenGrant>,
    userInfo: string -> Result<UserInfo>)

  /** Where the checks before the `try` block leave a request. */
  datatype Checked =
    | Rejected(response: Response)
    | Admitted(secret: string, session: SessionPayload, request: ExchangeRequest)

  /**
   * The ladder of checks, in the handler's order: the provider's `error`,
   * then `code` and `state`, the session secret, the cookie, the cookie's
   * signature and its `state`, and the client configuration. A request is
   * admitted only when its `state` is the one sealed in a cookie signed
   * with the session secret.
   */
  function CheckCallback(query: map<string, string>, cookieHeader: Option<string>, env: map<string, string>, codec: Codec): (c: Checked)
    ensures c.Rejected? ==> c.response.status == 400 && c.response.setCookie.None? && c.response.body.ErrorJson?
    ensures Truthy(Lookup(query, "error")) ==> c == Rejected(BadRequest("Google OAuth error: " + query["error"]))
    ensures c.Admitted? ==>
      && !Truthy(Lookup(query, "error"))
      && Truthy(Lookup(query, "code")) && Truthy(Lookup(query, "state"))
      && Truthy(SessionCookie(cookieHeader))
      && Lookup(env, "SESSION_SECRET") == Some(c.secret) && c.secret != ""
      && Open(SessionCookie(cookieHeader).value, c.secret, codec) == Some(c.session)
      && c.session.state == Some(query["state"])
      && c.request.code == query["code"]
      && c.request.codeVerifier == JsString(c.session.codeVerifier)
  {
    var error := Lookup(query, "error");
    var code := Lookup(query, "code");
    var state := Lookup(query, "state");
    var cookie := SessionCookie(cookieHeader);
    var secret := Lookup(env, "SESSION_SECRET");
    if Truthy(error) then Rejected(BadRequest("Google OAuth error: " + error.value))
    else if !Truthy(code) || !Truthy(state) then Rejected(BadRequest("Missing code or state parameter."))
    else if !Truthy(secret) then Rejected(BadRequest("Missing SESSION_SECRET."))
    else if !Truthy(cookie) then Rejected(BadRequest("Missing OAuth session cookie."))
    else
      var session := Open(cookie.value, secret.value, codec);
      if session.None? || session.value.state != state then Rejected(BadRequest("Invalid OAuth session."))
      else
        var clientId := Lookup(env, "GOOGLE_CLIENT_ID");
        var clientSecret := Lookup(env, "GOOGLE_CLIENT_SECRET");
        var redirectUri := Lookup(env, "GOOGLE_REDIRECT_URI");
        if !Truthy(clientId) || !Truthy(clientSecret) || !Truthy(redirectUri) then
          Rejected(BadRequest("Missing Google OAuth configuration."))
        else
          Admitted(secret.value, session.value,
            ExchangeRequest(code.value, JsString(session.value.codeVerifier), clientId.value, clientSecret.value, redirectUri.value))
  }

  /** The `catch` block: any failure inside the `try` block. */
  function Failed(records: map<string, TokenRecord>): Outcome
  {
    Outcome(ErrorResponse(500, "OAuth callback failed.", map[]), records)
  }

  /** `tokenResponse.refresh_token ?? existing?.refresh_token`. */
  function RefreshTokenOf(grant: TokenGrant, existing: Option<TokenRecord>): Option<string>
  {
    if grant.refreshToken.Some? then grant.refreshToken
    else if existing.Some? then Some(existing.value.refreshToken)
    else None
  }

  /** The row the handler upserts for the signed-in user. */
  function CallbackRow(user: UserInfo, refreshToken: string, grant: TokenGrant, now: int): TokenRecord
  {
    TokenRecord(user.sub, refreshToken, Some(grant.accessToken), Some(ExpiryOf(now, grant.expiresIn)), user.email)
  }

  /** The authenticated session: a fresh `state`, the user, and the pending session's verifier and redirect. */
  function AuthenticatedPayload(session: SessionPayload, user: UserInfo, uuid: string, now: int): SessionPayload
  {
    SessionPayload(Some(uuid), session.codeVerifier, session.redirectTo, now, Some(user.sub))
  }

  /** `String(session.redirectTo ?? '/')`. */
  function LocationOf(session: SessionPayload): string
  {
    JsString(if session.redirectTo.Some? then session.redirectTo else Some("/"))
  }

  /** The redirect that ends a successful callback, setting the authenticated session cookie. */
  function SignedIn(secret: string, session: SessionPayload, user: UserInfo, codec: Codec, uuid: string, now: int): Response
  {
    var cookieValue := Seal(AuthenticatedPayload(session, user, uuid, now), secret, codec);
    Response(302, Some(Url(LocationOf(session))), Some(BuildCookie(cookieValue, SessionMaxAge)), map[], NoBody)
  }

  /** The `try` block, for an admitted request. */
  function Redeem(
    secret: string, session: SessionPayload, request: ExchangeRequest,
    codec: Codec, provider: Provider, records: map<string, TokenRecord>, faults: Faults,
    uuid: string, now: int): Outcome
  {
    match provider.exchange(request)
    case Err(_) => Failed(records)
    case Ok(grant) =>
      match provider.userInfo(grant.accessToken)
      case Err(_) => Failed(records)
      case Ok(user) =>
        if faults.getFails then Failed(records)
        else
          var refreshToken := RefreshTokenOf(grant, Find(records, user.sub));
          if !Truthy(refreshToken) then
            Outcome(ErrorResponse(401, "Missing refresh token; please re-consent.", map[]), records)
          else if faults.upsertFails then Failed(records)
          else
            Outcome(SignedIn(secret, session, user, codec, uuid, now),
                    Upserted(records, CallbackRow(user, refreshToken.value, grant, now)))
  }

  /** The handler, from the request and the table to the response and the new table. */
  function Callback(
    query: map<string, string>, cookieHeader: Option<string>, env: map<string, string>,
    codec: Codec, provider: Provider, records: map<string, TokenRecord>, faults: Faults,
    uuid: string, now: int): Outcome
  {
    match CheckCallback(query, cookieHeader, env, codec)
    case Rejected(response) => Outcome(response, records)
    case Admitted(secret, session, request) => Redeem(secret, session, request, codec, provider, records, faults, uuid, now)
  }

  /**
   * The handler, run against the token table: the response it sends and
   * the table it leaves are those of `Callback`.
   */
  method HandleCallback(
    store: Store,
    query: map<string, string>, cookieHeader: Option<string>, env: map<string, string>,
    codec: Codec, provider: Provider, faults: Faults, uuid: string, now: int)
    returns (response: Response)
    requires store.Valid()
    modifies store
    ensures store.Valid()
    ensures Outcome(response, store.records) == Callback(query, cookieHeader, env, codec, provider, old(store.records), faults, uuid, now)
  {
    var checked := CheckCallback(query, cookieHeader, env, codec);
    if checked.Rejected? {
      return checked.response;
    }
    var session := checked.session;
    var failed := ErrorResponse(500, "OAuth callback failed.", map[]);
    var tokenResponse := provider.exchange(checked.request);
    if tokenResponse.Err? {
      return failed;
    }
    var userInfo := provider.userInfo(tokenResponse.value.accessToken);
    if userInfo.Err? {
      return failed;
    }
    var existing := store.GetTokenRecord(userInfo.value.sub, faults.getFails);
    if existing.Err? {
      return failed;
    }
    var refreshToken := RefreshTokenOf(tokenResponse.value, existing.value);
    if !Truthy(refreshToken) {
      return ErrorResponse(401, "Missing refresh token; please re-consent.", map[]);
    }
    var ok := store.UpsertTokenRecord(CallbackRow(userInfo.value, refreshToken.value, tokenResponse.value, now), faults.upsertFails);
    if !ok {
      return failed;
    }
    var newSessionCookie := Seal(AuthenticatedPayload(session, userInfo.value, uuid, now), checked.secret, codec);
    response := Response(302, Some(Url(LocationOf(session))), Some(BuildCookie(newSessionCookie, SessionMaxAge)), map[], NoBody);
  }

  // ---------------------------------------------------------------------------
  // Properties of the handler
  // ---------------------------------------------------------------------------

  /**
   * Only a full success writes: every response other than the redirect
   * leaves the table as it was, and only the redirect sets a cookie. The
   * statuses are 302, 400, 401 and 500.
   */
  lemma CallbackWritesOnlyOnSuccess(
    query: map<string, string>, cookieHeader: Option<string>, env: map<string, string>,
    codec: Codec, provider: Provider, records: map<string, TokenRecord>, faults: Faults,
    uuid: string, now: int)
    ensures var o := Callback(query, cookieHeader, env, codec, provider, records, faults, uuid, now);
      && o.response.status in {302, 400, 401, 500}
      && (o.response.status != 302 ==> o.records == records)
      && (o.response.setCookie.Some? <==> o.response.status == 302)
  {
    match CheckCallback(query, cookieHeader, env, codec)
    case Rejected(response) =>
    case Admitted(secret, session, request) =>
      var o := Redeem(secret, session, request, codec, provider, records, faults, uuid, now);
      match provider.exchange(request)
      case Err(_) =>
      case Ok(grant) =>
        match provider.userInfo(grant.accessToken)
        case Err(_) =>
        case Ok(user) =>
          if !faults.getFails && Truthy(RefreshTokenOf(grant, Find(records, user.sub))) && !faults.upsertFails {
            assert o.response.status == 302 && o.response.setCookie.Some?;
          }
  }

  /**
   * Nothing reaches Google or the table before the cookie's `state` has
   * matched: a rejected request gets its 400 whatever the provider and the
   * table would do, and the table is left alone.
   */
  lemma RejectedBeforeExchange(
    query: map<string, string>, cookieHeader: Option<string>, env: map<string, string>,
    codec: Codec, provider: Provider, other: Provider, records: map<string, TokenRecord>, faults: Faults, otherFaults: Faults,
    uuid: string, now: int)
    requires CheckCallback(query, cookieHeader, env, codec).Rejected?
    ensures var o := Callback(query, cookieHeader, env, codec, provider, records, faults, uuid, now);
      && o.records == records
      && o.response.status == 400
      && o.response == Callback(query, cookieHeader, env, codec, other, map[], otherFaults, uuid, now).response
  {
  }

  /**
   * A forged or replayed callback: with a cookie that opens under the
   * secret but whose `state` is not the query's, the answer is
   * "Invalid OAuth session." and nothing is written.
   */
  lemma StateMismatchRejected(
    query: map<string, string>, cookieHeader: Option<string>, env: map<string, string>,
    codec: Codec, provider: Provider, records: map<string, TokenRecord>, faults: Faults,
    uuid: string, now: int, session: SessionPayload)
    requires !Truthy(Lookup(query, "error")) && Truthy(Lookup(query, "code")) && Truthy(Lookup(query, "state"))
    requires Truthy(Lookup(env, "SESSION_SECRET")) && Truthy(SessionCookie(cookieHeader))
    requires Open(SessionCookie(cookieHeader).value, env["SESSION_SECRET"], codec) == Some(session)
    requires session.state != Some(query["state"])
    ensures Callback(query, cookieHeader, env, codec, provider, records, faults, uuid, now)
         == Outcome(BadRequest("Invalid OAuth session."), records)
  {
  }

  /**
   * With neither a refresh token from Google nor a stored one (or only an
   * empty one), the answer is a 401 that asks for consent again, and
   * nothing is written.
   */
  lemma MissingRefreshTokenRejected(
    secret: string, session: SessionPayload, request: ExchangeRequest,
    codec: Codec, provider: Provider, records: map<string, TokenRecord>, faults: Faults,
    uuid: string, now: int, grant: TokenGrant, user: UserInfo)
    requires provider.exchange(request) == Ok(grant) && provider.userInfo(grant.accessToken) == Ok(user)
    requires !faults.getFails
    requires grant.refreshToken.None? || grant.refreshToken == Some("")
    requires grant.refreshToken.None? ==> user.sub !in records || records[user.sub].refreshToken == ""
    ensures Redeem(secret, session, request, codec, provider, records, faults, uuid, now)
         == Outcome(ErrorResponse(401, "Missing refresh token; please re-consent.", map[]), records)
  {
  }

  /**
   * The refresh-token fallback: the user's row holds the refresh token
   * Google sent, or else the one already stored, together with the new
   * access token and its expiry; the email is the userinfo email when
   * there is one. The rest of the table is what merging that row leaves.
   */
  lemma RefreshTokenFallback(
    secret: string, session: SessionPayload, request: ExchangeRequest,
    codec: Codec, provider: Provider, records: map<string, TokenRecord>, faults: Faults,
    uuid: string, now: int, grant: TokenGrant, user: UserInfo)
    requires provider.exchange(request) == Ok(grant) && provider.userInfo(grant.accessToken) == Ok(user)
    requires !faults.getFails && !faults.upsertFails
    requires Truthy(RefreshTokenOf(grant, Find(records, user.sub)))
    ensures var o := Redeem(secret, session, request, codec, provider, records, faults, uuid, now);
      && user.sub in o.records
      && o.records[user.sub].refreshToken
         == (if grant.refreshToken.Some? then grant.refreshToken.value else records[user.sub].refreshToken)
      && o.records[user.sub].accessToken == Some(grant.accessToken)
      && o.records[user.sub].tokenExpiresAt == Some(ExpiryOf(now, grant.expiresIn))
      && (user.email.Some? ==> o.records[user.sub].profileEmail == user.email)
      && o.records == Upserted(records, o.records[user.sub])
  {
    var row := CallbackRow(user, RefreshTokenOf(grant, Find(records, user.sub)).value, grant, now);
    RedeemWrites(secret, session, request, codec, provider, records, faults, uuid, now, grant, user);
    UpsertedRow(records, row);
  }

  /** A successful `try` block writes exactly the user's row. */
  lemma RedeemWrites(
    secret: string, session: SessionPayload, request: ExchangeRequest,
    codec: Codec, provider: Provider, records: map<string, TokenRecord>, faults: Faults,
    uuid: string, now: int, grant: TokenGrant, user: UserInfo)
    requires provider.exchange(request) == Ok(grant) && provider.userInfo(grant.accessToken) == Ok(user)
    requires !faults.getFails && !faults.upsertFails
    requires Truthy(RefreshTokenOf(grant, Find(records, user.sub)))
    ensures Redeem(secret, session, request, codec, provider, records, faults, uuid, now).records
         == Upserted(records, CallbackRow(user, RefreshTokenOf(grant, Find(records, user.sub)).value, grant, now))
  {
  }

  /**
   * A failure of the code exchange, of the userinfo call, of the table
   * read, or of the write once a refresh token is known, is a 500 that
   * writes nothing and sets no cookie.
   */
  lemma FailureIs500(
    secret: string, session: SessionPayload, request: ExchangeRequest,
    codec: Codec, provider: Provider, records: map<string, TokenRecord>, faults: Faults,
    uuid: string, now: int)
    requires || provider.exchange(request).Err?
             || provider.userInfo(provider.exchange(request).value.accessToken).Err?
             || faults.getFails
             || (faults.upsertFails
                 && var grant := provider.exchange(request).value;
                    Truthy(RefreshTokenOf(grant, Find(records, provider.userInfo(grant.accessToken).value.sub))))
    ensures var o := Redeem(secret, session, request, codec, provider, records, faults, uuid, now);
      o == Failed(records) && o.response.status == 500 && o.response.setCookie.None?
  {
  }

  /**
   * A successful callback signs the user in: it redirects to the pending
   * session's `redirectTo` (or `/`), and sets, for 30 days, a cookie that
   * the browser sends back and that opens under the same secret to a
   * session for user `sub` with a fresh `state` and the pending session's
   * verifier and redirect target.
   */
  lemma CallbackSignsIn(
    secret: string, session: SessionPayload, request: ExchangeRequest,
    codec: Codec, provider: Provider, records: map<string, TokenRecord>, faults: Faults,
    uuid: string, now: int, grant: TokenGrant, user: UserInfo)
    requires Faithful(codec)
    requires provider.exchange(request) == Ok(grant) && provider.userInfo(grant.accessToken) == Ok(user)
    requires !faults.getFails && !faults.upsertFails
    requires Truthy(RefreshTokenOf(grant, Find(records, user.sub)))
    ensures var r := Redeem(secret, session, request, codec, provider, records, faults, uuid, now).response;
      && r.status == 302
      && r.location == Some(Url(if session.redirectTo.Some? then session.redirectTo.value else "/"))
      && SetCookieValue(r).Some?
      && Open(SetCookieValue(r).value, secret, codec)
         == Some(SessionPayload(Some(uuid), session.codeVerifier, session.redirectTo, now, Some(user.sub)))
      && Split(r.setCookie.value, ';')[1..] == [" Path=/", " HttpOnly", " SameSite=None", " Secure", " Max-Age=2592000"]
  {
    var payload := AuthenticatedPayload(session, user, uuid, now);
    SealedCookieReadBack(payload, secret, codec, SessionMaxAge);
    SealIsCookieSafe(payload, secret, codec);
    BuildCookieParts(Seal(payload, secret, codec), SessionMaxAge);
    MaxAgeText();
  }

  /**
   * The other direction of the ladder: a request that passes every check is
   * admitted. It needs no `error`, a `code` and a `state`, the session secret,
   * and a session cookie that opens under that secret to a session holding
   * that `state`. It also needs the three client settings. The exchange then
   * carries the code, the sealed verifier and those settings.
   */
  lemma ValidCallbackAdmitted(query: map<string, string>, cookieHeader: Option<string>, env: map<string, string>, codec: Codec)
    requires !Truthy(Lookup(query, "error"))
    requires Truthy(Lookup(query, "code")) && Truthy(Lookup(query, "state"))
    requires Truthy(Lookup(env, "SESSION_SECRET")) && Truthy(SessionCookie(cookieHeader))
    requires Open(SessionCookie(cookieHeader).value, env["SESSION_SECRET"], codec).Some?
    requires Open(SessionCookie(cookieHeader).value, env["SESSION_SECRET"], codec).value.state == Some(query["state"])
    requires Truthy(Lookup(env, "GOOGLE_CLIENT_ID")) && Truthy(Lookup(env, "GOOGLE_CLIENT_SECRET"))
    requires Truthy(Lookup(env, "GOOGLE_REDIRECT_URI"))
    ensures var c := CheckCallback(query, cookieHeader, env, codec);
      && c.Admitted?
      && c.secret == env["SESSION_SECRET"]
      && Some(c.session) == Open(SessionCookie(cookieHeader).value, env["SESSION_SECRET"], codec)
      && c.request == ExchangeRequest(query["code"], JsString(c.session.codeVerifier),
                                      env["GOOGLE_CLIENT_ID"], env["GOOGLE_CLIENT_SECRET"], env["GOOGLE_REDIRECT_URI"])
  {
  }

  /**
   * The round trip through Google: the browser returns to the callback with
   * the pending cookie from `auth-start`, the `state` sent to Google and a
   * code, under the same settings plus the client secret. That callback is
   * admitted. It redeems the code with the verifier from which the sent
   * `code_challenge` was derived.
   */
  lemma StartedSessionAdmitted(
    env: map<string, string>, startQuery: map<string, string>,
    randomValues: seq<byte>, uuid: string, now: int,
    codec: Codec, encode: string -> seq<byte>, sha256: seq<byte> -> Digest,
    query: map<string, string>)
    requires |randomValues| == DefaultVerifierLength
    requires AuthStart.Configured(env) && Truthy(Lookup(env, "GOOGLE_CLIENT_SECRET"))
    requires Faithful(codec)
    requires uuid != ""
    requires !Truthy(Lookup(query, "error")) && Truthy(Lookup(query, "code")) && Lookup(query, "state") == Some(uuid)
    ensures var r := AuthStart.AuthStart(env, startQuery, randomValues, uuid, now, codec, encode, sha256);
      r.setCookie.Some? &&
      var c := CheckCallback(query, Some(Split(r.setCookie.value, ';')[0]), env, codec);
      && c.Admitted?
      && c.request.code == query["code"]
      && c.request.codeVerifier == CodeVerifierOf(randomValues)
      && QueryValue(r.location.value.query, "code_challenge") == Some(GenerateCodeChallenge(c.request.codeVerifier, encode, sha256))
  {
    var secret := env["SESSION_SECRET"];
    var payload := AuthStart.PendingPayload(env, startQuery, randomValues, uuid, now);
    var cookieValue := Seal(payload, secret, codec);
    var challenge := GenerateCodeChallenge(CodeVerifierOf(randomValues), encode, sha256);
    SealedCookieReadBack(payload, secret, codec, AuthStart.PendingMaxAge);
    AuthStart.QueryValues(env["GOOGLE_CLIENT_ID"], env["GOOGLE_REDIRECT_URI"], AuthStart.Scope(env), uuid, challenge);
    var header := Some(Split(BuildCookie(cookieValue, AuthStart.PendingMaxAge), ';')[0]);
    assert SessionCookie(header) == Some(cookieValue);
    ValidCallbackAdmitted(query, header, env, codec);
  }

  lemma MaxAgeText()
    ensures " Max-Age=" + NatToString(SessionMaxAge) == " Max-Age=2592000"
  {
    assert NatToString(2) == "2";
    assert NatToString(25) == "25";
    assert NatToString(259) == "259";
    assert NatToString(2592) == "2592";
    assert NatToString(25920) == "25920";
    assert NatToString(259200) == "259200";
    assert NatToString(2592000) == "2592000";
  }
}
