/**
 * The OAuth session the three edge functions pass to each other in the
 * signed cookie: the payload object, and the secret-keyed codec that seals
 * it into a cookie value and opens it again.
 */
module OAuthSession {
  import opened Wrappers
  import opened Bytes
  import opened Strings
  import opened Base64Url
  import opened Session
  import opened Cookies
  import opened Http

  /**
   * The JSON object in the cookie. auth-start writes state, codeVerifier,
   * redirectTo and issuedAt; auth-callback adds googleUserId. A field
   * absent from the object is None.
   */
  datatype SessionPayload = SessionPayload(
    state: Option<string>,
    codeVerifier: Option<string>,
    redirectTo: Option<string>,
    issuedAt: int,
    googleUserId: Option<string>)

  /** HMAC-SHA256, and `JSON.stringify` + UTF-8 encoding with its inverse. */
  datatype Codec = Codec(
    hmac: Hmac,
    serialize: SessionPayload -> seq<byte>,
    parse: seq<byte> -> Option<SessionPayload>)

  /** Parsing inverts serialisation, and no serialised object is empty. */
  ghost predicate Faithful(codec: Codec)
  {
    forall p :: codec.serialize(p) != [] && codec.parse(codec.serialize(p)) == Some(p)
  }

  /** `String(x)` of a possibly absent text. */
  function JsString(s: Option<string>): string
  {
    if s.Some? then s.value else "undefined"
  }

  /** `createSignedSessionCookie(payload, secret)`. */
  function Seal(payload: SessionPayload, secret: string, codec: Codec): string
  {
    CreateSignedSessionCookie(payload, secret, codec.serialize, codec.hmac)
  }

  /** `verifySignedSessionCookie(cookie, secret)`. */
  function Open(cookie: string, secret: string, codec: Codec): Option<SessionPayload>
  {
    VerifySignedSessionCookie(cookie, secret, codec.hmac, codec.parse)
  }

  /** The session cookie of a request, `parseCookies(header)[COOKIE_NAME]`. */
  function SessionCookie(cookieHeader: Option<string>): Option<string>
  {
    Get(CookiesOf(cookieHeader), CookieName)
  }

  /** The value of the session cookie a response sets, as the browser sends it back. */
  function SetCookieValue(r: Response): Option<string>
  {
    if r.setCookie.None? then None
    else Get(CookiesOf(Some(Split(r.setCookie.value, ';')[0])), CookieName)
  }

  /** A sealed payload opens, under the same secret, to itself. */
  lemma OpenSeal(payload: SessionPayload, secret: string, codec: Codec)
    requires Faithful(codec)
    ensures Open(Seal(payload, secret, codec), secret, codec) == Some(payload)
  {
    VerifyCreate(payload, secret, codec.serialize, codec.parse, codec.hmac);
  }

  /**
   * A payload sealed into a `Set-Cookie` header comes back: the cookie the
   * browser returns holds the sealed value, which opens to the payload.
   */
  lemma SealedCookieReadBack(payload: SessionPayload, secret: string, codec: Codec, maxAgeSeconds: nat)
    requires Faithful(codec)
    ensures var value := Seal(payload, secret, codec);
      && Get(CookiesOf(Some(Split(BuildCookie(value, maxAgeSeconds), ';')[0])), CookieName) == Some(value)
      && Open(value, secret, codec) == Some(payload)
  {
    SealIsCookieSafe(payload, secret, codec);
    BuildCookieReadBack(Seal(payload, secret, codec), maxAgeSeconds);
    OpenSeal(payload, secret, codec);
  }

  /**
   * A sealed cookie value survives the trip through `Set-Cookie` and the
   * cookie parser: it is non-empty, has no white space at its ends and holds
   * neither `;` nor `=`.
   */
  lemma SealIsCookieSafe(payload: SessionPayload, secret: string, codec: Codec)
    ensures CookieSafe(Seal(payload, secret, codec))
  {
    var r := Seal(payload, secret, codec);
    assert r != "" by {
      assert Split("", '.') == [""];
    }
    UrlSafeIsCookieSafe(r);
  }

  /** A non-empty text of base64url characters and dots is a safe cookie value. */
  lemma UrlSafeIsCookieSafe(r: string)
    requires r != ""
    requires forall i :: 0 <= i < |r| ==> IsUrlSafe(r[i]) || r[i] == '.'
    ensures CookieSafe(r)
  {
    var first, last := r[0], r[|r| - 1];
    assert IsUrlSafe(first) || first == '.';
    assert IsUrlSafe(last) || last == '.';
    assert ';' !in r && '=' !in r by {
      forall i | 0 <= i < |r|
        ensures r[i] != ';' && r[i] != '='
      {
        assert IsUrlSafe(r[i]) || r[i] == '.';
      }
    }
  }
}
