/**
 * The signed session cookie of the edge functions: a payload serialised to
 * bytes, written in unpadded base64url, and followed by `.` and the base64url
 * HMAC-SHA256 of that text (RFC 2104) under the session secret.
 *
 * HMAC-SHA256 and the JSON/UTF-8 serialisation are passed in as functions:
 * the model states what the cookie code does with them, not how they work.
 */
module Session {
  import opened Wrappers
  import opened Bytes
  import opened Strings
  import opened Base64Url

  /** HMAC-SHA256 of the UTF-8 bytes of a message under the UTF-8 bytes of a secret. */
  type Hmac = (string, string) -> Digest

  /** `hmacSHA256`: the MAC of `message`, base64url-encoded. */
  function HmacSha256(message: string, secret: string, hmac: Hmac): (r: string)
    ensures |r| == 43
    ensures forall i :: 0 <= i < |r| ==> IsUrlSafe(r[i])
    ensures Base64UrlDecode(r) == Some(hmac(message, secret))
  {
    DecodeEncode(hmac(message, secret));
    Base64UrlEncode(hmac(message, secret))
  }

  /** Two encoded MACs are equal exactly when the MACs are. */
  lemma HmacTextInjective(m1: string, s1: string, m2: string, s2: string, hmac: Hmac)
    ensures HmacSha256(m1, s1, hmac) == HmacSha256(m2, s2, hmac) <==> hmac(m1, s1) == hmac(m2, s2)
  {
    if HmacSha256(m1, s1, hmac) == HmacSha256(m2, s2, hmac) {
      EncodeInjective(hmac(m1, s1), hmac(m2, s2));
    }
  }

  /** No base64url text contains the `.` that separates the two cookie parts. */
  lemma NoDotInUrlSafe(s: string)
    requires forall i :: 0 <= i < |s| ==> IsUrlSafe(s[i])
    ensures '.' !in s
  {
  }

  /** The pieces `cookie.split('.')` gives for a text `body.signature` with no other dot. */
  lemma SplitCookie(body: string, signature: string)
    requires '.' !in body && '.' !in signature
    ensures Split(body + "." + signature, '.') == [body, signature]
  {
    SplitAtSeparator(body, '.', signature);
    SplitWithoutSeparator(body, '.');
    SplitWithoutSeparator(signature, '.');
  }

  // ---------------------------------------------------------------------------
  // createSignedSessionCookie
  // ---------------------------------------------------------------------------

  /**
   * The cookie text for `payload`: exactly two `.`-separated parts, the
   * second a non-empty signature of the first, the first decoding to the
   * serialised payload; every character is base64url or the dot.
   */
  function CreateSignedSessionCookie<P>(payload: P, secret: string, serialize: P -> seq<byte>, hmac: Hmac): (r: string)
    ensures |Split(r, '.')| == 2
    ensures Base64UrlDecode(Split(r, '.')[0]) == Some(serialize(payload))
    ensures Split(r, '.')[1] == HmacSha256(Split(r, '.')[0], secret, hmac)
    ensures Split(r, '.')[1] != "" && (Split(r, '.')[0] == "" <==> serialize(payload) == [])
    ensures forall i :: 0 <= i < |r| ==> IsUrlSafe(r[i]) || r[i] == '.'
  {
    var body := Base64UrlEncode(serialize(payload));
    var signature := HmacSha256(body, secret, hmac);
    NoDotInUrlSafe(body);
    NoDotInUrlSafe(signature);
    SplitCookie(body, signature);
    DecodeEncode(serialize(payload));
    JoinedUrlSafe(body, signature);
    assert body == "" <==> serialize(payload) == [];
    body + "." + signature
  }

  /** Two base64url texts joined by a dot hold only base64url characters and that dot. */
  lemma JoinedUrlSafe(body: string, signature: string)
    requires forall i :: 0 <= i < |body| ==> IsUrlSafe(body[i])
    requires forall i :: 0 <= i < |signature| ==> IsUrlSafe(signature[i])
    ensures forall i :: 0 <= i < |body + "." + signature| ==> IsUrlSafe((body + "." + signature)[i]) || (body + "." + signature)[i] == '.'
  {
    var r := body + "." + signature;
    forall i | 0 <= i < |r|
      ensures IsUrlSafe(r[i]) || r[i] == '.'
    {
      if i < |body| {
        assert r[i] == body[i];
      } else if i > |body| {
        assert r[i] == signature[i - |body| - 1];
      }
    }
  }

  // ---------------------------------------------------------------------------
  // verifySignedSessionCookie
  // ---------------------------------------------------------------------------

  /** The first `.`-separated segment, `const [body] = cookie.split('.')`. */
  function Body(cookie: string): string
  {
    Split(cookie, '.')[0]
  }

  /** The second segment, absent (`undefined`) when the cookie has no dot. */
  function Signature(cookie: string): Option<string>
  {
    var parts := Split(cookie, '.');
    if |parts| >= 2 then Some(parts[1]) else None
  }

  /** Both parts present and the second is the MAC of the first under `secret`. */
  predicate WellSigned(cookie: string, secret: string, hmac: Hmac)
  {
    Body(cookie) != "" && Truthy(Signature(cookie))
    && Signature(cookie).value == HmacSha256(Body(cookie), secret, hmac)
  }

  /**
   * The payload of a cookie, or None (`null`) for every failure: a missing
   * part, a signature that is not the MAC of the body, a body that is not
   * base64url, or bytes that do not parse. Segments after the second are
   * never looked at.
   */
  function VerifySignedSessionCookie<P>(cookie: string, secret: string, hmac: Hmac, parse: seq<byte> -> Option<P>): (r: Option<P>)
    ensures !WellSigned(cookie, secret, hmac) ==> r == None
    ensures Base64UrlDecode(Body(cookie)) == None ==> r == None
    ensures r.Some? ==> Base64UrlDecode(Body(cookie)).Some? && parse(Base64UrlDecode(Body(cookie)).value) == r
  {
    var body := Body(cookie);
    var signature := Signature(cookie);
    if body == "" || !Truthy(signature) then None
    else if HmacSha256(body, secret, hmac) != signature.value then None
    else
      match Base64UrlDecode(body)
      case None => None
      case Some(bytes) => parse(bytes)
  }

  /** What a well-signed cookie yields: the parse of its decoded body. */
  lemma VerifyWellSigned<P>(cookie: string, secret: string, hmac: Hmac, parse: seq<byte> -> Option<P>)
    requires WellSigned(cookie, secret, hmac)
    requires Base64UrlDecode(Body(cookie)).Some?
    ensures VerifySignedSessionCookie(cookie, secret, hmac, parse) == parse(Base64UrlDecode(Body(cookie)).value)
  {
  }

  /**
   * Round trip: a cookie made under `secret` verifies under `secret` to the
   * payload, whenever parsing inverts serialisation on it and the
   * serialisation is not empty (a JSON text never is).
   */
  lemma VerifyCreate<P>(payload: P, secret: string, serialize: P -> seq<byte>, parse: seq<byte> -> Option<P>, hmac: Hmac)
    requires serialize(payload) != []
    requires parse(serialize(payload)) == Some(payload)
    ensures VerifySignedSessionCookie(CreateSignedSessionCookie(payload, secret, serialize, hmac), secret, hmac, parse) == Some(payload)
  {
    var cookie := CreateSignedSessionCookie(payload, secret, serialize, hmac);
    assert Signature(cookie) == Some(Split(cookie, '.')[1]);
    assert WellSigned(cookie, secret, hmac);
  }

  /**
   * A cookie made under one secret is rejected under another whose MAC of
   * the same body differs.
   */
  lemma WrongSecretRejected<P>(payload: P, secret: string, other: string, serialize: P -> seq<byte>, parse: seq<byte> -> Option<P>, hmac: Hmac)
    requires hmac(Base64UrlEncode(serialize(payload)), secret) != hmac(Base64UrlEncode(serialize(payload)), other)
    ensures VerifySignedSessionCookie(CreateSignedSessionCookie(payload, secret, serialize, hmac), other, hmac, parse) == None
  {
    var body := Base64UrlEncode(serialize(payload));
    var cookie := CreateSignedSessionCookie(payload, secret, serialize, hmac);
    var parts := Split(cookie, '.');
    NoDotInUrlSafe(body);
    NoDotInUrlSafe(HmacSha256(body, secret, hmac));
    SplitCookie(body, HmacSha256(body, secret, hmac));
    HmacTextInjective(body, secret, body, other, hmac);
    assert Signature(cookie) == Some(HmacSha256(body, secret, hmac));
  }

  /**
   * A signature moved onto another body is rejected, unless the MAC of the
   * new body happens to equal the MAC of the one that was signed.
   */
  lemma TamperedBodyRejected<P>(payload: P, secret: string, forged: string, serialize: P -> seq<byte>, parse: seq<byte> -> Option<P>, hmac: Hmac)
    requires '.' !in forged
    requires hmac(forged, secret) != hmac(Base64UrlEncode(serialize(payload)), secret)
    ensures VerifySignedSessionCookie(forged + "." + Split(CreateSignedSessionCookie(payload, secret, serialize, hmac), '.')[1], secret, hmac, parse) == None
  {
    var body := Base64UrlEncode(serialize(payload));
    var signature := HmacSha256(body, secret, hmac);
    NoDotInUrlSafe(body);
    NoDotInUrlSafe(signature);
    SplitCookie(body, signature);
    SplitCookie(forged, signature);
    HmacTextInjective(forged, secret, body, secret, hmac);
    assert Signature(forged + "." + signature) == Some(signature);
  }

  /** A cookie without a dot has no signature part and is rejected. */
  lemma MissingDotRejected<P>(cookie: string, secret: string, hmac: Hmac, parse: seq<byte> -> Option<P>)
    requires '.' !in cookie
    ensures VerifySignedSessionCookie(cookie, secret, hmac, parse) == None
  {
    SplitWithoutSeparator(cookie, '.');
  }

  /** Anything after a second dot is ignored. */
  lemma ExtraSegmentsIgnored<P>(body: string, signature: string, rest: string, secret: string, hmac: Hmac, parse: seq<byte> -> Option<P>)
    requires '.' !in body && '.' !in signature
    ensures VerifySignedSessionCookie(body + "." + signature + "." + rest, secret, hmac, parse)
         == VerifySignedSessionCookie(body + "." + signature, secret, hmac, parse)
  {
    var long := body + "." + signature + "." + rest;
    assert long == body + ['.'] + (signature + "." + rest);
    SplitAtSeparator(body, '.', signature + "." + rest);
    SplitAtSeparator(signature, '.', rest);
    SplitWithoutSeparator(body, '.');
    SplitWithoutSeparator(signature, '.');
    SplitCookie(body, signature);
    assert Split(long, '.')[..2] == [body, signature];
    assert Body(long) == body && Signature(long) == Some(signature);
  }
}
