/**
 * PKCE (RFC 7636): the code verifier drawn from random bytes over a
 * 66-character alphabet, and the S256 code challenge.
 *
 * The random bytes, the UTF-8 encoder and SHA-256 are parameters.
 */
module Pkce {
  import opened Wrappers
  import opened Bytes
  import opened Base64Url

  /** The `n` consecutive characters starting at `first`. */
  function CharRange(first: char, n: nat): (s: string)
    requires first as int + n <= 0xD800
    ensures |s| == n && forall i :: 0 <= i < n ==> s[i] as int == first as int + i
  {
    seq(n, i requires 0 <= i < n => (first as int + i) as char)
  }

  /**
   * The verifier alphabet, in the order the generator indexes it: `a`..`z`,
   * `A`..`Z`, `0`..`9`, then `-`, `.`, `_`, `~`.
   */
  const ValidChars: string := CharRange('a', 26) + CharRange('A', 26) + CharRange('0', 10) + "-._~"

  /** The length `generateCodeVerifier` uses when none is given. */
  const DefaultVerifierLength: nat := 64

  /** The unreserved characters of section 2.3 of RFC 3986. */
  predicate IsUnreserved(c: char)
  {
    ('A' <= c <= 'Z') || ('a' <= c <= 'z') || ('0' <= c <= '9') || c == '-' || c == '.' || c == '_' || c == '~'
  }

  /** The position of an unreserved character in `ValidChars`. */
  function AlphabetIndex(c: char): (i: int)
    requires IsUnreserved(c)
    ensures 0 <= i < 66
  {
    if 'a' <= c <= 'z' then c as int - 'a' as int
    else if 'A' <= c <= 'Z' then 26 + (c as int - 'A' as int)
    else if '0' <= c <= '9' then 52 + (c as int - '0' as int)
    else if c == '-' then 62
    else if c == '.' then 63
    else if c == '_' then 64
    else 65
  }

  /**
   * The alphabet is exactly the unreserved set: 66 characters, each
   * unreserved, each at the position `AlphabetIndex` gives it, and every
   * unreserved character among them.
   */
  lemma AlphabetIsUnreserved()
    ensures |ValidChars| == 66
    ensures forall i :: 0 <= i < 66 ==> IsUnreserved(ValidChars[i]) && AlphabetIndex(ValidChars[i]) == i
    ensures forall c :: IsUnreserved(c) ==> ValidChars[AlphabetIndex(c)] == c
  {
    forall i | 0 <= i < 66
      ensures IsUnreserved(ValidChars[i]) && AlphabetIndex(ValidChars[i]) == i
    {
      if i < 26 {
        assert ValidChars[i] as int == 'a' as int + i;
      } else if i < 52 {
        assert ValidChars[i] as int == 'A' as int + (i - 26);
      } else if i < 62 {
        assert ValidChars[i] as int == '0' as int + (i - 52);
      }
    }
  }

  /** No character occurs twice in the alphabet. */
  lemma AlphabetDistinct(i: int, j: int)
    requires 0 <= i < j < |ValidChars|
    ensures ValidChars[i] != ValidChars[j]
  {
    AlphabetIsUnreserved();
    assert AlphabetIndex(ValidChars[i]) == i && AlphabetIndex(ValidChars[j]) == j;
  }

  /** The default verifier length lies in the 43..128 range of section 4.1 of RFC 7636. */
  lemma DefaultLengthInRange()
    ensures 43 <= DefaultVerifierLength <= 128
  {
  }

  /** The verifier a sequence of random bytes selects, one character per byte. */
  function CodeVerifierOf(randomValues: seq<byte>): (v: string)
    ensures |v| == |randomValues|
    ensures forall i :: 0 <= i < |v| ==> IsUnreserved(v[i])
  {
    AlphabetIsUnreserved();
    seq(|randomValues|, i requires 0 <= i < |randomValues| => ValidChars[randomValues[i] % |ValidChars|])
  }

  /**
   * `generateCodeVerifier(length)` with `crypto.getRandomValues` supplying
   * `randomValues`: character i is the alphabet entry the i-th byte selects
   * modulo 66, so the verifier has the requested length and only
   * unreserved characters.
   */
  method GenerateCodeVerifier(length: nat, randomValues: seq<byte>) returns (result: string)
    requires |randomValues| == length
    ensures |result| == length
    ensures forall i :: 0 <= i < length ==> result[i] == ValidChars[randomValues[i] % |ValidChars|]
    ensures forall i :: 0 <= i < length ==> IsUnreserved(result[i])
    ensures result == CodeVerifierOf(randomValues)
  {
    AlphabetIsUnreserved();
    result := "";
    var i := 0;
    while i < |randomValues|
      invariant 0 <= i <= |randomValues|
      invariant |result| == i
      invariant forall k :: 0 <= k < i ==> result[k] == ValidChars[randomValues[k] % |ValidChars|]
    {
      result := result + [ValidChars[randomValues[i] % |ValidChars|]];
      i := i + 1;
    }
  }

  /**
   * `generateCodeChallenge`: the S256 challenge of section 4.2 of RFC 7636,
   * base64url without padding of the SHA-256 digest of the encoded verifier;
   * it is 43 characters long and decodes back to that digest.
   */
  function GenerateCodeChallenge(verifier: string, encode: string -> seq<byte>, sha256: seq<byte> -> Digest): (r: string)
    ensures |r| == 43
    ensures forall i :: 0 <= i < |r| ==> IsUrlSafe(r[i])
    ensures Base64UrlDecode(r) == Some(sha256(encode(verifier)))
  {
    DecodeEncode(sha256(encode(verifier)));
    Base64UrlEncode(sha256(encode(verifier)))
  }

  /** Two verifiers share a challenge only when their digests are equal. */
  lemma ChallengeBindsDigest(v1: string, v2: string, encode: string -> seq<byte>, sha256: seq<byte> -> Digest)
    requires GenerateCodeChallenge(v1, encode, sha256) == GenerateCodeChallenge(v2, encode, sha256)
    ensures sha256(encode(v1)) == sha256(encode(v2))
  {
    EncodeInjective(sha256(encode(v1)), sha256(encode(v2)));
  }
}
