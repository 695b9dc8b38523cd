/** Bytes and fixed-size digests. */
module Bytes {

  /** One element of a `Uint8Array`. */
  type byte = x: int | 0 <= x < 256

  /** A SHA-256 or HMAC-SHA256 output: always 32 bytes. */
  type Digest = d: seq<byte> | |d| == 32 witness seq(32, _ => 0)
}

/**
 * base64url without padding (section 5 of RFC 4648), as the session codec and
 * the PKCE generator write and read it: `btoa` followed by `+`→`-`, `/`→`_`
 * and the removal of trailing `=`; and back: `-`→`+`, `_`→`/`, re-padding to
 * a multiple of four and `atob`, whose result is copied into a byte buffer.
 */
module Base64Url {
  import opened Wrappers
  import opened Bytes

  // ---------------------------------------------------------------------------
  // The standard alphabet (table 1 of RFC 4648)
  // ---------------------------------------------------------------------------

  function StdChar(v: int): (c: char)
    requires 0 <= v < 64
  {
    if v < 26 then ('A' as int + v) as char
    else if v < 52 then ('a' as int + (v - 26)) as char
    else if v < 62 then ('0' as int + (v - 52)) as char
    else if v == 62 then '+'
    else '/'
  }

  /** The 6-bit value of a character of the standard alphabet, if it is one. */
  function StdValue(c: char): (r: Option<int>)
    ensures r.Some? ==> 0 <= r.value < 64 && StdChar(r.value) == c
  {
    if 'A' <= c <= 'Z' then Some(c as int - 'A' as int)
    else if 'a' <= c <= 'z' then Some(c as int - 'a' as int + 26)
    else if '0' <= c <= '9' then Some(c as int - '0' as int + 52)
    else if c == '+' then Some(62)
    else if c == '/' then Some(63)
    else None
  }

  lemma StdValueOfStdChar(v: int)
    requires 0 <= v < 64
    ensures StdValue(StdChar(v)) == Some(v)
  {
  }

  predicate IsStdChar(c: char)
  {
    StdValue(c).Some?
  }

  /** The characters a base64url text without padding may contain. */
  predicate IsUrlSafe(c: char)
  {
    ('A' <= c <= 'Z') || ('a' <= c <= 'z') || ('0' <= c <= '9') || c == '-' || c == '_'
  }

  // ---------------------------------------------------------------------------
  // Encoding
  // ---------------------------------------------------------------------------

  /** The four characters of one complete 3-byte group. */
  function Quad(b0: byte, b1: byte, b2: byte): string
  {
    [StdChar(b0 / 4), StdChar((b0 % 4) * 16 + b1 / 16), StdChar((b1 % 16) * 4 + b2 / 64), StdChar(b2 % 64)]
  }

  /** The characters of the encoding of `b`, without the `=` padding. */
  function StdGroups(b: seq<byte>): (r: string)
    ensures |r| == (4 * |b| + 2) / 3
    decreases |b|
  {
    if |b| == 0 then ""
    else if |b| == 1 then [StdChar(b[0] / 4), StdChar((b[0] % 4) * 16)]
    else if |b| == 2 then [StdChar(b[0] / 4), StdChar((b[0] % 4) * 16 + b[1] / 16), StdChar((b[1] % 16) * 4)]
    else Quad(b[0], b[1], b[2]) + StdGroups(b[3..])
  }

  lemma {:induction false} StdGroupsAlphabet(b: seq<byte>)
    ensures forall i :: 0 <= i < |StdGroups(b)| ==> IsStdChar(StdGroups(b)[i])
    decreases |b|
  {
    if |b| >= 3 {
      StdGroupsAlphabet(b[3..]);
      var q := Quad(b[0], b[1], b[2]);
      assert StdGroups(b) == q + StdGroups(b[3..]);
      StdValueOfStdChar(b[0] / 4);
      StdValueOfStdChar((b[0] % 4) * 16 + b[1] / 16);
      StdValueOfStdChar((b[1] % 16) * 4 + b[2] / 64);
      StdValueOfStdChar(b[2] % 64);
    } else if |b| == 2 {
      StdValueOfStdChar(b[0] / 4);
      StdValueOfStdChar((b[0] % 4) * 16 + b[1] / 16);
      StdValueOfStdChar((b[1] % 16) * 4);
    } else if |b| == 1 {
      StdValueOfStdChar(b[0] / 4);
      StdValueOfStdChar((b[0] % 4) * 16);
    }
  }

  /** The `=` characters that complete the last group to four characters. */
  function Padding(n: nat): string
  {
    if n % 3 == 1 then "==" else if n % 3 == 2 then "=" else ""
  }

  /** `btoa` of the binary string whose character codes are `b`. */
  function Btoa(b: seq<byte>): string
  {
    StdGroups(b) + Padding(|b|)
  }

  /** `s.replace(/a/g, b)`. */
  function ReplaceAll(s: string, a: char, b: char): (r: string)
  {
    seq(|s|, i requires 0 <= i < |s| => if s[i] == a then b else s[i])
  }

  /** `s.replace(/=+$/, '')`: every trailing `=` removed. */
  function StripTrailingPadding(s: string): (r: string)
    decreases |s|
  {
    if s != [] && s[|s| - 1] == '=' then StripTrailingPadding(s[..|s| - 1]) else s
  }

  /** The url-safe form of the groups, which is what the encoder returns. */
  function UrlGroups(b: seq<byte>): string
  {
    ReplaceAll(ReplaceAll(StdGroups(b), '+', '-'), '/', '_')
  }

  lemma StripPaddingAfterGroups(u: string, p: string)
    requires forall i :: 0 <= i < |u| ==> u[i] != '='
    requires forall i :: 0 <= i < |p| ==> p[i] == '='
    ensures StripTrailingPadding(u + p) == u
    decreases |p|
  {
    if p != [] {
      assert (u + p)[..|u + p| - 1] == u + p[..|p| - 1];
      StripPaddingAfterGroups(u, p[..|p| - 1]);
    } else {
      assert u + p == u;
    }
  }

  lemma EncodeIsUrlGroups(b: seq<byte>)
    ensures StripTrailingPadding(ReplaceAll(ReplaceAll(Btoa(b), '+', '-'), '/', '_')) == UrlGroups(b)
  {
    var s := Btoa(b);
    var t := ReplaceAll(ReplaceAll(s, '+', '-'), '/', '_');
    var u := UrlGroups(b);
    var p := Padding(|b|);
    assert t == u + p;
    StdGroupsAlphabet(b);
    forall i | 0 <= i < |u| ensures u[i] != '=' {
      assert IsStdChar(StdGroups(b)[i]);
    }
    StripPaddingAfterGroups(u, p);
  }

  /**
   * base64url without padding. The text uses only `A–Z a–z 0–9 - _` (so no
   * `+`, `/`, `=` or `.`) and has ceil(4n/3) characters for n bytes.
   */
  function Base64UrlEncode(b: seq<byte>): (r: string)
    ensures forall i :: 0 <= i < |r| ==> IsUrlSafe(r[i])
    ensures |r| == (4 * |b| + 2) / 3
  {
    var r := StripTrailingPadding(ReplaceAll(ReplaceAll(Btoa(b), '+', '-'), '/', '_'));
    EncodeIsUrlGroups(b);
    StdGroupsAlphabet(b);
    r
  }

  // ---------------------------------------------------------------------------
  // atob: the forgiving-base64 decode of the HTML standard
  // ---------------------------------------------------------------------------

  predicate IsAsciiWhiteSpace(c: char)
  {
    c == '\t' || c == '\n' || c as int == 0x0C || c == '\r' || c == ' '
  }

  function RemoveAsciiWhiteSpace(s: string): (r: string)
    ensures |r| <= |s|
    decreases |s|
  {
    if s == [] then []
    else if IsAsciiWhiteSpace(s[0]) then RemoveAsciiWhiteSpace(s[1..])
    else [s[0]] + RemoveAsciiWhiteSpace(s[1..])
  }

  /** The character of a binary string that holds byte `x`. */
  function ByteChar(x: int): char
    requires 0 <= x < 256
  {
    x as char
  }

  predicate IsBinary(s: string)
  {
    forall i :: 0 <= i < |s| ==> s[i] as int < 256
  }

  /** The 6-bit value of a character, zero outside the standard alphabet. */
  function Val(c: char): (v: int)
    ensures 0 <= v < 64
  {
    match StdValue(c)
    case Some(v) => v
    case None => 0
  }

  /** The bytes of one group of two, three or four characters. */
  function DecodeGroup(g: string): (r: string)
    requires 2 <= |g| <= 4
    ensures |r| == |g| - 1 && IsBinary(r)
  {
    var first := ByteChar(Val(g[0]) * 4 + Val(g[1]) / 16);
    if |g| == 2 then [first]
    else
      var second := ByteChar((Val(g[1]) % 16) * 16 + Val(g[2]) / 4);
      if |g| == 3 then [first, second]
      else [first, second, ByteChar((Val(g[2]) % 4) * 64 + Val(g[3]))]
  }

  /**
   * Decodes text whose length is not 1 modulo 4 (`atob` has already checked
   * that every character is of the standard alphabet).
   */
  function DecodeStd(d: string): (r: string)
    requires |d| % 4 != 1
    ensures IsBinary(r)
    decreases |d|
  {
    if |d| == 0 then ""
    else if |d| <= 3 then DecodeGroup(d)
    else DecodeGroup(d[..4]) + DecodeStd(d[4..])
  }

  /** One or two final `=` dropped from a text whose length is a multiple of four. */
  function DropPadding(d: string): string
  {
    if |d| % 4 == 0 && |d| >= 2 && d[|d| - 2] == '=' && d[|d| - 1] == '=' then d[..|d| - 2]
    else if |d| % 4 == 0 && |d| >= 1 && d[|d| - 1] == '=' then d[..|d| - 1]
    else d
  }

  /**
   * `atob`: ASCII white space is ignored, one or two final `=` are dropped when
   * the length is a multiple of four, and then anything but a text of the
   * standard alphabet whose length is not 1 modulo 4 fails (the call throws).
   */
  function Atob(data: string): (r: Option<string>)
    ensures r.Some? ==> IsBinary(r.value)
  {
    var d := DropPadding(RemoveAsciiWhiteSpace(data));
    if |d| % 4 == 1 then None
    else if exists i :: 0 <= i < |d| && !IsStdChar(d[i]) then None
    else Some(DecodeStd(d))
  }

  // ---------------------------------------------------------------------------
  // Decoding
  // ---------------------------------------------------------------------------

  /** The standard-alphabet text that the decoder hands to `atob`. */
  function AtobInput(input: string): string
  {
    var normalized := ReplaceAll(ReplaceAll(input, '-', '+'), '_', '/');
    var pad := if |normalized| % 4 == 0 then "" else seq(4 - |normalized| % 4, _ => '=');
    normalized + pad
  }

  function BytesOf(binary: string): (r: seq<byte>)
    requires IsBinary(binary)
    ensures |r| == |binary|
  {
    seq(|binary|, i requires 0 <= i < |binary| => binary[i] as int)
  }

  /** The bytes `base64UrlDecode` returns; `None` where `atob` throws. */
  function Base64UrlDecode(input: string): Option<seq<byte>>
  {
    match Atob(AtobInput(input))
    case None => None
    case Some(binary) => Some(BytesOf(binary))
  }

  /** `base64UrlDecode`: the loop fills a fresh buffer from `atob`'s result. */
  method Base64UrlDecodeToBuffer(input: string) returns (r: Option<seq<byte>>)
    ensures r == Base64UrlDecode(input)
  {
    var binary := Atob(AtobInput(input));
    if binary.None? {
      return None;
    }
    var text := binary.value;
    var buffer := new byte[|text|];
    for i := 0 to |text|
      invariant forall j :: 0 <= j < i ==> buffer[j] == text[j] as int
    {
      buffer[i] := text[i] as int;
    }
    assert buffer[..] == BytesOf(text);
    r := Some(buffer[..]);
  }

  // ---------------------------------------------------------------------------
  // Round trip
  // ---------------------------------------------------------------------------

  function BinaryOf(b: seq<byte>): (r: string)
    ensures |r| == |b| && IsBinary(r)
  {
    seq(|b|, i requires 0 <= i < |b| => ByteChar(b[i]))
  }

  lemma DecodeOneByte(b: seq<byte>)
    requires |b| == 1
    ensures DecodeStd(StdGroups(b)) == BinaryOf(b)
  {
    var g := StdGroups(b);
    assert g == [StdChar(b[0] / 4), StdChar((b[0] % 4) * 16)];
    StdValueOfStdChar(b[0] / 4);
    StdValueOfStdChar((b[0] % 4) * 16);
    assert DecodeStd(g) == DecodeGroup(g);
  }

  lemma DecodeTwoBytes(b: seq<byte>)
    requires |b| == 2
    ensures DecodeStd(StdGroups(b)) == BinaryOf(b)
  {
    var x, y := b[0], b[1];
    var v0, v1, v2 := x / 4, (x % 4) * 16 + y / 16, (y % 16) * 4;
    var g := StdGroups(b);
    assert g == [StdChar(v0), StdChar(v1), StdChar(v2)];
    StdValueOfStdChar(v0);
    StdValueOfStdChar(v1);
    StdValueOfStdChar(v2);
    assert Val(g[0]) == v0 && Val(g[1]) == v1 && Val(g[2]) == v2;
    Split16(x % 4, y / 16);
    Split4(y % 16, 0);
    assert v0 * 4 + v1 / 16 == x;
    assert (v1 % 16) * 16 + v2 / 4 == y;
    assert DecodeStd(g) == DecodeGroup(g) == [ByteChar(x), ByteChar(y)];
  }

  /** The high and low parts of `hi * 16 + lo` are `hi` and `lo` again. */
  lemma Split16(hi: int, lo: int)
    requires 0 <= hi && 0 <= lo < 16
    ensures (hi * 16 + lo) / 16 == hi && (hi * 16 + lo) % 16 == lo
  {
  }

  /** The high and low parts of `hi * 4 + lo` are `hi` and `lo` again. */
  lemma Split4(hi: int, lo: int)
    requires 0 <= hi && 0 <= lo < 4
    ensures (hi * 4 + lo) / 4 == hi && (hi * 4 + lo) % 4 == lo
  {
  }

  lemma DecodeQuad(b0: byte, b1: byte, b2: byte)
    ensures DecodeGroup(Quad(b0, b1, b2)) == BinaryOf([b0, b1, b2])
  {
    var v0, v1, v2, v3 := b0 / 4, (b0 % 4) * 16 + b1 / 16, (b1 % 16) * 4 + b2 / 64, b2 % 64;
    StdValueOfStdChar(v0);
    StdValueOfStdChar(v1);
    StdValueOfStdChar(v2);
    StdValueOfStdChar(v3);
    Split16(b0 % 4, b1 / 16);
    Split4(b1 % 16, b2 / 64);
    var q := Quad(b0, b1, b2);
    assert Val(q[0]) == v0 && Val(q[1]) == v1 && Val(q[2]) == v2 && Val(q[3]) == v3;
  }

  /** The groups of n bytes: four characters per full group, then 0, 2 or 3. */
  lemma GroupsLength(n: nat)
    ensures (4 * n + 2) / 3 == 4 * (n / 3) + (if n % 3 == 0 then 0 else n % 3 + 1)
    ensures ((4 * n + 2) / 3) % 4 == (if n % 3 == 0 then 0 else n % 3 + 1)
  {
    var q, r := n / 3, n % 3;
    assert n == 3 * q + r;
    assert 4 * n + 2 == 3 * (4 * q) + (4 * r + 2);
  }

  lemma StdGroupsLength(b: seq<byte>)
    ensures |StdGroups(b)| % 4 != 1
  {
    GroupsLength(|b|);
  }

  lemma {:induction false} DecodeStdGroups(b: seq<byte>)
    requires |StdGroups(b)| % 4 != 1
    ensures DecodeStd(StdGroups(b)) == BinaryOf(b)
    decreases |b|
  {
    if |b| >= 3 {
      StdGroupsLength(b[3..]);
      DecodeStdGroups(b[3..]);
      DecodeFullGroup(b);
    } else if |b| == 2 {
      DecodeTwoBytes(b);
    } else if |b| == 1 {
      DecodeOneByte(b);
    }
  }

  lemma DecodeFullGroup(b: seq<byte>)
    requires |b| >= 3
    requires |StdGroups(b[3..])| % 4 != 1
    requires DecodeStd(StdGroups(b[3..])) == BinaryOf(b[3..])
    ensures DecodeStd(StdGroups(b)) == BinaryOf(b)
  {
    var g := StdGroups(b);
    var rest := StdGroups(b[3..]);
    var q := Quad(b[0], b[1], b[2]);
    DecodeQuad(b[0], b[1], b[2]);
    assert g == q + rest;
    assert g[..4] == q;
    assert g[4..] == rest;
    assert BinaryOf(b) == BinaryOf([b[0], b[1], b[2]]) + BinaryOf(b[3..]);
  }

  lemma DropPaddingAfterGroups(g: string, p: string)
    requires forall i :: 0 <= i < |g| ==> g[i] != '='
    requires (p == "" && |g| % 4 == 0) || (p == "==" && |g| % 4 == 2) || (p == "=" && |g| % 4 == 3)
    ensures DropPadding(g + p) == g
  {
    var s := g + p;
    if p == "==" {
      assert |s| == |g| + 2 && |s| % 4 == 0;
      assert s[|s| - 2] == '=' && s[|s| - 1] == '=';
      assert s[..|s| - 2] == g;
    } else if p == "=" {
      assert |s| == |g| + 1 && |s| % 4 == 0 && |g| >= 3;
      assert s[|s| - 2] == g[|g| - 1] != '=';
      assert s[|s| - 1] == '=';
      assert s[..|s| - 1] == g;
    } else {
      assert s == g;
      assert |g| >= 1 ==> g[|g| - 1] != '=';
    }
  }

  lemma DropPaddingOfBtoa(b: seq<byte>)
    ensures DropPadding(Btoa(b)) == StdGroups(b)
  {
    var g := StdGroups(b);
    GroupsLength(|b|);
    StdGroupsAlphabet(b);
    forall i | 0 <= i < |g| ensures g[i] != '=' {
      assert IsStdChar(g[i]);
    }
    DropPaddingAfterGroups(g, Padding(|b|));
  }

  lemma AtobOfBtoa(b: seq<byte>)
    ensures Atob(Btoa(b)) == Some(BinaryOf(b))
  {
    var s := Btoa(b);
    var g := StdGroups(b);
    StdGroupsAlphabet(b);
    forall i | 0 <= i < |s| ensures !IsAsciiWhiteSpace(s[i]) {
      if i < |g| { assert IsStdChar(g[i]); }
    }
    NoWhiteSpaceUnchanged(s);
    DropPaddingOfBtoa(b);
    StdGroupsLength(b);
    DecodeStdGroups(b);
  }

  lemma NoWhiteSpaceUnchanged(s: string)
    requires forall i :: 0 <= i < |s| ==> !IsAsciiWhiteSpace(s[i])
    ensures RemoveAsciiWhiteSpace(s) == s
    decreases |s|
  {
    if s != [] {
      NoWhiteSpaceUnchanged(s[1..]);
      assert s == [s[0]] + s[1..];
    }
  }

  /** Undoing the alphabet change and re-padding the encoding gives `btoa`'s text. */
  lemma AtobInputOfEncoding(b: seq<byte>)
    ensures AtobInput(UrlGroups(b)) == Btoa(b)
  {
    var u := UrlGroups(b);
    var g := StdGroups(b);
    var normalized := ReplaceAll(ReplaceAll(u, '-', '+'), '_', '/');
    StdGroupsAlphabet(b);
    forall i | 0 <= i < |g| ensures normalized[i] == g[i] {
      assert IsStdChar(g[i]);
    }
    assert normalized == g;
    GroupsLength(|b|);
  }

  /** Decoding the encoding of any byte sequence gives that sequence back. */
  lemma {:induction false} DecodeEncode(b: seq<byte>)
    ensures Base64UrlDecode(Base64UrlEncode(b)) == Some(b)
  {
    EncodeIsUrlGroups(b);
    AtobInputOfEncoding(b);
    AtobOfBtoa(b);
    assert BytesOf(BinaryOf(b)) == b;
  }

  /** Distinct byte sequences have distinct encodings. */
  lemma EncodeInjective(a: seq<byte>, b: seq<byte>)
    requires Base64UrlEncode(a) == Base64UrlEncode(b)
    ensures a == b
  {
    DecodeEncode(a);
    DecodeEncode(b);
  }
}
