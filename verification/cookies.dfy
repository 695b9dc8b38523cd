/**
 * The OAuth session cookie on the wire, shared by the auth-callback and
 * photos-token functions: reading the request's `Cookie` header into a
 * name-to-value map (`parseCookies`), and writing the `Set-Cookie` header
 * (`buildCookie`).
 */
module Cookies {
  import opened Wrappers
  import opened Strings

  /** The name of the session cookie. */
  const CookieName: string := "pm_oauth_session"

  // ---------------------------------------------------------------------------
  // parseCookies
  // ---------------------------------------------------------------------------

  /**
   * One `;`-separated segment: trimmed and split on `=`, keeping the first
   * two pieces; None when either is empty or missing. A name or value read
   * this way is never empty and never holds `=`.
   */
  function Entry(part: string): (e: Option<(string, string)>)
    ensures e.Some? ==> e.value.0 != "" && e.value.1 != "" && '=' !in e.value.0 && '=' !in e.value.1
  {
    var pieces := Split(Trim(part), '=');
    if pieces[0] != "" && |pieces| >= 2 && pieces[1] != "" then Some((pieces[0], pieces[1])) else None
  }

  /** The segment sets cookie `name`. */
  predicate Sets(part: string, name: string)
  {
    Entry(part).Some? && Entry(part).value.0 == name
  }

  /** One step of the `reduce`: a readable segment writes its value under its name. */
  function Step(acc: map<string, string>, part: string): map<string, string>
  {
    match Entry(part)
    case None => acc
    case Some(kv) => acc[kv.0 := kv.1]
  }

  /**
   * The `reduce` over the segments, left to right, from the accumulator
   * `acc`; a later segment overrides an earlier one.
   */
  function FoldFrom(acc: map<string, string>, parts: seq<string>): map<string, string>
    decreases |parts|
  {
    if parts == [] then acc else FoldFrom(Step(acc, parts[0]), parts[1..])
  }

  /** `parseCookies(header)`: an absent or empty header gives no cookies. */
  function CookiesOf(header: Option<string>): map<string, string>
  {
    if !Truthy(header) then map[] else FoldFrom(map[], Split(header.value, ';'))
  }

  /** `parseCookies`, one segment at a time into an accumulator. */
  method ParseCookies(header: Option<string>) returns (cookies: map<string, string>)
    ensures cookies == CookiesOf(header)
  {
    cookies := map[];
    if !Truthy(header) {
      return;
    }
    var parts := Split(header.value, ';');
    var i := 0;
    while i < |parts|
      invariant 0 <= i <= |parts|
      invariant FoldFrom(cookies, parts[i..]) == CookiesOf(header)
    {
      var entry := Entry(parts[i]);
      if entry.Some? {
        cookies := cookies[entry.value.0 := entry.value.1];
      }
      i := i + 1;
    }
  }

  /** Every name and value in the map is non-empty and free of `=`. */
  predicate WellFormed(cookies: map<string, string>)
  {
    forall k :: k in cookies ==> k != "" && '=' !in k && cookies[k] != "" && '=' !in cookies[k]
  }

  /** Parsing only ever stores non-empty, `=`-free names and values. */
  lemma {:induction false} FoldFromWellFormed(acc: map<string, string>, parts: seq<string>)
    requires WellFormed(acc)
    ensures WellFormed(FoldFrom(acc, parts))
    decreases |parts|
  {
    if parts != [] {
      FoldFromWellFormed(Step(acc, parts[0]), parts[1..]);
    }
  }

  /** Parsed cookies are well formed, whatever the header. */
  lemma CookiesWellFormed(header: Option<string>)
    ensures WellFormed(CookiesOf(header))
  {
    if Truthy(header) {
      FoldFromWellFormed(map[], Split(header.value, ';'));
    }
  }

  /**
   * The value the last segment that sets `name` gives, looking from the
   * end of the header: a reference for what the fold leaves under `name`.
   */
  function LastValue(parts: seq<string>, name: string): Option<string>
    decreases |parts|
  {
    if parts == [] then None
    else
      var later := LastValue(parts[1..], name);
      if later.Some? then later
      else if Sets(parts[0], name) then Some(Entry(parts[0]).value.1)
      else None
  }

  function Get(m: map<string, string>, name: string): Option<string>
  {
    if name in m then Some(m[name]) else None
  }

  /**
   * Last one wins: after the fold, `name` holds the value of the last
   * segment that sets it, or what the accumulator held when none does.
   */
  lemma {:induction false} FoldLookup(acc: map<string, string>, parts: seq<string>, name: string)
    ensures Get(FoldFrom(acc, parts), name) == if LastValue(parts, name).Some? then LastValue(parts, name) else Get(acc, name)
    decreases |parts|
  {
    if parts != [] {
      FoldLookup(Step(acc, parts[0]), parts[1..], name);
    }
  }

  /** For a whole header: a cookie is present exactly when some segment sets it, with the last such value. */
  lemma CookieLookup(header: string, name: string)
    requires header != ""
    ensures Get(CookiesOf(Some(header)), name) == LastValue(Split(header, ';'), name)
  {
    FoldLookup(map[], Split(header, ';'), name);
  }

  /** Folding one more segment applies just that segment. */
  lemma {:induction false} FoldSnoc(acc: map<string, string>, parts: seq<string>, part: string)
    ensures FoldFrom(acc, parts + [part]) == Step(FoldFrom(acc, parts), part)
    decreases |parts|
  {
    if parts == [] {
      assert [] + [part] == [part];
      assert [part][1..] == [];
    } else {
      assert (parts + [part])[1..] == parts[1..] + [part];
      FoldSnoc(Step(acc, parts[0]), parts[1..], part);
    }
  }

  /** A value the parser reads back unchanged: non-empty, no `;` or `=`, no white space at its ends. */
  predicate CookieSafe(v: string)
  {
    Trimmed(v) && ';' !in v && '=' !in v
  }

  /** Non-empty and without white space at either end. */
  predicate Trimmed(v: string)
  {
    v != "" && !IsWhiteSpace(v[0]) && !IsWhiteSpace(v[|v| - 1])
  }

  /** A trimmed text is left alone by `trim`, and so is it after one leading space. */
  lemma TrimSafe(v: string)
    requires Trimmed(v)
    ensures Trim(v) == v && Trim(" " + v) == v
  {
    TrimUnchanged(v);
    assert (" " + v)[1..] == v;
  }

  /** `name=value` splits on `=` into the two texts. */
  lemma SplitPair(name: string, value: string)
    requires '=' !in name && '=' !in value
    ensures Split(name + "=" + value, '=') == [name, value]
  {
    assert name + "=" + value == name + ['='] + value;
    SplitAtSeparator(name, '=', value);
    SplitWithoutSeparator(name, '=');
    SplitWithoutSeparator(value, '=');
  }

  /** The segment `name=value` reads back as that pair, with or without one leading space. */
  lemma EntryOfPair(name: string, value: string)
    requires CookieSafe(name) && CookieSafe(value)
    ensures Entry(name + "=" + value) == Some((name, value))
    ensures Entry(" " + (name + "=" + value)) == Some((name, value))
  {
    var pair := name + "=" + value;
    assert pair[0] == name[0] && pair[|pair| - 1] == value[|value| - 1];
    TrimSafe(pair);
    SplitPair(name, value);
    EntryOfPieces(pair, name, value);
    EntryOfPieces(" " + pair, name, value);
  }

  /** A segment whose trimmed text splits into two non-empty pieces is read as that pair. */
  lemma EntryOfPieces(part: string, name: string, value: string)
    requires name != "" && value != ""
    requires Split(Trim(part), '=') == [name, value]
    ensures Entry(part) == Some((name, value))
  {
  }

  /** A `;`-free text is one segment. */
  lemma HeaderOfOnePart(part: string)
    requires part != "" && ';' !in part
    ensures CookiesOf(Some(part)) == Step(map[], part)
  {
    SplitWithoutSeparator(part, ';');
    assert FoldFrom(map[], [part]) == FoldFrom(Step(map[], part), [part][1..]);
    assert [part][1..] == [];
  }

  /** A header holding just `name=value` parses to exactly that cookie. */
  lemma SingleCookieReadBack(name: string, value: string)
    requires CookieSafe(name) && CookieSafe(value)
    ensures CookiesOf(Some(name + "=" + value)) == map[name := value]
  {
    var pair := name + "=" + value;
    HeaderOfOnePart(pair);
    EntryOfPair(name, value);
  }

  /** A cookie appended as `; name=value` overrides whatever the header held under that name. */
  lemma AppendedCookieWins(header: string, name: string, value: string)
    requires header != ""
    requires CookieSafe(name) && CookieSafe(value)
    ensures CookiesOf(Some(header + "; " + (name + "=" + value))) == CookiesOf(Some(header))[name := value]
  {
    var segment := " " + (name + "=" + value);
    assert ';' !in segment;
    assert header + "; " + (name + "=" + value) == header + [';'] + segment;
    SplitAtSeparator(header, ';', segment);
    SplitWithoutSeparator(segment, ';');
    EntryOfPair(name, value);
    FoldSnoc(map[], Split(header, ';'), segment);
  }

  // ---------------------------------------------------------------------------
  // buildCookie
  // ---------------------------------------------------------------------------

  /** The `;`-separated parts of the `Set-Cookie` value: the pair, then the attributes. */
  function CookieParts(value: string, maxAgeSeconds: nat): seq<string>
  {
    [CookieName + "=" + value, " Path=/", " HttpOnly", " SameSite=None", " Secure", " Max-Age=" + NatToString(maxAgeSeconds)]
  }

  /**
   * `buildCookie(value, maxAgeSeconds)`: the `Set-Cookie` header value
   * `pm_oauth_session=<value>; Path=/; HttpOnly; SameSite=None; Secure; Max-Age=<n>`.
   */
  function BuildCookie(value: string, maxAgeSeconds: nat): string
  {
    Join(CookieParts(value, maxAgeSeconds), ';')
  }

  /**
   * Read as `;`-separated parts (section 5.2 of RFC 6265), the header is the
   * session cookie's name-value pair followed by the attributes Path=/,
   * HttpOnly, SameSite=None, Secure and Max-Age with the given number.
   */
  lemma BuildCookieParts(value: string, maxAgeSeconds: nat)
    requires ';' !in value
    ensures Split(BuildCookie(value, maxAgeSeconds), ';')
         == [CookieName + "=" + value, " Path=/", " HttpOnly", " SameSite=None", " Secure", " Max-Age=" + NatToString(maxAgeSeconds)]
  {
    var parts := CookieParts(value, maxAgeSeconds);
    assert ';' !in NatToString(maxAgeSeconds) by {
      assert forall i :: 0 <= i < |NatToString(maxAgeSeconds)| ==> IsDigit(NatToString(maxAgeSeconds)[i]);
    }
    assert forall i :: 0 <= i < |parts| ==> ';' !in parts[i];
    SplitJoin(parts, ';');
  }

  /**
   * Round trip: the name-value pair of the `Set-Cookie` header, sent back
   * as the request's `Cookie` header, parses to the session cookie with
   * the value that was set.
   */
  lemma BuildCookieReadBack(value: string, maxAgeSeconds: nat)
    requires CookieSafe(value)
    ensures CookiesOf(Some(Split(BuildCookie(value, maxAgeSeconds), ';')[0])) == map[CookieName := value]
  {
    BuildCookieParts(value, maxAgeSeconds);
    SingleCookieReadBack(CookieName, value);
  }
}
