/**
 * The browser's client for the Google Photos Picker API: the configured
 * maximum selection, request URLs, the normalisation of picked items, the
 * `"<seconds>s"` durations the API reports, and the two loops that page
 * through a selection and poll a session until the user has picked.
 *
 * The network is a parameter: a request's answer is given as a `Result`
 * whose `Err` carries the text of a non-ok response, and the loops take the
 * answers of their successive requests, in order, as sequences. Clock
 * readings are given the same way; `sleep` only records its duration.
 */
module Picker {
  import opened Wrappers
  import opened Strings
  import opened Http

  const ApiBase: string := "https://photospicker.googleapis.com/v1"
  const DefaultMaxItemCount: int := 50
  const MissingApiKey: string := "Missing VITE_GOOGLE_API_KEY in environment."

  // ---------------------------------------------------------------------------
  // RESOLVED_MAX_ITEM_COUNT
  // ---------------------------------------------------------------------------

  /** `Math.round` of a positive number: the nearest integer, halves rounding up. */
  function Round(x: real): (n: int)
    ensures n as real - 0.5 <= x < n as real + 0.5
  {
    (x + 0.5).Floor
  }

  /**
   * `RESOLVED_MAX_ITEM_COUNT` as written. `parsed` is
   * `Number(VITE_PHOTOS_MAX_ITEM_COUNT)` when that is finite and None when it
   * is NaN or infinite (an unset variable gives NaN).
   */
  function ResolvedMaxItemCount(parsed: Option<real>): (n: int)
    ensures parsed.Some? && parsed.value > 0.0 ==> n as real - 0.5 <= parsed.value < n as real + 0.5
    ensures !(parsed.Some? && parsed.value > 0.0) ==> n == DefaultMaxItemCount
    ensures n >= 0
  {
    if parsed.Some? && parsed.value > 0.0 then Round(parsed.value) else DefaultMaxItemCount
  }

  /** A positive setting below one half passes the guard and still yields a maximum of zero items. */
  lemma SmallSettingGivesZero()
    ensures ResolvedMaxItemCount(Some(0.25)) == 0
  {
  }

  /**
   * The maximum with the guard the code evidently means: a setting that does
   * not round to a positive count falls back to the default, like any other
   * unusable setting.
   */
  function MaxItemCount(parsed: Option<real>): (n: int)
    ensures n >= 1
    ensures ResolvedMaxItemCount(parsed) >= 1 ==> n == ResolvedMaxItemCount(parsed)
    ensures ResolvedMaxItemCount(parsed) < 1 ==> n == DefaultMaxItemCount
  {
    var n := ResolvedMaxItemCount(parsed);
    if n >= 1 then n else DefaultMaxItemCount
  }

  /** The `pickingConfig` sent when a picker session is created. */
  datatype PickingConfig = PickingConfig(maxItemCount: int)

  /**
   * `defaultBody` as written: it carries `RESOLVED_MAX_ITEM_COUNT`, so a
   * positive setting is sent rounded (0 for a setting below one half) and
   * any other setting sends the default.
   */
  function DefaultBody(parsed: Option<real>): (body: PickingConfig)
    ensures body.maxItemCount >= 0
    ensures parsed.Some? && parsed.value > 0.0 ==> body.maxItemCount as real - 0.5 <= parsed.value < body.maxItemCount as real + 0.5
    ensures !(parsed.Some? && parsed.value > 0.0) ==> body.maxItemCount == DefaultMaxItemCount
  {
    PickingConfig(ResolvedMaxItemCount(parsed))
  }

  /** The body as written asks for no items at all when the setting is 0.25. */
  lemma SmallSettingSendsZero()
    ensures DefaultBody(Some(0.25)).maxItemCount == 0
  {
    SmallSettingGivesZero();
  }

  /** The body with the corrected maximum: it always asks for at least one item. */
  function CorrectedDefaultBody(parsed: Option<real>): (body: PickingConfig)
    ensures body.maxItemCount >= 1
    ensures DefaultBody(parsed).maxItemCount >= 1 ==> body == DefaultBody(parsed)
    ensures parsed.Some? && parsed.value >= 0.5 ==> body.maxItemCount as real - 0.5 <= parsed.value < body.maxItemCount as real + 0.5
  {
    PickingConfig(MaxItemCount(parsed))
  }

  // ---------------------------------------------------------------------------
  // buildUrl and request
  // ---------------------------------------------------------------------------

  /** The URL of an API path, with the API key as the last query parameter. */
  function BuildUrl(path: string, apiKey: Option<string>): (r: Result<string>)
    ensures r.Err? <==> !Truthy(apiKey)
    ensures r.Err? ==> r.error == MissingApiKey
    ensures r.Ok? ==> && StartsWith(r.value, ApiBase + path)
                      && EndsWith(r.value, "key=" + apiKey.value)
                      && |r.value| == |ApiBase + path| + 1 + |"key=" + apiKey.value|
                      && r.value[|ApiBase + path|] == (if '?' in path then '&' else '?')
  {
    if !Truthy(apiKey) then Err(MissingApiKey)
    else
      var separator := if '?' in path then '&' else '?';
      Ok(ApiBase + path + [separator] + "key=" + apiKey.value)
  }

  /** A path without a query gets exactly one `?`, the one before the key. */
  lemma BuildUrlSingleQuery(path: string, key: string)
    requires key != "" && '?' !in path && '?' !in key
    ensures Split(BuildUrl(path, Some(key)).value, '?') == [ApiBase + path, "key=" + key]
  {
    assert '?' !in ApiBase by {
      forall i | 0 <= i < |ApiBase|
        ensures ApiBase[i] != '?'
      {
      }
    }
    var url := ApiBase + path + ['?'] + "key=" + key;
    assert url == (ApiBase + path) + ['?'] + ("key=" + key);
    SplitAtSeparator(ApiBase + path, '?', "key=" + key);
    SplitWithoutSeparator(ApiBase + path, '?');
    SplitWithoutSeparator("key=" + key, '?');
  }

  function ApiError(text: string): string
  {
    "Google Photos Picker API error: " + text
  }

  /**
   * `request(path, …)`: what the awaited call yields, given the answer of
   * the server (`Err` holds the text of a non-ok response). Without an API
   * key nothing is sent and the call throws.
   */
  function Requested<T>(apiKey: Option<string>, answer: Result<T>): (r: Result<T>)
    ensures !Truthy(apiKey) ==> r == Err(MissingApiKey)
    ensures Truthy(apiKey) && answer.Ok? ==> r == answer
    ensures Truthy(apiKey) && answer.Err? ==> r == Err(ApiError(answer.error))
  {
    if !Truthy(apiKey) then Err(MissingApiKey)
    else if answer.Err? then Err(ApiError(answer.error))
    else answer
  }

  // ---------------------------------------------------------------------------
  // Items
  // ---------------------------------------------------------------------------

  datatype MediaType = TypeUnspecified | Photo | Video

  /** A picked item as the application uses it. */
  datatype MediaItem = MediaItem(
    id: string,
    filename: string,
    description: Option<string>,
    mimeType: string,
    baseUrl: string,
    productUrl: Option<string>,
    width: Option<string>,
    height: Option<string>,
    createTime: Option<string>,
    mediaType: Option<MediaType>)

  datatype MediaFileMetadata = MediaFileMetadata(width: Option<nat>, height: Option<nat>)

  datatype MediaFile = MediaFile(
    baseUrl: Option<string>,
    mimeType: Option<string>,
    filename: Option<string>,
    mediaFileMetadata: Option<MediaFileMetadata>)

  /** A picked item as the API lists it; every field may be missing. */
  datatype RawPickedMediaItem = RawPickedMediaItem(
    id: Option<string>,
    createTime: Option<string>,
    mediaType: Option<MediaType>,
    mediaFile: Option<MediaFile>)

  /** An item with a non-empty id and a non-empty `mediaFile.baseUrl`. */
  predicate Usable(item: RawPickedMediaItem)
  {
    Truthy(item.id) && item.mediaFile.Some? && Truthy(item.mediaFile.value.baseUrl)
  }

  /** `mediaFileMetadata?.<dimension>?.toString()`. */
  function Dimension(metadata: Option<MediaFileMetadata>, width: bool): Option<string>
  {
    if metadata.None? then None
    else
      var d := if width then metadata.value.width else metadata.value.height;
      if d.Some? then Some(NatToString(d.value)) else None
  }

  /** `normalizePickedItem`: the item, or None when it cannot be shown. */
  function NormalizePickedItem(item: RawPickedMediaItem): (r: Option<MediaItem>)
    ensures r.None? <==> !Usable(item)
    ensures r.Some? ==> && r.value.id == item.id.value && r.value.id != ""
                        && r.value.baseUrl == item.mediaFile.value.baseUrl.value && r.value.baseUrl != ""
                        && r.value.createTime == item.createTime && r.value.mediaType == item.mediaType
                        && r.value.description.None? && r.value.productUrl.None?
    ensures r.Some? ==> var file := item.mediaFile.value;
                        && r.value.filename == (if file.filename.Some? then file.filename.value else "Google Photos item")
                        && r.value.mimeType == (if file.mimeType.Some? then file.mimeType.value else "application/octet-stream")
  {
    if !Usable(item) then None
    else
      var file := item.mediaFile.value;
      Some(MediaItem(
        item.id.value,
        if file.filename.Some? then file.filename.value else "Google Photos item",
        None,
        if file.mimeType.Some? then file.mimeType.value else "application/octet-stream",
        file.baseUrl.value,
        None,
        Dimension(file.mediaFileMetadata, true),
        Dimension(file.mediaFileMetadata, false),
        item.createTime,
        item.mediaType))
  }

  /** The dimensions are the decimal numerals of the listed ones: reading them gives the numbers back. */
  lemma NormalizedDimensions(item: RawPickedMediaItem)
    requires Usable(item)
    ensures var r := NormalizePickedItem(item).value;
            var metadata := item.mediaFile.value.mediaFileMetadata;
      && (r.width.Some? <==> metadata.Some? && metadata.value.width.Some?)
      && (r.height.Some? <==> metadata.Some? && metadata.value.height.Some?)
      && (r.width.Some? ==> AllDigits(r.width.value) && DigitsValue(r.width.value) == metadata.value.width.value)
      && (r.height.Some? ==> AllDigits(r.height.value) && DigitsValue(r.height.value) == metadata.value.height.value)
  {
    var metadata := item.mediaFile.value.mediaFileMetadata;
    if metadata.Some? && metadata.value.width.Some? {
      DigitsValueOfNatToString(metadata.value.width.value);
    }
    if metadata.Some? && metadata.value.height.Some? {
      DigitsValueOfNatToString(metadata.value.height.value);
    }
  }

  /** `items.map(normalizePickedItem).filter(Boolean)`. */
  function NormalizeAll(items: seq<RawPickedMediaItem>): (r: seq<MediaItem>)
    ensures |r| <= |items|
    ensures forall i :: 0 <= i < |r| ==> r[i].id != "" && r[i].baseUrl != ""
    decreases |items|
  {
    if items == [] then []
    else
      var head := NormalizePickedItem(items[0]);
      (if head.Some? then [head.value] else []) + NormalizeAll(items[1..])
  }

  /** Normalising a concatenation normalises each part: the order is kept and nothing is merged. */
  lemma {:induction false} NormalizeAllAppend(a: seq<RawPickedMediaItem>, b: seq<RawPickedMediaItem>)
    ensures NormalizeAll(a + b) == NormalizeAll(a) + NormalizeAll(b)
    decreases |a|
  {
    if a == [] {
      assert a + b == b;
    } else {
      assert (a + b)[0] == a[0];
      assert (a + b)[1..] == a[1..] + b;
      NormalizeAllAppend(a[1..], b);
    }
  }

  /** Usable items are all kept, in order; unusable ones all dropped. */
  lemma {:induction false} NormalizeAllUsable(items: seq<RawPickedMediaItem>)
    ensures (forall i :: 0 <= i < |items| ==> Usable(items[i])) ==>
              |NormalizeAll(items)| == |items|
              && forall i :: 0 <= i < |items| ==> NormalizeAll(items)[i] == NormalizePickedItem(items[i]).value
    ensures (forall i :: 0 <= i < |items| ==> !Usable(items[i])) ==> NormalizeAll(items) == []
    decreases |items|
  {
    if items != [] {
      NormalizeAllUsable(items[1..]);
      assert forall i :: 1 <= i < |items| ==> items[1..][i - 1] == items[i];
    }
  }

  // ---------------------------------------------------------------------------
  // durationToMs
  // ---------------------------------------------------------------------------

  function Pow10(k: nat): (p: nat)
    ensures p >= 1
  {
    if k == 0 then 1 else 10 * Pow10(k - 1)
  }

  /** The digit runs of `[0-9]+(\.[0-9]+)?`: the whole part and the (possibly empty) fraction. */
  function DecimalParts(body: string): (r: Option<(string, string)>)
    ensures r.Some? ==> && r.value.0 != "" && AllDigits(r.value.0) && AllDigits(r.value.1)
                        && (if r.value.1 == "" then body == r.value.0 else body == r.value.0 + "." + r.value.1)
  {
    var parts := Split(body, '.');
    JoinSplit(body, '.');
    if |parts| == 1 && parts[0] != "" && AllDigits(parts[0]) then
      Some((parts[0], ""))
    else if |parts| == 2 && parts[0] != "" && parts[1] != "" && AllDigits(parts[0]) && AllDigits(parts[1]) then
      assert Join(parts, '.') == parts[0] + "." + parts[1];
      Some((parts[0], parts[1]))
    else
      None
  }

  /** The number a decimal numeral with the given whole and fractional digits denotes. */
  function DecimalValue(whole: string, fraction: string): real
    requires AllDigits(whole) && AllDigits(fraction)
  {
    DigitsValue(whole) as real + DigitsValue(fraction) as real / Pow10(|fraction|) as real
  }

  /**
   * `durationToMs`: the milliseconds of a `"<seconds>s"` duration, or None
   * when the text is absent, empty or not of that form.
   */
  function DurationToMs(duration: Option<string>): (r: Option<real>)
    ensures !Truthy(duration) ==> r.None?
    ensures r.Some? ==> r.value >= 0.0
    ensures r.Some? ==> && |duration.value| >= 2 && duration.value[|duration.value| - 1] == 's'
                        && IsDigit(duration.value[0])
  {
    if !Truthy(duration) then None
    else
      var s := duration.value;
      if s[|s| - 1] != 's' then None
      else match DecimalParts(s[..|s| - 1])
        case None => None
        case Some(parts) =>
          assert s[0] == parts.0[0];
          Some(DecimalValue(parts.0, parts.1) * 1000.0)
  }

  /** A text ending in the unit is read through the numeral before it. */
  lemma DurationOfText(body: string)
    ensures var parts := DecimalParts(body);
      DurationToMs(Some(body + "s")) == if parts.None? then None else Some(DecimalValue(parts.value.0, parts.value.1) * 1000.0)
  {
    var s := body + "s";
    assert s[..|s| - 1] == body;
  }

  /** A numeral has no decimal point. */
  lemma NoPoint(w: string)
    requires AllDigits(w)
    ensures '.' !in w
  {
    forall i | 0 <= i < |w|
      ensures w[i] != '.'
    {
      assert IsDigit(w[i]);
    }
  }

  /** `"<n>s"` is n seconds. */
  lemma DurationOfWholeSeconds(n: nat)
    ensures DurationToMs(Some(NatToString(n) + "s")) == Some(n as real * 1000.0)
  {
    var w := NatToString(n);
    NoPoint(w);
    SplitWithoutSeparator(w, '.');
    assert DecimalParts(w) == Some((w, ""));
    DurationOfText(w);
    DigitsValueOfNatToString(n);
  }

  /** The digit runs on either side of the point of `"<whole>.<fraction>"`. */
  lemma DecimalPartsOfFraction(whole: string, fraction: string)
    requires whole != "" && fraction != "" && AllDigits(whole) && AllDigits(fraction)
    ensures DecimalParts(whole + "." + fraction) == Some((whole, fraction))
  {
    NoPoint(whole);
    NoPoint(fraction);
    assert whole + "." + fraction == whole + ['.'] + fraction;
    SplitAtSeparator(whole, '.', fraction);
    SplitWithoutSeparator(whole, '.');
    SplitWithoutSeparator(fraction, '.');
  }

  /** `"<whole>.<fraction>s"` is the seconds the decimal numeral denotes. */
  lemma DurationOfDecimalSeconds(whole: string, fraction: string)
    requires whole != "" && fraction != "" && AllDigits(whole) && AllDigits(fraction)
    ensures DurationToMs(Some(whole + "." + fraction + "s"))
         == Some(DecimalValue(whole, fraction) * 1000.0)
  {
    DecimalPartsOfFraction(whole, fraction);
    DurationOfText(whole + "." + fraction);
  }

  /** A fractional duration keeps its fraction: `"1.5s"` is 1500 ms, and `"0s"` is zero, not absent. */
  lemma DurationExamples()
    ensures DurationToMs(Some("1.5s")) == Some(1500.0)
    ensures DurationToMs(Some("0s")) == Some(0.0)
  {
    DurationOfDecimalSeconds("1", "5");
    assert "1" + "." + "5" + "s" == "1.5s";
    assert DigitsValue("1") == 1 && DigitsValue("5") == 5;
    DurationOfWholeSeconds(0);
    assert NatToString(0) + "s" == "0s";
  }

  /** Texts outside the pattern: no unit, a bare fraction, a trailing point, a sign. */
  lemma DurationRejects()
    ensures DurationToMs(None).None? && DurationToMs(Some("")).None?
    ensures DurationToMs(Some("5")).None?
    ensures DurationToMs(Some(".5s")).None?
    ensures DurationToMs(Some("-1s")).None?
    ensures DurationToMs(Some("1.s")).None?
  {
    SplitWithoutSeparator("", '.');
    SplitWithoutSeparator("1", '.');
    SplitWithoutSeparator("5", '.');
    SplitWithoutSeparator("-1", '.');
    assert "1." == "1" + ['.'] + "";
    SplitAtSeparator("1", '.', "");
    assert ".5" == "" + ['.'] + "5";
    SplitAtSeparator("", '.', "5");
    assert !IsDigit('-');
  }

  // ---------------------------------------------------------------------------
  // listPickedMediaItems
  // ---------------------------------------------------------------------------

  datatype MediaItemsListResponse = MediaItemsListResponse(
    mediaItems: Option<seq<RawPickedMediaItem>>,
    nextPageToken: Option<string>)

  /** The query of one listing request. */
  function PageQuery(sessionId: string, pageToken: Option<string>): seq<(string, string)>
  {
    [("sessionId", sessionId), ("pageSize", "100")]
    + if Truthy(pageToken) then [("pageToken", pageToken.value)] else []
  }

  /** A request names the session, asks for pages of 100, and carries a page token exactly when it has a non-empty one. */
  lemma PageQueryValues(sessionId: string, pageToken: Option<string>)
    ensures var q := PageQuery(sessionId, pageToken);
      && QueryValue(q, "sessionId") == Some(sessionId)
      && QueryValue(q, "pageSize") == Some("100")
      && QueryValue(q, "pageToken") == if Truthy(pageToken) then pageToken else None
  {
    var q := PageQuery(sessionId, pageToken);
    QueryValueUnique(q, 0);
    QueryValueUnique(q, 1);
    if Truthy(pageToken) {
      QueryValueUnique(q, 2);
    } else {
      QueryValueAbsent(q, "pageToken");
    }
  }

  /** The items of one page, `(mediaItems ?? []).map(…).filter(Boolean)`. */
  function PageItems(response: MediaItemsListResponse): seq<MediaItem>
  {
    NormalizeAll(if response.mediaItems.Some? then response.mediaItems.value else [])
  }

  /** The page token the `j`-th listing request is built with: none for the first, then the previous page's. */
  function TokenBefore(pages: seq<Result<MediaItemsListResponse>>, j: nat): Option<string>
  {
    if j == 0 || j > |pages| || pages[j - 1].Err? then None else pages[j - 1].value.nextPageToken
  }

  /** The queries of the first `n` listing requests. */
  function Queries(sessionId: string, pages: seq<Result<MediaItemsListResponse>>, n: nat): (q: seq<seq<(string, string)>>)
    ensures |q| == n
    ensures forall j :: 0 <= j < n ==> q[j] == PageQuery(sessionId, TokenBefore(pages, j))
  {
    if n == 0 then [] else Queries(sessionId, pages, n - 1) + [PageQuery(sessionId, TokenBefore(pages, n - 1))]
  }

  /** Whether the loop asks for another page after this answer. */
  predicate Continues(apiKey: Option<string>, page: Result<MediaItemsListResponse>)
  {
    Truthy(apiKey) && page.Ok? && Truthy(page.value.nextPageToken)
  }

  /** The answers given end the listing: one of them fails or has no next page. */
  predicate Ends(apiKey: Option<string>, pages: seq<Result<MediaItemsListResponse>>)
  {
    exists k :: 0 <= k < |pages| && !Continues(apiKey, pages[k])
  }

  /** The index of the last page requested. */
  function StopIndex(apiKey: Option<string>, pages: seq<Result<MediaItemsListResponse>>): (k: nat)
    requires Ends(apiKey, pages)
    ensures k < |pages| && !Continues(apiKey, pages[k])
    ensures forall j :: 0 <= j < k ==> Continues(apiKey, pages[j])
    decreases |pages|
  {
    if !Continues(apiKey, pages[0]) then 0
    else
      assert Ends(apiKey, pages[1..]) by {
        var k :| 0 <= k < |pages| && !Continues(apiKey, pages[k]);
        assert pages[1..][k - 1] == pages[k];
      }
      var k := 1 + StopIndex(apiKey, pages[1..]);
      assert forall j :: 1 <= j < k ==> pages[j] == pages[1..][j - 1];
      k
  }

  /** The items of the first `n` pages, page after page. */
  function Collected(pages: seq<Result<MediaItemsListResponse>>, n: nat): (r: seq<MediaItem>)
    requires n <= |pages|
    requires forall j :: 0 <= j < n ==> pages[j].Ok?
  {
    if n == 0 then [] else Collected(pages, n - 1) + PageItems(pages[n - 1].value)
  }

  /** The listing's outcome: the items of every page requested, or the error of the request that failed. */
  function Listing(apiKey: Option<string>, pages: seq<Result<MediaItemsListResponse>>): Result<seq<MediaItem>>
    requires Ends(apiKey, pages)
  {
    var k := StopIndex(apiKey, pages);
    var last := Requested(apiKey, pages[k]);
    if last.Err? then Err(last.error) else Ok(Collected(pages, k + 1))
  }

  /**
   * `listPickedMediaItems`: requests pages until one has no next-page token,
   * collecting each page's usable items. Also returns the query of every
   * request made.
   */
  method ListPickedMediaItems(apiKey: Option<string>, sessionId: string, pages: seq<Result<MediaItemsListResponse>>)
    returns (r: Result<seq<MediaItem>>, queries: seq<seq<(string, string)>>)
    requires Ends(apiKey, pages)
    ensures r == Listing(apiKey, pages)
    ensures queries == Queries(sessionId, pages, StopIndex(apiKey, pages) + 1)
  {
    ghost var k := StopIndex(apiKey, pages);
    var items: seq<MediaItem> := [];
    var pageToken: Option<string> := None;
    var i := 0;
    queries := [];
    while true
      invariant 0 <= i <= k
      invariant forall j :: 0 <= j < i ==> pages[j].Ok?
      invariant items == Collected(pages, i)
      invariant queries == Queries(sessionId, pages, i)
      invariant pageToken == TokenBefore(pages, i)
      decreases k - i
    {
      ListingStep(apiKey, pages, i);
      queries := queries + [PageQuery(sessionId, pageToken)];
      var response := Requested(apiKey, pages[i]);
      if response.Err? {
        return Err(response.error), queries;
      }
      ListingCollects(pages, i);
      items := items + PageItems(response.value);
      pageToken := response.value.nextPageToken;
      if !Truthy(pageToken) {
        return Ok(items), queries;
      }
      i := i + 1;
    }
  }

  /** One turn of the listing loop: either it is the last request, and the listing is decided, or the loop goes on. */
  lemma ListingStep(apiKey: Option<string>, pages: seq<Result<MediaItemsListResponse>>, i: nat)
    requires Ends(apiKey, pages) && i <= StopIndex(apiKey, pages)
    requires forall j :: 0 <= j < i ==> pages[j].Ok?
    ensures Continues(apiKey, pages[i]) ==> i < StopIndex(apiKey, pages) && pages[i].Ok?
    ensures !Continues(apiKey, pages[i]) ==> i == StopIndex(apiKey, pages)
    ensures Requested(apiKey, pages[i]).Err? ==> Listing(apiKey, pages) == Err(Requested(apiKey, pages[i]).error)
    ensures Requested(apiKey, pages[i]).Ok? && !Truthy(pages[i].value.nextPageToken) ==> Listing(apiKey, pages) == Ok(Collected(pages, i + 1))
  {
    if !Continues(apiKey, pages[i]) {
      assert i == StopIndex(apiKey, pages);
    }
  }

  /** A page that was answered adds its items to those collected and hands its token to the next request. */
  lemma ListingCollects(pages: seq<Result<MediaItemsListResponse>>, i: nat)
    requires i < |pages| && forall j :: 0 <= j <= i ==> pages[j].Ok?
    ensures Collected(pages, i + 1) == Collected(pages, i) + PageItems(pages[i].value)
    ensures TokenBefore(pages, i + 1) == pages[i].value.nextPageToken
  {
  }

  /** The first request carries no page token; each later one carries the token of the page before it. */
  lemma RequestPageTokens(sessionId: string, pages: seq<Result<MediaItemsListResponse>>, n: nat, j: nat)
    requires j < n
    ensures j == 0 ==> QueryValue(Queries(sessionId, pages, n)[j], "pageToken") == None
    ensures 0 < j <= |pages| && pages[j - 1].Ok? && Truthy(pages[j - 1].value.nextPageToken) ==>
              QueryValue(Queries(sessionId, pages, n)[j], "pageToken") == pages[j - 1].value.nextPageToken
  {
    PageQueryValues(sessionId, TokenBefore(pages, j));
  }

  /** No deduplication: a selection listed twice over two pages comes back twice. */
  lemma ListingKeepsDuplicates(apiKey: Option<string>, items: seq<RawPickedMediaItem>, token: string)
    requires Truthy(apiKey) && token != ""
    ensures var pages := [Ok(MediaItemsListResponse(Some(items), Some(token))), Ok(MediaItemsListResponse(Some(items), None))];
      && Ends(apiKey, pages)
      && Listing(apiKey, pages) == Ok(NormalizeAll(items) + NormalizeAll(items))
  {
    var pages := [Ok(MediaItemsListResponse(Some(items), Some(token))), Ok(MediaItemsListResponse(Some(items), None))];
    assert !Continues(apiKey, pages[1]);
    assert StopIndex(apiKey, pages[1..]) == 0;
    assert StopIndex(apiKey, pages) == 1;
    assert Collected(pages, 1) == PageItems(pages[0].value);
  }

  /** A page whose next-page token is empty is the last one requested, whatever would follow. */
  lemma ListingStopsOnEmptyToken(apiKey: Option<string>, first: MediaItemsListResponse, rest: seq<Result<MediaItemsListResponse>>)
    requires Truthy(apiKey) && !Truthy(first.nextPageToken)
    ensures Ends(apiKey, [Ok(first)] + rest)
    ensures Listing(apiKey, [Ok(first)] + rest) == Ok(PageItems(first))
  {
    var pages := [Ok(first)] + rest;
    assert !Continues(apiKey, pages[0]);
    assert StopIndex(apiKey, pages) == 0;
    assert Collected(pages, 1) == PageItems(first);
  }

  /** A failed request fails the whole listing with the API's message, discarding the pages already collected. */
  lemma ListingFailure(apiKey: Option<string>, first: MediaItemsListResponse, text: string)
    requires Truthy(apiKey) && Truthy(first.nextPageToken)
    ensures Ends(apiKey, [Ok(first), Err(text)])
    ensures Listing(apiKey, [Ok(first), Err(text)]) == Err(ApiError(text))
  {
    var pages: seq<Result<MediaItemsListResponse>> := [Ok(first), Err(text)];
    assert !Continues(apiKey, pages[1]);
    assert StopIndex(apiKey, pages[1..]) == 0;
  }

  // ---------------------------------------------------------------------------
  // waitForMediaItems
  // ---------------------------------------------------------------------------

  const ProgressMessage: string := "Waiting for Google Photos selection..."
  const TimeoutMessage: string := "Timed out waiting for Google Photos selection."
  const DefaultPollIntervalMs: real := 2000.0
  const DefaultTimeoutMs: real := 120000.0

  datatype PollingConfig = PollingConfig(pollInterval: Option<string>, timeoutIn: Option<string>)

  datatype PickingSession = PickingSession(
    id: Option<string>,
    pickerUri: Option<string>,
    mediaItemsSet: Option<bool>,
    pollingConfig: Option<PollingConfig>)

  /**
   * One turn of the polling loop as the environment answers it: the clock
   * when the loop condition is tested, the answer to `getPickerSession`, and
   * the clock when the deadline is reset.
   */
  datatype Poll = Poll(testedAt: int, session: Result<PickingSession>, resetAt: int)

  function PollIntervalText(s: PickingSession): Option<string>
  {
    if s.pollingConfig.Some? then s.pollingConfig.value.pollInterval else None
  }

  function TimeoutInText(s: PickingSession): Option<string>
  {
    if s.pollingConfig.Some? then s.pollingConfig.value.timeoutIn else None
  }

  /** `durationToMs(pollInterval) ?? 2000`. */
  function PollInterval(s: PickingSession): (ms: real)
    ensures DurationToMs(PollIntervalText(s)).None? ==> ms == DefaultPollIntervalMs
    ensures DurationToMs(PollIntervalText(s)).Some? ==> ms == DurationToMs(PollIntervalText(s)).value
  {
    var ms := DurationToMs(PollIntervalText(s));
    if ms.Some? then ms.value else DefaultPollIntervalMs
  }

  /** The deadline after a poll: reset to `now + timeoutIn` when the suggestion is present and not zero. */
  function NextDeadline(deadline: real, s: PickingSession, resetAt: int): (d: real)
    ensures var t := DurationToMs(TimeoutInText(s));
      && (t.Some? && t.value != 0.0 ==> d == resetAt as real + t.value)
      && (t.None? || t.value == 0.0 ==> d == deadline)
  {
    var t := DurationToMs(TimeoutInText(s));
    if t.Some? && t.value != 0.0 then resetAt as real + t.value else deadline
  }

  /** A poll interval of `"0s"` is zero, not the default: only an unreadable interval falls back. */
  lemma PollIntervalFallback(s: PickingSession, n: nat)
    ensures PollIntervalText(s).None? ==> PollInterval(s) == DefaultPollIntervalMs
    ensures PollIntervalText(s) == Some(NatToString(n) + "s") ==> PollInterval(s) == n as real * 1000.0
  {
    DurationOfWholeSeconds(n);
  }

  /** A `"0s"` suggestion leaves the deadline alone; `"<n>s"` with n > 0 moves it to n seconds after the reading. */
  lemma DeadlineReset(deadline: real, s: PickingSession, resetAt: int, n: nat)
    requires TimeoutInText(s) == Some(NatToString(n) + "s")
    ensures n == 0 ==> NextDeadline(deadline, s, resetAt) == deadline
    ensures n > 0 ==> NextDeadline(deadline, s, resetAt) == resetAt as real + n as real * 1000.0
  {
    DurationOfWholeSeconds(n);
  }

  /** How the polling loop ends, with the number of sessions fetched. */
  datatype Wait = Selected(fetches: nat) | Failed(fetches: nat, error: string) | TimedOut(fetches: nat)

  /**
   * The polling loop from turn `i` with the current deadline; None when the
   * given turns run out before the loop ends.
   */
  function WaitFrom(apiKey: Option<string>, polls: seq<Poll>, i: nat, deadline: real): (w: Option<Wait>)
    requires i <= |polls|
    ensures w.Some? ==> i <= w.value.fetches <= |polls|
    ensures w.Some? && !w.value.TimedOut? ==> i < w.value.fetches
    decreases |polls| - i
  {
    if i == |polls| then None
    else if !(polls[i].testedAt as real < deadline) then Some(TimedOut(i))
    else
      var session := Requested(apiKey, polls[i].session);
      if session.Err? then Some(Failed(i + 1, session.error))
      else if session.value.mediaItemsSet == Some(true) then Some(Selected(i + 1))
      else WaitFrom(apiKey, polls, i + 1, NextDeadline(deadline, session.value, polls[i].resetAt))
  }

  /** The deadline the loop starts with: `Date.now() + (timeoutMs ?? 120000)`. */
  function InitialDeadline(startedAt: int, timeoutMs: Option<real>): real
  {
    startedAt as real + if timeoutMs.Some? then timeoutMs.value else DefaultTimeoutMs
  }

  /** The turns after which the loop slept: every fetch but a last one that ended it. */
  function Sleeps(w: Wait): nat
  {
    if w.TimedOut? then w.fetches else if w.fetches > 0 then w.fetches - 1 else 0
  }

  /** What `waitForMediaItems` resolves or rejects with. */
  function WaitResult(apiKey: Option<string>, w: Wait, pages: seq<Result<MediaItemsListResponse>>): Result<seq<MediaItem>>
    requires w.Selected? ==> Ends(apiKey, pages)
  {
    match w
    case Selected(_) => Listing(apiKey, pages)
    case Failed(_, e) => Err(e)
    case TimedOut(_) => Err(TimeoutMessage)
  }

  /**
   * The loop ends at the first session fetched with `mediaItemsSet`, at the
   * first failed fetch, or at the first turn whose clock reading is past the
   * deadline.
   */
  lemma {:induction false} WaitEndsAtFirst(apiKey: Option<string>, polls: seq<Poll>, i: nat, deadline: real)
    requires i <= |polls|
    requires WaitFrom(apiKey, polls, i, deadline).Some?
    ensures var w := WaitFrom(apiKey, polls, i, deadline).value;
      && (w.Selected? ==> Requested(apiKey, polls[w.fetches - 1].session).Ok?
                          && polls[w.fetches - 1].session.value.mediaItemsSet == Some(true))
      && (w.Failed? ==> Requested(apiKey, polls[w.fetches - 1].session) == Err(w.error))
      && (w.TimedOut? ==> w.fetches < |polls|)
    decreases |polls| - i
  {
    if polls[i].testedAt as real < deadline {
      var session := Requested(apiKey, polls[i].session);
      if session.Ok? && session.value.mediaItemsSet != Some(true) {
        var next := NextDeadline(deadline, session.value, polls[i].resetAt);
        assert WaitFrom(apiKey, polls, i, deadline) == WaitFrom(apiKey, polls, i + 1, next);
        WaitEndsAtFirst(apiKey, polls, i + 1, next);
      }
    }
  }

  /** Every turn before the last one fetched a session that was not yet set, and then slept. */
  lemma {:induction false} WaitSleepsOnUnset(apiKey: Option<string>, polls: seq<Poll>, i: nat, deadline: real)
    requires i <= |polls|
    requires WaitFrom(apiKey, polls, i, deadline).Some?
    ensures var w := WaitFrom(apiKey, polls, i, deadline).value;
      && Sleeps(w) <= |polls|
      && forall j :: i <= j < Sleeps(w) ==>
           Requested(apiKey, polls[j].session).Ok? && polls[j].session.value.mediaItemsSet != Some(true)
    decreases |polls| - i
  {
    if polls[i].testedAt as real < deadline {
      var session := Requested(apiKey, polls[i].session);
      if session.Ok? && session.value.mediaItemsSet != Some(true) {
        var next := NextDeadline(deadline, session.value, polls[i].resetAt);
        assert WaitFrom(apiKey, polls, i, deadline) == WaitFrom(apiKey, polls, i + 1, next);
        WaitSleepsOnUnset(apiKey, polls, i + 1, next);
      }
    }
  }

  /**
   * Without deadline resets the loop times out at the first clock reading
   * that reaches the original deadline, and not before.
   */
  lemma {:induction false} FixedDeadlineTimeout(apiKey: Option<string>, polls: seq<Poll>, i: nat, deadline: real)
    requires i <= |polls|
    requires forall j :: i <= j < |polls| && polls[j].session.Ok? ==> TimeoutInText(polls[j].session.value).None?
    requires WaitFrom(apiKey, polls, i, deadline).Some? && WaitFrom(apiKey, polls, i, deadline).value.TimedOut?
    ensures var n := WaitFrom(apiKey, polls, i, deadline).value.fetches;
      && n < |polls| && polls[n].testedAt as real >= deadline
      && forall j :: i <= j < n ==> polls[j].testedAt as real < deadline
    decreases |polls| - i
  {
    if polls[i].testedAt as real < deadline {
      var session := Requested(apiKey, polls[i].session);
      assert session.Ok?;
      assert NextDeadline(deadline, session.value, polls[i].resetAt) == deadline;
      FixedDeadlineTimeout(apiKey, polls, i + 1, deadline);
    }
  }

  /**
   * The `while` loop of `waitForMediaItems`: polls the session until its
   * items are set, a fetch fails or the deadline passes. Returns how it
   * ended, the progress messages emitted (one before each fetch) and the
   * durations slept.
   */
  method PollSession(apiKey: Option<string>, timeoutMs: Option<real>, startedAt: int, polls: seq<Poll>)
    returns (w: Wait, progress: seq<string>, slept: seq<real>)
    requires WaitFrom(apiKey, polls, 0, InitialDeadline(startedAt, timeoutMs)).Some?
    ensures Some(w) == WaitFrom(apiKey, polls, 0, InitialDeadline(startedAt, timeoutMs))
    ensures |progress| == w.fetches && |slept| == Sleeps(w)
    ensures forall j :: 0 <= j < |progress| ==> progress[j] == ProgressMessage
    ensures forall j :: 0 <= j < |slept| ==> polls[j].session.Ok? && slept[j] == PollInterval(polls[j].session.value)
  {
    var deadline := InitialDeadline(startedAt, timeoutMs);
    var i := 0;
    progress, slept := [], [];
    while polls[i].testedAt as real < deadline
      invariant i < |polls|
      invariant WaitFrom(apiKey, polls, i, deadline) == WaitFrom(apiKey, polls, 0, InitialDeadline(startedAt, timeoutMs))
      invariant |progress| == i && |slept| == i
      invariant forall j :: 0 <= j < i ==> progress[j] == ProgressMessage
      invariant forall j :: 0 <= j < i ==> polls[j].session.Ok? && slept[j] == PollInterval(polls[j].session.value)
      decreases |polls| - i
    {
      WaitStep(apiKey, polls, i, deadline);
      progress := progress + [ProgressMessage];
      var session := Requested(apiKey, polls[i].session);
      if session.Err? {
        return Failed(i + 1, session.error), progress, slept;
      }
      if session.value.mediaItemsSet == Some(true) {
        return Selected(i + 1), progress, slept;
      }
      var interval := PollInterval(session.value);
      deadline := NextDeadline(deadline, session.value, polls[i].resetAt);
      ghost var before := slept;
      slept := slept + [interval];
      forall j | 0 <= j < i + 1
        ensures polls[j].session.Ok? && slept[j] == PollInterval(polls[j].session.value)
      {
        if j < i {
          assert slept[j] == before[j];
        }
      }
      i := i + 1;
    }
    WaitStep(apiKey, polls, i, deadline);
    w := TimedOut(i);
  }

  /**
   * `waitForMediaItems`: polls the session until its items are set, then
   * lists them. Returns the outcome, the progress messages emitted and the
   * durations slept.
   */
  method WaitForMediaItems(
    apiKey: Option<string>, sessionId: string, timeoutMs: Option<real>, startedAt: int,
    polls: seq<Poll>, pages: seq<Result<MediaItemsListResponse>>)
    returns (r: Result<seq<MediaItem>>, progress: seq<string>, slept: seq<real>)
    requires WaitFrom(apiKey, polls, 0, InitialDeadline(startedAt, timeoutMs)).Some?
    requires WaitFrom(apiKey, polls, 0, InitialDeadline(startedAt, timeoutMs)).value.Selected? ==> Ends(apiKey, pages)
    ensures var w := WaitFrom(apiKey, polls, 0, InitialDeadline(startedAt, timeoutMs)).value;
      && r == WaitResult(apiKey, w, pages)
      && |progress| == w.fetches
      && |slept| == Sleeps(w)
    ensures forall j :: 0 <= j < |progress| ==> progress[j] == ProgressMessage
    ensures forall j :: 0 <= j < |slept| ==> polls[j].session.Ok? && slept[j] == PollInterval(polls[j].session.value)
  {
    var w;
    w, progress, slept := PollSession(apiKey, timeoutMs, startedAt, polls);
    match w
    case Selected(_) =>
      var queries;
      r, queries := ListPickedMediaItems(apiKey, sessionId, pages);
    case Failed(_, e) =>
      r := Err(e);
    case TimedOut(_) =>
      r := Err(TimeoutMessage);
  }

  /** One turn of the polling loop, as `WaitFrom` decides it. */
  lemma WaitStep(apiKey: Option<string>, polls: seq<Poll>, i: nat, deadline: real)
    requires i < |polls|
    ensures !(polls[i].testedAt as real < deadline) ==> WaitFrom(apiKey, polls, i, deadline) == Some(TimedOut(i))
    ensures var session := Requested(apiKey, polls[i].session);
      polls[i].testedAt as real < deadline ==>
        && (session.Err? ==> WaitFrom(apiKey, polls, i, deadline) == Some(Failed(i + 1, session.error)))
        && (session.Ok? && session.value.mediaItemsSet == Some(true) ==> WaitFrom(apiKey, polls, i, deadline) == Some(Selected(i + 1)))
        && (session.Ok? && session.value.mediaItemsSet != Some(true) ==>
              && polls[i].session == session
              && WaitFrom(apiKey, polls, i, deadline) == WaitFrom(apiKey, polls, i + 1, NextDeadline(deadline, session.value, polls[i].resetAt)))
  {
  }
}
