# Google Photos picker sign-in and selection, in Dafny

This project models the parts of the photo-memories web application that talk to
Google. There are two halves.

**Edge functions.** These are the server side, written for Deno.
- `auth-start` draws a PKCE verifier and a `state`. It seals them in a signed,
  short-lived session cookie and redirects the browser to Google's authorization
  endpoint.
- `auth-callback` checks the returned `code` and `state` against that cookie. It
  redeems the code and stores the user's refresh token in the `photos_tokens`
  table. It then replaces the cookie with an authenticated session.
- `photos-token` takes that session cookie and returns a fresh access token. It
  answers CORS preflights first.
- The shared helpers are the signed cookie codec (`session.ts`), PKCE
  (`pkce.ts`), the responses (`http.ts`) and the token table (`store.ts`).

**Browser side.**
- The Google Photos Picker client (`googlePhotosPicker.ts`) builds request URLs,
  normalises picked items and reads the API's `"<seconds>s"` durations. It has
  two loops: one pages through a selection, the other polls a session until the
  user has picked.
- The picker dialog (`PhotoPickerDialog.tsx`) drives one launch of the picker.
- The capture-date helpers (`dateFormat.ts`) produce the "On this day" headline.

**How the model is built.**
- Pure code is written as functions over datatypes. State the source changes in
  place is written as classes:
  - the token table is `TokenStore.Store`, a map field updated by its methods;
  - the dialog is `PickerDialog.PickerDialogState`, holding its three state
    variables, the windows it has opened and the selections it has handed over.
- Loops are methods with invariants, each proved equal to a specification
  function. These are the verifier generator, the base64url decode buffer, the
  cookie parser, the listing loop and the polling loop.
- Cryptography, JSON and the network are parameters, and so are `Date.now()`,
  `crypto.randomUUID()`, random bytes, `new Date(text)` and `Intl` formatting.
  An answer from a remote endpoint is a `Result` whose `Err` holds the failure
  text.

The modules are:
- `Wrappers`, `Strings`, `Base64Url`, `Http`, `Cookies`;
- `Session`, `Pkce`, `OAuthSession`, `TokenStore`;
- `AuthStart`, `AuthCallback`, `PhotosToken`;
- `Picker`, `PickerDialog`, `DateFormat`.

The `MediaItem` record of `src/types/googlePhotos.ts:1-12` is `Picker.MediaItem`.

## Model

| member | source | states |
|---|---|---|
| Base64Url.Base64UrlEncode | supabase/functions/_shared/session.ts:3-8 | The text uses only `A-Z a-z 0-9 - _`, has no padding, and holds ceil(4n/3) characters for n bytes. |
| Base64Url.EncodeIsUrlGroups | supabase/functions/_shared/session.ts:4-7 | Take `btoa`'s padded text. Replace `+` with `-` and `/` with `_`, then strip the trailing `=`. The result is the unpadded url-safe encoding. |
| Base64Url.Atob | supabase/functions/_shared/session.ts:13 | When `atob` succeeds, every character it returns is a byte (below 256). |
| Base64Url.AtobOfBtoa | supabase/functions/_shared/session.ts:4-13 | `atob` inverts `btoa` on every byte sequence. |
| Base64Url.AtobInputOfEncoding | supabase/functions/_shared/session.ts:11-12 | Undoing the alphabet change and re-padding an encoding gives back `btoa`'s text. |
| Base64Url.DecodeStdGroups | supabase/functions/_shared/session.ts:10-19 | Decoding the unpadded groups of any byte sequence gives that sequence's binary string. |
| Base64Url.Base64UrlDecodeToBuffer | supabase/functions/_shared/session.ts:10-19 | The copy loop fills the buffer with the character codes of `atob`'s result. The result is None exactly where `atob` throws. |
| Base64Url.DecodeEncode | supabase/functions/_shared/session.ts:3-19 | Round trip: decoding the encoding of any bytes gives those bytes. |
| Base64Url.EncodeInjective | supabase/functions/_shared/session.ts:3-8 | Distinct byte sequences have distinct encodings. |
| Session.HmacSha256 | supabase/functions/_shared/session.ts:21-25 | The signature is 43 url-safe characters. It decodes to the 32-byte HMAC of the message under the secret. |
| Session.HmacTextInjective | supabase/functions/_shared/session.ts:21-25 | Two signature texts are equal iff the MACs are equal. |
| Session.CreateSignedSessionCookie | supabase/functions/_shared/session.ts:27-31 | The cookie splits on `.` into exactly two parts. The first decodes to the serialised payload. The second is the signature of the first, is never empty, and the cookie holds only url-safe characters and the dot. |
| Session.VerifySignedSessionCookie | supabase/functions/_shared/session.ts:33-49 | The result is null unless both parts are present and the second equals the signature of the first. It is also null when the body does not decode. Any payload returned is the parse of the decoded body. |
| Session.VerifyWellSigned | supabase/functions/_shared/session.ts:38-44 | A well-signed cookie whose body decodes yields exactly the parse of that body. |
| Session.VerifyCreate | supabase/functions/_shared/session.ts:27-49 | Under the same secret, verifying a created cookie gives back the payload, for any faithful serialiser. |
| Session.WrongSecretRejected | supabase/functions/_shared/session.ts:38-41 | A cookie signed under one secret is rejected under a secret whose MAC differs. |
| Session.TamperedBodyRejected | supabase/functions/_shared/session.ts:38-41 | Pairing a real signature with a forged body is rejected. |
| Session.MissingDotRejected | supabase/functions/_shared/session.ts:34-37 | A cookie without a dot is rejected. |
| Session.ExtraSegmentsIgnored | supabase/functions/_shared/session.ts:34 | Anything after a second dot is ignored: the cookie verifies as its first two segments do. |
| Pkce.AlphabetIsUnreserved | supabase/functions/_shared/pkce.ts:11 | The 66 characters of the alphabet are exactly the unreserved characters of RFC 3986, section 2.3. |
| Pkce.AlphabetDistinct | supabase/functions/_shared/pkce.ts:11 | No character occurs twice in the alphabet. |
| Pkce.DefaultLengthInRange | supabase/functions/_shared/pkce.ts:10 | The default length, 64, lies in the 43..128 range of RFC 7636, section 4.1. |
| Pkce.CodeVerifierOf | supabase/functions/_shared/pkce.ts:10-18 | There is one character per random byte, and every character is unreserved. |
| Pkce.GenerateCodeVerifier | supabase/functions/_shared/pkce.ts:10-18 | Character i is the alphabet entry at `randomValues[i] % 66`. The text has the requested length and only unreserved characters. |
| Pkce.GenerateCodeChallenge | supabase/functions/_shared/pkce.ts:20-24 | The challenge is 43 url-safe characters. It decodes to the SHA-256 of the verifier's UTF-8 bytes (S256, RFC 7636 section 4.2). |
| Pkce.ChallengeBindsDigest | supabase/functions/_shared/pkce.ts:20-24 | Two verifiers with equal challenges have equal digests. |
| Http.QueryValueUnique | supabase/functions/auth-callback/index.ts:81-83 | `searchParams.get` of a name that occurs once gives its value. |
| Http.QueryValueAbsent | supabase/functions/auth-callback/index.ts:81-83 | `searchParams.get` of a name that never occurs gives null. |
| Cookies.Entry | supabase/functions/auth-callback/index.ts:11-14 | A stored entry has a non-empty name and a non-empty value, and neither contains `=`. |
| Cookies.ParseCookies | supabase/functions/auth-callback/index.ts:8-17 | The reduce loop yields the fold of the `;`-segments. An absent or empty header yields no cookies. |
| Cookies.CookiesWellFormed | supabase/functions/auth-callback/index.ts:8-17 | Whatever the header, every parsed name and value is non-empty and free of `=`. |
| Cookies.FoldLookup | supabase/functions/auth-callback/index.ts:10-16 | After the fold, a name holds the value of the last segment that sets it, and otherwise its earlier value. |
| Cookies.CookieLookup | supabase/functions/auth-callback/index.ts:8-17 | A cookie is present iff some segment sets it, and its value is the last such one. |
| Cookies.EntryOfPair | supabase/functions/auth-callback/index.ts:11-14 | `name=value` reads back as that pair, with or without one leading space. |
| Cookies.SingleCookieReadBack | supabase/functions/auth-callback/index.ts:8-17 | The header `name=value` parses to exactly that one cookie. |
| Cookies.AppendedCookieWins | supabase/functions/auth-callback/index.ts:10-16 | Appending `; name=value` to a header overrides that name and leaves every other cookie as it was. |
| Cookies.BuildCookieParts | supabase/functions/auth-callback/index.ts:19-21 | Split on `;`, the Set-Cookie value is the pair followed by Path=/, HttpOnly, SameSite=None, Secure and Max-Age=n. |
| Cookies.BuildCookieReadBack | supabase/functions/auth-callback/index.ts:19-21 | The pair the header sets, sent back as a Cookie header, parses to the session cookie with the value that was set. |
| OAuthSession.OpenSeal | supabase/functions/_shared/session.ts:27-49 | A sealed session payload opens under the same secret to itself. |
| OAuthSession.SealIsCookieSafe | supabase/functions/_shared/session.ts:27-31 | A sealed value is non-empty, has no white space at its ends, and holds no `;` or `=`, so the cookie parser keeps it whole. |
| OAuthSession.SealedCookieReadBack | supabase/functions/auth-start/index.ts:12-14 | The cookie the browser returns from `buildCookie(seal(p))` holds the sealed value, and that value opens to p. |
| TokenStore.Merge | supabase/functions/_shared/store.ts:35-42 | For a merge-duplicates upsert, a column that is sent overrides the stored value. The key and refresh token are the row's, a column that is left out keeps the stored value, and with no stored row the row itself is stored. |
| TokenStore.MergeIdempotent | supabase/functions/_shared/store.ts:35-48 | Upserting the same row twice leaves what upserting it once left. |
| TokenStore.MergeIdempotentRow | supabase/functions/_shared/store.ts:35-48 | Upserting the merged row has the same effect as upserting the row. |
| TokenStore.MergeFullRow | supabase/functions/_shared/store.ts:35-48 | A row with every column present replaces the stored one. |
| TokenStore.Upserted | supabase/functions/_shared/store.ts:35-48 | After an upsert the table's keys are the old keys plus the row's user. Every other user's row is unchanged. |
| TokenStore.UpsertedRow | supabase/functions/_shared/store.ts:35-48 | The row's user holds the merged row. Upserting that merged row instead changes nothing. |
| TokenStore.UpsertedKeyed | supabase/functions/_shared/store.ts:35-48 | An upsert keeps every row stored under its own user id. |
| TokenStore.Store.constructor | supabase/functions/_shared/store.ts:15-21 | The table starts empty. |
| TokenStore.Store.GetTokenRecord | supabase/functions/_shared/store.ts:50-62 | A failing response throws. Otherwise the result is the user's row or null, and a row returned belongs to that user. |
| TokenStore.Store.UpsertTokenRecord | supabase/functions/_shared/store.ts:35-48 | On success the table becomes `Upserted(old, row)`. On failure it throws and the table is unchanged. |
| AuthStart.Scope | supabase/functions/auth-start/index.ts:20 | Only an unset GOOGLE_PHOTOS_SCOPE falls back to DEFAULT_SCOPE. A set one is used as it is. |
| AuthStart.RedirectTo | supabase/functions/auth-start/index.ts:28 | `redirect_to` is used when present, even when empty; otherwise FRONTEND_URL is used. |
| AuthStart.AuthStart | supabase/functions/auth-start/index.ts:16-67 | A missing setting gives exactly the 400 "Missing required environment variables." with no cookie. Otherwise the result is a 302 to Google's authorization endpoint that sets a cookie. |
| AuthStart.QueryValues | supabase/functions/auth-start/index.ts:45-56 | Each of the ten parameters of the authorization request reads back by name with its value. |
| AuthStart.StartRequestParameters | supabase/functions/auth-start/index.ts:45-58 | The request asks for `code`, offline access, consent, S256 and granted scopes, with the configured client, redirect URI and scope. |
| AuthStart.StartBindsSession | supabase/functions/auth-start/index.ts:30-44 | The cookie set opens to a pending session. Its `state` is the one sent, and its 64-character verifier is the one the sent challenge derives from. Its redirect is `redirect_to` or FRONTEND_URL, it carries the issue time, and it names no user. |
| AuthStart.StartCookieAttributes | supabase/functions/auth-start/index.ts:12-14 | The cookie's attributes are Path=/, HttpOnly, SameSite=None, Secure and Max-Age=600. |
| AuthStart.MaxAgeText | supabase/functions/auth-start/index.ts:12-13 | The default lifetime renders as `Max-Age=600`. |
| AuthCallback.CheckCallback | supabase/functions/auth-callback/index.ts:80-118 | Every rejection is a 400 JSON error that sets no cookie. A provider `error` is reported first. A request is admitted only if it has a code and a state, a non-empty secret, and a cookie that opens under that secret to a session with the query's `state`. |
| AuthCallback.ValidCallbackAdmitted | supabase/functions/auth-callback/index.ts:80-118 | Conversely, a request with no `error`, a code and a state, the session secret, a cookie that opens under it to a session with that `state`, and the three client settings is admitted. It exchanges the code with the sealed verifier and the configured client. |
| AuthCallback.StartedSessionAdmitted | supabase/functions/auth-start/index.ts:28-67 | A callback that brings back the cookie set by `auth-start`, the `state` sent to Google and a code is admitted under the same settings. Its exchange uses the verifier whose challenge was sent. |
| AuthCallback.HandleCallback | supabase/functions/auth-callback/index.ts:79-161 | Against the token table, the response and the table it leaves are those of the handler function. |
| AuthCallback.CallbackWritesOnlyOnSuccess | supabase/functions/auth-callback/index.ts:79-161 | The status is 302, 400, 401 or 500. Only a 302 changes the table, and only a 302 sets a cookie. |
| AuthCallback.RejectedBeforeExchange | supabase/functions/auth-callback/index.ts:85-118 | A rejected request gets its 400 whatever the provider and the table would do, and the table is untouched. |
| AuthCallback.StateMismatchRejected | supabase/functions/auth-callback/index.ts:106-110 | A valid cookie whose `state` differs from the query's gets "Invalid OAuth session." and nothing is written. |
| AuthCallback.MissingRefreshTokenRejected | supabase/functions/auth-callback/index.ts:124-128 | With no refresh token from Google and none stored (or only an empty one), the answer is the 401 that asks for consent again, and nothing is written. |
| AuthCallback.RefreshTokenFallback | supabase/functions/auth-callback/index.ts:123-136 | The user's row holds Google's refresh token, or else the stored one, plus the new access token and its expiry. The email comes from userinfo when present. |
| AuthCallback.RedeemWrites | supabase/functions/auth-callback/index.ts:130-136 | A successful redemption writes exactly the upsert of the user's row. |
| AuthCallback.FailureIs500 | supabase/functions/auth-callback/index.ts:120-160 | A failed exchange, userinfo call, read or write gives the 500 "OAuth callback failed.", writes nothing and sets no cookie. |
| AuthCallback.CallbackSignsIn | supabase/functions/auth-callback/index.ts:138-156 | The response is a 302 to `redirectTo` or `/`. Its 30-day cookie opens to the user's session with a fresh `state` and the pending verifier and redirect. |
| AuthCallback.MaxAgeText | supabase/functions/auth-callback/index.ts:6 | Thirty days render as `Max-Age=2592000`. |
| PhotosToken.CorsHeaders | supabase/functions/photos-token/index.ts:19-32 | The four CORS headers are sent iff FRONTEND_URL is set and non-empty. The allowed origin starts with FRONTEND_URL, credentials are allowed, and the methods are GET and OPTIONS. |
| PhotosToken.CorsOriginChoice | supabase/functions/photos-token/index.ts:20-23 | The request's origin is echoed exactly when it starts with FRONTEND_URL. Otherwise FRONTEND_URL itself is sent. |
| PhotosToken.CorsEchoesExtendedOrigin | supabase/functions/photos-token/index.ts:21 | The check is a prefix test: any origin that extends FRONTEND_URL is echoed with credentials allowed. |
| PhotosToken.CheckTokenRequest | supabase/functions/photos-token/index.ts:66-99 | The early answers are 204, 400 or 401 and set no cookie. A request passes only if it is not a preflight, the settings are present, and the cookie opens to a session naming a non-empty user. |
| PhotosToken.HandlePhotosToken | supabase/functions/photos-token/index.ts:66-136 | Against the token table, the response and the table it leaves are those of the handler function. |
| PhotosToken.PreflightFirst | supabase/functions/photos-token/index.ts:70-72 | OPTIONS is answered with 204 and the CORS headers before anything else, and changes nothing. |
| PhotosToken.TokenWritesOnlyOnSuccess | supabase/functions/photos-token/index.ts:66-136 | The status is 200, 204, 400, 401 or 500. Only a 200 writes, and only a 200 carries a token. |
| PhotosToken.ServeWritesOnlyOnSuccess | supabase/functions/photos-token/index.ts:101-135 | From the table read on, the status is 200, 401 or 500. Only a 200 writes and carries a token. |
| PhotosToken.UnauthenticatedRejected | supabase/functions/photos-token/index.ts:82-99 | With no cookie, or a cookie that names no user, the answer is a 401 with the CORS headers and nothing is written. |
| PhotosToken.NoStoredCredentialsRejected | supabase/functions/photos-token/index.ts:101-107 | A user with no stored row gets the 401 "No stored credentials. Re-authenticate.". |
| PhotosToken.RefreshKeepsCredentials | supabase/functions/photos-token/index.ts:109-135 | The stored refresh token is sent. On success the row keeps its refresh token and email and gets the new access token and expiry; no other row changes and the token is returned. On failure the answer is a 500 and the table is unchanged. |
| PhotosToken.SignedInSessionAuthenticates | supabase/functions/photos-token/index.ts:82-128 | With the same secret, a stored row and a working token endpoint, the cookie set by a successful callback gets a 200 with the new access token. |
| Picker.Round | src/services/googlePhotosPicker.ts:8 | `Math.round` gives the integer within one half, with halves rounding up. |
| Picker.ResolvedMaxItemCount | src/services/googlePhotosPicker.ts:6-8 | A positive finite setting is rounded. Anything else gives 50. The result is never negative. |
| Picker.SmallSettingGivesZero | src/services/googlePhotosPicker.ts:7-8 | As written, a setting of 0.25 passes the guard and gives a maximum of 0 items. |
| Picker.MaxItemCount | src/services/googlePhotosPicker.ts:5-8 | The maximum is at least 1. It agrees with the code whenever the code gives at least 1, and is otherwise 50. |
| Picker.DefaultBody | src/services/googlePhotosPicker.ts:42-46 | The `pickingConfig.maxItemCount` sent is `RESOLVED_MAX_ITEM_COUNT` as written. A positive setting is sent rounded, which may be 0. Any other setting sends the default of 50. |
| Picker.SmallSettingSendsZero | src/services/googlePhotosPicker.ts:7-8 | With the setting 0.25, the session request asks for at most 0 items. |
| Picker.CorrectedDefaultBody | src/services/googlePhotosPicker.ts:42-46 | With the corrected maximum, the body always asks for at least one item. It equals the body as written whenever that one does, and a setting of at least 0.5 is sent rounded. |
| Picker.BuildUrl | src/services/googlePhotosPicker.ts:48-54 | Without a key the call throws "Missing VITE_GOOGLE_API_KEY in environment.". Otherwise the URL is the API base, the path, one separator and `key=<key>`. The separator is `&` iff the path already has a `?`. |
| Picker.BuildUrlSingleQuery | src/services/googlePhotosPicker.ts:52-53 | A path without a query gets exactly one `?`, the one before the key. |
| Picker.Requested | src/services/googlePhotosPicker.ts:56-73 | Without a key nothing is sent. A non-ok response becomes "Google Photos Picker API error: <text>", and an ok response is returned as it is. |
| Picker.NormalizePickedItem | src/services/googlePhotosPicker.ts:111-125 | The result is null iff the id or the base URL is missing or empty. Otherwise the id, base URL, create time and type are copied. The filename and MIME type default to "Google Photos item" and "application/octet-stream". |
| Picker.NormalizedDimensions | src/services/googlePhotosPicker.ts:120-121 | Width and height are present iff listed. They are decimal numerals that read back as the listed numbers. |
| Picker.NormalizeAll | src/services/googlePhotosPicker.ts:101-103 | There are no more items than listed, and each has a non-empty id and base URL. |
| Picker.NormalizeAllAppend | src/services/googlePhotosPicker.ts:101-104 | Normalising a concatenation normalises each part. Order is kept and nothing is merged. |
| Picker.NormalizeAllUsable | src/services/googlePhotosPicker.ts:101-103 | Usable items are all kept, in order, and unusable ones are all dropped. |
| Picker.DecimalParts | src/services/googlePhotosPicker.ts:131 | A match of `[0-9]+(\.[0-9]+)?` is a non-empty digit run, optionally followed by a point and a digit run. |
| Picker.DurationToMs | src/services/googlePhotosPicker.ts:127-136 | An absent or empty text gives null. A result is never negative and comes from a text that starts with a digit and ends in `s`. |
| Picker.DurationOfText | src/services/googlePhotosPicker.ts:131-135 | `<numeral>s` is the value of the numeral times 1000, and any other text gives null. |
| Picker.DurationOfWholeSeconds | src/services/googlePhotosPicker.ts:131-135 | `"<n>s"` is n × 1000 ms. |
| Picker.DurationOfDecimalSeconds | src/services/googlePhotosPicker.ts:131-135 | `"<w>.<f>s"` is the decimal value of w.f times 1000. |
| Picker.DurationExamples | src/services/googlePhotosPicker.ts:127-136 | `"1.5s"` is 1500 ms. `"0s"` is 0, not null. |
| Picker.DurationRejects | src/services/googlePhotosPicker.ts:128-134 | Absent, empty, `"5"`, `".5s"`, `"-1s"` and `"1.s"` all give null. |
| Picker.PageQueryValues | src/services/googlePhotosPicker.ts:91-97 | Each listing request names the session and asks for pages of 100. It carries a `pageToken` exactly when it has a non-empty one. |
| Picker.Queries | src/services/googlePhotosPicker.ts:91-98 | Request j is built with no token when j is 0, and with the previous page's token otherwise. |
| Picker.StopIndex | src/services/googlePhotosPicker.ts:105-106 | The last page requested is the first one that fails or has no non-empty next-page token. |
| Picker.ListPickedMediaItems | src/services/googlePhotosPicker.ts:86-109 | The do-while loop returns the usable items of every page requested, in order, or the error of the request that failed. It makes exactly the requests up to the stopping page. |
| Picker.ListingStep | src/services/googlePhotosPicker.ts:90-106 | A turn whose answer does not continue the loop is the last request. A failed request decides the listing as its error. A page without a next token decides it as the items collected so far. |
| Picker.ListingCollects | src/services/googlePhotosPicker.ts:101-105 | An answered page adds its usable items after those already collected, and its next-page token is the one the following request uses. |
| Picker.RequestPageTokens | src/services/googlePhotosPicker.ts:95-105 | The first request has no page token. A later one carries the non-empty token of the page before it. |
| Picker.ListingKeepsDuplicates | src/services/googlePhotosPicker.ts:101-104 | There is no deduplication: the same items on two pages come back twice. |
| Picker.ListingStopsOnEmptyToken | src/services/googlePhotosPicker.ts:105-106 | A page without a next-page token is the last one requested, whatever would follow. |
| Picker.ListingFailure | src/services/googlePhotosPicker.ts:98-100 | A failed page request fails the whole listing with the API error, discarding the pages already collected. |
| Picker.PollInterval | src/services/googlePhotosPicker.ts:159 | The interval is the parsed `pollInterval`, or 2000 ms when it does not parse. |
| Picker.NextDeadline | src/services/googlePhotosPicker.ts:160-163 | The deadline resets to the current reading plus `timeoutIn` only when that parses to a non-zero value. Otherwise it stays. |
| Picker.PollIntervalFallback | src/services/googlePhotosPicker.ts:159 | `"0s"` gives an interval of zero, not the default. Only an absent or unreadable interval falls back. |
| Picker.DeadlineReset | src/services/googlePhotosPicker.ts:160-163 | A `"0s"` suggestion leaves the deadline alone. `"<n>s"` with n > 0 moves it to n seconds after the reading. |
| Picker.WaitFrom | src/services/googlePhotosPicker.ts:149-168 | A finished loop has made at most as many fetches as there are turns. Selection and failure end only after a fetch. |
| Picker.WaitEndsAtFirst | src/services/googlePhotosPicker.ts:151-157 | A selection ends at a fetched session with `mediaItemsSet`. A failure ends at a failed fetch, with its error. A timeout ends at a clock reading that was given. |
| Picker.WaitSleepsOnUnset | src/services/googlePhotosPicker.ts:151-165 | Every turn before the one that ends the loop fetched a session whose items were not yet set, and then slept. |
| Picker.PollSession | src/services/googlePhotosPicker.ts:149-166 | The `while` loop ends as `WaitFrom` decides. It emits one progress message per fetch and sleeps each unset session's poll interval. |
| Picker.FixedDeadlineTimeout | src/services/googlePhotosPicker.ts:149-151 | Without resets, the loop times out at the first clock reading that reaches the original deadline, and not before. |
| Picker.WaitForMediaItems | src/services/googlePhotosPicker.ts:142-169 | After polling, it lists the items once a session is set, fails with the API error of a failed fetch, or rejects with "Timed out waiting for Google Photos selection.". It emits one progress message per fetch and sleeps each unset session's poll interval. |
| Picker.WaitStep | src/services/googlePhotosPicker.ts:151-165 | In one turn, the loop times out, fails, ends selected, or goes on with the next deadline. |
| PickerDialog.StripTrailingSlash | src/components/PhotoPickerDialog.tsx:42 | Exactly one trailing `/` is removed, if there is one. |
| PickerDialog.PickerUrl | src/components/PhotoPickerDialog.tsx:40-42 | The URL always ends in `/autoclose`. A URI that already does is kept. Otherwise the URI without its trailing slash is followed by `/autoclose`. |
| PickerDialog.PickerUrlKeepsUri | src/components/PhotoPickerDialog.tsx:40-42 | At most the trailing slash is dropped from the URI, which remains a prefix of the URL. |
| PickerDialog.PickerUrlIdempotent | src/components/PhotoPickerDialog.tsx:40-42 | Normalising twice is normalising once. |
| PickerDialog.CheckSession | src/components/PhotoPickerDialog.tsx:36-38 | A session passes iff both `id` and `pickerUri` are non-empty. Otherwise it fails with "Picker session response missing id or pickerUri.". |
| PickerDialog.PickerDialogState.constructor | src/components/PhotoPickerDialog.tsx:15-17 | The dialog starts idle, with an empty message, no error, no window opened and nothing handed over. |
| PickerDialog.PickerDialogState.Close | src/components/PhotoPickerDialog.tsx:20-24 | Closing resets to idle, with an empty message and no error. |
| PickerDialog.PickerDialogState.Launch | src/components/PhotoPickerDialog.tsx:29-66 | The new state is the specification `Launched(old state, inputs)`. |
| PickerDialog.NoWindowWithoutSession | src/components/PhotoPickerDialog.tsx:29-65 | A failure before the session check passes opens no window and hands over nothing. Unless cancelled, it shows the error. |
| PickerDialog.IncompleteSessionRejected | src/components/PhotoPickerDialog.tsx:36-38 | A session without an id or URI ends in `error` with its message, and no window is opened. |
| PickerDialog.SessionOpensOneWindow | src/components/PhotoPickerDialog.tsx:40-58 | Once the session passes, exactly one window is opened at an `/autoclose` URL and the status is `polling`. A successful listing is handed over once unless cancelled. A failure shows its message. |
| PickerDialog.LaunchNeverIdle | src/components/PhotoPickerDialog.tsx:29-65 | A launch ends creating, polling or in error, never idle. Unless cancelled it never stays creating, and an error state always has a message. |
| DateFormat.ParseCreateTime | src/utils/dateFormat.ts:7-16 | An absent or empty text gives null. Otherwise the result is what parsing gives. |
| DateFormat.FormatCaptureDate | src/utils/dateFormat.ts:18-24 | The result is present iff the date parses, and is then the formatted date. |
| DateFormat.Headline | src/utils/dateFormat.ts:31-40 | There is a headline iff the month and day match today's and the year is earlier. It reads "On this day, <years> ago". |
| DateFormat.FormatMemoryHeadline | src/utils/dateFormat.ts:26-41 | There is a headline iff the time parses to today's month and day in an earlier year. |
| DateFormat.OneYearAgo | src/utils/dateFormat.ts:35-37 | Last year's photo reads "On this day, one year ago". |
| DateFormat.YearsAgo | src/utils/dateFormat.ts:36-37 | For n > 1 the headline reads "On this day, <n> years ago", with n in digits. |
| DateFormat.NoHeadlineForThisOrFutureYear | src/utils/dateFormat.ts:33-35 | A date in this year or a later one gives no headline. |
| DateFormat.YearsTextFirst | src/utils/dateFormat.ts:36 | Only the count one is written in letters. Every other count starts with a digit. |
| DateFormat.YearsTextInjective | src/utils/dateFormat.ts:36 | Distinct counts have distinct words. |
| DateFormat.HeadlineDeterminesYear | src/utils/dateFormat.ts:35-37 | Two photos with the same headline on the same day come from the same year. |

## Left out

- HMAC-SHA256, SHA-256, `crypto.getRandomValues`, `crypto.randomUUID()`, `JSON.stringify`/`JSON.parse` and UTF-8 are parameters. The model states what the code does with them, not how they compute. The string comparison of signatures is modelled as equality. Its timing is not modelled.
- The network is modelled as answers: Google's token and userinfo endpoints, the Picker API and the PostgREST table. A non-ok response is an `Err` holding its text. Headers sent with each request (`Authorization`, `apikey`, `Content-Type`, `Prefer`) and `encodeURIComponent` of the user id are not modelled.
- URLSearchParams percent-encoding and the rendering of the authorization URL are not modelled. The Location is kept as the endpoint plus the ordered name/value pairs.
- jsonResponse's `content-type` header is not modelled. Because `...init` comes after it, any `headers` passed in replace that header anyway.
- The module-load checks of `store.ts`, which throw when SUPABASE_URL or SUPABASE_SERVICE_ROLE_KEY is unset, are left out. The table is assumed reachable, and a failing call is the `fails` flag of the store methods.
- Clock readings are inputs. The callback uses one `now` for both of its `Date.now()` calls. The ISO rendering of `token_expires_at` is kept as milliseconds since the epoch.
- JavaScript numbers are modelled as mathematical reals and integers. NaN and infinity in `Number(...)` are modelled as an absent value, and durations are exact reals.
- `new Date(text)`, `getMonth()`/`getDate()`/`getFullYear()` and `Intl.DateTimeFormat` are parameters or inputs. Time zones are not modelled.
- Media width and height are natural numbers, so a negative or fractional dimension from the API is not modelled.
- `sleep` records its duration and does not wait. Real concurrency between the dialog's effect, its cleanup and React re-renders is not modelled.
- Picker.ListPickedMediaItems: requires that the given answers end the loop. An API that returns next-page tokens forever, which makes the source loop forever, is not modelled.
- Picker.WaitForMediaItems: requires that the given clock readings and answers end the loop. A clock that never reaches the deadline is not modelled.
- PickerDialog.PickerDialogState.Launch: cancellation is one `cancelled` flag fixed for the whole launch, so cleanup part-way between two awaited steps is not modelled. A thrown value that is not an `Error` ("Unknown picker error") is also not modelled, because every failure in the model carries a message.
- PickerDialog.PickerDialogState.Launch: `onProgress` sets the same message every time, so only the last message is kept.
- The JSX rendering of the dialog and the rest of the application are not part of this model. This covers the other hooks and services, the local media store and the App component.

## Findings

| source | as written | input that shows it | evidently intended | confidence | as-written member | corrected member |
|---|---|---|---|---|---|---|
| src/services/googlePhotosPicker.ts:7-8 | The guard tests the parsed setting for `> 0` before rounding, so a positive setting below one half passes and `Math.round` turns it into 0. | VITE_PHOTOS_MAX_ITEM_COUNT=0.25 gives `maxItemCount` 0 in the session request. | A setting that does not give a positive count falls back to the default of 50, like any other unusable setting. | not executed | Picker.SmallSettingGivesZero | Picker.MaxItemCount |
