# Sicredi dashboard capture server — cookie session and capture pipeline

This project models the core of `sicredi-capture-server/server.js`, an Express
server that takes screenshots of a Looker Studio dashboard with a headless
Chromium. To get past the Google login, it replays cookies saved earlier in
`cookies.json`. The model covers five parts:

- **Query integers.** `parseIntOr` reads `w` and `h`, which default to 1400 and
  1500 (`QueryParams`). JavaScript's `parseInt(v, 10)` is modelled as:
  - skip leading ECMAScript white space;
  - take an optional sign and the longest run of decimal digits;
  - the result is finite exactly when its magnitude is below the smallest
    integer that a double rounds to infinity.
- **Cookie validity and domain buckets** (`Cookies`).
  - A cookie is valid when `expires` is falsy (absent or 0) or later than
    `now`.
  - `forDomain(d)` keeps the valid cookies whose `domain` contains `d`. A
    missing `domain` is treated as `""`.
- **`GET /status`** (`StatusRoute`). The JSON body is computed from the cookie
  file: missing, unreadable, or loaded.
- **`applyCookies`** (`SessionApplier`). It is an imperative method on a browser
  capability:
  - first it visits `accounts.google.com` and sets the `google.com` bucket;
  - then it visits `lookerstudio.google.com` and sets that bucket;
  - it skips each step whose bucket is empty;
  - every failure, including a missing or unreadable file, becomes `false`.
- **`GET /capture`** (`LoginDetector`, `CaptureRoute`, `CaptureProperties`):
  - URL validation;
  - launch, page, headers, cookies;
  - navigation to the target;
  - login-screen detection on the lowercased current URL and on the first
    3000 characters of the body text, lowercased;
  - the fixed clip screenshot;
  - the `catch` block, which maps an error message to 408, 502 or 500;
  - the `finally` block, which closes a launched browser and swallows any
    error from that close.

**The browser.** Puppeteer is represented by `Automation.Browser`:
- The class records every call it receives in its `trace` field, in order.
- It answers each call through an oracle `respond(history, call)`. The oracle
  says whether the call threw, and with what message, or what it returned:
  - for `goto`, the URL that `page.url()` returns at the login check
    (server.js:184), read after the `evaluate` call. The oracle may answer
    with any URL, so placing that value in the `goto` reply loses no
    behaviour;
  - for `evaluate`, the body's `innerText`;
  - for `screenshot`, the base64 text.
- The imperative methods `SessionApplier.ApplyCookies`, `CaptureRoute.Try`,
  `CaptureRoute.Visit` and `CaptureRoute.Capture` each ensure two things: the
  calls they append to `trace` are exactly the ones given by a specification
  function, and so is their result. The specification functions are
  `ApplyCookiesSpec`, `TrySpec`, `VisitSpec` and `CaptureSpec`.
- `CaptureSpec` refuses a missing URL and otherwise is `Handle`: the `try`,
  `catch` and `finally` blocks for a target URL, width and height.
- The properties of the handler are lemmas over those functions, for every
  URL, width and height: ordering, early exits, status codes, and how often
  `close` is called. `CapturedSize`, `ResponseCodes` and
  `RequestedDimensions` tie them back to the query.

**Inputs that become parameters.** The file read, the clock and the ISO
timestamp are parameters:
- the cookie file is a `CookieFile`: `Missing`, `Unreadable(message)` or
  `Loaded(cookies)`;
- `now` is `Date.now() / 1000` as a `real`;
- `stamp` is the string `new Date().toISOString()` would produce.

## Model

| member | source | states |
|---|---|---|
| QueryParams.ParseIntOfNumeral | sicredi-capture-server/server.js:21 | any numeral `parseInt` accepts (leading white space, an optional `+` or `-`, leading zeros, the digits of `m`, then text not starting with a digit) parses to `m` with its sign |
| QueryParams.ParseIntOrOfNumeral | sicredi-capture-server/server.js:20-23 | `parseIntOr` on such a numeral returns the signed `m` when `m` is finite as a double, and the default otherwise |
| QueryParams.PaddedWidth | sicredi-capture-server/server.js:20-23 | `" \t+0600px"` with default 1400 gives 600 |
| QueryParams.ParseIntOfDecimal | sicredi-capture-server/server.js:21 | the decimal text of any integer, followed by a non-digit or by nothing, parses back to that integer |
| QueryParams.ParseIntOrOfDecimal | sicredi-capture-server/server.js:20-23 | `parseIntOr` on the decimal text of `n` returns `n` when `n` is finite as a double and the default otherwise |
| QueryParams.ParseIntOrNonNumeric | sicredi-capture-server/server.js:20-23 | a missing value, or text with no digit after the white space and sign, yields the default |
| QueryParams.ParseIntOrRange | sicredi-capture-server/server.js:20-23 | the result is either the default or the finite integer that `parseInt` read from the value; whenever `parseInt` reads a finite integer, that integer is the result |
| CaptureProperties.RequestedDimensions | sicredi-capture-server/server.js:123-124 | width and height are the requested decimal values, or 1400 and 1500 when `w` or `h` is absent |
| CaptureProperties.DashboardRequestSize | sicredi-capture-server/server.js:123-124 | `w=600&h=1050` gives width 600 and height 1050 |
| Cookies.ValidCookiesSpec | sicredi-capture-server/server.js:44-45 | a cookie is in the valid list iff it is in the loaded list and its `expires` is falsy or later than now; each valid cookie occurs as often as in the loaded list and each expired one never; the valid list is an order-preserving subsequence whose length is the number of entries passing the rule |
| Cookies.NoValidCookies | sicredi-capture-server/server.js:45-46 | the valid list is empty iff every cookie has a non-zero `expires` that is at or before now |
| Cookies.ValidCookiesShrinkOverTime | sicredi-capture-server/server.js:44-45 | the cookies valid at a later instant are a subsequence of those valid at an earlier one |
| Cookies.NegativeExpiryIsExpired | sicredi-capture-server/server.js:45 | a cookie with a negative `expires` (a browser session cookie) is never valid at a non-negative time |
| Cookies.ForDomainSpec | sicredi-capture-server/server.js:48 | `forDomain(d)` holds exactly the valid cookies whose domain (or `""`) contains `d`, each as often as in the valid list, in their original order |
| Cookies.ForDomainMembers | sicredi-capture-server/server.js:48 | a cookie is in `forDomain(d)` iff it is valid and its domain (or `""`) contains `d` |
| Cookies.NoDomainNoBucket | sicredi-capture-server/server.js:48 | a cookie without `domain` is in no bucket for a non-empty domain |
| Cookies.LookerBucketWithinGoogle | sicredi-capture-server/server.js:51-62 | the `lookerstudio.google.com` bucket is a subsequence of the `google.com` bucket, so each of its cookies is set twice |
| StatusRoute.StatusCounts | sicredi-capture-server/server.js:97-110 | for a loaded file: `totalCookies` is the file's length; `validCookies` is the number of entries passing the expiry rule, so at most `totalCookies`; `authenticated` holds iff some cookie is valid, iff `validCookies > 0`; `status` is `✅ Pronto para captura` when authenticated and `❌ Cookies expirados` otherwise |
| StatusRoute.StatusFileFlag | sicredi-capture-server/server.js:88-116 | `cookiesFile` is false exactly when the file is missing; a missing or unreadable file is never authenticated; a missing file reports `cookies.json não encontrado` and an unreadable one its own error message |
| SessionApplier.NoValidCookiesNoCalls | sicredi-capture-server/server.js:40-46 | with no file, an unreadable file or no valid cookie, `applyCookies` makes no browser call and returns false |
| SessionApplier.BucketStepShape | sicredi-capture-server/server.js:52-56 | one bucket step is a prefix of `goto(url, domcontentloaded)` then `setCookie(bucket)`, and nothing for an empty bucket; it succeeds iff both calls were made and returned |
| SessionApplier.ApplyCookiesFollowsPlan | sicredi-capture-server/server.js:46-70 | the calls are a prefix of the plan (google visit and set, then looker visit and set, each only for a non-empty bucket); the result is true iff the whole plan ran without a throw and the two bucket sizes sum to more than 0 |
| SessionApplier.ApplyCookiesWithoutErrors | sicredi-capture-server/server.js:44-66 | on a browser that never throws, the whole plan runs, and the result is true iff some valid cookie's domain contains `google.com` |
| SessionApplier.ApplyCookiesCalls | sicredi-capture-server/server.js:39-71 | `applyCookies` only makes `goto(…, domcontentloaded)` and `setCookie` calls, so errors stay inside it and it never closes the browser |
| SessionApplier.PlanStartsWithGoogle | sicredi-capture-server/server.js:51-56 | a non-empty plan starts with the visit to `https://accounts.google.com` and the google bucket |
| SessionApplier.ApplyCookies | sicredi-capture-server/server.js:39-71 | the method appends exactly the calls of `ApplyCookiesSpec` to the trace and returns its result |
| LoginDetector.ContainsAnyIff | sicredi-capture-server/server.js:199-201 | `some(keyword => text.includes(keyword))` holds iff some entry of the list occurs in the text |
| LoginDetector.LoginScreenIff | sicredi-capture-server/server.js:179-201 | login detected iff the lowercased URL contains a URL marker or the lowercased first 3000 characters of the body contain a keyword |
| LoginDetector.LoginByUrl | sicredi-capture-server/server.js:184-187 | a URL marker in the lowercased URL triggers detection whatever the page text |
| LoginDetector.LoginByProviderUrl | sicredi-capture-server/server.js:185 | a URL containing `accounts.google.com` is a login screen |
| LoginDetector.LoginByText | sicredi-capture-server/server.js:179-201 | a phrase whose lowercase is a keyword, found in the first 3000 characters, triggers detection |
| LoginDetector.OnlyWindowMatters | sicredi-capture-server/server.js:180 | text after the first 3000 characters never changes the verdict |
| LoginDetector.LoginKeywordSubsumes | sicredi-capture-server/server.js:189-190 | any body text matching `faça login` or `fazer login` also matches `login` |
| Text.ContainsIffOccurs | sicredi-capture-server/server.js:48 | `includes` holds iff the needle occurs at some index |
| Text.LowerKeepsContains | sicredi-capture-server/server.js:180-184 | lowercasing both sides keeps an occurrence |
| Automation.Browser.Launch | sicredi-capture-server/server.js:138-150 | records `launch` with the viewport size and returns the oracle's reply |
| Automation.Browser.NewPage | sicredi-capture-server/server.js:152 | records `newPage` and returns the oracle's reply |
| Automation.Browser.SetExtraHttpHeaders | sicredi-capture-server/server.js:155-158 | records the header call and returns the oracle's reply |
| Automation.Browser.Goto | sicredi-capture-server/server.js:173-176 | records the navigation; on success the current URL becomes the landing URL |
| Automation.Browser.SetCookie | sicredi-capture-server/server.js:54 | records `setCookie` with the bucket |
| Automation.Browser.Evaluate | sicredi-capture-server/server.js:179-181 | records the body-text read and returns the oracle's reply |
| Automation.Browser.Screenshot | sicredi-capture-server/server.js:217-222 | records the screenshot call with its clip |
| Automation.Browser.Close | sicredi-capture-server/server.js:258 | records `close` and returns the oracle's reply |
| CaptureRoute.Visit | sicredi-capture-server/server.js:173-233 | appends exactly `VisitSpec`'s calls and leaves the block as `VisitSpec` says |
| CaptureRoute.Try | sicredi-capture-server/server.js:135-233 | appends exactly `TrySpec`'s calls; `launched` says whether `browser` was assigned |
| CaptureRoute.Capture | sicredi-capture-server/server.js:121-264 | appends exactly `CaptureSpec`'s calls and returns its response; `CaptureSpec` refuses a missing URL and otherwise is `Handle` with the parsed width and height |
| CaptureProperties.ErrorClassification | sicredi-capture-server/server.js:238-247 | 408 iff the message contains `timeout`; 502 iff not that and it contains `net::ERR_`; 500 otherwise; no other code |
| CaptureProperties.MissingUrlIsBadRequest | sicredi-capture-server/server.js:128-133 | a missing or empty `url` gives 400 `URL é obrigatória`, and no browser call is made |
| CaptureProperties.TryCallsShape | sicredi-capture-server/server.js:136-168 | the browser counts as launched iff launch returned; a failed launch is the only call; rejected cookies end with one inline close; applied cookies go on to the target |
| CaptureProperties.PreludeFacts | sicredi-capture-server/server.js:136-168 | the calls before the target are launch, page, headers and then only cookie calls, with no close and no screenshot |
| CaptureProperties.NoCloseInCookieCalls | sicredi-capture-server/server.js:39-71 | the cookie step makes no close, evaluate, screenshot or target navigation |
| CaptureProperties.VisitFacts | sicredi-capture-server/server.js:173-233 | the target part starts with the navigation; it returns only 200 or 401; 401 follows exactly one close, 200 none; a screenshot comes third, after an evaluate and a clean login check |
| CaptureProperties.TryFacts | sicredi-capture-server/server.js:136-233 | the `try` block returns only 200 or 401; it closes at most once; 401 follows one close and 200 none |
| CaptureProperties.BrowserClosed | sicredi-capture-server/server.js:255-263 | whenever launch returned, the last call is `close`, made once or twice; a failed launch makes no close; both 401 paths close twice and success closes once |
| CaptureProperties.NoCookiesUnauthenticated | sicredi-capture-server/server.js:161-168 | on a browser that never throws, with no valid cookie, the calls are launch, page, headers, close, close, and the response is 401 with the cookie message |
| CaptureProperties.RejectedCookiesStopBeforeTarget | sicredi-capture-server/server.js:161-168 | when `applyCookies` is false, the run ends after two closes, with no navigation to the target, no evaluate and no screenshot; it answers 401 unless the inline close throws |
| CaptureProperties.RejectedTry | sicredi-capture-server/server.js:161-168 | when `applyCookies` is false, the `try` block has assigned `browser`, ends with the inline close, and returns 401 with the cookie message unless that close throws |
| CaptureProperties.RejectedHandle | sicredi-capture-server/server.js:161-168 | when `applyCookies` is false, the calls are the prelude and two closes, the second being the `finally` close, and the answer is 401 unless the inline close throws |
| CaptureProperties.ScreenshotOnlyAfterCleanCheck | sicredi-capture-server/server.js:173-222 | every screenshot comes right after a target navigation and an evaluate that both returned, and whose landing URL and text are not a login screen |
| CaptureProperties.NoScreenshotWithoutCookies | sicredi-capture-server/server.js:161-168 | if the opening or the cookies fail, no screenshot is taken |
| CaptureProperties.CleanCheckBeforeScreenshot | sicredi-capture-server/server.js:199-222 | once the cookies are applied, a screenshot happens only after a clean login check |
| CaptureProperties.SuccessShape | sicredi-capture-server/server.js:217-233 | a 200 means: the cookies were applied; `dimensions` are the width and height the request was handled with; the timestamp is the stamp; `dataUrl` starts with `data:image/png;base64,`; the calls end with goto, evaluate, the `{0,0,w,h}` non-full-page shot and the `finally` close |
| CaptureProperties.CapturedSize | sicredi-capture-server/server.js:121-233 | a 200 answer to a request means its `url` was given, and its `dimensions` are the width and height parsed from `w` and `h` |
| CaptureProperties.ResponseCodes | sicredi-capture-server/server.js:128-254 | the status is one of 200, 400, 401, 408, 500, 502; 408, 500 and 502 carry the raw message as `details`, the target as `url`, and the classification of that message |
| CaptureProperties.NavigationTimeout | sicredi-capture-server/server.js:173-176 | a target navigation that throws a `timeout` message yields 408 after one `finally` close |
| CaptureProperties.LoginDetectedIsSessionExpired | sicredi-capture-server/server.js:173-210 | once the cookies are applied, a target navigation and page read that both return and show a login screen, followed by an inline close that returns, give 401 `Sessão expirada…`; the calls end with that close and the `finally` close, with no screenshot |
| CaptureProperties.LoginScreenIsSessionExpired | sicredi-capture-server/server.js:203-210 | on a browser that never throws, once the cookies are applied, a detected login screen gives 401 `Sessão expirada…`, with no screenshot and with two closes |
| CaptureProperties.AccessDeniedIsSessionExpired | sicredi-capture-server/server.js:189-210 | on a browser that never throws, once the cookies are applied, `access denied` in any letter case within the first 3000 characters gives 401 session expired |
| CaptureProperties.HappyPath | sicredi-capture-server/server.js:212-233 | on a browser that never throws, with cookies applied and no login screen, the answer is 200 with the width and height the request was handled with |

## Left out

- Express setup, CORS, static files, the `/` and `/health` routes, the error
  middleware and `app.listen`: these are framework plumbing.
- Console logging and `sleep(5000)`: these have no logical content.
- The launch flags and `headless` mode: these are not recorded in the
  `launch` call, which carries only the viewport size.
- The two header values (`Accept-Language` and `User-Agent`): these are
  recorded as constants in the header call, but what Chromium does with them
  is not modelled.
- `puppeteer.config.cjs`, `reset.js`, `test-capture.js` and
  `refresh-cookies.js`: these are configuration, interactive scripts and
  network clients, and are not part of this model.
- Filesystem access and `JSON.parse`: the cookie file is an input whose three
  outcomes are missing, unreadable (any read or parse error) and loaded.
  - A file that parses to something other than an array of cookie objects is
    treated as unreadable.
  - Non-numeric or NaN `expires` values are not represented.
- The clock and `toISOString`: both are parameters. Float precision of
  `Date.now() / 1000` is not modelled.
- QueryParams.ParseIntOr: the rounding of large digit strings to the nearest
  double is not modelled.
  - An in-range integer is returned exactly.
  - Only the finite/infinite boundary is kept.
  - Array-valued query parameters (`?w=1&w=2`) are not represented.
- LoginDetector.IsLoginScreen: `toLowerCase` is modelled for ASCII and
  Latin-1 letters only, and 3000 characters are counted as code points, not
  UTF-16 units.
- Automation.Browser.Goto: a navigation that throws leaves the current URL
  unchanged in the model. Real Puppeteer might have moved the page; this does
  not matter here, because nothing reads the URL again before the next
  navigation that returns.
- Errors thrown without a string `message` are not represented. Every thrown
  error carries one.
- server.js has no `response.ok` check after the target navigation and no
  render-readiness probe, so neither is modelled.
- `test-capture.js:78` calls a `/test-connection` route, but server.js does
  not define one, so it is not modelled.
- The success body has no `url` field, and no response carries `needsLogin`.
  The model follows the code.
