# ws2-metrics-dashboard: a Dafny model of its core logic

This project models the parts of the ws2 metrics dashboard (a Next.js
application) that make decisions or transform data, and proves properties of
them:

- **Session tokens** (`lib/auth.ts`). A token is `b64url(payload) "." b64url(HMAC(secret, b64url(payload)))`.
  The model covers the URL-safe base64 codec (sections 4, 5 and 3.2 of RFC 4648), the constant-time comparison
  loop, minting, and the ordered checks of verification.
- **Request gate** (`middleware.ts`). HTTP Basic authentication (section 2 of RFC 7617) against `DASH_USER` and
  `DASH_PASS`, with one uniform 401 answer, scoped by the path matcher.
- **Login route** (`app/api/auth/login/route.ts`). The guard chain of `POST /api/auth/login` and the cookie it sets.
- **Metrics query builder** (`lib/api.ts`). `qparam`, the `URLSearchParams.set` loop of `buildQuery`, the
  `application/x-www-form-urlencoded` serializer of the WHATWG URL standard, and the two timeseries URLs.
- **Chart tooltip** (`components/Charts.tsx`). The series rank, the numeric filter and the stable sort.
- **Dashboard page** (`app/dashboard/page.tsx`). The KPI aggregation, the `isoLocal` timestamp format and the
  fetch arguments the page passes.
- **Theme switch** (`components/ThemeToggle.tsx`). A class whose fields are the theme state, `localStorage`
  and the document root.

Files: `wrappers.dfy` (Option, Result), `js_string.dfy` (the JavaScript string operations used), `process_env.dfy`
(the environment as a value), `base64.dfy`, `session.dfy`, `basic_auth_gate.dfy`, `login_route.dfy`,
`metrics_api.dfy`, `tooltip.dfy`, `dashboard.dfy`, `theme_toggle.dfy`.

The platform pieces enter as parameters: HMAC-SHA-256, JSON with UTF-8, the clock (`now`), Node's reading of
malformed base64, the UTF-8 decoder, and `Intl` date formatting. Nothing else is left uninterpreted.

Two behaviours of the code to note:

- `middleware.ts` performs Basic authentication. It never reads the session cookie and never redirects to a
  login page.
- The fetchers pass `from` and `to` through `qparam` like every other value. An empty `from` or `to` is
  therefore dropped from the query rather than always sent.

## Model

| member | source | states |
|---|---|---|
| Base64.StdChar | lib/auth.ts:11 | each sextet has one character of the standard alphabet, and that character maps back to it |
| Base64.Base64NoPad | lib/auth.ts:11 | the unpadded encoding uses only the standard alphabet and is at least 2 characters for non-empty input |
| Base64.NoPadLength | lib/auth.ts:11 | `n` bytes encode unpadded to 4 characters per full group plus 0, 2 or 3 for a final group of 0, 1 or 2 bytes |
| Base64.NoPadShortfall | lib/auth.ts:11-12 | the unpadded length mod 4 is 0, 2 or 3 as the byte count mod 3 is 0, 1 or 2 |
| Base64.QuantumRoundTrip | lib/auth.ts:11-19 | a full 3-byte group decodes back to its three bytes |
| Base64.Base64RoundTrip | lib/auth.ts:11-19 | strict padded decoding undoes standard encoding for every byte sequence |
| Base64.UrlEncodeUnpadded | lib/auth.ts:10-13 | `b64urlEncode` (`B64UrlEncode`) is the unpadded standard encoding in the URL alphabet |
| Base64.UrlEncodeAlphabet | lib/auth.ts:10-13 | `b64urlEncode` output holds only `A-Z a-z 0-9 - _`, never `=` and never `.` |
| Base64.UrlAlphabetRoundTrip | lib/auth.ts:12-16 | mapping `-`/`_` back undoes the mapping of `+`/`/` on standard text |
| Base64.Repad | lib/auth.ts:17-18 | the re-padded text is the input followed only by `=`, fewer than 4 of them, to a multiple of 4 |
| Base64.RepadRestoresPadding | lib/auth.ts:16-18 | re-padding the stripped text to a multiple of 4 restores exactly the removed `=` run |
| Base64.B64UrlRoundTrip | lib/auth.ts:10-20 | `b64urlDecode(b64urlEncode(b)) == b` for every byte sequence |
| Base64.B64UrlDecode | lib/auth.ts:15-20 | the reassign-and-pad method computes the decoding; on any encoder output it returns the encoded bytes |
| Session.SettingsFromEnv | lib/auth.ts:6-8 | secret defaults to `""`, TTL to 43200, cookie name to `ws2_metrics_session`; a set value is used as given |
| Session.GetSessionConfig | lib/auth.ts:35-41 | reports the cookie name and TTL, and `hasSecret` exactly when the secret is non-empty |
| Session.CreateSessionCookie | lib/auth.ts:43-54 | fails exactly when the secret is empty; otherwise `maxAge` is the TTL |
| Session.MintedTokenSplits | lib/auth.ts:47-53 | a minted token splits on `.` into exactly the payload part and its signature |
| Session.VerifySessionCookie | lib/auth.ts:56-60 | refused when the secret is empty, and when the token does not split into exactly two parts |
| Session.VerifiedTokenShape | lib/auth.ts:56-81 | an accepted token is `body "." sig` with the matching signature, and carries a truthy `u` and a numeric `exp > now` |
| Session.SignatureCheckedFirst | lib/auth.ts:64-75 | a wrong signature is refused however the payload would decode |
| Session.PayloadOfEncoded | lib/auth.ts:68-79 | on the URL encoding of any bytes, `PayloadAccepted` decides on exactly what the codec parses from those bytes: an object with a truthy `u` and a numeric `exp > now` |
| Session.MintedPayloadAccepted | lib/auth.ts:68-81 | a minted payload passes the payload checks exactly when `u != ""` and it has not yet expired |
| Session.MintedTokenVerifies | lib/auth.ts:43-81 | a minted token verifies at `later` exactly when the user is non-empty and `later < now + TTL`; `exp == now` is refused |
| Session.ForgedSignatureRejected | lib/auth.ts:59-66 | a minted body with any other signature part never verifies |
| Session.XorZero | lib/auth.ts:88 | `x ^ y == 0` exactly when `x == y` |
| Session.OrZero | lib/auth.ts:88 | `x \| y == 0` exactly when both are 0 |
| Session.TimingSafeEqual | lib/auth.ts:84-90 | false when the lengths differ; otherwise true exactly when every code unit matches; all indices are visited (invariant: `out == 0` iff the prefixes agree) |
| BasicAuthGate.Unauthorized | middleware.ts:3-8 | a 401 whose one header is the `WWW-Authenticate` challenge of the `Basic` scheme with a realm |
| BasicAuthGate.DecodedEncoded | middleware.ts:20-23 | `DecodedCredentials` of `"Basic " + base64(b)` is the UTF-8 decoding of `b`: slicing, trimming and decoding lose nothing |
| BasicAuthGate.CredentialsMatchIff | middleware.ts:28-34 | splitting at the first `:` and comparing accepts exactly `user ":" pass` for a user without `:`; the password may contain `:` |
| BasicAuthGate.Middleware | middleware.ts:10-37 | always `next()` or the one 401; fails closed on unset credentials; needs a case-sensitive `"Basic "`; passes exactly on configured user and password |
| BasicAuthGate.Base64EncodeNoWhitespace | middleware.ts:20 | standard base64 text has nothing `trim` would remove |
| BasicAuthGate.ClientHeaderAccepted | middleware.ts:17-36 | a header `"Basic " + base64(utf8(user ":" pass))` with the configured values is let through |
| BasicAuthGate.LowercaseSchemeRejected | middleware.ts:17-18 | a `basic ` header (lower case) is always refused |
| BasicAuthGate.RequestGate | middleware.ts:39-41 | paths outside the matcher pass untouched; every path inside it gets exactly the middleware's answer |
| BasicAuthGate.MatcherScopeShape | middleware.ts:39-41 | `InMatcherScope` takes every `/dashboard/` sub-path; everything in scope is `/` or starts with `/dashboard`; `/api/...` and `/login...` are never in scope |
| BasicAuthGate.MatcherScopeExamples | middleware.ts:39-41 | `/login`, `/api/auth/login` and `/dashboards` are outside the gate; `/`, `/dashboard` and its sub-paths are inside |
| LoginRoute.FieldText | app/api/auth/login/route.ts:12-14 | `String(x ?? d)` gives the default only for an absent or null field, a string unchanged, and the `String(x)` text of any other value |
| LoginRoute.Post | app/api/auth/login/route.ts:4-39 | 500 for a missing secret first, then 500 for unset credentials, and 500 only then; 401 exactly on a mismatch of configured credentials, with no cookie; 200 exactly on a full match with `redirectTo`, TTL and the cookie attributes |
| LoginRoute.NextDefault | app/api/auth/login/route.ts:14 | `next` becomes `/dashboard` only when absent, null or the body is missing; `""` is kept |
| LoginRoute.LoginCookieVerifies | app/api/auth/login/route.ts:23-36 | the cookie of a successful login verifies at every time before `now + TTL` and at none after |
| MetricsApi.QParam | lib/api.ts:29-32 | null exactly for null, undefined and `""`; otherwise `String(v)` |
| MetricsApi.QParamExamples | lib/api.ts:30-31 | the number 0 is kept as `"0"`; only `""` among falsy values is dropped |
| MetricsApi.RemoveKey | lib/api.ts:38 | removes every pair of a key: the key set loses the key, and a pair survives exactly when it has another name |
| MetricsApi.RemoveKeySingle | lib/api.ts:38 | one pair is dropped exactly when it has the removed name |
| MetricsApi.RemoveKeyAppend | lib/api.ts:38 | removal over two runs of pairs is removal over each, so the survivors keep their order |
| MetricsApi.RemoveKeyAbsent | lib/api.ts:38 | removing an absent name leaves the pairs unchanged |
| MetricsApi.FirstIndex | lib/api.ts:38 | the position of the first pair with the name: it has the name and no earlier pair does |
| MetricsApi.SetFirst | lib/api.ts:38 | replacing the value of a present key keeps the key set and yields the new pair |
| MetricsApi.SetFirstShape | lib/api.ts:38 | the pairs before the first one named `k` are unchanged, that pair becomes `(k, v)`, and after it only pairs with other names remain, in order |
| MetricsApi.SetParam | lib/api.ts:38 | `usp.set` appends when the key is new; otherwise it sets the first pair of the key, removes the later ones and keeps every other pair in place; names stay distinct |
| MetricsApi.QueryPairsDistinct | lib/api.ts:34-40 | every key appears at most once in the built query |
| MetricsApi.KeptKeys | lib/api.ts:36-38 | the query holds only keys of the input |
| MetricsApi.QueryPairsKept | lib/api.ts:34-40 | for distinct keys the pairs `QueryPairs` builds are exactly the entries with a non-null `qparam`, in entry order |
| MetricsApi.Utf8 | lib/api.ts:40 | UTF-8 takes 1 to 4 bytes per character, one byte exactly for ASCII (RFC 3629) |
| MetricsApi.FormEncode | lib/api.ts:40 | the urlencoded form of a text holds only unreserved characters, `+` and `%`, never `&` or `=`, and every `%` starts an escape of two upper-case hex digits |
| MetricsApi.FormEncodeKept | lib/api.ts:40 | a text made only of unreserved characters is serialized unchanged |
| MetricsApi.SpaceEncodedAsPlus | lib/api.ts:40 | a space becomes `+` and `:` becomes `%3A` |
| MetricsApi.SerializeSplits | lib/api.ts:40 | splitting the `Serialize` text on `&` and then on `=` gives back every encoded pair |
| MetricsApi.BuildQuery | lib/api.ts:34-41 | the loop over entries yields the serialization of the reference query |
| MetricsApi.GranularityName | lib/api.ts:27 | every granularity name is non-empty and needs no escaping |
| MetricsApi.TimeseriesParamsDistinct | lib/api.ts:52-58 | the five parameter names are distinct |
| MetricsApi.TimeseriesQuery | lib/api.ts:52-58 | the query of `TimeseriesParams` is `from`, `to` when non-empty, then `granularity` always, then `companyId`/`formTypeId` when given and non-empty |
| MetricsApi.GranularityAlwaysSent | lib/api.ts:52-58 | the granularity pair is in every timeseries query |
| MetricsApi.RequestsUrl | lib/api.ts:59 | the URL is `apiBase + "/api/metrics/timeseries/requests?"` followed by the query |
| MetricsApi.LatencyUrl | lib/api.ts:81 | the URL is `apiBase + "/api/metrics/timeseries/latency?"` followed by the query |
| MetricsApi.UrlsShareQuery | lib/api.ts:52-81 | both endpoints receive the same query string |
| Tooltip.Rank | components/Charts.tsx:49-57 | every rank is one of 1, 2, 3, 4, 5, 9 |
| Tooltip.RankStatusSeries | components/Charts.tsx:49-53 | `2xx`, `4xx`, `5xx` rank 1, 2, 3 |
| Tooltip.RankStarted | components/Charts.tsx:50-54 | `Started` ranks 4 through lower-casing |
| Tooltip.RankAvgAll | components/Charts.tsx:50-55 | `Avg All (ms)` ranks 5 through lower-casing |
| Tooltip.RankFirstMatch | components/Charts.tsx:51-56 | the earlier rule wins (`Avg 2xx (ms)` ranks 1); a name without a marker ranks 9 |
| Tooltip.RankIgnoresCase | components/Charts.tsx:50 | names equal after lower-casing rank the same |
| Tooltip.NumericItems | components/Charts.tsx:47 | keeps exactly the non-null entries whose value is a number |
| Tooltip.NumericItemsSingle | components/Charts.tsx:47 | a single entry is kept exactly when it is present and numeric |
| Tooltip.NumericItemsAppend | components/Charts.tsx:47 | the filter of a concatenation is the concatenation of the filters, so order and multiplicity are kept |
| Tooltip.Insert | components/Charts.tsx:48-58 | inserting into a rank-sorted list keeps it sorted and adds exactly one entry |
| Tooltip.SortBy | components/Charts.tsx:48-58 | sorting by a key (the rank, for the tooltip) gives a permutation of its input with non-decreasing key |
| Tooltip.InsertOfRank | components/Charts.tsx:48-58 | an inserted entry goes after all entries of its own rank |
| Tooltip.SortByStable | components/Charts.tsx:48-58 | entries of equal rank keep their input order |
| Tooltip.CustomTooltip | components/Charts.tsx:43-61 | nothing when inactive or the payload is missing or empty; title `""` for a falsy label; rows are a rank-sorted permutation of the numeric entries, entries of one rank in their payload order |
| Dashboard.SumOfAppend | app/dashboard/page.tsx:47-50 | `SumOf` over concatenated point lists is the sum of the two sums |
| Dashboard.SumOfMissing | app/dashboard/page.tsx:47-50 | a point whose summed field is missing adds 0, whatever its other counts |
| Dashboard.SumOfNonNegative | app/dashboard/page.tsx:47-50 | sums of non-negative counts are non-negative |
| Dashboard.Averages | app/dashboard/page.tsx:57 | the numeric averages are empty exactly when no point has a numeric `avgAllMs` |
| Dashboard.Rate | app/dashboard/page.tsx:53-55 | for a positive total the rate times the total is the part; otherwise the rate is 0 |
| Dashboard.ComputeKpi | app/dashboard/page.tsx:46-61 | each count is `SumOf` its field over the points; `completed == c2xx + c4xx + c5xx`; each rate is its count's `Rate` of `completed` (0 when nothing completed); `avgAllMs` is null exactly when no average is numeric, and otherwise times their number is their sum |
| Dashboard.RateAdd | app/dashboard/page.tsx:53-54 | rates over the same positive total add |
| Dashboard.RateMonotone | app/dashboard/page.tsx:53-55 | a count no larger gives a rate no larger, over the same positive total |
| Dashboard.KpiRates | app/dashboard/page.tsx:51-55 | for non-negative counts and `completed > 0`: `successRate + errRate == 1`, `err5xxRate <= errRate`, all rates in [0, 1] |
| Dashboard.PadTwoDigits | app/dashboard/page.tsx:9 | for 0..99, `Pad(n)` is two digits that read back as `n`, with a leading `0` below 10 |
| Dashboard.IsoLocalLayout | app/dashboard/page.tsx:8-11 | the `IsoLocal` text is `YYYY-MM-DDTHH:MM:00`, 19 characters, with every field reading back from its position and the month counted from 1 |
| Dashboard.ApiBase | app/dashboard/page.tsx:30 | a set, non-empty variable is used as is; an unset or empty one gives `http://localhost:5000` |
| Dashboard.OrUndefined | app/dashboard/page.tsx:75-76 | an empty filter becomes undefined, and a non-empty one is passed on unchanged |
| Dashboard.PageQuery | app/dashboard/page.tsx:69-88 | for the `PageFetchArgs` the page passes, an empty company or form-type filter is left out of the sent query |
| ThemeToggle.ThemeName | components/ThemeToggle.tsx:5 | a theme's text is `dark` or `light`, and distinct themes have distinct texts |
| ThemeToggle.Flip | components/ThemeToggle.tsx:31 | the next theme always differs from the current one |
| ThemeToggle.FlipInvolution | components/ThemeToggle.tsx:31 | toggling twice restores the theme |
| ThemeToggle.ParseTheme | components/ThemeToggle.tsx:10 | only the stored texts `light` and `dark` are read as a theme, and each is read as itself |
| ThemeToggle.InitialTheme | components/ThemeToggle.tsx:7-13 | dark without a window; light exactly when `light` is stored; dark for anything else |
| ThemeToggle.InitialThemeAfterStore | components/ThemeToggle.tsx:9-10 | after a theme is stored, the initial theme read on the next load is that theme |
| ThemeToggle.ThemeToggleState.constructor | components/ThemeToggle.tsx:22 | the state before mounting is dark; storage and document are as the page had them |
| ThemeToggle.ThemeToggleState.ApplyTheme | components/ThemeToggle.tsx:15-19 | the `data-theme` attribute and `colorScheme` both become the theme; nothing else changes |
| ThemeToggle.ThemeToggleState.Mount | components/ThemeToggle.tsx:24-28 | the state becomes `getInitialTheme()` of the storage and the document shows it; storage untouched |
| ThemeToggle.ThemeToggleState.Toggle | components/ThemeToggle.tsx:30-35 | the theme flips; the state, the stored preference and the document all show the new theme; a reload starts from it |
| ThemeToggle.ToggleTwice | components/ThemeToggle.tsx:30-35 | two toggles restore the theme, every attribute and the colour scheme, and leave the restored theme stored |

## Left out

- HMAC-SHA-256 through `crypto.subtle` is a deterministic function parameter `Hmac`; SHA-256 itself is not modelled.
- `JSON.stringify`, `JSON.parse`, `TextEncoder` and `TextDecoder` are the parameter `PayloadCodec`. Proofs that a
  minted token verifies assume the codec round trip `CodecRoundTrips`.
- Node's `Buffer` base64: well-formed padded text is decoded exactly. The bytes produced for malformed text are the
  parameter `NodeBuffer.lenientBase64` in the middleware.
- In `verifySessionCookie` malformed base64 counts as a decoding failure, the same as the `catch` branch.
- The `catch` of `middleware.ts` cannot be reached, because `Buffer.from` and `toString` do not throw on a string;
  the model has no such branch.
- The clock (`Date.now()`, `Math.floor`) is the integer parameter `now`.
- The asynchrony of the HMAC, `req.json()` and `fetch` is not modelled.
- Session.SettingsFromEnv: `Number(SESSION_TTL_SECONDS)` is taken to be an integer. A non-numeric value (NaN) or a
  fractional TTL is not modelled.
- Session.VerifySessionCookie: the signature is compared with `==`. `TimingSafeEqual` is the method proved equal to
  that comparison, since a function cannot call a method.
- Session.TimingSafeEqual: timing is not observable in Dafny. The "no early exit" property is stated only as the
  count of indices the loop visits.
- `JSON.parse` results are reduced to the `u` and `exp` properties that verification inspects.
- LoginRoute.Post: `String(x)` of a non-string body field (number, boolean, object) is the text carried in the
  field. JavaScript's number-to-string conversion is not modelled.
- `req.json()` rejecting and a `null` body are both the missing body.
- `res.cookies.set` on the fresh response is returned as a record.
- MetricsApi.QParam: numbers are integers. Non-integer and special floating-point values of `String(v)` are not
  modelled.
- `Object.entries` order is the order of the parameter sequence given. For the fetchers this is the order in which
  the object literal is written.
- `fetch`, `AbortController`, `Promise.all`, response status handling and result parsing are I/O and are left out.
- Tooltip.CustomTooltip: the `Intl.DateTimeFormat` title is the parameter `formatTitle`. The markup,
  `toLocaleString` and React keys are rendering.
- `String(label)` of a non-integer number label is not modelled.
- `toLowerCase` maps only ASCII letters. Series names are ASCII.
- A `char` is a Unicode scalar value, not a UTF-16 code unit. Lengths and indices count scalar values: a character
  outside the Basic Multilingual Plane is one `char`, where `length` and `charCodeAt` in the source count two code
  units (this affects `timingSafeEqual`'s length check and loop). Lone surrogates cannot be represented.
- Dashboard.ComputeKpi: the rates and the average are computed over `real`, not rounded floating point.
- `fmtInt`, `pct` (`toFixed`) and `Intl.NumberFormat` are presentation and are left out.
- `defaultRange` and `Date` arithmetic are left out; `isoLocal` receives the calendar fields it reads.
- Dashboard.IsoLocalLayout: the layout is proved for four-digit years and in-range fields.
- React state, effects, `useMemo`, the recharts components and all markup are left out.
- ThemeToggle: `typeof window === "undefined"` is the `None` case of `InitialTheme`. React's re-render between
  `setTheme` and the following statements is not modelled; the class updates its fields in the order the source
  writes them.
- The login page, the logout route and the root layout are presentation and framework glue; they are not part of
  this model.
