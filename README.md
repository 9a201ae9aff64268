# WHOIS lookup service: date parsing, record building, caching and request middleware

This Dafny project models the core of a small domain-lookup backend. It covers:

- **`parseWhoisDate`** (`WhoisDate`). It tries nine date patterns in a fixed order on a trimmed fragment and rewrites the first match to `YYYY-MM-DD`. If the rewrite is not of that shape, it moves to the next pattern. If nothing qualifies, it returns `null`.
- **The record builder of `performWhoisLookup`** (`WhoisRecord`). It first decides availability from indicator phrases in the lowercased response. Unless the domain is available, it then scans the response line by line, filling the registrar, the creation, update and expiry dates, and a list of distinct name servers.
- **The rest of `performWhoisLookup`** (`WhoisLookup`). The WHOIS client's answer becomes a record. A transport error (`ENOTFOUND`, `timeout`, `ECONNREFUSED`) becomes a fallback record that names the lowercased top-level label. Any other error is a rejection.
- **`getDomainInfo` and its `NodeCache`** (`WhoisCache`). Answers are kept for 3600 s under the exact key `domain_<name>`. A hit is flagged `fromCache`. Failures are never cached and are rethrown as `Failed to lookup domain: <message>`.
- **`validateDomain`** (`DomainValidation`). The `domain` query parameter is required and must match `^[a-zA-Z0-9][a-zA-Z0-9-]{0,61}[a-zA-Z0-9]?\.[a-zA-Z]{2,}$`.
- **`createRateLimiter`** (`RateLimit`). A fixed-window counter per client address. The map is swept of expired windows on every request. A request is allowed while its count is below the limit. A denied request gets a 429 with `retryAfter` in whole seconds.

`Text` holds the JavaScript string operations the core uses:
- `toLowerCase` on ASCII;
- `includes`, `indexOf`, `split`, `join` and `trim`;
- the `\s`, `\d` and `\w` classes.

`Wrappers` holds `Option` (JavaScript `null`) and `Result` (a rejected promise or thrown error with its message).

Code that changes state is written with methods and proved against functions:
- `ParseWhoisDate` loops over the formats with an early return.
- `BuildRecord` loops over the lines and updates the result record, one `ScanRecordLine` per line.
- `DomainCache` is a class whose `entries` map `Get` and `Set` update.
- `RateLimiter` is a class whose `requests` map is swept by a loop and then updated.

Properties are stated as lemmas over those functions.

Time is a parameter, in milliseconds (`Date.now()`). `getDomainInfo` reads the clock twice: at the cache lookup (`now`) and again at the `set` after the awaited WHOIS lookup (`done`). The WHOIS client's answer is also a parameter: either the response text or an error message (`LookupOutcome`).

Notes on behaviour that follows the code as written:
- The cache key is `domain_` followed by the name exactly as given. It is not trimmed or lowercased, so `Example.com` and `example.com` are different entries.
- A field value is the text between a line's first and second colon (`split(':')[1]`). So `Updated: 2024-01-01T10:00:00Z` has the fragment `2024-01-01T10`, which still yields `2024-01-01`.
- Textual month dates (`31 Dec 2024`, `December 31, 2024`) are matched but never turned into `YYYY-MM-DD`. The rewriting at most cuts them at a `T` (`1 OCT 2024` becomes `1 OC`), and they contain no `-`, so the final check rejects them. Such a fragment yields a date only when one of the earlier, numeric patterns 1-6 matches somewhere in it. Pattern 8 is textual as well, and pattern 9 only matches where pattern 1 has already decided (`WhoisDate.ConvertPlain`, `WhoisDate.NoNumericDateIsNull`).
- Lines whose registrar value is blank overwrite each other, because `!""` is true. A response whose every registrar line is blank therefore ends with the registrar `""`, not `null` (`WhoisRecord.RegistrarBlank`).
- A label may end in a hyphen (`example-.com` passes) unless it is 63 characters long (`DomainValidation.TrailingHyphenAccepted`).
- The reset at `backend/middleware/index.js:106-109` never changes anything. The sweep just before it has already removed every entry it would apply to (`RateLimit.ResetIsNoOp`).

## Model

| member | source | states |
|---|---|---|
| WhoisDate.ParseWhoisDate | backend/services/whois.js:5-65 | the loop with its early return computes `ParseDate`; the result is `null` or a `YYYY-MM-DD` string |
| WhoisDate.ParseDate | backend/services/whois.js:5-65 | the result is `null` or matches `^\d{4}-\d{2}-\d{2}$` |
| WhoisDate.TryFormats | backend/services/whois.js:22-62 | whatever format the loop stops at, it only returns a string that passes the final check |
| WhoisDate.TryFormat | backend/services/whois.js:23-60 | one pass of the loop either returns a string that passes the final check, ending the loop, or moves on to the next format |
| WhoisDate.Convert | backend/services/whois.js:28-55 | a match already in `YYYY-MM-DD` form comes out unchanged |
| WhoisDate.MatchPattern | backend/services/whois.js:10-25 | a numeric pattern's match has the pattern's exact shape and length; a textual pattern's match holds no `-`, `/` or `.` |
| WhoisDate.MatchIsConvertible | backend/services/whois.js:28-55 | the separator rewriting never indexes a missing part, so `parseWhoisDate` never throws on a match |
| WhoisDate.ConvertYearFirst | backend/services/whois.js:28-45 | `YYYY-MM-DD`, `YYYY/MM/DD` and `YYYY.MM.DD` have their separators replaced by `-` |
| WhoisDate.ConvertDayFirst | backend/services/whois.js:28-51 | `DD-MM-YYYY`, `DD/MM/YYYY` and `DD.MM.YYYY` become `YYYY-MM-DD`: last group year, middle month, first day |
| WhoisDate.ConvertIsoDateTime | backend/services/whois.js:52-55 | `YYYY-MM-DDThh:mm:ss` is cut to its date before the `T` |
| WhoisDate.ConvertPlain | backend/services/whois.js:28-60 | a textual-month match is at most cut at a `T` and never passes the final check |
| WhoisDate.LeftmostSurvivesTrim | backend/services/whois.js:8-23 | trimming does not change which numeric match is leftmost |
| WhoisDate.SkipFormats | backend/services/whois.js:22-62 | formats without a match are passed over by the loop |
| WhoisDate.NumericFormatDecides | backend/services/whois.js:22-60 | when format `k` is the first of the six numeric ones that matches anywhere, the result is its leftmost match rewritten: separators replaced for year-first formats, groups reordered for day-first ones |
| WhoisDate.IsoDateWins | backend/services/whois.js:11-25 | priority is by pattern, not position: any `dddd-dd-dd` in the fragment makes the leftmost one the result, unchanged |
| WhoisDate.IsoDateTimeDropsTime | backend/services/whois.js:19-59 | an ISO date-time gives its date part |
| WhoisDate.NoNumericDateIsNull | backend/services/whois.js:17-64 | without a numeric date the result is `null`, textual months included |
| WhoisDate.NoDigitIsNull | backend/services/whois.js:6-64 | a fragment without a digit, including the empty one, gives `null` |
| WhoisRecord.BuildRecord | backend/services/whois.js:95-248 | the availability decision and the line-by-line scan compute `Build` |
| WhoisRecord.Build | backend/services/whois.js:95-248 | the record carries the queried name, is never a fallback and has no error |
| WhoisRecord.StepDate | backend/services/whois.js:177-187 | a set (truthy) date field is kept; a changed field holds a canonical `YYYY-MM-DD` date |
| WhoisRecord.ScanLine | backend/services/whois.js:159-246 | a truthy registrar is kept; the name-server list is kept, or grows by one name it did not hold |
| WhoisRecord.ScanDate | backend/services/whois.js:177-187 | one date field's update: written only while empty, and only with a fragment that parses |
| WhoisRecord.ScanRecordLine | backend/services/whois.js:159-246 | one run of the `forEach` callback changes the registrar, the three dates and the name servers as `ScanLine` says, and no other field |
| WhoisRecord.ScanLines | backend/services/whois.js:159-246 | after the scan each date field is `null` or a canonical date |
| WhoisRecord.RecordShape | backend/services/whois.js:108-157 | the record is available exactly when no registration indicator and some availability indicator occur; it is then bare, with a null registrar and dates and no name servers |
| WhoisRecord.ColonFreeTextHasNoRegistrationData | backend/services/whois.js:110-125 | every registration indicator ends in `:`, so a text without a colon has none |
| WhoisRecord.NoObjectFoundIsRegistered | backend/services/whois.js:110-128 | `Domain Status: No Object Found` is unavailable, because `domain status:` is a registration indicator |
| WhoisRecord.NoMatchIsAvailable | backend/services/whois.js:130-153 | a `No match for domain` answer is an available, bare record |
| WhoisRecord.NoMatchUnregistered | backend/services/whois.js:110-128 | the `No match` answer holds no registration indicator |
| WhoisRecord.NoMatchSignal | backend/services/whois.js:130-153 | the `No match` answer holds the availability phrase `no match` |
| WhoisRecord.RegistrarUnset | backend/services/whois.js:162-164 | while no line offers a non-blank registrar, the registrar is still falsy |
| WhoisRecord.RegistrarFirstWins | backend/services/whois.js:162-164 | the registrar is the trimmed value of the first `registrar:` line whose value is not blank; later lines do not overwrite it |
| WhoisRecord.RegistrarAbsent | backend/services/whois.js:162-164 | without a `registrar:` line the registrar is `null` |
| WhoisRecord.RegistrarLineHasField | backend/services/whois.js:162-163 | a `registrar:` line always has a second colon-separated field |
| WhoisRecord.RegistrarBlank | backend/services/whois.js:162-164 | when every `registrar:` line has a blank value, the registrar is the empty string |
| WhoisRecord.StepDateMeaning | backend/services/whois.js:179-187 | a set date field stays as it is; an empty one takes the line's parsed date, if any |
| WhoisRecord.DateOfLast | backend/services/whois.js:179-187 | one more line leaves a set date field alone and fills an empty one with that line's parsed date, if any |
| WhoisRecord.DateIsFirstOffer | backend/services/whois.js:159-238 | after the scan each date field is the first date offered by any line, reading from the top |
| WhoisRecord.DateFirstWins | backend/services/whois.js:166-238 | each date field comes from the first line with one of its labels whose fragment parses; earlier unparseable lines do not block it, later lines do not overwrite it |
| WhoisRecord.DateAbsent | backend/services/whois.js:166-238 | a date field without any line offering a parseable date is `null` |
| WhoisRecord.NameServerStep | backend/services/whois.js:240-245 | a line appends its trimmed name server exactly when it has a label, the value is non-empty and not yet listed |
| WhoisRecord.NameServersDistinct | backend/services/whois.js:240-245 | the name-server list has no duplicates (exact comparison) |
| WhoisRecord.NameServersOffered | backend/services/whois.js:240-245 | the list holds exactly the non-empty values offered by name-server lines |
| WhoisRecord.NameServersFirstSeen | backend/services/whois.js:240-245 | the list is in order of first appearance |
| WhoisLookup.PerformWhoisLookup | backend/services/whois.js:67-93 | the callback's decision between fallback record, rejection and built record computes `Lookup` |
| WhoisLookup.Lookup | backend/services/whois.js:70-92 | a resolved record carries the queried name and is a fallback exactly on a client error; a rejection only comes from a client error and carries its message |
| WhoisLookup.FallbackRecord | backend/services/whois.js:76-88 | the fallback record carries the queried name, is marked as a fallback and as not available |
| WhoisLookup.TopLevelLabel | backend/services/whois.js:76 | the label holds no dot and is the lowercased suffix after a dot or the whole name |
| WhoisLookup.TopLevelLabelAfterLastDot | backend/services/whois.js:76 | for `name.last` with a dot-free `last` the label is `last` lowercased |
| WhoisLookup.RejectsIff | backend/services/whois.js:70-92 | the lookup rejects exactly on a client error that is not a transport failure, with the client's message |
| WhoisLookup.FallbackShape | backend/services/whois.js:76-88 | a transport failure resolves with `available = false`, `fallback = true`, null dates, no name servers, and registrar and error texts naming the top-level label |
| WhoisLookup.FallbackNamesLastLabel | backend/services/whois.js:76-88 | the fallback texts for `name.last` name `last` lowercased |
| WhoisLookup.NotFoundIsTransportFailure | backend/services/whois.js:71-75 | a resolver message `getaddrinfo ENOTFOUND ...` counts as a transport failure |
| WhoisLookup.ResponseIsRecord | backend/services/whois.js:95-106 | a response always resolves with a record that is not a fallback |
| WhoisCache.CacheKey | backend/services/whois.js:257 | the key is `domain_` followed by the name unchanged |
| WhoisCache.CacheKeyInjective | backend/services/whois.js:257 | distinct names never share an entry |
| WhoisCache.Peek | backend/services/whois.js:258 | a value is found exactly when the key has an entry whose expiry is not yet past, and it is that entry's value |
| WhoisCache.Serve | backend/services/whois.js:256-273 | an answer is marked `fromCache` exactly when a live entry existed at the lookup time `now`; after a rejection the cache holds no entry for the key |
| WhoisCache.AfterGet | backend/services/whois.js:258 | reading drops an expired entry of that key and nothing else |
| WhoisCache.DomainCache.constructor | backend/services/whois.js:3 | an empty cache with a one-hour time to live |
| WhoisCache.DomainCache.Get | backend/services/whois.js:258 | returns the live value, and removes the key when its entry has expired |
| WhoisCache.DomainCache.Set | backend/services/whois.js:267 | stores the value with expiry `now + 3600 s` |
| WhoisCache.GetDomainInfo | backend/services/whois.js:256-273 | the answer and the new cache are those of `Serve`, with the cache read at `now` and the `set` at the later time `done` |
| WhoisCache.HitAnswersFromCache | backend/services/whois.js:258-262 | a hit returns the stored record with `fromCache: true` and leaves the cache unchanged |
| WhoisCache.MissPerformsLookup | backend/services/whois.js:264-272 | a miss returns the lookup's record with `fromCache: false` and stores it; a rejection is prefixed with `Failed to lookup domain: ` and stores nothing |
| WhoisCache.OtherDomainsUntouched | backend/services/whois.js:257-267 | a call changes no other domain's entry |
| WhoisCache.RepeatWithinTtlIsCached | backend/services/whois.js:256-269 | after a fresh answer stored at time `done`, the same name asked up to an hour after `done` is answered from the cache with the same record, whatever the server would now say |
| WhoisCache.RepeatAfterTtlLooksUp | backend/services/whois.js:256-269 | asked more than an hour after the `set` at time `done`, the name is looked up again |
| WhoisCache.OutageIsCached | backend/services/whois.js:264-269 | a fallback record is cached like any other and served until an hour after its `set` |
| WhoisCache.FailureIsNotCached | backend/services/whois.js:264-272 | after a rejected lookup there is still no live entry |
| DomainValidation.ValidateDomain | backend/middleware/index.js:19-32 | the request passes exactly when the parameter is present and matches the pattern; every refusal has status 400 |
| DomainValidation.LabelPatternIff | backend/middleware/index.js:26 | the label part of the pattern admits exactly 1 to 63 characters of `[A-Za-z0-9-]` starting with a letter or digit, where a 63-character label must end with one |
| DomainValidation.DomainPatternIff | backend/middleware/index.js:26 | the pattern admits exactly a valid label, one dot and two or more ASCII letters |
| DomainValidation.RequiredBeforeFormat | backend/middleware/index.js:22-24 | a missing or empty parameter gets 400 `Domain parameter is required` |
| DomainValidation.ValidateIff | backend/middleware/index.js:19-32 | the request passes exactly for a well-formed name; any other non-empty value gets 400 `Invalid domain format` |
| DomainValidation.SubdomainRejected | backend/middleware/index.js:26-29 | a name with two dots is refused with `Invalid domain format` |
| DomainValidation.SubExampleComRejected | backend/middleware/index.js:26-29 | `sub.example.com` is refused |
| DomainValidation.TrailingHyphenAccepted | backend/middleware/index.js:26 | a label of at most 62 characters may end in `-` |
| RateLimit.RateLimiter.constructor | backend/middleware/index.js:78-85 | options default to a 15-minute window, 100 requests and the standard message; the map starts empty |
| RateLimit.RateLimiter.SweepStale | backend/middleware/index.js:91-95 | the deletion loop leaves exactly the entries whose window has not passed |
| RateLimit.RateLimiter.Handle | backend/middleware/index.js:87-121 | verdict and new map are those of `Step` for the client's address |
| RateLimit.ClientKey | backend/middleware/index.js:88 | the key is `req.ip` when that is a non-empty string, else the connection's remote address |
| RateLimit.Sweep | backend/middleware/index.js:91-95 | the swept map keeps only keys it had, each with its entry unchanged |
| RateLimit.Step | backend/middleware/index.js:87-121 | after a request the client has an entry, and every other key is one the sweep kept |
| RateLimit.CeilDiv | backend/middleware/index.js:114 | `Math.ceil(x / d)`: the least `q` with `x <= q * d` |
| RateLimit.SweepKeepsLiveWindows | backend/middleware/index.js:91-95 | after the sweep no entry with `now - resetTime > windowMs` remains, and the others are unchanged |
| RateLimit.ResetIsNoOp | backend/middleware/index.js:106-109 | the in-place reset never changes the entry |
| RateLimit.OtherClientsOnlySwept | backend/middleware/index.js:91-104 | other clients' entries change only by the sweep's removals |
| RateLimit.AllowedIff | backend/middleware/index.js:97-120 | allowed exactly when the current count is below the limit; an allowed request adds exactly 1; a denied one keeps count and window start; the window start is only set when the entry is created |
| RateLimit.RetryAfterBounds | backend/middleware/index.js:112-115 | on denial `retryAfter` lies in `[0, ceil(windowMs / 1000)]` |
| RateLimit.StepKeepsValid | backend/middleware/index.js:97-118 | counts stay between 0 and the limit, and window starts never lie in the future |
| RateLimit.WindowBound | backend/middleware/index.js:106-118 | within a window, a client with `c` counted requests gets at most `maxRequests - c` more through |
| RateLimit.FreshWindowBound | backend/middleware/index.js:97-118 | a client without a live window (a new one, or one whose entry the sweep removes) gets at most `maxRequests` requests through within `windowMs` of the first |

## Left out

- The `whois` client and the network (backend/services/whois.js:1, 69): the client's answer is a parameter, either a response text or an error message.
- `node-cache` internals (backend/services/whois.js:2-3): the model keeps the stored value and its expiry time. Not modelled: cloning on `get` and `set`, the periodic check, statistics, events and key limits. An entry is taken to be live up to and including its expiry time.
- Promises, `async` and concurrent requests (backend/services/whois.js:68, 256): each call is modelled as one sequential step, so interleaved lookups of the same name are not covered.
- The `try`/`catch` around the record builder (backend/services/whois.js:95, 249-251): nothing in the modelled builder throws (`WhoisDate.MatchIsConvertible`), so the rejection path from a parse error does not exist in the model.
- An error without a `message` (backend/services/whois.js:71): the model's client error always carries a string message.
- `error` and `fallback` on a normal record: the source leaves them absent; the model reads them as `None` and `false`.
- `toLowerCase` beyond ASCII: only `A`-`Z` are mapped.
- Textual date patterns (backend/services/whois.js:17-18) are matched by a greedy scan, not by a full backtracking regular-expression engine. Their match never passes the final check either way (`WhoisDate.ConvertPlain`), so the result does not depend on which text they match.
- `sessionMiddleware`, `errorHandler`, `requestLogger` and `corsMiddleware` (backend/middleware/index.js:3-75): not part of the lookup path modelled here.
- backend/services/external-apis.js, the routes, the database and models, and the React front end are not part of this model.
- A `domain` query parameter given several times arrives as an array; the model only takes a missing value or one string.
- Rate-limiter options of the wrong type (`null`, non-numbers): an option is either absent, and defaulted, or an integer or string.
- `RateLimit.RetryAfterBounds`: assumes `windowMs >= 0` and no window start in the future. Time moving backwards can give values outside the bound.
- `RateLimit.WindowBound`: stated for a run of requests from one client. Other clients' requests in between are covered only through `RateLimit.OtherClientsOnlySwept`.
- `RateLimit.RateLimiter.Handle`: the address fallback `req.ip || req.connection.remoteAddress` is modelled (`RateLimit.ClientKey`), but an undefined remote address is not.
