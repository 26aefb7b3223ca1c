# Weather lookup service: rate limiter, code resolution and retrying fetch

A Dafny model of the core of a small Java weather service. The service turns a
(province, city, county) name triple into the weather provider's codes and
fetches the current temperature. It guards all outbound calls with a
fixed-window permit counter.

The model has two independent parts.

- **`RateLimiter`** (`rate_limiter.dfy`) models `RateLimiter.acquire()` as a
  pure step function `Acquire(state, now)`. The wall clock becomes the `now`
  argument. `Run` folds the step over a sequence of call times. The lemmas
  cover refills, exact decrements, the number of grants per window, the
  spacing of refills and the relation between the two refill checks.
- **The lookup**, in several modules:
  - `Codes` (`codes.dfy`) inverts code→name listings into name→code maps and
    models the lazily filled county cache `getCountyCode`.
  - `Retry` (`retry.dfy`) models the three-attempt weather fetch.
  - `Service` (`service.dfy`) models start-up (`init`), `getT` and
    `getTemperature`.
  - `Endpoints` (`endpoints.dfy`) and `Text` (`text.dfy`) model the URL
    templates and Java's `String.replace`.
  - `Remote` (`remote.dfy`) holds the provider's answers.
  - `Outcomes` (`outcomes.dfy`) models exceptions and their causes as `Error`,
    and throwing calls as `Result`.

Remote calls are not performed. A `Network` value gives the outcome of every
request:
- a listing request yields `Listed(entries)` or `Unavailable(cause)`;
- each weather attempt yields a `Reply`.

Every operation also returns the list of requests it made. This lets the
contracts say when no request is made, which request comes first, and that at
most three attempts are made.

Three modelling choices follow the Java code closely.
- **Refill checks.** `acquire` tests the elapsed time twice: first against
  `1000 * window`, then, under the lock, against a hardcoded 1000 ms.
  `Acquire` keeps both checks as written. `AcquireScaled` is the variant
  whose two checks both use the window-scaled threshold. The two are proved
  equal for every window of at least one second. For a zero window they
  differ, but the capacity is then zero, so a fresh limiter grants no call
  either way. For a negative window, which the constructor accepts, the
  difference is observable: `NegativeWindowGuardsDiffer` exhibits a call
  that `Acquire` denies and `AcquireScaled` grants.
- **Error values.** The code throws plain exceptions with fixed messages,
  for example `"province not exist:" + name` and
  `"cannot get county mapping data"`. The model's `Error` is an exception's
  message and its optional cause, so the error kinds are told apart by
  message only.
- **Failed start-up.** `init` stops at the first exception and leaves any
  maps it already filled in place. The model returns only the error; the
  partially filled state is not kept.

## Model

| member | source | states |
|---|---|---|
| RateLimiter.New | TestWeather/src/main/java/org/example/RateLimiter.java:13-21 | A new limiter keeps the given qps and window, so its capacity is qps*window. Its counter starts at zero. Its timestamp starts at zero, so a call refills iff the clock is past both 1000*window and 1000. |
| RateLimiter.Acquire | TestWeather/src/main/java/org/example/RateLimiter.java:23-39 | A call refills iff both elapsed-time checks pass. A refill sets the counter to qps*window and the timestamp to now. Every call then takes exactly one permit. The call is granted iff the counter is still non-negative. qps and window never change. |
| RateLimiter.InnerGuardImplied | TestWeather/src/main/java/org/example/RateLimiter.java:28-30 | For a window of at least one second, the combined refill condition equals the outer window-scaled check alone. |
| RateLimiter.AcquireIsScaled | TestWeather/src/main/java/org/example/RateLimiter.java:28-34 | For such windows the limiter as written equals the variant whose checks both use the window-scaled threshold. |
| RateLimiter.ZeroWindowGuardsDiffer | TestWeather/src/main/java/org/example/RateLimiter.java:28-30 | For a zero window the two checks disagree. Half a second after a refill the outer check passes and the inner one does not. |
| RateLimiter.ZeroWindowStepDenies | TestWeather/src/main/java/org/example/RateLimiter.java:28-38 | With a zero window and a counter at or below zero, both variants deny the call and keep the counter at or below zero. |
| RateLimiter.ZeroWindowNeverGrants | TestWeather/src/main/java/org/example/RateLimiter.java:28-38 | From such a state, no call of any run is granted. |
| RateLimiter.FreshZeroWindowNeverGrants | TestWeather/src/main/java/org/example/RateLimiter.java:13-38 | A freshly constructed zero-window limiter never grants a call, so the threshold disagreement cannot be observed. |
| RateLimiter.NegativeWindowGuardsDiffer | TestWeather/src/main/java/org/example/RateLimiter.java:17-38 | With a negative window the outer check always passes. A fresh (-1, -1) limiter, whose capacity is 1, grants a call at 2000. A second call at 2001 is denied by the limiter as written, but the window-scaled variant refills and grants it. |
| RateLimiter.FirstCallRefills | TestWeather/src/main/java/org/example/RateLimiter.java:13-33 | A fresh limiter has counter 0 and timestamp 0. Its first call refills iff now exceeds both 1000*window and 1000. After a refill the counter is qps*window-1; otherwise the call is denied with counter -1. |
| RateLimiter.RefillOnlyResets | TestWeather/src/main/java/org/example/RateLimiter.java:32-33 | A refill changes only the counter, to the capacity, and the timestamp, to now. |
| RateLimiter.DeniedOnlyDecrements | TestWeather/src/main/java/org/example/RateLimiter.java:28-38 | When the capacity is at least one, a denied call did not refill: a refill would have left a permit. Its only effect is the decrement, and the counter was already at or below zero. |
| RateLimiter.RefillsAfterLast | TestWeather/src/main/java/org/example/RateLimiter.java:28-33 | Every refill in a run comes more than a window, and more than a second, after the starting state's last refill. |
| RateLimiter.RefillsSpaced | TestWeather/src/main/java/org/example/RateLimiter.java:28-33 | Any two refills of one run are more than a window, and more than a second, apart. |
| RateLimiter.WithinWindow | TestWeather/src/main/java/org/example/RateLimiter.java:28-38 | Consider calls that stay within the window of the last refill. None of them refills. The counter drops by exactly one per call and may go negative. Call i is granted iff i is below the starting counter. |
| RateLimiter.WindowBurst | TestWeather/src/main/java/org/example/RateLimiter.java:23-39 | Take a refilling call followed by calls within one window of it. Exactly the first qps*window calls are granted and every later one is denied. |
| RateLimiter.WindowBurstCount | TestWeather/src/main/java/org/example/RateLimiter.java:23-39 | For such a burst, the number of granted calls is min(calls, max(qps*window, 0)). A negative capacity grants nothing. |
| RateLimiter.SingleThreadTest | TestWeather/src/test/java/org/example/RateLimiterTest.java:13-37 | 110 calls within one second on a (100, 1) limiter: 100 are granted and 10 denied. |
| RateLimiter.JoinedThreadsTest | TestWeather/src/test/java/org/example/RateLimiterTest.java:39-69 | Five threads of 21 calls, each joined before the next starts (a sequential run): 100 granted and 5 denied. |
| Text.Replace | TestWeather/src/main/java/org/example/WeatherService.java:85 | Text without the target's first character is returned unchanged. Replacing the target by itself leaves the text unchanged. A replacement as long as the target keeps the text's length. With `ReplaceHere`, `ReplaceAfter` and `ReplaceOther`: an occurrence at the front is replaced, brace-free text before it is skipped, and a different placeholder at the front is kept. |
| Endpoints.CityUrl | TestWeather/src/main/java/org/example/WeatherService.java:165 | The city-list URL of a province is the listing prefix ".../provshi/", then the province code verbatim, then ".html". |
| Endpoints.CountyUrl | TestWeather/src/main/java/org/example/WeatherService.java:197 | For a province code without '{', the county-list URL is ".../station/", then the province code, then the city code, then ".html". |
| Endpoints.WeatherUrl | TestWeather/src/main/java/org/example/WeatherService.java:85 | The three replaces fill the placeholders in turn. For province and city codes without '{', the result is the fixed prefix, then the three codes, then ".html". |
| Endpoints.Url | TestWeather/src/main/java/org/example/WeatherService.java:22-28 | Each kind of request goes to its own URL. A province list goes to the fixed province-list URL. A city list goes to the city-list prefix, the province code and ".html". For codes without '{', a county list or weather request goes to its prefix, then the request's codes, then ".html". |
| Codes.Invert | TestWeather/src/main/java/org/example/WeatherService.java:201-205 | The name→code map built from a listing has exactly the listed names as keys. Each name maps to a code listed under that name. |
| Codes.InvertLastWins | TestWeather/src/main/java/org/example/WeatherService.java:145-147 | A name listed more than once keeps the code of its last entry in iteration order. |
| Codes.InvertExact | TestWeather/src/main/java/org/example/WeatherService.java:169-172 | When every name is listed once, the map sends a name to a code iff the listing pairs them. It is then the exact inverse of the listing. |
| Codes.GetCountyCode | TestWeather/src/main/java/org/example/WeatherService.java:187-229 | The cache is keyed by province code followed by city code. Existing entries are never overwritten, and only that key can be added. A cached key is read with no request. A missing key makes exactly one county-list request. On failure the cache is unchanged and the result is "cannot get county mapping data" with the cause. On success the inverted listing is stored. The county name is then looked up in the cached map, giving either its code or "county not exist:"+county. |
| Codes.CountyErrorsDistinct | TestWeather/src/main/java/org/example/WeatherService.java:216-226 | A county missing from a fetched map and a failed population produce different messages. |
| Codes.SecondLookupIsCached | TestWeather/src/main/java/org/example/WeatherService.java:193-214 | After a successful lookup, a second lookup for the same code pair makes no request and leaves the cache as it is. For the same county name it returns the same code. |
| Codes.CountyKeyInjective | TestWeather/src/main/java/org/example/WeatherService.java:193 | When the province codes have equal length, equal cache keys mean equal code pairs. |
| Codes.CountyKeyCollision | TestWeather/src/main/java/org/example/WeatherService.java:193 | With codes of different lengths, two distinct pairs can share one cache entry: ("1","23") and ("12","3"). |
| Retry.Attempt | TestWeather/src/main/java/org/example/WeatherService.java:84-101 | An attempt succeeds iff the reply arrived, has a weatherinfo object and a readable temp. It then yields that reading. A reply without weatherinfo fails with "cannot get weather info from result". |
| Retry.RetryFrom | TestWeather/src/main/java/org/example/WeatherService.java:80-107 | Starting from attempt i, the loop succeeds iff some remaining attempt succeeds. It returns the first successful reading, after failed earlier attempts. If all attempts fail, it fails with "get weather info failed" caused by the last attempt's error. Every request is the same weather request. |
| Retry.FetchWeather | TestWeather/src/main/java/org/example/WeatherService.java:80-107 | The fetch makes at most three requests and stops at the first successful attempt. If all three fail, the error is "get weather info failed" whose cause is the third attempt's error. |
| Retry.ThirdTimeLucky | TestWeather/src/main/java/org/example/WeatherService.java:82-98 | Two failed attempts followed by a good one give that reading after exactly three requests, with no fourth. |
| Retry.FirstAttemptWins | TestWeather/src/main/java/org/example/WeatherService.java:82-97 | A good first attempt returns after a single request. |
| Service.NewService | TestWeather/src/main/java/org/example/WeatherService.java:40-42 | A new service has a fresh one-second limiter of tps permits and an empty county cache. Its maps are empty, so before start-up every lookup fails with "province not exist:". |
| Service.NewDefaultService | TestWeather/src/main/java/org/example/WeatherService.java:36-38 | The no-argument service allows 100 calls a second, starting with an empty counter and an empty county cache. |
| Service.SetProvinceMap | TestWeather/src/main/java/org/example/WeatherService.java:138-155 | One province-list request. It succeeds iff the listing arrives, and then yields the inverted listing. Otherwise it fails with "cannot get province mapping data" caused by the listing's error. |
| Service.SetCityMap | TestWeather/src/main/java/org/example/WeatherService.java:157-185 | It makes at most one request per province code. On success it made one request per code and holds one city map per code. |
| Service.CityRequestsInOrder | TestWeather/src/main/java/org/example/WeatherService.java:162-165 | The j-th request fetches the city list of the j-th province code visited. |
| Service.CityMapsBuiltIff | TestWeather/src/main/java/org/example/WeatherService.java:162-180 | The city maps are built iff the city listing of every province code arrives. |
| Service.CityMapFailure | TestWeather/src/main/java/org/example/WeatherService.java:178-180 | A failure comes from the last listing requested, after every earlier listing arrived. Its error is "cannot get city mapping data" caused by that listing's error. |
| Service.CityMapsContents | TestWeather/src/main/java/org/example/WeatherService.java:169-174 | A province code visited only once holds its own inverted city listing. |
| Service.InitInOrder | TestWeather/src/main/java/org/example/WeatherService.java:44-47 | Start-up requests the province list first. If it fails, nothing else is requested. On success it made one city request per visited code. It then holds the inverted province listing and exactly the visited codes as city-map keys, with an empty county cache and a fresh (tps, 1) limiter. |
| Service.Init | TestWeather/src/main/java/org/example/WeatherService.java:157-185 | Start-up visits the province codes in their hash map's order. A started service maps every province code, and only those, to a city map. |
| Service.InitProvinceFailure | TestWeather/src/main/java/org/example/WeatherService.java:44-47 | A failed province listing aborts start-up after that single request, before any city request. |
| Service.InitSucceedsIff | TestWeather/src/main/java/org/example/WeatherService.java:44-47 | Start-up succeeds iff the province listing and the city listing of every province code arrive. A failure after the province listing is a city-mapping failure. |
| Service.InitContents | TestWeather/src/main/java/org/example/WeatherService.java:40-47 | A started service holds the inverted province listing. It has one inverted city listing for each province code and no other keys. The county cache is empty and the limiter is a fresh (tps, 1) one. The province request came first, followed by exactly one request per province code. |
| Service.Resolve | TestWeather/src/main/java/org/example/WeatherService.java:65-76 | The lookup succeeds iff the province has a code, that code has a city map, and the city is in it. A missing province, or a province code with no city map, fails with "province not exist:"+province. A missing city fails with "city not exist:"+city. |
| Service.GetT | TestWeather/src/main/java/org/example/WeatherService.java:64-108 | An unknown province or city fails with no request and leaves the cache unchanged. Otherwise the county lookup runs first. Its failure is returned with no weather request. On success the retrying fetch of the weather request for the three codes decides the result. In all, at most four requests are made. |
| Service.GetTemperature | TestWeather/src/main/java/org/example/WeatherService.java:49-62 | The limiter advances by exactly one acquire. A denied permit returns empty without running the lookup: no request, and the cache is unchanged. The answer is some t iff the permit is granted and the lookup returns t. Every lookup failure becomes empty. |
| Service.SpentLimiterAnswersNothing | TestWeather/src/main/java/org/example/WeatherService.java:49-61 | Take a limiter that is spent and not yet due for a refill. The call returns empty with no request, whatever the lookup would have given. |
| Service.RepeatedLookup | TestWeather/src/main/java/org/example/WeatherService.java:64-108 | After a successful lookup, the county code it found is in the cache. A later lookup of the same place, whatever the provider answers then, reads that code with no county request and keeps the cache. Its outcome is that of a fresh weather fetch for the same three codes. |
| Service.CallStep | TestWeather/src/main/java/org/example/WeatherService.java:49-62 | One call takes one limiter step and keeps the maps. When granted, it leaves the lookup's cache. It answers iff the permit is granted and its lookup succeeds, and then with that lookup's temperature. |
| Service.ServeFollowsLimiter | TestWeather/src/main/java/org/example/WeatherService.java:49-62 | Over a session, the service's limiter evolves exactly as the limiter run alone, and the maps are unchanged. |
| Service.SessionAnswers | TestWeather/src/main/java/org/example/WeatherService.java:49-62 | Each call of a session has its own provider answers. A call answers iff its permit is granted and its own lookup succeeds, from the cache the call started from. It then answers with that lookup's temperature. |
| Service.SessionCaches | TestWeather/src/main/java/org/example/WeatherService.java:49-62 | Each call starts from the cache its predecessor left: the lookup's cache if that call was granted, otherwise the same cache. The session ends with the cache its last call left. |
| Service.SettledSession | TestWeather/src/main/java/org/example/WeatherService.java:49-108 | Once the place's county code is cached, the cache never changes again. Each call answers iff its permit is granted and its own weather fetch succeeds. |
| Service.AfterFirstLookup | TestWeather/src/main/java/org/example/WeatherService.java:49-108 | Take the cache a successful lookup leaves. If every later call's own lookup from it succeeds, each later call answers iff its permit is granted. |
| Service.AnswersFollowGrants | TestWeather/src/main/java/org/example/WeatherService.java:49-108 | Suppose the first call is granted, its lookup succeeds, and every later call's own lookup succeeds from the cache the first leaves. Then exactly the granted calls answer. |
| Service.RateLimitedSessionTest | TestWeather/src/test/java/org/example/WeatherServiceTest.java:42-76 | A 20-permit service is due for a refill. Thirty calls follow within one second for one place, and each call's own lookup succeeds. This gives 20 answers and 10 empty results. |

## Left out

- The transport (`getResponseFromUrl`, WeatherService.java:110-136) is not modelled. Each request's outcome is given by a `Network` value, and transport and JSON parse failures are both `Unavailable`/`Failed` with an abstract cause.
- The provider is addressed by URL, but `Network` answers by `Request` (the kind of request plus its codes). Two requests whose URLs coincide (codes that concatenate ambiguously) may therefore get different answers in the model. Every property proved holds in particular for URL-consistent answers. `Endpoints.Url` gives the URL of each request.
- The fastjson library (`parseObject`, `getObject`, `getString`, the `(String)` casts) is not modelled. A parsed listing is its sequence of (code, name) entries in iteration order.
- `new Float(temp).intValue()` is not modelled: a weather reading arrives already truncated (`Degrees`), or as the exception the conversion raised (`Malformed`).
- Concurrency is left out: `AtomicInteger`, `synchronized`, `volatile` and `ConcurrentHashMap.computeIfAbsent` blocking. There is one sequential caller. The multi-threaded tests join each thread before starting the next, so they are sequential runs.
- `System.currentTimeMillis` is a parameter.
- The provider's answers are a `Network` value per call of a session (`Call`). Within one call, a request's answer depends only on the request and, for weather, on the attempt number. One call asks for the county listing at most once, so this loses nothing within a call. Across calls the answers may differ freely.
- Java `int`/`long` overflow is left out. This covers `qps * window`, `1000 * window` and the decrementing counter, all of which are unbounded integers in the model.
- Logging (`System.out.println`), `main` (WeatherService.java:237-247), the tests' elapsed-time assertions and the live-network tests are not modelled.
- The `RuntimeException` that `getCountyCode` wraps a population failure in is not modelled. The model's "cannot get county mapping data" error carries the underlying error directly as its cause.
- The branch "province or city not exist" (WeatherService.java:231-233) is not modelled. It cannot be reached: the mapping function never returns null, so `computeIfAbsent` never yields null.
- The `provinceMap != null` test (WeatherService.java:159) is always true and is not modelled.
- `setCityMap` visits `provinceMap.values()` in the hash map's order, which is fixed but unspecified. `Init` picks an arbitrary enumeration of the province codes (`ValuesOrder`), and the start-up lemmas hold for every order. Two names sharing one code would make Java fetch that code twice; the model fetches each code once.
- The partial maps left behind by a failed `init` are not modelled. A failed start-up yields only its error.
- Endpoints.CountyUrl: its shape is stated only for province codes without '{'. A brace in a code could form a new placeholder for the next replace. Real codes are digits.
- Endpoints.WeatherUrl: its shape is stated only for province and city codes without '{', for the same reason.
- Endpoints.Url: the county-list and weather shapes are stated only for codes without '{', as for `CountyUrl` and `WeatherUrl`. A code such as "{city}" would be filled in by the next replace, in the model as in Java.
- Text.Replace: its contract states the untouched-text, self-replacement and length facts. The general left-to-right, non-overlapping replacement is given only by its definition and by the lemmas about occurrences at the front; no single ensures characterises an arbitrary result.
