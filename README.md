# Career assessment: tiered cache and response aggregation, in Dafny

This project models two pieces of the career-assessment application and proves
properties about them.

**The two-tier cache of `src/lib/redis-handler.js`** (module `RedisHandler`).
A remote Redis store is used only while the flag `isRedisAvailable` is set.
Behind it sits an in-process `memoryCache` whose entries are
`{value, expiresAt}`. The module-level state is the class
`RedisHandler.TieredCache`, with the fields `available`, `remote` and `mem`.
Its methods are the connection handlers, `retryStrategy`, `getFromCache`,
`setInCache`, `setInMemoryCache`, `getFromMemoryCache`, `cacheManager.get`
and `cacheManager.set`. The model makes three things explicit:

- The clock is a `now` parameter, in milliseconds.
- A remote transport error is a `remoteFails` parameter of each remote call.
- The `setTimeout` clean-up is its own event method, `FireTimer`.

The same behaviour is also written as functions over a `CacheState` value.
`Step` applies one `Event` and `Run` applies a sequence of them. The methods
that handle a whole event (the handlers, `retryStrategy`, `get`, `set` and the
timers) are tied to `Step`. The helpers `getFromCache`, `setInCache`,
`setInMemoryCache` and `getFromMemoryCache` are tied to the functions `Step`
is built from: `RemoteGet`, `RemoteAfterSet`, `MemPut`, and `MemGet` with
`MemAfterGet`. Most lemmas about the cache state the effect of one `Step`.
`RoundTripWhileUnavailable`, `TimerEndsRoundTrip`, `StaleTimerEvictsLiveEntry`,
`NoConnectNoRemote` and `ConnectedSetReachesRemote` are stated over a whole
`Run`. The Redis server outlives the process, so the module starts from
`Initial(server)`: the flag is false and the memory tier is empty, but the
remote store holds whatever the server already holds.

**Response handling of `src/components/CareerAssessmentCollector.jsx`**
(module `Assessment`). `handleResponse` stores `parseInt(value)` under a
question number. `prepareDataForAnalysis` has two branches:

- Flat answers are grouped by category, with each category's sum and count
  of truthy answers.
- Input that is already grouped is detected and its averages are computed by
  `filter`/`reduce`.

Helper modules:

- `JsParseInt` models JavaScript's `parseInt` without a radix, and the decimal
  rendering of a question number used as an object key.
- `Props` models a plain JavaScript object as its property list in
  enumeration order. `obj[k] = v` replaces the value in place or appends a new
  property. That is JavaScript's order for keys that are not array indices,
  such as category titles. JavaScript lists array-index keys, such as question
  numbers, first and in ascending order. The two orders agree when those keys
  are assigned in ascending order, and the flat branch assigns them that way
  (`Assessment.Ascending`).
- `Wrappers` holds `Option`. `None` stands for `null`, `undefined` or `NaN`.

Points where the code's behaviour is easy to misread, and which the model follows exactly:

- Availability is a boolean, not a three-state signal.
- `cacheManager.set` resolves to nothing. It does not return a success flag.
- The back-off is linear (`times * 50` ms), not exponential. The 2000 ms cap
  can never be reached, because retrying stops after attempt 3.
- A remote reply counts as a hit only when it is a non-empty string. An empty
  string falls through to the memory tier.
- The default time to live is 3600 seconds.

## Model

| member | source | states |
|---|---|---|
| RedisHandler.RetryDelay | src/lib/redis-handler.js:13-19 | null (stop retrying) exactly when `times > 3`; otherwise the delay is `times * 50` ms, which stays below the 2000 ms cap |
| RedisHandler.TieredCache.constructor | src/lib/redis-handler.js:3-4 | at module load the flag is false and the memory tier is empty; the remote store is whatever the server already holds |
| RedisHandler.TieredCache.OnConnect | src/lib/redis-handler.js:24-27 | the connect handler sets the flag and changes nothing else |
| RedisHandler.TieredCache.OnError | src/lib/redis-handler.js:29-32 | the error handler clears the flag and changes nothing else |
| RedisHandler.TieredCache.OnInitFailure | src/lib/redis-handler.js:34-37 | a failed initialisation clears the flag |
| RedisHandler.TieredCache.RetryStrategy | src/lib/redis-handler.js:13-19 | returns the delay of `RetryDelay`; the flag becomes false when `times > 3` and is otherwise unchanged |
| RedisHandler.TieredCache.GetFromCache | src/lib/redis-handler.js:41-50 | null while unavailable or after a transport error; otherwise the remote value, or null for a missing key; reads only |
| RedisHandler.TieredCache.SetInCache | src/lib/redis-handler.js:53-63 | true exactly when available and `setex` succeeds; only then is the remote store updated at `key` |
| RedisHandler.TieredCache.SetInMemoryCache | src/lib/redis-handler.js:69-77 | stores exactly `{value, expiresAt: now + ttl*1000}` under `key`; every other key keeps its entry |
| RedisHandler.TieredCache.GetFromMemoryCache | src/lib/redis-handler.js:79-89 | missing key gives null, map unchanged; `now > expiresAt` deletes the entry and gives null; otherwise the value, map unchanged |
| RedisHandler.TieredCache.Get | src/lib/redis-handler.js:93-102 | the result and new state are `CacheGet` and `Step` of a `Get` event |
| RedisHandler.TieredCache.Set | src/lib/redis-handler.js:104-112 | always stores the memory entry; writes the remote store only when available and the write succeeds; TTL defaults to 3600 s |
| RedisHandler.TieredCache.FireTimer | src/lib/redis-handler.js:74-76 | the clean-up timer deletes the key unconditionally |
| RedisHandler.TieredCache.FireCheckedTimer | src/lib/redis-handler.js:73-76 | corrected clean-up: deletes the key only when `now` is past its current entry's `expiresAt`; a timer firing exactly at `expiresAt` frees nothing, as a read then still returns the value |
| RedisHandler.DefaultTtlRoundTrip | src/lib/redis-handler.js:104-112 | from module load, whatever the server holds, with the remote tier off: a `set` with the default TTL reads back at exactly +3600000 ms and reads null 1 ms later |
| RedisHandler.AvailabilityWriters | src/lib/redis-handler.js:13-36 | only connect (sets), error, init failure and a retry past 3 (clear) write the flag; cache operations and timers never do |
| RedisHandler.UnavailableSkipsRemote | src/lib/redis-handler.js:41-42 | while unavailable, remote reads give null, remote writes fail and leave the store unchanged, and `get` is the memory lookup |
| RedisHandler.TransportFailureAbsorbed | src/lib/redis-handler.js:44-62 | a transport failure gives a null read and a false write, leaves the remote store unchanged, and `get` falls back to memory |
| RedisHandler.SetAlwaysWritesMemory | src/lib/redis-handler.js:104-112 | `set` writes the memory tier whatever the flag or transport; the value is readable up to `expiresAt` |
| RedisHandler.GetPrefersTruthyRemote | src/lib/redis-handler.js:93-102 | `get` returns the remote value exactly when available, no transport error, and the value is a non-empty string; otherwise it is the memory lookup, with its lazy deletion |
| RedisHandler.MemGetExpiry | src/lib/redis-handler.js:79-89 | the memory lookup gives the value up to and including `expiresAt` and null after it; only an expired read changes the map |
| RedisHandler.RoundTripWhileUnavailable | src/lib/redis-handler.js:69-112 | remote off: after `set(k,v,ttl)` at t0 and any events that neither connect, re-set `k` nor fire its timer, `get(k)` at t is `v` iff `t <= t0 + ttl*1000`, else null |
| RedisHandler.TimerEndsRoundTrip | src/lib/redis-handler.js:74-76 | remote off: once the clean-up timer for `k` fires, `get(k)` is null after any further events that neither connect nor set `k` again |
| RedisHandler.AbsentStaysAbsent | src/lib/redis-handler.js:69-112 | with the flag off, along events that neither connect nor set `k`, the flag stays false and an absent `k` stays absent from the memory tier |
| RedisHandler.RoundTripWhileAvailable | src/lib/redis-handler.js:93-112 | remote on and the write succeeds: `get(k)` within the TTL returns `v` whether or not the read fails |
| RedisHandler.StaleRemoteShadowsFreshWrite | src/lib/redis-handler.js:93-112 | after a failed remote write, a successful remote read returns the older remote value, not the memory tier's newer one |
| RedisHandler.StaleTimerEvictsLiveEntry | src/lib/redis-handler.js:69-77 | from module load, whatever the server holds: a timer left over from an earlier `set` deletes a newer entry that is still valid |
| RedisHandler.CheckedTimerInvisible | src/lib/redis-handler.js:73-89 | the corrected timer never changes the result of a later `get` of any key |
| RedisHandler.NoConnectNoRemote | src/lib/redis-handler.js:20-27 | from any state with the flag off (module load among them), along any events without a `connect`: the flag stays false, the remote store is unchanged, and every `get` is the memory lookup |
| RedisHandler.ConnectedSetReachesRemote | src/lib/redis-handler.js:24-27 | from any state, once `connect` has fired, a successful `set` leaves the remote store as before with `k` set to `v`, and a `get` within the TTL returns `v` |
| RedisHandler.CheckedTimerFreesExpired | src/lib/redis-handler.js:73-76 | the corrected timer still removes an expired entry |
| JsParseInt.ParseInt | src/components/CareerAssessmentCollector.jsx:160 | `parseInt` without a radix: skips leading white space, reads an optional sign, switches to base 16 after `0x`, reads the longest run of digits, and gives `NaN` when there is none; the contract states that a number needs something after the white space and has the sign of a leading `-` |
| JsParseInt.ParseIntStopsAtNonDigit | src/components/CareerAssessmentCollector.jsx:160 | reading stops at the first non-digit; `0` followed by `x` or `X` is the one case that switches to base 16 instead |
| JsParseInt.ParseIntHexPrefix | src/components/CareerAssessmentCollector.jsx:160 | after `0x` or `0X` the digits are read in base 16, and `NaN` when there are none |
| JsParseInt.ParseIntOfNatToString | src/components/CareerAssessmentCollector.jsx:160 | `parseInt` gives back `n` from the decimal rendering of `n` |
| JsParseInt.ParseIntOfNegated | src/components/CareerAssessmentCollector.jsx:160 | a leading minus sign negates the number read |
| JsParseInt.ParseIntSkipsSpace | src/components/CareerAssessmentCollector.jsx:160 | leading white space does not change the result |
| JsParseInt.ParseIntWithoutDigits | src/components/CareerAssessmentCollector.jsx:160 | a string with no decimal digit, the empty string included, is `NaN` |
| JsParseInt.NatToStringInjective | src/components/CareerAssessmentCollector.jsx:201-203 | distinct question numbers give distinct object keys |
| Props.PutGet | src/components/CareerAssessmentCollector.jsx:203 | after `obj[k] = v`, reading `k` gives `v` and every other key reads as before |
| Props.PutAllKeys | src/components/CareerAssessmentCollector.jsx:213-215 | an object built by assignments has distinct keys, exactly the keys assigned |
| Props.PutAllOfDistinct | src/components/CareerAssessmentCollector.jsx:213-215 | assigning pairs with distinct keys to an empty object gives those pairs, in order |
| Assessment.HandleResponse | src/components/CareerAssessmentCollector.jsx:157-162 | question `q` maps to `parseInt(value)` afterwards; every other entry and key is unchanged |
| Assessment.HandleResponseOfOption | src/components/CareerAssessmentCollector.jsx:157-162 | option value `"k"` is stored as `k` and is truthy iff `k != 0`; the blank option is stored as `NaN` |
| Assessment.IsTestDataMeaning | src/components/CareerAssessmentCollector.jsx:175-176 | `IsTestData` holds exactly when the first value `Object.values(responses)` lists (a number under the least question number, else the first named property) is an object with an own key `'1'` |
| Assessment.ItemsAreEntries | src/components/CareerAssessmentCollector.jsx:201-206 | with distinct question numbers no assignment of the loop overwrites another, so the items are the entries in loop order |
| Assessment.Stored | src/components/CareerAssessmentCollector.jsx:205 | the stored response is the answer exactly when it is truthy, else null |
| Assessment.CollectCategory | src/components/CareerAssessmentCollector.jsx:197-211 | the inner loop produces the category's items, the sum of its truthy answers and their count |
| Assessment.FlatResponseKeys | src/components/CareerAssessmentCollector.jsx:213 | the flat branch's `responses` has distinct keys, exactly the category titles |
| Assessment.PrepareDataForAnalysis | src/components/CareerAssessmentCollector.jsx:164-220 | result is `Prepare`; test data passes through unchanged; otherwise the output has one `responses` entry per distinct category title |
| Assessment.CategoryItemsShape | src/components/CareerAssessmentCollector.jsx:201-206 | with question numbers ascending, as `Object.entries` lists them: each question in order becomes `number -> {question, response}`; response is the answer if truthy, else null (missing, 0, NaN) |
| Assessment.AnsweredCountIsCardinality | src/components/CareerAssessmentCollector.jsx:198-210 | a category's count is the number of its questions with a truthy answer |
| Assessment.PresentCountIsCardinality | src/components/CareerAssessmentCollector.jsx:184-185 | on the test branch the count is the number of items whose response is not null or undefined, so zeros count |
| Assessment.CountAndSumOfStoredItems | src/components/CareerAssessmentCollector.jsx:183-210 | the flat count and sum equal the test-branch filter/reduce over the items the flat branch stored |
| Assessment.FlatBranchPerTitle | src/components/CareerAssessmentCollector.jsx:196-216 | with distinct titles: entry i is the title and its items; its average is null iff no truthy answer, else sum over count |
| Assessment.TestAverageMeaning | src/components/CareerAssessmentCollector.jsx:183-193 | test-branch average is `"0.00"`, never null, without present responses; otherwise sum over present responses (zeros included) over their number |
| Assessment.ReprepareFlatOutput | src/components/CareerAssessmentCollector.jsx:175-216 | re-preparing grouped flat output gives the same responses; averages agree, with null turned into `"0.00"` |

## Findings

| source | as written | input that shows it | evidently intended | confidence | as-written member | corrected member |
|---|---|---|---|---|---|---|
| src/lib/redis-handler.js:74-76 | each `setInMemoryCache` schedules a timer that deletes the key unconditionally when it fires | `set("k","a",1)` at 0, then `set("k","b",10)` at 500; the first timer fires at 1000 and deletes `"b"`, which is valid until 10500; `get("k")` at 1000 gives null | the clean-up removes only an entry whose own TTL has elapsed, so it is invisible to reads | medium (not executed) | RedisHandler.StaleTimerEvictsLiveEntry | RedisHandler.CheckedTimerInvisible |
| src/lib/redis-handler.js:20 | the client is created with `lazyConnect: true`. Nothing in the file calls `redis.connect()`. Every command is issued only while `isRedisAvailable` is already true (lines 41-42, 53-54, 95, 106) | any run: no command is sent, so under lazy connect no connection starts, the `connect` handler never fires, and the remote tier is neither read nor written | the remote tier is used once Redis is reachable, e.g. by calling `connect()` at initialisation | low (not executed; it depends on how the ioredis client treats lazy connect, which is not part of this model) | RedisHandler.NoConnectNoRemote | RedisHandler.ConnectedSetReachesRemote |

Both timers are in the model: `FireTimer` (as written) and `FireCheckedTimer`
(corrected). The corrected timer applies exactly the expiry test and deletion
of a memory read (`MemAfterGet`), which is why it is invisible to reads. `RoundTripWhileUnavailable` allows any number of corrected timer
events on `k`, but no as-written timer for `k`.

## Left out

- Question order: `Category.questions` is the list `Object.entries(category.questions)` gives, which lists the number keys in ascending order. The order claims about `categoryResponses` (`CategoryItemsShape`) are stated for that order (`Ascending`). For a list in any other order the property list keeps insertion order, which JavaScript would not. The count and sum lemmas need only distinct numbers, because they do not depend on order.
- Remote store expiry: the TTL that `setex` passes is applied by the Redis server, which is not part of this model. The remote store is a map that starts with whatever the server holds and then changes only through this module's writes.
- The ioredis client: connection setup, lazy connect, `maxRetriesPerRequest`, and when ioredis chooses to call the handlers. The handlers and `retryStrategy` are methods that the environment calls in any order.
- Timer scheduling: `FireTimer` may fire at any moment. It is not tied to `ttl * 1000` ms after the `set`. Node's cap on `setTimeout` delays is not modelled either.
- Concurrency: `async`/`await` is treated as one sequential step per operation, so the flag cannot change in the middle of a `get` or `set`.
- Logging: the `console` calls are not modelled.
- Non-string values: cached values are strings, and TTLs and clock readings are integers.
- `metadata`: the timestamp (a clock read) and `completionRate` (floating-point division with `Math.round`) are not modelled.
- Averages as strings: `toFixed(2)` is not modelled. An average is kept as its integer sum and count (`Ratio`).
- Unusual test-data values: JSON `null`, strings and arrays are not modelled. Test items are `{question, response}` with a numeric or absent response. Integer-keyed properties of `responses` are numbers, as `handleResponse` stores them.
- `parseInt` on very long digit strings: JavaScript loses precision there (floating point), while the model's integers are exact.
- `loadTestData`, `analyzeResponses`, `renderDebugInfo` and the JSX rendering: these are UI and network I/O.
- `src/app/api/analyze/route.js` and `src/components/AnalysisVisualization.jsx`: HTTP handling, the text-generation call and chart rendering are not part of this model.
- The embedding fetcher, the content hasher, the similarity detector and the regeneration flow: no file shown here implements them, so they are not part of this model.
