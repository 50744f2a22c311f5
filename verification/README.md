# blobhttp: a verified model

blobhttp issues HTTP requests from SQL. Its core paces them per host, resolves
their configuration from scopes, shapes their results, drives LLM completions and
fetches secrets; a DuckDB adapter turns chunks of rows into batches, and a small
build tool turns SQL files into C++ literals. This project models those parts in
Dafny 4.11 and proves what they are for. `dafny verify dfyconfig.toml` checks it.

Objects whose methods update their fields are classes (limiter, pool, core, batch,
configuration, statistics, caches, map vectors); loops are methods with invariants;
each is proved against a specification function whose properties are lemmas.

| file | content |
|---|---|
| Gcra.dfy, TokenBucket.dfy | the rate limiter as a machine over timestamped steps; its bounds; its refinement to a token bucket |
| RateLimiting.dfy | the limiter class, the loop that takes a token, the exact schedule |
| Recency.dfy, LruPool.dfy | recency order and inclusion on sequences of keys; the pool with its list and index |
| Pacing.dfy, Leasing.dfy, Lookups.dfy, Batch.dfy, Performing.dfy | tokens against departures; which limiter a look-up is given; the core that takes tokens and sends waves; the batch handle and the end-to-end bound |
| Utf8.dfy, Base64.dfy, Envelope.dfy | RFC 3629, RFC 4648, and the pair a response body becomes |
| Hosts.dfy | hosts of URLs, for scopes and for limiters |
| HttpConfigs.dfy, Labels.dfy, Scopes.dfy | merging of configuration objects; hosts by their labels; scope search, independence of entry order |
| Llm.dfy | the completion loop over an oracle of replies |
| FormEncoding.dfy | percent-encoding, and forms and queries that parse back |
| VaultReplies.dfy, Caches.dfy | what the vault is asked and answers; the two lease caches under interleaving, the order of their stores, and their keys |
| RaggedMaps.dfy, Chunks.dfy | map columns over one shared child list; grouping of rows into batches |
| EmbedSql.dfy | comment stripping, whitespace, escaping, and the emitted list |
| Wrappers.dfy, Splitting.dfy, Flattening.dfy | shared vocabulary: options, searching, splitting and joining strings, flattening |

## Where the code and its words differ

The model follows the code.

- `WaitTime` returns the whole backlog, not 0 whenever a request would be allowed
  (include/rate_limiter.hpp:42-48). The two agree just for a burst of at most one
  (`Gcra.WaitIsZeroWhenAdmitted`).
- Performing a batch promises that a configuration error sends nothing
  (src/blobhttp_core.cpp:524-526). It does for what is checked before sending. A
  rate limit that does not parse is noticed only when its wave takes tokens, after
  earlier waves have left: nothing is sent just when it is in the first wave
  (`Performing.WhenNothingIsSent`, `Performing.BatchHandle.Perform`).
- Taking a token is bounded to 51 attempts and then goes ahead without one. For a
  single caller this happens just when the burst is below one
  (`RateLimiting.TakeToken`), and then any number of requests are let through at
  one instant (`RateLimiting.TakeTokens`). Among several callers it takes fifty
  bursts of grants to others (`Gcra.Overtaken`).
- A Retry-After may be negative and then lowers the arrival time. The admission
  bound holds of all histories with throttles by r if and only if r is not
  negative, or the burst is below one (`Gcra.BoundIffBackoffNonNegative`).
- The host of a URL for scopes is cut at the first '/', ':' or '?', behind an '@'
  before the first slash. It is the host of section 3.2 of RFC 3986 for every plain
  host just when no fragment comes right behind it and, where there is no user
  part, no '@' comes before the first slash of what follows the authority
  (`Hosts.HostRightIff`, and `Hosts.HostRightExactly` for the single URL). An IPv6
  literal is never found (`Hosts.LiteralNeverFound`). One URL of each kind:
  `Hosts.FragmentTakenIn`, `Hosts.QueryCaptured`, `Hosts.LiteralCutShort`.
- The key of a URL's limiter is cut by another function, which keeps upper and lower
  case and takes a user's name for the host: two URLs of one host can have two
  limiters (`Hosts.KeyIsHostIff`, `Hosts.SameKeyIff`).
- The registry's comment says that the burst is used only on first creation
  (include/rate_limiter.hpp:185-186). So is the rate: a request is limited to the
  rate its configuration asks for if and only if the look-up that registered its
  limiter asked for that rate (`Batch.Core.RateAsConfiguredIff`). A host keeps that
  limiter between two look-ups if and only if fewer distinct hosts than the registry
  holds were looked up between them (`Batch.Core.SameLimiterIff`). That look-up may
  be the feedback of a request that asked for no limit, and is then for the default
  (`Batch.Core.FeedbackRegisters`).
- An empty scope key is the shortest prefix of every URL: no match by domain is
  chosen beside it, and it is then not applied. The best match by domain is chosen
  if and only if no entry has the empty key
  (`Scopes.EmptyScopeShutsOutSuffixes`, `Scopes.SuffixAppliesIffNoEmptyScope`).
- Entry order can decide between two scopes that share the longest matching host,
  and only then (`Scopes.OrderIndependence`).
- The fetch of a cached value is outside the lock, so an older reply can replace a
  newer one and be served after it (`Caches.OlderReplyCanWin`). This is possible
  from every state in which two threads are out for one key
  (`Caches.CrowdedCanReverse`) and impossible while there are none
  (`Caches.SingleFlightKeepsOrder`), which can be told before a fetch: at a miss,
  order is bound to be kept, as long as nobody else goes out, if and only if nobody
  is out for the key (`Caches.OrderBoundIffNobodyOut`).

## Model

| member | source | states |
|---|---|---|
| Gcra.MakeLimits | include/rate_limiter.hpp:21-24 | the derived fields satisfy interval * rate = 1, and the window covers one request just when the burst is at least one |
| Gcra.AdmissionBound | include/rate_limiter.hpp:28-40 | for every interleaving of limiter steps, n successive grants span at least (n - burst) intervals |
| Gcra.BackoffBarrier | include/rate_limiter.hpp:64-71 | after a throttle by r at t nothing is granted before t + r - (burst - 1) intervals, whatever happens between |
| Gcra.TatAhead | include/rate_limiter.hpp:37-38 | the arrival time runs ahead of grant i by one interval for every grant from i on |
| Gcra.TatNeverFalls | include/rate_limiter.hpp:66-70 | no step with non-negative backoffs ever lowers the arrival time |
| Gcra.GrantsBehindBackoff | include/rate_limiter.hpp:64-71 | every grant that is not among those before a throttle comes at or after t + r - (burst - 1) intervals |
| Gcra.RefusedAgain | src/blobhttp_core.cpp:343-350 | a caller refused again after waiting as told was overtaken by at least floor(burst) grants in between |
| Gcra.Overtaken | src/blobhttp_core.cpp:340-350 | for any interleaving of callers, one refused n + 1 times was overtaken by n * floor(burst) grants; so one that goes ahead without a token by fifty bursts |
| Gcra.GrantsInOrder | include/rate_limiter.hpp:29-39 | under a clock that never goes back, grants are ordered and lie between creation and the last step |
| Gcra.NegativeBackoffBreaksTheBound | src/blobhttp_core.cpp:363-373 | at any admission, a throttle of minus one interval admits a second request at the same instant |
| Gcra.BurstAtOnce | include/rate_limiter.hpp:28-40 | up to a whole burst is granted at one instant, each grant one interval of arrival time |
| Gcra.TooSoon | src/blobhttp_core.cpp:363-373 | for every negative backoff, however small, a history with a grant before the bound allows it |
| Gcra.BoundIffBackoffNonNegative | src/blobhttp_core.cpp:363-373 | every history with throttles by r meets the admission bound if and only if r is not negative or the burst is below one |
| Gcra.WaitIsZeroWhenAdmitted | include/rate_limiter.hpp:42-48 | the documented 0 whenever a request would be allowed holds if and only if the burst is at most one |
| TokenBucket.StepCommutes | include/rate_limiter.hpp:28-40 | one limiter step is one step of a bucket that refills at the rate, caps at burst, and pays 1 or r / interval; both admit or both refuse |
| TokenBucket.LimiterRefinesBucket | include/rate_limiter.hpp:28-71 | every run of acquire and throttle, from any state, is simulated by the bucket with the same grants at the same times, debt included |
| TokenBucket.NewLimiterIsFullBucket | include/rate_limiter.hpp:21-24 | a new limiter is the bucket that starts full |
| RateLimiting.GCRARateLimiter.constructor | include/rate_limiter.hpp:21-24 | a new limiter has no history, zero counters, and its arrival time is now |
| RateLimiting.GCRARateLimiter.TryAcquire | include/rate_limiter.hpp:28-40 | appends exactly one step to the history; the answer is whether that step is a grant |
| RateLimiting.GCRARateLimiter.WaitTime | include/rate_limiter.hpp:44-48 | the whole backlog, never negative |
| RateLimiting.GCRARateLimiter.RecordThrottle | include/rate_limiter.hpp:64-71 | appends exactly one throttle step and counts it |
| RateLimiting.GCRARateLimiter.RecordResponse | include/rate_limiter.hpp:75-88 | updates the response facts and nothing else |
| RateLimiting.FactsSummarise | include/rate_limiter.hpp:75-88 | after any responses the minimum and maximum are attained bounds and the errors are the responses outside 200..299; bytes and time are the sums over the responses |
| RateLimiting.AcquireRateLimit | src/blobhttp_core.cpp:338-353 | no limiter: nothing happens; else the effect of taking a token, with counts and waiting accounted |
| RateLimiting.TakeToken | src/blobhttp_core.cpp:340-352 | with burst at least one exactly one token, taken at return, after at most two attempts; below one, none after 51; accounted wait never exceeds time passed; on an exact clock the whole new state |
| RateLimiting.TakeTokens | src/blobhttp_core.cpp:548-554 | n calls on one limiter follow the closed form of the schedule, call by call; below a burst of one all of them return at one instant, however many |
| RateLimiting.TakeScheduledTokens | src/blobhttp_core.cpp:338-353 | the exact schedule as a statement about the limiter and the clock themselves |
| RateLimiting.ExactSchedule | src/blobhttp_core.cpp:338-353 | back-to-back calls on an idle limiter with whole burst B: call k*B+j is admitted at t0 + k*B intervals, after k paced calls that waited exactly that long |
| RateLimiting.SecondBurstPacedOnce | README.md:577 | more than one burst and at most two are paced once, for one burst window, as in the documented run |
| Recency.MostRecentDistinct | include/lru_pool.hpp:28-49 | the reference order repeats no key |
| Recency.MostRecentMembers | include/lru_pool.hpp:28-49 | the reference order holds exactly the keys accessed |
| Recency.MostRecentByLastAccess | include/lru_pool.hpp:33-34 | the reference order is by last access, latest first |
| Recency.OrderIsMostRecent | include/lru_pool.hpp:28-62 | after any trace the pool order is the first max_size of the distinct keys by last successful access |
| Recency.NestedStep | include/lru_pool.hpp:28-62 | one access keeps a smaller pool's order a subsequence of a larger one's |
| Recency.Inclusion | include/lru_pool.hpp:28-62 | on any trace, a key held by the smaller pool is held by the larger |
| LruPool.LRUPool.GetOrCreate | include/lru_pool.hpp:28-49 | the key moves or comes to the front, the last is evicted only on a miss at capacity, a hit keeps its value and does not call the factory; list and index stay consistent |
| LruPool.LRUPool.Get | include/lru_pool.hpp:52-62 | a hit moves to the front and yields its value, a miss changes nothing |
| LruPool.LRUPool.Size | include/lru_pool.hpp:65-68 | as many as the index has keys, at most max_size: the number of distinct keys successfully accessed, up to that |
| LruPool.PoolIsMostRecent | include/lru_pool.hpp:28-62 | a pool's keys are the max_size most recent of its own access history, and its index maps exactly those |
| Pacing.TokenTaken | src/blobhttp_core.cpp:548-554 | taking one more token keeps departures well paced and tokens held in order |
| Pacing.FireKeepsPace | src/blobhttp_core.cpp:556-560 | sending everything held, at most m requests, keeps departures well paced |
| Pacing.TokensBetween | src/blobhttp_core.cpp:545-560 | beyond the first m, requests that left close together needed tokens taken as close together |
| Pacing.SpanBound | src/blobhttp_core.cpp:545-560 | the number of requests between two departures is at most m + burst + rate * span |
| Pacing.FiringBound | src/blobhttp_core.cpp:545-560 | in any window of length w at most m + burst + rate * w requests leave under one limiter |
| Batch.Core.GlobalLimiter | src/blobhttp_core.cpp:80-88 | none for an empty spec, an error for one that does not parse, else the limiter of everything, at the spec's rate: the one there is for that spec, or a new one at the burst asked for; all core invariants kept |
| Batch.Core.HostLimiter | include/rate_limiter.hpp:188-198 | none when the rate is not positive, an error when the spec does not parse, else the registered limiter of that host, or a new one at the rate and burst asked for; the look-up is an access of the registry, noted with the limiter it was given |
| Batch.Core.Register | include/rate_limiter.hpp:195-197 | a look-up that limits: the registry's own access, hit or miss, so that the registry has seen the look-ups and nothing else |
| Batch.Core.RegisteredHosts | include/lru_pool.hpp:28-49 | in every reachable core, the registered hosts, in order, are the first max_size of all hosts looked up, by last look-up |
| Batch.Core.SameLimiterIff | include/rate_limiter.hpp:183-198 | in every reachable core, two successive look-ups of a host were given one limiter if and only if fewer distinct hosts than max_size were looked up between them |
| Lookups.PlaceIsSince | include/lru_pool.hpp:28-49 | a host's place in the recency order is the number of distinct hosts looked up since it was |
| Lookups.RecentIffFewSince | include/lru_pool.hpp:28-49 | a host is among the first so many if and only if fewer distinct hosts were looked up since |
| Lookups.LookedUpNext | include/rate_limiter.hpp:188-198 | one more look-up keeps: every look-up was given the limiter of its host's last one while that host was recent, and otherwise one never given before |
| Batch.Core.LimitsAsAsked | include/rate_limiter.hpp:183-198 | in every reachable core, a host's limiter has the rate and burst that the look-up which registered it asked for; 20 a second where that named no rate |
| Batch.Core.SpecsMean | include/rate_limiter.hpp:188-194 | what a request's two specs ask for: an empty global one no limit, an empty one of its own 20 a second; each other one is parsed as it is |
| Batch.Core.RateAsConfiguredIff | include/rate_limiter.hpp:183-198 | a request is limited to its own configured rate if and only if that look-up asked for that rate |
| Batch.Core.FeedbackRegisters | src/blobhttp_core.cpp:357-359 | feedback for a host not yet registered fixes its limiter at the default, whatever the next request asks for |
| Batch.Core.Acquire | src/blobhttp_core.cpp:338-353 | the taken token is added to those held of this limiter and of no other |
| Batch.Core.TakeGlobal | src/blobhttp_core.cpp:549-550 | the global token, of a limiter at the rate the request's configuration asks for, or none if it asks for none; a new limiter has its global burst |
| Batch.Core.TakeHost | src/blobhttp_core.cpp:551-553 | the host's token, behind all feedback given to its limiter so far; no token just when the request looks up no limiter; the look-up is for the request's own spec and burst |
| Batch.Core.Take | src/blobhttp_core.cpp:548-554 | a request gets its global token, then its host token; it fails just when a spec does not parse; which look-ups it made, and that the limiter given is the one it holds a token of |
| Batch.Core.TakeAll | src/blobhttp_core.cpp:548-554 | a wave gets all its tokens before any leaves, or stops at its first spec that does not parse |
| Batch.Core.Send | src/blobhttp_core.cpp:556-560 | a leased wave leaves together; reply i answers request i; every limiter stays well paced |
| Batch.Core.Feed | src/blobhttp_core.cpp:361-373 | the limiter records the response and, on 429 only, one throttle: by the seconds of Retry-After, or one second where it is missing or no number; noted with its place in the limiter's history and among the departures |
| Batch.Core.FeedHost | src/blobhttp_core.cpp:357-373 | that, for the host's limiter, registered if need be; no other limiter changes |
| Batch.Core.RecordResponseStats | src/blobhttp_core.cpp:357-378 | that, for a limiter made by this call too; and the global limiter records the response and is not throttled |
| Batch.Core.MoreInFlight | src/blobhttp_core.cpp:545-567 | a core in good order for m requests in flight is so for any larger number |
| Leasing.LoyalRegistered | include/rate_limiter.hpp:188-198 | a lookup keeps, for every registered limiter, that from its host's first request under it on it has all of them, evictions and new limiters included |
| Performing.BatchHandle.Add | src/blobhttp_core.cpp:486-515 | appends the request just when it has a method and a URL; a refused one leaves the batch as it was |
| Performing.BatchHandle.Perform | src/blobhttp_core.cpp:517-573 | succeeds just when everything builds and parses; requests go out once each, in order, in waves of the configured concurrency; result i answers request i; every response is fed to its host's limiter, in order; on failure exactly which were sent |
| Performing.BatchHandle.SendWaves | src/blobhttp_core.cpp:545-568 | the waves of a batch whose sessions are built, up to the first with a spec that does not parse |
| Performing.BatchHandle.PerformWave | src/blobhttp_core.cpp:545-567 | one wave is wholly sent, filed and fed back, or nothing of it is and its bad spec is named |
| Performing.BatchHandle.FileResults | src/blobhttp_core.cpp:562-566 | responses are filed under their requests, earlier results untouched, and each is fed to its host's limiter after the whole wave has left |
| Performing.WhenNothingIsSent | src/blobhttp_core.cpp:524-526 | a batch failing on a rate limit has sent nothing if and only if a bad spec is in its first wave |
| Performing.LeavingIsWindow | src/blobhttp_core.cpp:545-560 | the requests leaving under a limiter in a window are the shots of that limiter in it |
| Performing.EndToEnd | src/blobhttp_core.cpp:545-560 | after any run of batches, at most m + burst + rate * w requests left under any limiter in any window of length w |
| Performing.GlobalEndToEnd | src/blobhttp_core.cpp:545-560 | for the global limiter, in the rate its spec asks for |
| Performing.HostEndToEnd | src/blobhttp_core.cpp:545-560 | with servers that ask for no negative backoff, the same for all limited requests to a registered host, from the first that left under its registered limiter on, and so in every window after that, whatever limiters it had before; in the rate and burst that the look-up which registered it asked for |
| Performing.ConfiguredEndToEnd | src/blobhttp_core.cpp:545-560 | and in the host's configured rate and burst, if all look-ups since, feedback included, asked for them |
| Performing.BackoffEndToEnd | src/blobhttp_core.cpp:357-373 | once a 429 was fed to a limiter at t with a Retry-After of r seconds, or none (r = 1), every later departure with that limiter is at or after t + r - (burst - 1) intervals |
| Performing.HostBackoff | src/blobhttp_core.cpp:357-373 | so for every later limited request to a host that keeps that limiter |
| Performing.WholeWave | src/blobhttp_core.cpp:556-560 | a wave of n requests to one limited host leaves at one instant, whatever the burst: the bound must add the number in flight |
| Utf8.HeadIsEncoded | src/blobhttp_core.cpp:389-411 | what the validator reads off the front is the section 3 encoding of the scalar it read |
| Utf8.EncodedIsHead | src/blobhttp_core.cpp:389-411 | and every encoding of a scalar is read as that scalar |
| Utf8.DecodeThenEncode | src/blobhttp_core.cpp:386-415 | encoding the scalars of a valid string gives the string back |
| Utf8.EncodeThenDecode | src/blobhttp_core.cpp:386-415 | encoded scalars are valid and decode to themselves |
| Utf8.ValidIffEncodesScalars | src/blobhttp_core.cpp:386-415 | valid if and only if it is a concatenation of encodings of scalar values |
| Utf8.EncodingIsUnique | src/blobhttp_core.cpp:386-415 | and of one sequence only |
| Utf8.IsValidUtf8 | src/blobhttp_core.cpp:386-415 | true if and only if the octets encode some scalar values: no overlongs, surrogates, truncation, nor F5..FF |
| Utf8.ReadTail | src/blobhttp_core.cpp:399-403 | succeeds just when all the following octets are continuations, with their bits gathered |
| Base64.TableIsStandard | src/blobhttp_core.cpp:418 | the alphabet is that of RFC 4648, position by position |
| Base64.EncodeThenDecode | src/blobhttp_core.cpp:417-442 | a strict decoder recovers every octet string |
| Base64.EncodedShape | src/blobhttp_core.cpp:417-442 | length 4 * ceil(n / 3), padding by n mod 3 and only at the end, alphabet elsewhere |
| Base64.DecodeThenEncode | src/blobhttp_core.cpp:417-442 | what the strict decoder accepts is what the encoder writes |
| Base64.DecodeIffEncoded | src/blobhttp_core.cpp:417-442 | a text decodes to some octets if and only if it is their encoding |
| Base64.Base64Encode | src/blobhttp_core.cpp:417-442 | the in-place loop with its one or two odd octets computes the encoding the lemmas above are about |
| Envelope.Lossless | src/blobhttp_core.cpp:693-698 | decoding the (body, encoding) pair recovers the exact bytes of every body, and the text is legal JSON |
| Envelope.Injective | src/blobhttp_core.cpp:693-698 | different bodies give different pairs |
| Envelope.RenderBody | src/blobhttp_core.cpp:693-698 | the branch yields that pair |
| HttpConfigs.BuiltIn | include/http_config.hpp:36-75 | the hard-coded value of every field |
| HttpConfigs.MergedField | include/http_config.hpp:78-155 | field by field: the object's value when present and of the right kind, else unchanged; concurrency at least one |
| HttpConfigs.HttpConfig.MergeFrom | include/http_config.hpp:78-155 | the 25 updates in place compute that merge |
| HttpConfigs.SendingByKey | include/http_config.hpp:79-102 | merging, key by key: rate, burst, timeout, verification, proxy and certificates are what stands under their keys, if of the right kind, else as they were |
| HttpConfigs.AccessByKey | include/http_config.hpp:103-121 | likewise authorization, concurrency (one where less) and the global limit |
| HttpConfigs.VaultByKey | include/http_config.hpp:122-139 | likewise where secrets come from |
| HttpConfigs.LoginByKey | include/http_config.hpp:140-154 | likewise how the vault is logged in to |
| HttpConfigs.MergeLayers | include/http_config.hpp:78-155 | merging one object and then another is merging the one laid over the other, value by useful value |
| Hosts.HostOfUrl | include/http_config.hpp:15-31 | the host found in any URL of an authority by RFC 3986 and a path, query or fragment |
| Hosts.HostRightExactly | include/http_config.hpp:15-31 | for every such URL, exactly when that is its host |
| Hosts.LiteralNeverFound | include/http_config.hpp:25-28 | a bracketed literal with a colon is never found |
| Hosts.HostRightIff | include/http_config.hpp:15-31 | every plain host between a user part and a port is found if and only if no fragment comes right behind it and, without a user part, no '@' before the first slash of the tail |
| Hosts.HostBehindUser | include/http_config.hpp:19-24 | behind a user part a plain host is found if and only if no fragment comes right behind it |
| Hosts.FragmentTakenIn | include/http_config.hpp:25-28 | http://a.b#c yields a.b#c |
| Hosts.LiteralCutShort | include/http_config.hpp:25-28 | http://[::1]/x yields [ |
| Hosts.QueryCaptured | include/http_config.hpp:19-24 | http://a.b?x=c@d.e yields d.e |
| Hosts.KeyOfUrl | src/blobhttp_core.cpp:161-168 | the limiter's key of any such URL: the text of user and host up to the first colon |
| Hosts.KeyIsHostIff | src/blobhttp_core.cpp:161-168 | it is the plain host if and only if there is no user part, or its name is the host again |
| Hosts.SameKeyIff | src/blobhttp_core.cpp:161-168 | two URLs without user parts share a limiter's key if and only if their hosts are spelled alike, case included |
| Hosts.LowerIs | include/http_config.hpp:27-29 | A to Z become a to z, one for one, and nothing else changes |
| Labels.MatchIffLastLabels | include/http_config.hpp:204-208 | a scope's host matches if and only if its labels are the last labels of the URL's host |
| Labels.LongerIffMoreLabels | include/http_config.hpp:209 | of two hosts that match one URL, the longer has more labels |
| Scopes.ChosenIffByLabels | include/http_config.hpp:186-215 | the choice by string comparison is the choice by labels: the longest scope that is a prefix, else the one with most labels among those whose labels are the last of the URL's host; none if there is none |
| Scopes.ChoiceUnique | include/http_config.hpp:186-215 | at most one entry meets the declarative choice |
| Scopes.Search | include/http_config.hpp:183-215 | the one-pass loop finds it: the longest prefix if any, else the host with most labels that are the last of the URL's host, the first of equals |
| Scopes.ResolveConfig | include/http_config.hpp:166-227 | the configuration is built-in, then first default entry, then the choice by prefix or labels |
| Scopes.ResolvedField | include/http_config.hpp:161-165 | each field is the chosen scope's, else default's, else built in |
| Scopes.EmptyScopeShutsOutSuffixes | include/http_config.hpp:191-198 | beside an empty scope only a prefix is ever chosen |
| Scopes.SuffixAppliesIffNoEmptyScope | include/http_config.hpp:186-224 | where no other scope is a prefix, the best match by domain is chosen if and only if no scope is empty; otherwise nothing is applied |
| Scopes.OrderDoesNotMatter | include/http_config.hpp:186-215 | permuted entries with distinct scopes choose the same entry, absent two scopes with the best host |
| Scopes.ResolutionIgnoresOrder | include/http_config.hpp:166-227 | and resolve to the same configuration |
| Scopes.OrderMattersWhenAmbiguous | include/http_config.hpp:209-212 | of two scopes sharing the best host, either can be chosen by putting it first |
| Scopes.OrderIndependence | include/http_config.hpp:186-215 | the choice is independent of order if and only if the best match is not shared |
| Llm.LlmStats.AccumulateUsage | src/blobhttp_llm.cpp:40-53 | one answer more in the totals: tokens and time added, the model replaced when named |
| Llm.DoComplete | src/blobhttp_llm.cpp:201-222 | the attempt is exactly what its replies make of it; content is the concatenation up to the first reply not cut on length; the requests it made |
| Llm.RunAttempts | src/blobhttp_llm.cpp:224-274 | the run is a sequence of such attempts; every request it made; how it ended; counters and usage totals |
| Llm.LlmCompleteLoop | src/blobhttp_llm.cpp:170-275 | all of that; with a schema every request forces its tool, and one that does not compile sends nothing; on success requests = continuations + retries + 1, retries below the limit, the text accepted, the finish reason that of the last reply; requests within both limits however it ends |
| Llm.AssistantTurnsGrow | src/blobhttp_llm.cpp:215 | each assistant continuation turn is a prefix of the next |
| Llm.CorrectionsAre | src/blobhttp_llm.cpp:248-269 | attempt r's correction pair is its own text and what was wrong with it: the validation errors, up to 2000 characters, or why it is no JSON |
| Llm.Transcript | src/blobhttp_llm.cpp:201-270 | the request at attempt r, continuation k is the original messages, r correction pairs, k continuation pairs of that attempt only |
| Llm.PostsBounded | src/blobhttp_llm.cpp:203-232 | requests are at most attempts times the continuation limit, failing runs included |
| Llm.Accounting | src/blobhttp_llm.cpp:203-275 | however a call ends, its requests are within the two limits, and a success under a schema is an accepted text reached before the last retry |
| FormEncoding.EncodeThenDecode | src/blobhttp_oidc.cpp:45-59 | percent-decoding undoes encoding of every byte string |
| FormEncoding.UnreservedIff | src/blobhttp_oidc.cpp:45-59 | what is not encoded is exactly the unreserved set of section 2.3 of RFC 3986 |
| FormEncoding.EncodedIsFree | src/blobhttp_oidc.cpp:45-59 | encoded text has no '&' and no '=' |
| FormEncoding.UrlEncode | src/blobhttp_oidc.cpp:45-59 | the loop computes that encoding |
| FormEncoding.FormParses | src/blobhttp_oidc.cpp:169-172 | a form splits and decodes back to exactly its fields |
| FormEncoding.TokenBody | src/blobhttp_oidc.cpp:166-172 | the token request body parses to the fields of section 4.1.3 of RFC 6749, with the secret just when there is one |
| FormEncoding.AuthorizationUrl | src/blobhttp_oidc.cpp:127-132 | the query parses to the fields of section 4.1.1 of RFC 6749 |
| Caches.InvariantHolds | include/http_config.hpp:252-322 | in every interleaving every entry is the last store of its key, and every answer so far was fresh |
| Caches.ServedIsFresh | include/http_config.hpp:256-266 | an answer from the cache is the last store of an equal key, younger than its lifetime |
| Caches.SecretIsFresh | include/http_config.hpp:254-266 | a secret served was stored for an equal key less than five minutes before |
| Caches.TokenIsFresh | src/blobhttp_oidc.cpp:243-299 | a token served has at least min(60, lease / 2) seconds of its lease left, from the store |
| Caches.SingleFlightKeepsOrder | include/http_config.hpp:252-322 | if at no time two threads are out for a key, its replies are stored in the order in which they came |
| Caches.SingleFlightGate | include/http_config.hpp:256-266 | a run stays single flight if and only if nobody goes out for the key while someone is |
| Caches.CrowdedCanReverse | include/http_config.hpp:268-322 | from any state with two threads out for a key, some continuation stores the older reply over the newer one, and serves it if its lifetime is positive |
| Caches.OrderBoundIffNobodyOut | include/http_config.hpp:256-322 | at a miss of a run single flight so far, every continuation that sends nobody else out keeps the order if and only if nobody was out for the key |
| Caches.OlderReplyCanWin | include/http_config.hpp:268-322 | the shortest run of two fetches whose older reply is stored last and served |
| Caches.SplitKey | include/http_config.hpp:250 | without bars, splitting a key gives its components back |
| Caches.KeyInjective | include/http_config.hpp:250 | keys of components without bars determine the components |
| Caches.KeyUniqueIff | src/blobhttp_oidc.cpp:238-239 | a key is that of one component list only if and only if no component has a bar |
| Caches.LivesIffYounger | src/blobhttp_oidc.cpp:243-299 | a token is served at an age if and only if more than a minute of its lease is left, or, of a lease up to two minutes, less than half has passed |
| VaultReplies.SecretOfIff | include/http_config.hpp:296-316 | a secret is taken out of an answer if and only if it is a 200 and has the text under data.data for the second engine version, under data for any other |
| VaultReplies.TokenOfIff | src/blobhttp_oidc.cpp:286-293 | a login's answer grants a token if and only if it is a 200 with a text, not empty, under auth; the lease beside it, or an hour |
| VaultReplies.GrantedIff | src/blobhttp_oidc.cpp:250-293 | logging in grants a token if and only if the configuration is complete, the sign-on yields something, and the answer to it grants it |
| VaultReplies.SecretUrlPlain | include/http_config.hpp:268-288 | with any other engine version, or no slash in the path, the path is asked for as it is |
| VaultReplies.SecretUrlOfMount | include/http_config.hpp:268-288 | with the second engine version, the data segment comes right behind the mount |
| VaultReplies.SameUrlIff | include/http_config.hpp:249-288 | calls of one key but different engine versions read one URL if and only if both or neither are for the second version, or the path has no slash |
| Caches.LeaseCache.Check | include/http_config.hpp:256-266 | one step of the run: the answer is the entry while young enough, else the thread is out |
| Caches.LeaseCache.Put | include/http_config.hpp:318-322 | one step of the run: the entry is stored, the thread back |
| Caches.CachedFetch | include/http_config.hpp:252-324 | a call nobody interferes with is the run Check, then Receive and Put, or Fail; the cached value, else the reply, which is then stored |
| Caches.FetchVaultSecret | include/http_config.hpp:244-325 | a hit is the entry of the key while younger than five minutes; a miss yields s if and only if the answer at the URL is a 200 with s as text under data.data, or data for another engine version than the second, and stores exactly that; otherwise nothing changes |
| Caches.VaultTokenFromJwt | src/blobhttp_oidc.cpp:237-302 | the same for tokens, granted with their lease by the login's answer; a hit is exactly an entry with its minute or half its lease left; incomplete configuration is noticed only on a miss |
| RaggedMaps.MaskExact | duckdb_ext/src/bhttp_functions.cpp:28 | the bit test addresses one row and no other |
| RaggedMaps.RangesPartition | duckdb_ext/src/bhttp_functions.cpp:249-269 | the rows' ranges tile the child list in row order; every position lies in exactly one |
| RaggedMaps.MapVector.WriteMapEntry | duckdb_ext/src/bhttp_functions.cpp:60-76 | writes one range and its pairs, within the reserve, and nothing before or after |
| RaggedMaps.TotalSize | duckdb_ext/src/bhttp_functions.cpp:252-256 | the sum of the sizes is the length of all rows end to end |
| RaggedMaps.WriteHeaders | duckdb_ext/src/bhttp_functions.cpp:249-269 | both columns are written completely, each with its own running offset, after room was made for its total |
| RaggedMaps.MapVector.ReadMapVector | duckdb_ext/src/bhttp_functions.cpp:25-52 | the pairs of the row's range; nothing for NULL |
| RaggedMaps.MapVector.RowsReadBack | duckdb_ext/src/bhttp_functions.cpp:25-76 | reading row r of a written column gives exactly row r |
| Chunks.FindGroup | duckdb_ext/src/bhttp_functions.cpp:194-199 | the group is the maximal run of rows of equal configuration text |
| Chunks.StartOfGroup | duckdb_ext/src/bhttp_functions.cpp:187-199 | every row of a group has that group's first row as its start |
| Chunks.PerformGroup | duckdb_ext/src/bhttp_functions.cpp:201-235 | succeeds just when every row is good; otherwise which error; something is sent if and only if the rows prepare, build, and the first wave's limits parse |
| Chunks.CoveredNext | duckdb_ext/src/bhttp_functions.cpp:192-247 | a group's waves extend the cover of the rows: each row once, in order, no wave across groups |
| Chunks.SendGroups | duckdb_ext/src/bhttp_functions.cpp:192-247 | groups go in order up to the first that fails; earlier groups' results are in place, later rows untouched; exactly which requests left |
| Chunks.RawRequest | duckdb_ext/src/bhttp_functions.cpp:163-270 | batching is invisible: row r holds the network's answer to request first + r, made of the texts of the seven columns at row r, empty where NULL, under the row's own configuration, `{}` where that is empty; its maps read back as that answer's headers |
| Chunks.GoodIff | duckdb_ext/src/bhttp_functions.cpp:201-235 | nothing stands in the way of a row if and only if it has a method and a URL, and its request under its own configuration builds and has specs that parse |
| EmbedSql.StripsEachLine | tools/embed_sql.zig:30-40 | stripping cuts every line at its first pair of dashes and does no more |
| EmbedSql.NoDashesLeft | tools/embed_sql.zig:30-40 | no pair of dashes is left or newly formed |
| EmbedSql.StripFixed | tools/embed_sql.zig:30-40 | stripping leaves a text alone if and only if it has no pair of dashes; idempotent |
| EmbedSql.StripComments | tools/embed_sql.zig:30-40 | the index-driven loop computes that function |
| EmbedSql.NormalizeKeepsWords | tools/embed_sql.zig:44-66 | words, and which of them share a line, are kept |
| EmbedSql.NormalizeKeeps | tools/embed_sql.zig:44-66 | every character but space, tab, CR and LF is kept, in order |
| EmbedSql.NormalizeFixed | tools/embed_sql.zig:44-66 | the results are exactly the normal texts, which normalizing leaves alone; idempotent |
| EmbedSql.NormalizeText | tools/embed_sql.zig:44-66 | the loop computes that function |
| EmbedSql.EscapeThenRead | tools/embed_sql.zig:68-75 | a reader of literals recovers every text and stops at the closing quote, never before |
| EmbedSql.ReadThenEscape | tools/embed_sql.zig:68-75 | whatever that reader accepts is what escaping writes |
| EmbedSql.AppendEscaped | tools/embed_sql.zig:68-75 | appends the escaped text |
| EmbedSql.StatementsAreTheCode | tools/embed_sql.zig:116-130 | each statement is not empty, normal, without comment or semicolon; together they hold all the code in order |
| EmbedSql.StatementsOfParts | tools/embed_sql.zig:124-128 | parts without semicolons, joined by semicolons, are the file's statements, but for the blank ones |
| EmbedSql.ListText | tools/embed_sql.zig:120-135 | the text of a declared list: its declaration, then indented literals, a comma and a line end between them |
| EmbedSql.EmitThenRead | tools/embed_sql.zig:119-135 | an emitted list reads back as its statements and ends where it was closed, whatever follows |
| EmbedSql.EmbedFile | tools/embed_sql.zig:116-135 | the loop emits the list of the file's statements |
| EmbedSql.HeaderReads | tools/embed_sql.zig:94-142 | a header reads back as its constants, names and statements, if no name has a space |
| EmbedSql.EmbedAll | tools/embed_sql.zig:94-144 | the header written for the inputs reads back as one list per input, in order, under its name |

## Left out

- libcurl, TLS, proxies and connection sharing: a wave is an oracle that answers each request.
- IEEE doubles and clock ticks: time and rates are reals; rounding is not modelled. Counters do not wrap at 64 bits, nor do casts of numbers in configuration objects overflow.
- Locks: each limiter method is one step. Batches of one core run one after the other; the admission bound, the refinement and the caches cover any interleaving.
- Batch.Core.GlobalLimiter: requires a positive rate. The code makes a global limiter of rate zero without the check the host limiter has; its interval is then infinite, and casting it to clock ticks is undefined.
- Batch.Core.Take: the same, for the request's global limit.
- Batch.Core.TakeAll: the same, for every request of the wave.
- Performing.BatchHandle.Perform: the same, for every request of the batch; and the batch is performed once.
- Performing.HostEndToEnd: is per key of the registry (Hosts.SameKeyIff) and counts requests that took a token of their host; one whose own configuration disables limiting bypasses the limiter its host has.
- Performing.EndToEnd: needs non-negative backoffs and a burst of at least one, as Gcra.BoundIffBackoffNonNegative and RateLimiting.TakeTokens show it must. m bounds the concurrency of every batch of the run, and by Batch.Core.MoreInFlight any larger m will do.
- Chunks.PerformGroup: the requests of a group are built by a parameter; configurations, headers and parameters that do not parse count as empty, so that a batch is refused for want of memory only, which is not modelled. The first row of a group sets its concurrency, as in the code.
- Chunks.RawRequest: the scalar fields of a result row are one value, and the headers are taken from it by a parameter; DuckDB's vector layout is modelled for map columns and validity masks only.
- ParseRateLimit, including number parsing: a parameter that yields a rate or an error.
- JSON, JSON Schema and JMESPath libraries: objects are maps of typed values, a validation is a three-way verdict. Other exceptions they raise are not modelled.
- Llm.LlmCompleteLoop: its requests' rate limiting is that of the batch and not repeated; the messages array is taken to be there.
- HttpConfigs.HttpConfig.MergeFrom: rate_limit_rps is not a field; no merge writes it.
- Scopes.ResolveConfig: per-call overrides are applied by the caller and not part of this model.
- Caches.VaultTokenFromJwt: the single sign-on exchange that yields the JWT is a parameter, as are the texts of errors.
- SPNEGO, OIDC discovery and the extraction of the code from the redirect.
- LRUPool::ForEach, the diagnostic accessors and the other scalar helpers: easy members only.
- EmbedSql.EmbedAll: how the name is cut out of the path, and writing the file. A string literal that contains a pair of dashes or a semicolon is cut, as the tool's own comment says of dashes. A CR inside a literal is read as itself.
- The SQLite adapter, SQL macros, wheel builders and test servers.
