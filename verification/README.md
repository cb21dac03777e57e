# A model of the fraud-prediction API

The service puts a fraud-prediction vendor behind API keys, bearer tokens and a distributed rate
limit. This project models its stateful core in Dafny and proves what that core is for: the key
cache never changes an answer except for a bounded time under concurrency, the limiter admits what
it says it admits, nobody reaches a handler without a real identity, sign-up behaves like one
atomic step, and the log tells what was sent. The last modules join the parts: in every run of the
service the predictions one user causes at the vendor in a window, over both prediction endpoints,
are bounded by the JWT limit and the rates that were accepted when the user's keys were created.

`dafny verify dfyconfig.toml` checks the whole project.

## Modules

| module | models |
|---|---|
| `Text`, `Sets`, `RedisKeys`, `Redis` | decimal, hex, split and lower-case text; the three families of key names; Redis as a map with expiry, keyed by typed keys and by strings |
| `KeyTable`, `KeyRepo` | the `api_keys` table and its statements; the repository with its two-index cache, one operation at a time, as functions and as the class `Repository` |
| `CacheProtocol`, `TableRuns`, `CacheStaleness`, `SoloCalls` | the same repository as a step protocol: any interleaving, any command failing before or after it took effect; and its agreement with the sequential repository |
| `DeleteRaces`, `DeleteRaceWitness` | exactly when a delete takes effect at once |
| `Arithmetic`, `WindowArithmetic`, `RateLimit`, `RateLimitRuns`, `RateLimitBounds`, `RateLimitExtremes`, `RateLimitUsers`, `RateLimitUserMaximum` | the limiter, its whole runs, its bounds over intervals, delays and users, and the runs that reach them |
| `Identities`, `Float64`, `Cents`, `Auth`, `AuthStacks` | identities, the journey of an int64 through a JSON number, the float64 sum of an amount and 0.01, the middlewares, and the router's stacks |
| `SignUp` | concurrent sign-ups as a step protocol |
| `Predict`, `Models` | the prediction handler with its aliased feature map; the sorted model list |
| `KeyService`, `EndToEnd`, `Service`, `LostLogs` | the rate from the create request to the limiter and the vendor; the whole service in one run; vendor calls that cannot be logged |

## What is assumed

- Generated keys hash to values that were never used before. The index on `key_hash` is not unique
  (`migrations/0001_init.up.sql:25`), so this is a precondition (`Fresh`, `Enabled`,
  `CreateAPIKey`'s `requires`) and not something the table guarantees.
- The cache's `ttl` is positive, and the clock does not run backwards within an operation.
- In `KeyRepo` the database and Redis answer; time may pass before every command. In
  `CacheProtocol` every command may fail: `Lost` before it took effect, `Unheard` after.
- The limiter's results ask for a window of whole seconds. `EnforcesIffWholeSeconds` shows that
  this is exactly the condition: line 48 of `rate_limit.go` truncates, so a counter of any other
  window expires before its window ends. `Truncate`'s alignment is an arbitrary fixed offset.
- Where a result says `Prompt`, the script runs in the window its key names; `LateScriptBound`
  does without it. Visits need not come in the order of their times.
- Token verification accepts exactly the unexpired tokens that the service signed (`Sound`);
  `SoundIsPossible` gives such a scheme. The auth stack is otherwise proved over every state of cache
  and table, stale entries included; a result that needs a coherent cache says so.
- The case folding of CITEXT, the hash function, token signing and parsing, iteration order,
  clocks, delays and faults are parameters.

## Where code and documentation disagree, or surprise

- `README.md:11` of the repository promises a sliding window; `rate_limit.go:45` is a fixed one. The
  promise holds of an interval exactly if the interval lies within one window or the limit admits
  nothing (`SlidingPromiseIff`), and of all intervals of a window's length only for windows of one
  tick (`SlidingWindowIff`). In general an interval admits the limit once per window it meets, and
  some run does admit that (`IntervalBound`, `SlidingMaximum`).
- `/fraud` has no final check, so a request without an API key gets 500 and not 401
  (`FraudWithoutKey`). It never reaches the handler: only requests whose key the repository backs do
  (`FraudGuards`), and short of database errors 401 goes exactly to non-empty keys that are unknown or
  inactive (`FraudStatus`).
- A token is good for a user id exactly if the id is a float64, so not for 2^53 + 1
  (`TokenRoundTrip`, `FirstLoss`).
- A deleted key may go on answering for a full `ttl` after the calls in flight have returned, even
  if no command fails (`BoundedStaleness`, `StalenessBoundReached`). Whatever else may happen, it stops
  at once exactly if, when the delete commits, the row is not in the cache and no call is about to put
  it there. Only on the two premises that no command fails and that no other delete of the key begins
  does a cached row go too: exactly if no call is about to cache it, the reverse entry leads to it, and
  no other delete of the key is under way. `DeleteIsImmediateIff` states all of this; a rival delete may
  be anyone's, since the cache is cleaned whoever asks (`apikey_repo.go:129-133`, `NewRivalIsStale`).
- Every request with an identity is logged, but the table does not take every row: it is stored
  exactly if its body is JSON that JSONB takes (`migrations/0004_add_inference_logs_table.up.sql:6`),
  its texts are free of NUL, and its user and API key still exist
  (`migrations/0005_update_inference_logs_apikey_fk.up.sql:3-5`; `StorableIff`). So never after a 413
  (`TooLargeIsNeverStored`), and never for a deleted key, although such a key can still reach the vendor
  (`LoggedIffKeyRemains`, `UnloggedCallReached`).
- `vendor.go:126` promises an amount with a decimal part. In float64 a whole amount gets one exactly
  from -2^47 up to, but not including, 2^47; beyond, the cent is rounded away (`DecimalIff`).
- `/vendor/ping` calls the vendor behind authentication but without a limiter (`router.go:85-88`), so
  no bound on a user's traffic covers it.
- The limiter enforces its limit exactly for windows of whole seconds (`EnforcesIffWholeSeconds`).

## Model

| member | source | states |
|---|---|---|
| `Text.DecimalRoundTrip` | internal/repo/apikey_repo.go:44-46 | reading `%d` back gives the number, for every integer; the text is digits, with a minus sign before them exactly if the number is negative, and has no colon |
| `Text.HexRoundTrip` | internal/repo/apikey_repo.go:40-42 | decoding a hex text gives the bytes back, for every byte string |
| `Text.HexDigits` | internal/repo/apikey_repo.go:40-42 | each byte is written as two lower-case digits, high one first |
| `Text.LowerMatchesIff` | internal/transport/http/handlers.go:142-143 | a text lower-cases to a given ASCII word if and only if it is that word letter by letter in either case, or with one of the two foreign runes that fold to i and k |
| `Text.SplitOnce` | internal/transport/http/middleware/auth_jwt.go:29-36 | splitting two space-free texts joined by one space gives exactly the two |
| `Text.SplitParts` | internal/transport/http/middleware/auth_jwt.go:29 | the parts of any split are free of the separator and joined by it make the whole |
| `Text.FirstDelimiter` | internal/transport/http/middleware/rate_limit.go:46 | a text determines what stands before and after its first delimiter |
| `Text.LastDelimiter` | internal/transport/http/middleware/rate_limit.go:46 | a text determines what stands before and after its last delimiter, whatever stands before |
| `RedisKeys.HashKeyInjective` | internal/repo/apikey_repo.go:40-42 | forward cache keys are injective in the hash |
| `RedisKeys.Names` | internal/repo/apikey_repo.go:40-46 | the names of the three families in full |
| `RedisKeys.WindowNameInjective` | internal/transport/http/middleware/rate_limit.go:35-46 | counter names are injective in kind, id, endpoint and window start, for every endpoint, even one with colons |
| `RedisKeys.RenderInjective` | internal/transport/http/middleware/rate_limit.go:36-46 | the three families of names are injective and pairwise disjoint |
| `Redis.ExecMirrors` | internal/repo/apikey_repo.go:40-46 | one command on the string-keyed store has the reply and effect of the command on typed keys |
| `Redis.StringStoreRefinesKeyedStore` | internal/transport/http/middleware/rate_limit.go:46-54 | any sequence of commands gets the same replies from the shared string-keyed Redis as from separate key spaces, so cache and limiter never see each other |
| `KeyTable.SelectByHash` | internal/db/apikeys.sql.go:69-92 | finds a row if and only if one has the hash, and returns that row's columns |
| `KeyTable.DeleteTakesOwnRow` | internal/db/apikeys.sql.go:55-67 | a DELETE takes a row if and only if both its id and its user match; all other rows and last uses stay as they are |
| `KeyTable.InsertAddsOneRow` | internal/db/apikeys.sql.go:14-53 | an INSERT is refused if and only if the user has a row of that label, and then adds none; else it adds one active row with exactly the given columns under the next id |
| `KeyTable.TouchStampsOneRow` | internal/db/apikeys.sql.go:139-146 | an UPDATE stamps the row of that id if there is one, and nothing else |
| `KeyTable.AnyRowIsSelected` | internal/db/apikeys.sql.go:69-92 | while hashes are unique, the row that comes first is the row |
| `KeyRepo.FillKeepsCoherence` | internal/repo/apikey_repo.go:85-88 | writing forward then reverse entry for a row of the table keeps coherence and TTL dominance, with time passing in between |
| `KeyRepo.HitIsSelect` | internal/repo/apikey_repo.go:57-71 | a live forward entry answers exactly what the query would |
| `KeyRepo.MissIsSelect` | internal/repo/apikey_repo.go:73-90 | the read-through path answers what the query does and keeps coherence |
| `KeyRepo.LookupIsSelect` | internal/repo/apikey_repo.go:56-91 | every lookup, hit or miss, returns exactly what the bare query would and keeps coherence |
| `KeyRepo.CreateIsInsert` | internal/repo/apikey_repo.go:93-115 | a create is the INSERT, duplicate labels included, and keeps coherence |
| `KeyRepo.NoReverseNoForward` | internal/repo/apikey_repo.go:129-135 | once the reverse entry of an id is gone, no live forward entry answers with that id |
| `KeyRepo.RemoveIsDelete` | internal/repo/apikey_repo.go:121-137 | a delete is the DELETE, which takes the row of that id only for its own user, and keeps coherence: no entry remains that would answer for a row it took |
| `KeyRepo.StepRefinesTable` | internal/repo/apikey_repo.go:56-141 | every operation, with or without cache, changes the table and answers as the bare table does |
| `KeyRepo.RunRefinesTable` | internal/repo/apikey_repo.go:56-141 | over any sequence of operations and delays all answers are those of the bare table |
| `KeyRepo.CacheIsInvisible` | internal/repo/apikey_repo.go:56-141 | a repository with a cache and one with a nil client give the same answers to every sequence of operations |
| `KeyRepo.DominanceAlwaysHolds` | internal/repo/apikey_repo.go:85-88 | in every reachable state each live forward entry is the projection of its row and has a reverse entry with the same hash that expires no earlier |
| `KeyRepo.MissFillsTheCache` | internal/repo/apikey_repo.go:78-89 | a lookup that had to ask the table and found a row leaves it in the cache for the full ttl |
| `KeyRepo.CreateFillsTheCache` | internal/repo/apikey_repo.go:102-113 | so does a create |
| `KeyRepo.HitIsOneCommand` | internal/repo/apikey_repo.go:57-71 | a hit changes nothing and takes no further command |
| `KeyRepo.Repository.constructor` | internal/repo/apikey_repo.go:48-54 | an empty repository satisfies the invariant |
| `KeyRepo.Repository.GetAPIKeyByHash` | internal/repo/apikey_repo.go:56-91 | answers if and only if a row has the hash, with exactly that row's id, owner, active flag and rate; leaves the table alone, keeps the invariant |
| `KeyRepo.Repository.ReadThrough` | internal/repo/apikey_repo.go:73-90 | the miss path, command by command |
| `KeyRepo.Repository.SetBoth` | internal/repo/apikey_repo.go:86-87 | the two SETs in the order in which the source issues them |
| `KeyRepo.Repository.CreateAPIKey` | internal/repo/apikey_repo.go:93-115 | refuses if and only if the user has a key of that label, and then adds no row; else adds exactly the row asked for, active, under the next id; keeps the invariant |
| `KeyRepo.Repository.DeleteAPIKey` | internal/repo/apikey_repo.go:121-137 | a row is gone if and only if its id was given with its own user; every other row is as it was; keeps the invariant |
| `KeyRepo.Repository.UpdateAPIKeyLastUsed` | internal/repo/apikey_repo.go:139-141 | stamps the last use of that id with that time, changes no row and no other last use, keeps the invariant |
| `CacheProtocol.StoredIsInsert` | internal/db/apikeys.sql.go:14-53 | the protocol's insert step is the INSERT of the table |
| `CacheProtocol.LookupSteps` | internal/repo/apikey_repo.go:57-90 | a lookup that is heard answers a live cached row as seen now, else asks the table, and passes the row it finds on to the two SETs with the time it read Redis |
| `CacheProtocol.DbErrorIff` | internal/repo/apikey_repo.go:73-76 | a statement's error is reported if and only if there was one |
| `CacheProtocol.FailedReadIsMiss` | internal/repo/apikey_repo.go:59-71 | a failing GET counts as a miss |
| `CacheProtocol.FailedWriteGoesOn` | internal/repo/apikey_repo.go:86-87 | after a failing SET or DEL the call goes on as after any other |
| `CacheProtocol.ForwardReadKeepsInv` | internal/repo/apikey_repo.go:57-71 | reading the forward entry keeps the invariant: a hit is a row once inserted with that hash |
| `CacheProtocol.SelectedKeepsInv` | internal/repo/apikey_repo.go:73-76 | so does the query, failing or not |
| `CacheProtocol.ForwardFilledKeepsInv` | internal/repo/apikey_repo.go:86-86 | so does the first SET, whatever its fate |
| `CacheProtocol.ReverseFilledKeepsInv` | internal/repo/apikey_repo.go:87-87 | so does the second SET, whatever its fate |
| `CacheProtocol.InsertedKeepsInv` | internal/repo/apikey_repo.go:94-101 | so does the INSERT: ids are new, hashes stay unique over the whole history |
| `CacheProtocol.DeletedKeepsInv` | internal/repo/apikey_repo.go:122-128 | so does the DELETE, also when its answer is lost |
| `CacheProtocol.ReverseReadKeepsInv` | internal/repo/apikey_repo.go:129-131 | so does reading the reverse entry |
| `CacheProtocol.DropKeepsInv` | internal/repo/apikey_repo.go:132-133 | so does either DEL, whatever its fate |
| `CacheProtocol.NextRemembers` | internal/db/apikeys.sql.go:14-18 | no step changes what a call asked for or a row once inserted |
| `CacheProtocol.RunKeepsInv` | internal/repo/apikey_repo.go:56-137 | the invariant holds in every state of every run, under any interleaving and any failures |
| `CacheProtocol.LookupProvenance` | internal/repo/apikey_repo.go:56-91 | a lookup for h answers only with id, owner, active flag and rate of the one row ever inserted with h, traced to the create call that asked for it |
| `TableRuns.RowLeavesIff` | internal/db/apikeys.sql.go:55-67 | in every run, a row leaves the table if and only if the step is the DELETE of a call that asked for that id and the row's own user |
| `TableRuns.RowsNeverChange` | internal/db/apikeys.sql.go:14-18 | a row in two states of a run is the same row |
| `TableRuns.LabelsStayUnique` | migrations/0003_unique_apikey_label.up.sql:1-2 | in every run no user ever has two keys of one label |
| `TableRuns.CreateAnswered` | internal/repo/apikey_repo.go:93-101 | in every run a create that hears from the database is rejected if and only if its user has a key of its label at that moment; else its row, as asked for and under a new id, is in the table |
| `CacheStaleness.FadingOnward` | internal/repo/apikey_repo.go:121-137 | after a delete only calls in flight then can write the row back, and what they write expires by f + ttl |
| `CacheStaleness.BoundedStaleness` | internal/repo/apikey_repo.go:56-137 | if all calls in flight at the delete return by f, no lookup reading Redis at or after f + ttl answers with the deleted key |
| `CacheStaleness.StalenessBoundReached` | internal/repo/apikey_repo.go:56-137 | for every ttl there is a run without any failure in which a lookup at f + ttl - 1 still answers with the deleted key |
| `DeleteRaces.GoneOnward` | internal/repo/apikey_repo.go:56-137 | a deleted row that is neither cached nor about to be stays so in every continuation, whatever fails and whoever deletes |
| `DeleteRaces.AbsentIsImmediate` | internal/repo/apikey_repo.go:121-137 | so a delete that commits then is immediate: no lookup begun after it returned answers with the key, in any continuation |
| `DeleteRaces.SettledIsImmediate` | internal/repo/apikey_repo.go:121-137 | if no command fails and no rival begins, so is one at whose commit no call is about to cache the row, the reverse entry covers it and no rival is under way |
| `DeleteRaceWitness.HolderIsStale` | internal/repo/apikey_repo.go:85-88 | if some call is about to cache the row, the run can go on so that such a lookup does |
| `DeleteRaceWitness.UncoveredIsStale` | internal/repo/apikey_repo.go:129-135 | so it can if the row is cached and the reverse entry is missing, leads elsewhere or expires earlier |
| `DeleteRaceWitness.RivalIsStale` | internal/repo/apikey_repo.go:129-133 | so it can if the row is cached and another delete of the key is under way that can take the reverse entry first |
| `DeleteRaceWitness.NewRivalIsStale` | internal/repo/apikey_repo.go:121-137 | so it can, if other deletes may begin, through a delete by any user |
| `DeleteRaceWitness.LostIsStale` | internal/repo/apikey_repo.go:131-134 | so it can, if commands may fail, through the delete's own lost read |
| `DeleteRaceWitness.DeleteIsImmediateIff` | internal/repo/apikey_repo.go:121-137 | for every reachable commit, with or without failures and rivals: a delete takes effect at once in every continuation if and only if the row is neither cached nor about to be, or, without failures and new rivals, the delete is settled |
| `SoloCalls.SoloLookup` | internal/repo/apikey_repo.go:56-91 | a lookup that runs alone through the protocol ends in the state and with the answer of the sequential lookup, whatever the delays |
| `SoloCalls.SoloCreate` | internal/repo/apikey_repo.go:93-115 | so does a create, duplicate label or not |
| `SoloCalls.SoloRemove` | internal/repo/apikey_repo.go:121-137 | so does a delete, reverse entry found or not |
| `WindowArithmetic.WholeWindow` | internal/transport/http/middleware/rate_limit.go:44-48 | for whole seconds the Unix start and the expiry lose nothing by truncation |
| `WindowArithmetic.StartDeterminesIndex` | internal/transport/http/middleware/rate_limit.go:45-46 | equal window starts mean the same window |
| `WindowArithmetic.WindowsMet` | internal/transport/http/middleware/rate_limit.go:44-45 | an interval of T ticks meets at most ceil(T/W) + 1 windows |
| `RateLimit.Limiter.Handle` | internal/transport/http/middleware/rate_limit.go:26-77 | the middleware step by step: store, decision, status and headers are those of `Serve`, which `RankDecides` and `HeadersTell` state in numbers |
| `RateLimitRuns.ServeKeepsCounter` | internal/transport/http/middleware/rate_limit.go:18-24 | a request charged to a counter gets the next number and leaves it alive past the end of its window; any other request leaves it alone |
| `RateLimitRuns.CounterIsChargeCount` | internal/transport/http/middleware/rate_limit.go:18-54 | after any run the counter equals the number of requests charged to it; expiry never resets it within its window |
| `RateLimitRuns.SharedCounterIff` | internal/transport/http/middleware/rate_limit.go:36-46 | two requests share a counter if and only if they have the same key, or no key and the same user, and the same endpoint and window |
| `RateLimitRuns.ChargedIsEarlier` | internal/transport/http/middleware/rate_limit.go:18-48 | what a counter has been charged is the number of earlier such requests whose script ran |
| `RateLimitRuns.RankDecides` | internal/transport/http/middleware/rate_limit.go:35-75 | the n-th request of a caller, endpoint and window is answered n; without a key its limit is the JWT limit, with key and rate the rate; it is admitted if and only if n is within that, and told what is left |
| `RateLimitRuns.FaultsAdmitNobody` | internal/transport/http/middleware/rate_limit.go:28-58 | without an identity or with a failing Redis nobody is admitted, and nothing counted unless the script ran |
| `RateLimitRuns.ResetInNextWindow` | internal/transport/http/middleware/rate_limit.go:54-67 | every decided request, admitted or not, is told a reset in the very next window |
| `RateLimitRuns.ResetInWholeSeconds` | internal/transport/http/middleware/rate_limit.go:67 | on a finer clock, that moment rounded down to whole seconds |
| `RateLimitRuns.ResetOfGoneCounter` | internal/transport/http/middleware/rate_limit.go:54-67 | zero, if the counter has run out before its TTL is read |
| `RateLimitRuns.HeadersTell` | internal/transport/http/middleware/rate_limit.go:65-70 | which header carries limit, remaining, reset and Retry-After, in numbers, for the n-th request |
| `RateLimitRuns.RetryAfterNextWindow` | internal/transport/http/middleware/rate_limit.go:54-72 | rejections, and only they, carry Retry-After, and rejection time plus Retry-After lies in the very next window |
| `RateLimitRuns.WindowAdmitsLimit` | internal/transport/http/middleware/rate_limit.go:60-75 | one window admits at most the limit, over any run |
| `RateLimitRuns.WindowsAdmitProduct` | internal/transport/http/middleware/rate_limit.go:44-75 | several windows admit at most the limit times their number |
| `RateLimitBounds.IntervalBound` | internal/transport/http/middleware/rate_limit.go:44-75 | any interval admits at most the limit for each window it meets |
| `RateLimitBounds.SlidingBound` | internal/transport/http/middleware/rate_limit.go:44-75 | so any interval of T ticks admits at most (ceil(T/W) + 1) * limit, any interval up to W at most 2 * limit |
| `RateLimitExtremes.SlidingMaximum` | internal/transport/http/middleware/rate_limit.go:44-75 | for every identity, endpoint and interval some run admits the limit in every window the interval meets |
| `RateLimitExtremes.FullAllowance` | internal/transport/http/middleware/rate_limit.go:35-75 | for every bearer user some run admits exactly the JWT limit in one instant, for every key exactly its rate |
| `RateLimitExtremes.SlidingPromiseIff` | internal/transport/http/middleware/rate_limit.go:44-75 | no run admits more than the limit in an interval if and only if its first and last tick share a window, or the limit is not positive |
| `RateLimitExtremes.SlidingWindowIff` | internal/transport/http/middleware/rate_limit.go:44-75 | that holds for all intervals of a window's length if and only if the window is one tick or the limit is not positive |
| `RateLimitExtremes.TwiceTheLimitReached` | internal/transport/http/middleware/rate_limit.go:44-75 | for every limit and every window of at least two ticks some run admits exactly 2 * limit within W |
| `RateLimitBounds.LifetimesAlwaysHold` | internal/transport/http/middleware/rate_limit.go:44-54 | successive lifetimes of one counter start at least a window apart and each admits at most the limit |
| `RateLimitBounds.LateScriptBound` | internal/transport/http/middleware/rate_limit.go:44-54 | scripts up to D late give one counter at most ceil(D/W) + 1 lifetimes and that many times the limit |
| `RateLimitExtremes.LateScriptBoundReached` | internal/transport/http/middleware/rate_limit.go:44-54 | for every D some run gives one counter that many lifetimes, each admitting the limit |
| `RateLimitBounds.FractionalWindowLeaks` | internal/transport/http/middleware/rate_limit.go:48 | every window that is not whole seconds has a run that admits two requests under a limit of one |
| `RateLimitBounds.EnforcesIffWholeSeconds` | internal/transport/http/middleware/rate_limit.go:45-48 | the limiter enforces its limit in every run if and only if the window is a whole number of seconds |
| `RateLimitUsers.RateSumTakes` | internal/transport/http/middleware/auth_api_key.go:51-57 | the sum of the rates of a set of keys does not depend on the order of summing |
| `RateLimitUsers.UserTotalBound` | internal/transport/http/middleware/rate_limit.go:35-75 | one user's admissions on an endpoint in a window are at most the JWT limit plus the rates of the user's keys used in it |
| `RateLimitUserMaximum.UserTotalReached` | internal/transport/http/middleware/rate_limit.go:35-75 | for every user and any keys of the user some run in one instant is admitted exactly the JWT limit plus the rates of all of them |
| `RateLimitUsers.OwnRequests` | internal/transport/http/middleware/rate_limit.go:35-46 | what is left after striking out the others is exactly the user's own requests, each with its answer |
| `RateLimitUsers.OthersDoNotMatter` | internal/transport/http/middleware/rate_limit.go:35-54 | striking out every other user's requests changes none of a user's answers |
| `Float64.UlpIffFloat64` | internal/transport/http/middleware/auth_jwt.go:51 | the multiples of their own ulp are exactly the integers m * 2^e with m < 2^53 |
| `Float64.NearestIsFloat64` | internal/transport/http/middleware/auth_jwt.go:51 | the conversion gives a float64 |
| `Float64.NearestIsRoundToNearest` | internal/transport/http/middleware/auth_jwt.go:51 | no float64 is nearer, and of two that are equally near the even one is taken |
| `Float64.SurvivesIff` | internal/transport/http/middleware/auth_jwt.go:51-57 | an id survives JSON number, float64 and int64 if and only if it is a float64, so always up to 2^53 |
| `Float64.FirstLoss` | internal/transport/http/middleware/auth_jwt.go:51-57 | 2^53 + 1 comes back as 2^53 |
| `Float64.ToInt64Truncates` | internal/transport/http/middleware/auth_jwt.go:57 | the conversion to int64 cuts the fraction off toward zero |
| `Auth.Chain` | internal/transport/http/middleware/auth_chain.go:11-18 | the backward loop builds the right-nested composition |
| `Auth.ChainOfChains` | internal/transport/http/middleware/auth_chain.go:11-18 | a chain of xs + ys is the chain of xs around the chain of ys |
| `Auth.GatesAreExtensional` | internal/transport/http/middleware/auth_jwt.go:13-74 | the middlewares treat the next handler as a black box |
| `Auth.FinalCheckGuards` | internal/transport/http/middleware/auth_chain.go:20-30 | in any chain that ends in the final check, what a handler would do without an identity makes no difference to any request |
| `Auth.Looked` | internal/transport/http/middleware/auth_api_key.go:24-34 | a lookup answers with the live cache entry, else the row; with a coherent cache it answers as the table does and the cache stays coherent |
| `Auth.Touched` | internal/transport/http/middleware/auth_api_key.go:47-49 | recording the last use changes no row column, user or cache entry |
| `Auth.JudgeKey` | internal/transport/http/middleware/auth_api_key.go:26-57 | a lookup's answer is allowed only if active and its owner exists, with exactly the owner, key and rate of the answer |
| `Auth.JudgeToken` | internal/transport/http/middleware/auth_jwt.go:45-66 | claims are allowed only for an existing user, and never with a key or a rate |
| `Auth.AuthVerdictRules` | internal/transport/http/middleware/auth_chain.go:32-40 | the stack's answer, for every request and state, is that of the ruling on the lookup or on the token |
| `Auth.KeyAnswers` | internal/transport/http/middleware/auth_api_key.go:24-60 | what a request with a key is answered, or which identity it gets: by fault, unknown key, inactive key, missing owner, in this order |
| `Auth.TokenAnswers` | internal/transport/http/middleware/auth_jwt.go:22-71 | the same without a key: by header, token, claims and user |
| `Auth.AuthEitherDecides` | internal/transport/http/middleware/auth_chain.go:32-40 | the whole stack decides before and independently of the handler behind it |
| `Auth.CoherentBacked` | internal/transport/http/middleware/auth_api_key.go:24-34 | while the cache is coherent, what it backs is what the table holds |
| `Auth.AuthEitherSafe` | internal/transport/http/middleware/auth_api_key.go:36-60 | in every state, who gets past has the identity of an active key, cached or in the table, and its owner, or of the user left of n by an unexpired token signed for n; with a coherent cache the key is an active row |
| `Auth.AuthEitherExact` | internal/transport/http/middleware/auth_chain.go:32-40 | short of database errors a request gets past if and only if its key, or without a key its token, supports an identity |
| `Auth.InvalidTokenIff` | internal/transport/http/middleware/auth_jwt.go:38-48 | a bearer token is answered "invalid token" if and only if it is not the signed form of an unexpired payload |
| `Auth.ExpiredTokenRefused` | internal/transport/http/middleware/auth_jwt.go:45-48 | an expired token gets 401, whoever it was signed for |
| `Auth.SoundIsPossible` | internal/service/auth.go:112-117 | what is assumed of signing and verification can be met |
| `Auth.KeyUseIsRecorded` | internal/transport/http/middleware/auth_api_key.go:47-49 | a use of a key is recorded on the key of the identity and nowhere else; a rejected request changes no row and no user |
| `Auth.AuthorizationIgnored` | internal/transport/http/middleware/auth_jwt.go:16-20 | with an API key present the Authorization header changes neither outcome nor identity |
| `AuthStacks.LimiterKeepsCoherence` | internal/transport/http/middleware/rate_limit.go:46-48 | the limiter's writes to the shared Redis keep the key cache coherent |
| `AuthStacks.LimitVerdict` | internal/transport/http/middleware/rate_limit.go:35-75 | in a stack the limiter passes a request on if and only if the caller's counter is below the JWT limit, or below the rate of its key, and else answers 429; either way it counts the request and changes nothing else |
| `AuthStacks.LimitFaults` | internal/transport/http/middleware/rate_limit.go:28-58 | a failing Redis or a missing identity is answered 500 |
| `AuthStacks.InferenceReachedIff` | internal/transport/http/router.go:94-98 | behind auth stack and limiter every handler is reached if and only if the auth verdict passes and the caller is below the limit; else the answer is the auth stack's, or 429 |
| `AuthStacks.SecondJwtIsNoOp` | internal/transport/http/router.go:94-98 | the second JWT middleware on `/inference/predict` is a no-op for every request, state and handler |
| `AuthStacks.AuthEitherGuards` | internal/transport/http/router.go:80-98 | on `/vendor` and `/inference` what a handler would do without an identity makes no difference to any request |
| `AuthStacks.FraudWithoutKey` | internal/transport/http/router.go:100-103 | on `/fraud` a request without a key is answered 500 by the limiter, whatever token it carries and whatever the handler |
| `AuthStacks.FraudPassed` | internal/transport/http/router.go:100-103 | a request that reaches the handler there has a key that the repository backs, and its identity; with a coherent cache, an active row's |
| `AuthStacks.FraudGuards` | internal/transport/http/router.go:100-103 | handlers that agree on such requests cannot be told apart there |
| `AuthStacks.FraudStatus` | internal/transport/http/router.go:100-103 | short of database errors the answer is 401 if and only if the key is non-empty and unknown or inactive; with a coherent cache, without an active row |
| `AuthStacks.FraudReachedIff` | internal/transport/http/router.go:100-103 | on `/fraud` every handler is reached if and only if the repository backs the key and the key is below its rate; else the answer is the key middleware's, 500 without a key, or 429 |
| `Auth.BearerTokenOf` | internal/transport/http/middleware/auth_jwt.go:29-36 | the header "Bearer " + token yields exactly the token |
| `Auth.BearerTokenIff` | internal/transport/http/middleware/auth_jwt.go:29-36 | a header carries a token if and only if it is "bearer" in any case, one space, and the token |
| `Auth.TokenExpires` | internal/service/auth.go:104-118 | an issued token is refused if and only if its time of issue plus the timeout has come |
| `Auth.TokenRoundTrip` | internal/service/auth.go:104-118 | a token issued to n and sent back in time authenticates exactly n if and only if n is a float64, so for all n up to 2^53 |
| `Auth.AuthenticateByKey` | internal/transport/http/middleware/auth_api_key.go:14-63 | the middleware on the live repository leaves the state and takes the decision of `ApiKeyDecision` |
| `SignUp.EffectKeepsInv` | internal/service/auth.go:64-71 | a step that takes effect agrees with the atomic check-and-insert |
| `SignUp.NextKeepsInv` | internal/service/auth.go:41-80 | every step of every call, with any failure, keeps the order of effect legal |
| `SignUp.SignUpLinearizable` | internal/service/auth.go:41-80 | every run equals atomic check-and-inserts in some order; emails stay unique up to case in every reachable state |
| `SignUp.LegalAt` | internal/service/auth.go:64-71 | each recorded effect is what the atomic step does on the table at its point |
| `SignUp.SignUpAnswer` | internal/service/auth.go:41-80 | a success returns the row that call inserted, on the free plan; ErrEmailExists only if, where the call took effect, some user's email was the same up to case |
| `SignUp.StepOrder` | internal/service/auth.go:41-80 | a step adds at most one effect, of a call in flight, and revives no returned call |
| `SignUp.LaterEffects` | internal/service/auth.go:41-80 | effects are never taken back and returned calls take none |
| `SignUp.RealTimeOrder` | internal/service/auth.go:41-80 | a call that returned before another began takes effect before it |
| `SignUp.AtomicInPlainTerms` | internal/service/auth.go:43-64 | the specification: refused, with nothing changed, if and only if some user's email is the same up to case; else exactly one user on the free plan is added |
| `SignUp.AloneIsAtomic` | internal/service/auth.go:41-80 | a call that runs alone is the atomic check-and-insert and reports its effect |
| `SignUp.AloneAnswersIff` | internal/service/auth.go:41-80 | so it answers ErrEmailExists if and only if some user's email is the same up to case, and with a free email inserts its user and returns it |
| `SignUp.FailureIffUnheard` | internal/service/auth.go:47-76 | a call fails if and only if one of its steps was not heard of |
| `Predict.EnsureDecimal` | internal/service/vendor.go:126-149 | changes the caller's map in place to the adjusted one |
| `Cents.PlusCentIff` | internal/service/vendor.go:132-139 | the float64 sum of a whole float64 and 0.01 has a fraction if and only if the number is from -2^47 up to below 2^47; outside, the sum is the number |
| `Cents.CentIsNearest` | internal/service/vendor.go:133 | the constant is the float64 nearest to 0.01 |
| `Predict.DecimalIff` | internal/service/vendor.go:126-149 | a numeric amount of any type ends up a float64 that has a fraction if and only if it had one or is whole and in that range, never lower than it was nor higher by a thirty-second |
| `Predict.AdjustedElsewhere` | internal/service/vendor.go:126-149 | no other entry changes |
| `Predict.AdjustedOnce` | internal/service/vendor.go:126-149 | a second pass changes nothing, for every amount |
| `Predict.MaskSensitiveData` | internal/transport/http/handlers.go:139-150 | the loop computes the masked map that `MaskedIff` describes |
| `Predict.MaskedIff` | internal/transport/http/handlers.go:141-147 | a value is replaced by the placeholder if and only if one of the four words occurs in its key in any mixture of cases |
| `Predict.FeatureNamesArePlain` | internal/transport/http/handlers.go:391-396 | none of the four feature names is sensitive |
| `Predict.PredictServer.Predict` | internal/service/vendor.go:91-105 | exactly one vendor call, with the caller's map as adjusted in place |
| `Predict.PredictServer.SaveInferenceLog` | internal/transport/http/handlers.go:300-329 | exactly one log attempt with the given fields, an error only for a non-empty text |
| `Predict.PredictServer.PredictHandler` | internal/transport/http/handlers.go:343-422 | one vendor call if and only if the request is valid, carrying model, transaction, merchant and device type as asked and the amount as adjusted; one row per identity, naming the caller, the times and the request; the response of every branch |
| `Predict.LogMatchesStatus` | internal/transport/http/handlers.go:343-422 | one log row; a response in it if and only if the status is 200, an error if and only if it is not, and both are what the client got |
| `Predict.CallTells` | internal/transport/http/handlers.go:338-400 | the call of a valid request, field by field |
| `Predict.LogTells` | internal/transport/http/handlers.go:300-324 | what the row of every kind of request holds |
| `Predict.StatusTells` | internal/transport/http/handlers.go:345-420 | the answer to every kind of request |
| `Predict.LogShowsWhatWasSent` | internal/transport/http/handlers.go:391-413 | after a vendor call the logged features are those sent, adjusted amount included, with nothing masked |
| `Predict.PredictServer.ServeAll` | internal/transport/http/handlers.go:343-422 | any sequence of requests leaves exactly the logs, vendor calls and responses of its requests, in order |
| `Predict.OneLogPerRequest` | internal/transport/http/handlers.go:343-422 | these are one log attempt per request with an identity and no more vendor calls than that |
| `Predict.StorableIff` | migrations/0004_add_inference_logs_table.up.sql:2-12 | the table takes the log row if and only if the body is JSON that JSONB takes, the texts beside it are free of NUL, and the user and the API key exist |
| `Predict.NulIsRefused` | migrations/0004_add_inference_logs_table.up.sql:6-8 | a NUL character in any text of the row keeps it out |
| `Predict.NothingLostIff` | internal/transport/http/handlers.go:326-328 | over any run, with the database changing between requests, every attempt is stored if and only if every request with an identity is loggable when it is logged |
| `Predict.TooLargeIsNeverStored` | internal/transport/http/handlers.go:358-362 | a body over the limit is answered 413 and never stored |
| `Models.SortByType` | internal/service/vendor.go:83-85 | strictly increasing, same elements, same length |
| `Models.ListModels` | internal/service/vendor.go:71-87 | for every iteration order the result is strictly increasing in type, with one entry per key carrying that key's fields |
| `Models.LessIff` | internal/service/vendor.go:83-85 | the order is text order: the first difference decides, and a beginning comes first |
| `Models.SortedListIsUnique` | internal/service/vendor.go:83-85 | two strictly increasing lists with the same elements are equal |
| `Models.ListingIsUnique` | internal/service/vendor.go:71-87 | so the listing is the same for every iteration order |
| `KeyService.AcceptedRateIsStored` | internal/transport/http/handlers.go:110-113 | accepted are exactly labels of 3 to 50 characters with a rate from 0 to 10000, and what is stored is the label and the rate asked for, 100 for none |
| `KeyService.ToInt32Wraps` | internal/service/apikeys.go:45 | the conversion keeps the number modulo 2^32, and numbers of that range as they are |
| `EndToEnd.RequestsWereBegun` | internal/transport/http/handlers.go:177-182 | every recorded request was made by an action of the run |
| `EndToEnd.HistoryHasAcceptedRates` | internal/service/apikeys.go:41-48 | every row ever inserted carries the rate asked for, 100 if none was, between 1 and 10000 |
| `EndToEnd.StackUsesTheLookup` | internal/transport/http/middleware/auth_api_key.go:24-60 | over a lookup that runs alone through the step protocol, a request with a key passes exactly with the identity that the middleware allows on its answer; for interleaved lookups see `ServiceIsSane` |
| `EndToEnd.StackUsesTheToken` | internal/transport/http/middleware/auth_jwt.go:50-68 | without a key it passes with an identity that the JWT middleware allowed |
| `EndToEnd.EnforcedLimitIsAcceptedRate` | internal/transport/http/middleware/rate_limit.go:35-42 | the limit enforced on an identity that the API-key middleware allowed is the rate asked for when its key was created, 100 if none was, and the user is the one who created it, hit or miss, in every reachable state |
| `EndToEnd.AllowedIsKnown` | internal/transport/http/middleware/auth_api_key.go:51-57 | an allowed identity with a key agrees with the row inserted for that key |
| `EndToEnd.AuthenticatedIsConsistent` | internal/transport/http/middleware/auth_api_key.go:51-57 | identities attached by the middlewares on a run's lookups agree on owner and rate of every key |
| `EndToEnd.CallsAtMostAdmitted` | internal/transport/http/handlers.go:398-401 | the vendor calls of the handler on a user's admitted requests are at most those requests |
| `EndToEnd.CallsAreAdmitted` | internal/transport/http/handlers.go:398-401 | if all requests are valid, exactly as many |
| `EndToEnd.VendorTrafficBound` | internal/transport/http/router.go:94-98 | if the middlewares attached the identities, a user's vendor calls on one prediction endpoint in a window are at most the JWT limit plus the accepted rates of the keys used, over every interleaving of key management and authentication |
| `RateLimitUsers.UserKeysBound` | internal/transport/http/router.go:100-103 | where only keys are accepted the JWT limit adds nothing |
| `Service.ServiceIsSane` | internal/transport/http/router.go:73-103 | in every run of the service every key was created by an accepted request and every identity was attached by a middleware on a token or on the answer of a lookup of that run, however interleaved |
| `Service.ServiceEnforcesAcceptedRates` | internal/transport/http/middleware/rate_limit.go:35-42 | in every run the identity of every API-key request carries, and the limiter enforces, the rate asked for when its key was created, 100 if none was |
| `Service.PredictionTrafficBound` | internal/transport/http/router.go:94-103 | in every run a user's vendor calls in a window over both prediction endpoints are at most the JWT limit plus, per endpoint, the accepted rates of the keys used there |
| `LostLogs.LoggedIffKeyRemains` | migrations/0005_update_inference_logs_apikey_fk.up.sql:3-5 | a request allowed on a lookup's answer is stored in a later state if and only if the body is plain, the owner exists and the key's row is still there; the vendor is called either way |
| `LostLogs.UnloggedCallReached` | internal/transport/http/handlers.go:326-328 | for every ttl some failure-free run answers a deleted key, whose request reaches the vendor and is never stored |

## Left out

- The circuit breaker and retries of `internal/clients/thirdparty.go`: their state machines live in gobreaker and resty; a vendor call is a value or an error.
- SHA-256, bcrypt, HMAC and random key generation: functions passed in, with the assumptions named above; `SignIn` and `generateRandomKey` therefore have no content of their own.
- General JSON encoding and the validator library: decoded structs and the validator's text are inputs, and the cached row survives its own encoding.
- Float64.SurvivesIff: for ids from 1 up to the largest int64, which is all a BIGSERIAL hands out; out-of-range conversions are fixed to the smallest int64, as amd64 gives.
- RateLimitRuns.RetryAfterNextWindow: one clock in whole seconds and an exact TTL; Redis rounds a sub-second TTL to the nearest second, which is not modelled.
- Text.SplitOnce: strings are sequences of characters; of lower-casing only runes that fold to ASCII letters are modelled, which is all a comparison with ASCII text can see.
- Models.SortByType: `sort.Slice` works in place and its algorithm is the library's; the model sorts a sequence.
- KeyRepo.Repository.GetAPIKeyByHash: the database answers here; its errors are steps of `CacheProtocol`.
- Deletion of users, which no code of the service does, and `ON DELETE SET NULL` on log rows already stored.
- `ListAPIKeysByUser`, `ListUsersPaged`, `maskAPIKey`, and the health, readiness, profile, ping, sign-in and sign-up shells: one-branch facts or plain I/O.
- The failing `Version` call before the model list: it only passes the error on.
- Configuration, logging, CORS, request ids, timeouts, metrics, tracing and deployment.
