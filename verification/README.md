# Verified model of the sapper-bricks adapters

This project models the parts of the C++ service bricks that hold real protocols, and proves what they keep over all
runs. Verify it with `dafny verify dfyconfig.toml`.

| file | what it models |
|---|---|
| `JwkSet.dfy` | filtering a JWK Set (RFC 7517, section 5) and folding it into a map from key ids to PEM texts |
| `KeyCache.dfy` | the cached RSA key provider as classes: shared cache, constructors, copy, refresh, one lookup |
| `KeyCacheMachine.dfy`, `KeyCacheProofs.dfy`, `KeyCacheTheorems.dfy` | any number of concurrent lookups over one shared mutex, with a provider that may throw at any call |
| `Repository.dfy` | the entity and the in-memory repository, the sequential specification of a repository |
| `PostgresManager.dfy` | the Postgres connection manager as a class: one attempt and the retry loop |
| `PostgresMachine.dfy`, `PostgresProofs.dfy` | any number of concurrent `Store` and `Retrieve` calls sharing one connection under a mutex that is released between attempts |
| `EntityService.dfy` | HTTP handler, core, path parsing and JSON of one service |
| `Replication.dfy` | two services: store, then a retried PUT over a network that loses requests and responses |
| `Tracing.dfy`, `TracingHook.dfy` | the metadata carrier, the propagation headers and the tracing hook over trees of nested requests |
| `StopHandshake.dfy` | the Pub/Sub handler's stop flag, mutex and condition variable |
| `Linearizability.dfy`, `Counting.dfy`, `Json.dfy`, `Wrappers.dfy` | what the above share |

Objects that a single thread updates are classes whose methods are proved against specification functions. Protocols
between threads are step machines over values: a step is one access to a lock, to shared data or to the environment,
`Exec` runs a sequence of steps, and every theorem quantifies over all such sequences. What the environment chooses
(provider responses, factory and transaction outcomes, lost messages, spurious wakeups, which lookup goes next) is part
of the step. The machine of the key cache replaces the map one entry at a time, so that "never a mixture" rests on the
lock and not on the step being atomic.

Library code that is not in the repository enters as these assumptions:

- The PEM writer is a finite map from keys to texts given with each provider response; a key outside it fails to convert.
- The retry hook repeats an attempt that ended in unavailable at most `max_retry_count` times and lets other exceptions
  through. For the notifier it may repeat any attempt that did not end well and may give up after any of them.
- A Postgres attempt that ends in a broken connection has not committed. A connection lost during the commit is reported
  as an error in doubt, which is no broken connection: such a call throws without a retry, and its upsert is visible by
  then or never. Nobody else writes the table.
- OpenTelemetry: attaching pushes a new context; detaching the top pops it; below the top both plausible readings are
  covered. A propagator injects nothing for an invalid span and sets every header of its format for a valid one.
- Between the hooks nothing but nested requests touches the context stack and the thread-local metadata: the library
  leaves both alone, and a request's own code does not set the headers.
- A started span has an id of its own (only `HeaderAgreementExactly` uses this, as its hypothesis `OwnSpans`).
- A PUT request is taken to arrive with its path and body unchanged.

Places where the code does less than its documentation says or a reader might expect, with the code followed:

- rest-jwks-rsa-key-provider.h:24 promises an arbitrary key for an empty key id. No reachable cache holds the empty id,
  so such a lookup never returns a key (`EmptyKidFindsNothing`).
- rest-jwks-rsa-key-provider.h:18 takes a `throw_on_error` argument, but the constructor it belongs to delegates
  without it (rest-jwks-rsa-key-provider.cpp:34-37), so it always throws on errors (`FromUri`).
- The services agree on an id exactly when the request applied last on it carries the entity stored last
  (`AgreementExactly`, for every run). Nothing in the services enforces this. It is enough that each request is applied
  while its call is still the last one to have stored on the id (`InOrder`), so a late request does no harm before the
  next store. Serial calls with requests that take effect within their calls imply it (`SerialTimelyInOrder`), and
  neither half of that is enough alone: the services can then disagree for good after both calls are over
  (`OverlappingCallsBreakAgreement`, `LateRequestBreaksAgreement`).
- A `Store` that throws may have changed the Postgres table (`StoreThatThrewCommitted`); `StoreCommitsOnce` says exactly
  when.
- The propagation header is not right at every point of a request's own code in every tree: post-processing injects
  before it detaches the remote scope, and does not run at all for a request that throws. It is right everywhere exactly
  when no exception of a nested request is caught and every nested incoming request that returns names the enclosing
  span as its parent (`HeaderAgreementExactly`).
- One `notify_one` wakes one waiter, so one `Stop` serves one thread in `Handle`; the exact bound is proved both ways.

## Model

| member | source | states |
|---|---|---|
| JwkSet.ParseRS256Keys | security/jwt-auth/src/adapters/security-jwt-auth/impl/key_conversion.cpp:72-114 | the loop with its skips collects exactly the qualifying keys of the document |
| JwkSet.QualifyingKeysIsSubsequence | security/jwt-auth/src/adapters/security-jwt-auth/impl/key_conversion.cpp:78-111 | the result is the order-preserving subsequence at exactly the positions of the non-empty RSA signature keys |
| JwkSet.ParsedKeysExactly | security/jwt-auth/src/adapters/security-jwt-auth/impl/key_conversion.cpp:72-114 | in terms of the document's fields alone: the keys are, in order, those of exactly the listed JWKs that are non-empty RSA signature keys, each with its own kid, n and e |
| JwkSet.NothingListed | security/jwt-auth/src/adapters/security-jwt-auth/impl/key_conversion.cpp:76-78 | a document without keys, or with a primitive value there, yields no keys |
| JwkSet.SingleKey | security/jwt-auth/src/adapters/security-jwt-auth/impl/key_conversion.cpp:76-110 | for all non-empty texts a document with one RSA key for "sig", "sign" or "verify" yields exactly that key, with id, modulus and exponent in their places |
| JwkSet.OtherKeysAreSkipped | security/jwt-auth/src/adapters/security-jwt-auth/impl/key_conversion.cpp:80-109 | a JWK whose type is not RSA, whose use is another one, or that has no or an empty id, modulus or exponent, changes nothing at whatever position it is inserted |
| JwkSet.ExtractPubKeysPEM | security/jwt-auth/src/adapters/security-jwt-auth/impl/key_conversion.cpp:11-19 | the assignment loop builds the last-wins map, or fails as a whole |
| JwkSet.PemMapExists | security/jwt-auth/src/adapters/security-jwt-auth/impl/key_conversion.cpp:14-17 | there is a map if and only if every key converts; a single failed conversion fails all of it |
| JwkSet.PemMapDomain | security/jwt-auth/src/adapters/security-jwt-auth/impl/key_conversion.cpp:14-18 | the domain of the map is exactly the ids of the keys |
| JwkSet.PemMapLastWins | security/jwt-auth/src/adapters/security-jwt-auth/impl/key_conversion.cpp:16 | each id maps to the PEM text of its last occurrence |
| JwkSet.ExtractionConcat | security/jwt-auth/src/adapters/security-jwt-auth/impl/key_conversion.cpp:11-19 | extracting two key lists one after the other is the first map overridden by the second, or a failure if either fails |
| JwkSet.FetchedIdsQualify | security/jwt-auth/src/adapters/security-jwt-auth/impl/key_conversion.cpp:80-109 | every id of a fetched map is non-empty and belongs to a qualifying key of the document that converts |
| JwkSet.FetchExactly | security/jwt-auth/src/adapters/security-jwt-auth/rest-jwks-rsa-key-provider.cpp:84-91 | a fetch succeeds if and only if the provider returned a document with a qualifying key and all of them convert; the map has exactly their ids, each with the text of its last key |
| KeyCache.RestJwksRSAKeyProvider.FromProvider | security/jwt-auth/src/adapters/security-jwt-auth/rest-jwks-rsa-key-provider.cpp:39-45 | there is an object, with the fetched or an empty cache, exactly when the first fetch succeeds or errors are not thrown |
| KeyCache.RestJwksRSAKeyProvider.FromUri | security/jwt-auth/src/adapters/security-jwt-auth/rest-jwks-rsa-key-provider.cpp:34-37 | the flag is not passed on: there is an object only when the first fetch succeeds, and it throws on errors whatever was asked for |
| KeyCache.RestJwksRSAKeyProvider.UpdateKeyCache | security/jwt-auth/src/adapters/security-jwt-auth/rest-jwks-rsa-key-provider.cpp:82-104 | the map is replaced as a whole or left alone; the error is rethrown exactly when the flag says so |
| KeyCache.RestJwksRSAKeyProvider.Call | security/jwt-auth/src/adapters/security-jwt-auth/rest-jwks-rsa-key-provider.cpp:47-80 | one lookup, with other threads in between the two locks: the cached text before or after the wait; else the text that the fetched key set has for the key, the empty string when it has none or a failed fetch is swallowed, or an exception; it releases the lock on every path and calls the provider only after missing both times |
| KeyCache.LookupThroughCopy | security/jwt-auth/src/adapters/security-jwt-auth/rest-jwks-rsa-key-provider.h:36-37 | a key fetched through one copy is found through another one without a provider call |
| KeyCacheProofs.LockInvStep | security/jwt-auth/src/adapters/security-jwt-auth/rest-jwks-rsa-key-provider.cpp:51-64 | every step keeps the reader count and writer flag in agreement with who is inside, and a writer alone |
| KeyCacheProofs.DataInvStep | security/jwt-auth/src/adapters/security-jwt-auth/rest-jwks-rsa-key-provider.cpp:47-92 | every step keeps the map in memory, the sequential map and the last successful key set related as each lookup inside a lock relies on |
| KeyCacheProofs.RefreshInvStep | security/jwt-auth/src/adapters/security-jwt-auth/rest-jwks-rsa-key-provider.cpp:70-92 | every step keeps the provider's replies equal to the logged refreshes and what the lookup inside the exclusive lock has not answered yet |
| KeyCacheProofs.HistoryInvStep | security/jwt-auth/src/adapters/security-jwt-auth/rest-jwks-rsa-key-provider.cpp:47-80 | every step keeps the log consistent with the calls and returns seen so far |
| KeyCacheProofs.Linearizable | security/jwt-auth/src/adapters/security-jwt-auth/rest-jwks-rsa-key-provider.cpp:47-80 | every run's results are those of a sequential order of atomic lookups that respects real time, including lookups that throw; when no writer is inside, that order ends in the map in memory; its refreshes are the provider's replies in the order of the calls, with at most the last reply still open while a writer is inside |
| KeyCacheTheorems.AnswersExactly | security/jwt-auth/src/adapters/security-jwt-auth/rest-jwks-rsa-key-provider.cpp:47-80 | in every run each lookup answers the cached text when the key set fetched last before it in the sequential order has the key, and otherwise what its own refresh gives: the fetched text, the empty string, or an exception exactly after a failed fetch of a throwing provider; the refreshes are the provider's responses, and every result a caller sees is one of these |
| KeyCacheTheorems.WriterExcludesAll | security/jwt-auth/src/adapters/security-jwt-auth/rest-jwks-rsa-key-provider.cpp:51-76 | in every reachable state a lookup with the exclusive lock coexists with no reader and no other writer |
| KeyCacheTheorems.Snapshot | security/jwt-auth/src/adapters/security-jwt-auth/rest-jwks-rsa-key-provider.cpp:82-104 | whenever no writer is inside, and whenever a lookup reads, the map is exactly the last successful key set, never a mixture |
| KeyCacheTheorems.NeverEmptied | security/jwt-auth/src/adapters/security-jwt-auth/rest-jwks-rsa-key-provider.cpp:82-104 | between any two moments of a run, once a key set was fetched, by the constructor or by a refresh, the cache is never empty again when no writer is inside or a lookup looks into it |
| KeyCacheTheorems.Progress | security/jwt-auth/src/adapters/security-jwt-auth/rest-jwks-rsa-key-provider.cpp:47-80 | while a lookup is unfinished, some lookup in progress can take a step |
| KeyCacheTheorems.HitNeedsNobody | security/jwt-auth/src/adapters/security-jwt-auth/rest-jwks-rsa-key-provider.cpp:51-57 | with no writer inside, a lookup of a cached key returns its text by its own steps alone, whatever other readers do |
| KeyCacheTheorems.RunsAreBounded | security/jwt-auth/src/adapters/security-jwt-auth/rest-jwks-rsa-key-provider.cpp:47-80 | without new calls a run is no longer than the summed remaining-step measure plus the entries it fetches |
| KeyCacheTheorems.ProviderCalls | security/jwt-auth/src/adapters/security-jwt-auth/rest-jwks-rsa-key-provider.cpp:34-80 | besides the constructor's own call, the provider is called once for each lookup that reached the refresh, never twice for one lookup, and not for lookups answered from the cache |
| KeyCacheTheorems.EmptyAnswerCalledProvider | security/jwt-auth/src/adapters/security-jwt-auth/rest-jwks-rsa-key-provider.cpp:70-79 | when no PEM text is empty, a lookup that threw or returned the empty string called the provider |
| KeyCacheTheorems.EmptyKidFindsNothing | security/jwt-auth/src/adapters/security-jwt-auth/rest-jwks-rsa-key-provider.cpp:47-92 | no reachable cache holds the empty id; a lookup of it always reaches the refresh and never returns a key |
| KeyCacheTheorems.RefreshCoalescing | security/jwt-auth/src/adapters/security-jwt-auth/rest-jwks-rsa-key-provider.cpp:49-76 | from any reachable state, if all later responses succeed and contain a key, all lookups of it together make at most one further provider call, and only the very next call can be theirs |
| Repository.InMemoryRepo.Store | repo/in-memory/src/adapters/repo-in-memory/repo-in-memory.cpp:3-6 | upserts the entity under its id and keeps every row under its own id |
| Repository.InMemoryRepo.Retrieve | repo/in-memory/src/adapters/repo-in-memory/repo-in-memory.cpp:8-16 | the row of the id, if there is one |
| PostgresProofs.OnInMemoryRepo | repo/in-memory/src/adapters/repo-in-memory/repo-in-memory.cpp:3-16 | the sequential repository that the Postgres one is compared with is the in-memory repository's own two methods |
| PostgresManager.PostgresConnectionManager.AttemptOnce | repo/postgres/src/adapters/repo-postgres/impl/postgres-connection-manager.cpp:38-56 | one attempt connects only when there is no connection; it breaks exactly when the called factory or the operation does, succeeds exactly when there was something to operate on and the operation returned, leaves no connection exactly when it had none or the operation broke it, and gives the mutex back |
| PostgresManager.PostgresConnectionManager.WithConnection | repo/postgres/src/adapters/repo-postgres/impl/postgres-connection-manager.cpp:26-57 | at most max_retry_count + 1 attempts; all but the last broke; it returns normally exactly when the last one's operation returned and ends in unavailable exactly when the last allowed one broke too; each attempt after the first calls the factory once |
| PostgresManager.EndingAtExactly | repo/postgres/src/adapters/repo-postgres/impl/postgres-connection-manager.cpp:38-55 | as long as attempts break, each later one starts without a connection, and each ends as the factory and the operation do |
| PostgresProofs.NoReuseAfterBroken | repo/postgres/src/adapters/repo-postgres/impl/postgres-connection-manager.cpp:38-56 | in every run of any number of threads nothing is started or continued on a connection that broke at any earlier step, whichever call it broke for |
| PostgresProofs.ConnectionsConserved | repo/postgres/src/adapters/repo-postgres/impl/postgres-connection-manager.cpp:8-54 | with the mutex free, of all connections that the factory ever made all have broken but the one in place, if any; factory calls are conserved with their failures and null results counted |
| PostgresProofs.OneOperationAtATime | repo/postgres/src/adapters/repo-postgres/impl/postgres-connection-manager.cpp:40-47 | at most one operation is in progress across all threads |
| PostgresProofs.RetryIsBounded | repo/postgres/src/adapters/repo-postgres/impl/postgres-connection-manager.cpp:26-57 | a finished call made at most max_retry_count + 1 attempts, all but the last of which broke; it returned normally exactly when the last one succeeded, threw on exactly when that one failed otherwise, and gave up exactly when all of them broke, which were then max_retry_count + 1 |
| PostgresProofs.AnswersFromSteps | repo/postgres/src/adapters/repo-postgres/impl/postgres-connection-manager.cpp:26-57 | a finished call returned if and only if an attempt of it completed in the run, threw on if and only if one failed otherwise than by a broken connection, and gave up if and only if max_retry_count + 1 of its attempts broke |
| PostgresProofs.Progress | repo/postgres/src/adapters/repo-postgres/impl/postgres-connection-manager.cpp:26-57 | while a call is unfinished, one of the calls in progress can take a step |
| PostgresProofs.RunsAreBounded | repo/postgres/src/adapters/repo-postgres/impl/postgres-connection-manager.cpp:26-57 | every run is finite: each call takes at most 8 steps for each of its max_retry_count + 1 attempts and three more, in any interleaving |
| PostgresProofs.RepositoryLinearizable | repo/postgres/src/adapters/repo-postgres/repo-postgres.cpp:27-52 | every run's results, including those of stores whose commit failed in doubt, are those of a sequential order of repository calls that respects real time and ends in the table |
| PostgresProofs.RefinesInMemoryRepo | repo/postgres/src/adapters/repo-postgres/repo-postgres.cpp:27-52 | the table is the fold of the committed upserts in the order of the mutex; the calls that returned, with the stores that threw after they were committed, behave as on the in-memory repository |
| PostgresProofs.StoreCommitsOnce | repo/postgres/src/adapters/repo-postgres/repo-postgres.cpp:27-35 | a store that returned committed exactly once, one that gave up not at all, and one that threw once or not at all, once exactly when its commit failed in doubt with the upsert visible; a retrieve never commits |
| PostgresProofs.CommittedInDoubt | repo/postgres/src/adapters/repo-postgres/repo-postgres.cpp:29-34 | in every run a call is logged as committed although it threw if and only if its commit failed in doubt with the upsert visible |
| PostgresProofs.StoreThatThrewCommitted | repo/postgres/src/adapters/repo-postgres/repo-postgres.cpp:27-35 | for any table and entity there is a run in which the store throws and the table holds the entity |
| PostgresProofs.RetrieveReadsDuringCall | repo/postgres/src/adapters/repo-postgres/repo-postgres.cpp:37-52 | a retrieve that returned read its row from the table at some moment between its call and its return |
| EntityService.ExtractIdIsGreedyMatch | handler/http/src/adapters/handler-http/handler-http.cpp:36-46 | the extracted id is the second group of the greedy match of the regular expression, and there is none exactly when nothing matches |
| EntityService.PathRoundTrip | handler/http/src/adapters/handler-http/handler-http.cpp:36-46 | the id is read back from the notifier's path if and only if it has no slash and no line break |
| EntityService.JsonRoundTrip | handler/http/src/adapters/handler-http/handler-http.cpp:20-34 | an entity survives the conversion to JSON and back |
| EntityService.FromJsonExactly | handler/http/src/adapters/handler-http/handler-http.cpp:20-34 | a body is read as an entity if and only if its fields of the three names describe that entity, an integer by its low 32 bits; otherwise reading throws |
| EntityService.Core.SetEntity | base/hexagonal-skeleton/src/core/core.cpp:10-26 | checks, then stores, then notifies; a repository that throws, having stored or not, is not followed by a notification, and a notifier that throws does not undo the store |
| EntityService.Core.GetEntity | base/hexagonal-skeleton/src/core/core.cpp:28-38 | the row of a non-empty id, with the error cases, including a repository that throws |
| EntityService.HttpHandler.SetEntity | handler/http/src/adapters/handler-http/handler-http.cpp:102-129 | the new table and the status are those of the PUT specification: malformed bodies, inconsistent and empty ids change nothing, and a repository or notifier that throws gives an error status |
| EntityService.HttpHandler.GetEntity | handler/http/src/adapters/handler-http/handler-http.cpp:76-100 | the response is that of the GET specification, with its error cases, including a repository that throws |
| EntityService.PutExactly | handler/http/src/adapters/handler-http/handler-http.cpp:102-129 | a PUT is accepted if and only if its body describes an entity with the non-empty id of the path and neither the repository nor the notifier throws; it stores exactly that entity unless the repository throws before storing, and any other request changes nothing |
| EntityService.GetExactly | handler/http/src/adapters/handler-http/handler-http.cpp:76-100 | a GET answers the three fields of the path's row, not found when there is none, and the error cases, in terms of the path and the table |
| EntityService.PutThenGet | handler/http/src/adapters/handler-http/handler-http.cpp:76-129 | a GET after an accepted PUT on the same path returns the entity of the PUT's body |
| EntityService.PutFramesGet | handler/http/src/adapters/handler-http/handler-http.cpp:76-129 | no PUT, accepted or not, changes what a GET for another id returns |
| EntityService.NotificationAccepted | notifier/http/src/adapters/notifier-http/notifier-http.cpp:49-54 | the notifier's PUT is accepted exactly for non-empty ids without slash and line break when the repository returns, and stores the entity for these ids unless the repository throws before storing |
| Replication.HttpNotifier.EntityChanged | notifier/http/src/adapters/notifier-http/notifier-http.cpp:37-61 | however many attempts the retry hook is willing to make, the loop leaves the other service with the entity if one of its attempts reached the repository there and as it was otherwise, succeeds exactly on an answered accepted attempt, stops there, and fails only after all these attempts |
| Replication.TablesExactly | base/hexagonal-skeleton/src/core/core.cpp:10-26 | in every run and for every id, the first service holds the entity of the call that stored last, the second one that of the request applied last |
| Replication.AgreementExactly | base/hexagonal-skeleton/src/core/core.cpp:10-26 | in every run and for every id, with no further condition, the services agree if and only if the request applied last carries the entity stored last, or neither happened |
| Replication.StoreThatThrewStops | base/hexagonal-skeleton/src/core/core.cpp:21-25 | a call with a non-empty id whose store threw stays failed in every continuation |
| Replication.CallsExactly | base/hexagonal-skeleton/src/core/core.cpp:10-26 | in every run a call notifies, and returns normally or gives up, only after its own store returned; one whose store threw stops there and has nothing under way; a call returns normally only when the second repository returned for the request of its current attempt; it made one attempt for each request sent |
| Replication.ReplicaAgreement | base/hexagonal-skeleton/src/core/core.cpp:10-26 | over all interleavings of ids, losses, duplicates and throwing repositories, when each request is applied while its call is the one that stored last on the id, an id whose last store was by a call that returned normally has that entity in both services |
| Replication.SerialTimelyInOrder | base/hexagonal-skeleton/src/core/core.cpp:10-26 | in every run in which calls on one id are serial and requests take effect within their calls, each request is applied while its call is the one that stored last |
| Replication.SerialTimelyAgreement | base/hexagonal-skeleton/src/core/core.cpp:10-26 | with serial calls and timely requests, an id whose last store was by a call that returned normally has that entity in both services |
| Replication.ReplicaFollows | base/hexagonal-skeleton/src/core/core.cpp:19-25 | in every run, with or without these conditions, every entity of the second service was stored at the first one before |
| Replication.AttemptsAreBounded | notifier/http/src/adapters/notifier-http/notifier-http.cpp:41-43 | no call makes more than max_retry_count + 1 attempts |
| Replication.AttemptsCanBeUsedUp | notifier/http/src/adapters/notifier-http/notifier-http.cpp:41-43 | the bound is reached: for every number up to max_retry_count + 1 some call makes so many attempts |
| Replication.UnsafeIdNeverNotified | handler/http/src/adapters/handler-http/handler-http.cpp:116-119 | an id with a slash or line break never reaches the second service and is never reported as notified |
| Replication.LateRequestBreaksAgreement | notifier/http/src/adapters/notifier-http/notifier-http.cpp:46-60 | with serial calls, for every acceptable id and any two different entities a late request can leave the services in disagreement after the newer call returned normally: the last store is by the newer call, the last applied request by the older |
| Replication.OverlappingCallsBreakAgreement | base/hexagonal-skeleton/src/core/core.cpp:19-25 | with timely requests, for every acceptable id and any two different entities two overlapping calls can both return normally and leave the services in disagreement, stored in one order and applied in the other |
| Tracing.MSEContextCarrier.Set | observerability/opentelemetry-tracing/src/adapters/observability-opentelemetry-tracing/impl/mse-context-carrier.cpp:13-17 | leaves exactly one entry for the key and every other key alone |
| Tracing.MSEContextCarrier.Get | observerability/opentelemetry-tracing/src/adapters/observability-opentelemetry-tracing/impl/mse-context-carrier.cpp:8-11 | the first entry of the key, or the empty string |
| Tracing.InjectEncodes | observerability/opentelemetry-tracing/src/adapters/observability-opentelemetry-tracing/tracing-request-hook.cpp:128-130 | after injecting a valid span each of its headers has exactly one entry, the span's |
| Tracing.InjectFrames | observerability/opentelemetry-tracing/src/adapters/observability-opentelemetry-tracing/tracing-request-hook.cpp:128-130 | injecting leaves every other key alone, and every key for an invalid span |
| Tracing.InjectedHeaders | observerability/opentelemetry-tracing/src/adapters/observability-opentelemetry-tracing/tracing-request-hook.cpp:35-55 | the headers of a valid span in each of the three formats, name by name |
| Tracing.EncodesIsInjective | observerability/opentelemetry-tracing/src/adapters/observability-opentelemetry-tracing/tracing-request-hook.cpp:35-55 | in all three formats the headers determine the span's identity |
| TracingHook.TracingRequestHook.PreProcess | observerability/opentelemetry-tracing/src/adapters/observability-opentelemetry-tracing/tracing-request-hook.cpp:112-133 | attaches the remote span's context of an incoming request and then the own span's, remembers both tokens, and injects the own span, in this order |
| TracingHook.TracingRequestHook.PostProcess | observerability/opentelemetry-tracing/src/adapters/observability-opentelemetry-tracing/tracing-request-hook.cpp:135-149 | detaches the own span's context, injects whatever is current then (the remote span of an incoming request), and only then detaches the remote context; the hook holds nothing any more |
| TracingHook.TracingRequestHook.Destroy | observerability/opentelemetry-tracing/src/adapters/observability-opentelemetry-tracing/tracing-request-hook.cpp:92-110 | detaches what is still attached, the own context before the remote one as the members are declared, and leaves the headers alone; the hook holds nothing any more |
| TracingHook.Process | observerability/opentelemetry-tracing/src/adapters/observability-opentelemetry-tracing/tracing-request-hook.cpp:102-149 | hooks run on a real thread state follow the tree semantics, including exceptions |
| TracingHook.Balance | observerability/opentelemetry-tracing/src/adapters/observability-opentelemetry-tracing/tracing-request-hook.cpp:92-149 | for every tree of nested requests, throwing or not, completing a request leaves the context stack exactly as before |
| TracingHook.ReverseOrderLeaks | observerability/opentelemetry-tracing/src/adapters/observability-opentelemetry-tracing/tracing-request-hook.cpp:97-98 | with the two scopes declared the other way round the remote context is left behind exactly when only the top can be detached |
| TracingHook.HeaderAgreement | observerability/opentelemetry-tracing/src/adapters/observability-opentelemetry-tracing/tracing-request-hook.cpp:112-149 | in every tree of valid spans, throwing or not, the header encodes the running request's span at every point of its own code if and only if the tree is coherent, a recursion over the spans of the tree; afterwards it encodes the span that the tree determines |
| TracingHook.CoherentExactly | observerability/opentelemetry-tracing/src/adapters/observability-opentelemetry-tracing/tracing-request-hook.cpp:112-149 | with such spans a tree is coherent if and only if it starts with its own span in the header, catches no exception of a nested request it reaches, and names the parents of the nested requests that return |
| TracingHook.HeaderAgreementExactly | observerability/opentelemetry-tracing/src/adapters/observability-opentelemetry-tracing/tracing-request-hook.cpp:112-149 | when no request's span looks like that of a request around it, the header agrees at every point of every tree, throwing or not, if and only if no exception of a nested request is caught and every nested incoming request that returns names the enclosing span |
| TracingHook.CoherentWithoutExceptions | observerability/opentelemetry-tracing/src/adapters/observability-opentelemetry-tracing/tracing-request-hook.cpp:124-146 | without exceptions a tree is coherent if and only if nested incoming requests name the enclosing span as their remote parent |
| TracingHook.NonThrowingHeaderAgreement | observerability/opentelemetry-tracing/src/adapters/observability-opentelemetry-tracing/tracing-request-hook.cpp:124-146 | in a non-throwing tree the header agrees everywhere if and only if nested incoming requests name the enclosing span; it ends at the remote span of an incoming and the enclosing span of an outgoing request |
| TracingHook.CaughtExceptionLeavesHeader | observerability/opentelemetry-tracing/src/adapters/observability-opentelemetry-tracing/tracing-request-hook.cpp:135-149 | after a caught exception of a nested request, however deep it was raised and whatever follows, the header is wrong for the enclosing request unless the span left behind looks like its own; with own spans it always is wrong |
| StopHandshake.NoLostWakeup | handler/google-pubsub/src/adapters/handler-pubsub/handler-pubsub.cpp:35-72 | in every interleaving, with spurious wakeups, no handler is blocked once as many stops have finished as there are handlers |
| StopHandshake.NoLeavingWithoutStop | handler/google-pubsub/src/adapters/handler-pubsub/handler-pubsub.cpp:55-71 | in every interleaving, with spurious wakeups, no handler gets past its wait before a stop has set the flag, and only a stop sets it |
| StopHandshake.TooFewStops | handler/google-pubsub/src/adapters/handler-pubsub/handler-pubsub.cpp:64-72 | the bound is exact: with fewer stops than handlers all stops can finish and leave a handler blocked |
| StopHandshake.HandlersLeave | handler/google-pubsub/src/adapters/handler-pubsub/handler-pubsub.cpp:55-62 | after the flag is set the handlers take a bounded number of their own steps until they return |
| StopHandshake.HandlersCanLeave | handler/google-pubsub/src/adapters/handler-pubsub/handler-pubsub.cpp:35-62 | after enough stops have finished some handler can take a step until all have returned |
| StopHandshake.MutualExclusion | handler/google-pubsub/src/adapters/handler-pubsub/handler-pubsub.cpp:37-70 | at most one thread is inside the mutex: no handler beside a stop, no two handlers and no two stops |

## Left out

- OpenSSL, base64url decoding and PEM writing: foreign calls, replaced by the map described above.
- JSON text parsing and printing: foreign; a body or response is a parsed value or unparsable. Floating-point numbers are not modelled.
- An exception in the middle of copying the key map (out of memory): the assignment is taken to run to its end.
- Network transport: requests with characters that HTTP clients encode or cut off (`?`, `#`, `%`, blanks) are taken to arrive unchanged.
- A Postgres commit in doubt that becomes visible only after its call has thrown: the connection manager and the callers see no more of it.
- Backoff durations and jitter of the retries: only the number of attempts matters.
- The connection manager's overload that passes null pointers to the operation: it exists for its tests.
- An empty factory function: it makes every factory call throw, which the failing factory outcome covers.
- Span status, span end and exporting: they do not touch the context stack or the headers.
- The extraction of a remote span from incoming metadata: the remote span is part of the request.
- The Pub/Sub subscription itself and its message handling: only the stop protocol is modelled.
- The JWT verification hook, OpenID configuration, gRPC and CLI handlers, Pub/Sub notifier, Redis and cloud-storage repositories: field copying and thin wrappers, which would add only easy members.
- Thread safety of the in-memory repository: its documentation says it has none; it serves as the sequential specification.
