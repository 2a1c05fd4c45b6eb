# php-etcd, modelled in Dafny

php-etcd is a PHP client library for the etcd v3 key-value store. This project models its core:

- **`Client`**: one etcd node. It builds the requests `put`, `get`, `delete`, `putIf` and `deleteIf` send, and it decodes their responses. The conditional writes are built as a compare-and-swap transaction in `requestIf`.
- **`FailoverClient`**: a pool of clients. It spreads calls over the pool and counts each host's transient failures. A host whose count reaches `maxRetry` is quarantined in a FIFO. A quarantined host comes back only when no active client is left and some quarantine is older than `holdoffTime`.
- **`ShardedClient`**: routes each key, by consistent hashing, to one client. It caches the choice per key, builds the hash ring lazily and once, and sends lease calls to a random client.
- **The two exception factories**: they turn a gRPC status code into an exception class. A falsy message is replaced by a default one.

Modules, one per file:

| file | module | models |
|---|---|---|
| `wrappers.dfy` | `Wrappers` | `Option`, `Result` |
| `exceptions.dfy` | `Exceptions` | the exception classes as one datatype, PHP truthiness of strings, the default-message rule |
| `status_factory.dfy` | `StatusFactory` | `Exception\Status\ResponseStatusCodeExceptionFactory` |
| `response_factory.dfy` | `ResponseFactory` | `Exception\ResponseStatusCodeExceptionFactory` |
| `host_table.dfy` | `HostTable` | a PHP array keyed by hostname: insertion order, assignment in place, `unset`, and the constructors' `foreach` |
| `etcd.dfy` | `Etcd` | the etcd protobuf messages the client uses |
| `client.dfy` | `EtcdClient` | `Client`: request construction and response decoding |
| `store.dfy` | `EtcdStore` | a reference etcd key-value store, used to state what the client's answers mean |
| `interface.dfy` | `Interface` | the public methods the two routers hand on to a client: the six of `ClientInterface` and the lease, operation-builder and transaction methods they add |
| `failover.dfy` | `Failover` | `FailoverClient`, as a class |
| `sharded.dfy` | `Sharded` | `ShardedClient`, as a class |

Abstractions:

- Each gRPC call is an abstract function from request to `(response, status)`.
- The clock is the input `now`, one value for the whole of one `callClientMethod`.
- `array_rand` is an input index `pick`, read modulo the number of clients.
- The dynamic call `$client->$name(...)` is an input `call(client, attempt)`. It says whether the attempt returns a value or raises an exception.
- Flexihash's `lookup` is an input `lookup(targets, key)`, read as an index into the added targets.

Where the code goes further than its documentation says, or against it, the model follows the code:

- The docblocks of `putIf` and `deleteIf` (`src/Client.php:158-166`, `src/Client.php:200-208`) say only "if $key value matches $previousValue". `requestIf` makes that a VALUE-equality compare, which etcd fails on a missing key. So no `previousValue` means "the key is absent": `EtcdStore.MissingKeyNeverMatches` shows that a conditional write on a missing key is always refused.
- The class comment (`src/FailoverClient.php:14-20`) says a failed client is not used until its hold-off has passed. `getClient` readmits the HEAD of the failed queue as soon as ANY queued entry is past its holdoff, and the test is strict (`now - time > holdoffTime`). `Failover.HeadDecides` shows that, when quarantine times are in order, this is the same as the head being past its holdoff.
- `isLocalCall`'s docblock (`src/FailoverClient.php:299-304`) calls these methods local, meaning they do not call the remote server. Local calls (`getHostname`, `getCompare`, `get*Operation`, `getResponses`) still go through client selection and retry like every other call. Only the reset of the host's counter after success is skipped for them.
- `ClientInterface` documents `@throws InvalidResponseStatusCodeException`, the fine-grained status family (`src/ClientInterface.php:26`). Yet `Client` raises its status errors through the coarse factory (`src/Client.php:92`), which never produces `UnavailableException` or `DeadlineExceededException`. So `FailoverClient` would never retry a `Client` whose RPC returned a status error. In fact `Client` does not implement `ClientInterface` (`src/Client.php:28`), so the constructors refuse it outright (`src/FailoverClient.php:70-71`). Only `NoResponseException` and status exceptions from other clients are retried (`EtcdClient.StatusError`, `ResponseFactory.NeverTransient`).

## Model

| member | source | states |
|---|---|---|
| Exceptions.DefaultMessage | src/Exception/ResponseStatusCodeException.php:23-25 | A message that is not PHP-falsy is kept. A falsy one ("" or "0") becomes "Invalid response status code from gRPC request: " followed by the code as PHP writes it: an optional "-", digits, no leading zero and no "-0", reading back as the code. By `Exceptions.CanonicalUnique` that string is the only one of its form for the code. |
| Exceptions.DigitsRoundTrip | src/Exception/Status/InvalidResponseStatusCodeException.php:23-25 | Reading back the decimal digits of a non-negative code gives the code. |
| Exceptions.DecimalRoundTrip | src/Exception/Status/InvalidResponseStatusCodeException.php:23-25 | PHP's integer-to-string conversion (with "-" for a negative code) reads back as the code. |
| Exceptions.CanonicalDecimal | src/Exception/Status/InvalidResponseStatusCodeException.php:24 | PHP's integer-to-string conversion gives an optional "-", at least one digit, no leading zero except in "0", and never "-0". |
| Exceptions.CanonicalDigits | src/Exception/Status/InvalidResponseStatusCodeException.php:24 | A digit string without a leading zero is exactly the conversion of the number it denotes. |
| Exceptions.CanonicalUnique | src/Exception/Status/InvalidResponseStatusCodeException.php:24 | Every canonical decimal string is the conversion of its own value. So the suffix of a default message is determined by the code. |
| StatusFactory.KindOf | src/Exception/Status/ResponseStatusCodeExceptionFactory.php:24-74 | Codes 1 to 16, and only they, give a named status class. The class's gRPC code is the input code. Every other code, 0 and negatives included, gives `InvalidResponseStatusCodeException`. |
| StatusFactory.GrpcCode | src/Exception/Status/ResponseStatusCodeExceptionFactory.php:24-71 | The grpc-go codes.go table: Canceled 1 to Unauthenticated 16. It gives 0 only for the default class. |
| StatusFactory.KindOfGrpcCode | src/Exception/Status/ResponseStatusCodeExceptionFactory.php:24-71 | Every named class is produced by its table code, and that code lies in 1 to 16. |
| StatusFactory.KindOfInjective | src/Exception/Status/ResponseStatusCodeExceptionFactory.php:24-71 | Distinct codes in 1 to 16 give distinct classes. |
| StatusFactory.GetExceptionByCode | src/Exception/Status/ResponseStatusCodeExceptionFactory.php:20-76 | The result is a status exception of class `KindOf(code)` carrying the input code. Its message follows the default-message rule of `InvalidResponseStatusCodeException`, which every returned class is declared to be. |
| StatusFactory.TransientCodes | src/Exception/Status/ResponseStatusCodeExceptionFactory.php:34-65 | The result is one `FailoverClient` retries exactly when the code is 4 (DeadlineExceeded) or 14 (Unavailable). |
| ResponseFactory.GetExceptionByCode | src/Exception/ResponseStatusCodeExceptionFactory.php:18-27 | The result is an `InvalidArgumentException` exactly for code 3 and a plain `ResponseStatusCodeException` otherwise. Both are `ResponseStatusCodeException`s, carry the code, and take their message by the default-message rule. |
| ResponseFactory.NeverTransient | src/Exception/ResponseStatusCodeExceptionFactory.php:20-26 | No result of the coarse factory is one the failover loop retries. |
| HostTable.AssignHostnames | src/FailoverClient.php:73 | `$clients[$host] = $client` keeps every key where it stands and appends a new key at the end. |
| HostTable.AssignFind | src/FailoverClient.php:73 | After the assignment, the key of the new client holds it and every other key holds what it held. |
| HostTable.AssignDistinct | src/FailoverClient.php:73 | Assignment never makes a hostname a key twice. |
| HostTable.UnsetMembers | src/FailoverClient.php:251 | `unset($clients[$host])` removes exactly the members with that hostname, keeps the others, and keeps keys distinct. |
| HostTable.UnsetAbsent | src/FailoverClient.php:251 | Unsetting a hostname that is not a key changes nothing. |
| HostTable.KeyedDistinct | src/FailoverClient.php:69-74 | The constructor's table has no hostname twice. |
| HostTable.KeyedLastWins | src/FailoverClient.php:69-74 | In the constructor's table, a hostname holds the last client in the list with that hostname. |
| HostTable.KeyedOrder | src/FailoverClient.php:69-74 | The table's keys stand in the order in which their hostnames first occur in the list. |
| HostTable.KeyedHostnames | src/FailoverClient.php:69-74 | The table's keys are exactly the hostnames in the list. |
| HostTable.Collect | src/ShardedClient.php:42-48 | The constructors' `foreach` fails exactly when some element is not a client. Otherwise it yields the table keyed by hostname, a later client replacing an earlier one. |
| EtcdClient.StatusError | src/Client.php:91-93 | A non-zero status becomes a `ResponseStatusCodeException` carrying the status code, never a retried kind. |
| EtcdClient.DecodePut | src/Client.php:91-97 | As written: a non-zero status raises, and `put` fails exactly then or when `prevKv` is set and the response has no previous key-value. On success it answers a value exactly when `prevKv` is set. |
| EtcdClient.DecodePutChecked | src/Client.php:91-97 | Corrected decoding: it fails only on a non-zero status. It answers the previous value exactly when `prevKv` is set and one exists. It agrees with the code as written wherever that succeeds. |
| EtcdClient.DecodeGet | src/Client.php:117-127 | A non-zero status raises. Otherwise the answer is `false` exactly when there is no key-value, else the first key-value's value. |
| EtcdClient.DecodeDelete | src/Client.php:147-155 | A non-zero status raises. Otherwise the answer is true exactly when the deleted count is positive. |
| EtcdClient.BuildTxn | src/Client.php:214-231 | Exactly one compare: the key, `previousValue`, EQUAL, VALUE. No compare ever targets a version. The success branch is exactly `[requestOperation]`. The failure branch is `[range(key)]` with `returnNewValueOnFail` and empty otherwise. |
| EtcdClient.DecodeTxn | src/Client.php:236-255 | A non-zero status raises. Without `returnNewValueOnFail`, or when the transaction succeeded, the answer is the `succeeded` flag. A failed transaction with `returnNewValueOnFail` reads its first response: a null dereference exactly when that response is missing or not a range read, `false` exactly when the range holds no key-value, and otherwise the value of its first key-value. Only this case answers a value. |
| EtcdClient.RequestIf | src/Client.php:210-256 | One `Txn` call whose request is written out: a single VALUE-equality compare on the key, the given operation on success, and a read of the key on failure exactly when `returnNewValueOnFail` is set. The answer is that response decoded by `DecodeTxn`; a non-zero status is thrown exactly when it occurs, and without `returnNewValueOnFail` the answer is always a boolean. |
| EtcdClient.PutIf | src/Client.php:168-178 | The transaction sent puts exactly `(key, value)` on success, with no lease and no flags; without `returnNewValueOnFail` the answer is a boolean. Its meaning against a store is `EtcdStore.PutIfAgainstStore`. |
| EtcdClient.DeleteIf | src/Client.php:189-199 | The transaction sent deletes exactly `key` on success; without `returnNewValueOnFail` the answer is a boolean. Its meaning against a store is `EtcdStore.DeleteIfAgainstStore`. |
| EtcdClient.PutIfSends | src/Client.php:168-177 | `putIf` sends one transaction that compares the key's value with `previousValue`, puts exactly `(key, value)` on success, and decodes the RPC's answer with `requestIf`'s rules. |
| EtcdClient.DeleteIfSends | src/Client.php:189-197 | `deleteIf` sends the value compare with exactly a delete-range of `key` on success, and decodes with `requestIf`'s rule. |
| EtcdStore.GetReadsStore | src/Client.php:107-128 | Against an etcd store, `get` answers the stored value, or `false` for a missing key. |
| EtcdStore.DeleteReportsRemoval | src/Client.php:137-156 | Against a store, `delete` answers whether the key existed, and the key is gone afterwards. |
| EtcdStore.PutPrevKvOnNewKey | src/Client.php:95-97 | As written, `put` with `prevKv` on a key that did not exist dereferences null. |
| EtcdStore.PutReturnsPrevious | src/Client.php:75-98 | With the corrected decoding, `put` answers the previous value exactly when it was asked for and the key existed. A later `get` reads the new value. |
| EtcdStore.CompareHoldsIff | src/Client.php:214-221 | The transaction's compare holds exactly when the key exists with a value equal to `previousValue`. |
| EtcdStore.PutIfAgainstStore | src/Client.php:168-177 | `PutIf`, with the store answering its `Txn` call, writes exactly when the stored value equals `previousValue`. Otherwise it leaves the store as it was and answers `false`, or, with `returnNewValueOnFail`, the current value (`false` for a missing key). |
| EtcdStore.DeleteIfAgainstStore | src/Client.php:189-198 | `DeleteIf`, with the store answering its `Txn` call, removes the key exactly when the stored value equals `previousValue`, and answers like `putIf` otherwise. |
| EtcdStore.MissingKeyNeverMatches | src/Client.php:218 | Whatever `previousValue` is, even "", a conditional write on a missing key is refused and changes nothing. |
| EtcdStore.CompareAndSwapScenario | src/Client.php:210-256 | Put x=1; `putIf(x, 2, 1)` succeeds; `get(x)` reads 2. Then `putIf(x, 3, 1)` is refused, and with `returnNewValueOnFail` it answers the current value 2. |
| Failover.LocalInterfaceCalls | src/FailoverClient.php:305-313 | Of the interface's calls, exactly `getHostname`, `getCompare` and the three `get*Operation` calls are local. `isLocalCall`'s list holds these five names and `getResponses`. |
| Failover.HeadDecides | src/FailoverClient.php:286-293 | With quarantine times in order, some entry being past its holdoff is the same as the head being past it. |
| Failover.EveryClientPickable | src/FailoverClient.php:258-262 | With balancing on, every active client can be the one chosen. |
| Failover.StaleCountPositive | src/FailoverClient.php:286-287 | The termination measure counts a stale entry exactly when one exists. |
| Failover.FailureOfActive | src/FailoverClient.php:242-253 | A transient failure of an active client lowers the retry loop's measure: the pool's remaining headroom drops, or the client moves to the queue as a fresh entry. |
| Failover.Readmission | src/FailoverClient.php:286-292 | Readmitting the head of the queue lowers the count of stale entries, or else the number of entries ahead of the first stale one, whether or not the head is queued again. |
| Failover.QuarantinePartitioned | src/FailoverClient.php:249-252 | Quarantining an active client keeps every host either active or queued once. |
| Failover.CountSaturated | src/FailoverClient.php:244-250 | Counting a failure keeps every quarantined host at or above `maxRetry`. A host quarantined at `maxRetry` is there too. |
| Failover.ReadmitPartitioned | src/FailoverClient.php:288-291 | Readmitting the head into an empty pool keeps the partition between active and queued hosts. |
| Failover.QueueOrdered | src/FailoverClient.php:250 | Appending an entry no older than the queue keeps quarantine times in order. |
| Failover.FailoverClient.constructor | src/FailoverClient.php:32-59 | The defaults: holdoff 120 s, `maxRetry` 3, balancing on, no counters, nothing quarantined. |
| Failover.FailoverClient.Create | src/FailoverClient.php:67-75 | Throws `InvalidClientException("Invalid client in the client list")` exactly when some element is not a client. Otherwise the pool is the list keyed by hostname, a later duplicate replacing an earlier one, with no quarantine, no counters, holdoff 120, `maxRetry` 3 and balancing on. |
| Failover.FailoverClient.SetHoldoffTime | src/FailoverClient.php:217-220 | Sets the holdoff and changes nothing else. |
| Failover.FailoverClient.SetMaxRetry | src/FailoverClient.php:227-230 | Sets `maxRetry` and changes nothing else. Lowering it keeps every quarantined host saturated. |
| Failover.FailoverClient.SetBalancing | src/FailoverClient.php:237-240 | Sets balancing and changes nothing else. |
| Failover.FailoverClient.FailClient | src/FailoverClient.php:242-253 | The host's counter becomes 1 if unset, else one more. At `maxRetry` or above, the client is unset from the pool and `{client, now}` is appended to the queue; otherwise pool and queue are unchanged. Invariants, saturation and time order are kept. |
| Failover.FailoverClient.GetRandomClient | src/FailoverClient.php:258-262 | Returns the active client at the chosen index. |
| Failover.FailoverClient.GetFirstClient | src/FailoverClient.php:269-275 | Returns the first active client in insertion order, or null exactly when there is none. |
| Failover.FailoverClient.GetClient | src/FailoverClient.php:281-297 | With a non-empty pool, it returns the first client (balancing off) or the chosen one (balancing on) and changes nothing. With an empty pool and some entry past its holdoff, it dequeues the head, re-adds it to the pool and returns it. Otherwise it throws `NoClientAvailableException` and changes nothing. The counters never change, so a readmitted host keeps its full count. |
| Failover.FailoverClient.TryClient | src/FailoverClient.php:325-334 | On a returned value, the host's counter is cleared unless the call is local, and nothing else changes. A transient exception is counted with `failClient` and retried. Any other exception passes through with no change to pool, queue or counters. |
| Failover.FailoverClient.Attempt | src/FailoverClient.php:324-334 | One loop pass: select, then try. A retry strictly lowers the termination measure. When every quarantined host has used up its retries, a readmitted host that fails again goes straight back to the tail of the queue. The first pass on a non-empty pool gives exactly the selected client's answer. On an empty pool with a stale head, the head is readmitted and its answer is the result, with the pool holding just that host and the head removed from the queue. |
| Failover.FailoverClient.CallClientMethod | src/FailoverClient.php:322-337 | The loop ends. A transient exception never escapes. A returned value comes from an active client whose counter is cleared unless the call is local. Any other exception is the one the client raised, or `NoClientAvailableException` with no client to try. When the first selected client answers or raises a non-transient exception, that is the result and the state is unchanged except for the counter reset. On an empty pool with a stale head, the readmitted head's first answer, or its non-transient exception, is the result; the pool is then just that host and the queue loses its head. |
| Sharded.RingLookup | src/ShardedClient.php:71 | The ring returns one of its added targets, and throws exactly when none was added. |
| Sharded.Route | src/ShardedClient.php:64-72 | The route with the ring filled from the keys the clients are stored under, as `array_keys` gives them at line 96. A key is routed to a member of the clients, and routing fails exactly when there are no clients. |
| Sharded.FillRing | src/ShardedClient.php:65-68 | Adding names one by one succeeds exactly when no name repeats, and then the ring holds them in order. Otherwise the error is Flexihash's refusal of a name that is already on the ring. |
| Sharded.RouteAsBuilt | src/ShardedClient.php:64-72 | The ring as line 67 fills it, from each client's `getHostname()` answer at that moment. It equals `Route` when every answer is the key the client was stored under. When two answers coincide, the ring refuses the second and a Flexihash exception is thrown. Otherwise it fails, with a `TypeError`, exactly when the ring's choice is no key of the clients. |
| Sharded.RingHostnameDrift | src/ShardedClient.php:47-72 | A client stored under "a" that answers "b" while the ring is built: the keyed route finds it, the ring as built fails. |
| Sharded.RingDuplicateAnswer | src/ShardedClient.php:47-72 | Two clients stored under "a" and "b" that both answer "a" while the ring is built: the keyed route is defined, the ring as built throws. |
| Sharded.JoinAppend | src/ShardedClient.php:96 | `implode` of two non-empty lists is each joined, with the separator between. |
| Sharded.JoinEnds | src/ShardedClient.php:96 | The joined hostnames start with the first hostname and end with the last. |
| Sharded.ShardedClient.Create | src/ShardedClient.php:40-49 | Throws `InvalidClientException("Invalid client in client list.")` exactly when some element is not a client. Otherwise the clients are keyed by hostname, with an empty cache and no ring, and the client routes with the given `lookup`. |
| Sharded.ShardedClient.GetClientFromKey | src/ShardedClient.php:58-74 | The answer is always the key's route, so a key keeps going to the same client. On a cache hit, the cached client is returned and neither cache nor ring changes. Otherwise the ring is built from all hostnames if it was not yet, never rebuilt, built at most once, and the answer is cached under the key. |
| Sharded.ShardedClient.AddTargets | src/ShardedClient.php:66-68 | The ring's targets are the hostnames the clients are keyed by, in insertion order. |
| Sharded.ShardedClient.GetRandomClient | src/ShardedClient.php:81-85 | Returns a member of the clients at the chosen index, and throws exactly when there are none. |
| Sharded.ShardedClient.Delegate | src/ShardedClient.php:91-211 | Every key-bearing call is forwarded unchanged to the key's routed client. `getHostname` with a truthy key is forwarded the same way. With a null, "" or "0" key it answers the hostnames joined by "-" and changes nothing. Lease calls go unchanged to a random member and touch neither cache nor ring. On every path a built ring stays as it was and every cached key keeps its client. |

## Left out

- gRPC transport: `getKvClient`'s lazy connection, channel credentials and `->wait()` are not modelled. Each RPC is an abstract `(response, status)`.
- Flexihash internals: `lookup` is an input, read as an index into the added targets. No consistent-hashing remap bound is claimed. The exception an empty ring throws carries Flexihash's own message, `"No targets exist"`, which comes from the Flexihash library and not from this repository. So does the message of `addTarget` refusing a target already on the ring (`Sharded.DuplicateTargetMessage`).
- The `ValueError` message of `array_rand` on an empty array (`Sharded.EmptyArrayMessage`) and the `TypeError` message of a null return (`Sharded.ReturnTypeMessage`) are PHP 8 runtime texts, not texts of this repository.
- The routers' lease methods (`getLeaseID`, `revokeLeaseID`, `refreshLease`) and `getResponses` are routed, but what the client behind them does is not modelled: `Client` in this repository has no such methods. Of `src/ClientInterface.php`, only its six method names are used, as the first six `Interface.Call` constructors.
- The etcd store model ignores leases, `ignoreLease` and `ignoreValue`. The client only ever sends them through `put`, whose decoding does not depend on them.
- `previousValue` and `value` are strings. PHP's coercion of other types in `setValue` is not modelled.
- StatusFactory.GetExceptionByCode: the files of the sixteen classes `CanceledException` to `UnauthenticatedException` are not part of this model. They are taken to be subclasses of `InvalidResponseStatusCodeException` that inherit its constructor, as the factory's `@return InvalidResponseStatusCodeException` (`src/Exception/Status/ResponseStatusCodeExceptionFactory.php:20`) indicates. So every class applies the default-message rule, and a class that overrode its constructor would differ from the model on a falsy message.
- Failover.FailoverClient.SetHoldoffTime: requires a non-negative holdoff. With a negative holdoff a readmitted host is immediately past its holdoff again, and the loop may not end.
- Failover.FailoverClient.FailClient: requires the failed client to be in the pool. Its only caller passes the client just selected.
- Failover.FailoverClient.CallClientMethod: reads the clock once per call. The code reads it at every failure and readmission; with a clock that does not stand still, termination is not claimed.
- Failover.FailoverClient.CallClientMethod: the trailing `throw new \Exception('Failed to call: ...')` cannot be reached, because `getClient` returns a client or throws, so it is not modelled.
- Failover.FailoverClient.GetFirstClient: PHP's internal array pointer behind `current()` is taken to be at the first entry.
- Each public method of `FailoverClient` is `callClientMethod` under its own name. They are covered by `CallClientMethod` with that name, not one by one.
- Sharded.Route: takes each client's `getHostname()` to answer, every time, the hostname it was stored under at `src/ShardedClient.php:47`. The code asks again at line 67, and a client whose answer changes breaks routing (see Findings). The class `ShardedClient` uses this keyed route throughout. It also excludes a `getHostname()` that throws while the ring is being filled, such as a nested `FailoverClient` raising `NoClientAvailableException`. `$this->hash` is already set by then (line 65), so the code keeps the partial ring and never rebuilds it.
- Failover.FailoverClient.FailClient: takes each client's `getHostname()` to answer, every time, the hostname it was stored under at `src/FailoverClient.php:73`. The code asks again at lines 244-251, 291 and 327. For a nested `FailoverClient` with balancing on, those answers can differ, so the counter and the `unset` may hit another key. This is not modelled.
- EtcdClient.DecodeTxn: a failed transaction whose first response is missing or not a range read is modelled as a null dereference. etcd always answers a range read there.

## Findings

| source | as written | input that shows it | evidently intended | confidence | as-written member | corrected member |
|---|---|---|---|---|---|---|
| src/Client.php:95-97 | With `prevKv` set, `put` returns `$response->getPrevKv()->getValue()`. etcd omits `prev_kv` when the key did not exist, so `getPrevKv()` is null. | `put("new-key", "v", true)` on a key that does not exist | return null (no previous value) | not executed | EtcdClient.DecodePut, EtcdStore.PutPrevKvOnNewKey | EtcdClient.DecodePutChecked, EtcdStore.PutReturnsPrevious |
| src/ShardedClient.php:66-72 | The ring is filled from fresh `getHostname()` answers, but clients are looked up by the keys stored at line 47. A client whose answer changes, such as a `FailoverClient` with balancing on, can put a name on the ring that is no key. `$this->clients[$clientHostname]` is then null, and the `ClientInterface` return type throws a `TypeError`. Two clients giving the same answer make `addTarget` throw instead. | A `ShardedClient` over one `FailoverClient` with balancing on and inner hosts "a" and "b". It is stored under "a", then answers "b" while the ring is built. | Fill the ring from `array_keys($this->clients)`, as `getHostname()` does at line 96. | medium, not executed | Sharded.RouteAsBuilt, Sharded.RingHostnameDrift, Sharded.RingDuplicateAnswer | Sharded.Route, Sharded.ShardedClient.GetClientFromKey |
