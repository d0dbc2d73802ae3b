# XAPI client and Redis collection, modelled in Dafny

This project models two parts of the repository.

**The resilient XAPI client (`src/xapi.js`).** It is one object holding a host, an XML-RPC
client, the session promise `_sessionId` and one Fibonacci backoff object. It offers
`call(method, ...args)`, which:
- puts the session id in front of the arguments;
- unwraps the XAPI envelope of the response;
- moves to the pool master on `HOST_IS_SLAVE`;
- backs off and retries on five transient codes;
- logs in again and starts over on `SESSION_INVALID`;
- rethrows every other error.

The model has four modules:
- `XapiProtocol`: responses, errors, unwrapping and routing.
- `BackOff`: the backoff object and the promise bridged to it.
- `XapiSpec`: `connect`, `_logIn`, `_call` and `call` as functions of a `State`. The server is a script of replies consumed one per request, and the requests sent are logged.
- `XapiClient.Xapi`: a class whose fields are the object's fields. Its methods update them in place and are proved to compute the `XapiSpec` functions.

`XapiProperties` proves what the client does over those functions.

**The Redis-backed collection (`src/collection/redis.js`).** It is a keyed model store with secondary indexes over four kinds of keys:
- `prefix_id`, a counter;
- `prefix_ids`, the set of identifiers;
- `prefix_index:value`, the index sets;
- `prefix:id`, one hash per model.

The model has four modules:
- `RedisStore`: the server, with counters, sets (duplicate-free, in insertion order) and hashes, plus the commands the collection sends.
- `RedisCollection`: the key scheme, the options, and `_extract`, `_get`, `_add`, `_update` and `_remove` as functions of the store.
- `RedisClient.Redis`: a class whose `db` field is the server. Its methods run the commands one after another and are proved to compute the `RedisCollection` functions.
- `RedisProperties`: the properties proved about them. These cover:
  - what `_get` returns, sound and complete against the index sets;
  - the identifiers drawn;
  - the refusal of existing models;
  - the stale index sets left by `_update` and `_remove`.

Some behaviours of the code that the model keeps:
- Nothing is coalesced: each `SESSION_INVALID` starts its own login (`RepeatedSessionInvalid`).
- A redirect calls `connect()` unforced, so it logs in again at the master (`RedirectReconnects`). When the master's hostname is the one in use, `connect()` returns `undefined` and the redirect fails with a TypeError (`RedirectToSameHostnameFails`).
- The backoff promise is resolved by the first `ready`, so the `fail` rejection after ten backoffs never reaches a caller (`GiveUpNeverReachesCaller`, `TransientFailuresNeverThrow`).
- One backoff object is shared by all the calls of a client.

## Model

| member | source | states |
|---|---|---|
| XapiProtocol.Settle | src/xapi.js:116-131 | an object without `Status` passes through unchanged; `undefined` or a string makes `'Status' in result` throw a TypeError; a `'Success'` envelope yields its `Value`; any other status throws exactly its `ErrorDescription`; a transport error is thrown as it is |
| XapiProtocol.ErrorCode | src/xapi.js:133 | the routing code is `error.code` when present, otherwise `error[0]`, and undefined when neither exists |
| XapiProtocol.ClassifyAsWritten | src/xapi.js:133-158 | as written, an error is retried exactly when its code is one of the five transient codes or a name inherited from `Object.prototype` |
| XapiProtocol.Classify | src/xapi.js:133-158 | corrected routing: redirect exactly on `HOST_IS_SLAVE`, towards `error[1]`; retry exactly on ECONNRESET, ECONNREFUSED, EHOSTUNREACH, HOST_STILL_BOOTING, HOST_HAS_NO_MANAGEMENT_IP; rethrow otherwise |
| XapiProtocol.InheritedNameIsRetried | src/xapi.js:144-151 | an XAPI error coded `toString` is retried by the code as written and rethrown by the corrected routing |
| XapiProtocol.ClassifyDiffersOnlyOnInheritedNames | src/xapi.js:144-151 | the two routings differ exactly on codes that are inherited names |
| BackOff.Delay | src/xapi.js:30-33 | every delay lies between the initial delay 100 and the maximum 10000 |
| BackOff.DelayMonotone | src/xapi.js:30-33 | the Fibonacci delays never shrink from one backoff to the next |
| BackOff.Start | src/xapi.js:27-34 | the backoff object starts at number 0 with the configured `failAfter` limit, no promise and no timer |
| BackOff.Reset | src/xapi.js:129 | `reset()` sets the number back to 0 and changes nothing else |
| BackOff.Backoff | src/xapi.js:36-48 | below the limit the number goes up by one, a timer with the next delay is armed, and a new promise is created only on number 0; at the limit the object goes back to 0 |
| BackOff.GiveUpNeverReachesCaller | src/xapi.js:36-48 | the promise the caller waits on is always resolved, so the caller always loops again |
| BackOff.ConsecutiveBackoffs | src/xapi.js:30-45 | up to `failAfter` backoffs from 0 arm the delays Delay(0), Delay(1), ... in order, and only the first creates a promise |
| BackOff.BackoffsWrapAround | src/xapi.js:34-48 | `failAfter + 1` backoffs from 0 bring the object back to 0, having armed exactly the first `failAfter` delays |
| XapiSpec.ParseHost | src/xapi.js:62-64 | the hostname is the host up to its first colon and the port is what follows it, or empty without a colon |
| XapiSpec.EndpointFor | src/xapi.js:74-78 | the client targets the parsed hostname, on port 443 unless the host names one, with certificates unchecked |
| XapiSpec.Initial | src/xapi.js:21-51 | the object `new Xapi` builds before `connect()`: the given credentials, no client, no session, no login and no request yet, and a backoff at number 0 whose limit is `failAfter` |
| XapiSpec.Create | src/xapi.js:21-54 | after the constructor the credentials are unchanged, at least one login was started, and the first request sent is the login with the credentials to the endpoint of the configured host; ConnectLogsIn and LoginRetriedUnderBackoff give the whole state |
| XapiSpec.Call | src/xapi.js:84-105 | a failed `_sessionId` is returned as it is without a request; a value is returned only after a server answer; requests are only appended and the credentials never change; SessionAccepted, RenewalRound, RepeatedSessionInvalid, FailedRenewalPropagates and FailedLoginIsSticky give its results |
| XapiSpec.CallRaw | src/xapi.js:107-161 | `_call` never lowers the login count and either consumes at least one reply or ends with no reply, or with the TypeError of a missing client; with a client, its own request is the first one it sends; it only appends requests and keeps the credentials |
| XapiSpec.Recover | src/xapi.js:131-159 | the catch handler of `_call` consumes replies, never lowers the login count, only appends requests and keeps the credentials |
| XapiSpec.Connect | src/xapi.js:59-81 | `connect` consumes replies, never lowers the login count, only appends requests and keeps the credentials |
| XapiSpec.LogIn | src/xapi.js:163-170 | every `_logIn` counts one more login started, and its first request is the login method with the credentials to the current client; the credentials are kept |
| XapiClient.Xapi.constructor | src/xapi.js:21-54 | the new client is configured and has run `connect()`, with the state XapiSpec.Create describes |
| XapiClient.Xapi.Connect | src/xapi.js:59-81 | updates the fields as XapiSpec.Connect describes and returns its result |
| XapiClient.Xapi.LogIn | src/xapi.js:163-170 | updates the fields as XapiSpec.LogIn describes and returns its outcome |
| XapiClient.Xapi.CallRaw | src/xapi.js:107-161 | the retry loop of `_call` updates the fields as XapiSpec.CallRaw describes and returns its outcome |
| XapiClient.Xapi.Call | src/xapi.js:84-105 | the session-renewal loop of `call` updates the fields as XapiSpec.Call describes and returns its outcome |
| XapiProperties.PlainResponsePassesThrough | src/xapi.js:117-121 | an object without `Status` is returned unchanged after one request, and the backoff is not reset |
| XapiProperties.NonObjectResponseThrows | src/xapi.js:116-155 | a response that is `undefined` or a string ends the call with the TypeError of `'Status' in result`, after one request and without backing off |
| XapiProperties.SuccessResetsBackOff | src/xapi.js:123-130 | a `'Success'` envelope returns `Value` after one request and resets the backoff |
| XapiProperties.FailedStatusThrowsDescription | src/xapi.js:123-127 | any other status behaves exactly as if the transport had failed with the `ErrorDescription` |
| XapiProperties.OtherErrorsPropagateAtOnce | src/xapi.js:144-155 | an error that is neither a redirect nor transient is rethrown unchanged after one request, with no retry, no backoff and no reconnection |
| XapiProperties.RetriesUntilSuccess | src/xapi.js:144-158 | after any number of transient failures a success is returned: the same request is reissued once per failure, the backoff steps once per failure and is then reset |
| XapiProperties.TransientFailuresNeverThrow | src/xapi.js:36-48 | a server that only fails transiently is asked again after every failure, past `failAfter`, and no error ever reaches the caller |
| XapiProperties.RedirectReconnects | src/xapi.js:135-141 | on `HOST_IS_SLAVE` naming another hostname, the host becomes `error[1]`, a new client logs in there, and once that login succeeds the same request is reissued; a failed login ends the call |
| XapiProperties.RedirectReissuesSameArguments | src/xapi.js:135-141 | after a redirect and a successful login the reissued request carries the identical arguments, hence the old session id, and `_sessionId` holds the new session |
| XapiProperties.RedirectToSameHostnameFails | src/xapi.js:67-70 | when the master has the hostname in use, `connect()` returns `undefined` and the call fails with a TypeError after one request |
| XapiProperties.RedirectedLoginKeepsNestedSession | src/xapi.js:163-169 | a login redirected to the master logs in twice: the nested login settles `_sessionId`, and the replayed login's session is only returned |
| XapiProperties.ConnectKeepsCurrentClient | src/xapi.js:67-70 | unforced, `connect` does nothing while the client points at the host's hostname |
| XapiProperties.ConnectLogsIn | src/xapi.js:72-80 | forced, or on another hostname, `connect` with an accepted login targets the host's endpoint, sends the one login request there with the credentials, stores the new session and returns it |
| XapiProperties.LoginRetriedUnderBackoff | src/xapi.js:53 | a new client logs in at once, and a login refused twice with ECONNREFUSED is retried under the backoff until it stores the session: three identical login requests, the timers of backoffs 0 and 1 armed (only the first under a limit of 1), one deferred created, and the backoff reset |
| XapiProperties.FailedLoginIsSticky | src/xapi.js:91 | while `_sessionId` holds a failed login, every call fails with that error without contacting the server |
| XapiProperties.LogInAccepted | src/xapi.js:163-169 | an accepted login stores the new session in `_sessionId` and resets the backoff |
| XapiProperties.LogInRefused | src/xapi.js:163-169 | a login refused with an error that is not retried leaves that failure in `_sessionId` |
| XapiProperties.SessionRejected | src/xapi.js:95-99 | a call answered with `SESSION_INVALID` goes on with a new login after the one request carrying the old session |
| XapiProperties.SessionAccepted | src/xapi.js:91-95 | a call the server accepts returns its value after the one request carrying the session |
| XapiProperties.RenewalRound | src/xapi.js:95-99 | one `SESSION_INVALID` followed by an accepted login restarts the call with the new session |
| XapiProperties.RepeatedSessionInvalid | src/xapi.js:90-104 | N `SESSION_INVALID` answers, each followed by an accepted login, then a success: the call returns it after exactly N logins, each replay carrying the latest session |
| XapiProperties.FailedRenewalPropagates | src/xapi.js:98 | when the login after `SESSION_INVALID` fails, the call ends with that failure, which `_sessionId` keeps |
| RedisStore.Incr | src/collection/redis.js:98 | INCR raises the counter by one and answers its new value; nothing else changes |
| RedisStore.SAdd | src/collection/redis.js:110 | SADD answers whether the member was new and adds it to that set only |
| RedisStore.SRem | src/collection/redis.js:218 | SREM without members is refused with the arity error; otherwise it removes them and answers 0 exactly when none was a member |
| RedisStore.Del | src/collection/redis.js:219 | DEL without keys is refused with the arity error; otherwise it deletes the hashes and answers 0 exactly when none existed |
| RedisStore.HMSet | src/collection/redis.js:132 | HMSET without fields is refused with the arity error; otherwise the fields are merged into the hash, the new values winning |
| RedisStore.SInter | src/collection/redis.js:189 | SINTER answers exactly the members common to every set named |
| RedisStore.Decimal | src/collection/redis.js:98-99 | the decimal text of a counter value is never empty |
| RedisStore.DecimalInjective | src/collection/redis.js:98-99 | different counter values give different identifiers |
| RedisCollection.IndexKeyIsNotIdsKey | src/collection/redis.js:13-18 | no index set shares its key with `prefix_ids` |
| RedisCollection.HashKeyInjective | src/collection/redis.js:18 | a hash key names exactly one identifier |
| RedisCollection.HashKeys | src/collection/redis.js:210-214 | the keys `_remove` deletes are the hashes of the identifiers, in order |
| RedisCollection.Configure | src/collection/redis.js:29-50 | construction fails with 'missing option: prefix' exactly when there is no prefix; `uri` defaults to `tcp://localhost:6379` and `indexes` to `[]` |
| RedisCollection.Model | src/collection/redis.js:69-71 | a stored model has the identifier mixed in |
| RedisCollection.Found | src/collection/redis.js:61-78 | keeps exactly the identifiers whose hash is not empty |
| RedisCollection.Extract | src/collection/redis.js:55-80 | `_extract` returns, position by position, the stored models of the identifiers whose hash is not empty |
| RedisCollection.IdOf | src/collection/redis.js:170 | `properties.id` is present exactly when some key is `id` |
| RedisCollection.WithoutId | src/collection/redis.js:171 | after `delete properties.id` exactly the other properties remain |
| RedisCollection.Unfit | src/collection/redis.js:180 | the unfit fields are exactly the queried keys that are not configured indexes |
| RedisCollection.IndexKeys | src/collection/redis.js:186-188 | one index set per queried property, in order |
| RedisCollection.Get | src/collection/redis.js:157-202 | `_get` fails with 'not indexed fields' exactly when a property other than `id` is not an index; with an `id` it returns at most one model |
| RedisCollection.IndexKeysOf | src/collection/redis.js:136-145 | the index sets of a model are exactly those of the configured indexes it has a value for, and never `prefix_ids` |
| RedisCollection.AddToSets | src/collection/redis.js:136-145 | the identifier joins exactly the sets named and no other |
| RedisCollection.Number | src/collection/redis.js:95-106 | a model without `id` takes the counter's next value and the counter moves; a model with one keeps it and the counter |
| RedisCollection.Write | src/collection/redis.js:118-147 | every property but `id` is merged into `prefix:id`, which is refused when there is none; the identifier joins the model's index sets even then; `prefix_ids` and the counter are untouched |
| RedisCollection.AddOne | src/collection/redis.js:92-152 | the model gets its identifier, which ends up in `prefix_ids`; it is refused with 'cannot add existing model' exactly when the identifier was listed and replace mode is off |
| RedisCollection.AddAll | src/collection/redis.js:82-155 | `_add` returns one model per model given and keeps sets duplicate-free and hashes non-empty |
| RedisCollection.RemoveAll | src/collection/redis.js:204-223 | `_remove` without identifiers is refused and changes nothing; otherwise the identifiers leave `prefix_ids` and their models are gone; every index set, the counter and the other models are unchanged |
| RedisClient.Redis.Create | src/collection/redis.js:29-51 | construction is refused with 'missing option: prefix' exactly when Configure refuses; otherwise the collection holds the configured options |
| RedisClient.Redis.Extract | src/collection/redis.js:55-80 | the HGETALL loop returns what RedisCollection.Extract describes |
| RedisClient.Redis.Get | src/collection/redis.js:157-202 | returns what RedisCollection.Get describes |
| RedisClient.Redis.GetIndexed | src/collection/redis.js:179-201 | for a query with a property other than `id`, the index path returns what RedisCollection.Get describes, hence what GetSound and GetComplete state |
| RedisClient.Redis.AddToIndexes | src/collection/redis.js:136-145 | the SADD loop over the indexes leaves the store as RedisCollection.AddToSets describes |
| RedisClient.Redis.Write | src/collection/redis.js:118-147 | the HMSET and the SADDs leave the store and the failure as RedisCollection.Write describes |
| RedisClient.Redis.AddModel | src/collection/redis.js:92-152 | one model's chain writes the identifier into the model in place and leaves the store as RedisCollection.AddOne describes |
| RedisClient.Redis.Add | src/collection/redis.js:82-155 | the loop over the models array updates it in place and leaves the store as RedisCollection.AddAll describes; it rejects with the batch's failure |
| RedisClient.Redis.Update | src/collection/redis.js:225-228 | `_update` is `_add` in replace mode |
| RedisClient.Redis.Remove | src/collection/redis.js:204-223 | the key loop, SREM and DEL leave the store and answer as RedisCollection.RemoveAll describes |
| RedisProperties.IndexKeyInjective | src/collection/redis.js:16-17 | two index keys are equal only for the same index and value, when index names contain no colon |
| RedisProperties.ExtractKeepsOrder | src/collection/redis.js:61-78 | `_extract` of two lists is the `_extract` of each, concatenated: input order is kept |
| RedisProperties.ExtractMembers | src/collection/redis.js:55-80 | `_extract` returns exactly the stored models of the identifiers given |
| RedisProperties.GetEverything | src/collection/redis.js:162-167 | with no property, `_get` returns exactly the stored models listed in `prefix_ids` |
| RedisProperties.GetById | src/collection/redis.js:173-177 | with only `id`, `_get` returns that model when it is stored and nothing otherwise |
| RedisProperties.GetReturnsStored | src/collection/redis.js:157-202 | every model `_get` returns is a stored model, with its identifier |
| RedisProperties.GetSound | src/collection/redis.js:179-201 | when no index set is stale, every model returned has all the queried values |
| RedisProperties.GetComplete | src/collection/redis.js:179-201 | when every model is listed under its indexed values, every stored model with all the queried values is returned |
| RedisProperties.AddOneNumbers | src/collection/redis.js:96-101 | a model without `id` takes the counter's value plus one and the counter moves by one; a model with one is unchanged and so is the counter |
| RedisProperties.RefusedAddWritesNothing | src/collection/redis.js:112-116 | a refused model changes no set and no hash |
| RedisProperties.AddOneStoresHash | src/collection/redis.js:120-133 | an accepted model's properties other than `id` are merged into its hash |
| RedisProperties.AddOneKeepsOtherHash | src/collection/redis.js:120-133 | an accepted model leaves every other hash alone |
| RedisProperties.AddOneListsId | src/collection/redis.js:108-145 | an accepted identifier joins `prefix_ids` and the index set of each configured index the model has, and no other set |
| RedisProperties.AddThenGetById | src/collection/redis.js:92-177 | a new model with a property, once added, is read back by `id` exactly as `_add` returned it |
| RedisProperties.UpdateMerges | src/collection/redis.js:118-132 | `_update` overwrites the properties it is given and keeps the other stored ones |
| RedisProperties.AddAllNumbers | src/collection/redis.js:92-101 | models without `id` in one `_add` get consecutive identifiers from the counter's next value |
| RedisProperties.AddAllIdsDistinct | src/collection/redis.js:92-101 | the identifiers drawn in one `_add` are all different |
| RedisProperties.AddAllFails | src/collection/redis.js:147-154 | `_add` rejects exactly when one model's chain does, with one of their failures |
| RedisProperties.AddOneKeepsCover | src/collection/redis.js:118-145 | one model's chain in `_add` keeps every stored model listed under its indexed values |
| RedisProperties.AddAllKeepsCover | src/collection/redis.js:82-155 | a whole `_add` batch, and so `_update`, keeps every stored model listed under its indexed values, as GetComplete needs |
| RedisProperties.AddNewKeepsAgree | src/collection/redis.js:118-145 | adding a model with a new identifier keeps every index set accurate, when index names contain no colon |
| RedisProperties.StaleIndexAfterUpdate | src/collection/redis.js:118-145 | `_update` leaves the model in the index set of its old value: a query on that value returns the model, whose value is the new one, and the index is no longer accurate |
| RedisProperties.RemovedAreGone | src/collection/redis.js:204-223 | after `_remove` no query returns a removed model |
| RedisProperties.RemoveThenGetById | src/collection/redis.js:204-223 | reading a removed model back by `id` gives nothing |
| RedisProperties.AbsentNeverReturned | src/collection/redis.js:62-67 | no query returns a model without a hash |
| RedisProperties.RemoveKeepsIndexes | src/collection/redis.js:216-220 | `_remove` keeps index sets accurate and complete, because it only takes models away |

## Left out

- Timers are not modelled. `ready` fires as soon as a backoff is armed, before the retried request is answered; the source does not guarantee that order, and RetriesUntilSuccess and TransientFailuresNeverThrow depend on it. The armed delays are recorded, but they are not waits in the source: the first `ready` of a sequence resolves the backoff promise, so from the second backoff of the sequence on, `promise.then(loop)` retries at once without waiting for the timer. If that retry fails with a transient code before the armed timer fires, `backoff()` is called while a backoff is in progress; that order, and what the `backoff` library does in that case, are not modelled.
- The `backoff` library is reduced to the listeners the client installs, plus the number and `failAfter` semantics. The limit is a parameter (`failAfter`), set to 10 by the source.
- The q and bluebird promise scheduling is not modelled, nor is any interleaving of concurrent calls. Calls run one at a time against a server that answers from a script, consumed one reply per request. A request that gets no reply ends the call with `NoReply`.
- The XML-RPC transport and TLS are not modelled. A client is its endpoint options: hostname, port and `rejectUnauthorized`.
- `parseUrl` is reduced to splitting at the first colon (`ParseHost`).
- `connect` deletes `this.sessionId`, a property nothing reads. It is not modelled; `_sessionId` is replaced only by the next login.
- Values are `undefined`, text, or objects with text members. Errors are a code with a description list, or a TypeError the runtime raises. Other JavaScript values (numbers, booleans, `null`, nested objects) are not modelled.
- XapiSpec.CallRaw: `_call` is modelled with the intended routing (`Classify`), not with the `in` test as written. For a code inherited from `Object.prototype`, such as `toString`, the source backs off and retries where the model rethrows; `ClassifyAsWritten` and `InheritedNameIsRetried` record the difference (see Findings).
- XapiSpec.Recover: routes with `Classify`, for the same reason as XapiSpec.CallRaw.
- XapiClient.Xapi.CallRaw: computes XapiSpec.CallRaw, so it too rethrows where the source retries on an inherited name.
- XapiClient.Xapi.Call: runs `_call` through XapiClient.Xapi.CallRaw, with the same routing.
- RedisCollection.AddAll: runs the models' chains one after another. In the source they interleave, and `Promise.all` rejects with whichever failure settles first; the contract says only that the failure is one of the models' failures (`AddAllFails`). One consequence of the interleaving is not captured: when a model with its own `id` follows a model without one, its `Promise.cast().then(sadd)` sends its SADD before the earlier model's INCR is answered, so when the drawn identifier equals the given one the source refuses the earlier (numbered) model, where the model refuses the later (given) one.
- RedisClient.Redis.Remove: sends SREM and then DEL. When both are refused, the failure reported is SREM's.
- The then-redis client, connecting to `uri` and the `connection` option are not modelled. The store is a parameter of the collection.
- RedisStore.Incr: the counter is an unbounded natural number. Redis refuses INCR beyond 2^63-1, and JavaScript numbers lose precision beyond 2^53; neither limit is modelled.
- Redis values are not coerced to strings. Every identifier and value is a string, so the number INCR returns appears as its decimal text (`Decimal`). Properties whose value is `undefined` are not modelled.
- The base collection that `Redis.super_` calls (src/collection.js) is not part of this model. Neither are `util.inherits` and `extendable`.
- `_get` deletes `id` from the caller's object. The model returns the answer only and does not model that change to the argument.
- The `throw` of 'not indexed fields' happens synchronously in the source. The model returns it as the error result.
- Redis leaves the order of SMEMBERS and SINTER unspecified. The model fixes insertion order, and the first set's order for SINTER.
- Index names containing `:` are not handled. Then `prefix_a:b:c` is both index `a` with value `b:c` and index `a:b` with value `c`, so AddNewKeepsAgree assumes index names without a colon.

## Findings

| source | as written | input that shows it | evidently intended | confidence | as-written member | corrected member |
|---|---|---|---|---|---|---|
| src/xapi.js:144-151 | `code in { ECONNRESET: true, ... }` also holds for every name an object literal inherits from `Object.prototype` | an XAPI error `['toString']`, or a transport error whose `code` is `constructor` | back off only on the five listed codes, and rethrow every other error at once | high; not executed | XapiProtocol.ClassifyAsWritten (XapiProtocol.InheritedNameIsRetried) | XapiProtocol.Classify |
