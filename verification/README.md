# ACL decision engine of `AivenAclAuthorizer`, modelled in Dafny

This project models the access-control decision engine of the Aiven Kafka
authorizer (`io.aiven.kafka.auth.AivenAclAuthorizer`). The authorizer's four
mutable fields become one immutable record,
`State(entries, cache, lastModified, lastCheck)`. Its operations become pure
functions of that record, of a clock reading `now` in milliseconds, and of a
`Source` snapshot of the configuration file. The file is a marker (its
`lastModified` value) plus either the parsed entry list or `None` when reading
or parsing fails.

- `Acl` (acl.dfy): the configuration entries, the request, and the rule scan.
  `AivenAclEntry.check` is not part of this model. It is kept uninterpreted as
  a `Matcher` parameter, so no wildcard or prefix grammar is assumed. `Granted`
  is the reference meaning of an entry list: some entry grants the request.
- `CacheKeys` (cache_keys.dfy): verdict-cache keys. It covers both the
  source's string key and the structural key the model uses (see Findings).
- `Authorizer` (authorizer.dfy): the state machine. `CheckAndUpdateConfig`,
  `Configure`, `ReloadAcls`, the stale refresh, the fresh path `Decide`,
  `CheckAcl` with its freshness loop, and `authorize`'s request formation. It
  also defines the state invariant `Valid`, which combines the cache policy
  with cache coherence.
- `AuthorizerProofs` (authorizer_proofs.dfy): lemmas. They show that every
  step keeps `Valid`, that the cache never changes a verdict, that the
  freshness loop refreshes at most once, and the behaviour on failed reloads.

A scan over a never-loaded entry list throws a `NullPointerException` in the
source. It is the `NoEntries` outcome here. A first load can fail because the
file is missing (marker 0 equals the initial record, so nothing is read) or
because it does not parse.

Two behaviours of the code that are easy to miss:
- After a failed parse the recorded marker still moves to the file's marker
  (line 84). So `reloadAcls` reports `true` for a changed file that did not
  parse (`AuthorizerProofs.ReloadAclsReportsFailedParse`). The broken file is
  not retried until its marker changes again.
- An absent principal becomes Kafka's `ANONYMOUS` principal, whose type is
  `User`. Its verdicts are therefore cached like any user's
  (`AuthorizerProofs.AnonymousRequestsAreCached`).

## Model

| member | source | states |
|---|---|---|
| Acl.Scan | src/main/java/io/aiven/kafka/auth/AivenAclAuthorizer.java:161-167 | the first-match scan returns true iff some entry's check accepts the request; an empty list denies |
| Acl.GrantedIgnoresOrder | src/main/java/io/aiven/kafka/auth/AivenAclAuthorizer.java:161-167 | entry lists with the same multiset of entries grant the same requests; order only affects early exit |
| Acl.GrantedAppend | src/main/java/io/aiven/kafka/auth/AivenAclAuthorizer.java:161-167 | a concatenated list grants iff one of its parts grants, so extra entries never revoke access |
| CacheKeys.KeyFor | src/main/java/io/aiven/kafka/auth/AivenAclAuthorizer.java:135-138 | a key exists iff the principal type is User, and it leads back to exactly the request it was built from |
| CacheKeys.KeyForInjective | src/main/java/io/aiven/kafka/auth/AivenAclAuthorizer.java:135-138 | two keyed requests with the same structural key are the same request |
| CacheKeys.KeyString | src/main/java/io/aiven/kafka/auth/AivenAclAuthorizer.java:137 | the source's key string: resource, then a bar, then the other fields, with principal type last, total length the fields plus three separators |
| CacheKeys.KeyStringNotInjective | src/main/java/io/aiven/kafka/auth/AivenAclAuthorizer.java:137 | two different User keys produce the same key string |
| CacheKeys.DecideAsWritten | src/main/java/io/aiven/kafka/auth/AivenAclAuthorizer.java:146-177 | the fresh path with the source's string key: a User request whose key string is cached gets the stored verdict; otherwise it gets the scan verdict, which is stored under its key string |
| CacheKeys.StringKeyedCacheServesForeignVerdict | src/main/java/io/aiven/kafka/auth/AivenAclAuthorizer.java:146-177 | deciding request a and then a different request b on one string-keyed cache gives b a's verdict, which contradicts b's scan |
| Authorizer.CacheFor | src/main/java/io/aiven/kafka/auth/AivenAclAuthorizer.java:68-77 | after a load the cache is present and empty iff the list has more than 10 entries, absent otherwise |
| Authorizer.CheckAndUpdateConfig | src/main/java/io/aiven/kafka/auth/AivenAclAuthorizer.java:43-85 | no-op when the marker is unchanged; a successful reload installs exactly the parsed list with the threshold cache policy; a failure keeps entries and cache; the marker is recorded either way |
| Authorizer.Configure | src/main/java/io/aiven/kafka/auth/AivenAclAuthorizer.java:101-104 | the first load reads the file only when its marker is not 0; entries stay absent otherwise |
| Authorizer.ReloadAcls | src/main/java/io/aiven/kafka/auth/AivenAclAuthorizer.java:88-98 | reports a change iff the file marker differs from the recorded one; sets the check time to now; otherwise acts as one config check |
| Authorizer.StaleRefresh | src/main/java/io/aiven/kafka/auth/AivenAclAuthorizer.java:184-195 | a stale state gets check time now and one config check; the result is always fresh; a fresh state is untouched |
| Authorizer.CachedVerdict | src/main/java/io/aiven/kafka/auth/AivenAclAuthorizer.java:146-148 | a cached verdict is found only for User requests, only when the cache exists and holds the key, and it is the value stored under that key |
| Authorizer.Decide | src/main/java/io/aiven/kafka/auth/AivenAclAuthorizer.java:145-179 | a hit returns the stored verdict with the state unchanged; a miss returns the scan verdict and stores it under the key only if key and cache exist; no other key changes; without entries the scan fails |
| Authorizer.CheckAcl | src/main/java/io/aiven/kafka/auth/AivenAclAuthorizer.java:126-197 | the loop terminates in a fresh state; the check time never goes back; a stale call records the file's marker; from a valid state it fails only without loaded entries and a verdict is the scan of the final entries |
| Authorizer.Authorize | src/main/java/io/aiven/kafka/auth/AivenAclAuthorizer.java:111-123 | the call ends in a fresh state without moving the check time back; from a valid state it fails only when no entries were ever loaded, and a verdict is the scan of the final entries for the request built from principal, operation and type:name resource |
| Authorizer.ResourceString | src/main/java/io/aiven/kafka/auth/AivenAclAuthorizer.java:120 | the resource string is the type, a colon, then the name |
| Authorizer.RequestFor | src/main/java/io/aiven/kafka/auth/AivenAclAuthorizer.java:112-120 | a missing principal becomes User ANONYMOUS; the request carries the operation and the type-colon-name resource |
| AuthorizerProofs.InitialValid | src/main/java/io/aiven/kafka/auth/AivenAclAuthorizer.java:33-36 | a new authorizer (no entries, no cache) satisfies the invariant |
| AuthorizerProofs.CheckAndUpdateConfigValid | src/main/java/io/aiven/kafka/auth/AivenAclAuthorizer.java:68-84 | a config check keeps the cache policy and coherence, because a replaced list comes with an empty or absent cache |
| AuthorizerProofs.ConfigureValid | src/main/java/io/aiven/kafka/auth/AivenAclAuthorizer.java:101-104 | configure produces a valid state |
| AuthorizerProofs.ReloadAclsValid | src/main/java/io/aiven/kafka/auth/AivenAclAuthorizer.java:88-98 | reloadAcls keeps the invariant |
| AuthorizerProofs.ReloadAclsReportsFailedParse | src/main/java/io/aiven/kafka/auth/AivenAclAuthorizer.java:80-94 | a changed file that fails to parse makes reloadAcls return true while entries and cache stay unchanged |
| AuthorizerProofs.DecideValid | src/main/java/io/aiven/kafka/auth/AivenAclAuthorizer.java:175-177 | storing a scan verdict under the request's own key keeps every cached verdict equal to the scan over the current entries |
| AuthorizerProofs.DecideMeansGranted | src/main/java/io/aiven/kafka/auth/AivenAclAuthorizer.java:145-179 | under the invariant a fresh decision, hit or miss, equals the scan over the current entries |
| AuthorizerProofs.CheckAclAtMostOneRefresh | src/main/java/io/aiven/kafka/auth/AivenAclAuthorizer.java:141-196 | the loop's outcome is the fresh-path decision after at most one stale refresh |
| AuthorizerProofs.CheckAclValid | src/main/java/io/aiven/kafka/auth/AivenAclAuthorizer.java:126-197 | checkAcl keeps the invariant |
| AuthorizerProofs.CheckAclMeansGranted | src/main/java/io/aiven/kafka/auth/AivenAclAuthorizer.java:126-197 | checkAcl answers with the scan over the entries it ends with, and fails only if none were ever loaded |
| AuthorizerProofs.StaleRequestSeesNewEntries | src/main/java/io/aiven/kafka/auth/AivenAclAuthorizer.java:184-192 | from any prior state, a stale request against a changed, parsable file is decided by the new list alone; no old cached verdict survives |
| AuthorizerProofs.FreshRequestIgnoresSource | src/main/java/io/aiven/kafka/auth/AivenAclAuthorizer.java:145 | within the freshness window the configuration file is not consulted |
| AuthorizerProofs.FailedReloadKeepsDecisions | src/main/java/io/aiven/kafka/auth/AivenAclAuthorizer.java:80-84 | after a failed reload every decision and its state change are as before, apart from the recorded marker |
| AuthorizerProofs.EmptyEntriesDeny | src/main/java/io/aiven/kafka/auth/AivenAclAuthorizer.java:132 | an empty entry list denies every request and caches nothing |
| AuthorizerProofs.NoCacheBelowThreshold | src/main/java/io/aiven/kafka/auth/AivenAclAuthorizer.java:69-76 | with at most 10 entries no request is served from the cache and the fresh path leaves the state unchanged |
| AuthorizerProofs.NonUserRequestsBypassCache | src/main/java/io/aiven/kafka/auth/AivenAclAuthorizer.java:135-138 | a request not of type User neither reads nor writes the cache |
| AuthorizerProofs.RepeatedRequestHitsCache | src/main/java/io/aiven/kafka/auth/AivenAclAuthorizer.java:146-177 | with a cache, a repeated User request is served from the cache with the first verdict and changes nothing |
| AuthorizerProofs.DistinctRequestsDistinctSlots | src/main/java/io/aiven/kafka/auth/AivenAclAuthorizer.java:175-177 | deciding one User request leaves the cached verdict of every other User request as it was |
| AuthorizerProofs.AnonymousRequestsAreCached | src/main/java/io/aiven/kafka/auth/AivenAclAuthorizer.java:111-122 | an authorize call without a principal is decided as User ANONYMOUS and its verdict is cached |
| AuthorizerProofs.ResourceStringInjective | src/main/java/io/aiven/kafka/auth/AivenAclAuthorizer.java:120 | the resource string determines type and name when the type contains no colon |

## Left out

- The `ReentrantReadWriteLock` and the double-checked re-test under the write lock are left out because concurrency is not modelled. Every step runs alone. The re-test condition is kept in `StaleRefresh`, where it always holds.
- File access and JSON parsing are left out. They become the `Source` snapshot (marker plus optional entry list). Only `IOException` and `ParseException` are caught (line 80). Any other runtime exception raised while building the list is not modelled. Examples are a `ClassCastException` from a document of the wrong shape, a `NullPointerException` from a JSON `null` document or a `null` array element, and whatever the `AivenAclEntry` constructor throws. Such an exception escapes `checkAndUpdateConfig` before line 84, so the marker is not recorded and the file is read again on the next check. Raised from the stale branch of `checkAcl`, it reaches the caller after `lastUpdateCheckTimestamp = now` (line 190) has already run, so no further check happens for one window. `Source` cannot express this outcome. A missing field is not modelled either; it becomes a null string.
- `AivenAclEntry.check` is not part of this model. It is the uninterpreted `Matcher` parameter.
- Logging is left out because it has no effect on state or verdicts. `System.nanoTime` is the parameter `now`.
- The `Session`/`KafkaPrincipal` plumbing of `authorize` is left out beyond the anonymous default and the resource string.
- `getAcls`, `addAcls` and `removeAcls` only log and return empty results, so they are left out.
- `close` is left out because it does nothing.
- Timestamps and markers are unbounded integers. Java `long` overflow of `lastUpdateCheckTimestamp + 10000` is not modelled, because millisecond readings are far from the `long` range.
- The verdict cache is modelled on the structural `CacheKey`, not on the source's string key, to repair the finding below. `CacheKeys.KeyString` and its two lemmas keep the as-written key.

## Findings

| source | as written | input that shows it | evidently intended | confidence | as-written member | corrected member |
|---|---|---|---|---|---|---|
| src/main/java/io/aiven/kafka/auth/AivenAclAuthorizer.java:137 | the cache key joins resource, operation, principal name and type with `\|`, which also occurs in names | User `x\|Read\|y` on `Group:g` and User `y` on `Group:g\|Read\|x` share the key `Group:g\|Read\|x\|Read\|y\|User`, so the second is served the first's cached verdict | one cache slot per distinct request | medium (needs `\|` in a principal or resource name); not executed | CacheKeys.StringKeyedCacheServesForeignVerdict | CacheKeys.KeyFor |
