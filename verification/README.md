# A verified model of the orbeat gateway, limiters, publisher and version pins

This project models the stateful cores of orbeat in Dafny and proves what they
promise over every input, every run or every interleaving.

| part | files |
|---|---|
| Gateway session cache and transport-binding index, under every interleaving of requests, single-flight builds, id minting and evictions | `SessionModel`, `SessionCache`, `GatewayRuns`, `GatewayTheorems`, `GatewayServing` |
| Rate limiter (token buckets, idle sweep, size ceiling, log sampling) and concurrency cap | `TokenBucket`, `LogSampler`, `LimiterModel`, `LimiterTheorems`, `Limiter`, `CallerKey`, `ConcurrencyModel`, `ConcurrencyLimiter` |
| Session build, slugs and per-call authorization | `Strings`, `Naming`, `Rbac`, `SessionBuild` |
| Publish worker, its retry schedule, and the credential redactor with the startup check it must agree with | `RetryDelay`, `PublishWorker`, `Redactor`, `RedactorTheorems`, `MarketplaceURL` |
| Version pins from the wire to the client's report | `PinWire`, `Pins` |
| Findings fingerprint and frontmatter splitting | `JsonText`, `FindingsDigest`, `Frontmatter` |

Where the source changes state in place there is a class or a method with a
loop (`SessionCache`, `Limiter`, `ConcurrencyLimiter`, `Release`, `Worker`,
`AuditCounts`, and the loops of the builders, parsers and rewriters). Each is
proved equal to a function over values, and the theorems are about runs of those
functions. Interleavings are sequences of atomic steps, one hold of a lock each;
an event that is not enabled does nothing, so a theorem over all sequences
covers all schedules. Automatic induction is switched off on every lemma, so each
inductive proof stands in its lemma's body.

## What the proofs found

Each of these is stated as an exact condition, with a concrete run or input on
the failing side.

- **A reclaimed session can still be reached, in one way.** The comments at
  internal/gateway/session.go:405-408 say the frozen server of an evicted
  session is unreachable. `GatewayRuns.ReclaimedSessionReach` proves when that
  is so: a request that starts after the eviction reaches the evicted session
  under its id if and only if a single-flight call for its key has already
  decided on that session and not yet finished, and the id was bound after the
  eviction. `GatewayTheorems.GapRun` is such a run. The same one way is all that
  is left once a session is dirty, expired or its tenant's entitlements changed
  (`GatewayServing.CanBeHandedOutIff`). Even there the session is one
  built under the request's own key (`GatewayRuns.ForwardedOnlyToMinter`).
- **The idle rule is not inert unconditionally.** The comment at
  internal/gateway/server.go:41-55 rests on lastSeen never preceding builtAt.
  A caller that reads its clock before the build finishes breaks that; the rule
  is inert if and only if clocks lag by at most ttl - maxAge
  (`GatewayTheorems.IdleRuleIsInertIff`; the run is `GatewayTheorems.IdleRun`).
- **The idle sweep of buckets is invisible if and only if** ttl * rps >= burst
  (`LimiterTheorems.SweepIsInvisibleIff`; the run is `LimiterTheorems.SweepShows`).
- **The size ceiling drops a least recently used bucket if and only if** the
  empty key, which the scan uses to mean "none yet", is not the only oldest of
  several entries (`LimiterTheorems.CeilingDropsOldestIff`). In the run of
  `LimiterTheorems.CeilingDropsNewer` it drops a newer one. No caller with a
  subject has the empty key.
- **The retry schedule is exact for all bases and failure counts if and only
  if** the cap is at most 2^62 nanoseconds (`RetryDelay.ScheduleIsExactIff`);
  above that a doubling wraps (`RetryDelay.DoublingOverflows`).
- **"Floor" does not always name the bound that binds**
  (internal/api/sync_pins.go:137-142). When only one revision survives and the
  floor lies above it, lowering the floor changes nothing
  (`Pins.FloorReasonMisleads`); with more than one, it always does
  (`Pins.ReasonNamesBindingBound`). With a floor above the latest revision the
  advertised window is empty and a pin on the latest is still honoured
  (`Pins.LatestHonouredBelowFloor`).
- **A closing fence on the line right after the opening one is not seen**,
  although the comment at internal/marketplace/artifacts.go:52-55 asks only for a
  line that is exactly `---`. The first such line closes if and only if it is not
  that one (`Frontmatter.FirstLineClosesIff`). An empty frontmatter is therefore
  refused (`Frontmatter.EmptyFrontmatterFails`), or closed by a later line of
  dashes in the body (`Frontmatter.BodyLineCloses`).

## Model

| member | source | states |
|---|---|---|
| SessionModel.EvictionIsExact | internal/gateway/session.go:381-394 | an eviction closes exactly the named entries, leaves its reason and time on every id bound to them, and leaves every other session and its bindings as they were |
| SessionModel.GetIsFresh | internal/gateway/session.go:280-324 | a session is handed out only if clean and within the age and idle ceilings at the caller's now, not closed, and stamped; otherwise the key is empty and its former entry, which was not so, closed |
| SessionModel.GetDecides | internal/gateway/session.go:280-324 | get returns the key's session if and only if it is not dirty, now - builtAt <= maxAge and now - lastSeen <= ttl, then only stamping it; otherwise it is closed and every id live on it becomes a tombstone with dirty, else max age, else idle as the reason |
| SessionModel.PutThenGet | internal/gateway/session.go:508-529 | a session just put is what get returns at a later time exactly up to both ceilings counted from the put, and into a closed cache never |
| SessionModel.DirtyIsRefused | internal/gateway/session.go:100-100 | a session flagged dirty is refused at its next use with that reason on its ids; the flag changes no other answer |
| SessionModel.BindThenLookup | internal/gateway/session.go:341-374 | lookup finds an id just bound, and for known, empty and late ids what it found before |
| SessionModel.EvictAllKeepsInv | internal/gateway/session.go:381-394 | eviction keeps the invariant of the key map, the index and the sessions' own id lists |
| SessionModel.GetKeepsInv | internal/gateway/session.go:280-305 | so does get, whichever rule fires |
| SessionModel.PutKeepsInvIff | internal/gateway/session.go:508-529 | put keeps it exactly into an empty place; over a live entry it would lose that entry unclosed |
| SessionModel.BindKeepsInv | internal/gateway/session.go:341-357 | so does binding an id |
| SessionModel.MarkDirtyKeepsInv | internal/gateway/session.go:100 | so does flagging a session dirty |
| SessionModel.ReapKeepsInv | internal/gateway/session.go:569-593 | so does a reap with its sweep |
| SessionModel.InvalidateKeepsInv | internal/gateway/session.go:543-567 | so does dropping a tenant's sessions |
| SessionModel.CloseAllKeepsInv | internal/gateway/session.go:610-632 | so does shutdown |
| SessionModel.ReapSettles | internal/gateway/session.go:442-466 | after a reap the ids known are exactly those that were, less tombstones older than twice the age ceiling; every live binding names its key's current session; the keys left are exactly those whose session is clean and within both ceilings |
| SessionModel.ReapDecides | internal/gateway/session.go:569-593 | entry by entry: kept, record and ids untouched, if and only if clean and within both ceilings; otherwise closed, with dirty, else max age, else idle as the reason on every id live on it |
| SessionModel.InvalidationIsExact | internal/gateway/session.go:543-567 | exactly the tenant's own sessions are closed, with that reason on their ids; every other session and its ids stay as they were |
| SessionModel.ShutdownIsExact | internal/gateway/session.go:610-632 | shutdown closes every open session, with that reason on its ids, and leaves earlier tombstones alone |
| GatewayRuns.RunKeepsInv | internal/gateway/session.go:206-278 | every run keeps the invariant of cache, flights, requests and minted ids |
| GatewayRuns.RunKeepsKeys | internal/gateway/session.go:255-278 | in every run what the cache holds under a key, what a flight for it decides on and what a request for it is handed was built under that key |
| GatewayRuns.ForwardedOnlyToMinter | internal/gateway/server.go:483-556 | in every run a forwarded request goes to a session built under its own key; if it carries an id and is no DELETE, to the session that minted that id; and to one not evicted before the request began unless it joined a flight already decided |
| GatewayRuns.JoinsLateIff | internal/gateway/session.go:255-278 | a join counts as late exactly if the single-flight call it finds for its key has already settled on a result |
| GatewayRuns.DecisionIsExact | internal/gateway/server.go:506-556 | a request is forwarded if and only if it has no id, is a DELETE, or its id is live on the session in hand; each refusal's header and logged cause are spelled out for an id not bound, a tombstone, a superseded session of the same subject and another subject's session; nothing else changes |
| GatewayTheorems.ForeignIdIsRefused | internal/gateway/server.go:521-555 | in every run a non-DELETE request whose id was not minted by a session built under its own key is refused |
| GatewayRuns.IdMovesForward | internal/gateway/session.go:341-394 | in every run an id only moves unbound, bound, tombstone, forgotten, with its minter and its tombstone's reason fixed |
| GatewayRuns.DeadIdIsRefused | internal/gateway/server.go:518-556 | once an id is a tombstone or forgotten, no continuation forwards a request that carries it |
| GatewayRuns.ReclaimedSessionReach | internal/gateway/session.go:255-278 | a request begun after its id's session was evicted can be forwarded there by some continuation exactly if a finished flight for its key still holds that session and the id is live on it |
| GatewayTheorems.SessionsAreConserved | internal/gateway/session.go:508-529 | in every run each session put is held or closed exactly once, never both, and an insertion never displaces a live entry |
| GatewayTheorems.ShutdownIsFinal | internal/gateway/session.go:595-632 | after closeAll nothing is ever cached again, no id is added, and a late build is closed instead of inserted |
| GatewayTheorems.EvictedForever | internal/gateway/session.go:102-113 | an evicted session stays evicted in every run |
| GatewayServing.CanBeHandedOutIff | internal/gateway/session.go:206-324 | some continuation hands a session to a request not yet begun if and only if a single-flight call has settled on it, or it is open, clean and within both ceilings by the slowest clock |
| GatewayServing.EvictedIsHandedIff | internal/gateway/session.go:206-278 | a request begun after a session's eviction can be handed it exactly if a single-flight call for its own key has settled on it |
| GatewayServing.ChangeTakesEffect | internal/gateway/session.go:531-567 | after a dirty flag, a tenant's invalidation or shutdown no request that begins later is handed the session, in any run, unless a single-flight call had settled on it |
| GatewayServing.TickSettles | internal/gateway/session.go:569-593 | after a reap tick the open sessions are exactly those that were and are clean and within both ceilings, unchanged; no tombstone is older than twice the age ceiling |
| GatewayServing.SessionKeepsOwner | internal/gateway/session.go:508-529 | in every run a session keeps the subject and tenant it was built for |
| GatewayServing.NoRequestIsStuck | internal/gateway/session.go:206-278 | in every run a request that has begun can still be forwarded, refused or told that no session could be built |
| GatewayTheorems.RefusalNamesReason | internal/gateway/server.go:521-555 | from an eviction on, every request carrying the id is refused with that eviction's reason, or as unbound once the id is forgotten |
| GatewayTheorems.IdleRuleIsInertIff | internal/gateway/server.go:40-56 | the idle rule can be the reported cause in some reachable state exactly when clocks may lag by more than ttl - maxAge |
| GatewayTheorems.GapRun | internal/gateway/session.go:255-278 | a concrete run that forwards a request to a session evicted before the request began |
| SessionCaching.EvictOneMore | internal/gateway/session.go:569-593 | evicting entries one at a time, in any order, equals evicting them at once |
| SessionCaching.SessionCache.StaleTransportsLocked | internal/gateway/session.go:381-394 | the in-place loop tombstones exactly the live bindings of its session and no other |
| SessionCaching.SessionCache.Get | internal/gateway/session.go:280-305 | the in-place get carries out the modelled one and keeps the invariant; it succeeds if and only if the key's session is clean and within both ceilings |
| SessionCaching.SessionCache.Put | internal/gateway/session.go:508-529 | the in-place put, with its shutdown branch, for any key; the invariant survives exactly if the key was empty |
| SessionCaching.SessionCache.BindTransport | internal/gateway/session.go:341-357 | the in-place bind, refusing known ids and a closed cache |
| SessionCaching.SessionCache.LookupTransport | internal/gateway/session.go:363-374 | the index read |
| SessionCaching.SessionCache.SweepTransportsLocked | internal/gateway/session.go:449-466 | the loop that deletes while ranging, in any order, equals the order-free sweep |
| SessionCaching.SessionCache.Reap | internal/gateway/session.go:569-593 | the reap loop in any order, then the sweep; a key stays if and only if its session is clean and within both ceilings |
| SessionCaching.SessionCache.InvalidateTenant | internal/gateway/session.go:543-567 | the tenant loop in any order, and its count is the number of entries removed |
| SessionCaching.SessionCache.CloseAll | internal/gateway/session.go:610-632 | the shutdown loop in any order |
| SessionCaching.SessionCache.WithSession | internal/gateway/server.go:506-556 | the admission switch: forwards if and only if there is no id, the request is a DELETE, or the id is live on the session in hand; each refusal with its header and logged cause, spelled out |
| LogSampler.LinesAreSpaced | internal/ratelimit/sample.go:50-67 | logged lines are pairwise at least an interval apart for any traffic |
| LogSampler.LinesInWindow | internal/ratelimit/sample.go:50-67 | a window of length L holds at most L / interval + 1 lines |
| LogSampler.NoSilentGap | internal/ratelimit/sample.go:61-67 | a reported rejection is logged exactly if no line was written before it or the latest of those is at least an interval old; later ones take nothing back |
| TokenBucket.Refill | internal/ratelimit/ratelimit.go:162-183 | between two readings a bucket gains the elapsed time's worth, up to its capacity |
| TokenBucket.RetryIsExact | internal/ratelimit/ratelimit.go:162-183 | a rejection leaves the bucket unchanged and a later call with no admission between succeeds exactly from the returned delay on |
| TokenBucket.ChargedAt | internal/ratelimit/ratelimit.go:162-183 | an admission costs one token, a rejection nothing |
| TokenBucket.WindowBound | internal/ratelimit/ratelimit.go:147-183 | calls admitted in a window number at most the tokens at its start plus the refill |
| LimiterModel.SweptAnswersAlike | internal/ratelimit/ratelimit.go:186-198 | from related states the swept map answers every call as a map that never forgets a key |
| LimiterModel.CallIsExact | internal/ratelimit/ratelimit.go:147-183 | a call is admitted exactly if the tokens left at the last charge plus rps times the time since, up to the burst, make one; what it costs, and the delay a rejection is told, in the same numbers |
| LimiterTheorems.SweepIsInvisibleIff | internal/ratelimit/ratelimit.go:186-198 | sweeping changes no answer of any monotone run without ceiling evictions exactly if ttl * rps >= burst |
| LimiterTheorems.WindowAdmitsAtMost | internal/ratelimit/ratelimit.go:147-183 | whatever came before, whatever is swept and whichever other keys the ceiling drops, a window through which it does not drop the key's own bucket admits the key at most burst plus rps times its length |
| LimiterTheorems.UnfullRunKeepsKey | internal/ratelimit/ratelimit.go:204-216 | on a run that never finds the map full the ceiling drops nothing, so that bound holds for every key |
| LimiterTheorems.WindowBoundIsReached | internal/ratelimit/ratelimit.go:147-183 | the bound is reached: in a window of no length a key not in the map is admitted min(calls, burst) times |
| LimiterTheorems.NewKeyGetsItsBurst | internal/ratelimit/ratelimit.go:49-63 | of any number of calls at one instant by a key not in the map exactly the first max(burst, 1) are admitted, or all if no rate is set |
| LimiterTheorems.DisabledAdmitsAll | internal/ratelimit/ratelimit.go:147-150 | with no rate set every call of every run is admitted at once and leaves the map alone |
| LimiterTheorems.MapStaysWithinCeiling | internal/ratelimit/ratelimit.go:204-216 | with a positive ceiling no run exceeds it, and a key not in the map is admitted at once |
| LimiterTheorems.CeilingDropsOldestIff | internal/ratelimit/ratelimit.go:204-216 | in whatever order the map is scanned an oldest entry is dropped, exactly if the empty key is not the only oldest of several |
| LimiterTheorems.CeilingDropsNewer | internal/ratelimit/ratelimit.go:204-216 | a concrete run whose scan meets the empty key first and drops a newer bucket |
| CallerKey.KeyIsOneCaller | internal/ratelimit/key.go:12-17 | subjects without a bar never share a bucket key with another subject and client |
| LimiterTheorems.CallersDropOldest | internal/ratelimit/key.go:12-17 | in every run keyed on callers with a subject the ceiling always drops an oldest entry |
| LimiterTheorems.LogIsSampled | internal/ratelimit/ratelimit.go:164-183 | while a bucket survives, its logged rejections are exactly what the sampler writes for its reported ones |
| LimiterTheorems.RejectionIsLoggedIff | internal/ratelimit/ratelimit.go:164-183 | after any run through which a bucket survives, a reported rejection is logged exactly if no line was written for the key or the latest is at least an interval old |
| RateLimiting.Limiter.constructor | internal/ratelimit/ratelimit.go:49-63 | the limiter is built with the burst asked for, or with one if that is below one |
| RateLimiting.Limiter.EvictIfFullLocked | internal/ratelimit/ratelimit.go:204-216 | the in-place scan and delete |
| RateLimiting.Limiter.DecideAt | internal/ratelimit/ratelimit.go:147-183 | the in-place decision: new map, answer, delay and whether to log |
| RateLimiting.Limiter.SweepAt | internal/ratelimit/ratelimit.go:186-198 | the loop that deletes while ranging, in any order, and its count |
| ConcurrencyModel.CapHolds | internal/ratelimit/concurrency.go:134-170 | in every reachable state a slot counts its outstanding acquires, at most max; a call succeeds exactly if fewer than max are outstanding; a first release always finds a live count; no sweep drops one |
| ConcurrencyModel.RefinesPlainCount | internal/ratelimit/concurrency.go:134-213 | under every interleaving the calls admitted are exactly those a plain count of outstanding acquires admits |
| ConcurrencyModel.SweptAfterLastRelease | internal/ratelimit/concurrency.go:159-213 | a key is swept exactly from ttl after its last release on, its slot unchanged until then; keys with calls outstanding are kept as they were |
| ConcurrencyModel.DisabledAdmitsAll | internal/ratelimit/concurrency.go:134-137 | with no cap set every acquire of every run is admitted and none counted |
| ConcurrencyModel.LogIsSampled | internal/ratelimit/concurrency.go:134-157 | while a slot survives, its logged refusals are exactly what the sampler writes |
| ConcurrencyModel.RefusalIsLoggedIff | internal/ratelimit/concurrency.go:134-157 | after any run through which a slot survives, a reported refusal is logged exactly if no line was written for the key or the latest is at least an interval old |
| ConcurrencyLimiting.ConcurrencyLimiter.AcquireAt | internal/ratelimit/concurrency.go:134-157 | the in-place acquire and the one-shot handle it returns |
| ConcurrencyLimiting.ConcurrencyLimiter.CallRelease | internal/ratelimit/concurrency.go:150-170 | a handle decrements once; repeated or refused ones do nothing |
| ConcurrencyLimiting.ConcurrencyLimiter.InFlight | internal/ratelimit/concurrency.go:174-181 | the count read |
| ConcurrencyLimiting.ConcurrencyLimiter.SweepAt | internal/ratelimit/concurrency.go:199-213 | the loop removes exactly the idle slots past the ttl, in any order |
| Naming.SplitUndoesNamespaceIff | internal/gateway/naming.go:14-26 | splitting returns the slug and tool exactly if the slug, with what follows it, shows no earlier separator |
| Naming.SlugifyIsCanonical | internal/naming/naming.go:14-22 | a slug is groups of lower-case letters and digits joined by single dashes, is its own slug, and every tool id under it splits back |
| Naming.SlugJoinsWords | internal/naming/naming.go:14-22 | a slug is the name's words, in order, joined by dashes |
| Naming.SlugsCollideIff | internal/naming/naming.go:14-22 | two names share a slug exactly if their lower-cased words are the same |
| Naming.SlugOfName | internal/naming/naming.go:14-22 | in plain characters: each run of ASCII letters and digits enters the slug lower-cased, what stands between two becomes one dash, what leads leaves no trace |
| Rbac.AuthorizingEntitlement | internal/rbac/rbac.go:30-45 | the first entitlement in order on the server whose allow-list is absent or names the tool, none exactly if there is none |
| Rbac.NarrowForHolds | internal/gateway/rbac_middleware.go:115-127 | the per-server filter holds a tool exactly if the narrowing holds an id that splits to that server and tool |
| Rbac.FilterKeyNarrowForServer | internal/gateway/rbac_middleware.go:115-127 | the filter loop; no narrowing stays no narrowing |
| Rbac.VisibleServerIDs | internal/rbac/rbac.go:8-14 | exactly the servers some entitlement names |
| Rbac.KeyOnlyNarrows | internal/gateway/rbac_middleware.go:68-127 | a key's call is decided as the role's own and then allowed exactly if there is no narrowing or it names the full id |
| Rbac.AuthorizedIff | internal/gateway/rbac_middleware.go:68-96 | authorized exactly if the id splits to a known slug, some entitlement on its server has no allow-list or one naming the tool, and the key does not narrow it away; the role is that of the first such entitlement |
| SessionBuild.Candidates | internal/gateway/server.go:739-752 | the filtering loop |
| SessionBuild.LiveIffActiveAndVisible | internal/gateway/server.go:739-752 | the candidates are exactly the active servers the caller may see, in list order |
| SessionBuild.DialAll | internal/gateway/server.go:754-766 | each dial, whenever it ends and with whatever outcome, leaves it in its own place |
| SessionBuild.OrderDoesNotShow | internal/gateway/server.go:754-766 | the same endings in any other order leave the same results for the ordered pass |
| SessionBuild.RegisterProxies | internal/gateway/broker.go:240-335 | proxies for exactly the entitled tools listed, kept even when the listing then fails |
| SessionBuild.BuildSession | internal/gateway/server.go:768-818 | the ordered second pass, with its four ways to skip an upstream |
| SessionBuild.FirstSurvivorWins | internal/gateway/server.go:783-818 | a slug's owner is the first candidate in list order that connects, registers and beats its watchdog; open upstreams are exactly these |
| SessionBuild.ProxyIsItsRegistrar | internal/gateway/broker.go:249-264 | every proxy was registered by a connected candidate under its own slug for a listed tool the caller may call there |
| SessionBuild.CallsReachTheirAuthorizer | internal/gateway/rbac_middleware.go:68-96 | every authorized call proxied over an open connection goes to the server of an entitlement of the authorizing role whose allow-list is absent or names the tool, for that very tool |
| SessionBuild.WinnerKeepsItsNames | internal/gateway/server.go:783-818 | no later candidate takes over a name under an owned slug |
| SessionBuild.ListedIffCallable | internal/gateway/broker.go:249-264 | for an open upstream the tools advertised are exactly those listed that a call would be authorized for |
| Redactor.HasSchemeBefore | internal/publish/publish.go:495-506 | the backward loop answers true exactly if an ASCII letter stands before, with only letters, digits, plus, minus and dot from it on |
| Redactor.RedactURLUserinfo | internal/publish/publish.go:550-586 | the index-driven loop terminates and writes what the run-by-run rule says, which UserinfoBecomesMask and AcceptedIsFixpoint pin in plain characters |
| RedactorTheorems.RunThenRest | internal/publish/publish.go:525-528 | whitespace-free runs are redacted independently |
| RedactorTheorems.BlankSeparates | internal/publish/publish.go:525-528 | text on either side of any space, tab, line feed, carriage return, vertical tab or form feed is redacted independently |
| RedactorTheorems.RunKeptIff | internal/publish/publish.go:525-548 | a run is left as it is exactly if it shows no userinfo |
| RedactorTheorems.RunIsMasked | internal/publish/publish.go:547-548 | every run written shows at most the mask |
| RedactorTheorems.RedactIsIdempotent | internal/publish/publish.go:547-548 | a second pass changes nothing, on any text |
| RedactorTheorems.UserinfoNeverShows | internal/publish/publish.go:519-586 | for scheme://userinfo@rest in any surroundings, the scheme and the whitespace given as character ranges, the output is a function of what comes before and after, not of the userinfo |
| RedactorTheorems.UserinfoBecomesMask | internal/publish/publish.go:481-586 | pre scheme://userinfo@host post, the URL between whitespace or the ends of the text, is written with *** for the userinfo up to the last @ and nothing else of the URL changed; scheme and whitespace as character ranges |
| RedactorTheorems.AcceptedIsFixpoint | internal/config/config.go:291-302 | every URL the startup check does not refuse for credentials is left as it is, and text with no :// is accepted |
| RedactorTheorems.RefusedIffMasked | internal/config/config.go:278-302 | on a URL that starts with its scheme the check refuses exactly for an @, which is exactly when redaction masks; without one it is accepted if and only if it parses |
| RetryDelay.NextRetryDelay | internal/publish/publish.go:348-363 | the doubling loop in wrapping 64-bit arithmetic |
| RetryDelay.ScheduleIsExactIff | internal/publish/publish.go:344-363 | the delay is min(max, base * 2^(failures-1)) for every base and failure count exactly if max is at most 2^62 |
| RetryDelay.LongerStreakWaitsNoLess | internal/publish/publish.go:344-363 | under such a cap a longer streak never waits less |
| PublishWorker.Worker.Enqueue | internal/publish/publish.go:385-390 | a request fills the channel or coalesces |
| PublishWorker.Worker.Start | internal/publish/publish.go:401-458 | the loop of a wait, a publish and a report carries out the step relation over everything that happens to it |
| PublishWorker.Worker.WaitForRequest | internal/publish/publish.go:403-413 | with no failure outstanding it blocks for a request, then for the debounce |
| PublishWorker.Worker.WaitBeforeRetry | internal/publish/publish.go:435-446 | with one outstanding it blocks for the backoff or a request, whichever lands first |
| PublishWorker.Worker.SleepOrDone | internal/publish/publish.go:449-458 | the debounce ends, or the context does |
| PublishWorker.Worker.PublishOnce | internal/publish/publish.go:417-427 | a publish begins and ends while requests go on reaching the channel |
| PublishWorker.RunKeepsPromises | internal/publish/publish.go:392-446 | in every run a request made since the last publish began is in the channel or on its way; each attempt number is one plus the failure streak; first attempts never outnumber requests |
| PublishWorker.IdleHasPublishedAll | internal/publish/publish.go:392-429 | an idle worker with no failures and an empty channel has successfully published a snapshot begun after the last request |
| PublishWorker.OnlySuccessPublishes | internal/publish/publish.go:417-429 | nothing counts as published in a run in which no publish succeeded |
| PublishWorker.PublishIsAtHand | internal/publish/publish.go:401-446 | with a request waiting or a failure outstanding the loop's own moves reach a publish that begins after every request so far |
| PublishWorker.CancelStops | internal/publish/publish.go:401-458 | a context that ends while the loop waits or debounces ends it: no continuation begins a publish or reports anything; while a publish is due or under way it changes nothing |
| PinWire.ParsePins | internal/api/sync_pins.go:63-93 | the parsing loop; the first pin that cannot be read or repeats an artifact decides the error, and more than 100 are refused |
| PinWire.PinsReadIff | internal/api/sync_pins.go:63-93 | accepted exactly if every pin reads and no artifact repeats; the map then holds those pins and nothing else |
| PinWire.ReadPinIff | internal/api/sync_pins.go:73-87 | a pin reads exactly if it is 36 characters of hex digits and dashes in a UUID's places, a colon and an integer of at least one |
| PinWire.AtoiIsExact | internal/api/sync_pins.go:83-87 | integers are read digit by digit up to 2^63 - 1, with at most one leading sign and nothing else |
| PinWire.ReadUndoesWrite | internal/syncclient/api.go:86-93 | the server reads one pin back as the client wrote it |
| PinWire.ServerReadsWhatClientWrote | internal/syncclient/api.go:86-93 | the server reads back exactly the client's pins |
| Pins.ClampServesNearest | internal/api/sync_pins.go:149-166 | the revision served lies between the pin and every other revision in the window from the floor or the oldest stored, whichever is later, to the latest; without a pin or a window it is the latest |
| Pins.HonouredIff | internal/api/sync_pins.go:149-166 | a pin is honoured exactly if it lies in the window, or names the latest |
| Pins.ReasonNamesBindingBound | internal/api/sync_pins.go:137-166 | "pruned" means no lower floor would help; where it says "floor" a lower one would, exactly if more than one revision survives |
| Pins.FloorReasonMisleads | internal/api/sync_pins.go:137-166 | pin 2 with floor 5 and revision 3 alone is answered "floor", and no lower floor serves anything else |
| Pins.LatestHonouredBelowFloor | internal/api/sync_pins.go:149-166 | with floor 5 above latest revision 3 a pin on 3 is honoured outside the advertised window |
| Pins.ResolveSyncPayload | internal/api/sync.go:125-155 | the payload choice with its fallback when the row has gone |
| Pins.AuditCounts.AddOne | internal/api/sync.go:253-267 | one artifact's contribution to the counts |
| Pins.CountsAreExact | internal/api/sync.go:217-267 | both counts are exact; only the list of names is capped, and truncated says exactly whether it was |
| Pins.HandleSyncArtifacts | internal/api/sync.go:305-412 | resolving every window first and reading all payloads at once answers each artifact as if alone |
| Pins.AnswerIsTrue | internal/api/sync.go:125-155 | identity, content, seed and scope come from the revision number sent, the last two for user- and project-scope subagents only; the window goes out exactly with pinning; no override exactly if the pin was served; a stored row that has gone is answered with the latest as pruned |
| Pins.PinOutcomes | cmd/orbeat-sync/outcome.go:187-210 | the client's list loop |
| Pins.OutcomesHold | cmd/orbeat-sync/outcome.go:187-210 | the list holds exactly what each held pin's artifact says, or the forced reason for each |
| Pins.ReportedPinned | cmd/orbeat-sync/outcome.go:236-253 | the client's report loop; reported exactly if held, served and not overridden, nothing if unsupported |
| Pins.ReportedHolds | cmd/orbeat-sync/outcome.go:236-253 | the reported set holds exactly the served artifacts that a pin names and no override marks |
| Pins.PinsAreTruthful | cmd/orbeat-sync/outcome.go:187-253 | end to end, a held pin on a served artifact is reported pinned exactly if the revision served is the one requested, and listed as overridden with what was served otherwise |
| Pins.ForcedReasonListsAll | cmd/orbeat-sync/outcome.go:187-210 | with a forced reason every held pin on a served artifact is listed with that reason and the revision it got, and nothing else is |
| JsonText.ReadUndoesQuote | internal/govern/digest.go:87-100 | a JSON string literal reads back as the string, whatever follows it (RFC 8259, section 7) |
| JsonText.QuoteIsHarmless | internal/govern/digest.go:87-110 | no literal holds a raw control character, line separator, or HTML-significant character |
| FindingsDigest.ReadUndoesCanon | internal/govern/digest.go:87-100 | a finding's rendering is the JSON object with its three keys in order, and reads back as the finding |
| FindingsDigest.SortedIsUnique | internal/govern/digest.go:102-106 | sorting has one result |
| FindingsDigest.LeIff | internal/govern/digest.go:102-106 | the order sorted by is that of the first difference, a prefix coming first |
| FindingsDigest.JoinIsInjective | internal/govern/digest.go:108-111 | the newline join of one-line strings can be taken apart in one way only |
| FindingsDigest.Digest | internal/govern/digest.go:82-113 | the canonicalising loop, sort, join and hash |
| FindingsDigest.PreimagesEqualIff | internal/govern/digest.go:82-113 | the bytes hashed for two non-empty lists are equal exactly if they are permutations of each other |
| FindingsDigest.DigestsEqualIff | internal/govern/digest.go:82-113 | with a hash that keeps the two apart, digests are equal exactly for permutations, and empty exactly for no findings |
| Frontmatter.SplitFrontmatter | internal/marketplace/artifacts.go:56-74 | the scanning loop terminates and carries out the split |
| Frontmatter.SplitIff | internal/marketplace/artifacts.go:56-74 | a split is right exactly if the text is the opening fence, a frontmatter without closing line, the closing line, and nothing or a line break and the body |
| Frontmatter.SplitFailsIff | internal/marketplace/artifacts.go:56-74 | it fails exactly if there is no opening fence, or no full `---` line later than the line right after it |
| Frontmatter.FirstLineClosesIff | internal/marketplace/artifacts.go:52-74 | the first full `---` line after the opening fence is the one that closes exactly if it is not right after the fence |
| Frontmatter.UnterminatedDespiteLineIff | internal/marketplace/artifacts.go:52-74 | a text with such a line is still unterminated exactly if its only one is right after the fence |
| Frontmatter.EmptyFrontmatterFails | internal/marketplace/artifacts.go:52-74 | an empty frontmatter is refused |
| Frontmatter.BodyLineCloses | internal/marketplace/artifacts.go:52-74 | an empty frontmatter is closed by a line of dashes in the body |
| Frontmatter.NormalizeTwiceIff | internal/marketplace/artifacts.go:57 | normalizing line endings again changes nothing exactly if the text held no CR CR LF |
| Frontmatter.NormalizeIsExact | internal/marketplace/artifacts.go:57 | a CR LF anywhere becomes one LF with what stands before and after it normalized on its own; text without one stays as it is |
| Frontmatter.MemoryRoundTripIff | internal/marketplace/artifacts.go:79-94 | what withMemory writes splits back into the YAML emitted and the same body exactly if that YAML holds no closing line |
| Frontmatter.MemoryFailsIff | internal/marketplace/artifacts.go:79-94 | withMemory fails with the split's error exactly where the split does, and as invalid YAML exactly if the frontmatter does not parse |

## Left out

- HTTP, the MCP SDK, JSON writers, telemetry, audit writes, configuration and Postgres: requests, dial outcomes, stored rows, clocks and parsed YAML are parameters.
- SessionCaching.SessionCache.Get: session objects are records in a table keyed by identity, so aliasing of session references is not modelled; closing, done off the mutex in the source, is part of the eviction step, and the dirty flag is read with it.
- SessionCaching.SessionCache.StaleTransportsLocked: bindings are values replaced in the map rather than objects updated in place.
- The getOrBuild function is not one method: its critical sections are separate steps of GatewayRuns, so that other steps can fall between them.
- TokenBucket.RetryIsExact: time is real-valued and exact; rounding to nanoseconds and the float arithmetic of the rate package are not modelled.
- RateLimiting.Limiter.DecideAt: the order in which Go ranges over a map is a ghost result, arbitrary.
- Naming.SlugifyIsCanonical: lower-casing is the ASCII one; letters that Unicode lower-casing maps into a-z are not modelled.
- SessionBuild.BuildSession: cancelling, closing and auditing a skipped upstream are left out; a proxy left behind by a half-registered upstream is modelled and excluded by naming open connections.
- RedactorTheorems.AcceptedIsFixpoint: whether the URL parser accepts the text is a parameter; the parser itself is not modelled.
- PublishWorker.Worker.Start: the loop is driven by a finite sequence of events, since otherwise it need never return; the lengths of the debounce and of the timers do not appear in it.
- Pins.HandleSyncArtifacts: entitlement queries, rule targeting and the final rendering of content are parameters or left out; the render function is opaque.
- PinWire.ParsePins: query decoding is left out; the parameters arrive as a list of strings.
- FindingsDigest.Digest: the hash is a parameter, and text is valid Unicode; the replacement of invalid bytes is not modelled.
- FindingsDigest.SortedIsUnique: the library sort is a function with the same result, written back into the array.
- Frontmatter.MemoryRoundTripIff: parsing and emitting YAML is one opaque function that may fail.
- The revocation cache of virtual keys, which wraps a store lookup that is not part of this model.
- Metrics of reclaims and lookups, quota and usage counting, call interception, nudge reconnection and the order of server shutdown.
