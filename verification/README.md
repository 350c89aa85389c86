# Verification of the webbpulse cores

A Dafny model of the stateful and protocol-like parts of the `webbpulse` package, with proofs of
what they keep. `dafny verify dfyconfig.toml` checks everything.

| files | what they model |
|---|---|
| `tiered_lease`, `lease_answers`, `lease_protocol`, `lease_safety`, `lease_blocks`, `lease_headroom`, `lease_overstated`, `tiered_limiter`, `lease_cache`, `lease_checks` | the lease-based rate limiter: many containers and threads over one stored row |
| `ordered_dict`, `tail_sampling`, `tail_invariants`, `tail_verdicts`, `tail_runs`, `tail_reasons`, `tail_markers`, `tail_processor` | the tail-sampling span processor |
| `lex`, `ulid`, `audit_events`, `audit_cursors`, `audit_scopes`, `audit_order`, `audit_answers`, `audit_store`, `audit_paging`, `redaction`, `redaction_shows` | audit events: ids, listings, pages and redaction |
| `identity_session`, `device_protocol`, `device_client` | clients of rotating refresh tokens |
| `email_cap`, `email_windows`, `batch_get` | all-or-nothing mail caps, and chunked retried reads |
| `redactor`, `gateway`, `gateway_precedence`, `hkdf`, `base64`, `split`, `signed_cursor`, `start_key` | secret masking, route precedence, key expansion and the two cursor codecs |

Objects whose methods change fields are classes, and each method is proved against a value
function of the old state; the theorems are about those functions and about whole runs of them.
Protocols that interleave (`lease_protocol`, `device_protocol`) are transition systems whose every
step is one locked section, one request or one write.

A second group of modules says what each operation answers in the terms of its inputs alone: the
quota and the row (`lease_answers`), the spans of a trace (`tail_verdicts`), the query's own times and
names (`audit_answers`), the payload's entries (`redaction_shows`), the policy's own limits
(`email_windows`), the keys' segments (`gateway_precedence`). The rate limiter's check, the eviction, flush and shutdown of
the span processor and the listings promise these answers in their own contracts; elsewhere they are
lemmas about the functions the methods are proved against.

## What the proofs found

- The claim loop of the rate limiter never reaches its contention error while no row is deleted, but
  `remaining` can exceed `limit`. It does so exactly when a write-back adds to a lease more counts than
  its row accounts for (`LeaseHeadroom.WriteBackExceedsExactly`), and under the default settings a run
  from the start reports 108 of 100 (`LeaseOverstated.ConcurrentHeadroomFails`). Under one quota no run
  does in which each container has one check under way at a time (`LeaseHeadroom.TurnsNeverExceed`), or
  in which claims are written back in the order they were charged and none is made behind the stored
  minute (`LeaseHeadroom.OrderedNeverExceeds`). The order alone is not enough: a run that keeps to it
  reports 107 of 100 (`LeaseOverstated.BehindHeadroomFails`). One quota is needed: the quota is an
  argument of each check, and a smaller one overstates what a lease still holds
  (`LeaseHeadroom.SmallerQuotaExceeds`).
- A block is remembered under the key alone, with the limit it hit. It is justified for every check of
  a quota no looser than that limit (`LeaseSafety.MemoryRefusalJustified`); a check of a larger quota is
  refused by it too, though the row may have room.
- An audit listing mints its cursor without a look at its length and refuses it above 4096 characters.
  With a long tenant or target the walk ends in `InvalidStartKey` after its first page: without a
  target from 1490 ASCII letters of tenant on (`AuditStore.LongTenantStops`). `AuditCursors.CursorsFit`
  is the condition to check before the call.
- The audit target index is a plain join on `#`. A listing whose tenant or target type holds a `#` can
  answer another tenant's rows: tenant "a#b" asking for type "c" and id "d" is answered the row of
  tenant "a", type "b", id "c#d" (`AuditPaging.ListingLeaks`). `AuditEvents.Collides` is the exact
  condition, for the read and for the listing (`AuditPaging.ListingLeaksExactly`).
- `iter_events` looks at `max_items` only after it has yielded, so a walk over one settled event asked
  for none yields it (`AuditPaging.AskedForNone`). A walk keeps its bound exactly when the bound is at
  least one or the walk meets no event (`AuditPaging.YieldsAtMostExactly`).
- The second redaction pass, the event's own, can raise where the action's did not: when the action
  hides a name the default does not, a payload nested to the depth limit passes once and is refused
  next (`Redaction.HiddenTooDeep`).
- An overflow marker can be left without an open span in two ways: the span that overflows its trace is
  the last one open, or the processor is shut down, which forgets the open spans and not the markers
  (`TailMarkers.MarkerWithoutSpansExactly`). The next span of the trace discards it, except after the
  shutdown.
- A device login's refresh token can be presented twice although every answer was stored: a command
  killed while its request is on the way frees the file lock
  (`DeviceProtocol.AbandonedRequestReplays`). Saving a login takes no lock, and is still safe. A
  keyring that refuses to delete a session is not complained of, so a sign-out can leave it there.
- An identity session whose server answers a refresh with a 200 that is not JSON loses a token
  rotated in the body, though not one rotated in a cookie (`IdentitySessions.NotJsonLosesBodyToken`).
- `decode_cursor` refuses its own cursor whenever the sixteen signature bytes hold the byte 0x2E.
- The documentation of the route matcher says no `{var}` segment matches the empty segment a
  trailing slash leaves. The code lets it, and so resolves `/a/` to `GET /a/{id}`
  (`Gateway.SlashedInput`); `Gateway.ResolvesUnslashedExactly` says when a path resolves to a key that
  does not end in a slash, and `Gateway.SlashedMatchExactly` when such a key matches one that does.
- A secret that is part of the word "redacted" survives masking, and it is the only kind free of
  square brackets that does (`Redactors.ScrubCleansExactly`).

## Model

| member | source | states |
|---|---|---|
| `LeaseSafety.NeverOverCap` | src/webbpulse/ratelimit.py:740-827 | over any run of any containers and threads, whatever quota each check brings, admissions charged to a stored minute plus counts leased or in flight for it never exceed the greatest `per_minute` any check asked for, nor those of the row the greatest `per_day`; under one quota that is its own |
| `LeaseSafety.NeverOverCapPerClaimMinute` | src/webbpulse/ratelimit.py:740-827 | admissions labelled with wall-clock minute M exceed the cap by at most the counts claimed in M behind a later stored minute, so not at all without skew |
| `LeaseSafety.RunKeeps` | src/webbpulse/ratelimit.py:740-912 | every run keeps the invariant, and the row only advances |
| `LeaseSafety.NeverContended` | src/webbpulse/ratelimit.py:888-912 | no thread of any run ever reaches the contention error |
| `LeaseSafety.AttemptChargesOnce` | src/webbpulse/ratelimit.py:888-911 | one attempt adds its lease once to minute and day and never moves the stored minute back, or leaves the row alone and has an attempt left |
| `LeaseSafety.StoreRefusalJustified` | src/webbpulse/ratelimit.py:790-795 | a claim is granted nothing exactly when the minute or the day was at the cap of the check's own quota before the write |
| `LeaseSafety.FinishFollowsGrant` | src/webbpulse/ratelimit.py:797-827 | an empty grant is a refusal and any other an admission, with the right ledger tag |
| `LeaseSafety.MemoryRefusalJustified` | src/webbpulse/ratelimit.py:763-771 | a refusal from memory is one the store would give to any check of a quota no looser than the limit it reports: always for a day block, and for a minute block until the stored minute moves on |
| `LeaseSafety.OneQuotaRefusalJustified` | src/webbpulse/ratelimit.py:763-771 | so over every run under one quota it is one the store would give to the very check it refuses |
| `LeaseSafety.ExactlyTheCap` | src/webbpulse/ratelimit.py:740-827 | with leases of one, no day quota and one shared minute, exactly min(requests, `per_minute`) are admitted |
| `LeaseSafety.LeaseIsMost` | src/webbpulse/ratelimit.py:848-861 | a claim asks for the most that a divisor's share of the rate and of what the lease knows to be left of minute and day allow, for one when that is none, and for one on a cold key |
| `LeaseHeadroom.WriteBackExceedsExactly` | src/webbpulse/ratelimit.py:790-808 | a write-back reports more remaining than its limit exactly when the counts the lease then holds outnumber those its row had counted, or the cap |
| `LeaseHeadroom.MemoryExceedsExactly` | src/webbpulse/ratelimit.py:772-775 | an answer from memory does exactly when what the lease last heard plus what it holds passes the cap it is asked about |
| `LeaseHeadroom.OrderedNeverExceeds` | src/webbpulse/ratelimit.py:762-808 | over any run under one quota that writes claims back in the order they were charged and makes none behind the stored minute, every admission reports less than its limit |
| `LeaseHeadroom.TurnsNeverExceed` | src/webbpulse/ratelimit.py:762-808 | over any run under one quota in which no container has two checks under way, whatever the clocks, faults and other containers do, every admission reports less than its limit |
| `LeaseHeadroom.SequentialHeadroom` | src/webbpulse/ratelimit.py:762-808 | one check without threads in between leaves the lease in good order, whatever the row holds |
| `LeaseHeadroom.SmallerQuotaExceeds` | src/webbpulse/ratelimit.py:772-775 | a smaller quota overstates a lease in good order exactly when it is below what the lease reports, and no larger one does |
| `LeaseOverstated.ConcurrentHeadroomFails` | src/webbpulse/ratelimit.py:797-808 | a run from the start under the default lease sizes reports 108 remaining of 100 |
| `LeaseOverstated.BehindHeadroomFails` | src/webbpulse/ratelimit.py:797-808 | so a run that writes its claims back in the order of their charges reports 107 of 100, when one was charged behind the stored minute |
| `LeaseChecks.CheckIsRun` | src/webbpulse/ratelimit.py:740-827 | an undisturbed `check_key` of any limiter is a run of the protocol's steps: same answer, same lease, same row |
| `LeaseChecks.ChecksAreRun` | src/webbpulse/ratelimit.py:740-827 | any checks by any number of limiters over one table are a run of the protocol |
| `LeaseChecks.LimitersKeepDayCap` | src/webbpulse/ratelimit.py:793-795 | so the limiters together never let through more than the greatest `per_day` any check asked for |
| `LeaseProtocol.NextKeeps` | src/webbpulse/ratelimit.py:757-827 | each phase, eviction and failed claim keeps conservation of tagged counts, the caps and the blocks' backing |
| `LeaseProtocol.AttemptCaps` | src/webbpulse/ratelimit.py:888-901 | neither conditional update charges a stored minute past its cap |
| `LeaseProtocol.AttemptPhase` | src/webbpulse/ratelimit.py:888-911 | the two conditions are complementary, so what a failed attempt learnt holds for the next |
| `LeaseProtocol.RowAdvances` | src/webbpulse/ratelimit.py:888-896 | no step takes the stored minute or the day count back |
| `TieredLease.LeaseSize` | src/webbpulse/ratelimit.py:848-861 | a lease is between one and the largest allowed |
| `TieredLimiter.CounterTable.Claim` | src/webbpulse/ratelimit.py:863-912 | unless the store raises, the three-attempt loop always writes, whatever the prediction and the other writers, and adds the lease to the right minute |
| `TieredLimiter.CounterTable.Update` | src/webbpulse/ratelimit.py:898-910 | one conditional update on one row, after any interference; one that raises may have been applied |
| `TieredLimiter.TieredRateLimiter.CheckKey` | src/webbpulse/ratelimit.py:740-827 | the object's whole check is the protocol's peek, claim and write-back, with any sections of other threads in between; a claim that raises lets the request through as failed open and writes nothing back. In its own terms: a lease that is blocked, or holds a count of this minute, answers alone and the row is not touched; otherwise a refusal by a claim names the quota's day limit until the next midnight when the day was spent before the write, else its minute limit until the next minute, and an admission names the limit, window and room that are left and keeps the rest of the grant |
| `LeaseAnswers.ClaimAnswered` | src/webbpulse/ratelimit.py:790-827 | a claim's whole answer from the quota, the time and the row it met: refused exactly when the row had no room, until when, for which limit, and what an admission reports and leaves held |
| `LeaseAnswers.GrantIsMost` | src/webbpulse/ratelimit.py:790-795 | what is granted is the most of the lease the row had room for, and nothing exactly when minute or day was spent |
| `LeaseAnswers.MemoryAnswered` | src/webbpulse/ratelimit.py:762-775 | a check is answered from memory exactly when a block is on or a count of its minute is held, and how |
| `LeaseBlocks.BlockLasts` | src/webbpulse/ratelimit.py:763-771 | after a refused claim every check before the moment it named is refused for the same limit with the time left and leaves the row alone, whatever came between; one at that moment is not; the moment is the next midnight when the day was spent and the next minute otherwise |
| `LeaseBlocks.MemoryRefusalEnds` | src/webbpulse/ratelimit.py:763-771 | over every run of the protocol a refusal from memory ends where the window it names does, a day's with its own day |
| `LeaseBlocks.TrafficRemembered` | src/webbpulse/ratelimit.py:829-840 | over any checks a lease holds exactly the traffic of its minute, and of the minute before when that is the one just before |
| `LeaseCache.LeastRecentlyUsed` | src/webbpulse/ratelimit.py:829-846 | over any uses a key's lease is remembered exactly while fewer than `cache_size` other keys were used since its last use |
| `TieredLimiter.TieredRateLimiter.BeginCheck` | src/webbpulse/ratelimit.py:762-775 | the first locked phase is the protocol's peek on the cached lease |
| `TieredLimiter.TieredRateLimiter.FinishCheck` | src/webbpulse/ratelimit.py:792-827 | the last locked phase is the protocol's write-back, stored as the most recent of the keys the cache has room for |
| `TieredLimiter.TieredRateLimiter.TouchCached` | src/webbpulse/ratelimit.py:829-840 | a lease is rolled to the minute and becomes the most recent |
| `TieredLimiter.TieredRateLimiter.Insert` | src/webbpulse/ratelimit.py:842-846 | after an insert the cache is the most recently used leases within its size |
| `TieredLimiter.TieredRateLimiter.CheckSubject` | src/webbpulse/ratelimit.py:708-738 | the checks made are of the counted keys in scope order up to the first refusal, which is the answer; otherwise of all of them, and the answer is the enforced admission with least remaining, the first one when all failed open, or `None` when nothing is counted |
| `TieredLimiter.TieredRateLimiter.CheckScopes` | src/webbpulse/ratelimit.py:720-733 | the loop checks each counted key once, in order, and stops at a refusal |
| `TieredLimiter.CountedExactly` | src/webbpulse/ratelimit.py:570-575 | the keys counted are those of the scopes the subject names and the plan limits, a read against the plan's read quota and a write against its write quota, in the day of the check |
| `TieredLimiter.CountedInOrder` | src/webbpulse/ratelimit.py:720-733 | token, then user, then tenant, each at most once |
| `TieredLimiter.ReadsApart` | src/webbpulse/ratelimit.py:575-575 | reads and writes of a scope share a counter exactly when the plan says so |
| `TailRuns.SpansConserved` | src/webbpulse/otel.py:523-557 | over every run each accepted span is buffered, exported, sampled out or overflow-dropped, exactly as often as it ended, and nothing is buffered after shutdown |
| `TailRuns.ErrorsRetained` | src/webbpulse/otel.py:592-600 | with errors always kept and overflow exported, no accepted error span of any run is ever discarded |
| `TailRuns.SampledOutIsFair` | src/webbpulse/otel.py:703-707 | whatever any run samples out is at or above the bound, and error-free when errors are always sampled |
| `TailReasons.ExportedForAReason` | src/webbpulse/otel.py:592-707 | over every run each exported batch is of one trace and holds an error that is always sampled, or has an id below the bound, or is of a trace that overflowed under the export policy |
| `TailReasons.CountersTell` | src/webbpulse/otel.py:574-646 | over every run the counters are the traces sampled out, exported by decision and given up on overflow |
| `TailReasons.OpenExactly` | src/webbpulse/otel.py:508-572 | over every run a trace is open exactly while more of its spans started than ended, from nothing again after the shutdown |
| `TailVerdicts.FlushVerdict` | src/webbpulse/otel.py:709-729 | a flush leaves each open trace as it is, exports each other that has a reason, and samples out, and does not export, each that has none |
| `TailVerdicts.ShutdownVerdict` | src/webbpulse/otel.py:739-767 | the shutdown gives every buffered trace that verdict, open or not |
| `TailVerdicts.BoundedVerdict` | src/webbpulse/otel.py:602-645 | so does an eviction, to each trace it takes |
| `TailVerdicts.OnEndVerdict` | src/webbpulse/otel.py:549-553 | a span that joins its trace's buffer is judged with all of that trace's spans if the trace leaves then |
| `TailVerdicts.OnEndStays` | src/webbpulse/otel.py:602-622 | when a span has joined, no trace as old as the age limit is left, and a younger one is gone only if none of its spans is open and the buffer is full without it |
| `TailVerdicts.OldestGo` | src/webbpulse/otel.py:615-622 | eviction by count takes exactly the oldest completed traces, and as many as it takes to fit or as there are |
| `TailRuns.BufferInvariant` | src/webbpulse/otel.py:549-555 | buffers and start times have the same keys in the same order with nondecreasing times |
| `TailRuns.BufferBounds` | src/webbpulse/otel.py:602-622 | buffered traces are unmarked and hold 1 to `max_spans_per_trace` spans, and the buffer fits or every trace in it is open |
| `TailRuns.RunKeeps` | src/webbpulse/otel.py:508-557 | every run keeps the invariant, and the processor is down exactly when it was shut down |
| `TailMarkers.MarkerWithoutSpansExactly` | src/webbpulse/otel.py:537-555 | over every run a marked trace has no open span exactly when, with no start of it since, its overflow met the last open one or the processor was shut down |
| `TailMarkers.MarkerOutlivesTrace` | src/webbpulse/otel.py:574-600 | under any settings some run leaves a marker by an overflow of the last open span |
| `TailMarkers.ShutdownLeavesMarker` | src/webbpulse/otel.py:759-765 | under any settings some run leaves one by a shutdown with a span still open |
| `TailMarkers.NextSpanDiscards` | src/webbpulse/otel.py:538-547 | one more span of the trace discards such a marker |
| `TailMarkers.DownKeepsMarker` | src/webbpulse/otel.py:529-530 | after the shutdown nothing ever does |
| `TailSampling.KeepSetsNested` | src/webbpulse/otel.py:335-346 | the traces kept at one ratio are kept at every larger one; all at 1 and none at 0 |
| `TailSampling.BoundIsNearest` | src/webbpulse/otel.py:335-337 | the bound is the nearest integer to the ratio's share of the 2^64 ids, the even one of two as near |
| `TailInvariants.AgedLeave` | src/webbpulse/otel.py:608-614 | eviction by age takes exactly the traces at or past the limit |
| `TailInvariants.EvictToFitSpares` | src/webbpulse/otel.py:616-622 | eviction by count spares every trace with open spans |
| `TailInvariants.ShutdownEmpties` | src/webbpulse/otel.py:739-782 | shutdown empties the buffers and stops the exporter once |
| `TailInvariants.OnEndKeeps` | src/webbpulse/otel.py:523-555 | an ended span keeps the invariant through buffering, eviction and both overflow policies |
| `TailInvariants.OnEndConserves` | src/webbpulse/otel.py:523-555 | an ended span goes to exactly one place and moves no other span out of all of them |
| `TailInvariants.FlushKeeps` | src/webbpulse/otel.py:709-729 | a flush keeps the invariant and leaves only traces with open spans |
| `TailProcessor.AgedPrefix` | src/webbpulse/otel.py:610-613 | in start order the loop's early `break` misses no aged trace |
| `TailProcessor.TailSamplingSpanProcessor.SpanEnded` | src/webbpulse/otel.py:523-557 | the object's `on_end` is the value step, field by field |
| `TailProcessor.TailSamplingSpanProcessor.EvictAgedLocked` | src/webbpulse/otel.py:608-614 | the loop with the early `break` evicts exactly the aged traces, in order |
| `TailProcessor.TailSamplingSpanProcessor.EvictToFitLocked` | src/webbpulse/otel.py:616-622 | the loop evicts oldest completed traces until the buffer fits or only open ones are left |
| `TailProcessor.TailSamplingSpanProcessor.EvictOneLocked` | src/webbpulse/otel.py:624-645 | one eviction takes the trace out and exports its spans exactly when one is an error that is always sampled or its id is below the bound, and samples it out otherwise |
| `TailProcessor.TailSamplingSpanProcessor.CloseSpanLocked` | src/webbpulse/otel.py:559-572 | the open-span count falls by one, and the result says whether it reached zero |
| `TailProcessor.TailSamplingSpanProcessor.ResolveOverflowLocked` | src/webbpulse/otel.py:574-600 | a full trace is streamed or dropped whole and marked |
| `TailProcessor.TailSamplingSpanProcessor.ForceFlush` | src/webbpulse/otel.py:709-729 | a flush judges every completed trace and no other: those with a reason are exported, those with none sampled out |
| `TailProcessor.TailSamplingSpanProcessor.ShutDown` | src/webbpulse/otel.py:739-782 | shutdown judges everything once, in the same terms; a second one does nothing |
| `Ulid.MintOrder` | src/webbpulse/dynamodb.py:243-249 | id order is the order of (milliseconds, random) |
| `Ulid.TimePrefix` | src/webbpulse/dynamodb.py:243-249 | the first ten characters encode exactly the 48-bit timestamp, with a leading digit of at most 7 |
| `Ulid.RenderOrder` | src/webbpulse/dynamodb.py:247-249 | the base-32 rendering at one length keeps numeric order both ways |
| `Ulid.FloorSplits` | src/webbpulse/audit.py:178-183 | an id sorts at or above a moment's floor exactly when it was minted then or later |
| `Ulid.RangeSelects` | src/webbpulse/audit.py:471-482 | the string range of two floors selects exactly the ids of that millisecond range, and an inclusive range agrees with the half-open one |
| `AuditEvents.TargetKeyInjective` | src/webbpulse/audit.py:388-390 | `#`-free tenants and types keep index keys apart |
| `AuditEvents.IndexReadsTarget` | src/webbpulse/audit.py:683-688 | an index read is the tenant's target filter on every table of valid events exactly when the key does not collide |
| `AuditEvents.PlainNeverCollides` | src/webbpulse/audit.py:388-390 | without `#` in tenant and type there is no collision |
| `AuditEvents.ReadSelectsWanted` | src/webbpulse/audit.py:683-704 | the key condition and filters of a table read select exactly what the in-memory store answers with |
| `AuditEvents.KeyHitTenant` | src/webbpulse/audit.py:683-697 | an index read stays inside the tenant and the range, so its last key resumes |
| `AuditOrder.SameEventsSameOrder` | src/webbpulse/audit.py:781-792 | two strictly descending listings of the same events are equal |
| `AuditOrder.ListingIs` | src/webbpulse/audit.py:781-792 | filtering and sorting lists exactly the wanted events below the cursor, strictly descending |
| `AuditAnswers.ListingAnswers` | src/webbpulse/audit.py:471-491 | a listing holds exactly the stored events of the tenant minted at or after `since` and before `until`, with the actor, the action and the target asked for |
| `AuditAnswers.WantedMeans` | src/webbpulse/audit.py:471-491 | so does the in-memory predicate of one event; moments outside the id range are refused and an empty range asks for nothing |
| `AuditScopes.CursorIsItsListings` | src/webbpulse/audit.py:424-428 | a cursor is taken up by exactly the listings of its tenant and target whose range holds its row, within the decoder's bound, and refused by every other |
| `AuditScopes.CursorInTime` | src/webbpulse/audit.py:471-482 | in times: exactly when the row was minted within that listing's `since` and `until` |
| `AuditStore.InMemoryAuditLogStore.Append` | src/webbpulse/audit.py:750-756 | an id already stored is refused and nothing is overwritten |
| `AuditStore.InMemoryAuditLogStore.ListEvents` | src/webbpulse/audit.py:758-803 | the answer is the specified page for any cursor text, refusals included; what it holds is what the query's own times and names ask for |
| `AuditStore.MemoryWalkServes` | src/webbpulse/audit.py:793-803 | following the in-memory cursors serves the listing page by page up to the first cursor it refuses itself |
| `AuditStore.MemoryWalkIsListing` | src/webbpulse/audit.py:793-803 | with room for every cursor the walk concatenates to the whole listing, for every page size |
| `AuditStore.MemoryWalkRefused` | src/webbpulse/audit.py:793-803 | with room for none it ends refused after one page, unless that page is the whole listing |
| `AuditStore.LongTenantStops` | src/webbpulse/dynamodb.py:419-420 | two events of a tenant of 1490 ASCII letters, one to a page: the walk is refused after the first |
| `AuditStore.MemoryCursorAccepted` | src/webbpulse/audit.py:794-803 | a page's own cursor is taken up exactly when its token is within 4096 characters |
| `AuditCursors.MintReads` | src/webbpulse/dynamodb.py:377-435 | a minted cursor names its row again exactly when it is within the bound, and is refused otherwise |
| `AuditCursors.WithinBound` | src/webbpulse/dynamodb.py:393-401 | a token is within the bound exactly when its JSON takes at most 3072 bytes |
| `AuditCursors.TooLongExactly` | src/webbpulse/audit.py:424-428 | a page's cursor is too long exactly when the escaped tenant, target and id make it so |
| `AuditCursors.FittingNeverTooLong` | src/webbpulse/audit.py:424-428 | a condition on tenant and target, checked before the call, rules out every over-long cursor |
| `AuditCursors.ShortNamesFit` | src/webbpulse/audit.py:424-428 | the condition holds for all short enough names, whatever their characters |
| `AuditCursors.PlainThreshold` | src/webbpulse/audit.py:424-428 | without a target the cursor fits up to 1489 escaped bytes of tenant and never above |
| `AuditPaging.DynamoAuditLogStore.ListEvents` | src/webbpulse/audit.py:653-720 | a page holds at most `limit` events and covers the listing of all settled rows from its cursor down to the key its own cursor names, whatever is appended meanwhile, all of it by the query's own times and names; a start key without exactly the read's own attributes is refused by the table, and other faults are those of the in-memory store, for any cursor text |
| `AuditPaging.DynamoAuditLogStore.ReadRounds` | src/webbpulse/audit.py:706-719 | the round loop stitches short filtered reads without gap or repeat |
| `AuditPaging.DynamoAuditLogStore.IterEvents` | src/webbpulse/audit.py:817-837 | the walk loses no event settled at the start that the query's own times and names ask for, yields no other, repeats none and stays strictly descending; it ends at the event that reaches `max_items`, at the end of the listing with that unreached, or refused at the first cursor of its own that is too long |
| `AuditPaging.Yield` | src/webbpulse/audit.py:831-834 | `max_items` is compared after each event |
| `AuditPaging.YieldsAtMostExactly` | src/webbpulse/audit.py:817-837 | a walk yields at most its `max_items` exactly when that is at least one or the walk meets no event; asked for none or fewer it yields at most one |
| `AuditPaging.NoneYieldsNewest` | src/webbpulse/audit.py:817-837 | asked for none over a settled table it yields the newest event there is |
| `AuditPaging.AskedForNone` | src/webbpulse/audit.py:831-834 | such a walk over one event yields it |
| `AuditPaging.ListingLeaksExactly` | src/webbpulse/audit.py:683-688 | a listing of one target through the index answers another's row from some table exactly when its key collides |
| `AuditPaging.ListingLeaks` | src/webbpulse/audit.py:388-390 | tenant "a#b" listing "c" and "d" is answered the row of tenant "a" about "b" and "c#d" |
| `AuditPaging.AuditTable.Query` | src/webbpulse/dynamodb.py:660-699 | the read contract: eventually consistent, newest first, at most `limit` rows before the filter, cut anywhere, with a last key |
| `AuditPaging.Stitch` | src/webbpulse/audit.py:706-719 | a read resumed from another's last key continues it, however the table grew |
| `AuditPaging.MarkFalls` | src/webbpulse/audit.py:828-837 | each page ends strictly lower among finitely many ids, so the walk ends under any appends |
| `AuditPaging.OwnCursorAccepted` | src/webbpulse/audit.py:675-680 | a listing takes up its own cursor exactly when it is within the decoder's bound, and refuses it otherwise |
| `AuditPaging.FittingNeverRefused` | src/webbpulse/audit.py:817-837 | with room for every cursor, checked before the call, a walk is never refused on the way |
| `AuditPaging.NoRoomRefuses` | src/webbpulse/audit.py:817-837 | with room for none every cursor the listing hands out is refused |
| `AuditPaging.StoresAgree` | src/webbpulse/audit.py:738-803 | over settled rows, with nothing appended and room for the cursors, walking the table and walking memory give the same |
| `AuditPaging.QuietWalk` | src/webbpulse/audit.py:653-720 | with every row settled and nothing appended the whole table walk is the in-memory listing |
| `Redaction.ApplyIsClean` | src/webbpulse/audit.py:219-258 | at every depth no secret name keeps its value and no string looks like a secret, within the depth limit and the allowlist |
| `RedactionShows.ApplyShows` | src/webbpulse/audit.py:219-258 | what comes out, at every depth: the allowed names in the order they first stand in the payload, each with the replacement under a secret name or else the last entry's own value, and the exact form of numbers, dates, enums, sets and lists |
| `RedactionShows.ApplyHas` | src/webbpulse/audit.py:223-234 | a name is in the result exactly when some entry has it and is allowed |
| `RedactionShows.PassesExactly` | src/webbpulse/audit.py:229-258 | a payload is accepted exactly when all that is kept and looked at has text keys, JSON values and at most 32 levels |
| `RedactionShows.SecretKeyMeans` | src/webbpulse/audit.py:207-213 | a name is secret exactly when its last underscore-separated parts, some or all of them, are a secret name |
| `Redaction.ApplyTwice` | src/webbpulse/audit.py:219-258 | redaction is idempotent |
| `Redaction.BuildKeepsBoth` | src/webbpulse/audit.py:939-949 | the action's pass and then the event's keep both guarantees, and the second succeeds exactly when what it looks at is within the limit |
| `Redaction.FitsUnderMore` | src/webbpulse/audit.py:341-345 | when the default hides all the action hides, the second pass cannot fail |
| `Redaction.HiddenTooDeep` | src/webbpulse/audit.py:232-237 | whenever the action hides a name the default does not, some payload passes the first pass and is refused by the second |
| `IdentitySessions.NeverReplayed` | src/webbpulse/e2e/identity.py:172-248 | in any order of any threads' calls a spent token is presented only if some honoured answer was not delivered |
| `IdentitySessions.ReplayExactly` | src/webbpulse/e2e/identity.py:193-224 | the next exchange is a replay exactly when some honoured answer was lost before it |
| `IdentitySessions.NotJsonLosesBodyToken` | src/webbpulse/e2e/identity.py:209-217 | after a 200 that is not JSON the next exchange is a replay exactly when the token was rotated in the body |
| `IdentitySessions.BurstRefreshesOnce` | src/webbpulse/e2e/identity.py:172-191 | a burst of callers with one stale token, refused or near expiry, succeeds in at most one refresh |
| `IdentitySessions.OneRefreshServesTheRest` | src/webbpulse/e2e/identity.py:180-191 | after the first exchange that brings a token nothing at all is posted by the rest |
| `IdentitySessions.IdentitySession.RefreshLocked` | src/webbpulse/e2e/identity.py:193-224 | the locked exchange, with every way an answer can fall short |
| `IdentitySessions.IdentitySession.AbsorbRefresh` | src/webbpulse/e2e/identity.py:226-248 | rotated material is kept even when no access token came |
| `IdentitySessions.IdentitySession.BearerToken` | src/webbpulse/e2e/identity.py:172-178 | posts one refresh exactly when the expiry is no further off than the skew; otherwise the token is answered and nothing changes |
| `IdentitySessions.IdentitySession.RefreshForRetry` | src/webbpulse/e2e/identity.py:180-191 | a token another caller already replaced costs no refresh, and the session's own costs one |
| `DeviceProtocol.NeverReplayed` | src/webbpulse/device_login.py:364-399 | over any interleaving of calls, logins, sign-outs and crashes, a spent token is presented only if an honoured answer was not stored or a request outlived its sender |
| `DeviceProtocol.DoKeeps` | src/webbpulse/device_login.py:364-425 | each step keeps the lock discipline and the freshness of every token in hand, a failed keyring delete included |
| `DeviceProtocol.LostAnswerReplays` | src/webbpulse/device_login.py:387-399 | from any session due for refresh, one lost answer makes the next refresh a replay |
| `DeviceProtocol.AbandonedRequestReplays` | src/webbpulse/device_login.py:364-399 | from any such session, a killed command's late request is a replay although every answer was stored |
| `DeviceProtocol.BurstRefreshesOnce` | src/webbpulse/device_login.py:377-384 | however many commands find the session stale, at most one refresh is honoured while new sessions stay fresh |
| `DeviceClient.AccessIsRun` | src/webbpulse/device_login.py:364-399 | an undisturbed `access_token` is its steps in the protocol and lets go of the lock |
| `DeviceClient.LogoutIsRun` | src/webbpulse/device_login.py:401-425 | a sign-out is its steps in the protocol, and whatever the issuer says the keyring is empty afterwards exactly when it was before or lets the session go |
| `DeviceClient.RevokedHonoursNothing` | src/webbpulse/device_login.py:409-419 | after a revocation that arrived the token earns only a refusal |
| `DeviceClient.DeviceLoginClient.RefreshLocked` | src/webbpulse/device_login.py:377-399 | re-read, reuse, forget or refresh and store, exactly, whatever the keyring does with a delete: a session with more than a minute left is answered and nothing is posted, an ended one is deleted, any other has its refresh token presented once |
| `DeviceClient.DeviceLoginClient.AccessToken` | src/webbpulse/device_login.py:364-375 | the session answered as stored has its access token and more than a minute left at one of the two looks; with neither and not ended its refresh token is presented exactly once; with either the issuer and the keyring are unchanged |
| `DeviceClient.DeviceLoginClient.SignOut` | src/webbpulse/device_login.py:401-425 | one revocation of the stored token and one delete are asked for; the local copy goes unless the keyring refuses, which nobody is told, and `revoked` is only ever true when the revocation arrived |
| `DeviceClient.AwaitApproval` | src/webbpulse/device_login.py:340-362 | the polling loop ends; each wait is the asked interval, at least one second, plus five for every slow-down so far; it stops at the first answer that settles the login, with that outcome, and otherwise only past the deadline |
| `DeviceClient.PollsBounded` | src/webbpulse/device_login.py:334-349 | a patient client polls no more often than its deadline divided by its first wait |
| `EmailCap.NeverOverCap` | src/webbpulse/email_cap.py:206-269 | over any run no recipient, tenant or day has more counted sends in a window than its limit |
| `EmailWindows.RecipientCap` | src/webbpulse/email_cap.py:222-237 | over any run a recipient of a tenant is sent no more counted mail of a category in one recipient window than the category's own `per_recipient` |
| `EmailWindows.TenantCap` | src/webbpulse/email_cap.py:222-237 | nor a tenant in its window than `per_tenant` |
| `EmailWindows.DailyCap` | src/webbpulse/email_cap.py:222-237 | nor anyone in a day than the daily limit |
| `EmailWindows.AnsweredExactly` | src/webbpulse/email_cap.py:206-220 | after any run an answered send goes exactly when none of its recipient's, tenant's and day's limits is spent, and a refusal names exactly the spent ones |
| `EmailWindows.UncappedExactly` | src/webbpulse/email_cap.py:191-220 | a send is uncounted exactly when its category has no limit on, and fails open exactly when it is counted and its write fails |
| `EmailCap.RunKeeps` | src/webbpulse/email_cap.py:248-269 | every row equals the sends of its group that were counted, admitted or lost to a fault, and is within its limit |
| `EmailCap.RefusalJustified` | src/webbpulse/email_cap.py:206-220 | a refused send met a named window spent to the last by counted sends of its own group |
| `EmailCap.RefusalChangesNothing` | src/webbpulse/email_cap.py:248-269 | a refusal changes no row and names a counter at its limit, by either write path |
| `EmailCap.AtLimitExactly` | src/webbpulse/email_cap.py:331-343 | with one reason listed for each counter, the scopes a refusal reports are exactly those at their limit, and there is one exactly when not every counter is below it |
| `EmailCap.FailedScopesAreAtLimit` | src/webbpulse/email_cap.py:331-343 | with one reason listed for each counter, a failed condition for those at their limit, the scopes read out of them are those |
| `EmailCap.KeysMeanGroups` | src/webbpulse/email_cap.py:222-237 | two counters share a row exactly when they count the same group, whatever characters the tenant holds |
| `EmailCap.CategoriesApart` | src/webbpulse/email_cap.py:222-237 | mail of one category never moves a counter of the other |
| `EmailCap.EmailSendCap.CountSend` | src/webbpulse/email_cap.py:248-269 | both write paths are the one all-or-nothing check |
| `EmailCap.EmailSendCap.Check` | src/webbpulse/email_cap.py:191-220 | the decision and the new rows, faults included |
| `BatchGet.Repository.BatchGet` | src/webbpulse/dynamodb.py:1046-1095 | either every existing requested item exactly once, or an error, raised exactly when a chunk was pending after its last attempt |
| `BatchGet.Repository.ReadChunk` | src/webbpulse/dynamodb.py:1081-1094 | one chunk's attempts ask only for what is left, however the service splits it |
| `BatchGet.Repository.GetMany` | src/webbpulse/dynamodb.py:1126-1135 | maps precisely the distinct nonblank ids that exist, and fails exactly when the read of those ids exhausts its attempts |
| `BatchGet.CallsBounded` | src/webbpulse/dynamodb.py:1081-1094 | no chunk costs more than `max_attempts` calls |
| `BatchGet.WantedExactly` | src/webbpulse/dynamodb.py:1126-1126 | the ids asked for are the nonblank ones, once each |
| `BatchGet.DistinctSlices` | src/webbpulse/dynamodb.py:481-484 | chunks of distinct keys share none |
| `Redactors.ScrubHides` | src/webbpulse/logging.py:65-70 | no maskable registered secret is left anywhere in the output |
| `Redactors.ScrubKeeps` | src/webbpulse/logging.py:65-70 | a text that holds no registered secret comes out as it is |
| `Redactors.ReplaceJoins` | src/webbpulse/logging.py:69-69 | masking one secret cuts the text at its leftmost occurrences, puts the mask at each and changes nothing else |
| `Redactors.ScrubCleansExactly` | src/webbpulse/logging.py:65-70 | for bracket-free secrets every text comes out clean exactly when none lies inside the word "redacted" |
| `Redactors.SecretBecomesMask` | src/webbpulse/logging.py:34-45 | because longer secrets go first, one standing between characters no secret holds is masked whole, even when it contains others |
| `Redactors.AddKeeps` | src/webbpulse/logging.py:52-58 | the list stays duplicate-free and longest first, and holds exactly what was worth masking |
| `Redactors.ExtendKeeps` | src/webbpulse/logging.py:60-63 | so it does through any number of additions |
| `Redactors.Redactor.Add` | src/webbpulse/logging.py:52-58 | ignores what is absent, short or known, and sorts after each addition |
| `Redactors.Redactor.Scrub` | src/webbpulse/logging.py:65-70 | the loop replaces secret by secret in list order; no maskable secret is left, and a text without any is untouched |
| `Gateway.MatchSegments` | src/webbpulse/e2e/gateway.py:271-289 | the loop scores exactly the matching keys, with the class of each segment through the greedy one |
| `Gateway.ScoreExactly` | src/webbpulse/e2e/gateway.py:256-289 | a key matches exactly when its segments before the greedy one agree and the lengths allow it |
| `Gateway.SegmentsKeepPath` | src/webbpulse/e2e/gateway.py:233-242 | two paths look alike to the matcher only up to the leading slash, never a trailing one |
| `Gateway.RankTotal` | src/webbpulse/e2e/gateway.py:333-338 | any two ranks compare exactly one way |
| `Gateway.RankTransitive` | src/webbpulse/e2e/gateway.py:333-338 | and the order is transitive |
| `Gateway.Resolve` | src/webbpulse/e2e/gateway.py:317-342 | the answer is the first key of greatest rank among those that match, and "" when none does |
| `GatewayPrecedence.ResolvesToPreferred` | src/webbpulse/e2e/gateway.py:317-342 | the key resolved to serves the request and no serving key outranks it: by more segments, then by a literal over a variable over the greedy one at the first difference in kind, then by a named method over any |
| `GatewayPrecedence.OutranksExactly` | src/webbpulse/e2e/gateway.py:256-289 | the ranks compare two serving keys exactly as their segments and methods do |
| `GatewayPrecedence.ServesIsRanked` | src/webbpulse/e2e/gateway.py:271-289 | a key is ranked exactly when its method is the request's or any and its segments fit the path one by one |
| `GatewayPrecedence.LiteralOverVariable` | src/webbpulse/e2e/gateway.py:245-253 | where two keys first differ in a literal and a variable the literal one is resolved to, in either order |
| `GatewayPrecedence.PartsExactly` | src/webbpulse/e2e/gateway.py:329-329 | a key is cut at its first space |
| `Gateway.TieMeansSameShape` | src/webbpulse/e2e/gateway.py:317-342 | keys with the greedy segment last that tie on one request are equal up to variable names |
| `Gateway.OrderIndependent` | src/webbpulse/e2e/gateway.py:317-342 | with no two keys alike the answer does not depend on the keys' order or repetition |
| `Gateway.OrderMattersExactly` | src/webbpulse/e2e/gateway.py:317-342 | for two keys order is immaterial to every request exactly when they are not alike |
| `Gateway.SlashedMatchExactly` | src/webbpulse/e2e/gateway.py:256-289 | a key that does not end in a slash matches a path that does exactly when a variable takes the empty segment, or a greedy one does, and the segments in front agree |
| `Gateway.ResolvesUnslashedExactly` | src/webbpulse/e2e/gateway.py:317-342 | a path resolves to a key that does not end in a slash exactly when one matches and outranks every match that does |
| `Gateway.SlashedResolves` | src/webbpulse/e2e/gateway.py:317-342 | any path with a slash behind it resolves to the key with a variable there, when that is the key there is |
| `Gateway.SlashedInput` | src/webbpulse/e2e/gateway.py:317-342 | so `GET /a/` resolves to `GET /a/{id}` |
| `Gateway.SlashedMatch` | src/webbpulse/e2e/gateway.py:317-324 | a slashed path is matched only by a key ending in a slash, a variable or a greedy segment |
| `Gateway.VariableTakesEmpty` | src/webbpulse/e2e/gateway.py:271-289 | a variable does take the empty last segment |
| `Hkdf.ExpandKey` | src/webbpulse/security.py:100-134 | exactly `length` bytes of the standard's block chain, or the refusal of a length below zero or above 255 blocks; every counter is a byte |
| `Hkdf.DeriveKey` | src/webbpulse/security.py:137-169 | the keyed hash of the master key under the salt, or under 32 zero bytes without one, expanded |
| `Hkdf.OkmAt` | src/webbpulse/security.py:127-134 | each output byte belongs to the block its position names, with a counter from 1 to 255 |
| `Hkdf.OkmRecurs` | src/webbpulse/security.py:127-134 | each byte is the keyed hash's over the 32 bytes of output before its block, the info and the block's number |
| `Hkdf.ShorterIsPrefix` | src/webbpulse/security.py:127-134 | a shorter derivation is the front of a longer one |
| `Hkdf.CounterFits` | src/webbpulse/security.py:122-126 | the counter stays within a byte exactly up to the ceiling |
| `SignedCursors.RoundTripExactly` | src/webbpulse/http.py:1788-1831 | a cursor comes back as its state exactly when its signature holds no dot, and is refused otherwise |
| `SignedCursors.ReadsOnlySigned` | src/webbpulse/http.py:1805-1831 | a state is read exactly when its text stands before a dot and its own signature under the key, which holds no dot |
| `SignedCursors.NeedsKey` | src/webbpulse/http.py:1834-1839 | without a key nothing is signed and nothing is read |
| `Base64.DecodeEncode` | src/webbpulse/http.py:1842-1850 | unpadded URL-safe base64 round-trips |
| `Base64.DecodePaddedEncode` | src/webbpulse/dynamodb.py:341-347 | padded base64 round-trips |
| `StartKeys.RoundTripExactly` | src/webbpulse/dynamodb.py:377-435 | a key comes back exactly when it has one to four named attributes with finite numbers, the token is within its bound and the scope is the one it was minted under; it is refused otherwise |
| `StartKeys.ValueRoundTrip` | src/webbpulse/dynamodb.py:333-374 | each key value keeps its type and content, and a number that is not finite is refused |
| `StartKeys.EnvelopeHolds` | src/webbpulse/dynamodb.py:426-429 | the envelope passes exactly under the scope it was stamped with |
| `StartKeys.NothingRoundTrips` | src/webbpulse/dynamodb.py:391-417 | no key is no token, and no token is the first page |
| `StartKeys.AcceptsOnlyKeys` | src/webbpulse/dynamodb.py:430-435 | whatever is presented, what is accepted can be a table's key |
| `StartKeys.AcceptsExactly` | src/webbpulse/dynamodb.py:404-435 | a token is taken for a key exactly when it has at most 4096 characters and reads as an object of the version, this scope and one to four named attributes that carry that key's values, each under its own tag, and of nothing else |

## Left out

- Rate limiter: failed-open admissions are counted apart and no cap is claimed of them, and no row
  is ever deleted by its TTL. The per-IP limiters, headers and middleware would add easy members.
- Rate limiter: the lease is a value in the cache's map rather than an object of its own; no
  reference to it outlives the lock, so aliasing is not at stake. A key is a tuple, not its joined text.
- Clocks are whole seconds or milliseconds, and readings are arguments; one check reads one clock.
- Span processor: every call is one locked step. The hand-over to the exporter after the lock is
  released, the exporter's failures, spans without a context, and the race of a second shutdown with
  the first are not modelled. Ratios are reals, rounded as the source rounds. The two clock readings
  of one `on_end` are arguments.
- Audit store: items are the events themselves, and the attribute names are the default ones. A read
  may miss rows that have not settled, and a settled one is seen by every later read, of the index
  too. `purge_tenant`, the field codecs and CSV export are not modelled. Rows are of valid events, whose
  tenant and target type hold no `#`. The id check is the ULID pattern as the source writes it, whose
  `$` also allows one trailing newline.
- Redaction: patterns and the snake-casing of names are parameters, asked only that "[redacted]" is no
  secret value and that dates are no secrets; mapping keys are in insertion order, and a set's sorted
  order is given. A float is a number like any other.
- Device login: the request that starts a login and the printed prompts are not modelled; storing the
  approved session is the protocol's `SaveLogin` step.
- Refresh clients: tokens are numbered, the issuer's own checks are its `Present` or `Post`, and a
  session's JSON is its fields. Headers, error texts and the lock file itself are not modelled; the
  file lock is released when its holder ends.
- EmailCap.FailedScopesAreAtLimit: asks for one reason a counter, in order. A cancellation that lists a
  conflict in place of one counter's failed condition names fewer scopes, and that report is not modelled.
- Mail caps: hashing an address gives any `#`-free text, TTLs and log lines are not modelled, and the
  policy's comparison of the two categories' limits, a constructor check, is not used by any proof.
- BatchGet.Repository.BatchGet: asks for distinct keys, as the service itself does, and the table does
  not change during the read. Back-off times are not modelled.
- Route keys: fetching and expressibility of keys are not modelled; `GreedyLast` is what the gateway
  requires of a key.
- Cursors: JSON, the keyed hash and decimal text are parameters, asked to round-trip and to be as long
  as compact ASCII JSON is, or as the hash is; base64 text outside the alphabet decodes to anything. Floats equal to the version number are
  not modelled.
- Settings, middleware, error envelopes, metrics, e-mail rendering and browser code are single-branch
  plumbing.
