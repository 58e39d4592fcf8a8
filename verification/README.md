# Verified model of the Strix core kit

This project models five parts of the core kit and proves what they promise.

**Transactional outbox and relay.** `RelayProtocol` is one state machine for the whole outbox: any
number of processes, each with its relay loop, one-slot channel, sweep schedule and open
transactions; one outbox table; the broker's stream; the consumers. Every step is atomic and labelled
with the outcome the environment chose, so failed publishes, lost acknowledgements, failed marks that
were written after all, duplicated deliveries, rollbacks and crashes are all ordinary steps.
`RelaySafety`, `RelayOrder` and `RelayWake` prove what every run keeps, `RelayProgress` what the loop's
own steps achieve when nothing fails, and `RelayBackoff` how the wait of an idle tenant grows. `SweepSchedules`, `RelayLoop`
and `BaseTx` are the schedule object, the relay goroutine and `InTx` in the shape of the source; each
of their effects is a step of the machine and between any two of them everybody else may take any
number of steps. `Discovery` is the relay's view of which tenants are active.

**Idempotency keys.** `IdempotencyProtocol` is a lease over one table in which each SQL statement is a
step under the database's clock. The record and release statements check no owner, so the guarantees
need live claimants to finish within `min(StaleAfter, TTL)` of their claim. The machine says so: an
attempt that would act later counts as crashed. `RecordIsOwnIffOnTime` shows the bound is exact.
`IdempotencyHistory` proves what no run ever does, `IdempotencyReplay` what succeeds: that a recorded
response is replayed. `IdempotencyRun` is `claim`, `run` and `Cleanup` under interference.

**Pool registry.** `PoolProtocol` interleaves the two critical sections of every `get` with eviction,
reaping and closing. `LinkedList` and `Pools` are the doubly linked ring, the map and the object,
proved to do to the sequence what the protocol says, with the lock released while a pool is dialed. `PoolHistory` ties the list to the gets of the run.

**Exact rules and tree snapshots.** `Brackets`, `Severance`, `StepBands` and `StepFormulas` are the
progressive table, the cumulative severance loop and the threshold lookups; decimals add, subtract,
multiply and compare exactly, so they are reals. `Forests`, `Divisions` and `Catalogs` are the two tree
snapshots: a breadth-first search downwards, walks upwards, and their agreement.

**Tenant discovery.** `TenantDiscovery` has LIKE as section 9.7.1 of the PostgreSQL documentation
defines it, the escaping, the enumeration and the resolver's substitution.

In each machine the lemmas `OutcomesAreOpen` (and `RelayProtocol.CrashesAreOpen`) show that no failure
is excluded: every statement, publish, mark or dial may fail at any point, and any process may crash.

Assumptions: an error from `Commit` means nothing was committed; a snapshot's ids are unique; and, for
delivery order and wake-up respectively, the conditions stated with those results.

Where the code needs more than its comments say:

- The comments at `outbox/outbox.go:81` and `outbox/relay.go:303-305` promise that no later event of an
  entity is delivered first. Ids are drawn from a sequence when a row is inserted but rows appear when
  they commit. `AnEventIsOvertaken` is a run from an initial state in which two transactions draw ids 1
  and 2, the second commits and is published, and then the first commits.
  `OrderSurvivesIffInIdOrder` proves exactly when a commit does no such harm: when it brings nothing
  below what is already published or in some loop's batch.
- The comment at `outbox/relay.go:228` says that the sweep already pending takes a newly flagged tenant
  too. A tick sweep takes every flag but visits only the tenants it lists. `Relay.Sweep` states which:
  a taken flag ends in a visit exactly if the sweep was woken or the tenant is listed.
  `ATickDropsAFlag` is a run that drops one; its event waits for a sweep that lists the tenant.
- `adminAndPattern` accepts a database name in which `{slug}` comes twice (`SlotTwice`). `Resolve`
  replaces every slot but discovery cuts at the first. `RepeatedSlotHidesEveryTenant` proves that then
  no database the resolver would open, for any slug, is listed, and that with one slot each is. A
  database with literal braces in its name may still be.
- `hcmrules/formula.go:159-161` says bands may come in any order. `OrderIsFreeIffTiesAgree` proves that
  at a tenure the order matters exactly when top-ranked ties differ in value, and
  `OrderIsAlwaysFreeIffEqualRanksAgree` gives the check of the table alone. Absences refuse such tables;
  the notice formula reads them, as `TiedNoticeDependsOnOrder` shows.
- The published quick deduction is a correct shortcut exactly when each tier it can reach carries the
  derived deduction: `ShortcutAgreesIffDeductionsDerived`.

Check everything with `dafny verify dfyconfig.toml`.

## Model

| member | source | states |
|---|---|---|
| RelayOrder.FirstDeliveriesAreInOrder | outbox/relay.go:290-317 | In every run with any number of replicas, crashes, lost acknowledgements and failed marks: wherever an event stands in the stream, every visible event of its tenant with a smaller id stands before it, if commits are in id order |
| RelayOrder.OrderSurvivesIffInIdOrder | outbox/relay.go:290-317 | From an ordered state a commit keeps first-delivery order in every ordered future if and only if it brings no id below one already in the stream or in a batch being published; otherwise some run overtakes it |
| RelayProgress.AnEventIsOvertaken | outbox/relay.go:290-317 | A run from an initial state after which an event stands in the stream while a visible one with a smaller id does not |
| RelayOrder.VisibilityInIdOrderSuffices | outbox/outbox.go:95-135 | Rows becoming visible in id order per tenant is enough for that condition |
| RelaySafety.NoEventIsLost | outbox/outbox.go:138-147 | A committed row is, in every later state, still pending for the next fetch or in the stream; a marked row is in the stream; the stream never loses anything |
| RelaySafety.OneEffectPerEvent | outbox/outbox.go:172-187 | Over any duplicated or concurrent deliveries an event has exactly as many committed effects as keys recorded, at most one, and only if it was committed and published |
| RelaySafety.CommittedDeliveryIsFinal | outbox/outbox.go:172-187 | A delivery that commits is the event's first effect, and its only one in every future |
| Consumers.DeliveriesSettle | outbox/outbox.go:172-187 | A delivery that commits adds one effect and its key, after which only duplicates answer; one that aborts adds nothing and leaves the event to be claimed again |
| RelaySafety.RunKeepsSafe | outbox/outbox.go:63-76 | Every run keeps: ids come from the sequence and are not shared, marked rows are in the stream, the batch in hand is committed and what the loop has passed is in the stream |
| RelayWake.NoEventWaitsOutABackoff | outbox/relay.go:224-277 | In every reachable state the tenant of an unpublished event written with Insert is flagged, about to be, in the current sweep's hands, or at the base interval and due within one |
| RelayWake.NoWakeUpIsLost | outbox/relay.go:224-248 | With the stream ready, a flag implies a token in the channel, a committer between flagging and signalling, or a sweep that has not taken the flags yet |
| RelayWake.FlagsSurviveUntilReady | outbox/relay.go:252-272 | Short of a crash, before the stream is ready no flag is lost, whatever sweeps abort |
| RelayProgress.WokenTenantIsServed | outbox/relay.go:224-317 | From every reachable idle state with the stream ready and the tenant flagged, the loop's own next steps, after the signal of a committer about to send it if the token is missing, and with everything acknowledged, end with the tenant's whole next batch in the stream and marked |
| RelayProgress.ATickDropsAFlag | outbox/relay.go:252-272 | A run from an initial state in which a committed event's tenant is flagged and signalled, and a tick that does not list it leaves the event pending with no flag and no visit |
| RelayWake.RelayKeepsCovered | outbox/relay.go:290-317 | No step of the loop leaves a tenant with a pending event uncovered: an empty outcome only follows a fetch that found nothing |
| RelayLoop.Relay.Drain | outbox/relay.go:290-317 | Under interference: the batch is what the run's own fetch answered; its first rows are published and marked, all of them unless the last step of the run is a failed publish or mark; "not busy" exactly when the fetch succeeded and the tenant had nothing pending then |
| RelayLoop.Relay.Sweep | outbox/relay.go:252-272 | The stream is ready afterwards exactly if it was or was created now; a sweep without it drops no flag and visits nobody; otherwise it takes the flags in its own step, and visits exactly the flagged tenants when woken, on a tick exactly those of its own listing that are flagged or due |
| RelayLoop.Relay.SweepTenant | outbox/relay.go:274-277 | A visit whose fetch succeeded and found nothing leaves the wait at min(2 x previous or base, idleMax) if idleMax is above base, any other at base; the next instant is the recording one plus the wait; no other tenant's entry moves |
| RelayBackoff.EmptyVisitsBackOff | outbox/schedule.go:60-78 | Over any run in which the process neither crashes nor lists without the tenant and every fetch of it succeeds empty: after n recorded visits the wait is min(base 2^n, idleMax), or base with the backoff off, counted from the last recording |
| RelayBackoff.CadenceIsConfigured | outbox/relay.go:208-220 | In every reachable state each process runs at the configured base and cap |
| BaseTx.Base.InTx | tenancy/base.go:92-145 | All or nothing under interference: on success there is one row per write, every one is visible and, if some write was an Insert, this process's to be woken for, and the hook ran exactly then; on error no row is visible and no hook ran |
| BaseTx.Base.Notify | tenancy/outboxwake.go:38-45 | After the commit the hook runs, then the channel is signalled exactly if a relay had registered when it ran, and the transaction is gone |
| Outbox.Fetch | outbox/outbox.go:95-135 | The pending rows of one tenant ascending by id, at most the limit, leaving out only larger ids and only when full |
| Outbox.OldestHeadsTheBatch | outbox/outbox.go:95-135 | The oldest pending row of a tenant heads its next batch, so younger rows cannot starve it |
| Outbox.FetchLeavesMarkedRows | outbox/outbox.go:95-135 | A marked row is never fetched again, and while there is room no unmarked row is left out |
| SweepSchedules.BackoffDoublesUpToTheCap | outbox/schedule.go:64-78 | n empty sweeps after a busy one wait min(base 2^n, idleMax), and always base with the backoff off |
| SweepSchedules.SweepsOfOneTenantOnly | outbox/schedule.go:64-78 | One busy sweep restores the base cadence, and no sweep of a tenant moves another's schedule or any flag |
| SweepSchedules.SweepSchedule.Due | outbox/schedule.go:53-58 | A tenant never swept is due, any other from its next instant on |
| SweepSchedules.SweepSchedule.Done | outbox/schedule.go:64-78 | The object's whole state becomes the recorded outcome's |
| SweepSchedules.SweepSchedule.TakeWoken | outbox/schedule.go:88-97 | Answers every flag and leaves none |
| SweepSchedules.SweepSchedule.Prune | outbox/schedule.go:101-113 | Keeps exactly the entries of active tenants, and every flag |
| Discovery.StandingMeans | outbox/discover.go:121-179 | A tenant is confirmed failing exactly if it failed while the active tenants were known, a refresh since still found it, and it was neither read nor missing from a refresh ever since |
| Discovery.Discovery.FetchFailed | outbox/discover.go:164-174 | A failure is reported exactly if the active tenants are unknown or the tenant is confirmed failing; otherwise it only brings the next refresh forward |
| Discovery.Discovery.FetchOK | outbox/discover.go:176-179 | A read clears the tenant's suspicion and its confirmed failure |
| Discovery.Discovery.Adopt | outbox/discover.go:121-156 | A refresh makes the answer the active set, confirms the failed tenants still in it and forgets the others |
| Discovery.Discovery.Tenants | outbox/discover.go:61-119 | Discovery is asked at the first sweep, once a period, or after the early gap when a tenant has failed; the sweep covers the last answer, or before the first one the live pools and the fixed list |
| Discovery.FirstOnceMembers | outbox/discover.go:74-84 | The fallback list names each tenant once and no empty one |
| Discovery.FirstOnceKeepsOrder | outbox/discover.go:74-84 | In the order in which the tenants first come |
| IdempotencyHistory.KeyExclusion | idempotency/idempotency.go:251-339 | At most one live attempt per key is between claim and record or release, and all that time the row exists, is in progress and holds that attempt's hash |
| IdempotencyHistory.HandlerSpacing | idempotency/idempotency.go:262-339 | Two handler starts of a key have a release between them or lie more than min(StaleAfter, TTL) apart, more than the TTL if the first response was recorded |
| IdempotencyHistory.ReplayFidelity | idempotency/idempotency.go:262-353 | A replayed response was returned by a handler for a request with the same method, principal type, subject and body under the same key |
| IdempotencyHistory.CompletedRowsAreAnswers | idempotency/idempotency.go:283-291 | A completed row holds a readable response that some handler returned for just its hash |
| IdempotencyHistory.HandlerRunsForOwnersOnly | idempotency/idempotency.go:251-291 | Refusals and replays never reached a handler; a fresh answer or a handler error reached one exactly once |
| IdempotencyReplay.RecordedIsReplayed | idempotency/idempotency.go:251-353 | Over any run: once an attempt has recorded its response, any other attempt with the same key and request whose statements succeed within the TTL of that claim answers exactly that response, the one the first attempt's handler returned |
| IdempotencyReplay.InsertAnswers | idempotency/idempotency.go:304-315 | A successful insert owns the key exactly if there was no row; a failed one may have written it all the same |
| IdempotencyReplay.TakeoverAnswers | idempotency/idempotency.go:317-329 | A successful takeover owns the key exactly if the row was past the TTL, completed or not, or in progress past StaleAfter |
| IdempotencyReplay.ReadAnswers | idempotency/idempotency.go:331-353 | A successful read answers, by the row: another request's hash, missing or in progress, its response, or one that cannot be read |
| IdempotencyReplay.HandlerAnswers | idempotency/idempotency.go:266-282 | A recordable answer goes on to be recorded, one that is not is answered unrecorded, an error goes on to the release |
| IdempotencyReplay.RecordAnswers | idempotency/idempotency.go:283-291 | A live attempt's record completes its own row with its response |
| IdempotencyReplay.ReleaseFreesTheKey | idempotency/idempotency.go:271-278 | A live attempt's release removes its row, so that the next insert owns the key |
| IdempotencyProtocol.FrameIsInjective | idempotency/idempotency.go:237-249 | Equal hash inputs mean the same four parts when the first three hold no NUL |
| IdempotencyProtocol.NulBreaksFraming | idempotency/idempotency.go:237-249 | Without that condition two different requests hash alike: a NUL in the subject against an empty submessage in the body, whatever the method |
| IdempotencyProtocol.RecordIsOwnIffOnTime | idempotency/idempotency.go:269-324 | A response recorded after another request tried to take the row over stands under its own hash if and only if that try came within the window of the claim |
| IdempotencyRun.Store.Claim | idempotency/idempotency.go:303-339 | Under interference: owning means the row is in progress, with this hash, claimed now; otherwise an answer is settled, by the row as this attempt read it, and no handler has run |
| IdempotencyRun.Store.RunKey | idempotency/idempotency.go:251-291 | The handler ran exactly for a fresh answer or a handler error; any other answer but unavailable says what the row was when this attempt read it: another request's, missing or in progress, or holding the response replayed, which some handler returned for this hash |
| IdempotencyRun.Store.CleanupTenant | idempotency/idempotency.go:381-392 | Deletes exactly one tenant's rows past the TTL, changes and adds none; no live claimant loses its row |
| PoolProtocol.PoolsAreConserved | tenancy/pools.go:168-296 | In every reachable state each opened pool is held by one get, registered once or closed once; a tenant has at most one registered pool; at most the limit are registered |
| PoolProtocol.EvictionTakesTheOldest | tenancy/pools.go:168-232 | Registering evicts only past the limit, one tenant at most, only a least recently used one, and never the one just opened, which leads the list |
| PoolHistory.ListIsOrderedByLastUse | tenancy/pools.go:168-216 | In every reachable state each registered tenant is stamped with the instant of its last foreground get or registration in the run and stands before every tenant whose last one came earlier |
| PoolHistory.EvictedWereUsedEarlier | tenancy/pools.go:197-232 | Whom a registration evicts had its last foreground get or registration earlier in the run than everyone it keeps |
| PoolProtocol.StepKeepsByRecency | tenancy/pools.go:168-284 | Under a clock that never goes back the list stays ordered by last use |
| PoolProtocol.ReapedMembers | tenancy/pools.go:271-284 | Reaping drops exactly what nobody used for IdleClose and is not busy |
| LinkedList.List.Remove | tenancy/pools.go:219-232 | Unlinking one element leaves the others linked in order |
| LinkedList.List.MoveToFront | tenancy/pools.go:173-182 | The element leads, the others keep their order |
| PoolProtocol.HitLeads | tenancy/pools.go:173-182 | A foreground hit puts its entry first with the new time and keeps the others in order; a background hit and a miss change nothing |
| Pools.Registry.Lookup | tenancy/pools.go:173-184 | List and map do just that: the answer is the tenant's pool, from the front with the new time if the get is a foreground one, and a miss means the tenant is nowhere in the list |
| Pools.Registry.Register | tenancy/pools.go:197-215 | A pool registered meanwhile stays, by a hit, foreground or background as asked, and the new one is closed; otherwise the new one leads, the others follow in order up to the limit, and the rest is closed |
| Pools.Registry.EvictLocked | tenancy/pools.go:219-232 | The loop leaves the first entries up to the limit and closes the rest from the back |
| Pools.Registry.ReapIdle | tenancy/pools.go:271-284 | The backward walk with removal does what filtering the sequence does |
| Pools.Registry.Close | tenancy/pools.go:287-296 | Every registered pool is closed once and both structures are empty |
| Pools.Pools.Get | tenancy/pools.go:168-216 | With any steps of others while it dials, the pool answered is the tenant's registered one and not closed; its last critical section was a hit, foreground or background as asked, or put the new pool in front; a tenant registered at the call is a hit at once |
| Divisions.Subtree | divisions/client.go:194-207 | From a root that is not its own ancestor, cycles elsewhere or not, the breadth-first search answers, once each, exactly the divisions whose upward chain has the root |
| Divisions.SearchEndsIffRootOffCycle | divisions/client.go:203-205 | The search ends if and only if the root is not its own ancestor |
| Divisions.Ancestors | divisions/client.go:234-257 | On any snapshot, cyclic or broken: ends, answers the chain from the root down exactly when there is one, an error otherwise; in a forest it answers every known id |
| Forests.AllRootedIffForest | divisions/client.go:194-257 | Every node has a chain to a root if and only if every parent is 0 or present and no node is its own ancestor |
| Divisions.Path | divisions/client.go:209-232 | Joins the codes of just that chain, and fails exactly when it does not exist; in a forest it answers every known id |
| Divisions.PathTellsTheCodes | divisions/client.go:209-232 | Codes without a slash can be read off the path again |
| Divisions.Validate | divisions/client.go:335-353 | Wherever the walk ends, at an inactive ancestor at the latest: valid exactly on a chain that reaches a root, active all the way up; otherwise missing, inactive itself, below an inactive ancestor with everything active in between, or below a missing parent, whichever holds |
| Divisions.DeactivationClosesTheSubtree | divisions/client.go:335-353 | On any snapshot deactivating a division makes invalid exactly the valid ids below it and changes no other |
| Divisions.AncestorsAgreeWithSubtree | divisions/client.go:194-257 | The root is among a division's ancestors exactly when the division is in the root's subtree |
| Divisions.BuiltTreeMatches | divisions/client.go:318-330 | From unique ids the built snapshot lists each node once, under its own parent and nowhere else |
| Divisions.BuildTree | divisions/client.go:318-330 | The nodes are exactly the ids answered, each with the parent, code and flag of the last division that carries it; each parent lists the divisions that name it, in order |
| Divisions.BuiltAsAnswered | divisions/client.go:318-330 | With unique ids every division is a node as it was answered |
| Catalogs.CheckCoherence | divisions/catalogs.go:167-205 | True if and only if the centre's anchor is on the division's chain of ancestors; an error exactly for an unknown centre or anchor |
| Catalogs.Validate | divisions/catalogs.go:363-397 | Wherever the walk ends: valid exactly on a chain to a root, all of it active and inside its window; otherwise missing, inactive or out of window itself, below such an ancestor with everything open in between, or below a missing parent, whichever holds |
| Catalogs.ShuttingClosesTheSubtree | divisions/catalogs.go:363-397 | Shutting a centre by flag or window makes invalid exactly what hangs below it |
| Catalogs.ValidDaysAreAnInterval | divisions/catalogs.go:363-397 | The days on which a centre is valid have no gap |
| Brackets.ShortcutAgreesIffDeductionsDerived | hcmrules/bracket.go:87-117 | On every contiguous table marginal accumulation and the quick-deduction lookup agree at every covered base, boundaries included, if and only if each tier the lookup can reach carries the derived deduction |
| Brackets.CoveredMeansContained | hcmrules/bracket.go:108-117 | The lookup has an answer exactly from the first lower bound to the last upper bound |
| Brackets.CappedTaxStops | hcmrules/bracket.go:30-46 | Above a capped table the tax stays what it is at the cap, and the lookup has no answer |
| Brackets.OrderIsIrrelevant | hcmrules/bracket.go:47-55 | Permuting the tiers never changes the tax |
| Brackets.SortIsStable | hcmrules/bracket.go:121-128 | The sorted copy is ascending, holds the same tiers, and keeps ties in order |
| Brackets.StableSortIsUnique | hcmrules/bracket.go:121-128 | There is only one such arrangement, so any stable sort answers it |
| Brackets.MonthIsWithheldInFull | hcmrules/bracket.go:57-82 | From a base no tier reaches, the withholdings over any chain of payments add up to the tax of the total, in whatever order the tiers are given |
| Brackets.IncrementsAreNotNegative | hcmrules/bracket.go:57-82 | With ordered bounds and no negative rate no increment of a growing month is negative |
| Brackets.EvalBracket | hcmrules/bracket.go:47-55 | Errors for an empty table and a negative base, else the tax of the tiers in whatever order |
| Brackets.EvalBracketIncremental | hcmrules/bracket.go:69-82 | Errors for a falling base, an empty table and a negative base, in that order, else the increment |
| Brackets.QuickDeduction | hcmrules/bracket.go:108-117 | The lookup of the first tier containing the base; an error exactly when none does |
| Severance.SeveranceIsProgressive | hcmrules/formula.go:109-154 | On ceilings that climb from 0 the severance loop, early break and all, is the marginal accumulation at min(years, cap) over one tier per band, from the ceiling before up to its own at its days per year |
| Severance.OnlyReachedBandsFail | hcmrules/formula.go:124-152 | A missing band coefficient is an error exactly for tenures that get past every band before it |
| Severance.SeveranceGrowsWithTenure | hcmrules/formula.go:109-154 | With no negative rate more tenure never owes less |
| Severance.Cesantia | hcmrules/formula.go:109-154 | The loop computes the recursive form these results are about, errors included |
| StepBands.HighestMet | hcmrules/formula.go:472-480 | Answers the met band that no met band outranks, the first on a tie; not ok exactly when none is met |
| StepBands.WinnerIsUnique | hcmrules/formula.go:472-480 | That describes one band |
| StepBands.OrderIsFreeIffTiesAgree | hcmrules/formula.go:469-480 | No reordering of the bands changes the answer if and only if top-ranked met bands carry one value |
| StepBands.OrderIsAlwaysFreeIffEqualRanksAgree | hcmrules/formula.go:469-480 | That holds at every tenure if and only if bands of one threshold carry one value |
| StepFormulas.TiedNoticeDependsOnOrder | hcmrules/formula.go:187-205 | The notice formula reads a table whose two bands tie, numbered either way, and at the threshold the numbering alone decides what is owed |
| StepBands.MonotoneIffValuesClimb | hcmrules/formula.go:453-480 | More tenure never answers a smaller value if and only if values climb with the rank, bands hidden behind an equal one left out |
| StepFormulas.Preaviso | hcmrules/formula.go:176-206 | The first unreadable coefficient is the error; else the highest band met, or nothing |
| StepFormulas.NoticeTableIs | hcmrules/formula.go:181-201 | The notice table is readable exactly if its count is whole and in range and every band has threshold, days and no flag but 0 or 1; and then its bands are its coefficients |
| StepFormulas.AbsenceEmployerShare | hcmrules/formula.go:404-442 | The share of the band that starts latest on or before the day; an error exactly when every band starts later |
| StepFormulas.AbsenceBandsInAnyOrder | hcmrules/formula.go:413-437 | Two readable tables with the same bands answer every day alike, however numbered |
| StepFormulas.AbsenceTableIs | hcmrules/formula.go:413-437 | The absence table is readable exactly if its count is whole and in range, every band has a day from 1 on and a rate, and no two days are equal; and then its bands are its coefficients |
| StepFormulas.CesantiaArt29 | hcmrules/formula.go:237-322 | A broken table fails for every tenure alike; under a year the highest band met, or nothing; from one year on what the next rows say |
| StepFormulas.Paid29 | hcmrules/formula.go:310-321 | Up to one year less than the table is long, the days of the row of the completed years, beyond that of the last row, for each year counted |
| StepFormulas.FractionNeverMovesTheRow | hcmrules/formula.go:216-221 | Whatever the months beyond the completed years, the row is that of the completed years |
| StepFormulas.OneYearEightMonths | hcmrules/formula.go:220-221 | One year and eight months owe 19.5 x 2 = 39 days |
| StepFormulas.Table29Is | hcmrules/formula.go:252-305 | The table is readable exactly if counts, bands, rows, cap and flags are there and in range; and then it is its coefficients |
| StepFormulas.Counted | hcmrules/formula.go:314-321 | The years paid: one more than completed exactly when the fraction counts, the cap where that is less |
| RuleValues.RequireCount | hcmrules/values.go:44-53 | Exactly the whole numbers in the range are counts, none is shortened |
| RuleValues.IntPart | hcmrules/formula.go:122 | Truncation towards zero |
| TenantDiscovery.PatternMatchesExactly | tenancy/discover.go:303-317 | A name matches the escaped pattern if and only if it is prefix, something, suffix, for any prefix and suffix with wildcards and backslashes |
| TenantDiscovery.EscapedMatchesItself | tenancy/discover.go:314-317 | An escaped fragment matches itself and nothing else, whatever pattern follows |
| TenantDiscovery.EnumerateTenants | tenancy/discover.go:60-86 | Each valid slug is listed exactly as often as its database is a candidate, nothing else is, and the list is in byte order |
| TenantDiscovery.LeqIsByteOrder | tenancy/discover.go:84 | That order: a name before those it begins, and by the first place where two differ |
| TenantDiscovery.SlugCharsAre | tenancy/pools.go:64 | A slug is made of just the letters, digits, underscore and hyphen |
| TenantDiscovery.DiscoveryInvertsResolveIffOneSlot | tenancy/discover.go:289-292 | Discovery and resolver name the same database for a slug if and only if the slot does not come again |
| TenantDiscovery.RepeatedSlotHidesEveryTenant | tenancy/discover.go:280-309 | A database the resolver would open matches the pattern if and only if the slot does not come again; otherwise none of them is listed |
| TenantDiscovery.SlotTwice | tenancy/discover.go:281-292 | Such a template is cut like any other: the second slot lands in the suffix |
| TenantDiscovery.ListedIffResolvable | tenancy/pools.go:67-78 | With one slot the slugs listed are exactly those whose resolved database is a candidate |

## Left out

- gRPC, HTTP, NATS, the Postgres driver, migrations and S3: each statement or publish is its atomic effect with success, failure and lost-answer outcomes.
- `auth`, `pdp`, `authz`, `capabilities`, `parties`, `ratelimit`, `measure`, `decimals`, `textnorm`, `fx`, `telemetry`, `uiserve`, `blob`: thin wrappers, single-branch decisions or unseen library code.
- The one-expression formulas of `hcmrules/formula.go`, and those that round: they would only add easy members.
- Event ids: an event is its tenant and row id; the UUID the consumer deduplicates on is one to one with them. Each tenant's rows are its own database's.
- `BumpAttempts`: it changes a counter that no modelled query reads. Envelope and trace columns, and `Nats-Msg-Id` beyond the broker dropping a copy it remembers.
- `InsertWith` marks no transaction, so wake-up is claimed for rows written with `Insert` only; a transaction's writes are all for its own tenant.
- Nested use of one transaction's mark, panics inside the function passed to `InTx`: a panic is a rollback like an error.
- Liveness of the relay beyond `WokenTenantIsServed`: no fairness of the scheduler or of the network is assumed, and how many sweeps `Relay.Run` makes is its environment's choice.
- `Close` of the pool registry while a dial is in flight: the dial registers its pool afterwards, as in the source; that no pool is left is not claimed.
- The idempotency interceptor's `Unary`, `keyFrom` and `IsWrite`; the SHA-256 digest is taken as collision-free, so it is the framed bytes; an unreadable recorded response is an outcome.
- Exclusion for handlers that outlive the window: it fails, see `RecordIsOwnIffOnTime`.
- Subtree: from a root that is its own ancestor the search does not end, so that root is excluded; nothing else is.
- Validate: a chain that runs into a cycle of active nodes does not end, so a chain that ends is required, for divisions and cost centres.
- The per-tenant snapshot caches of `treeFor` and `costCentersFor`, `Subtree` and `Path` of cost centres, which repeat those of divisions, and the asset types.
- Calendar parsing: a day is a number and a missing or unreadable limit is no limit.
- RuleValues.IntPart: the conversion to a machine integer wraps around beyond 64 bits, which the model does not; only `cesantia_cr` reads its count without the bound.
- Coefficient names: a key is its name with the band number apart, as no two formatted names coincide.
- Connection privileges and the schema check: they decide which databases are candidates.
- URL parsing of templates beyond the database name, including percent escapes, and the search path.
- Logging and warn-once flags, except which tenant failures are reported.
