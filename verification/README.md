# A verified model of the account pool

The repository schedules calls over a pool of AI-provider accounts: it checks their health, filters and selects
them, limits how many calls each carries at a time, and records what came of every call. This project models that
logic and proves what holds of it over every input, every run and every interleaving. One module, one file:

- `HealthGraph`, `HealthChecker`, `HealthTicks`, `CheckClosure`: dependency order, one full run with skip
  propagation, the background ticks, and the checks a command-line run registers.
- `FilterTree`, `FilterMeaning`, `MemoryFilter`, `SqlText`, `MysqlFilter`, `WhereClause`: one condition tree, what it
  says operator by operator, compiled to a predicate and to SQL tokens with positional arguments; a precedence-aware
  parser reads the tokens back.
- `Entities`, `Buckets`, `StoreRelations`, `StatsRecord`, `UsageRecord`, `MemoryStore`: the in-memory store, its
  indexes and its denormalised provider counters.
- `StatusProtocol`: writers of one account's status under optimistic locking, interleaved.
- `StoreHistory`: the store over any sequence of operations.
- `Occupancy`, `OccupancyProtocol`, `AdaptiveLimit`, `Weighted`: slots, their protocol, the adaptive limit, the draw.
- `Resolver`, `PickEnvironment`, `Selection`, `PickRuns`: what may be chosen; what a request is told while it chooses,
  kept in a log; the retry, failover and fallback loops, whose answers are stated over that log; what follows from it.
- `UsageTracker`, `CircuitBreaker`, `Reporting`: quota, breaker and the reports that drive them.

Times and durations are integers in nanoseconds, quantities that are floats in the code are reals, and clocks, the
random draw, check outcomes and the tracker's answer are parameters. Map iteration order is an arbitrary choice
(`:|`). Selectors, the shuffle, cancellation, failures of the statistics store and the slots of other requests are
nondeterministic. What they answer is appended to a log by the objects that answer (the request's environment, the
target of a health run, the runner of a tick), and contracts say what the log shows. Each store operation is one step,
except that batch removal has two.

`dafny verify dfyconfig.toml` checks the project.

## What the code does differently from what it promises

- The account query joins the extra condition with AND and no parentheses (`storage/mysql/account.go:93-94`), so an
  OR at its top takes the first-level fields into its left side only. `QuerySelectsIff` says for which filters and
  accounts that matters and `TopLevelOrLeaks` gives one.
- Recording usage takes positions of the list without expired windows as positions of the stored list
  (`usagetracker/default_tracker.go:50-52`). `RecordingIsRightIff` says exactly when that credits the right rules, and
  `ExpiredWindowTakesTheCredit` gives a case where it does not. Draining after a rate limit takes positions the same way
  (lines 186-212): `DrainingIsRightIff` and `ExpiredWindowTakesTheDrain`.
- Reporting a success zeroes the failure count before it is read (`balancer/default_balancer.go:353`, `371-376`), so
  with this store the branch that closes an open circuit, the fourth point documented for ReportSuccess in
  `balancer/balancer.go`, is not reached. The proof of `ReportSuccess` contains that the branch is dead; the contract
  says an open circuit stays as it is.
- The first attempt of a failure report has no guard on the status it replaces (`balancer/default_balancer.go:451-474`):
  `BannedAccountGetsCooled`. It replaces a settled status exactly as `FirstAttemptReplacesSettledIff` says among
  concurrent writers and `SettledIsReplacedIff` for one call. Only the retry after a conflict has a guard
  (`RetryRespectsSettled`).
- A re-added account starts again at version 1 (`storage/memory/account.go:103`), so a copy read in an earlier
  lifetime can be committed: `StaleCopyAcrossLifetimes`. `CommitsIff` says exactly when, and
  `CopiesOfThisLifeAreNeverStale` that this is the only way.
- `MaxRetries` of 0 is documented as "no retry" (`balancer/balancer.go`), but a number that is not positive is
  replaced by the configured default (`balancer/default_balancer.go:70-73`); `Pick` follows the code, and
  `ZeroRetriesIsOneTryIff` says when the promise is kept.
- `Attempts` is documented as the total number of attempts, but counts the accounts refused by the provider that
  gave one, neither the successful try nor those of earlier providers (`balancer/default_balancer.go:300`):
  `AttemptsAreNotTheTotal`.
- The topological sort reports a duplicate check name as a circular dependency; its contract says so. The checker
  itself never passes duplicates.
- The background ticks do not look at dependencies (`health/default_checker.go:311-319`); only a full run does.

## Model

| member | source | states |
|---|---|---|
| HealthGraph.TopologicalSort | health/default_checker.go:392-444 | Succeeds exactly when names are unique and the graph of registered dependencies has no cycle (self-loops count, unregistered and repeated dependencies do not matter); then the result is a permutation with every registered dependency before its dependents, for any order the zero in-degrees are queued in |
| HealthGraph.StuckHasCycle | health/default_checker.go:439-441 | A nonempty set in which everyone waits for a member contains a cycle: why a short result means a circular dependency |
| HealthGraph.OrderExcludesCycle | health/default_checker.go:388-391 | A graph that has a valid order has no cycle |
| HealthGraph.SortVerdict | health/default_checker.go:439-441 | The final length comparison decides exactly between a complete valid order and duplicate names or a cycle |
| HealthChecker.HealthChecker.Register | health/default_checker.go:101-107 | Puts the schedule under its check's name and keeps the cache invariant: a sort of exactly the enabled checks, or the error, set exactly when they have a cycle |
| HealthChecker.HealthChecker.Unregister | health/default_checker.go:109-115 | Removes the name and keeps the same invariant |
| HealthChecker.HealthChecker.RebuildSortedChecks | health/default_checker.go:369-386 | Establishes that invariant from any schedules keyed by name |
| HealthChecker.HealthChecker.Replay | health/default_checker.go:101-115 | Any sequence of registrations and removals ends with the cache agreeing with the schedules the sequence leads to |
| HealthChecker.HealthChecker.RunAll | health/default_checker.go:130-182 | Fails exactly on cyclic dependencies. Otherwise every enabled check is reported once: as skipped, and not executed on the target, exactly when an enabled check it depends on is reported Failed, Error or Skipped; with its own result, executed, when those it depends on are all Passed or Warning. What is executed is exactly the checks no blocking chain of dependencies leads from |
| HealthChecker.RunIsVerdict | health/default_checker.go:148-173 | After any prefix of any valid order every status is the order-free verdict: skipped when blocked, the check's own outcome otherwise |
| HealthChecker.SkipIsBlocked | health/default_checker.go:446-458 | The one-step skip test over the status map agrees with the existence of a chain of dependencies to a check whose outcome blocks |
| HealthChecker.OrderIndependent | health/default_checker.go:130-182 | Two valid orders of the same schedules give the same map of statuses |
| HealthChecker.SkippedForAReason | health/default_checker.go:446-458 | A check is skipped exactly when a chain of registered dependencies leads to one that itself ran and ended Failed, Error or Skipped |
| HealthChecker.FailuresPropagate | health/default_checker.go:446-458 | The report, read alone: a check is reported as skipped exactly when an enabled one it depends on is reported Failed, Error or Skipped, or when it ran and itself ended Skipped; any other is executed and reported as it ended |
| HealthChecker.BlockedByVerdict | health/default_checker.go:446-458 | A check is blocked exactly when the verdict of one it depends on is Failed, Error or Skipped |
| HealthTicks.BackgroundLoop.TickRun | health/default_checker.go:283-340 | The table of last runs changes only when a leader's tick completes, and then to the tick's time for exactly the due checks, among them every registered, enabled check with an interval that never ran; what the runner logs is the full grid of targets and due checks for a completed tick, a strict prefix of it for an aborted one, nothing for a follower |
| HealthTicks.GridRunsEachOnce | health/default_checker.go:321-334 | The full grid runs a due check once for each listing of a target, and no other check |
| HealthTicks.GridReaches | health/default_checker.go:290-334 | A completed tick executes a check on a target if and only if the target is listed and the check is enabled, has a positive interval, and never ran or last ran at least that long ago |
| HealthTicks.FirstTickRunsAll | health/default_checker.go:290-339 | By the first completed tick of a leader every registered, enabled check with a positive interval has run, no earlier run assumed |
| HealthTicks.OnlyTheseRun | health/default_checker.go:283-339 | Only registered, enabled checks with a positive interval run, and only in completed ticks of a leader |
| HealthTicks.TableIsFromRuns | health/default_checker.go:336-339 | Whatever the table of last runs holds got there by a completed run |
| HealthTicks.RunsAreSpaced | health/default_checker.go:306-319 | In any history of ticks with nondecreasing times, completed runs of a check are at least its interval apart |
| HealthTicks.RunsAreNotLate | health/default_checker.go:306-319 | When all ticks complete at most p apart, consecutive runs are less than interval + p apart |
| HealthTicks.RunsAgain | health/default_checker.go:306-319 | When all ticks complete, a check has run again by the first tick its interval later |
| HealthTicks.AbortedTickKeepsTable | health/default_checker.go:283-340 | An aborted or follower tick leaves every last run as it was |
| HealthTicks.BackgroundLoop.DueChecks | health/default_checker.go:306-319 | Lists exactly the enabled checks with a positive interval that never ran or last ran at least the interval ago, each once, in any iteration order |
| HealthTicks.GetMinInterval | health/default_checker.go:270-280 | The least interval of the enabled periodic checks, 0 exactly when there are none |
| CheckClosure.Collector.Resolve | cli/cmd/account/health.go:263-275 | The recursion ends on cyclic dependencies, closes everything it adds, and adds nothing outside any closed set with the name |
| CheckClosure.CollectDependencies | cli/cmd/account/health.go:257-281 | The least set with the requested names that is closed under dependencies |
| CheckClosure.BuildCheckSchedules | cli/cmd/account/health.go:224-254 | With names: the known checks in that least set, in original order; without: all checks |
| CheckClosure.LeastClosureUnique | cli/cmd/account/health.go:257-281 | The least set is unique, so the order in which names are resolved does not matter |
| CheckClosure.KeepMembers | cli/cmd/account/health.go:246-253 | The schedules kept are exactly those listed whose check is named in the set |
| CheckClosure.KeptDependenciesKept | cli/cmd/account/health.go:224-254 | No known dependency of a kept check is left out |
| MemoryFilter.ConvertCondition | storage/memory/account_converter.go:29-50 | Converts exactly the well-formed trees, and the predicate holds of an account exactly when the tree's meaning does |
| MemoryFilter.BuildLogicalCondition | storage/memory/account_converter.go:52-86 | The scan with early exit over the children's predicates is conjunction or disjunction; an empty list is refused |
| MemoryFilter.BuildInCondition | storage/memory/account_converter.go:110-136 | Membership and its negation, by a search over the listed values |
| MemoryFilter.ScanAllMeans | storage/memory/account_converter.go:69-85 | Early exit computes for-all and exists |
| MemoryFilter.BuildComparisonCondition | storage/memory/account_converter.go:88-108 | Refuses exactly the fields an account does not have; the kind of the value chooses among the four comparisons |
| MemoryFilter.ComparisonsAgree | storage/memory/internal/utils/compare.go:42-163 | The comparisons of strings, numbers, times and booleans, written operator by operator, together are the one comparison that the SQL side is held to |
| FilterMeaning.NumberConditions | storage/memory/internal/utils/compare.go:109-135 | A number condition on status or priority holds exactly when the field is =, !=, >, >=, < or <= the number, for each of the six operators and whatever number type carries it |
| FilterMeaning.TimeConditions | storage/memory/internal/utils/compare.go:84-107 | The same for the four time fields; one that is not set compares as the start of year 1 |
| FilterMeaning.StringConditions | storage/memory/internal/utils/compare.go:42-65 | The same for the three string fields, by the order of strings |
| FilterMeaning.StringLessMeans | storage/memory/internal/utils/compare.go:54-63 | In that order a proper prefix comes first, and otherwise the first character that differs decides |
| FilterMeaning.StringOrderTotal | storage/memory/internal/utils/compare.go:54-63 | Of two different strings exactly one is less, and no string is less than itself |
| FilterMeaning.StringOrderTransitive | storage/memory/internal/utils/compare.go:54-63 | The order is transitive |
| FilterMeaning.BooleanComparisons | storage/memory/internal/utils/compare.go:67-82 | Booleans compare for equality and inequality, and satisfy no other operator |
| FilterMeaning.OtherKindNeverMatches | storage/memory/account_converter.go:88-108 | A value of another kind satisfies no operator, "not equal" included |
| FilterMeaning.FieldsThatCount | storage/memory/account_converter.go:199-232 | Exactly nine fields of an account can be asked about |
| FilterMeaning.RangeIsTwoComparisons | storage/memory/account_converter.go:138-171 | A range is at least its first bound and at most its second, as two comparisons |
| FilterMeaning.ListConditions | storage/memory/account_converter.go:110-136 | IN holds exactly when some listed value equals the field in the field's own type, NOT IN exactly when none does |
| FilterMeaning.ContainsMeans | storage/memory/account_converter.go:184-196 | A pattern is found exactly when it stands somewhere in the string |
| FilterMeaning.PatternConditions | storage/memory/account_converter.go:173-197 | LIKE holds of a string field exactly when the pattern stands somewhere in it, NOT LIKE exactly when it stands nowhere |
| FilterMeaning.FirstLevelMeans | storage/memory/account.go:73-87 | Each first-level field is either not used or the account's own value |
| MysqlFilter.ConvertCondition | storage/mysql/condition_converter.go:82-105 | Accepts exactly the well-formed trees; text and arguments are the rendering of the tree's expression and its values from left to right |
| MysqlFilter.BuildLogicalCondition | storage/mysql/condition_converter.go:108-136 | The accumulating loop parenthesises both sides at every step and keeps arguments in the order of the placeholders |
| MysqlFilter.BuildInCondition | storage/mysql/condition_converter.go:157-181 | One placeholder and one argument for each listed value; a value that is no list, or an empty one, is refused |
| MysqlFilter.BuildBetweenCondition | storage/mysql/condition_converter.go:201-215 | Two placeholders, the bounds in order; any other number of bounds is refused |
| MysqlFilter.BuildLikeCondition | storage/mysql/condition_converter.go:184-198 | Needs a field and a string pattern |
| MysqlFilter.BuildJSONCondition | storage/mysql/condition_converter.go:218-240 | Needs a field and a value with a JSON form |
| MysqlFilter.LeafText | storage/mysql/condition_converter.go:67-215 | A comparison, range or pattern names the column its field is mapped to, or the field when it is not, and binds its values in order |
| MysqlFilter.ListText | storage/mysql/condition_converter.go:157-181 | A list does the same with one mark for each value |
| MysqlFilter.JsonForms | storage/mysql/condition_converter.go:243-257 | A JSON condition takes nil, strings, numbers and booleans, and refuses times, lists and everything else |
| SqlText.ParseRender | storage/mysql/condition_converter.go:82-240 | Reading rendered text with SQL's precedence gives back the expression it was rendered from |
| SqlText.NegationsNegate | storage/mysql/condition_converter.go:157-240 | NOT LIKE, NOT IN and NOT JSON_CONTAINS decide the opposite of the plain forms, which hand the column and the one argument to the database |
| MysqlFilter.ArgsFillSlots | storage/mysql/condition_converter.go:108-215 | As many arguments as placeholders, for every tree |
| MysqlFilter.LeavesAreSame | storage/mysql/condition_converter.go:139-215 | The hypotheses of the next rows hold of every comparison and range with values of the field's kind, on the two optional times when they are set |
| MysqlFilter.ListsAreSame | storage/mysql/condition_converter.go:157-181 | They hold of lists of values of the field's own type |
| MysqlFilter.TreesAreSame | storage/mysql/condition_converter.go:108-136 | They hold of whatever AND and OR make of such conditions |
| MysqlFilter.RowOfAccount | storage/mysql/account.go:80-113 | What the columns of a row are taken to hold for an account: its own values, and NULL for a time that is not set |
| MysqlFilter.ConversionKeepsMeaning | storage/mysql/condition_converter.go:62-215 | For every well-formed tree of and/or/comparison/in/not in/between, well typed over present fields, the text parsed with normal precedence, i-th placeholder bound to i-th argument, selects a row exactly when the in-memory predicate does |
| MysqlFilter.AstMeaning | storage/mysql/condition_converter.go:108-215 | The same equivalence for the expression tree itself, by induction over nested conditions |
| MysqlFilter.SameRefusals | storage/memory/account_converter.go:29-171 | Over account fields the two converters refuse the same trees |
| WhereClause.BuildAccountWhereClause | storage/mysql/account.go:80-95 | The text reads as the used fields chained by AND to the condition, where a top-level OR keeps only its left side with them |
| WhereClause.BuildAccountWhereArgs | storage/mysql/account.go:98-113 | The arguments of the used fields in order, then those of the condition |
| WhereClause.ParseJoined | storage/mysql/account.go:93-94 | How the unparenthesised join reads, for any number of fields and any condition |
| WhereClause.QueryMeaning | storage/mysql/account.go:80-113 | What the whole query decides for a row, top-level OR or not |
| WhereClause.QueryKeepsMeaningIff | storage/mysql/account.go:93-94 | For any condition text: the query decides a row as "fields and condition" if and only if there are no fields, or no top-level OR, or the fields match, or the OR's right side is false |
| WhereClause.QuerySelectsIff | storage/mysql/account.go:80-113 | For any search filter: the query selects an account as the in-memory search does if and only if there are no first-level fields, or the tree does not render as an OR, or the fields match, or the tree's last alternative does not match the account |
| WhereClause.LastIsRight | storage/mysql/condition_converter.go:108-136 | The side of a rendered OR that the fields do not reach is the last alternative of the tree, through any single-child conditions |
| WhereClause.OrAtTheTop | storage/mysql/condition_converter.go:108-136 | Exactly which condition trees render with an OR at the top |
| WhereClause.QueryAgreesWithMemory | storage/mysql/account.go:80-113 | Without a top-level OR, or without first-level fields, the query selects exactly the accounts the in-memory search selects |
| WhereClause.TopLevelOrLeaks | storage/mysql/account.go:93-94 | A query for available accounts with a two-way OR on priority returns a disabled account |
| MemoryStore.Store.SearchAccounts | storage/memory/account.go:23-70 | Indexed path and full scan return exactly the accounts the filter selects, each once; it fails exactly on a condition that does not convert |
| MemoryStore.Store.AddAccount | storage/memory/account.go:89-121 | Refuses a known ID and changes nothing; otherwise stores version 1, credits the provider, and keeps indexes and counters exact |
| MemoryStore.StoredMeans | storage/memory/account.go:97-103 | A new account is stored as given, but with version 1, the time of the call as its update, and as its creation when it brings none |
| MemoryStore.Store.UpdateAccount | storage/memory/account.go:123-182 | Commits exactly when the version matches; then precisely the named fields change, the version goes up by one, and the provider's available count follows the status |
| MemoryStore.UpdateWritesNamed | storage/memory/account.go:137-162 | A field is taken from the update exactly when it is named, the status with its two times; identity and creation never change, and the version goes up by one |
| MemoryStore.UpdatesCompose | storage/memory/account.go:137-162 | Two updates that bring the same values are one update naming the fields of both, two versions up |
| MemoryStore.Store.RemoveAccount | storage/memory/account.go:184-221 | Removes account, statistics and usage, debits the provider, keeps indexes and counters exact |
| MemoryStore.Store.DetachSelected | storage/memory/account.go:240-250 | First half of a batch removal: exactly the selected accounts leave; each is owed to its provider, and the invariant holds in the gap |
| MemoryStore.Store.DebitRemoved | storage/memory/account.go:258-270 | Second half: all that was owed is debited, whatever happened in between |
| MemoryStore.Store.RemoveAccounts | storage/memory/account.go:223-289 | Both halves together leave nothing owed and touch only what the filter selects |
| MemoryStore.Store.SearchProviders | storage/memory/provider.go:23-61 | The model index and the full scan return exactly the providers the filter selects, each once |
| MemoryStore.Store.AddProvider | storage/memory/provider.go:81-100 | Refuses a known key; otherwise stores and indexes it, and fixes what its counters start from |
| MemoryStore.Store.UpdateProvider | storage/memory/provider.go:102-122 | A full replacement that re-indexes type and models, repeated models included |
| MemoryStore.Store.RemoveProvider | storage/memory/provider.go:124-156 | Leaves no account, statistics or usage under its key and changes no other provider |
| MemoryStore.Store.AddToIndexes | storage/memory/provider.go:161-176 | Both indexes equal the relations computed from the provider map afterwards, no empty buckets |
| MemoryStore.Store.RemoveFromProviderIndexes | storage/memory/provider.go:179-198 | The same after taking a provider out |
| StoreRelations.AccountAdded | storage/memory/account.go:319-325 | Adding to the bucket keeps the account index equal to the relation computed from the accounts |
| StoreRelations.AccountRemoved | storage/memory/account.go:328-336 | So does removing, with an emptied bucket dropped |
| StoreRelations.ModelsRemoved | storage/memory/provider.go:187-197 | So does walking a provider's models, duplicates allowed |
| StoreRelations.CreditAgrees | storage/memory/account.go:109-118 | An added account keeps every provider's counts at base + stored + owed |
| StoreRelations.DetachAgrees | storage/memory/account.go:240-250 | An account that leaves the map moves from stored to owed |
| StoreRelations.DebitAgrees | storage/memory/account.go:196-208 | A debit settles what is owed, and the guards against going below zero find a positive count |
| StoreRelations.RestatusAgrees | storage/memory/account.go:164-179 | A status change keeps the available count exact, and its guard finds a positive count |
| StoreRelations.RebaseFresh | storage/memory/provider.go:81-100 | A provider added while no account has its key starts from the counts (a0, v0) it brings |
| StoreRelations.RebaseCurrent | storage/memory/provider.go:102-122 | A replacement carrying current counts leaves that start as it is |
| StoreRelations.CascadeAgrees | storage/memory/provider.go:124-156 | Removing a provider with its accounts disturbs no other counter |
| StoreHistory.CountersThroughHistory | storage/memory/account.go:89-289 | A provider added with counts (a0, v0) >= 0 while no account has its key and nothing is owed under it: after performing any sequence of store operations that does not remove it, batch removals split in two and others in between, AccountCount is a0 + its stored accounts + those deleted but not yet debited, and likewise for available ones; a chain of snapshots from the old tables to the new ones shows what each operation did |
| StoreHistory.Apply | storage/memory/account.go:89-289 | Performs one operation: the new tables, what is owed and the unfinished batches are exactly what it makes of the old ones, or unchanged when it is refused; what the counters of other providers started from stays |
| MemoryStore.Store.IncrSuccess | storage/memory/stats.go:38-49 | One success on the record |
| MemoryStore.Store.IncrFailure | storage/memory/stats.go:51-63 | One failure on the record, answering the length of the run it ends |
| StatsRecord.StatsCountHistory | storage/memory/stats.go:38-63 | After any history TotalCalls = SuccessCalls + FailedCalls = number of reports, SuccessCalls counts the successes, and ConsecutiveFailures is the trailing failure run |
| StatsRecord.FailureRunUnique | storage/memory/stats.go:51-63 | That run is unique |
| StatsRecord.LastOutcomes | storage/memory/stats.go:38-63 | The error and its time are those of the last failure of the history, the time of use that of the last success |
| MemoryStore.Store.GetCurrentUsages | storage/memory/usage.go:11-31 | The windows not yet passed, in stored order |
| UsageRecord.LiveMembers | storage/memory/usage.go:23-29 | A window counts exactly when it has no end or its end is not before this moment |
| UsageRecord.RatioMeans | account/tracked_usage.go:28-53 | The ratio times the total is what neither the remote figures nor the local count used up, 0 when more was used than there was, and the ratio is 1 without a positive total |
| MemoryStore.Store.IncrLocalUsed | storage/memory/usage.go:47-62 | Credits one stored position; a position outside the stored list is refused, an unknown account ignored |
| MemoryStore.Store.CalibrateRule | storage/memory/usage.go:72-93 | Replaces one stored position's remote figures and clears its local count |
| StatusProtocol.CommitsAreComputedFromWhatTheyReplace | storage/memory/account.go:123-162 | Over every interleaving in one account lifetime, each committed write was computed from exactly the account it replaced, and the commits form one unbroken chain of versions |
| StatusProtocol.CopiesOfThisLifeAreNeverStale | storage/memory/account.go:131-135 | Over every interleaving, re-additions of the account included, a commit whose copy was read in the same lifetime was computed from exactly the account it replaced |
| StatusProtocol.QuotaCallbackOnlyCools | balancer/default_balancer.go:611-627 | The quota callback only ever commits Available to CoolingDown |
| StatusProtocol.RetryRespectsSettled | balancer/default_balancer.go:481-500 | In every run, a retried commit of the same lifetime is one of the two failure reports and replaces a status that is none of Banned, Invalidated, Disabled and CircuitOpen, named one by one |
| StatusProtocol.RetryGivesUpIff | balancer/default_balancer.go:481-500 | After losing the race a failure report reads again: finding one of those four statuses it gives up and nothing changes; finding any other it waits with what it found, and if it comes next it stores the status and times it wanted over that |
| StatusProtocol.LosersRetryOnce | balancer/default_balancer.go:476-506 | A write that does not go through changes nothing; the first attempt of a failure report reads again, its second and every other writer give up |
| StatusProtocol.CommitsServe | balancer/default_balancer.go:447-500 | Over every interleaving, each commit did what its writer is for: a cooldown cools until the time given, a trip opens the circuit until the time given, a recovery closes one that its copy showed open, a retry asks for what the first attempt asked for, and none of them touches a field other than status, its times and the bookkeeping |
| StatusProtocol.AloneItWritesIff | balancer/default_balancer.go:371-406 | With nobody in between, a failure report always commits its write, the quota callback exactly when the account is Available, a recovery exactly when its circuit is open; a busy writer does not start over |
| StatusProtocol.RecreateStartsOver | storage/memory/account.go:97-103 | A re-added account has version 1 and no commits, while copies of the earlier one stay with their writers |
| StatusProtocol.CommitsIff | storage/memory/account.go:103-135 | A waiting write of the current lifetime goes through if and only if nobody committed since its copy was read; one of an earlier lifetime if and only if its version is 1 plus the commits since the account was added again |
| StatusProtocol.FirstAttemptReplacesSettledIff | balancer/default_balancer.go:451-480 | The first attempt of a failure report replaces a settled status if and only if: with a copy of the current lifetime, the status it read is settled and nobody committed since; with a copy of an earlier one, the status is settled by now and the copy's version is 1 plus the commits since |
| StatusProtocol.BannedAccountGetsCooled | balancer/default_balancer.go:451-474 | A first attempt replaces Banned by CoolingDown |
| StatusProtocol.StaleCopyAcrossLifetimes | storage/memory/account.go:103 | Across a removal and re-addition a copy of the earlier account is committed over the later one |
| Occupancy.OccupancyStore.IncrOccupancy | storage/memory/occupancy.go:19-21 | One up, answering the new count |
| Occupancy.OccupancyStore.DecrOccupancy | storage/memory/occupancy.go:23-40 | One down, never below zero, the entry dropped at zero |
| Occupancy.FixedLimit.Acquire | balancer/occupancy/fixed_limit.go:111-128 | Undisturbed, grants exactly when the count is below the limit, and changes no count when it refuses |
| Occupancy.FixedLimit.Release | balancer/occupancy/fixed_limit.go:130-132 | Lowers one positive count by one and no other |
| Occupancy.FixedLimit.FilterAvailable | balancer/occupancy/fixed_limit.go:83-109 | Keeps, in order, the accounts below their limit |
| Occupancy.KeepWithRoomMembers | balancer/occupancy/fixed_limit.go:98-106 | Kept are exactly those accounts |
| Occupancy.MostSpecificLimit | balancer/occupancy/fixed_limit.go:135-159 | The limit is the positive number in the account's metadata, a fraction cut off; else that set for the account, else for its provider, else for its provider type, else the default |
| Occupancy.TruncateMeans | balancer/occupancy/metadata.go:45-47 | A float loses its fraction towards zero |
| Occupancy.DecrementUndoesIncrement | balancer/occupancy/fixed_limit.go:122-126 | Rolling back an attempt restores every count |
| OccupancyProtocol.CounterIsExact | balancer/occupancy/fixed_limit.go:111-132 | In every interleaving the count is the holders plus the attempts undecided or not yet rolled back |
| OccupancyProtocol.HoldersWithinLimit | balancer/occupancy/fixed_limit.go:111-128 | In every interleaving no account has more holders than its limit |
| OccupancyProtocol.GetsSlotIff | balancer/occupancy/fixed_limit.go:111-128 | Whatever others do between an attempt's increment and its comparison, it gets the slot if and only if fewer attempts than the limit were in (holding, undecided, or not yet rolled back) when it incremented |
| OccupancyProtocol.LeavingLowersByOne | balancer/occupancy/fixed_limit.go:122-132 | A rollback or a release takes out its own attempt and lowers that account's count by exactly one |
| OccupancyProtocol.ClampNeverFires | storage/memory/occupancy.go:26-29 | Whoever gives a slot back finds a positive count |
| OccupancyProtocol.QuiescentStoreIsEmpty | storage/memory/occupancy.go:31-37 | When everyone has left, no counter remains |
| AdaptiveLimit.CalculateLimit | balancer/occupancy/adaptive_limit.go:158-232 | The minimum when a measured rule is exhausted, the fallback when none is measured or the tracker fails, else the tightest rule's limit, compressed near exhaustion and clamped |
| AdaptiveLimit.RuleLimitInWindow | balancer/occupancy/adaptive_limit.go:187-206 | Within a window the rule's limit n is the largest with n times the seconds left at most what is left times the factor |
| AdaptiveLimit.RuleLimitOutsideWindow | balancer/occupancy/adaptive_limit.go:196-206 | Without a window, or after its end, the same over sixty seconds |
| AdaptiveLimit.CompressMeans | balancer/occupancy/adaptive_limit.go:218-221 | From a ratio of 0.1 on the limit stays; below, it is ten times the ratio of it, rounded up |
| AdaptiveLimit.ClampMeans | balancer/occupancy/adaptive_limit.go:223-229 | A limit within the bounds stays, one outside becomes the bound; the upper one counts only when positive and wins when the two cross |
| AdaptiveLimit.MinRatioMeans | balancer/occupancy/adaptive_limit.go:236-245 | The least remaining ratio, at most 1 |
| AdaptiveLimit.LimitWithinBounds | balancer/occupancy/adaptive_limit.go:220-231 | With a measured rule the limit lies in [minLimit, maxLimit], unbounded above when maxLimit is 0 |
| AdaptiveLimit.LimitIgnoresOrder | balancer/occupancy/adaptive_limit.go:178-213 | The order and repetition of rules do not matter |
| AdaptiveLimit.LimitGrowsWithQuota | balancer/occupancy/adaptive_limit.go:158-232 | More remaining quota in every rule never lowers the limit, across the exhausted early return and the compression below a ratio of 0.1 |
| Weighted.Select | selector/strategies/account/weighted.go:27-62 | The draw picks the candidate whose stretch of the total weight it falls in; the loop always returns |
| Weighted.DrawsMatchWeight | selector/strategies/account/weighted.go:36-58 | The number of draws that pick a candidate is its priority, or 1 when that is not positive |
| Weighted.PriorityIsShare | selector/strategies/account/weighted.go:36-58 | Of all draws a candidate gets as many as its priority, and one when that is not positive |
| Weighted.PickIsUnique | selector/strategies/account/weighted.go:48-58 | No draw picks two candidates |
| Resolver.StorageResolver.ResolveProvider | resolver/storage_resolver.go:27-51 | The provider if and only if it is active or degraded, lists the model and counts an available account, else the error of the first check that fails |
| Resolver.StorageResolver.ResolveProviders | resolver/storage_resolver.go:54-82 | Exactly the active or degraded providers of the type, when one is given, that list the model and count an available account, each once |
| Resolver.StorageResolver.ResolveAccounts | resolver/storage_resolver.go:85-109 | Exactly the accounts of the kind and name given, when given, with status Available and every required tag, and not excluded, each once |
| Resolver.TagsMatchIff | resolver/storage_resolver.go:138-151 | Tags match exactly when each required pair of key and value is among the account's |
| Selection.Balancer.AcquireFromAccounts | balancer/default_balancer.go:255-306 | One net slot on success, none on error. The log shows why: the strategy was always offered exactly the accounts not refused before; a slot was tried for the account it chose and kept, refused, or given back because its use could not be noted; retries exceeded means maxRetries + 1 distinct accounts refused; no account available means the strategy declined or every account was refused |
| Selection.StepTaken | balancer/default_balancer.go:265-299 | What one round of asking and trying adds to the log, and the answer it leads to when it is the last |
| Selection.Balancer.TryAccounts | balancer/default_balancer.go:312-344 | No account available for an empty list; occupancy full exactly when a non-empty list was filtered down to nothing; otherwise what trying those with room ends in |
| Selection.Balancer.SelectFromProviderCached | balancer/default_balancer.go:209-249 | The same, from a logged lookup or from the cache, and an entry reused is counted |
| Selection.Balancer.PickExact | balancer/default_balancer.go:113-132 | Each resolver error to its own answer and nothing else logged; otherwise one lookup and the outcome of that provider alone |
| Selection.Balancer.PickAuto | balancer/default_balancer.go:136-203 | Terminates; the log is one attempt after the other, each at another offered provider with its own lookup, filter, choices and refusals; no available provider means every candidate was tried so and failed with a retryable error; without failover the error is the logged outcome of one candidate; the cache is never hit |
| Selection.Balancer.TryProviders | balancer/default_balancer.go:159-202 | The failover loop alone, from any shuffle of the candidates |
| Selection.Balancer.TryOneProvider | balancer/default_balancer.go:166-190 | The strategy is offered exactly the providers not tried yet; the one it chooses is looked up for the first time and tried |
| Selection.Balancer.FallBack | balancer/default_balancer.go:86-96 | Searches all providers of the exact request's type, with its tags and a fresh exclusion list |
| Selection.Balancer.PickExactFirst | balancer/default_balancer.go:77-107 | The fallback takes place exactly when the exact provider failed and failover is on; a failed fallback keeps the exact error, a successful one is marked |
| Selection.Balancer.Pick | balancer/default_balancer.go:56-110 | Through retries, failover, fallback and cancellation: exactly one net slot, on the returned account, or none, every counter being this request's slots plus those of others; the answer is that of the exact search, the search over all providers, or the fallback, whichever the request calls for |
| PickRuns.WhichSearches | balancer/default_balancer.go:56-145 | Without a key, or with one that lacks its type or its name, only the search over all providers of the type given takes place; with a whole key that provider is asked first, and all of its type exactly when it failed and the request or the configuration turns failover on; retries are the request's when positive, else the default |
| PickRuns.ErrorsMean | balancer/default_balancer.go:113-153 | In a sequential run: with a whole key, "not found", "no available provider" and "model not supported" are answered exactly when the store lacks it, it is neither active nor degraded, or it does not list the model; without, "not found" never, and "model not supported" exactly when no provider of the type can serve the model |
| PickRuns.SearchGoesOn | balancer/default_balancer.go:193-201 | With failover a search never ends in "no available account", "retries exceeded" or "occupancy full", but goes on to another provider; without, it tries one |
| PickRuns.SelectErrors | balancer/default_balancer.go:209-306 | One provider fails with one of these three or a wrapped error |
| PickEnvironment.Environment.Acquire | balancer/occupancy/fixed_limit.go:111-128 | Takes exactly one slot or none, whatever others do before each of its steps; the slot is kept exactly when the raised counter is within the limit read, and refused when it is above or could not be raised; the log says which, with counter and limit |
| PickEnvironment.Environment.FilterAvailable | balancer/occupancy/fixed_limit.go:83-109 | The accounts below their limit in order, or all of them when the counters could not be read; counters and limits are logged with the answer |
| PickEnvironment.Environment.Release | balancer/occupancy/fixed_limit.go:130-132 | A held slot given back lowers the count by one and leaves the slots of others |
| Selection.ExcludeAccounts | balancer/default_balancer.go:532-547 | Exactly the accounts whose ID is not excluded |
| Selection.FilterProviders | balancer/default_balancer.go:511-529 | Exactly the providers whose key is not excluded |
| PickRuns.NoProviderLookedUpTwice | balancer/default_balancer.go:155-200 | The log of a search over all providers holds no two lookups of one provider |
| PickRuns.FailedSearchTriedEverybody | balancer/default_balancer.go:166-197 | When no provider is available, every offered provider was looked up and tried, and its failure is in the log |
| PickRuns.QuietSearchFailsForLackOfRoom | balancer/default_balancer.go:136-203 | With strategies that do not decline, and nobody taking a slot between the filter and the acquisition, a failed search means that every offered provider had no account for the request, or each of them had a counter at or above its limit when the filter looked |
| PickRuns.AttemptsAreNotTheTotal | balancer/default_balancer.go:297-301 | The slots a pick tried for are the attempts it reports, plus the successful one, plus those at all other providers, of the exact search before a fallback too |
| PickRuns.TriesRefuseOrHold | balancer/default_balancer.go:265-302 | Every slot tried for is refused, given back, or held at the end |
| PickRuns.EveryTryWasChosen | balancer/default_balancer.go:265-296 | Every slot tried for is that of an account the strategy had just chosen among those offered, and not refused before; it was kept at or below the limit read, and refused above it or when nobody could count |
| PickRuns.PickedWasChosen | balancer/default_balancer.go:273-301 | The account picked is the one the strategy chose last and whose slot was kept, its use noted when there is a statistics store |
| PickRuns.ZeroRetriesIsOneTryIff | balancer/default_balancer.go:69-73 | A request for no retries is given a single try if and only if the configured default is no retries |
| PickRuns.ZeroRetriesMayTryFour | balancer/default_balancer.go:69-73 | With a default of three retries it is given four tries |
| PickRuns.PickedAccountIsRight | balancer/default_balancer.go:78-131 | In a sequential run a picked account is Available in the store, belongs to the reported provider and has all tags; the provider is active or degraded, supports the model, and satisfies the requested type (on fallback too) or exact key |
| PickRuns.EveryStoreShows | resolver/storage_resolver.go:27-109 | Every store with consistent keys has resolver answers the previous row can be applied to |
| PickRuns.AskResolver | resolver/storage_resolver.go:27-109 | The resolver's own answers over an unchanging store belong to such answers, and agree with any others everywhere else |
| UsageTracker.UsageTracker.InitRules | usagetracker/default_tracker.go:237-255 | Starts every valid rule unused, in order |
| UsageTracker.UsageTracker.RecordUsage | usagetracker/default_tracker.go:41-80 | What is credited, and that callbacks fire exactly when afterwards a live positive-total rule of the source is at or above the safety ratio |
| UsageTracker.RecordingIsRightIff | usagetracker/default_tracker.go:50-52 | Exactly the live rules of the source are credited if and only if the amount is 0 or no expired window stands before one of them |
| UsageTracker.ExpiredWindowTakesTheCredit | usagetracker/default_tracker.go:50-52 | An expired token window stored before a live request rule is credited in its place |
| UsageTracker.LivePosition | storage/memory/usage.go:23-29 | A live rule stands as many places earlier in the filtered list as windows expired before it |
| UsageTracker.UsesAddUp | usagetracker/default_tracker.go:41-58 | Over any history in which no window expires each rule's EstimatedUsed is the sum recorded for its source, and EstimatedUsed + EstimatedRemain is its total |
| UsageTracker.RecordAll | usagetracker/default_tracker.go:41-80 | From initialised rules, over any such history, the callbacks are called by exactly the recordings after which the sum recorded for the source of some valid positive-total rule has reached the safety ratio |
| UsageTracker.SafetyIsTheSum | usagetracker/default_tracker.go:66-76 | The stored figures reach the safety ratio exactly when that sum does |
| UsageTracker.UsageTracker.IsQuotaAvailable | usagetracker/default_tracker.go:83-102 | True exactly when no live positive-total rule is at or above the safety ratio |
| UsageTracker.SafetyMeans | usagetracker/default_tracker.go:94-98 | A rule is at the safety ratio exactly when its total is positive and remote plus local use is at least that share of the total |
| UsageTracker.UsageTracker.CalibrateFromResponse | usagetracker/default_tracker.go:186-212 | Which stored positions are drained, and to what |
| UsageTracker.DrainExhausts | usagetracker/default_tracker.go:186-212 | With no expired window in the way a drained rule shows remote use equal to its estimate, nothing left, no local use, and the window it had |
| UsageTracker.DrainingIsRightIff | usagetracker/default_tracker.go:186-212 | Exactly the live rules of the source are used up, and no other is touched, if and only if each one behind an expired window is harmless: the rule written in its place shows the same figures and has nothing left or is drained anyway, and it has nothing left itself or is reached by way of another |
| UsageTracker.NothingMisplaced | usagetracker/default_tracker.go:186-212 | That is so in particular when no expired window stands before a live rule of the source |
| UsageTracker.ExpiredWindowTakesTheDrain | usagetracker/default_tracker.go:186-212 | An expired token window stored before a live request rule is overwritten with its figures, and the live rule keeps its rest |
| CircuitBreaker.DynamicThreshold | circuitbreaker/default_circuitbreaker.go:63-84 | The floored share of the least positive request total, at least the minimum; the default without such a rule |
| CircuitBreaker.MaxFloatIs | circuitbreaker/default_circuitbreaker.go:68 | The total from which the search for the smallest starts, and which a rule must stay below, is the largest float: 53 significant bits, all set, times two to the 971 |
| CircuitBreaker.ThresholdUnique | circuitbreaker/default_circuitbreaker.go:63-84 | That description fits one number only |
| CircuitBreaker.ThresholdIsShare | circuitbreaker/default_circuitbreaker.go:63-84 | With request rules of positive total the threshold is the share of the smallest, rounded down, but at least the minimum |
| CircuitBreaker.ThresholdIsDefault | circuitbreaker/default_circuitbreaker.go:63-84 | Without one it is the default |
| CircuitBreaker.DynamicTimeout | circuitbreaker/default_circuitbreaker.go:88-113 | The shortest window left unless that is below the default |
| CircuitBreaker.TimeoutEndsWithWindow | circuitbreaker/default_circuitbreaker.go:88-113 | When all valid windows ahead are at least as long as the default, the circuit opens until the first of them ends |
| CircuitBreaker.TimeoutIsDefault | circuitbreaker/default_circuitbreaker.go:88-113 | Without one ahead, or with one shorter than the default, it opens for the default |
| CircuitBreaker.RecordFailure | circuitbreaker/default_circuitbreaker.go:43-53 | Trips exactly at the threshold, and only then sets the time the circuit stays open |
| CircuitBreaker.TripsAtThreshold | circuitbreaker/default_circuitbreaker.go:43-53 | The breaker's decision is the comparison with the one threshold its rules give |
| CircuitBreaker.TripsExactlyOnRun | circuitbreaker/default_circuitbreaker.go:43-53 | From fresh statistics the counter reaches a threshold exactly when the history ends in a failure run that long |
| Reporting.StartCooldown | cooldown/default_cooldown.go:29-79 | The given end; else the first end, after now, of a valid rule's window; else the default from now |
| Reporting.ShortestWindowIsLeast | cooldown/default_cooldown.go:54-79 | That window is one ahead and ends no later than any other |
| Reporting.Reporter.OnQuotaExhausted | balancer/default_balancer.go:611-627 | Cools an Available account and leaves any other alone |
| Reporting.Reporter.ReportSuccess | balancer/default_balancer.go:347-412 | The slot is given back, one success and one request are recorded; the account changes only through the quota callback, so an open circuit stays open |
| Reporting.Reporter.ReportFailure | balancer/default_balancer.go:415-474 | The slot is given back, one failure and one request are recorded; then a rate limit drains and cools, another error opens the circuit exactly when the failure run reaches the threshold, and nothing else changes; an unknown account is an error |
| Reporting.Reporter.Judge | balancer/default_balancer.go:450-474 | What the error makes of the account, and when it is to be saved |
| Reporting.SettledIsReplacedIff | balancer/default_balancer.go:450-480 | A report replaces a stored banned, invalidated, disabled or circuit-open status if and only if the error is a rate limit and cooldowns are on, or it is another error and the failure run with this report reaches the threshold |
| Reporting.FailureOpensIff | balancer/default_balancer.go:460-474 | A failure report opens the circuit exactly when the error is no rate limit and the counter reaches the threshold; otherwise the end of the circuit is kept |
| Reporting.ReportAll | balancer/default_balancer.go:347-506 | Over any history of reports on an account, counters follow the history; in the store, how long the circuit is open is what the last report that is no rate limit and ends a failure run of at least the threshold computed, or unchanged when there is none, and such a report leaves the status CircuitOpen; no other report opens it, report by report |
| Reporting.OneMoreOutcome | balancer/default_balancer.go:347-506 | One more report on top of any history: the counters, the open time and the status still follow the history, and the circuit is opened exactly when this report should trip |

## Left out

- Database execution: SQL, Redis and SQLite, the SQLite converter, Redis index pushdown, and the provider, count and affinity queries.
- LIKE and JSON operators are converted and parsed, but no meaning is claimed for them; NULL logic is outside too (an absent time is excluded by a condition on the account).
- ConversionKeepsMeaning: takes string order and equality as the same on both sides; collations and time zones are not modelled.
- BuildJSONCondition: the JSON text it passes as the argument is an opaque value.
- SearchProviders: the converted provider condition is a parameter; that converter is not part of this model.
- DecrOccupancy: one atomic step, as the interface promises; the gap between the swap to zero and the deletion of the entry is not modelled.
- CalculateLimit: metadata overrides arrive as parameters, and its meaning is stated where every measured rule's limit is below the largest 64-bit integer; floats are reals, and no other overflow is modelled.
- CalibrateRule: the start of the window and the time of the last synchronisation are not in the record, so DrainingIsRightIff compares figures and window ends only.
- ReportFailure: one report at a time; conflicts and the retry after them are in StatusProtocol only. It takes the statistics store, the tracker and the account store as present and never failing.
- ReportSuccess: the same; its branch that closes a circuit is unreachable here and stands as `assert false`.
- Pick: what the resolver answers is a function fixed during the exact attempt and another one during the search that follows; the slots of other requests change freely.
- PickAuto: a selector's choice is any candidate or any error; affinity, priority, round-robin, most-available and least-used strategies are not modelled, nor are group usage counters.
- CollectDependencies: the names to start from are a set, as in the code's map.
- Lock order: each method is one step, and freedom from deadlock is not claimed (accounts are locked before providers in one place and after them in another).
- UpdateAccount: copies are values, so aliasing between a caller's account and the stored one is not modelled.
- RemoveProvider: a provider removed while a batch removal still owes it a debit keeps no claim about the counters of a later provider under its key until the debit is made.
- A rule's validity and window end are fields of the rule, as if CalculateWindowTime did not depend on the time of the call.
- FilterAvailable of the adaptive limit and its Acquire: the same protocol with another limit; the environment of a pick covers them with an arbitrary limit.
- RunOne, Start, Stop, report callbacks, Calibrate, MinRemainRatio, CountAccounts, clones, credentials, concrete health checks, printing and configuration: they would add easy members or are input and output.
