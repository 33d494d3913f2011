# moduless: a verified model of the plugin host

moduless runs plugins as separate processes behind one gateway.  This project models the parts of it where
correctness is easy to lose — draining a process while requests arrive, balancing replicas, ordering filters,
paging through documents, leasing queue messages, holding locks and transactions, selling stock, deciding who a
caller is — and proves what those parts promise, for every input and every interleaving.

`dafny verify dfyconfig.toml` checks everything.

| file | part of the system |
|---|---|
| `Common.dfy` | options, results, prefixes, and keys joined by a NUL |
| `Drain.dfy` | life of one plugin instance: admission, drain, kill, quarantine, one step per atomic access |
| `RoundRobin.dfy` | smooth weighted round-robin over replicas |
| `Ordering.dfy` | string order and stable sorting, used by the chain and the menu |
| `Chain.dfy`, `Registry.dfy` | the filter chain and the published routing snapshot |
| `Pathmatch.dfy`, `Paths.dfy` | path patterns, compiled and walked segment by segment, and what they cover character by character |
| `Pipeline.dfy`, `Filtering.dfy`, `Gateway.dfy` | running a phase of filters, what one filter does to a request field by field, and serving a plugin route |
| `Predicates.dfy`, `Paging.dfy` | compiling query predicates to SQL conditions, and one page of keyset pagination |
| `Denotations.dfy`, `Answers.dfy` | what fields, operators and options mean, read off their text, and the page they ask for |
| `Scans.dfy`, `QuietScans.dfy` | following NextCursor, through tables that change and through one that does not, whatever the documents hold |
| `AlignedScans.dfy`, `MissingKeys.dfy` | where that is right, sort values that Go and the database render differently, and missing sort fields |
| `Queue.dfy` | the durable queue |
| `TxRegistry.dfy` | the table of open transactions |
| `Inventory.dfy`, `InventoryCalls.dfy` | reservations and restocks over version-checked writes, and whole calls with their retries and lost replies |
| `Locks.dfy` | lease locks |
| `Limiter.dfy` | the token-bucket rate limiter |
| `Menu.dfy` | merging menus into one tree |
| `Supervisor.dfy`, `Breaker.dfy` | crash windows and restarts; the circuit breaker |
| `Cron.dfy`, `Notation.dfy`, `Scheduler.dfy` | cron masks, what an expression's text says, and the once-per-minute claim |

Each file follows one pattern.  What the code keeps is a datatype; what it does is a step function or a
specification function; the main results are lemmas over all inputs or over all runs (`IsRun`: a sequence of states
in which each follows from the one before by an enabled step).  Code that updates fields in place is a class whose
methods are proved to take exactly those steps, so the lemmas hold of the class.  What a step or a specification function
does is stated a second time without it, in terms of fields, states and numbers: the lemmas whose names end in `Means` or
`Exactly`.

Interleavings are modelled at the grain the Go code gives them: one atomic load, store or compare-and-swap in
`Drain`, one critical section under a mutex in `TxRegistry` and `Locks`, one SQL statement in `Queue` and
`Inventory`, one method call in `Breaker`.  Clocks, random ids, plugin replies and the order in which a Go map is
walked are arbitrary inputs; a clock is read before the lock or the statement it is for, so `Queue` and `Limiter`
allow operations out of the order of their clocks.

## Results that differ from what one might expect

- **Quarantine and drain.**  `Drain` stores its state unconditionally, so draining a quarantined instance erases the
  quarantine.  `Drain.QuarantineLiftedExactlyBy` lists exactly the steps that can.
- **Drain and MarkReady.**  A clean drain loses no request as long as nobody marks the instance ready again;
  `Drain.ReadyAgainBreaksTheDrain` shows the run in which somebody does.
- **Doubled slashes.**  A wildcard pattern matches some path if and only if it has no empty segment
  (`Pathmatch.WildMatchesIffNoEmptySegment`).
- **Sort values in two spellings.**  The database orders by its own text of a sort field; the cursor carries the text Go
  renders.  The comment on lookupPath says that the two agree, but JSONB keeps the zero of 1.50 where Go writes 1.5, and
  1234567.5 becomes 1.2345675e+06.  Read one at a time, a document with 1.50 comes on every page, and following
  NextCursor never ends (`AlignedScans.TrailingZeroNeverEnds`).  Where no sort field is missing, a scan of an unchanged
  table is right for every page size if and only if every cursor selects exactly the rows after its own, whatever its
  text (`AlignedScans.AlwaysRightIffAligned`).
- **Any document at all.**  A page goes back exactly when the table holds a matching row that is beyond the cursor on
  the columns it has and not after the row the cursor was made from (`Scans.GoesBackIff`).  A scan is in order exactly
  when no page goes back (`Scans.OrderedIffNeverGoesBack`), and then returns a row exactly when the last cursor before
  its place selects it (`Scans.ReturnedIffNotPassedOver`).  Through an unchanged table it ends exactly when no cursor
  is handed out twice (`QuietScans.QuietScanEndsIff`).
- **NULL sort keys.**  A document without a sort field is NULL in the table and the empty string in a cursor.  Where the
  fields that are there read alike on both sides, a page goes back exactly when the page before it ends on such a row,
  the order is ascending and a matching row shares the columns before that field and is beyond the empty string from
  it on (`MissingKeys.GoesBackWhenMissing`); on an unchanged table that is exactly when some id comes twice
  (`MissingKeys.RepeatsWhenMissing`, `MissingKeys.NullKeyRepeats`), rows can be lost (`MissingKeys.NullRowIsLost`), and
  the scan still always ends (`MissingKeys.QuietScanEnds`).
- **Lost replies.**  A caller of reserve or restock who is told 500 because a commit was not answered may still have
  changed stock; `InventoryCalls.ChangedIff` says exactly when a change is there, and it is never there twice.
- **Late takes.**  The rate limit holds in any order of the clocks for a limiter that never forgets a bucket
  (`Limiter.UnsweptRateIsBounded`).  For the sweeping one it holds if and only if takes reach the lock at most 30 seconds
  out of the order of their clocks, half a sweep interval (`Limiter.SlackIsExact`).
- **Dead letters.**  `RetryDead` fails while a live message holds the same deduplication key.
- **Crash threshold 1.**  A plugin is quarantined on the configured number of crashes in a window exactly when that
  number is at least 2; a threshold of 1 behaves like 2 (`Supervisor.ThresholdIsExact`).
- **Initial backoff.**  The first delay is not capped by the maximum (`Supervisor.DelayIsCappedDoubling`).
- **Cron steps near the largest integer.**  `5-31/9223372036854775807` as day of month denotes the 5th and fires on the
  5th, the 3rd and the 1st, because the loop variable wraps around (`Cron.HugeStepStrays`); `Cron.SetsIsExact` says
  exactly when this happens.
- **Scheduler clock.**  Under any clock a job runs twice in a minute if and only if it is offered again after another
  claim made the scheduler forget the first (`Scheduler.RunsTwiceIffForgotten`); a clock that steps back a minute and
  forward again does that (`Scheduler.ClockStepRepeats`).
- **NUL in keys.**  Lock and job ids join two strings with a NUL.  Two plugins can share one if and only if the key of
  one, closed by a NUL, starts the key of the other (`Locks.LockKeysCollideExactly`, `Scheduler.JobIdsCollideExactly`).

## Model

| member | source | states |
|---|---|---|
| `Drain.StepKeepsInv` | core/pluginhost/instance.go:168-251 | every atomic step of BeginRequest, its end function, Drain and terminate keeps the in-flight counter equal to the callers counted in, and no pending swap holds a quarantined state |
| `Drain.InflightIsExact` | core/pluginhost/instance.go:168-186 | in every interleaving the counter equals the callers between increment and decrement, is at least the number of outstanding reservations and never negative |
| `Drain.StepKeepsDrained` | core/pluginhost/instance.go:195-230 | once a drain has stored Draining and read zero, no step but MarkReady lets a reservation exist again |
| `Drain.CleanDrainLosesNoRequest` | core/pluginhost/instance.go:195-230 | in any run without a later MarkReady, from the zero read through the kill and beyond, no reservation is outstanding and none is granted |
| `Drain.DrainReportsExactly` | core/pluginhost/instance.go:195-230 | in every run a drain is reported clean if and only if one of its polls read a count of zero, and once it has returned it reported an error if and only if it gave up waiting |
| `Drain.KilledIsDead` | core/pluginhost/instance.go:232-251 | whoever has got as far as the state has killed the process |
| `Drain.ReturnsSettled` | core/pluginhost/instance.go:232-251 | the step with which a drain or kill returns leaves the instance quarantined if it was and stopped otherwise |
| `Drain.IdleDrainStops` | core/pluginhost/instance.go:195-251 | with nothing in flight and nobody interfering a drain kills the process and returns clean, with the instance stopped |
| `Drain.GrantsIffReady` | core/pluginhost/instance.go:168-186 | while nobody marks the instance ready, some continuation grants a reservation to a new caller if and only if the instance is ready now |
| `Drain.ReadyAgainBreaksTheDrain` | core/pluginhost/instance.go:124-125 | the concrete run in which MarkReady after a clean kill grants a reservation on a dead process |
| `Drain.EndIsIdempotent` | core/pluginhost/instance.go:180-185 | calling the end function again changes nothing and gives the increment back exactly once |
| `Drain.QuarantineLiftedExactlyBy` | core/pluginhost/instance.go:195-251 | a quarantine survives a step if and only if the step is not Drain's store, MarkReady or MarkFailed; terminate never lifts it |
| `Drain.QuarantineOutlivesKills` | core/pluginhost/instance.go:232-251 | over whole runs a quarantine outlives any number of concurrent kills |
| `Drain.KillSettles` | core/pluginhost/instance.go:232-255 | an undisturbed kill ends with a dead process, Stopped or still Quarantined, and leaves callers and counter alone |
| `Drain.ReadyGrants` | core/pluginhost/instance.go:168-186 | undisturbed on a ready instance the three accesses of BeginRequest end in a reservation and one more in flight |
| `Drain.DrainRefuses` | core/pluginhost/instance.go:168-179 | a drain that starts between the increment and the second look makes BeginRequest give the increment back and grant nothing |
| `Drain.Instance.BeginRequest` | core/pluginhost/instance.go:168-186 | on the real fields only, with or without a drain in between: a ticket exactly if the instance is ready and stays so, counted while it is out, and a refusal leaves the count as it was |
| `Drain.Instance.EndCall` | core/pluginhost/instance.go:180-185 | however often it is called the reservation is given back once, and then it is no longer outstanding |
| `Drain.Instance.Idle` | core/pluginhost/instance.go:211-225 | reading a count of zero means no reservation is outstanding and the drain is clean |
| `Drain.Instance.Terminate` | core/pluginhost/instance.go:232-251 | against any number of stores, drains and kills by others between its load and its compare-and-swap, the loop ends with a dead process, quarantined exactly if the others leave it so and stopped otherwise |
| `RoundRobin.Normalised` | core/pluginhost/instance.go:103-106 | a weight that is not positive becomes 1 and any other is kept |
| `RoundRobin.BestIsFirstGreatest` | core/pluginhost/registry.go:46-86 | the replica picked is the first among those ready with the greatest counter, and none exactly when none is ready |
| `RoundRobin.TurnMeans` | core/pluginhost/registry.go:46-86 | one replica is taken exactly while ready or draining; of several, some ready one is taken whenever there is one, credited and charged as stated counter by counter, and otherwise the first that is ready or draining at the second look, and none exactly if there is none |
| `RoundRobin.TurnConservesSum` | core/pluginhost/registry.go:46-86 | one pick leaves the sum of the counters unchanged, whatever the states |
| `RoundRobin.CountersAlwaysSumToZero` | core/pluginhost/registry.go:46-86 | after any run of picks, with replica states changing arbitrarily, the counters sum to zero |
| `RoundRobin.RunIsSchedule` | core/pluginhost/registry.go:46-86 | a run of picks with all replicas ready is a weighted schedule: everyone is credited, the leader pays the total |
| `RoundRobin.CounterAboveMinusTotal` | core/pluginhost/registry.go:46-86 | no counter ever falls to minus the total weight |
| `RoundRobin.FullRound` | core/pluginhost/registry.go:46-86 | after as many picks as the total weight every counter is zero again |
| `RoundRobin.Periodic` | core/pluginhost/registry.go:46-86 | the counters repeat with the total weight as period |
| `RoundRobin.AnyWindowIsFair` | core/pluginhost/registry.go:46-86 | in any window of as many picks as the total weight, wherever it starts, each replica is chosen exactly its weight times |
| `RoundRobin.EveryPrefixIsSmooth` | core/pluginhost/registry.go:46-86 | in every prefix a replica is less than one pick ahead of its share and at most the number of others behind it |
| `RoundRobin.ReplicaSet.Credit` | core/pluginhost/registry.go:64-75 | the crediting loop yields the boosted counters, the first greatest ready replica and the ready total |
| `RoundRobin.ReplicaSet.Fallback` | core/pluginhost/registry.go:76-83 | the fallback loop finds the first servable replica |
| `RoundRobin.ReplicaSet.PickAmong` | core/pluginhost/registry.go:64-86 | crediting, charging the leader and falling back in place is one turn of the schedule |
| `RoundRobin.ReplicaSet.Pick` | core/pluginhost/registry.go:46-86 | pick updates the counters in place exactly as one turn of the schedule; it finds a replica exactly when one can serve, the first greatest counter among the ready ones, or the first ready or draining one when none is ready |
| `Chain.PhaseFromName` | core/pipeline/chain.go:203-222 | a name maps to the phase whose name it is, and to an error exactly when no phase has it |
| `Chain.ChainOfAnyOrder` | core/pipeline/chain.go:106-165 | a chain of the plugins in one order is a chain of them in every order |
| `Chain.ChainIgnoresPluginOrder` | core/pipeline/chain.go:106-165 | two chains built from rearranged plugins with distinct keys are equal, ties and flags included |
| `Chain.EachFilterOnceInItsPhase` | core/pipeline/chain.go:106-165 | each phase is sorted by order, plugin key and name and contains exactly the filters declared for it, each as often as declared |
| `Chain.PhaseMeans` | core/pipeline/chain.go:106-165 | a phase holds exactly the filters some plugin declares under its name, with their own limits where they give them and the defaults otherwise, and none after one with a smaller order, or the same and a smaller plugin key, or both and a smaller name |
| `Chain.Effective` | core/pipeline/chain.go:106-111 | a default that is not positive becomes 50 milliseconds or one mebibyte, any other is kept |
| `Chain.AddPlugin` | core/pipeline/chain.go:116-149 | one plugin's declarations are appended to their phases and flags, or refused exactly when one names an unknown phase |
| `Chain.BuildChain` | core/pipeline/chain.go:106-165 | fails exactly on an unknown phase; otherwise the result is the sorted chain with exact body flags and the largest body limit |
| `Chain.SortPhases` | core/pipeline/chain.go:152-163 | every phase is stably sorted in place, nothing else changes |
| `Chain.Len` | core/pipeline/chain.go:195-201 | the length is that of all phases together |
| `Ordering.StrLessMeans` | core/pipeline/chain.go:152-163 | one string is before another if and only if at the first place where they differ it ends or has the smaller character |
| `Ordering.StableSortSpec` | core/pipeline/chain.go:152-163 | a stable sort is sorted, a permutation, and keeps elements that compare equal in their order |
| `Ordering.SortDependsOnClasses` | core/pipeline/chain.go:152-163 | the sorted result depends only on the order within each class of equal elements |
| `Registry.SnapshotIsDetermined` | core/pluginhost/registry.go:299-330 | two snapshots of the same registrations have the same keys, the same instances and the same chain |
| `Registry.ListingExists` | core/pluginhost/registry.go:303-317 | every set of registrations can be listed as plugin contributions with distinct keys |
| `Registry.Registry.Carry` | core/pluginhost/registry.go:305-309 | a replica set whose instances did not change is carried over with its counters, any other starts at zero |
| `Registry.Registry.CollectPlugins` | core/pluginhost/registry.go:303-317 | the walk over the registrations yields every plugin's replica set and lists every contribution once |
| `Registry.Registry.Rebuild` | core/pluginhost/registry.go:299-330 | the published snapshot mirrors the registrations, the version grows by one, unchanged replica sets keep their counters and older snapshots are untouched |
| `Registry.Registry.InstallPlugin` | core/pluginhost/registry.go:268-280 | installs, replaces or (with no instances) removes one plugin, returns what it displaced and keeps everybody else's round-robin position |
| `Registry.Registry.Remove` | core/pluginhost/registry.go:290-292 | the plugin is gone from registrations and snapshot, and its instances are returned |
| `Registry.Registry.Clear` | core/pluginhost/registry.go:370-375 | dropping all registrations publishes an empty snapshot under a new version |
| `Pathmatch.CompileAcceptsExactly` | pathmatch/pathmatch.go:52-91 | a pattern compiles exactly when it is `**`, or starts with a slash and every star is a whole segment |
| `Pathmatch.CompileKeepsMeaning` | pathmatch/pathmatch.go:52-91 | a compiled pattern covers exactly the paths the pattern text denotes: equality, `/p` or `/p/` and anything below, or pointwise segments |
| `Paths.PlainPatternMeans` | pathmatch/pathmatch.go:52-128 | a pattern without a star covers itself and nothing else |
| `Paths.BelowPatternMeans` | pathmatch/pathmatch.go:52-128 | with a slash and two stars after it, it covers itself and everything below; these alone cover every path |
| `Paths.StarPatternMeans` | pathmatch/pathmatch.go:52-146 | a pattern with stars among its segments, however many slashes around it, covers exactly the paths in which each segment is found in turn between slashes, a star accepting any, with at most one slash left over, or anything when all below is covered |
| `Paths.CoversIsWalking` | pathmatch/pathmatch.go:130-161 | the segment matcher accepts exactly those paths |
| `Pathmatch.NextSegment` | pathmatch/pathmatch.go:150-161 | the index walk returns the first non-empty segment and a rest with the remaining ones |
| `Pathmatch.MatchSegments` | pathmatch/pathmatch.go:130-146 | the walk accepts exactly the pointwise matches on non-empty segments, with a free remainder for `/**` and at most one trailing slash otherwise |
| `Pathmatch.Match` | pathmatch/pathmatch.go:105-128 | Match decides the declarative meaning of a compiled pattern |
| `Pathmatch.CompileSet` | pathmatch/pathmatch.go:182-195 | fails exactly when one pattern does; otherwise covers the union of what the patterns denote |
| `Pathmatch.MatchSet` | pathmatch/pathmatch.go:198-208 | a set matches exactly when one of its members does, the match-all shortcut included |
| `Pathmatch.DoubledSlashNeverMatches` | pathmatch/pathmatch.go:52-146 | a wildcard pattern with an empty segment covers no path at all |
| `Pathmatch.WildMatchesIffNoEmptySegment` | pathmatch/pathmatch.go:52-146 | a compiled wildcard pattern covers some path if and only if it has no empty segment |
| `Pathmatch.PrefixStopsAtSegment` | pathmatch/pathmatch.go:105-128 | a prefix pattern never covers a path that goes on within the same segment |
| `Pipeline.CanonicalIsStable` | core/pipeline/headers.go:49-57 | canonical header spelling is idempotent |
| `Pipeline.EditMeans` | core/pipeline/headers.go:49-57 | after an edit a header has the value of the last edit naming it; without one it is gone exactly if some removal names it, and otherwise unchanged |
| `Pipeline.ApplyHeaderMutation` | core/pipeline/headers.go:49-57 | the two loops perform the edit, removals before additions |
| `Pipeline.IdentityIsGranted` | core/pipeline/runner.go:159-165 | for arbitrary replies, the identity a phase leaves is that of the last filter which was reached, matched, was called, is permitted and set one in an identity phase, and the incoming one if there was none; an identity is never lost |
| `Pipeline.FailClosedStops` | core/pipeline/runner.go:99-190 | a matching fail-closed filter that cannot run or errors always stops its phase with 413 or 503, a fail-open one never does |
| `Pipeline.StopHasAReason` | core/pipeline/runner.go:61-170 | a phase stops only because a filter answered the request or a fail-closed one reached no decision |
| `Pipeline.SentIsCurrent` | core/pipeline/context.go:186-214 | every filter called is told the headers and the request as they stand at that moment |
| `Pipeline.AdmissionsOnlyGrow` | core/pipeline/context.go:78-94 | capacity once taken is kept for the rest of the phase |
| `Pipeline.RequestContext.Admit` | core/pipeline/context.go:78-94 | reserves at most once per plugin, succeeds exactly when already held or the instance begins, and keeps the reservations balanced |
| `Pipeline.RequestContext.ReleaseAdmissions` | core/pipeline/context.go:131-139 | every reservation ever made has been given back exactly once |
| `Pipeline.RequestContext.WireHeaders` | core/pipeline/context.go:179-184 | the cached wire form always equals the current headers |
| `Pipeline.RequestContext.BuildFilterRequest` | core/pipeline/context.go:186-214 | the message built from the cache equals the one computed afresh, bodies and response fields only where asked for |
| `Pipeline.RequestContext.ApplyMutation` | core/pipeline/context.go:234-266 | the step-by-step update is the mutation: response headers only in response phases, paths only before, identity only when allowed, and the cache dropped |
| `Pipeline.RunOne` | core/pipeline/runner.go:99-170 | the new context, the stop, the message sent and the breaker record of one filter, for every way it can fail |
| `Pipeline.RunFilters` | core/pipeline/runner.go:61-75 | the loop runs the matching filters in order on the path as rewritten so far and stops at the first stop |
| `Filtering.SameHeaderExactly` | core/pipeline/headers.go:49-57 | two names are the same header if and only if they are equal, or consist of header bytes and differ in letter case only |
| `Filtering.SpellingMeans` | core/pipeline/headers.go:49-57 | the spelling used for a proper name has capitals exactly at the start of words; any other name is left alone |
| `Filtering.MutationMeans` | core/pipeline/context.go:234-266 | what a mutation leaves of every header, context value, path and identity: last value set wins, removal otherwise, the path only before the answer, the answer's headers only after it, the identity only where allowed, nothing else |
| `Filtering.FilterMeans` | core/pipeline/runner.go:61-170 | for every filter of every phase: exactly when it is skipped, asked or refused, with which status, text and content type, what it is told, what its reply changes and when the phase stops |
| `Gateway.NormalizeStatus` | core/gateway/plugin_handler.go:427-436 | a status between 100 and 599 is kept, none becomes 200 and any other 502 |
| `Gateway.PluginOf` | core/gateway/plugin_handler.go:482-492 | the plugin key is the first segment after the prefix; a path is not routable exactly when it lacks the prefix or is the bare prefix |
| `Gateway.PluginOfExactly` | core/gateway/plugin_handler.go:482-492 | a path belongs to a plugin if and only if its key has no slash and is all that follows the prefix, or all up to the next slash |
| `Gateway.IdentityComesFromAuthentication` | core/gateway/plugin_handler.go:204-244 | the identity pre_handler leaves is the one authorize left, and that is the session's or one set in authenticate or authorize by a filter that was called and permitted |
| `Gateway.AnonymousNeverReaches` | core/gateway/plugin_handler.go:204-239 | with sessions configured, no session and no granting filter, no backend is reached |
| `Gateway.GuardsHold` | core/gateway/plugin_handler.go:214-244 | a matching fail-closed filter without a decision, in any phase before dispatch, keeps the request from its backend |
| `Gateway.PreRouteStaysAnonymous` | core/gateway/plugin_handler.go:123-126 | pre_route cannot claim an identity |
| `Gateway.Admission` | core/gateway/plugin_handler.go:204-244 | lets a request on exactly when no phase stops it and it is identified where it must be, and otherwise answers with the first reason in order |
| `Gateway.RefusalMeans` | core/gateway/plugin_handler.go:204-244 | a caller is told to authenticate if and only if neither authenticate nor authorize stopped, sessions are configured and nobody was identified; otherwise the first phase that stopped answers |
| `Gateway.CallBackend` | core/gateway/plugin_handler.go:296-334 | dispatches exactly when the snapshot's instance or a different live one admits the request or already has, with the context's method, headers, body and identity, and then holds capacity on the plugin |
| `Gateway.Respond` | core/gateway/plugin_handler.go:254-289 | on_error runs with 404 if the plugin is gone, 503 if it cannot take the request, 502 if the call failed, or on a reply of 500 and above; post_handler runs on every other reply; a stop is answered and remembered, and the identity never changes |
| `Gateway.UnfilteredResponse` | core/gateway/plugin_handler.go:254-289 | without filters for the response the answer, its status and what is remembered for the log are stated field by field: 404, 503, 502 or the reply's, written as 200 or 502 where it is not a status |
| `Gateway.StoppedResponse` | core/gateway/plugin_handler.go:254-289 | a filter that stops on_error after a failed call, or post_handler on a reply below 500, has the last word, and its response is what is remembered |
| `Gateway.Dispatch` | core/gateway/plugin_handler.go:246-289 | a passed request is answered for the plugin its path names now, or as not routable |
| `Gateway.ServePlugin` | core/gateway/plugin_handler.go:193-289 | the backend is called if and only if every earlier phase let the request through, with the method and body it came with, the identity left by authorize — never none where sessions are configured — and the current headers; the answer is the first refusal in order, or that of the dispatch |
| `Predicates.ClauseMeansPredicate` | core/db/query.go:105-167 | each rendered condition is true under three-valued logic exactly for the rows the predicate denotes, and its placeholders are its own arguments |
| `Predicates.JoinedMeaning` | core/db/query.go:105-167 | joining one more condition keeps the meaning of the earlier ones and adds the new one |
| `Predicates.EvalAllExtends` | core/db/query.go:105-167 | arguments bound later do not disturb conditions rendered earlier |
| `Predicates.RenderClause` | core/db/query.go:112-160 | accepts exactly the acceptable predicates and renders a condition that is true exactly for the documents the predicate holds for, numbered from the offset; Denotations says which those are, operator by operator |
| `Predicates.BuildWhere` | core/db/query.go:105-167 | accepts exactly the acceptable lists; the conditions select exactly the rows all predicates hold for; placeholders are numbered consecutively from the offset |
| `Denotations.SpellsExactly` | core/db/query.go:118 | an operator's text denotes a word if and only if it is that word in any letter case between blanks |
| `Denotations.PathExactly` | core/db/query.go:88-103 | a field is a path if and only if it is proper names joined by dots, and then that one |
| `Denotations.ResolveWalks` | core/db/query.go:88-103 | following a path reaches a value if and only if there is a walk through nested objects, key by key |
| `Denotations.AcceptableExactly` | core/db/query.go:105-167 | a predicate is accepted if and only if its field is a path, its operator is one of the twelve words and it has the number of values that takes; any other text is refused |
| `Denotations.ComparisonMeans` | core/db/query.go:105-167 | for each comparison operator by its text, exactly which documents satisfy it; a document without the field satisfies none |
| `Denotations.OthersMean` | core/db/query.go:105-167 | the same for IN, BETWEEN, IS NULL and IS NOT NULL |
| `Denotations.LikeMeans` | core/db/query.go:105-167 | a percent sign stands for any stretch, an underscore for any one character, a backslash for the character after it, and any other character for itself |
| `Paging.BeyondIsAfter` | core/db/query.go:243-275 | the row comparison against a cursor is true exactly for the rows after it in scan order |
| `Paging.PrepareSort` | core/db/query.go:224-241 | accepts exactly the sorts with valid fields and one direction |
| `Paging.CursorArgs` | core/db/query.go:259-266 | the cursor's placeholders name its own arguments |
| `Paging.AssembledAsks` | core/db/query.go:243-287 | the assembled statement asks exactly for the wanted rows after the cursor, in order, one more than the limit, with placeholders numbered through |
| `Paging.Prepare` | core/db/query.go:202-287 | a statement is built exactly for the askable options, asks what they mean, and for one row more than the page: the limit, 100 without one and at most 1000 |
| `Paging.Scan` | core/db/query.go:300-314 | reading the rows keeps the first limit of them and notices a further one |
| `Paging.Finish` | core/db/query.go:300-327 | the page and its next cursor are those of the reference, or an error exactly when a cursor key cannot be read |
| `Paging.Query` | core/db/query.go:202-327 | the whole query refines the page of the reference, which has at most the limit of rows, 100 without one and at most 1000, and exactly that many when there are more |
| `Paging.PageFacts` | core/db/query.go:202-327 | a page holds the first rows after the cursor in order, and names a next cursor exactly when more follow |
| `Paging.NextCursorIsAccepted` | core/db/query.go:177-195 | the cursor a page returns is accepted with the same options and asks for the same plan |
| `Paging.SortableIsDecodable` | core/db/query.go:331-378 | where every row has the sort keys, the next cursor can always be built |
| `Answers.AskableExactly` | core/db/query.go:202-257 | a query is answered exactly if its predicates are accepted, its sort fields are paths in one direction and its cursor has a key for each |
| `Answers.BeforeMeans` | core/db/query.go:224-287 | one row sorts before another if and only if at the first sort field where they differ, the id being the last, its text is smaller, or greater when descending, and a missing one counts as greatest |
| `Answers.PastMeans` | core/db/query.go:243-275 | a row is past a cursor if and only if it agrees with it on some first sort fields and is beyond it on the next, and none of these is missing |
| `Answers.SizeMeans` | core/db/query.go:202-327 | a page has as many rows as the table holds that were asked for, up to 100 by default, the limit otherwise and 1000 at most, and says there is more exactly when there is |
| `Answers.PageMeans` | core/db/query.go:202-327 | it holds rows asked for, in order, and every one it leaves out comes after its last |
| `Answers.NextMeans` | core/db/query.go:315-378 | a next cursor is there exactly when there is more, with the last row's id and the text of its sort fields |
| `Scans.BeyondExactly` | core/db/query.go:243-275 | the row comparison against a cursor is true exactly for rows strictly beyond it on the columns before their own first missing one |
| `Scans.PastExactly` | core/db/query.go:243-378 | the same for the cursor made from a row, for any documents |
| `Scans.GoesBackIff` | core/db/query.go:202-378 | a page goes back if and only if the table then holds a matching row that is beyond the cursor on the columns it has and not after the row the cursor was made from |
| `Scans.OrderedIffNeverGoesBack` | core/db/query.go:202-327 | a scan comes back in strict order if and only if no page goes back, for any documents and whatever changes between the pages |
| `Scans.ReturnedIffNotPassedOver` | core/db/query.go:202-327 | a row that matches throughout a scan in order is returned if and only if the last page that ends before its place hands out a cursor that selects it |
| `Scans.RepeatsOnlyIfGoesBack` | core/db/query.go:202-327 | an id that keeps its sort key comes twice only if a page goes back |
| `Scans.RepeatsIffGoesBack` | core/db/query.go:202-327 | on an unchanged table in which no cursor jumps over rows an id comes twice if and only if a page goes back |
| `Scans.NullKeyOnlyOnFirstPage` | core/db/query.go:243-275 | a row without the leading sort field is in a scan if and only if it is on its first page |
| `QuietScans.QuietScanIff` | core/db/query.go:202-327 | a scan of an unchanged table concatenates to exactly the sorted wanted rows if and only if no page goes back and the cursor right before each row's place selects it |
| `QuietScans.QuietScanEndsIff` | core/db/query.go:202-327 | following NextCursor through an unchanged table ends if and only if no cursor is handed out twice, and then within one page more than there are rows |
| `QuietScans.FollowingIsScanning` | core/db/query.go:202-327 | following the cursor until there is no more is a scan |
| `QuietScans.ScanFollows` | core/db/query.go:202-327 | a scan of an unchanged table is that one and no other |
| `AlignedScans.ScanIsOrderedWithoutRepeats` | core/db/query.go:202-327 | over a whole scan of a table that changes between pages, where every cursor selects exactly the rows after its own, the rows come in order, none twice, each from the table |
| `AlignedScans.ScanIsComplete` | core/db/query.go:202-327 | under the same condition every row that is wanted throughout the scan is returned |
| `AlignedScans.SortableTellsAll` | core/db/query.go:331-378 | the condition holds where every sort field is there and reads the same to the database and to Go |
| `AlignedScans.AlignedScanIsTheSortedTable` | core/db/query.go:202-327 | on an unchanged table where it holds, following NextCursor ends after at most one page more than the full ones, and concatenates to exactly the sorted wanted rows |
| `AlignedScans.SortableIsAligned` | core/db/query.go:331-378 | it holds there where every sort field is present and reads the same to the database and to Go |
| `AlignedScans.AlwaysRightIffAligned` | core/db/query.go:202-378 | where no sort field is missing, following NextCursor is right for every page size if and only if every cursor selects exactly the rows after its own |
| `AlignedScans.TrailingZeroNeverEnds` | core/db/query.go:357-368 | the concrete table with 1.50 and 2 whose every page is the first, so that there is no scan |
| `AlignedScans.BackWithoutRepeat` | core/db/query.go:202-378 | the concrete scan in which a cursor jumps ahead and the next falls back: out of order, yet every row once |
| `MissingKeys.GoesBackWhenMissing` | core/db/query.go:202-378 | where present fields read alike, a page goes back if and only if the order is ascending, the page before ends on a row with a missing field, and a matching row agrees with it before that field and is beyond the empty string from it on |
| `MissingKeys.CompleteEndsLeadOn` | core/db/query.go:202-327 | there, descending scans and pages that end on a complete row never lead back |
| `MissingKeys.RepeatsWhenMissing` | core/db/query.go:202-327 | there, a scan of an unchanged table returns some id twice if and only if a page goes back |
| `MissingKeys.QuietScanEnds` | core/db/query.go:202-378 | there, a scan of an unchanged table ends whatever fields are missing, within one page more than there are rows |
| `MissingKeys.NullRowIsLost` | core/db/query.go:202-327 | the concrete table and scan in which a row without the sort field is never returned |
| `MissingKeys.NullKeyRepeats` | core/db/query.go:202-378 | the concrete table and scan in which one row comes twice and another never |
| `Queue.RunKeepsInv` | core/db/queue.go:77-432 | every run of queue operations keeps statuses, attempts and deduplication keys consistent |
| `Queue.ReachableTables` | core/db/queue.go:77-432 | the exact range of attempts for each status, a lease on every message in processing, and no duplicate live key |
| `Queue.StepKeepsDedup` | core/db/migrations/000007_create_plugin_queue.up.sql:47-53 | no operation puts two live messages under one owner, topic and key |
| `Queue.VanishesOnlyWhenDone` | core/db/queue.go:423-432 | a message leaves the table only by PurgeDone, done and old enough |
| `Queue.GoneStaysGone` | core/db/queue.go:77-111 | an id that is gone is never reused |
| `Queue.DoneWasDelivered` | core/db/queue.go:120-186 | a message in processing or done was delivered by an earlier claim |
| `Queue.AttemptsCountDeliveries` | core/db/queue.go:120-164 | between retries by hand the attempts grow by exactly the deliveries, which never exceed the maximum |
| `Queue.DoneIsFinal` | core/db/queue.go:120-296 | once done a message is never delivered, returned, reaped or changed again; it can only be purged |
| `Queue.RedeliveredOnlyByReaper` | core/db/queue.go:120-296 | in any order of the clocks, between two deliveries of a message with no return in between some reaper read a time past the first delivery's visibility timeout |
| `Queue.ClaimsAreApart` | core/db/queue.go:120-164 | so the deliveries are more than the visibility timeout apart whenever nothing in between read a later clock than the second |
| `Queue.LeadingSpec` | core/db/queue.go:130-139 | a claim takes as many as it may, and only messages that come before those it leaves |
| `Queue.ClaimMeans` | core/db/queue.go:120-164 | the messages claimed are the owner's, on the topic, pending, due and not locked by others; each has a higher priority than any such message left, or the same and a smaller id; and they are as many as there are up to the limit, one without a limit |
| `Queue.LeasingMeans` | core/db/queue.go:120-164 | a claim changes exactly the messages it takes: in processing, one more attempt, leased for the visibility timeout or thirty seconds |
| `Queue.ConflictsMeans` | core/db/migrations/000007_create_plugin_queue.up.sql:47-53 | a publication conflicts if and only if it has a key and some message pending or in processing has the same owner, topic and key |
| `Queue.ReapingMeans` | core/db/queue.go:281-296 | the reaper changes exactly the messages in processing whose lease has run out: pending again while attempts are left and otherwise dead, with an error text if there was none |
| `Queue.OwnersAreIsolated` | core/db/queue.go:77-222 | no operation of one owner changes another owner's message |
| `Queue.FindLeader` | core/db/queue.go:130-136 | the scan finds the one message with the highest priority, and among those the smallest id |
| `Queue.SelectAndLease` | core/db/queue.go:120-164 | picking and leasing one leader after another leases exactly the leading claimable messages and changes no other |
| `Queue.PluginQueue.Enqueue` | core/db/queue.go:77-111 | rejects an empty topic, ignores a key that is pending or in processing, otherwise stores exactly the new message under a new id, with five attempts if none are given |
| `Queue.PluginQueue.Claim` | core/db/queue.go:120-164 | leases exactly the messages that come first by priority and id among those it may take, as many as the limit, each until the visibility timeout, changes no other and keeps the invariant |
| `Queue.PluginQueue.Ack` | core/db/queue.go:168-186 | a message the owner is processing becomes done and loses its lease; any other id changes nothing |
| `Queue.PluginQueue.Nack` | core/db/queue.go:190-222 | a message the owner is processing is dead exactly if its attempts are used up and otherwise pending again after the delay; any other id changes nothing |
| `Queue.PluginQueue.ReapExpired` | core/db/queue.go:281-296 | going over the table row by row, exactly the messages in processing whose lease has run out are returned or parked, and no other changes |
| `Queue.PluginQueue.RetryDead` | core/db/queue.go:401-419 | succeeds exactly for a dead message of the owner whose key is free, which then has all its attempts again; otherwise nothing changes |
| `Queue.PluginQueue.PurgeDone` | core/db/queue.go:423-432 | going over the table row by row, exactly the messages that are done and old enough go, and the rest is unchanged |
| `TxRegistry.RunKeepsInv` | core/db/tx.go:82-325 | every interleaving of critical sections keeps counters, ceiling and ownership |
| `TxRegistry.StepKeepsInv` | core/db/tx.go:82-325 | each critical section keeps counters, ceiling and ownership |
| `TxRegistry.CounterIsExactAndBounded` | core/db/tx.go:175-233 | a plugin's counter is its registered transactions plus those being opened, and never above the ceiling, eight unless set |
| `TxRegistry.DecrementsNeverSaturate` | core/db/tx.go:293-301 | every decrement finds a positive counter |
| `TxRegistry.EndedAtMostOnce` | core/db/tx.go:257-318 | no transaction is ended twice, and none that is still registered has been ended |
| `TxRegistry.ForeignIdIsUseless` | core/db/tx.go:240-290 | another plugin's transaction id neither finds nor ends anything |
| `TxRegistry.AdmitMeans` | core/db/tx.go:175-198 | over any run a begin is refused if and only if the plugin has as many transactions open or being opened as the ceiling, eight unless set; otherwise it gets the timeout asked for, thirty seconds without one and at most five minutes |
| `TxRegistry.BeginKeepsItsTimeout` | core/db/tx.go:175-233 | until it is registered or released a begin keeps its plugin and timeout, whatever else happens |
| `TxRegistry.StaysUnlessEnded` | core/db/tx.go:240-318 | a step takes a transaction out of the registry if and only if its owner takes it, looks it up after its deadline, the reaper comes after its deadline, or everything is closed |
| `TxRegistry.TransactionLivesAsAsked` | core/db/tx.go:175-318 | from admission over registration to any later step: the transaction belongs to the plugin that began it, its deadline is the granted timeout after its registration, and it is there if and only if nothing of the above has ended it |
| `TxRegistry.Registry.AdmitBegin` | core/db/tx.go:188-198 | admits exactly below the ceiling, eight unless set |
| `TxRegistry.Registry.ReleaseBegin` | core/db/tx.go:200-226 | a begin that failed gives its slot back |
| `TxRegistry.Registry.RegisterBegin` | core/db/tx.go:228-233 | a begun transaction is registered under its id with its deadline |
| `TxRegistry.Registry.DropLocked` | core/db/tx.go:293-301 | removes one transaction and its count |
| `TxRegistry.Registry.LookupTx` | core/db/tx.go:240-254 | finds exactly the plugin's own, unexpired transaction and drops an expired one |
| `TxRegistry.Registry.TakeTx` | core/db/tx.go:280-290 | whoever takes a transaction is the only one to end it |
| `TxRegistry.Registry.DropWhere` | core/db/tx.go:304-318 | the loop drops exactly the due transactions, each once |
| `TxRegistry.Registry.ReapExpired` | core/db/tx.go:304-318 | rolls back exactly the expired transactions |
| `TxRegistry.Registry.Close` | core/db/tx.go:163-172 | nothing stays registered |
| `Inventory.PutVersioned` | core/db/tx.go:343-382 | a conditional write is refused exactly when the stored version differs or the document is missing |
| `Inventory.StepKeepsInv` | extension-example/inventory/main.go:198-325 | in any interleaving, what a request read is current as long as the version is, one uncommitted write holds a row, and rows equal the replayed log |
| `Inventory.NoUnitIsSoldTwice` | extension-example/inventory/main.go:198-240 | the stored levels are those of a serial execution of the committed changes in which every sale is covered by stock no other sale took |
| `Inventory.StockIsConserved` | extension-example/inventory/main.go:198-294 | between any two moments without a PutItem, reserved grew by exactly the committed reservations and stock by exactly the committed restocks |
| `Inventory.StepStaysWithinStock` | extension-example/inventory/main.go:198-325 | a step keeps reserved within stock if and only if it is not a PutItem that exceeds it itself |
| `Inventory.RunStaysWithinStock` | extension-example/inventory/main.go:198-325 | over whole runs reservations never exceed stock |
| `InventoryCalls.CallKeepsInv` | extension-example/inventory/main.go:96-294 | one call's attempts, interleaved with anybody's steps, keep the inventory's invariant and what the call knows about its own change |
| `InventoryCalls.CallTakesEffectAtMostOnce` | extension-example/inventory/main.go:96-294 | whatever else happens and whichever replies are lost, a call changes stock at most once and by what was asked; success means it did, and any other answer means it did not, except a 500 after an unanswered request |
| `InventoryCalls.ChangedIff` | sdk/plugin/host.go:404-431 | the change is there if and only if the caller was told so or the host carried out the unanswered commit or write |
| `InventoryCalls.ReadTellsTheTruth` | extension-example/inventory/main.go:199-219 | an attempt finds no such item exactly if none is stored and not enough exactly if less than asked for is left |
| `InventoryCalls.ConflictMeansSomebodyWrote` | extension-example/inventory/main.go:199-225 | an attempt that read and then writes conflicts if and only if somebody committed a change of that item in between |
| `InventoryCalls.UndisturbedReserveSucceeds` | extension-example/inventory/main.go:96-240 | left alone, a reservation of no more than is left is answered 201 and takes exactly that |
| `InventoryCalls.Reserve` | extension-example/inventory/main.go:96-175 | 400 without an attempt for a quantity that is not positive; otherwise it tries again exactly after conflicts and rate limits, at most eight attempts, and answers 201, 404, 409, 503 or 500 by the last |
| `InventoryCalls.Restock` | extension-example/inventory/main.go:250-294 | 400 without an attempt for a quantity that is not positive; otherwise it tries again exactly after conflicts, at most three attempts, and answers 200, 404, 409 or 500 by the last |
| `InventoryCalls.CallAnswersLikeTheLoop` | extension-example/inventory/main.go:96-294 | a finished call in the interleaved model has the attempts and the answer of the loop over the same outcomes |
| `Locks.StepKeepsInv` | core/hostsvc/memory.go:207-304 | every operation keeps the table equal to what the holders of live leases believe |
| `Locks.AtMostOneLive` | core/hostsvc/memory.go:250-304 | at no moment of any run are two leases on the same lock live |
| `Locks.LiveLeaseStays` | core/hostsvc/memory.go:207-304 | no step but its own release takes a live lease out of the table, sweeps included |
| `Locks.SupersededIsPowerless` | core/hostsvc/memory.go:276-304 | over whole runs a lease that is no longer in the table never gets back in and never again renews or releases anything, whatever name it is used with |
| `Locks.GrantSupersedes` | core/hostsvc/memory.go:250-272 | a grant puts every earlier lease on the same lock out of the table |
| `Locks.AcquireGrantsExactly` | core/hostsvc/memory.go:250-272 | a lock is granted if and only if no lease on it is outstanding and its name is still tracked or there is room — below the ceiling, 10000 unless set, counting the outstanding leases once a sweep is due — and then for the time asked for or thirty seconds |
| `Locks.AcquireSweepsExactly` | core/hostsvc/memory.go:207-217 | an attempt drops another name from the table if and only if thirty seconds have passed since the last sweep and its lock has expired |
| `Locks.RenewExtendsExactly` | core/hostsvc/memory.go:276-291 | a renewal extends exactly a lease that is outstanding on that name, from now and for the time asked for or thirty seconds |
| `Locks.TableIsBounded` | core/hostsvc/memory.go:250-311 | the table never exceeds its ceiling |
| `Locks.LockKeysCollideExactly` | core/hostsvc/memory.go:224 | two plugins can share a lock if and only if the key of one, closed by a NUL, starts the key of the other; one plugin's own names never collide |
| `Locks.LockKeysAreSeparate` | core/hostsvc/memory.go:224 | plugins whose keys contain no NUL never share a lock |
| `Locks.MemoryLocks.SweepLocked` | core/hostsvc/memory.go:207-217 | drops exactly the expired locks, at most once per interval |
| `Locks.MemoryLocks.TryAcquire` | core/hostsvc/memory.go:250-272 | takes the step of the run model; a grant is live and in the table until the stated moment |
| `Locks.MemoryLocks.Renew` | core/hostsvc/memory.go:276-291 | renews exactly a lease outstanding on that name, until the stated moment |
| `Locks.MemoryLocks.Release` | core/hostsvc/memory.go:296-304 | takes the step of the run model |
| `Limiter.Configured` | extension-example/ratelimit/main.go:199-222 | a configuration is always usable: valid settings are taken as given, others become 100 a minute and a burst of 20 |
| `Limiter.HeaderIsEnough` | extension-example/ratelimit/main.go:148-174 | the whole seconds in the header earn at least the missing token and are at most a second and a half more than that takes |
| `Limiter.SweepKeepsLevels` | extension-example/ratelimit/main.go:180-192 | forgetting idle buckets changes no caller's level at any time a later take may have read |
| `Limiter.RateIsBounded` | extension-example/ratelimit/main.go:148-192 | while no take is 30 seconds out of the order of the clocks, in any interval a caller is allowed at most the burst plus what the interval earns |
| `Limiter.AllowsExactly` | extension-example/ratelimit/main.go:148-192 | while no take is 30 seconds out of the order of the clocks, a take is allowed if and only if, from every earlier take of the caller on, it and those allowed since are no more than a burst and what was earned in between |
| `Limiter.UnsweptAllowsExactly` | extension-example/ratelimit/main.go:148-174 | without sweeping that holds in any order of the clocks |
| `Limiter.SweepingIsInvisible` | extension-example/ratelimit/main.go:148-192 | under the same condition every decision, advertised waits included, is the one a limiter that never sweeps would take |
| `Limiter.RetryAfterIsHonest` | extension-example/ratelimit/main.go:148-192 | in any order of the clocks a refused caller who comes back as late as told is allowed, whatever others and the sweeper did and however often the caller was refused in between |
| `Limiter.UnsweptRateIsBounded` | extension-example/ratelimit/main.go:148-174 | without sweeping the bound holds for takes in any order of their clocks |
| `Limiter.SlackIsExact` | extension-example/ratelimit/main.go:148-192 | sweeping is invisible, and the limit holds, in every run whose takes are at most d out of the order of their clocks if and only if d is at most half a sweep interval |
| `Limiter.LateTakeOverspends` | extension-example/ratelimit/main.go:148-192 | the concrete run in which takes a nanosecond later than that overspend |
| `Limiter.BucketKeysAreSeparate` | extension-example/ratelimit/main.go:83-88 | users and anonymous addresses never share a bucket |
| `Limiter.Limiter.Sweep` | extension-example/ratelimit/main.go:180-192 | the loop drops exactly the buckets that would be full |
| `Limiter.Limiter.Take` | extension-example/ratelimit/main.go:148-174 | refilling, capping and charging the caller's bucket in place makes the decision and the state of the run model |
| `Limiter.Limiter.Check` | extension-example/ratelimit/main.go:55-76 | exempt paths touch nothing; every other request is answered with its decision and counted as allowed or rejected accordingly |
| `Limiter.Limiter.IsExempt` | extension-example/ratelimit/main.go:90-104 | exempt are exactly the limiter's own paths and those with a configured prefix |
| `Limiter.Limiter.Configure` | extension-example/ratelimit/main.go:199-222 | replaces the settings and keeps the buckets |
| `Menu.CheckRole` | core/gateway/menu.go:25-38 | a node is visible exactly if it lists no role, or the role is not empty and listed |
| `Menu.FilterNodes` | core/gateway/menu.go:64-74 | the recursive filter keeps exactly the visible nodes with their visible descendants |
| `Menu.FilterKeepsVisible` | core/gateway/menu.go:64-74 | what a chain denotes after filtering is its first declaration visible all the way up |
| `Menu.FirstVisibleFindsChains` | core/gateway/menu.go:64-74 | a chain has a first visible declaration exactly when it has one at all |
| `Menu.MergeDecls` | core/gateway/menu.go:79-94 | merging keeps what the siblings already say about a chain and adds what the new nodes say first |
| `Menu.TreeMeansItsMenus` | core/gateway/menu.go:51-61 | the tree is unique and sorted at every level, holds exactly the visible chains, and each node has the fields of its first visible declaration |
| `Menu.TidyIsInOrder` | core/gateway/menu.go:106-115 | tidy means that at every level the smaller order comes first, among equal ones the smaller path, and no path twice |
| `Menu.ChainsAreTheUnion` | core/gateway/menu.go:51-61 | the chains are the union of the chains of the role-filtered menus |
| `Menu.TidyIsDetermined` | core/gateway/menu.go:51-115 | two such trees in which every chain means the same are equal, so the result is determined |
| `Menu.Locate` | core/gateway/menu.go:97-104 | the loop finds the first node with the path |
| `Menu.MergeInto` | core/gateway/menu.go:79-94 | folding one node in is the merge of the reference |
| `Menu.BuildTree` | core/gateway/menu.go:51-61 | the loops build the tree of the reference, with its meaning |
| `Supervisor.Effective` | core/pluginhost/supervisor.go:82-107 | every setting that is not positive becomes one second, one minute, five crashes or five minutes, and any other is kept |
| `Supervisor.WindowIsAStretch` | core/pluginhost/supervisor.go:220-232 | a crash window is one stretch of crashes, all within the window of the first |
| `Supervisor.WindowCloses` | core/pluginhost/supervisor.go:220-232 | the next window opens exactly with the first crash that comes too late |
| `Supervisor.RestartsAreBounded` | core/pluginhost/supervisor.go:163-232 | within a window a plugin is restarted at most max(threshold, 2) - 1 times, and exactly that often if it crashes on |
| `Supervisor.ThresholdIsExact` | core/pluginhost/supervisor.go:220-232 | quarantine on the threshold-th crash of a window holds for all histories if and only if the threshold is at least 2; below that it is the second crash |
| `Supervisor.SlowCrashesNeverQuarantine` | core/pluginhost/supervisor.go:220-232 | crashes further apart than the window never lead to quarantine, however many |
| `Supervisor.DelayIsCappedDoubling` | core/pluginhost/supervisor.go:236-253 | the delay is min(initial * 2^(n-1), max) if and only if n is at least 2 or the initial delay is within the maximum; from the second on it never shrinks |
| `Supervisor.Doubled` | core/pluginhost/supervisor.go:244-252 | the doubling loop computes that delay |
| `Supervisor.RecordFollowsHistory` | core/pluginhost/supervisor.go:220-232 | the record updated in place is the current window of the crash history after each crash |
| `Supervisor.Supervisor.TooManyCrashes` | core/pluginhost/supervisor.go:220-232 | the record kept per plugin is the crash history's current window, and the answer is exact |
| `Supervisor.Supervisor.BackoffFor` | core/pluginhost/supervisor.go:236-253 | the delay belongs to the position in the current window |
| `Supervisor.Supervisor.ClearCrashes` | core/pluginhost/supervisor.go:258-265 | forgets one plugin's history and quarantine and nobody else's |
| `Supervisor.Supervisor.Round` | core/pluginhost/supervisor.go:163-216 | one round counts one crash and quarantines exactly at the limit; otherwise it waits for the delay of its place in the window and restarts, gives up or tries again exactly as the shutdown, the registration and the relaunch say |
| `Supervisor.Supervisor.Recover` | core/pluginhost/supervisor.go:163-216 | the recursion counts one crash per round, goes on exactly after failed relaunches, waits in every round the delay of its place in its window, quarantines exactly at the first round that is too many, and rounds in the first one's window are never more than it has room for |
| `Breaker.RunsStayBelow` | core/pluginhost/breaker.go:95-125 | while closed, fewer failures in a row than the threshold; while tripped, fewer successes than required |
| `Breaker.TripsExactly` | core/pluginhost/breaker.go:112-125 | it trips if and only if the event is the threshold-th failure in a row since the last success |
| `Breaker.ClosesExactly` | core/pluginhost/breaker.go:95-108 | it closes if and only if the event is the required success in a row since the last failure |
| `Breaker.TrippedExactly` | core/pluginhost/breaker.go:95-125 | tripped means that some failure was the threshold-th in a row and the required successes in a row have not come since; a new breaker is closed |
| `Breaker.PermitsExactly` | core/pluginhost/breaker.go:74-85 | a call is let through if and only if the breaker is closed, or its window is over and no call let through while tripped is unanswered |
| `Breaker.Effective` | core/pluginhost/breaker.go:53-64 | every setting that is not positive becomes five failures, five seconds or two successes, and any other is kept |
| `Breaker.FailureRestartsWindow` | core/pluginhost/breaker.go:112-125 | while tripped, nothing is let through until the full window after the last failure |
| `Breaker.OneProbeAtATime` | core/pluginhost/breaker.go:74-85 | between two records at most one call gets through a tripped breaker |
| `Breaker.RecordFreesProbe` | core/pluginhost/breaker.go:95-125 | right after a record only the window can keep a tripped breaker shut |
| `Breaker.Breaker.TryAllow` | core/pluginhost/breaker.go:74-85 | the answer computed from the fields is the one the log of calls dictates |
| `Breaker.Breaker.Open` | core/pluginhost/breaker.go:89-92 | open means tripped and within the window of the last failure |
| `Breaker.Breaker.RecordSuccess` | core/pluginhost/breaker.go:95-108 | the four fields stay what the log of calls says |
| `Breaker.Breaker.RecordFailure` | core/pluginhost/breaker.go:112-125 | the four fields stay what the log of calls says |
| `Cron.StepMask` | manifest/cron.go:158-162 | the loop sets exactly the denoted positions, or, once its variable wraps around, exactly the stray ones described |
| `Cron.SetsIsExact` | manifest/cron.go:158-162 | the mask of a part equals the set it denotes if and only if its start plus two steps stays below 2^64 |
| `Cron.HugeStepStrays` | manifest/cron.go:119-163 | the concrete part that denotes the 5th alone and whose mask holds the 5th, the 3rd and the 1st |
| `Cron.TameFieldIsExact` | manifest/cron.go:104-163 | a field all of whose parts meet that condition encodes exactly what it denotes |
| `Cron.FieldIsExactIff` | manifest/cron.go:104-163 | a field encodes exactly what it denotes if and only if every stray position of a wrapped-around part is denoted by another part |
| `Cron.EncodesWithinLimits` | manifest/cron.go:104-163 | no mask reaches beyond its field, even after a wrap-around |
| `Cron.NarrowKeepsAll` | manifest/cron.go:67-75 | the narrowing conversions lose no bit |
| `Cron.PartOf` | manifest/cron.go:119-156 | an accepted part is an ordered range within the limits with a positive step |
| `Cron.PartOfWritten` | manifest/cron.go:119-156 | a range written out with its step is read back as that range |
| `Notation.NumberExactly` | manifest/cron.go:119-156 | a number is read as v if and only if it is v in decimal, with or without a sign and leading zeros, and fits 64 bits |
| `Notation.PartExactly` | manifest/cron.go:119-156 | a part is read as a range and step if and only if it is a star, a number or two with a dash between, within the limits and in order, with a slash and a positive number after it or in steps of one |
| `Cron.FullMask` | manifest/cron.go:165-171 | the mask of a star holds exactly the limits |
| `Cron.ParsePart` | manifest/cron.go:119-163 | refuses exactly the malformed parts and otherwise holds what the part sets |
| `Cron.ParseField` | manifest/cron.go:104-117 | refuses exactly the malformed fields; the mask is the union of its parts and restricted means anything but a bare star |
| `Cron.ParseSchedule` | manifest/cron.go:39-76 | accepts exactly five good fields, and the stored masks hold what they encode |
| `Cron.MatchesMeansMasks` | manifest/cron.go:79-100 | Matches is cron's rule over the masks, with either day field enough when both are restricted |
| `Cron.MasksMeanFires` | manifest/cron.go:79-100 | and over the denoted sets, for expressions whose steps meet the condition |
| `Notation.FieldExactly` | manifest/cron.go:104-163 | a field denotes a value if and only if it is a star and the value within the limits, or one of its parts between commas reaches it in steps from its start |
| `Notation.WordsExactly` | manifest/cron.go:40 | an expression is cut into exactly the words between its white space |
| `Notation.ExpressionExactly` | manifest/cron.go:39-100 | the minutes a five-word expression denotes, from its text: minute 0-59, hour 0-23, month 1-12, and day 1-31 and weekday 0-6 both, or either if neither is a star |
| `Notation.AcceptedExactly` | manifest/cron.go:39-163 | an expression is accepted if and only if it has five words and each is a star or parts between commas that can be read within those limits |
| `Cron.SteppedStarIsRestricted` | manifest/cron.go:104-117 | a stepped star counts as restricted: with `*/1` as day of month any day-of-week restriction is without effect |
| `Scheduler.ClaimedIffFirst` | core/pluginhost/scheduler.go:130-150 | a claim goes through exactly when that job was not claimed in that minute, and pruning forgets no claim of the current minute |
| `Scheduler.AtMostOncePerMinute` | core/pluginhost/scheduler.go:105-150 | over any run with a non-decreasing clock no job is claimed twice in a minute |
| `Scheduler.ForgottenIffDisplaced` | core/pluginhost/scheduler.go:130-150 | a claim is forgotten if and only if in between the same job was offered for another minute, or another job was claimed more than an hour later |
| `Scheduler.RunsTwiceIffForgotten` | core/pluginhost/scheduler.go:105-150 | under any clock some job runs twice in a minute if and only if one is offered again after being forgotten |
| `Scheduler.OnlyDueJobsAreClaimed` | core/pluginhost/scheduler.go:105-127 | whatever a tick claims is a job whose schedule parses and holds that minute |
| `Scheduler.ClockStepRepeats` | core/pluginhost/scheduler.go:130-150 | a job offered in a minute, in another and in the first again is claimed all three times |
| `Scheduler.JobIdsAreSeparate` | core/pluginhost/scheduler.go:132 | different jobs have different ids while plugin keys contain no NUL |
| `Scheduler.JobIdsCollideExactly` | core/pluginhost/scheduler.go:132 | ids of different plugins can collide if and only if the key of one, closed by a NUL, starts the key of the other |
| `Scheduler.Scheduler.Claim` | core/pluginhost/scheduler.go:130-150 | the table update and pruning loop take the step of the run model |
| `Scheduler.Scheduler.Tick` | core/pluginhost/scheduler.go:105-127 | under any clock the loop offers exactly the due jobs in order and starts those claimed; with a clock that has not stepped back it also repeats none |

## Left out

- Process launch, plugin RPC, HTTP and event-stream plumbing, object storage, the manager, the console and the SDK: input and output around the modelled logic.
- PostgreSQL: each statement is one atomic step on a table; isolation is READ COMMITTED with row locks, text order is by code point, and a condition is an expression tree rather than SQL text.
- JSON, base64 and the cursor codec: documents are trees and cursors are values.
- Go's memory model: atomic accesses and critical sections interleave sequentially consistently.
- Breaker.Breaker.TryAllow: one step per call; interleavings inside a call are not modelled, and neither is Reset.
- Breaker.Breaker.RecordFailure: times are positive, since a stored zero means closed.
- Limiter.Limiter.Take: token counts are real numbers; infinities, NaN and rounding of floating point are not modelled, nor is the overflow of Idle and RetryAfter when a very small rate makes them longer than a duration can be.
- RoundRobin.ReplicaSet.Pick: weights and counters are unbounded, so weights whose total overflows an int are not covered.
- Scans.RepeatsIffGoesBack: where a cursor jumps over rows it is not tied with, a page can go back without an id coming twice (AlignedScans.BackWithoutRepeat); there Scans.RepeatsOnlyIfGoesBack is what holds.
- Predicates.RenderClause: operator names are trimmed and upper-cased for ASCII only, and a LIKE pattern ending in its escape character is not treated as an error.
- Queue.PluginQueue.Claim: which rows are skipped as locked by others is an input; the selection PostgreSQL makes is a loop here.
- TxRegistry.Registry.ReapExpired: returns the ids it rolled back instead of their number.
- TxRegistry.Registry.DropWhere: the order in which handles are rolled back is not recorded.
- Locks.MemoryLocks.TryAcquire: one attempt; the polling loop of Acquire repeats it until its wait is over. Lease ids are taken to be fresh.
- Menu.MergeInto: siblings are returned as a new value where the code edits a slice through a reference; nothing else refers to that slice.
- Pipeline.RequestContext.ApplyMutation: the fields of the request are one record value that is reassigned, and filter timeouts, trace ids and elapsed time are not modelled.
- Gateway.PluginOf: the cleaned sub-path (path.Clean) is not modelled.
- Gateway.WriteStop: the header names of a reply are taken to be in canonical spelling already.
- Gateway.CallBackend: which instances are picked and whether they begin are inputs.
- Supervisor.Doubled: integers are unbounded, so a maximum backoff above half the largest 64-bit duration is not covered.
- Supervisor.Supervisor.Recover: the sequence of rounds ends with a shutdown; removing and killing the quarantined instances is the registry's and the instance's part.
- Cron.ParseSchedule: white space is ASCII, and errors carry no message.
- Scheduler.Scheduler.Tick: running the job and the calendar arithmetic that turns a moment into its fields are not modelled.
- InventoryCalls.CallTakesEffectAtMostOnce: a rollback takes effect when it is asked for; one whose request is lost takes effect only at the transaction's deadline, until which the row stays locked.
- Inventory.StepKeepsInv: quantities are unbounded, so an OnHand that wraps around 64 bits is not covered; items are never deleted, as no route of the plugin deletes one; reservation documents appear as log entries.
- The in-memory cache, static configuration, aggregation queries, batch writes, audit, authentication of sessions and manifest validation: they would only add simpler members.
