# TokenWeasel: a verified model of the proxy core

TokenWeasel is a reverse proxy for language-model backends. This project models
its core in Dafny and proves what that core is for:

- **One transition system for the whole proxy** (`ProxySystem`, `ProxyInvariants`,
  `ResourceChain`, `Progress`, `RollingWindow`, `BoundedBypass`, `SystemEnergy`). Any
  number of requests share the fair admission queue, the load counters and the energy
  meters. A step is one mutex-held region, one atomic update or one turn of the admission
  loop; a request may be cancelled at every await, and closing its oneshot receiver
  and dropping its registration are two separate steps. `FairQueue` and
  `EnergyMeter` hold the classes that run these steps.
- **Catalog and router** (`Catalog`, `CatalogRuns`, `RoundRobin`, `RoundRobinRuns`,
  `Router`, `Registry`, `Watchdog`, `WatchdogRuns`, `Failover`). The routing index
  under compare-and-retry updates, rendezvous hashing with bounded-load spill,
  round-robin cursors that wrap at 2^32, poll skipping, and the candidate loop.
- **Streaming accounting** (`LineSplitting`, `Json`, `UsageExtraction`,
  `StreamAccounting`, `PrefixHash`). The bounded line splitter against batch
  splitting, usage records from any JSON value, their merge in saturating i64
  arithmetic, the prompt prefix.
- **Identity and reports** (`Identity`, `IdentityRuns`, `Accounts`, `Pricing`,
  `Reports`). Every run of transactions on the account tables, password changes as
  interleaved read-then-swap calls, and lossless regrouping of the usage table.

Time is a natural number that does not run backwards. The rendezvous score, the
per-line parser, the password verifier, the calendar and the upstream outcomes are
parameters. A new password hash differs from all earlier ones, because it is salted.

Where the code does not meet a property outright, the model follows the code, states
the exact condition and shows an input that fails it:

- the cursor's wrap at 2^32 unbalances every number of candidates that does not
  divide it (`RoundRobin.BalancedThroughWrap`, `RoundRobinRuns.RoundRobinExactly`);
- a record seen twice in a stream changes the total exactly when it was alone and its
  reported total was too small (`StreamAccounting.RepeatIsHarmless`,
  `StreamAccounting.RepeatCorrectsTotal`);
- poll skipping keeps the advertised ids right, but the metadata beside them goes
  stale exactly when a poll changes it under unchanged ids
  (`Watchdog.MetadataFreshExactly`, `Watchdog.MetadataGoesStale`);
- further turns change the prompt prefix unless both roles have spoken or the system
  text fills the cap (`PrefixHash.PrefixSettlesExactly`);
- two rows of the per-user report show one label exactly when a user goes by the text
  of the other row, GENERIC or that of a deleted key (`Reports.LabelsCollideExactly`,
  `Reports.LabelsCollide`, `Reports.DeletedKeyLabelsCollide`);
- usage blocks are read back exactly under a condition on the total (the round trips
  of `UsageExtraction`).

The start-up password rotation keeps the user's API keys, unlike a change or a reset;
`IdentityRuns.KeyLivesExactly` reflects that. The schema's comment that attribution
survives revocation and ends with the account is exactly what
`IdentityRuns.AttributionExact` states.

`dafny verify dfyconfig.toml` checks everything.

## Model

| member | source | states |
|---|---|---|
| `FairQueue.Best` | crates/twl-server/src/fair_queue.rs:96-105 | The admission key is minimal: no waiter has fewer grants in the window, or as many and an earlier sequence; ties go to the first in the list |
| `FairQueue.AdmitsExtend` | crates/twl-server/src/fair_queue.rs:91-127 | Turns of the admission loop compose: a run of turns followed by one more is a run of turns |
| `FairQueue.FairQueue.constructor` | crates/twl-server/src/fair_queue.rs:37-50 | A new queue holds no permit, no waiter, no grant |
| `FairQueue.FairQueue.PruneGrants` | crates/twl-server/src/fair_queue.rs:130-140 | Every deque loses its stale front, up to now less the window, and empty deques go; when that instant cannot be represented nothing changes |
| `FairQueue.FairQueue.RecordGrant` | crates/twl-server/src/fair_queue.rs:142-145 | Prunes, then appends the grant: the user's deque is what the window left of it and the new instant |
| `FairQueue.FairQueue.SelectWaiter` | crates/twl-server/src/fair_queue.rs:96-105 | The scan finds the first waiter with the smallest key |
| `FairQueue.FairQueue.AdmitNext` | crates/twl-server/src/fair_queue.rs:92-126 | One turn: select, take out, hand over through the channel, and undo everything but the removal when the receiver is gone |
| `FairQueue.FairQueue.AdmitWaiters` | crates/twl-server/src/fair_queue.rs:91-127 | The loop ends, also over dead waiters, only when no permit is free or nobody waits, and is one turn per clock reading |
| `FairQueue.FairQueue.Acquire` | crates/twl-server/src/fair_queue.rs:53-82 | The permit is taken at once exactly when one is free and nobody waits, and then the grant is recorded; otherwise the caller is registered last with a fresh sequence number |
| `FairQueue.FairQueue.Release` | crates/twl-server/src/fair_queue.rs:84-89 | Gives one permit back and leaves no waiter beside a free permit |
| `FairQueue.FairQueue.DropRegistration` | crates/twl-server/src/fair_queue.rs:165-179 | Removes exactly the waiter with that sequence number, if it is still listed |
| `ProxyInvariants.InvStep` | crates/twl-server/src/fair_queue.rs:53-202 | Every step of any request keeps the joint invariant: permits, load and meters counted, work conserved, channels and tickets owned |
| `ProxyInvariants.ReachableInv` | crates/twl-server/src/fair_queue.rs:53-202 | The joint invariant holds in every state reached by any interleaving |
| `ResourceChain.ResourceChain` | crates/twl-server/src/proxy/mod.rs:125-290 | In every reachable state each meter's active count is at most its backend's in-flight count, and these sum to at most the permits out, at most the capacity |
| `ResourceChain.QueueSafety` | crates/twl-server/src/fair_queue.rs:53-202 | Permits out equal armed guards, held or sitting in a delivered channel; a waiter beside a free mutex means every permit is out |
| `ResourceChain.DropsAreCounted` | crates/twl-server/src/proxy/stream.rs:67-120 | No counter underflows when a guard is dropped in the order meter, load, slot, and a waiting task is still registered |
| `ResourceChain.NothingLeaks` | crates/twl-server/src/proxy/mod.rs:125-290 | When the last request is gone, however it ended, all permits, channels, load and meters are back at rest |
| `ResourceChain.MoveEnabled` | crates/twl-server/src/proxy/mod.rs:125-290 | A request that is not waiting on an empty channel can take its next step, except exactly while that step needs the mutex the admission loop holds |
| `ResourceChain.NoDeadlock` | crates/twl-server/src/proxy/mod.rs:125-290 | While any request exists some step other than an arrival is possible |
| `ResourceChain.ReleaseIsRun` | crates/twl-server/src/fair_queue.rs:84-127 | What the release method does in one call is a run of the transition system, from dropping the slot to unlocking |
| `Progress.MeasureDrops` | crates/twl-server/src/proxy/mod.rs:125-290 | Every event but an arrival brings a measure of the state down |
| `Progress.RunsEnd` | crates/twl-server/src/proxy/mod.rs:125-290 | A run without arrivals is no longer than the measure of its first state |
| `Progress.Drains` | crates/twl-server/src/proxy/mod.rs:125-290 | From every reachable state an arrival-free run with duplicate-free routes is bounded, and when it cannot go on no request is left and every counter is at rest |
| `SystemEnergy.FollowStep` | crates/twl-backends/src/energy.rs:73-111 | One event of the whole proxy changes a backend's meter exactly as its own guard trace says |
| `SystemEnergy.SystemEnergyIsUnion` | crates/twl-backends/src/energy.rs:73-111 | In every run of the proxy, reported energy plus the running interval is the measure of the union of the requests' meter lifetimes on that backend |
| `RollingWindow.PoppingIsFiltering` | crates/twl-server/src/fair_queue.rs:130-140 | On a sorted deque, popping the front equals keeping the timestamps newer than the cutoff |
| `RollingWindow.WindowExact` | crates/twl-server/src/fair_queue.rs:130-145 | In every reachable state pruning leaves each user exactly the admissions of the whole run that are newer than now less the window, all of them when that instant cannot be represented, and knows exactly the users that have one |
| `RollingWindow.ServedIs` | crates/twl-server/src/fair_queue.rs:130-140 | Which admissions count, instant by instant: those of the run newer than now less the window, each as often as it happened |
| `RollingWindow.DequesStaySorted` | crates/twl-server/src/fair_queue.rs:94-118 | Every deque is time-sorted and non-empty in every reachable state; with fairness off none exists |
| `BoundedBypass.AdmitLag` | crates/twl-server/src/fair_queue.rs:91-127 | One admission turn moves the lag between two users, counted in the window, by at most what it admits and what leaves the window |
| `BoundedBypass.AdmitsLeastServed` | crates/twl-server/src/fair_queue.rs:91-127 | In every reachable state an admission turn takes out the waiter whose user has the fewest admissions of the whole run in the window, then the earliest ticket; nobody else leaves, and an open channel makes it an admission |
| `BoundedBypass.PaidInAll` | crates/twl-server/src/fair_queue.rs:91-127 | In any run in which each counted admission is paid by the lag and only expirations raise it, the count is at most max(0, lag plus expirations) |
| `BoundedBypass.NeverReturns` | crates/twl-server/src/fair_queue.rs:62-82 | A waiter that left the list never comes back under its sequence number |
| `BoundedBypass.BypassBound` | crates/twl-server/src/fair_queue.rs:91-127 | While a request waits, later arrivals of another user admitted first number at most max(0, the head start in the window plus that user's grants that leave the window meanwhile) |
| `BoundedBypass.NoOvertaking` | crates/twl-server/src/fair_queue.rs:91-127 | No later arrival of the same user, and with fairness off no later arrival at all, is admitted first |
| `BoundedBypass.BypassFromArrival` | crates/twl-server/src/fair_queue.rs:62-127 | The bound at the moment of joining: grants of the user in the window plus its earlier waiters less the other's grants in the window, floored at zero, plus expirations; grants already expired do not count |
| `EnergyMeter.EnergyMeter.constructor` | crates/twl-backends/src/energy.rs:53-64 | A new meter is idle |
| `EnergyMeter.EnergyMeter.BeginGuard` | crates/twl-backends/src/energy.rs:73-82 | Counts one more guard and starts the interval when it is the first |
| `EnergyMeter.EnergyMeter.DropGuard` | crates/twl-backends/src/energy.rs:93-111 | The last guard closes the interval and emits it, unless the configured power is zero |
| `EnergyMeter.Run` | crates/twl-backends/src/energy.rs:73-111 | After any legal trace the active count is the number of guards alive, and an interval runs exactly while there is one |
| `EnergyMeter.BusyBetween` | crates/twl-backends/src/energy.rs:73-111 | Between two events the union of lifetimes holds every instant or none, as some guard is alive or none is |
| `EnergyMeter.EnergyIsUnion` | crates/twl-backends/src/energy.rs:73-111 | Emitted times plus the running interval measure the union of guard lifetimes after every trace |
| `EnergyMeter.EnergyWhenIdle` | crates/twl-backends/src/energy.rs:73-111 | Once all guards are dropped the emitted times sum to the measure of the union |
| `EnergyMeter.OneRecordPerStretch` | crates/twl-backends/src/energy.rs:93-111 | The records are, in the order in which the stretches end, the lengths of the maximal busy stretches, one each |
| `EnergyMeter.ZeroWattsIsSilent` | crates/twl-backends/src/energy.rs:98-109 | Without positive power nothing is ever emitted |
| `LineSplitting.SplitIsLossless` | crates/twl-server/src/proxy/stream.rs:252-334 | The reference splits into proper lines and a newline-free tail that together are the stream |
| `LineSplitting.SplitAppend` | crates/twl-server/src/proxy/stream.rs:267-323 | Splitting a concatenation continues from the tail of its first part |
| `LineSplitting.ShortOne` | crates/twl-server/src/proxy/stream.rs:292-322 | A line is looked at exactly when it has at most 1048576 bytes |
| `LineSplitting.ShortAppend` | crates/twl-server/src/proxy/stream.rs:292-322 | Each line on its own |
| `LineSplitting.PushRefines` | crates/twl-server/src/proxy/stream.rs:267-323 | One push of any chunk hands out exactly the short lines it completes, also from the discard state |
| `LineSplitting.SplitterRefinesBatch` | crates/twl-server/src/proxy/stream.rs:252-334 | For every chunking, the lines delivered are exactly the newline-terminated lines of length at most MAX_LINE, in order; the remainder is the fragment if it fits and empty otherwise; at most MAX_LINE bytes are retained |
| `LineSplitting.LineBuffer.DiscardLine` | crates/twl-server/src/proxy/stream.rs:271-290 | Drops everything through the next newline, or reports that there is none |
| `LineSplitting.LineBuffer.ScanLines` | crates/twl-server/src/proxy/stream.rs:292-322 | The single forward scan and drain equal batch splitting of the buffer |
| `LineSplitting.LineBuffer.PushChunk` | crates/twl-server/src/proxy/stream.rs:267-323 | A push behaves as the specified splitter |
| `LineSplitting.BoundedBuffer.PushChunk` | crates/twl-server/src/proxy/stream.rs:354-368 | Holds everything pushed while it fits the cap and nothing afterwards |
| `LineSplitting.BoundedBuffer.Complete` | crates/twl-server/src/proxy/stream.rs:371-373 | Yields the whole body exactly when it fits the cap |
| `UsageExtraction.ExtractSane` | crates/twl-provider/src/usage.rs:16-191 | Every record extracted from any JSON value has 0 <= cached <= input and non-negative output and total, within i64 |
| `UsageExtraction.ScavengeFinds` | crates/twl-provider/src/usage.rs:274-301 | Counts are found exactly when some nested object carries one, and are those of such an object |
| `UsageExtraction.ScavengeFirst` | crates/twl-provider/src/usage.rs:274-301 | The counts are those of the first object in depth-first order that has any |
| `UsageExtraction.ScavengeModelFirst` | crates/twl-provider/src/usage.rs:303-316 | The model is that of the first object in depth-first order that names one |
| `UsageExtraction.ScavengeSane` | crates/twl-provider/src/usage.rs:250-339 | A record is scavenged exactly when some nested object carries a count, with the numbers of the first such object and the model of the first that names one, and is sane |
| `UsageExtraction.ScavengeReads` | crates/twl-provider/src/usage.rs:250-339 | Name by name: the first object with a count under any of thirteen names gives input, output and total from the first of their own names that holds an integer, cached tokens from the object or one level down, all clamped; a missing total is the saturated sum |
| `UsageExtraction.ScavengeExactly` | crates/twl-provider/src/usage.rs:274-301 | A record is scavenged exactly when some nested object has an integer under one of the thirteen names |
| `UsageExtraction.ScavengeNames` | crates/twl-provider/src/usage.rs:303-316 | The model is the string under model, else model_name, else model_id, of the first object with any of them |
| `UsageExtraction.ChatRoundTrip` | crates/twl-provider/src/usage.rs:62-138 | A chat-completion usage block is read back exactly unless it reports a zero total beside non-zero counts |
| `UsageExtraction.ResponseRoundTrip` | crates/twl-provider/src/usage.rs:16-138 | The same through the nested response object |
| `UsageExtraction.MessageRoundTrip` | crates/twl-provider/src/usage.rs:16-138 | Anthropic counts, where cache reads and cache writes are outside the input, are read back exactly when the total is the saturated sum |
| `UsageExtraction.HitRoundTrip` | crates/twl-provider/src/usage.rs:62-138 | DeepSeek counts, with cache hits beside the prompt, are read back exactly unless a zero total stands beside non-zero counts |
| `UsageExtraction.TotalOnly` | crates/twl-provider/src/usage.rs:62-138 | A total alone is input on rerank, score and pooling endpoints and neither input nor output elsewhere |
| `UsageExtraction.UnnamedModel` | crates/twl-provider/src/usage.rs:16-45 | A response without a model is recorded under the requested one, or as unknown |
| `UsageExtraction.CompletionRoundTrip` | crates/twl-provider/src/usage.rs:141-191 | The llama.cpp terminal event is read back exactly when the total is the saturated sum |
| `UsageExtraction.OllamaRoundTrip` | crates/twl-provider/src/usage.rs:141-180 | Ollama counts are read back exactly when nothing was cached and the total is the saturated sum |
| `UsageExtraction.RunningIgnored` | crates/twl-provider/src/usage.rs:46-53 | llama.cpp events before the last, which carry running totals, are not recorded |
| `StreamAccounting.MergeMaxima` | crates/twl-server/src/proxy/stream.rs:85-101 | The merged input, output and cached counts are the maxima over all records |
| `StreamAccounting.MergeTotal` | crates/twl-server/src/proxy/stream.rs:85-101 | With two or more records the total is the maximum of all totals and the saturated sum of the maxima |
| `StreamAccounting.MergeOrderIndependent` | crates/twl-server/src/proxy/stream.rs:85-101 | The merged counts do not depend on the order of the records |
| `StreamAccounting.MergeSane` | crates/twl-server/src/proxy/stream.rs:85-101 | Merging sane records gives a sane record |
| `StreamAccounting.MergeModel` | crates/twl-server/src/proxy/stream.rs:85-101 | The merged record keeps the first known model and the first endpoint; its model is unknown only when all are |
| `StreamAccounting.RepeatIsHarmless` | crates/twl-server/src/proxy/stream.rs:85-101 | Seeing a record again changes no count if and only if it was not alone or its total covers its own saturated sum |
| `StreamAccounting.RepeatCorrectsTotal` | crates/twl-server/src/proxy/stream.rs:85-101 | A chat completion whose reported total is too small is such an exception: seeing it twice changes the recorded total |
| `StreamAccounting.UsageRecorder.Observe` | crates/twl-server/src/proxy/stream.rs:182-187 | The recorder holds the merge of everything observed |
| `StreamAccounting.FeedChunk` | crates/twl-server/src/proxy/stream.rs:174-189 | One turn of the stream loop keeps buffer and recorder in step with the bytes seen |
| `StreamAccounting.FlushFragment` | crates/twl-server/src/proxy/stream.rs:191-195 | After the last chunk the trailing fragment is accounted too |
| `StreamAccounting.AccountLines` | crates/twl-server/src/proxy/stream.rs:149-201 | For every chunking, error position and client disconnect: what is forwarded, and that the recorded usage is the batch usage of the body, or that of the lines completed before the client left |
| `StreamAccounting.BodyStops` | crates/twl-server/src/proxy/stream.rs:174-189 | What is forwarded: the chunks up to the first error, and that error |
| `StreamAccounting.BodyIs` | crates/twl-server/src/proxy/stream.rs:174-195 | The accounted body is the bytes of the chunks before the first error |
| `StreamAccounting.ParseOne` | crates/twl-server/src/proxy/stream.rs:174-189 | A line contributes the record it parses to, if any |
| `StreamAccounting.ParseAppend` | crates/twl-server/src/proxy/stream.rs:174-189 | Lines are parsed independently of each other |
| `StreamAccounting.ChunkingIrrelevant` | crates/twl-server/src/proxy/stream.rs:149-201 | The recorded usage depends on the bytes only, not on how they were chunked |
| `StreamAccounting.FinalizeBuffered` | crates/twl-server/src/proxy/stream.rs:378-404 | A known shape wins over the fallback; nothing is recorded only if no nested object has a count; whatever is recorded is sane |
| `StreamAccounting.AccountBody` | crates/twl-server/src/proxy/stream.rs:207-247 | For every chunking, error position and client disconnect: what is forwarded, and that the usage of the whole body is recorded exactly when the client stays to the end and the body fits the cap |
| `Catalog.OverrideExact` | crates/twl-backends/src/lib.rs:200-213 | A configured type replaces the reported one and no other field changes |
| `Catalog.AdvertisedIds` | crates/twl-backends/src/lib.rs:503-515 | An id is advertised if and only if it was reported and, where there is a filter, the filter has it; each once |
| `Catalog.AdvertisedExact` | crates/twl-backends/src/lib.rs:200-225 | The advertised entries are the first report of each id the filter lets through, in the order they came, with the configured type |
| `Catalog.ListingPrecedence` | crates/twl-backends/src/lib.rs:531-541 | The entry listed for a model is the first with it of the first backend that has it |
| `Catalog.Deduplicate` | crates/twl-backends/src/lib.rs:217-221 | The retain loop keeps the first entry of each id |
| `Catalog.CandidatesExact` | crates/twl-backends/src/lib.rs:227-263 | Candidate lists are strictly increasing and hold exactly the backends with the model |
| `Catalog.RouteEntry` | crates/twl-backends/src/lib.rs:231-260 | Adding one entry to the index extends the list of its model and of no other |
| `Catalog.BuildRouting` | crates/twl-backends/src/lib.rs:227-263 | The loops build the index of all entries, carrying over the rotation counters of models that stay |
| `Catalog.RoutableIffListed` | crates/twl-backends/src/lib.rs:531-577 | A model is routable if and only if it is listed |
| `CatalogRuns.CatalogIsReplay` | crates/twl-backends/src/lib.rs:500-528 | Under any interleaving of compare-and-retry updates the catalog is the committed updates applied one at a time in commit order, with an exact routing index |
| `CatalogRuns.NoLostUpdate` | crates/twl-backends/src/lib.rs:500-528 | In every reachable state a backend's catalog entries are those of its own last commit, whoever committed since |
| `CatalogRuns.NoUpdateVanishes` | crates/twl-backends/src/lib.rs:500-528 | Each update is committed or still being retried exactly as often as it was begun; once no task is left the commit log is a permutation of the updates begun |
| `CatalogRuns.ReachableRoutable` | crates/twl-backends/src/lib.rs:500-577 | In every reachable catalog a model is routable if and only if it is listed, with exactly its backends |
| `CatalogRuns.RoutesFollowCursor` | crates/twl-backends/src/lib.rs:373-383 | First choices follow the shared cursor through refreshes and everything else that interleaves |
| `CatalogRuns.SteadyStep` | crates/twl-backends/src/lib.rs:227-244 | A refresh that keeps the candidates of a model keeps its routing entry, cursor included |
| `CatalogRuns.SteadyIsSame` | crates/twl-backends/src/lib.rs:373-383 | Without a route under way from an earlier catalog, steady candidates make all routes on the cursor alike |
| `CatalogRuns.RoundRobinBalance` | crates/twl-backends/src/lib.rs:373-395 | From any reachable state each of n steady candidates is first floor(m/n) or ceil(m/n) times in m routes with these candidates, as long as the u32 cursor does not wrap or n divides 2^32 |
| `RoundRobinRuns.RoundRobinExactly` | crates/twl-backends/src/lib.rs:373-395 | All runs from the initial catalog share the routes of a model evenly, wraps included, if and only if its number of candidates divides 2^32; the run over an uneven wrap is shown |
| `RoundRobin.CursorBalanced` | crates/twl-backends/src/lib.rs:373-383 | The same for a bare wrapping counter |
| `RoundRobin.BalancedThroughWrap` | crates/twl-backends/src/lib.rs:373-383 | Balance survives the wrap for every start and length if and only if n divides the wrap |
| `Router.SortCorrect` | crates/twl-backends/src/lib.rs:389-392 | Sorting gives a sorted permutation |
| `Router.SortedUnique` | crates/twl-backends/src/lib.rs:418-430 | With distinct keys any two sorted permutations are equal, so an unstable sort is as good |
| `Router.SortIsStable` | crates/twl-backends/src/lib.rs:389-392 | Sorting keeps the order of candidates with equal keys: smaller keys first, then smaller indices |
| `Router.RankRestricts` | crates/twl-backends/src/lib.rs:409-466 | The rendezvous order over a subset is the restriction of the order over the full set |
| `Router.PrimaryStable` | crates/twl-backends/src/lib.rs:409-466 | Removing a backend changes a prefix's primary only if it was the primary |
| `Router.PrimaryMovesToNew` | crates/twl-backends/src/lib.rs:409-466 | Adding a backend anywhere among the candidates changes a primary only to the new one |
| `Router.SomeoneUnderBound` | crates/twl-backends/src/lib.rs:432-441 | With factor at least 1 some candidate is below max(1, ceil(factor*(total+1)/n)) |
| `Router.BoundIs` | crates/twl-backends/src/lib.rs:432-441 | The bound is at most k exactly when factor * (total + 1) <= n * k, for every k from 1 below the saturated maximum |
| `Router.LoadsIs` | crates/twl-backends/src/lib.rs:433-436 | The total load is the sum of the candidates' counters |
| `Router.SpillSafeExactly` | crates/twl-backends/src/lib.rs:401-407 | For u32 counters and the saturated u32 bound, the fallback is unreachable if and only if the factor exceeds F/(F+1) for the fullest even total F below 2^32; every factor from 1 on does |
| `Router.PrefixOrderCorrect` | crates/twl-backends/src/lib.rs:409-466 | The first choice is the first under-bound backend in rendezvous order, its load with this request is within the bound, and the rest follow by rank, each once |
| `Router.PrefixOrderByScore` | crates/twl-backends/src/lib.rs:418-464 | Whoever scores higher than the first choice is at the bound, and the others follow by falling score |
| `Router.RotatePermutes` | crates/twl-backends/src/lib.rs:375-383 | Rotation is a permutation: the k-th is the candidate k places after the cursor, wrapping around |
| `Registry.BackendRegistry.constructor` | crates/twl-backends/src/lib.rs:295-360 | Static models seed an exact catalog: a backend has an id if and only if it is configured and passes the filter |
| `Registry.StaticEntryIs` | crates/twl-backends/src/lib.rs:315-342 | A configured model is listed under its id, as a model of its provider |
| `Registry.BackendRegistry.SetBackendModels` | crates/twl-backends/src/lib.rs:500-528 | Installs the backend's entries and an exact index: it has an id if and only if it reported it and the filter, if any, has it |
| `Registry.BackendRegistry.BeginLoad` | crates/twl-backends/src/lib.rs:490-496 | One more request on that backend and no other, modulo 2^32 |
| `Registry.BackendRegistry.DropLoad` | crates/twl-backends/src/lib.rs:594-598 | Undoes exactly one begin on that backend, also across the wrap, and touches no other |
| `Registry.BackendRegistry.TotalLoad` | crates/twl-backends/src/lib.rs:433-436 | Sums the candidates' counters |
| `Registry.BackendRegistry.SpillTarget` | crates/twl-backends/src/lib.rs:401-407 | The first backend below the bound, else the primary |
| `Registry.BackendRegistry.OrderByPrefix` | crates/twl-backends/src/lib.rs:417-464 | Computes the prefix order |
| `Registry.BackendRegistry.StrategyPlacement` | crates/twl-backends/src/lib.rs:373-395 | By rising counter and then index, or rotated by the model's cursor which is bumped; a permutation either way |
| `Registry.BackendRegistry.OrderedCandidates` | crates/twl-backends/src/lib.rs:409-466 | A permutation of the candidates; with a prefix by falling score of that prefix and within the load bound; without one by rising load and then index, or rotated, and only then the cursor moves |
| `Registry.BackendRegistry.RouteCandidates` | crates/twl-backends/src/lib.rs:555-577 | A duplicate-free, in-range permutation of exactly the model's candidates, or the right error; by least load no backend comes before one with a smaller counter, nor, at equal counters, before a lower index; by prefix whoever scores higher than the first is at the bound and the rest follow by falling score |
| `Registry.BackendRegistry.ModelEntries` | crates/twl-backends/src/lib.rs:531-541 | The raw objects of the deduplicated listing, in order |
| `Failover.Attempt` | crates/twl-server/src/proxy/mod.rs:171-237 | An attempt takes the registry's load counter and the backend's meter; any failure gives both back, leaving the counter as it was and the meter with the interval of the attempt only |
| `Failover.AttemptOn` | crates/twl-server/src/proxy/mod.rs:171-237 | No other backend is touched by an attempt |
| `Failover.TryCandidates` | crates/twl-server/src/proxy/mod.rs:146-245 | The response kept is that of the first candidate that did not refuse the connection; only it leaves a mark on the load counters that routing reads and on the meters; the final unwrap always succeeds |
| `Failover.AttemptsAreSafe` | crates/twl-server/src/proxy/mod.rs:146-245 | Attempts are a duplicate-free prefix, all but the last refused; a response is kept exactly when the last gave one |
| `Failover.Serve` | crates/twl-server/src/proxy/mod.rs:125-245 | Routing and failover together: candidates are tried in a duplicate-free order of exactly the model's backends, and the load counters move by the kept response only |
| `Failover.FirstAttemptFits` | crates/twl-backends/src/lib.rs:432-466 | With a prefix and several candidates, the counter of the first backend tried is within the bound with this request counted |
| `Watchdog.Watcher.Turn` | crates/twl-server/src/watchdog.rs:34-65 | One turn installs the poll's entries unless they repeat the remembered ids |
| `Watchdog.Watcher.Loop` | crates/twl-server/src/watchdog.rs:34-65 | Any number of polls leaves the specified entries for this backend and touches no other |
| `Watchdog.WatchedIsRunStart` | crates/twl-server/src/watchdog.rs:34-65 | Skipping leaves exactly the entries of the first poll of the current run of equal id lists |
| `Watchdog.SkippingRefines` | crates/twl-server/src/watchdog.rs:34-65 | After every poll the advertised ids equal those of a loop that never skips |
| `WatchdogRuns.SwapInstalls` | crates/twl-backends/src/lib.rs:519-527 | A swap installs its own update and nothing else, or nothing at all |
| `WatchdogRuns.SkippingRefinesTogether` | crates/twl-server/src/watchdog.rs:22-66 | With all watchers, their racing updates and routes interleaved in any way, each backend advertises the ids that a loop of its own which never skips would have left |
| `WatchdogRuns.CandidateExactly` | crates/twl-server/src/watchdog.rs:22-66 | In every interleaving a backend is a candidate for a model if and only if its last poll reported it, an outage reporting nothing, or before any poll its static configuration, and the filter, if any, has the model |
| `Watchdog.MetadataFreshExactly` | crates/twl-server/src/watchdog.rs:34-65 | After every poll the whole entries equal those of a loop that never skips, if and only if polls that repeat the ids repeat the rest as well |
| `Watchdog.MetadataGoesStale` | crates/twl-server/src/watchdog.rs:41-50 | It can fail: a backend polled with another context length keeps being listed with the old one |
| `PrefixHash.ComputePrefix` | crates/twl-server/src/proxy/body.rs:29-79 | Computes the bytes a request is hashed by, at most MAX_PREFIX_BYTES |
| `PrefixHash.FindText` | crates/twl-server/src/proxy/body.rs:36-43 | The string content of the first message of a role, whatever the other messages hold |
| `PrefixHash.ChatPrefixIs` | crates/twl-server/src/proxy/body.rs:29-66 | A chat is hashed by the text of its first system message, byte 255 and the text of its first user message, cut at 8192 bytes; with neither text not at all |
| `PrefixHash.NoMessages` | crates/twl-server/src/proxy/body.rs:29-33 | A chat without an array of messages is not hashed |
| `PrefixHash.PromptPrefixIs` | crates/twl-server/src/proxy/body.rs:68-79 | Another completion is hashed by its prompt if that is a string, cut at 8192 bytes; any other request is not hashed |
| `PrefixHash.Utf8Injective` | crates/twl-server/src/proxy/body.rs:36-43 | Different texts have different bytes |
| `PrefixHash.PrefixSettlesExactly` | crates/twl-server/src/proxy/body.rs:29-66 | No continuation of a chat changes its prefix if and only if both roles have spoken or the system text alone fills the cap |
| `PrefixHash.TextsRecoverable` | crates/twl-server/src/proxy/body.rs:36-61 | Below the cap equal hashed bytes mean equal system and user texts: the separator is no UTF-8 byte |
| `PrefixHash.RewriteKeepsRequest` | crates/twl-server/src/proxy/body.rs:84-127 | Only a tracked stream is rewritten: it asks for usage, keeps every other field and option, and changes neither the model, which is the string under that name, nor the prefix |
| `Identity.IdentityStore.constructor` | crates/twl-store/src/schema.sql:28-57 | Empty tables |
| `Identity.IdentityStore.AddUser` | crates/twl-store/src/identity.rs:123-142 | A fresh id with exactly the given name, hash and admin flag, or, exactly when the name is taken, an error with nothing changed |
| `Identity.IdentityStore.InsertApiKey` | crates/twl-store/src/identity.rs:145-168 | Key and attribution row together with the given contents, exactly when owner and hash allow it, or neither |
| `Identity.IdentityStore.WritePassword` | crates/twl-store/src/identity.rs:229-233 | Replaces one stored hash |
| `Identity.IdentityStore.ReplacePasswordAndRevokeKeys` | crates/twl-store/src/identity.rs:239-253 | Replaces the hash and deletes the user's keys, and no other's, in one step |
| `Identity.IdentityStore.CompareAndSwapPassword` | crates/twl-store/src/identity.rs:260-277 | The same only while the stored hash is the expected one, else nothing |
| `Identity.IdentityStore.DeleteUserGuarded` | crates/twl-store/src/identity.rs:287-315 | Deletes exactly the user, its keys and its attribution, unless it is an admin and there is no other |
| `Identity.IdentityStore.DeleteApiKey` | crates/twl-store/src/identity.rs:318-324 | Deletes the key only for its owner |
| `Identity.IdentityStore.KeyOwner` | crates/twl-store/src/identity.rs:327-346 | A presented key authenticates its one owner, the user its attribution names |
| `Identity.BootstrapInv` | crates/twl-server/src/server.rs:356-382 | The first start on an empty database leaves exactly one user, an admin |
| `Identity.RotationIsOneUpdate` | crates/twl-server/src/server.rs:383-412 | The start-up rotation updates one password |
| `IdentityRuns.StepInv` | crates/twl-store/src/identity.rs:123-324 | Every transaction keeps an admin, unique names and key hashes, ids below the counters, owned keys |
| `IdentityRuns.IdentityInvariants` | crates/twl-store/src/identity.rs:123-324 | In every run from a bootstrapped database there is an admin and every key's owner exists and equals its attribution's user |
| `IdentityRuns.RunFates` | crates/twl-store/src/schema.sql:28-52 | Over any run a row keeps its contents or is gone for good; ids are never reused |
| `IdentityRuns.RosterExact` | crates/twl-store/src/identity.rs:123-315 | Over any run the accounts are those there were and those created, without those deleted, each with the name, flag and creation time it was created with |
| `IdentityRuns.AdminsExactly` | crates/twl-store/src/identity.rs:123-315 | From the first start on, the users are the bootstrap admin and the accounts created, without those deleted, under the names they got; the admins are the first and those created as such |
| `IdentityRuns.AttributionExact` | crates/twl-store/src/schema.sql:45-52 | A key's attribution names its creator, unchanged, for exactly as long as the account exists, revoked or not |
| `IdentityRuns.KeyLivesExactly` | crates/twl-store/src/identity.rs:239-324 | A key works until the first event that revokes it and never again |
| `IdentityRuns.PasswordChangeRetiresKeys` | crates/twl-store/src/identity.rs:239-277 | After a password change only newer keys can ever belong to the user |
| `Accounts.ChangePassword` | crates/twl-auth/src/accounts.rs:178-210 | Uninterleaved: fewer than 8 characters, a missing account or a wrong old password are refused in that order and change nothing; otherwise exactly the hash is replaced and exactly the user's keys are deleted |
| `Accounts.ResetPassword` | crates/twl-auth/src/accounts.rs:138-163 | Uninterleaved: fewer than 8 characters or a missing account are refused in that order and change nothing; otherwise exactly the hash is replaced and exactly the user's keys are deleted |
| `Accounts.NextInv` | crates/twl-auth/src/accounts.rs:138-210 | Every event keeps pending hashes apart from stored, seen and other pending ones |
| `Accounts.CurrentRun` | crates/twl-auth/src/accounts.rs:187-203 | What a change verified stays the stored hash exactly while nothing disturbs the account |
| `Accounts.ChangeSucceedsExactly` | crates/twl-auth/src/accounts.rs:178-210 | A change returns Ok if and only if nothing replaced the verified hash or deleted the account in between; then it replaced exactly that hash and no older key is left in any later state; else nothing was modified |
| `Accounts.OneWinner` | crates/twl-auth/src/accounts.rs:203-209 | Of two changes that verified the same password at most one succeeds |
| `Pricing.BaseModel` | crates/twl-pricing/src/lib.rs:156-161 | The part before the first colon, or the whole name when there is none |
| `Pricing.CostIs` | crates/twl-pricing/src/lib.rs:155-194 | The entry under the full name wins over the base model's; each class costs tokens times rate per unit, or per million for a unit that is not positive; negative rates count as zero, cached tokens only at the cached rate |
| `Pricing.Unpriced` | crates/twl-pricing/src/lib.rs:155-164 | A model with neither entry costs nothing |
| `Pricing.CostIsAdditive` | crates/twl-pricing/src/lib.rs:155-194 | Pricing a sum is summing prices, in every token class |
| `Pricing.CostAdditiveExactly` | crates/twl-pricing/src/lib.rs:155-194 | That cached tokens are part of the input is what additivity needs: total cost is additive over two counts if and only if they do not lie on opposite sides of it |
| `Reports.UsageStore.Record` | crates/twl-store/src/usage.rs:57-89 | Appends the row field by field, or drops it when there is no clock or the insert fails; sane records keep the table reportable |
| `Reports.UsageStore.RecordEnergy` | crates/twl-store/src/usage.rs:213-240 | Appends the row unless a value is negative, there is no clock or the insert fails |
| `Reports.UsageStore.PruneOlderThan` | crates/twl-store/src/usage.rs:430-435 | Keeps exactly the rows whose timestamp is at least the cutoff, in both tables; kept and deleted totals add up |
| `Reports.GroupingConserves` | crates/twl-store/src/usage.rs:93-208 | Any grouping of any rows conserves every total |
| `Reports.GroupingUnique` | crates/twl-store/src/usage.rs:93-119 | A report is determined up to the order of its rows |
| `Reports.GroupByCorrect` | crates/twl-store/src/usage.rs:93-119 | Every table and key has such a report |
| `Reports.ColumnsAddUp` | crates/twl-store/src/usage.rs:93-208 | Each total is the sum of its own column, and requests are counted |
| `Reports.OneRowCosts` | crates/twl-server/src/routes.rs:255-295 | A row is priced by its own model and its own three counts |
| `Reports.StatsExact` | crates/twl-store/src/usage.rs:93-119 | A row of the model report adds up exactly the rows of that model from the start time on |
| `Reports.DailyExact` | crates/twl-store/src/usage.rs:174-208 | A row of the daily report adds up exactly the rows of that day and model |
| `Reports.UsersExact` | crates/twl-store/src/usage.rs:126-173 | A row of the per-user report adds up exactly the keyless rows, the rows of keys attributed to an existing user, or those of one other key |
| `Reports.GroupingKeepsCost` | crates/twl-server/src/routes.rs:255-295 | Grouping keeps the cost as long as a group has one model and its sums fit an i64 |
| `Reports.ReportsAgree` | crates/twl-server/src/routes.rs:255-295 | Per-model and per-day reports of one table agree with the raw rows in tokens and in cost |
| `Reports.UsersAddUp` | crates/twl-store/src/usage.rs:126-173 | The per-user report conserves the totals and names only existing accounts |
| `Reports.LabelsCollideExactly` | crates/twl-store/src/usage.rs:151-160 | Two accounts show the same label if and only if one is a user who goes by the text of the other: GENERIC for keyless traffic, or the text shown for a deleted key |
| `Reports.LabelsCollide` | crates/twl-store/src/usage.rs:126-172 | It happens: in a reachable database every per-user report of two requests shows one label twice |
| `Reports.KeyTextInjective` | crates/twl-store/src/usage.rs:156-158 | The text shown for a deleted key determines the key |
| `Reports.DeletedKeyLabelsCollide` | crates/twl-store/src/usage.rs:126-172 | The other kind happens too: the unchecked name of the first admin can be the text of a key that a deleted user left |
| `Reports.UsageFollowsCreator` | crates/twl-store/src/usage.rs:126-149 | Usage of a key is reported under its creator while the account exists and under the dangling key id afterwards, in every run |
| `Reports.FillBuckets` | crates/twl-store/src/usage.rs:26-44 | The loop gives 288 buckets in index order |
| `Reports.FillMembers` | crates/twl-store/src/usage.rs:26-44 | Every queried bucket is there and what was filled in is zero |
| `Reports.BucketsExact` | crates/twl-store/src/usage.rs:274-307 | Each of the 288 buckets carries exactly the totals of its rows, and together all rows of the day |
| `Reports.BucketExact` | crates/twl-store/src/usage.rs:274-307 | Bucket i takes the rows from 300*i up to 300*(i+1) seconds after the start, and the last also what comes after |

## Left out

- HTTP, TLS, sessions, the dashboard, configuration, header filtering, metrics: input/output and simple filters around the core.
- Rate limiting, retention scheduling, local time and the accounting writer's queue: small single-function facts.
- JSON and UTF-8 parsing of bytes: the model starts from a JSON value, in which an object lists its entries in iteration order; the per-line parser is a parameter.
- Hash and random functions: scores, password hashes and key hashes are parameters or values; the prefix is modelled up to the bytes that are hashed.
- IEEE rounding, NaN and infinity: costs, energy and the load bound are reals.
- Torn reads of the load counters: one snapshot per route, as the code itself calls the bound soft under races.
- Wrap-around of the u64 sequence number, and of the u32 load counters in the transition system: fewer than 2^64 arrivals; a load never exceeds the capacity by `ResourceChain.ResourceChain`. The registry's counters and cursors do wrap.
- Drop order of a response body that is never polled: taken to be the order of the usage recorder.
- Key validation before admission: a request arrives with its user known.
- Request-body reading and response headers after admission: one step of an admitted request, which may be cancelled there.
- The backend poll itself: a poll yields a list of entries or nothing.
- SQLite failures of the identity transactions other than constraint violations, and integer overflow in SUM: reports are stated for rows whose sums fit an i64.
- The reports scoped to one user, the daily energy report and the unused bulk key deletion: the same grouping and deletion over fewer rows.
- ORDER BY of the reports: a report is any order of its rows; only the bucket query's order matters and is part of `Reports.BucketsExact`.
- Reports.BucketsExact: carries the total-token sum of a bucket as well, which the dashboard's bucket does not show.
- Reports.ReportsAgree: takes the per-model and the per-day query on one table, although the handler runs them one after the other.
- Failover.Attempt: runs with no other request moving the counter or the meter; every interleaving of these steps is in `ProxySystem`, with `ResourceChain.ResourceChain` and `SystemEnergy.SystemEnergyIsUnion`.
- Failover.AttemptOn: runs with no other request moving a counter or a meter, as does Failover.Attempt.
- Failover.TryCandidates: runs with no other request moving a counter or a meter and without cancellation, which `ProxySystem` covers.
- Failover.Serve: routes and tries with no other request moving a counter or a meter; the code itself calls the load bound soft under races.
- Watchdog.Watcher.Loop: runs with no other watcher between two polls; `WatchdogRuns.SkippingRefinesTogether` covers every interleaving.
- EnergyMeter.OneRecordPerStretch: the order is that in which the stretches end under the lock; the sink is called after the lock is released, so two records may reach it swapped.
- Accounts.ChangePassword: runs without interleaving, as does Accounts.ResetPassword; every interleaving is covered by `Accounts.ChangeSucceedsExactly` and `Accounts.OneWinner`.
- Creating users and keys in the account layer: username and password checks in front of the transactions modelled here.
