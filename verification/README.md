# Verified model of the Datadog tracing SDK for Rust

This project models the parts of `dd-trace-rs` that decide, collect, hand over and
propagate traces, and proves what they guarantee. It is checked with
`dafny verify dfyconfig.toml` (Dafny 4.11).

| files | what they model |
|---|---|
| `Glob.dfy` | the in-place glob matcher of sampling rules and its LRU cache |
| `RateSampler.dfy` | sampling by trace id: multiplicative hash and threshold |
| `RateLimiter.dfy` | the lazily refilled token bucket and its request counters |
| `Sampling.dfy` | priorities and mechanisms, how they are printed and parsed |
| `Sampler.dfy`, `SampledTraces.dfy` | how a decision is made, registered and reconciled; what it leaves in the registry and is exported with |
| `RegistryModel.dfy`, `RegistryLifecycle.dfy`, `RegistryContents.dfy`, `RegistryShards.dfy` | the trace registry as a state machine: one trace, one segment's life, what its chunks carry, 64 shards |
| `TraceRegistry.dfy` | the registry objects, method by method, against that state machine |
| `ExporterModel.dfy`, `Exporter.dfy` | the exporter's batch and channel, one critical section per method |
| `ExporterProtocol.dfy` | the same critical sections as separate lock, write, unlock, notify, sleep and wake steps of any number of threads |
| `ExporterReceive.dfy`, `ExporterRequests.dfy` | the worker's steps refine the receive loop; which request leads to which message, in one call and over whole runs |
| `Numbers.dfy`, `Options.dfy`, `Bytes.dfy` | machine integers and integer division; optional values and results; the UTF-8 encoding |
| `Text.dfy`, `Utf8Text.dfy` | the string operations the codecs use; replacing characters byte by byte |
| `Context.dfy` | the tracestate header: checks, parsing, the Datadog member |
| `TraceContext.dfy`, `TraceContextLaws.dfy`, `TraceContextRoundTrip.dfy`, `TraceContextRelay.dfy`, `TraceContextHeaders.dfy` | W3C Trace Context: printing, parsing, what parsing gives back, passing it on, and what is read from any headers |
| `DatadogHeaders.dfy`, `DatadogRoundTrip.dfy`, `DatadogCarriers.dfy` | the `x-datadog-*` headers, likewise |

Code that updates state step by step is modelled by classes and by methods with loops,
each proved equal to a specification function or a declarative predicate; the theorems
about whole runs, reachable states and round trips are lemmas about those.

## Conventions

* A Rust `str` is a Dafny `string` of Unicode scalar values; lengths that the code takes in
  bytes are `ByteLen`, proved to be the length of the UTF-8 encoding.
* The iteration order of a `HashMap` is an arbitrary parameter `order`, and the hash of the
  sharded registry an arbitrary function.
* Time, thread scheduling, wait timeouts and spurious wakeups are parameters or
  nondeterministic steps.
* Floating point is `real`. The rate threshold is exact this way: the float nearest to
  2^64 - 1 is 2^64, and scaling a float below 1 by it does not round.
* Arithmetic wraps where it can overflow on input, as in a release build.
* The integer widths that matter (i8 priorities, u8 mechanisms, u64 and u128 ids, the u64
  truncation of elapsed nanoseconds) are subset types or written out.

## Where the code differs from what one would expect

The model follows the code; each of these is proved, most with the exact condition.

* `register_local_root_span` never increments the open-span count of an existing entry,
  although the comment at `datadog-opentelemetry/src/span_processor.rs:365` says so, and it
  counts nothing when it inserts (`RegistryShards.SegmentsBalance`). So a second local root on
  a live entry stays uncounted (`OpenCountIsExact`), and the chunk goes out while it is open
  (`LaterRootIsCutOff`).
* A last open span that completes a partial chunk leaves an entry with no open span behind,
  and the segment is never counted as closed (`LastSpanMayLeaveEntry`); it makes a later
  segment of the trace flush too early (`LeftoverEntryMiscounts`, `LeftoverEntryFlushesEarly`).
* A chunk accepted after the worker took the Shutdown message is never exported
  (`ExportedAtShutdown`, `LateChunkIsStranded`).
* When the exporter cannot be built, or the worker unwinds, the receiver is dropped all the same:
  what is buffered is lost and `wait_shutdown_done` succeeds (`DeathLooksLikeSuccess`). A wait
  that ran out it reports as a poisoned mutex (`WaiterResults`, `DoneButPoisoned`).
* The limiter's reported effective rate is cast to an integer only when a request was refused,
  and is then below 1, so what is reported is always 0 (`DatadogSampler.SampleRoot`).
* Refilling only an empty bucket lets 2N requests through at one instant (`BurstIsTight`) and
  refuses a stream for ever exactly if each of its gaps buys less than a token (`StarvesExactly`).
* Negating the smallest 16-bit number wraps in a release build (and panics in a debug build), so
  the mechanism `-32768`, alone of all numbers out of range, is not refused but read as 0
  (`OutOfRangeExactly`). It gets through W3C headers (`SmallestMechanismArrives`), not through
  `x-datadog-tags` (`ExtractedMechanismIsInRange`).
* A semicolon in the name of a propagation tag can replace the sampling priority
  (`PrioritySurvivesExactly`, `SemicolonSmugglesPriority`); a trailing blank of the last value
  is lost (`MemberReadsBackExactly`, `TrailingBlankIsLost`).
* A version `00` traceparent is accepted with a dash behind its flags, although the error for it
  says that only four values are (`TraceparentAcceptedExactly`); a plus sign may stand for the
  first digit of an upper half of a trace id (`TidAcceptedExactly`).
* A remote parent id is passed on raw and without a limit, and can make the receiver refuse the
  members of every vendor (`AcceptedExactly`, `TildeParentIsRefused`).
* A context without a priority is printed as `s:2` but unsampled, and is received as rejected
  (`AbsentPriorityBecomesReject`).
* The upper half of a 128-bit trace id travels as a tag only and is lost whenever the tags
  cannot be printed or a key like `_dd.p.tid=x` is printed behind it
  (`TraceIdSurvivesExactly`); mechanisms above 128 do not survive
  (`MechanismSurvivesExactly`); a tag key with `=` does not come back (`TagsReadBackExactly`).

## Model

| member | source | states |
|---|---|---|
| Glob.LastStarSuffices | dd-trace-sampling/src/glob_matcher.rs:95-114 | whatever an older `*` could still match, the newest `*` matches from the current position: remembering one backtrack point loses no match |
| Glob.SinglePattern | dd-trace-sampling/src/glob_matcher.rs:84-108 | what one byte of a pattern matches: `*` anything, `?` one byte, any other byte itself |
| Glob.PatternsConcatenate | dd-trace-sampling/src/glob_matcher.rs:75-125 | a pattern made of two matches exactly the subjects made of a match of the first and a match of the second; with the line before, this determines the glob language |
| Glob.MatchesItself | dd-trace-sampling/src/glob_matcher.rs:58-61 | the equality short circuit agrees with the glob language, wildcards in the pattern or not |
| Glob.LiteralPattern | dd-trace-sampling/src/glob_matcher.rs:62-65 | a pattern without wildcards accepts exactly itself |
| Glob.LoneStar | dd-trace-sampling/src/glob_matcher.rs:53-57 | the `*` short circuit agrees with the glob language |
| Glob.Backtrack | dd-trace-sampling/src/glob_matcher.rs:75-125 | the loop answers true exactly for the subjects of the declarative glob language, within (pattern+1)*(subject+1) iterations |
| Glob.GlobMatcher.Matches | dd-trace-sampling/src/glob_matcher.rs:50-132 | the answer is that of the glob language whatever earlier calls left in the cache; only backtracked answers are cached |
| Glob.GlobMatcher.Clone | dd-trace-sampling/src/glob_matcher.rs:135-144 | a clone has the pattern and an empty cache of its own |
| Glob.CacheStaysTruthful | dd-trace-sampling/src/glob_matcher.rs:67-131 | in any interleaving of uses by any threads, with any evictions, every cached answer is right and at most 256 are held |
| Glob.CacheIsMostRecent | dd-trace-sampling/src/glob_matcher.rs:35-39 | after any uses the cache holds the 256 subjects used last, most recent first |
| Glob.CachedExactly | dd-trace-sampling/src/glob_matcher.rs:67-131 | a subject is found exactly if fewer than 256 others were used since its last use, with the answer of that use |
| RateSampler.HashUnhash | dd-trace-sampling/src/constants.rs:23 | multiplying by the odd factor modulo 2^64 is a bijection, with an explicit inverse |
| RateSampler.KeptExactly | dd-trace-sampling/src/rate_sampler.rs:62-69 | an id is kept exactly if its low half times 1111111111111111111 modulo 2^64 is at most the rate times 2^64 |
| RateSampler.KeptFraction | dd-trace-sampling/src/rate_sampler.rs:27-70 | for a rate strictly between 0 and 1 exactly threshold + 1 of the 2^64 low halves are kept, a fraction above the rate by at most 2^-64 |
| RateSampler.KeptAtTheEnds | dd-trace-sampling/src/rate_sampler.rs:36-60 | rates at or below 0 keep nothing, at or above 1 everything |
| RateSampler.OnlyLowHalfMatters | dd-trace-sampling/src/rate_sampler.rs:62-69 | trace ids with the same low 64 bits get the same decision |
| RateSampler.LargerRateKeepsMore | dd-trace-sampling/src/rate_sampler.rs:27-70 | a larger rate keeps a superset |
| RateLimiter.TokensToAdd | dd-trace-sampling/src/rate_limiter.rs:164-166 | the float computation adds the integer quotient of elapsed time times rate by the window, saturated |
| RateLimiter.TokensInRange | dd-trace-sampling/src/rate_limiter.rs:104-130 | tokens stay between 0 and the limit over any run |
| RateLimiter.GrantsSinceCreation | dd-trace-sampling/src/rate_limiter.rs:104-179 | grants from creation up to t never exceed N plus what accrues until t |
| RateLimiter.GrantsInInterval | dd-trace-sampling/src/rate_limiter.rs:104-179 | grants inside any interval of any run never exceed 2N plus what accrues in it |
| RateLimiter.BurstIsTight | dd-trace-sampling/src/rate_limiter.rs:112-129 | that bound is attained: after an idle window 2N requests at one instant are all granted |
| RateLimiter.EmptyBucketGrant | dd-trace-sampling/src/rate_limiter.rs:118-129 | an empty bucket grants exactly if rate times the time since the last refill attempt reaches the window |
| RateLimiter.StarvesExactly | dd-trace-sampling/src/rate_limiter.rs:168-178 | on an empty bucket a stream is refused for ever exactly if its gaps each buy less than a token |
| RateLimiter.WindowOverExactly | dd-trace-sampling/src/rate_limiter.rs:140-144 | a window is over exactly when that many nanoseconds have passed since it began, counted modulo 2^64 |
| RateLimiter.NothingIsBoughtBackwards | dd-trace-sampling/src/rate_limiter.rs:112-179 | a clock that went back grants nothing on an empty bucket and ends no window |
| RateLimiter.CountersDescribeWindow | dd-trace-sampling/src/rate_limiter.rs:133-157 | the counters count exactly the requests from some request on, all within the window it opens; unless it is the first, it came when the window before was over, whose rate is the previous rate |
| RateLimiter.RatesAreFractions | dd-trace-sampling/src/rate_limiter.rs:182-211 | the window rate is the allowed share of its requests, 1 without any; the effective rate is halfway between it and the one before, or it alone; both lie in [0,1], below 1 once a request was refused |
| RateLimiter.RateLimiter.Replenish | dd-trace-sampling/src/rate_limiter.rs:160-179 | the refill adds the accrued tokens up to the limit and always moves the refill time |
| RateLimiter.RateLimiter.IsAllowedAt | dd-trace-sampling/src/rate_limiter.rs:104-130 | limit 0 refuses, a negative limit allows, a positive one takes the step the run bounds are about |
| RateLimiter.RateLimiter.UpdateRateCounts | dd-trace-sampling/src/rate_limiter.rs:133-157 | the counters take the step `CountersDescribeWindow` is about |
| RateLimiter.RateLimiter.IsAllowed | dd-trace-sampling/src/rate_limiter.rs:96-101 | decides and counts; after a refusal the effective rate is below 1 |
| Sampling.ToPriority | dd-trace/src/sampling.rs:71-97 | the priority of a mechanism keeps exactly if the decision was to keep |
| Sampling.PriorityOfMechanism | dd-trace/src/sampling.rs:71-97 | which mechanisms decide with the priorities of users and which with the automatic ones |
| Sampling.MechanismText | dd-trace/src/sampling.rs:99-136 | the table of constant strings agrees with the general format |
| Sampling.SamplingRoundTrip | dd-trace/src/sampling.rs:40-158 | every i8 priority and every u8 mechanism survives printing and parsing |
| Sampling.MechanismParsedExactly | dd-trace/src/sampling.rs:148-158 | a text names a mechanism exactly if it is a number from -255 to 0, which names its negation, or the smallest 16-bit number, which names mechanism 0 |
| Sampling.OutOfRangeExactly | dd-trace/src/sampling.rs:148-158 | of all numbers out of range exactly the smallest 16-bit one is not refused |
| RegistryModel.SpansConserved | datadog-opentelemetry/src/span_processor.rs:204-265 | over any run the multiset of finished spans is that of all returned chunks plus those still held, through swaps, partial flushes and orphans |
| RegistryModel.RootFirstExactly | datadog-opentelemetry/src/span_processor.rs:142-161 | chunks and held lists have the local root first exactly if no root id is announced after its span finished behind another |
| RegistryModel.AnnouncedInTimeIsEnough | datadog-opentelemetry/src/span_processor.rs:189-224 | registering every root id before a span with that id finishes is enough |
| RegistryModel.LateRootExample | datadog-opentelemetry/src/span_processor.rs:214-222 | a late announcement does yield a chunk with the local root in second place |
| RegistryLifecycle.CountPlusUncounted | datadog-opentelemetry/src/span_processor.rs:92-241 | over any run that starts each span once, with any number of local roots and either flush mode, the open-span count and the uncounted spans together are the open spans; without partial flush an entry lives exactly while a counted span is open |
| RegistryLifecycle.OpenCountIsExact | datadog-opentelemetry/src/span_processor.rs:142-161 | the count is started minus finished spans all along a run exactly if no root is announced on a live entry that has its root |
| RegistryLifecycle.HeldIsSegment | datadog-opentelemetry/src/span_processor.rs:204-244 | without partial flush the registry holds exactly the spans that finished since the entry was created |
| RegistryLifecycle.ChunkOnLastSpan | datadog-opentelemetry/src/span_processor.rs:238-244 | without partial flush a chunk is returned and the entry removed exactly when no counted span stays open, which is the last open span if all are counted; the chunk is every span that finished since the entry was created |
| RegistryLifecycle.LaterRootIsCutOff | datadog-opentelemetry/src/span_processor.rs:142-161 | with a second local root on a live entry the first one to finish returns the chunk while the second is open, and that one goes out alone, without the propagation data of the trace |
| RegistryLifecycle.HeldStaysShort | datadog-opentelemetry/src/span_processor.rs:225-237 | with partial flush every held list stays below max(1, min_spans), in any run |
| RegistryLifecycle.LastSpanMayLeaveEntry | datadog-opentelemetry/src/span_processor.rs:225-241 | with partial flush the last counted span removes the entry exactly if it does not complete a partial chunk |
| RegistryLifecycle.LeftoverEntryMiscounts | datadog-opentelemetry/src/span_processor.rs:97-114 | on any leftover entry the local root of a later segment is neither counted as open nor made the root, and the segment is not counted |
| RegistryLifecycle.LeftoverEntryFlushesEarly | datadog-opentelemetry/src/span_processor.rs:224-244 | its first finished child is then flushed although the local root is open; a fresh entry holds it, unless one span is a partial chunk |
| RegistryLifecycle.LeftoverExists | datadog-opentelemetry/src/span_processor.rs:225-237 | a disciplined one-span segment leaves such an entry if one span is a partial chunk |
| RegistryLifecycle.DecisionNeverChanges | datadog-opentelemetry/src/span_processor.rs:97-114 | a registered priority never changes while the entry lives |
| RegistryContents.EntryRemembers | datadog-opentelemetry/src/span_processor.rs:92-187 | in any run of an entry since its creation it holds the propagation data that were offered first with a priority (the last offered, if none had one) and the first root id announced |
| RegistryContents.ChunkCarriesEntry | datadog-opentelemetry/src/span_processor.rs:225-262 | every chunk of a live entry, partial or final, has its propagation data, its root and one open span less; a span without an entry goes out alone, as its own root and without data |
| RegistryContents.EveryChunkCarries | datadog-opentelemetry/src/span_processor.rs:225-241 | so every chunk of any run carries the data offered first with a priority and the root announced first |
| RegistryContents.DecidedChunks | datadog-opentelemetry/src/span_processor.rs:97-114 | once a priority is registered, every chunk carries exactly the data it came with while the entry lives |
| RegistryContents.SpansInOrder | datadog-opentelemetry/src/span_processor.rs:204-224 | without partial flush an entry created with its root holds the spans as they finished, except that the root has changed places with the first |
| RegistryContents.ChunkInOrder | datadog-opentelemetry/src/span_processor.rs:204-241 | and so does the chunk it ends as |
| RegistryContents.ChunkIsCounted | datadog-opentelemetry/src/span_processor.rs:228-258 | a chunk is counted as a partial flush exactly if the entry stays, else as a closed segment, and nothing else is |
| RegistryContents.CountsBalance | datadog-opentelemetry/src/span_processor.rs:92-265 | over any run on a trace: chunks are partial flushes plus closed segments, and spans created are spans finished plus the open count, but for entries made by announcing a root and for finishes that were not counted as open |
| RegistryShards.StepRefines | datadog-opentelemetry/src/span_processor.rs:303-344 | every operation on its shard is the same operation on one flat map |
| RegistryShards.ShardsRefineFlatMap | datadog-opentelemetry/src/span_processor.rs:303-344 | for any hash and any run, drains included, the 64 shards are one flat registry and no count is lost |
| RegistryShards.TracesAreIndependent | datadog-opentelemetry/src/span_processor.rs:352-398 | the entry of a trace depends on the operations on that trace alone |
| RegistryShards.ShardedTraceConserved | datadog-opentelemetry/src/span_processor.rs:392-398 | each trace lives in its own shard, with its spans conserved there |
| RegistryShards.SegmentsBalance | datadog-opentelemetry/src/span_processor.rs:142-150 | segments created plus entries inserted by register_local_root_span equal segments closed plus live entries, over any run and drains |
| RegistryShards.FinishesAreCounted | datadog-opentelemetry/src/span_processor.rs:204-206 | every finished span is counted once, orphans included |
| TraceRegistry.InnerTraceRegistry.RegisterLocalRootTracePropagationData | datadog-opentelemetry/src/span_processor.rs:92-137 | one shard takes the step of the state machine, answers Existing exactly if a priority was there, and touches no other trace |
| TraceRegistry.InnerTraceRegistry.RegisterLocalRootSpan | datadog-opentelemetry/src/span_processor.rs:142-161 | likewise for announcing a local root |
| TraceRegistry.InnerTraceRegistry.RegisterSpan | datadog-opentelemetry/src/span_processor.rs:166-187 | likewise for starting a span |
| TraceRegistry.InnerTraceRegistry.FinishSpan | datadog-opentelemetry/src/span_processor.rs:204-265 | likewise for finishing a span, with the returned chunk |
| TraceRegistry.TraceRegistry.RegisterLocalRootTracePropagationData | datadog-opentelemetry/src/span_processor.rs:352-362 | the 64 shard objects together take the step of the flat registry |
| TraceRegistry.TraceRegistry.RegisterLocalRootSpan | datadog-opentelemetry/src/span_processor.rs:367-373 | likewise |
| TraceRegistry.TraceRegistry.RegisterSpan | datadog-opentelemetry/src/span_processor.rs:376-387 | likewise |
| TraceRegistry.TraceRegistry.FinishSpan | datadog-opentelemetry/src/span_processor.rs:392-398 | likewise, returning the chunk of the flat registry |
| TraceRegistry.TraceRegistry.GetTracePropagationData | datadog-opentelemetry/src/span_processor.rs:400-410 | finds the propagation data of the flat registry, empty ones for an unknown trace |
| TraceRegistry.TraceRegistry.GetLocalRootSpanId | datadog-opentelemetry/src/span_processor.rs:412-425 | finds the root id of the flat registry, none for the zero id |
| TraceRegistry.TraceRegistry.GetMetrics | datadog-opentelemetry/src/span_processor.rs:468-480 | the loop over the shards returns the total of all counters, empties them and changes no trace |
| Sampler.DatadogSampler.SampleRoot | dd-trace-sampling/src/datadog_sampler.rs:396-458 | rule, limiter and service rate decide as documented, and the rate reported is the rule's own, clamped only for deciding; a token is asked for exactly if a matching rule would keep; the reported limiter rate is always 0 |
| Sampler.DatadogSampler.Sample | dd-trace-sampling/src/datadog_sampler.rs:375-393 | a decision of the parent is inherited without touching the limiter |
| Sampler.DecisionMatchesRegistry | datadog-opentelemetry/src/sampler.rs:71-176 | for contexts the propagator builds, the span is recorded and sampled exactly if the registry holds a keep priority for its trace afterwards |
| Sampler.ProposalOfRoot | datadog-opentelemetry/src/sampler.rs:86-115 | the tags offered to the registry name the mechanism in a form that parses back to it; only a deferred parent passes on its origin and its other tags |
| Sampler.OneDecisionPerTrace | datadog-opentelemetry/src/sampler.rs:141-176 | while its entry lives, all spans of a trace get one decision, whatever rules, rates and limits say, under any other use of the registry |
| SampledTraces.RemoteDecisionIsRegistered | datadog-opentelemetry/src/sampler.rs:117-138 | a remote decision is registered for an undecided trace with the parent's priority, mechanism, origin and every tag, and the span follows it |
| SampledTraces.OwnDecisionIsRegistered | datadog-opentelemetry/src/sampler.rs:86-115 | likewise for the sampler's own decision; of the parent only one that deferred passes on origin and tags, and the decision maker names the mechanism |
| SampledTraces.RegisteredDataStay | datadog-opentelemetry/src/sampler.rs:141-176 | a later span leaves the data of a decided trace alone, and one with a local parent that decided does not touch the registry |
| SampledTraces.RemoteContextIsExported | datadog-opentelemetry/src/span_processor.rs:97-241 | whatever is sampled, started and finished afterwards, every chunk of a trace continued from a remote service carries the decision, origin and tags it came with, as long as the entry lives |
| SampledTraces.RootDecision | dd-trace-sampling/src/datadog_sampler.rs:396-458 | a rule decides with the priorities of users, without one the automatic ones are used; the tag is `-11`, `-12` or `-3` by the provenance of the rule, `-1` for the agent's rates and `-0` by default |
| Sampler.Sampler.ShouldSample | datadog-opentelemetry/src/sampler.rs:51-176 | a disabled sampler drops; otherwise registry and result take the step `OneDecisionPerTrace` is about |
| ExporterModel.SentKeepsConsistent | datadog-opentelemetry/src/span_exporter.rs:100-119 | every sender's critical section keeps the span count exact, the buffer bound and the pending flush, appends exactly what it accepts, and notifies whenever it creates work |
| ExporterModel.ReceiptKeepsConsistent | datadog-opentelemetry/src/span_exporter.rs:511-540 | every way receive returns keeps those invariants and splits the batch into what is handed out and what stays, the whole of it with Shutdown |
| Exporter.Batch.AddTraceChunk | datadog-opentelemetry/src/span_exporter.rs:100-119 | a batch over its maximum refuses the whole chunk, one at or below takes it whole |
| Exporter.Batch.Export | datadog-opentelemetry/src/span_exporter.rs:143-148 | hands out everything and leaves an empty batch |
| Exporter.Channel.AddTraceChunk | datadog-opentelemetry/src/span_exporter.rs:423-437 | state, error and notification are those of the shared-state step that the protocol proofs use |
| Exporter.Channel.SetResource | datadog-opentelemetry/src/span_exporter.rs:440-445 | likewise |
| Exporter.Channel.TriggerFlush | datadog-opentelemetry/src/span_exporter.rs:447-452 | likewise |
| Exporter.Channel.TriggerShutdown | datadog-opentelemetry/src/span_exporter.rs:454-459 | likewise |
| Exporter.Channel.Receive | datadog-opentelemetry/src/span_exporter.rs:504-542 | the loop with waits and timeouts returns what its recursive specification says, whatever senders do while it waits |
| Exporter.ReceiveLosesNothing | datadog-opentelemetry/src/span_exporter.rs:504-542 | one receive hands out nothing or the whole buffer, in order, chunks accepted during its waits included |
| Exporter.ReceiveKeepsConsistent | datadog-opentelemetry/src/span_exporter.rs:504-542 | receive keeps the invariants of the shared state |
| Exporter.Channel.ShutdownDone | datadog-opentelemetry/src/span_exporter.rs:497-502 | sets has_shutdown and nothing else |
| Exporter.Channel.GetMetrics | datadog-opentelemetry/src/span_exporter.rs:356-362 | reading the queue metrics returns and resets them |
| ExporterProtocol.RunIsGood | datadog-opentelemetry/src/span_exporter.rs:396-606 | mutual exclusion, due notifications, accounting and what waiters are told hold along every run of any number of senders and waiters and one worker, which may die |
| ExporterReceive.WorkerReceives | datadog-opentelemetry/src/span_exporter.rs:504-542 | between entering `receive` and returning from it the worker of the step system, with any steps of other threads in between, does what the receive loop does for waits that end as the worker's did: same message, batch and state |
| ExporterProtocol.NoWakeupIsLost | datadog-opentelemetry/src/span_exporter.rs:497-565 | in every reachable state a worker sleeping on work implies a sender about to notify, and a waiter sleeping on the end a worker about to notify |
| ExporterProtocol.SleepingWorkerIsIdle | datadog-opentelemetry/src/span_exporter.rs:504-542 | with no sender inside an operation a sleeping worker has nothing to do and the buffer is below the trigger |
| ExporterProtocol.ChunksInOrder | datadog-opentelemetry/src/span_exporter.rs:100-148 | accepted chunks in lock order are the received batches followed by the buffer; spans queued equal exported plus buffered, and spans dropped are those refused, through any draining of the metrics |
| ExporterProtocol.ExportedAtShutdown | datadog-opentelemetry/src/span_exporter.rs:485-517 | once the worker is ending, what was accepted is what was exported, then what a dying worker left behind, then what was accepted since; so everything was exported exactly if the last two are empty |
| ExporterProtocol.LateChunkIsStranded | datadog-opentelemetry/src/span_exporter.rs:415-437 | a chunk can be accepted between the Shutdown message and has_shutdown and never be exported |
| ExporterProtocol.DeathLooksLikeSuccess | datadog-opentelemetry/src/span_exporter.rs:485-502 | a run in which the worker dies before the Shutdown message, the accepted chunk is not exported, and the wait for the shutdown succeeds |
| ExporterProtocol.WaiterResults | datadog-opentelemetry/src/span_exporter.rs:461-483 | in every reachable state a finished wait has succeeded, timed out, which is so exactly for a timeout of zero, or reports a poisoned mutex; success implies that the worker marked the end and everything accepted is exported but what it left behind and what came later |
| ExporterProtocol.DoneButPoisoned | datadog-opentelemetry/src/span_exporter.rs:470-477 | a run in which the wait times out, the worker finishes first, and a poisoned mutex is reported all the same |
| ExporterRequests.FlushIsAnswered | datadog-opentelemetry/src/span_exporter.rs:447-452 | after a flush request the next receive hands out the whole buffer as a flush at once, and nothing is left to do |
| ExporterRequests.ShutdownIsAnswered | datadog-opentelemetry/src/span_exporter.rs:454-459 | after a shutdown request it hands out the whole buffer with the Shutdown message, before a pending flush |
| ExporterRequests.ResourceIsAnswered | datadog-opentelemetry/src/span_exporter.rs:440-445 | a resource goes first, replaces a pending one, and leaves buffer and other requests alone |
| ExporterRequests.ChunkIsAnswered | datadog-opentelemetry/src/span_exporter.rs:423-437 | a chunk wakes the worker exactly if it brings the buffer above the trigger, and is handed out at the deadline otherwise; a buffer above its maximum drops it whole and counts its spans |
| ExporterRequests.DeadlineIsKept | datadog-opentelemetry/src/span_exporter.rs:524-540 | at the deadline the whole buffer is handed out, what came during the wait included; requests made during the wait stay for the next receive |
| ExporterRequests.NothingAfterTheEnd | datadog-opentelemetry/src/span_exporter.rs:415-421 | after the end every request is refused and changes nothing |
| ExporterRequests.NothingUnasked | datadog-opentelemetry/src/span_exporter.rs:396-542 | over every run, a pending shutdown, resource or flush was requested by a sender, or a chunk brought the buffer above the trigger; a worker that took the Shutdown message was asked to |
| ExporterRequests.ShutdownWasTriggered | datadog-opentelemetry/src/span_exporter.rs:454-517 | in every run a worker that ends without dying was asked to by a sender |
| ExporterRequests.NothingIsForgotten | datadog-opentelemetry/src/span_exporter.rs:511-540 | a step withdraws a flush request only by taking the whole buffer, a resource only by taking it, and a shutdown request never |
| ExporterRequests.TimeoutsAreReal | datadog-opentelemetry/src/span_exporter.rs:461-483 | over every run a notification is never taken for a timeout: a waiter is told of a poisoned mutex, and a worker flushes for want of time, only after a wait that ran out |
| Utf8Text.Utf8Length | dd-trace-propagation/src/tracecontext.rs:126-128 | the modelled byte length is the length of the UTF-8 encoding |
| Utf8Text.ReplaceChars | dd-trace-propagation/src/tracecontext.rs:41-77 | the byte loop, its fast path and its early break equal the map that replaces each non-ASCII or matched character by one replacement |
| Text.TrimExactly | dd-trace-propagation/src/context.rs:214-216 | trimming takes away all white space at both ends and nothing else |
| Context.CheckKey | dd-trace-propagation/src/context.rs:160-187 | the loop accepts exactly the keys of the declarative key language |
| Context.TagValueRoundTrip | dd-trace-propagation/src/context.rs:293-307 | encoding and decoding undo each other exactly on text without `~` |
| Context.ReadMembers | dd-trace-propagation/src/context.rs:200-235 | the loop accepts exactly if all members are valid; the last `dd` member and the others in order result |
| Context.ReadFields | dd-trace-propagation/src/context.rs:250-287 | the loop over the field map gives the same result in every iteration order |
| Context.FromStr | dd-trace-propagation/src/context.rs:200-290 | parsing equals its specification on every header |
| TraceContext.AppendPropagationTags | dd-trace-propagation/src/tracecontext.rs:142-178 | the loop appends exactly the entries of the specification, counted within the shared buffer |
| TraceContext.EntrySizeIsLength | dd-trace-propagation/src/tracecontext.rs:160-164 | the size compared with the budget is the number of bytes written |
| TraceContext.BuildDd | dd-trace-propagation/src/tracecontext.rs:180-249 | pushing onto one buffer and truncating it yields the rendered fields of the specification |
| TraceContext.InjectTracestate | dd-trace-propagation/src/tracecontext.rs:180-265 | the header is the Datadog member followed by the passed-on members |
| TraceContext.Inject | dd-trace-propagation/src/tracecontext.rs:79-86 | both headers for a valid id pair, none otherwise |
| TraceContext.RenameTags | dd-trace-propagation/src/tracecontext.rs:286-296 | the loop renames `t.` tags to `_dd.p.` tags, in any iteration order |
| TraceContext.Extract | dd-trace-propagation/src/tracecontext.rs:267-374 | extraction equals its specification for every pair of headers |
| TraceContextLaws.HeaderIsAccepted | dd-trace-propagation/src/tracecontext.rs:180-265 | for any origin, tags, order and inherited header the injected header is accepted as a whole: at most 32 members, `dd` first and at most 256 bytes (below 256 for a parent id of the usual 16), then the first 31 valid inherited members in order |
| TraceContextLaws.MembersPassedOn | dd-trace-propagation/src/context.rs:131-140 | the members of the printed header behind the Datadog one are at strictly increasing positions of the inherited header: the valid ones but no `dd`, the first 31 if there are more, none skipped |
| TraceContextLaws.AdditionalIsOk | dd-trace-propagation/src/context.rs:131-140 | a member may be passed on exactly if the parser accepts it and it is not `dd` |
| TraceContextLaws.HexParentIsPlain | dd-trace-propagation/src/tracecontext.rs:217-238 | every parent id of 16 hexadecimal digits meets what the theorems about headers ask of it |
| TraceContextLaws.TagSection | dd-trace-propagation/src/tracecontext.rs:142-178 | the tag section is the longest run of whole entries within 128 bytes, or nothing if the member would reach 256 |
| TraceContextLaws.FieldReadsBackExactly | dd-trace-propagation/src/context.rs:214-231 | a printed field parses back exactly if its key has neither colon nor semicolon |
| TraceContextLaws.WrittenFieldsParse | dd-trace-propagation/src/context.rs:214-231 | the parsed member is the map of the written fields, decoded, less trailing blanks at the very end |
| TraceContextRoundTrip.TraceparentRoundTrip | dd-trace-propagation/src/tracecontext.rs:88-107 | both ids survive traceparent for non-zero ids, and the flag says whether a keep priority is present |
| TraceContextRoundTrip.MemberReadsBackExactly | dd-trace-propagation/src/context.rs:214-231 | the member reads back exactly if its last value has no trailing blank |
| TraceContextRoundTrip.TrailingBlankIsLost | dd-trace-propagation/src/context.rs:214-231 | a tag that is printed last with a blank at its end is read back without the blank |
| TraceContextLaws.WhatFits | dd-trace-propagation/src/tracecontext.rs:192-238 | exactly how many characters an origin may have to be written, and to leave room for the parent id |
| TraceContextLaws.AcceptedExactly | dd-trace-propagation/src/tracecontext.rs:217-238 | for any parent id without a comma the header is accepted exactly if the id is not written, or has no equals sign and leaves priority, origin and id within 256 bytes, whatever the tags are |
| TraceContextRelay.TildeParentIsRefused | dd-trace-propagation/src/tracecontext.rs:229-231 | a received member `dd=s:1;p:~` yields the parent id `=`, and every header that passes it on is refused |
| TraceContextRoundTrip.FieldsReadBack | dd-trace-propagation/src/context.rs:250-287 | parsing the injected member returns the priority, the sanitised origin and the parent id if they fitted, and exactly the surviving tags with sanitised values |
| TraceContextRoundTrip.IdsAndPriorityAcrossHeaders | dd-trace-propagation/src/tracecontext.rs:345-374 | for any tags: ids come back, and the priority is the printed or smuggled one reconciled with the flag |
| TraceContextRoundTrip.SmuggledExactly | dd-trace-propagation/src/tracecontext.rs:148-152 | a second `s:` arises exactly from a written tag name with `s:` behind a semicolon |
| TraceContextRoundTrip.SmuggledIs | dd-trace-propagation/src/tracecontext.rs:148-152 | the smuggled priority is the text behind the last `s:` that starts a piece, between semicolons, of a tag as it is sent |
| TraceContextRoundTrip.PrioritySurvivesExactly | dd-trace-propagation/src/tracecontext.rs:267-374 | every one of the 256 priorities comes back exactly if no tag name smuggles, or the text smuggled by the tags as sent says the same |
| TraceContextRoundTrip.PlainNamesKeepPriority | dd-trace-propagation/src/tracecontext.rs:148-152 | every priority survives if no name of a propagation tag has a semicolon |
| TraceContextRoundTrip.AbsentPriorityBecomesReject | dd-trace-propagation/src/tracecontext.rs:188-190 | a context without a priority is received as rejected |
| TraceContextRoundTrip.SemicolonSmugglesPriority | dd-trace-propagation/src/tracecontext.rs:148-152 | for any two priorities on the same side a tag named `_dd.p.x;s` replaces one by the other |
| TraceContextRoundTrip.EverythingAcrossHeaders | dd-trace-propagation/src/tracecontext.rs:267-342 | injecting and extracting returns ids and priority unchanged, the mechanism named by a written decision maker, origin and written tags sanitised and no other propagation tag, the parent id, and the inherited members |
| TraceContextRelay.ReceivedParent | dd-trace-propagation/src/context.rs:214-231 | a parent id that arrived, in any headers, is printable and has no comma, semicolon or tilde |
| TraceContextRelay.RelayIsAcceptedExactly | dd-trace-propagation/src/tracecontext.rs:217-238 | the header that passes any received context on is accepted exactly if its parent id is not written, or has no equals sign and fits; and then it is plain, so that all the round trips apply |
| TraceContextRelay.RelayRepeatsMember | dd-trace-propagation/src/tracecontext.rs:180-265 | a service that passes a received context on, tags in the same order, prints the same traceparent and the same Datadog member |
| TraceContextHeaders.TraceparentAcceptedExactly | dd-trace-propagation/src/tracecontext.rs:376-495 | a traceparent is accepted exactly if it has four lower-case hexadecimal fields of the right lengths, no id of zeros, not version `ff`, and for version `00` flags of at most 2 and nothing but perhaps a dash behind them; the trace is kept exactly if the last flag is odd |
| TraceContextHeaders.OnlyValidIdsAreAccepted | dd-trace-propagation/src/tracecontext.rs:79-107 | nothing is injected exactly for the contexts whose traceparent would not be accepted |
| TraceContextHeaders.AnyHeadersAreRead | dd-trace-propagation/src/tracecontext.rs:267-374 | for any headers: the traceparent decides whether the trace is kept; a tracestate priority that disagrees is replaced, and then the decision maker is `-0` or none; a refused tracestate leaves no trace |
| TraceContextHeaders.AnyTagsAreNamed | dd-trace-propagation/src/tracecontext.rs:282-300 | for any headers: exactly the tags `t.x` arrive, as `_dd.p.x`, and the parent id |
| TraceContextHeaders.KeyAcceptedExactly | dd-trace-propagation/src/context.rs:160-187 | the accepted member keys told on characters: simple keys of at most 256, or tenant, at sign and a system of at most 13 |
| TraceContextHeaders.LastDdExactly | dd-trace-propagation/src/context.rs:200-235 | of several `dd` members the last one is read |
| TraceContextHeaders.LastItemWins | dd-trace-propagation/src/context.rs:214-231 | which value the items of the Datadog member leave under a key, told on the items |
| TraceContextHeaders.SanitisedExactly | dd-trace-propagation/src/tracecontext.rs:142-201 | character by character, what names, values and origins are made of: which characters stay and what replaces the others |
| TraceContextHeaders.MemberStarts | dd-trace-propagation/src/tracecontext.rs:187-238 | the member starts with the priority, 2 for want of one, then the origin and the parent id where they fit: the remote one as it is, else the span id as 16 digits |
| TraceContextRelay.ForeignHeadersAreRead | dd-trace-propagation/src/tracecontext.rs:267-342 | what headers of another sender with one more field, parent id or decision maker, are read as |
| TraceContextRelay.SmallestMechanismArrives | dd-trace-propagation/src/tracecontext.rs:310-312 | the field `t.dm:-32768` of a received header is extracted as mechanism 0 |
| DatadogHeaders.GetPropagationTags | dd-trace-propagation/src/datadog.rs:123-162 | the two passes yield the joined entries, or the error of the first check that fails |
| DatadogHeaders.InjectSpanContext.Inject | dd-trace-propagation/src/datadog.rs:42-121 | carrier and tag map afterwards, error tags included |
| DatadogHeaders.ExtractTags | dd-trace-propagation/src/datadog.rs:277-316 | the loop and the checks equal their specification for every header and limit |
| DatadogHeaders.ValidateSamplingDecision | dd-trace-propagation/src/datadog.rs:318-343 | an invalid decision maker is removed and recorded as an error |
| DatadogHeaders.ExtractContext | dd-trace-propagation/src/datadog.rs:180-232 | extraction equals its specification for every carrier |
| DatadogRoundTrip.SplitThenCombine | dd-trace-propagation/src/context.rs:309-330 | splitting a 128-bit id, printing the upper half, parsing and combining is the identity |
| DatadogRoundTrip.SizeIsPrecomputed | dd-trace-propagation/src/datadog.rs:127-138 | the size computed in advance is the length printed |
| DatadogRoundTrip.PrintedIsAccepted | dd-trace-propagation/src/datadog.rs:277-295 | so the same limit never rejects an injected header |
| DatadogRoundTrip.PrintableExactly | dd-trace-propagation/src/datadog.rs:97-178 | the tags are printed exactly if the limit is not zero, the joined entries fit it, and keys and values are printable without commas, keys without blanks; otherwise the first condition that fails is recorded at the sender |
| DatadogRoundTrip.TagsReadBackExactly | dd-trace-propagation/src/datadog.rs:297-305 | all propagation tags come back unchanged exactly if no key contains `=` |
| DatadogRoundTrip.ReadExactly | dd-trace-propagation/src/datadog.rs:297-305 | a key without `=` is read back unless a key printed later continues it with `=`; then a value with `=` is read instead |
| DatadogRoundTrip.ReceivedExactly | dd-trace-propagation/src/datadog.rs:180-188 | a context is received exactly if the low 64 bits of its trace id are not zero |
| DatadogRoundTrip.EverythingSurvives | dd-trace-propagation/src/datadog.rs:180-232 | extract undoes inject where the tags can be printed and read back: 128-bit trace id, span id, priority, mechanism, origin and every propagation tag, and no error tag |
| DatadogRoundTrip.RelayKeepsTagsExactly | dd-trace-propagation/src/datadog.rs:60-95 | injecting a received context leaves its tags as they came exactly if the decision maker is written in the usual form |
| DatadogRoundTrip.RelayRepeatsHeaders | dd-trace-propagation/src/datadog.rs:42-58 | a service that passes a context on sends the very same headers |
| DatadogRoundTrip.TraceIdSurvivesExactly | dd-trace-propagation/src/datadog.rs:60-80 | the trace id survives exactly if it has no upper half, or the tags can be printed and no key printed behind `_dd.p.tid` continues it with `=` |
| DatadogRoundTrip.MechanismSurvivesExactly | dd-trace-propagation/src/datadog.rs:318-343 | a mechanism survives exactly if a priority is present, the tags can be printed, it is at most 128 and no key printed behind `_dd.p.dm` continues it with `=`; where one of the last two fails, an error is recorded |
| DatadogRoundTrip.ExtractedMechanismIsInRange | dd-trace-propagation/src/datadog.rs:318-343 | whatever a carrier holds, an extracted mechanism is the negation of the number its tag carries, so nothing wraps here |
| DatadogCarriers.AnyCarrierIsRead | dd-trace-propagation/src/datadog.rs:180-275 | for any carrier: a context is received exactly for a trace id that is a number other than zero; what a missing or malformed parent id, priority or upper half is read as |
| DatadogCarriers.AnyTagsAreRead | dd-trace-propagation/src/datadog.rs:277-346 | for any carrier: tags above the limit are not read, and that is recorded; otherwise the last pair of each prefixed key counts, but for an upper half or decision maker that is not accepted, which is recorded |
| DatadogCarriers.LastPairWins | dd-trace-propagation/src/datadog.rs:297-305 | which value the pair loop leaves under a key, told on the pairs |
| DatadogCarriers.TidAcceptedExactly | dd-trace-propagation/src/datadog.rs:348-359 | an upper half is accepted exactly if it has 16 hexadecimal digits of either case, or a plus sign and 15 |
| DatadogCarriers.DecisionAcceptedExactly | dd-trace-propagation/src/datadog.rs:324-346 | a decision maker is accepted exactly if it is the number of a mechanism up to 128 behind a minus sign, or a zero |
| DatadogCarriers.HeadersByName | dd-trace-propagation/src/datadog.rs:42-121 | the headers of one context with all its parts, name by name |

## Left out

- Threads of the exporter are modelled by the step system only; `Exporter.Channel` has one method per critical section, and mutexes that are really poisoned, with the errors of `receive` and of the senders that follow, and the join of the worker thread are not modelled.
- The deadline of `receive` is a nondeterministic choice: `last_flush` and the arithmetic on it are not modelled.
- A batch that `receive` returned counts as exported, whether or not sending it succeeds.
- HTTP, serialisation of traces, agent responses, telemetry, logging and the service names `Batch` collects for remote configuration.
- Overflow of `usize` counters, and allocation.
- Locks of the rate limiter: the decision and the counting of one request are two critical sections in the code, and timestamps are read before the first; requests here come in one non-decreasing sequence, and the always-0 reported rate is stated for a limiter that no other thread counts on in between.
- Rounding of floating point in the limiter's refill, and NaN rates.
- Which sampling rule matches a span, attribute look-up and naming tables, and the service key: the matching rule and the service's sampler are parameters.
- Lower-casing of Unicode in patterns and subjects: the matcher starts from bytes.
- `to_dd_sampling_tags`, the attributes and trace state of a sampling result, and the active-span metadata of a trace.
- Merging of several extracted contexts, span links, baggage, and the composite propagator.
- The carrier of the W3C headers is a record of the two headers; other headers in the carrier are not modelled.
- TraceRegistry.TraceRegistry.GetMetrics: the shards are drained in one call here, while in the code other threads may use a shard already drained; runs with drains between any two operations are covered by `RegistryShards.ShardsRefineFlatMap`.
- DatadogRoundTrip.EverythingSurvives: the carrier holds no `x-datadog-*` header before; where inject writes no header, a stale one stays.
- TraceContextRoundTrip.FieldsReadBack: names of tags that differ only in characters the sanitiser replaces overwrite each other; the lemma is about names that stay distinct.
- Configuration sources, remote configuration and the OpenTelemetry SDK around the modelled components.
