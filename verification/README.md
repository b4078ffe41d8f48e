# Verified model of the Featureflip Go SDK

A Dafny model of the parts of the SDK whose correctness spans more than one function: local
evaluation and the change-tracking store, the analytics event processor, the refcounted client
factory, semantic-version and number handling, rollout bucketing, and the stream source with its
polling fallback. `dafny verify dfyconfig.toml` checks everything.

## How it is laid out

| file | models |
|---|---|
| `Arithmetic.dfy`, `Text.dfy`, `Models.dfy` | powers of two; strings and digit strings; the wire types |
| `Semver.dfy`, `SemverParser.dfy` | version precedence and the version parser |
| `CanonicalNumber.dfy`, `ShortestDigits.dfy`, `IntegerDigits.dfy`, `IntegerBound.dfy` | the text of a number's digits; which digits a float of some width has; what integers it spells |
| `Bucketing.dfy`, `ContextBuckets.dfy`, `BucketText.dfy` | rollout buckets and the serve that picks one; how a context comes to its bucket; which integers hash one text |
| `Evaluation.dfy` | the evaluator: memo, depth cap, prerequisites, rules; the read path |
| `EvaluationLaws.dfy` | what a detail says: variation, value, reason, rule and prerequisite |
| `Prerequisites.dfy`, `SweepOrder.dfy`, `Cycles.dfy` | what the memo, the cap and cycles do to results |
| `Updates.dfy`, `Store.dfy` | which keys a change reports; the store; reports against evaluation |
| `EventQueue.dfy` | the event processor's critical sections, and the processor run by one caller |
| `EventProtocol.dfy`, `EventGuarantees.dfy`, `EventProgress.dfy` | the same sections interleaved by any number of callers: safety, and what a caller gets done |
| `Factory.dfy`, `FactoryRetries.dfy`, `FactoryClose.dfy` | Get and Close over the live-core map, interleaved; how often a Get can be sent back to its lookup; what closing comes to |
| `Backoff.dfy`, `EventStream.dfy`, `FallbackPoller.dfy` | reconnect delays, frame parsing, the polling fallback |

Evaluation, the diff, the store, the event processor and the loops of the parsers are methods and
classes that update their state as the Go code does, each proved against a function or predicate
on values; the theorems are about those. A concurrent protocol is a state machine whose step is
one lock section, atomic operation or network call of one caller; a theorem about it holds after
every finite sequence of actions of any number of callers.

Foreign code is a parameter: MD5, condition matching (a predicate of conditions, logic and
context), the rule sort (any function yielding a priority-ordered permutation), the outcome of
each post, the clock, the random number of a jitter, and the choice of a floating-point value's
shortest round-trip digits.

## Where the code and its comments disagree

The model follows the code. These differences are theorems:

- `addPrerequisiteDependents` must not under-report (updates.go:107-112), but it skips an empty
  prerequisite key which the evaluator does look up (evaluation.go:69-72). With a flag stored
  under the empty key a value moves unreported (`Store.EmptyKeyUnderReports`). The walk follows
  every link, whatever changes, exactly when no flag but one under the empty key declares an empty
  prerequisite (`Store.WalkFollowsExactly`), and then, or when there is no empty key at all,
  reports are complete (`Store.NeverUnderReports`, `Store.UnreportedNeverMoves`).
- A shared memo is described as only saving work (evaluation.go:33-36). Beyond the depth cap the
  order of a sweep shows, in both directions (`SweepOrder.SweepOrderShows`,
  `SweepOrder.SweepPoisons`); chains of at most n links are safe exactly for n within the cap
  (`SweepOrder.CapIsTight`). `evaluateWithSharedMemo` is unexported and called by
  prerequisite_test.go alone, so these sweeps are reachable only from inside the package.
- `doInit` argues that no listener can exist before the initial load because `Get` does not return
  until it has run (shared_core.go:100-103). A second `Get` of the same key returns without
  waiting (`Factory.HandleBeforeInitialLoad`): a handle is open on a core whose initial fetch is
  still to come exactly while another call is at that fetch, and on one whose fetch is over but
  whose sources are still to be started exactly while another call is starting them
  (`Factory.HandleBeforeFetchExactly`). The `Get` that made the core returns it with its
  initialization over (`Factory.MakerReturnsStarted`), which says nothing about what the fetch
  brought (`Factory.MakerMayReturnUnloaded`).
- `backoffDelay` relies on jitter keeping the delay strictly positive (streaming.go:115-116). A
  delay of one nanosecond can become zero, and no other can (`Backoff.JitterStaysPositive`). Both
  delays are unexported and set to 3 and 30 seconds (streaming.go:54-67), so that input is
  reachable only from inside the package.
- "One number to one bucket" (canonical_number.go:9-12): an integer literal keeps its digits
  (bucketing.go:49), while a float's text has its shortest digits. They agree exactly when those
  digits spell the integer and it is below 10^21 (`BucketText.LiteralAndFloatAgree`). Every
  integer a 64-bit float holds up to 2^53 agrees (`BucketText.SmallIntegersAgree`);
  18014398509481992, which it holds too, does not: the float is spelled 18014398509481990
  (`BucketText.LargeIntegerParts`). It is the first: all integers up to n agree exactly when n is
  below it (`BucketText.FirstToPart`).
- Data lines are said to be joined as section 9.2.6 of the WHATWG HTML standard has it
  (streaming.go:193-196), but empty ones before the first text are lost. And while the standard
  ends a line at a newline, at a carriage return, and at the two together, the scanner knows the
  first and the last only: a carriage return inside a line stays. A list of frames, its payloads
  cut at newlines, survives exactly when no type is empty, spans lines or ends with a carriage
  return, no payload starts with an empty line and no line of one ends with a carriage return
  (`EventStream.StreamRoundTrip`).

## Model

| member | source | states |
|---|---|---|
| Bucketing.Bucket | bucketing.go:16-20 | every salt and value fall into one of the 100 buckets |
| Bucketing.ResolveServe | evaluation.go:182-215 | the running-total loop serves what FixedServes, RolloutServes and PickInterval describe |
| Bucketing.PickInterval | evaluation.go:203-214 | an entry is served exactly for the buckets between the total weight before it and the total up to it; the last one also takes what falls through |
| Bucketing.BucketShare | evaluation.go:203-214 | for any non-negative weights, how many of the 100 buckets each entry gets |
| Bucketing.RolloutPartition | evaluation.go:211-214 | weights summing to 100 give every entry exactly its weight, and the trailing fallback is never needed |
| Bucketing.RampUpKeeps | evaluation.go:201-209 | raising the first weight never takes a bucket away from the first entry |
| ContextBuckets.BucketOfDigest | bucketing.go:16-20 | the bucket of a salt and a value is given by the first four bytes of the hash of salt, colon, value, with weights 1, 56, 36, 16 modulo 100 |
| ContextBuckets.BucketReadsOneHash | bucketing.go:16-20 | two hashes agreeing on that one text give the same bucket, whatever they do elsewhere |
| ContextBuckets.FixedServes | evaluation.go:183-193 | a fixed serve, and a rollout without entries, serve their own variation to everybody |
| ContextBuckets.RolloutServes | evaluation.go:195-215 | a rollout serves the entry its bucket falls to, for the one text the context is hashed as, and cannot bucket the context exactly when there is no such text; a non-empty user id is that text under its two names, the attribute of that name otherwise, spelled by its kind |
| ContextBuckets.HashedOnce | bucketing.go:22-70 | a context is hashed as one text at most |
| ContextBuckets.UsersAreServed | bucketing.go:25-37 | with a user id a rollout over users always serves an entry, and attributes do not affect which |
| ContextBuckets.OneAttributeDecides | bucketing.go:27-37 | any other rollout reads the one attribute it names and nothing else of the context |
| ContextBuckets.NothingToHash | bucketing.go:60-68 | an absent, nil, aggregate or empty value cannot be bucketed |
| BucketText.LiteralTextKeepsValue | bucketing.go:72-79 | the hashed text of an integer literal stands for the same integer, negative zero included |
| BucketText.LiteralTextInjective | bucketing.go:49-52 | two JSON integers hash one text if and only if they are one number |
| BucketText.LiteralAndFloatAgree | bucketing.go:44-52 | for every JSON integer and every float, finite or not: literal and float hash one text if and only if the float's shortest digits spell that integer and it is below 10^21 in magnitude |
| BucketText.SmallIntegersAgree | canonical_number.go:9-13 | every non-zero integer of magnitude up to 2^precision (2^53 at 64 bits, 2^24 at 32) hashes one text as a literal and as the float of that width that holds it, for any shortest digits that read back as the float (at 2^precision itself, the nearest such) |
| BucketText.LargeIntegerParts | bucketing.go:49-52 | 18014398509481992 is held by a 64-bit float, yet literal and float hash different texts |
| BucketText.FirstToPart | canonical_number.go:9-13 | for 64-bit floats spelled by the nearest of their shortest digits, literal and float hash one text for all held integers of magnitude up to n if and only if n is below 18014398509481992 |
| CanonicalNumber.CanonicalReadsBack | canonical_number.go:28-57 | whichever of the four layouts applies, the text read as a decimal is exactly the number the shortest digits spell (section 6.1.6.1.20 of ECMA-262) |
| CanonicalNumber.LayoutExactly | canonical_number.go:39-57 | for the number the shortest digits spell, an exponent is written exactly below 10^-6 and from 10^21 on; otherwise a decimal point exactly for a non-integer |
| CanonicalNumber.WholeSpelling | canonical_number.go:40-41 | shortest digits that spell an integer below 10^21 are written out as that integer, without a leading zero |
| CanonicalNumber.CanonicalForm | canonical_number.go:39-57 | the text has no superfluous zero in front or behind, one digit before the point of a scientific text, a signed exponent, and a minus sign exactly in front of negative values |
| CanonicalNumber.SpecialNames | canonical_number.go:15-23 | NaN, the infinities and zero have their ECMAScript names |
| CanonicalNumber.CanonicalInjective | canonical_number.go:14-57 | two values of any widths, NaN, infinities and zero included, share a text if and only if their shortest digits spell the same number |
| ShortestDigits.ReadsOnce | canonical_number.go:28-29 | within one width a decimal reads as one float only |
| ShortestDigits.OneFloatOneText | canonical_number.go:9-14 | within one width, each finite float spelled by shortest digits that read back as it, two floats share a text if and only if they are the same float |
| IntegerDigits.SmallIntegerDigits | canonical_number.go:28-32 | up to 2^precision the shortest digits of the float holding an integer spell that very integer |
| IntegerDigits.LargeShortest | canonical_number.go:28-41 | beyond it they need not: sixteen digits suffice for 18014398509481992, and spell 18014398509481990 |
| IntegerBound.LargerIntegerDigits | canonical_number.go:28-41 | between 2^53 and that integer the nearest of the shortest digits of a 64-bit float holding an integer spell that very integer |
| IntegerBound.LargeNearest | canonical_number.go:28-41 | at it no other choice of shortest digits is nearer |
| Evaluation.EvaluateInternal | evaluation.go:56-163 | with its memo updated in place, detail and memo are those of the recursion that EvaluationServes and EvaluationExplained describe, for every depth and memo |
| Evaluation.ApplyRules | evaluation.go:98-162 | the sorted-rules loop gives the result RulesServe describes |
| Evaluation.EvaluateOnce | evaluation.go:28-31 | a read starts from an empty memo and gives the detail EvaluationExplained describes |
| Evaluation.RuleChoice | evaluation.go:20-27 | whatever priority sort is used, the result is that of an applicable rule of least priority, and of the fallthrough exactly when none applies; a rule that cannot bucket does not apply |
| Evaluation.EvaluationWellServed | evaluation.go:41-54 | for any memo, a result other than Error names a variation the flag defines and carries its value |
| Evaluation.ReadPathCheckIsRedundant | featureflip.go:397-406 | the read path's own malformed-config check never changes the evaluator's answer |
| EvaluationLaws.EvaluationExplained | evaluation.go:14-27 | for a flag whose chains fit the cap: disabled serves the off variation as disabled; else the first prerequisite failing on its own serves it as error or, named, as prerequisite failure; else the offering rule of least priority serves its variation with its id; else the fallthrough serves its bucket or, unbucketable, its own variation; each with the first value under that key, and any undefined key an error without value, rule or prerequisite |
| EvaluationLaws.EvaluationServes | evaluation.go:56-163 | on every graph, at every depth and from every memo the detail is of one of these forms; past the cap it serves off as an error |
| EvaluationLaws.CutShort | evaluation.go:57-63 | past the cap any flag, and up to it a disabled one, serves its off variation, as error and as disabled |
| EvaluationLaws.BlockedServesOff | evaluation.go:65-96 | a flag its prerequisites stop serves its off variation, as error or naming one of them |
| EvaluationLaws.RulesServe | evaluation.go:98-162 | a rule naming a segment offers only to contexts in that segment while it is held, one without to contexts all its groups match; the least priority decides; without an offer the fallthrough serves |
| EvaluationLaws.ServesOnce | evaluation.go:41-54 | key, reason, rule and prerequisite determine the detail, value included |
| EvaluationLaws.UnknownAnswersDefault | featureflip.go:389-395 | a key the store does not hold answers the caller's default as not found |
| EvaluationLaws.ReadExplained | featureflip.go:388-409 | a read of a held flag is explained like its evaluation |
| Prerequisites.PlainDepthFree | evaluation.go:57-59 | a flag whose chains fit the remaining depth evaluates as at depth 0 |
| Prerequisites.MemoAgrees | evaluation.go:69-83 | while chains fit the cap, a memo of memo-free results changes no result, errors included, and stays such a memo |
| Prerequisites.SweepAgrees | evaluation.go:33-39 | evaluating a list of held flags with one shared memo, in any order, equals evaluating each separately |
| Prerequisites.PlainShallower | evaluation.go:57-59 | a result other than Error is the same at every shallower depth, with no condition on chains |
| Prerequisites.GoodResultsSurvive | evaluation.go:68-96 | with no condition on chains, memoisation never changes a result other than Error |
| Prerequisites.PrerequisitesDecide | evaluation.go:22-24 | the first prerequisite that fails when evaluated on its own decides the flag: its error spreads, a mismatch or absence is named; if none fails the rules decide |
| SweepOrder.SweepOrderShows | evaluation.go:69-83 | one link beyond the cap, sweeping the far end first serves a flag that a separate evaluation reports as an error |
| SweepOrder.SweepPoisons | evaluation.go:81-89 | sweeping the overlong chain first makes a flag whose own chain fits report an error |
| SweepOrder.CapIsTight | evaluation.go:9-12 | sweeps over chains of at most n links agree with separate evaluations, in every snapshot and order, if and only if n is at most 10 |
| Cycles.MemoGrows | evaluation.go:68-96 | evaluating a flag not yet in the memo overwrites no entry |
| Cycles.ActiveStaysOut | evaluation.go:68-96 | without re-entry no evaluation in progress gets an entry, so no cycle is cut short by the memo |
| Cycles.CycleFails | evaluation.go:57-89 | from any memo that does not hold them, flags going round a cycle evaluate to Error at every depth |
| Cycles.CyclesFailLoudly | evaluation.go:9-12 | an evaluation that re-enters a flag still being evaluated reports Error at the root |
| Cycles.CycleOfFirstsFails | evaluation.go:9-12 | no flag on a cycle of enabled flags, each requiring the next first, serves a variation |
| Updates.AffectedExact | updates.go:100-112 | the reported set is the keys with a walk of non-empty prerequisite links to a seed |
| Updates.AffectedClosed | updates.go:136-139 | it holds the seeds and every dependent of its members |
| Updates.AffectedLeast | updates.go:109-110 | nothing smaller does: it is inside every set that does |
| Updates.BuildDependents | updates.go:122-131 | the reverse index lists a flag under a key exactly when it declares it as a non-empty prerequisite |
| Updates.ReportDependents | updates.go:147-152 | handling one key leaves no unreported, unqueued dependent of it, and reports only affected keys |
| Updates.AddPrerequisiteDependents | updates.go:117-154 | terminates on every graph, cycles included, with exactly the affected keys |
| Updates.SortedKeys | updates.go:156-168 | the set's keys, once each, in byte order, whatever order the map iterates in |
| Updates.SortedListingUnique | updates.go:156-157 | there is only one such list |
| Updates.DiffFlags | updates.go:42-55 | exactly the keys of flags added, edited or removed |
| Updates.DiffSegments | updates.go:57-70 | exactly the keys of segments added, edited or removed |
| Updates.ReferencesAny | updates.go:80-88 | true exactly when some rule names a changed segment |
| Updates.AddSegmentUsers | updates.go:72-90 | adds exactly the incoming flags that reference a changed segment |
| Updates.DiffSnapshot | updates.go:34-98 | the sorted listing of changed flags, users of changed segments, and everything that depends on either |
| Store.FlagStore.constructor | store.go:17-22 | empty |
| Store.FlagStore.SetAll | store.go:31-48 | leaves what SetAllLeaves says and returns the report of the diff against what was held |
| Store.FlagStore.SetFlag | store.go:54-66 | leaves what SetFlagLeaves says; an identical flag is reported to nobody |
| Store.FlagStore.RemoveFlag | store.go:74-86 | leaves what RemoveFlagLeaves says and reports the key with what depends on it among the flags that remain; nothing for a key not held |
| Store.FlagStore.Dependents | store.go:63-65 | the key and everything that reaches it among the held flags |
| Store.FlagStore.FlagsSlice | store.go:90-96 | every held flag and no other, in some order |
| Store.SetAllLeaves | store.go:37-45 | a flag or segment key is held exactly when it is listed, with the last entry under it, whatever was held before |
| Store.SetFlagLeaves | store.go:58-61 | the key holds exactly that flag, every other flag and every segment is as it was |
| Store.RemoveFlagLeaves | store.go:78-81 | the key holds nothing, every other flag and every segment is as it was |
| Store.ChangedExactly | updates.go:42-70 | for lists without duplicate keys the diff calls a flag or segment changed exactly when the snapshots before and after disagree on it |
| Store.WalkFollowsExactly | updates.go:124-130 | for a snapshot: whatever changes, the walk follows every prerequisite link, if and only if no flag but one under the empty key declares an empty prerequisite |
| Store.LinksCoveredExactly | updates.go:124-130 | for one report: it follows every link of the new snapshot if and only if it follows those through the empty key |
| Store.EvaluationUnmoved | evaluation.go:56-163 | flags outside a set the links cover evaluate alike in two snapshots that agree outside it, at every depth and from every memo |
| Store.NeverUnderReports | updates.go:110-112 | a key missing from an operation's report is held before if and only if after, and reading it gives the same detail for every context, with segments, cycles, memo, cap and removed flags included |
| Store.UnreportedNeverMoves | updates.go:16-23 | the same over any run of operations each of which leads to a snapshot without empty links, or keeps out empty keys |
| Store.NoEmptyKeysFollowed | updates.go:126-128 | which holds of every run that never holds a flag under the empty key |
| Store.EmptyKeyUnderReports | updates.go:126-128 | dropping a flag held under the empty key moves a dependent nobody is told about |
| Store.SilentMeansSame | store.go:24-25 | an empty report means that no flag changed |
| Store.RefreshIsSilent | updates.go:19-22 | fetching again what is held reports nothing |
| Store.ReportIsUnique | updates.go:156-157 | what an operation reports does not depend on map iteration order |
| Store.DeltaReportsExactly | store.go:50-86 | setFlag and removeFlag report nothing when nothing changes, and otherwise exactly the key and what depends on it among the flags held afterwards |
| Store.SetAllReportsExactly | updates.go:34-98 | for lists without duplicate keys setAll reports exactly the flags on which, or on a segment of whose rules, the snapshots disagree, and what depends on one of those |
| EventQueue.Bounded | events.go:71-78 | a positive bound is kept, the buffer bound is always positive, batch size and interval are as given |
| EventQueue.EventProcessor.constructor | events.go:74-85 | open, empty, gate in the past, nobody draining |
| EventQueue.EventProcessor.TrimOldestLocked | events.go:341-355 | keeps what TrimKeepsNewest says and counts the rest |
| EventQueue.EventProcessor.Enqueue | events.go:118-140 | buffers what EnqueueKeepsNewest says unless closed; asks for a flush exactly at a full batch |
| EventQueue.EventProcessor.Admit | events.go:145-152 | takes the latch exactly when open, free and past the gate |
| EventQueue.EventProcessor.DrainBatch | events.go:259-294 | takes 1 to max(1, batchSize) of the oldest events off the front, none exactly when empty |
| EventQueue.EventProcessor.Requeue | events.go:315-337 | leaves what RequeueKeepsNewest says, or drops the batch when closed; counts every event lost |
| EventQueue.EventProcessor.Drain | events.go:210-255 | against any outcomes, either every batch is sent in order and the buffer is empty, or the first stopping failure ends it: open, that batch stands before the untouched rest |
| EventQueue.EventProcessor.Settle | events.go:223-253 | a success opens the gate, a retryable failure puts the batch back; the loop ends at a retryable failure and, when closed, at any |
| EventQueue.EventProcessor.Flush | events.go:184-207 | the same, and the drain channel is free again |
| EventQueue.EventProcessor.Stop | events.go:361-390 | one last drain that ends at the first failure of any kind, nothing left buffered; a second stop changes nothing |
| EventQueue.ChunksPartition | events.go:163-174 | the batches put together are the buffer, each of 1 to max(1, batchSize) events |
| EventQueue.DrainIsBounded | events.go:210-255 | a drain of n events makes at most n / max(1, batchSize) requests, rounded up |
| EventQueue.TrimKeepsNewest | events.go:339-355 | overflow costs the front of the buffer, exactly as many events as exceed the bound |
| EventQueue.EnqueueKeepsNewest | events.go:128-129 | while open the event just tracked is always kept, last; what is shed came before everything kept, and only to meet the bound |
| EventQueue.RequeueKeepsNewest | events.go:303-336 | the batch comes back in front of the buffer, overflow costs the front of the two together, and the gate is armed one interval ahead |
| EventQueue.ClosedTakesNothing | events.go:124-127 | closed, no event or batch gets in and the size trigger is shut |
| EventQueue.DrainEndsAtFailure | events.go:232-253 | open, only a retryable failure ends a drain early; closed, the first failure of any kind does |
| EventProtocol.StepHolds | events.go:118-390 | a step leaves alone what other callers hold: latch, drain channel, stop |
| EventProtocol.RolesKept | events.go:178-207 | at most one flush drains, one stop drains, and one size-triggered flush runs |
| EventProtocol.StepConserves | events.go:118-390 | a step moves events between places and only acceptance adds one |
| EventProtocol.BoundsKept | events.go:259-355 | batch and buffer bounds survive every step |
| EventGuarantees.EventsConserved | events.go:163-170 | in every interleaving each accepted event is in exactly one of buffered, in flight, acknowledged, rejected, shed or discarded, and nothing is discarded before stop |
| EventGuarantees.EventsOrdered | events.go:303-305 | until stop begins, acknowledged events, then the batch in flight, then the buffer are in the order of acceptance, and nothing rejected is newer than what waits |
| EventGuarantees.BatchesInFlight | events.go:376-381 | two batches are in flight only after stop began, and then one of them is stop's |
| EventGuarantees.BoundsHold | events.go:339-355 | the buffer never exceeds its bound and no batch its size |
| EventGuarantees.StaysEmpty | events.go:387-389 | once stop cleared the buffer it stays empty forever |
| EventGuarantees.GateMoves | events.go:223-230 | only an acknowledged send opens the gate and only a requeue while open arms it |
| EventGuarantees.GateHolds | events.go:142-152 | while the gate is shut nobody is admitted, and at most one size-triggered drain begins: one admitted before |
| EventGuarantees.BackoffAfterFailure | events.go:303-306 | so a retryable failure buys one interval of quiet, unless a later send is acknowledged |
| EventGuarantees.OldestAreShed | events.go:339-355 | in every interleaving whatever a step sheds is older than everything still buffered after it |
| EventGuarantees.GateExpires | events.go:142-147 | from every reachable state the gate is open one interval later |
| EventGuarantees.ClosedAdmitsNobody | events.go:147-150 | once stop began the size trigger admits nobody |
| EventProgress.DrainDelivers | events.go:163-165 | a drain left alone, from any state the others left, sends the whole buffer in order while posts succeed |
| EventProgress.DrainBacksOff | events.go:238-245 | while posts fail an open drain makes one attempt, loses and reorders nothing, and arms the gate |
| EventProgress.DrainPassesRejections | events.go:232-236 | open, rejected batches do not block what is queued behind them |
| EventProgress.ClosedDrainTriesOnce | events.go:248-253 | closed, one failed attempt of either kind is the last |
| EventProgress.FlushDelivers | events.go:184-207 | a flush nobody drains for sends everything and gives back the channel and, if it was size-triggered, the latch |
| EventProgress.FullBatchIsSent | events.go:115-117 | an event completing a batch is sent by the call that tracked it, with everything kept before it, when the gate is open and nobody flushes |
| EventProgress.StopDelivers | events.go:357-360 | a stop left alone sends everything while posts succeed and discards nothing |
| EventProgress.FlushCallDelivers | events.go:184-207 | a flush called while nobody drains sends everything buffered |
| EventProgress.StopCallDelivers | events.go:361-390 | the first stop sends everything buffered and leaves a closed, empty processor |
| EventProgress.TrackCallAccepts | events.go:115-140 | tracking while open accepts the event and keeps it last; short of a full batch the call is over |
| EventProgress.ClosedCallsDoNothing | events.go:124-127 | closed, tracking and stopping return at once and change nothing |
| EventProgress.WaiterReturns | events.go:190-194 | a flush whose drain is over returns in two steps and gives back the latch it holds |
| EventProgress.NothingLostWhileAcked | events.go:248-253 | in every interleaving, stop included: as long as every post is acknowledged nothing is rejected or discarded, and once stop is over with no batch in flight every accepted event was acknowledged or had been shed |
| EventProgress.SoloIsRun | events.go:118-390 | those are runs of the interleaved protocol in which one caller acts |
| EventProgress.NothingOrphaned | events.go:154-158 | in every interleaving a taken latch, a taken drain channel and an unfinished stop belong to a caller that is going to give them back |
| EventProgress.FlushWaits | events.go:178-183 | a flush that found a drain going neither returns nor drains while that drain goes on |
| Factory.StepEvolves | shared_core.go:136-167 | no step forgets a core, revives a count of zero or takes back a shutdown or a stage of initialization |
| Factory.OneLiveCore | featureflip.go:76-118 | of the published cores of a key at most one is in use, and it is the one the map holds |
| Factory.CountIsReferences | shared_core.go:138-167 | a core's count is its open handles plus the references of calls in progress |
| Factory.ShutdownOnce | shared_core.go:150-168 | a core is shut down by one caller, once, with no handle open and its initialization finished if it was published |
| Factory.CoresAge | shared_core.go:70-193 | over any run a core is never forgotten, its initialization goes through its stages in order, what its fetch brought is settled once, and zero, shutdown and halt are final |
| Factory.ZeroIsFinal | shared_core.go:136-148 | a count that reached zero stays there, whatever follows |
| Factory.CleanupSparesLiveCores | shared_core.go:169-177 | whatever leaves the map was at zero: neither cleanup removes a successor in use |
| Factory.AllClosedAllHalted | featureflip.go:300-321 | once every call returned and every handle is closed, all cores are halted and the map is empty |
| FactoryClose.CloseFinishes | featureflip.go:300-321 | from every reachable state closing a handle and five steps of the caller's own give up one reference: the last takes its core out of the map, shut down and halted, any other leaves it listed and running; nothing else changes |
| FactoryClose.CloseIsIdempotent | featureflip.go:303 | closing again does nothing |
| FactoryClose.HandleRuns | shared_core.go:150-168 | a core with an open handle is listed and not shut down |
| FactoryClose.GetCallFinishes | featureflip.go:60-128 | a Get, from its call on, needs at most eight undisturbed steps to a handle of its key |
| Factory.GetFinishesAlone | featureflip.go:73-75 | from any reachable state a Get at its lookup needs at most eight undisturbed steps to its handle, whether or not its fetch is answered |
| FactoryRetries.GetFinishesAnywhere | featureflip.go:73-128 | a Get standing anywhere on its way needs at most twenty: nothing others left half done can trap it |
| FactoryRetries.RetriesAreOwed | featureflip.go:73-75 | in every interleaving a Get is sent back to its lookup at most twice for each core of its key that meanwhile left the map at zero, plus once |
| Factory.HandleBeforeFetchExactly | shared_core.go:77-125 | in every interleaving an open handle's core still has its initial fetch to come if and only if another call is at that fetch, and its fetch over but its sources not started if and only if another call is starting them |
| Factory.MakerReturnsStarted | featureflip.go:113-128 | the Get that made a core returns it with its initialization over |
| Factory.HandleBeforeInitialLoad | shared_core.go:100-103 | a second Get can hold an open handle before the core's initial fetch is over |
| Factory.AfterTheFetch | shared_core.go:94-125 | and still while the fetch, answered or not, is over and the sources are being started |
| Factory.MakerMayReturnUnloaded | shared_core.go:77-110 | the Get that made a core returns it loaded or not, as the fetch went |
| Semver.CompareNumericIsSign | conditions.go:694-707 | the overflow-free comparison is the sign of the integer difference, for digit strings of any length and any leading zeros |
| Semver.ComparePrereleaseIdMeets | conditions.go:676-692 | -1, 0 and 1 exactly for before, same and after in the identifier order of section 11 of Semantic Versioning 2.0.0 |
| Semver.ComparePrerelease | conditions.go:643-674 | the sign is the prerelease order: a prerelease precedes its release, the first difference decides, else the shorter list |
| Semver.CompareSemverParts | conditions.go:619-641 | the sign is precedence as section 11 defines it, releases of unequal length read as padded with zeros |
| Semver.SignIsUnique | conditions.go:622-641 | no other sign would meet that definition |
| Semver.Exclusive | conditions.go:622-641 | of before, after and same at most one holds |
| Semver.Total | conditions.go:622-641 | of before, after and same at least one holds of any two versions |
| Semver.TotalPreorder | conditions.go:622-641 | precedence is total, reflexive, transitive and, up to same precedence, antisymmetric |
| SemverParser.ParseSemver | conditions.go:573-617 | the cutting and scanning method accepts what ParseExact says |
| SemverParser.ParseExact | conditions.go:569-617 | a text is parsed to a version if and only if, apart from white space around it, it is an optional v, that version's spelling and optional build metadata |
| Backoff.DelayBeforeJitter | streaming.go:117-132 | wrapping 64-bit doubling computes min(cap, base x 2^(failures-1)) on unbounded integers and is always positive |
| Backoff.DelayGrows | streaming.go:107-110 | a longer failure streak never shortens the delay, and the cap once reached is kept |
| Backoff.DelayDoubles | streaming.go:107-109 | the delay starts at the base and doubles with every further failure until it meets the cap |
| Backoff.JitterRange | streaming.go:134-142 | a positive delay d becomes one in [d/2, d], and the extreme random numbers give d/2 and the largest even number up to d |
| Backoff.JitterStaysPositive | streaming.go:115-116 | jitter keeps a positive delay positive, for every random number, if and only if it is not one nanosecond |
| EventStream.ReadLines | streaming.go:178-225 | hands over the frames FramesReceived describes and reports delivery exactly when there was one |
| EventStream.FramesReceived | streaming.go:176-225 | for the text of any frames without a newline in the type, what is handed over, in order, and that nothing leaks from one frame to the next |
| EventStream.PayloadSurvives | streaming.go:192-205 | a payload is rebuilt as sent if and only if its first line is not empty and no line ends with a carriage return |
| EventStream.FrameRoundTrip | streaming.go:190-209 | a rendered frame arrives as sent if and only if that holds and its type is one non-empty line without a trailing carriage return |
| EventStream.StreamRoundTrip | streaming.go:176-225 | a list of frames, rendered as a text with payloads cut at newlines, scanned and read, arrives one for one and in order if and only if every frame is such |
| EventStream.IgnoredLine | streaming.go:190-224 | a line that is neither event, data nor blank, inserted anywhere, changes nothing that is handed over |
| FallbackPoller.InvariantKept | streaming.go:75-105 | every step of run, of the line loop and of stop keeps the bookkeeping of pollers and failures |
| FallbackPoller.PollerLifecycle | streaming.go:207-221 | at most one uncancelled poller, only after threshold connections in a row delivered nothing, none from just after a connection's first handled frame until it ended, none once stop returned |
| FallbackPoller.PollerExactlyWhenFailing | streaming.go:72-74 | until stop begins, between connections and in undelivering ones, a poller works if and only if that many connections in a row failed |
| FallbackPoller.NeverGivesUp | streaming.go:69-74 | until stop begins the reconnect loop has not exited, and from the end of any connection it gets to the next attempt |
| FallbackPoller.SilenceFails | streaming.go:92-96 | a refused connection, or one that delivered nothing, counts as a failure |
| FallbackPoller.FrameRecovers | streaming.go:86-91 | the first handled frame retires the poller at once, and its connection resets the failures |
| FallbackPoller.StopReturns | streaming.go:357-361 | stop cancels and returns in two steps, and again does nothing |
| FallbackPoller.ExitsAfterStop | streaming.go:80-84 | once stop began, the end of a connection ends the loop, wherever it stood |
| FallbackPoller.NoPollerAfterStop | streaming.go:327-332 | after stop returned no interleaving brings a poller back |
| FallbackPoller.CancelledForGood | streaming.go:339-347 | a cancelled poller is never revived |

## Left out

- Prerequisites.SweepAgrees: one direction for a single snapshot. The bound on chains is the largest there is (SweepOrder.CapIsTight), but a snapshot with a longer chain may still agree, since a disabled flag or an earlier failure can keep the chain from being walked. The swept flags are held flags, as a sweep over the store's own map has it.
- Evaluation.ReadPathCheckIsRedundant: the flag, the segments and the flag map are read under three separate locks (featureflip.go:389, 397); the model reads one snapshot.
- Store.NeverUnderReports: assumes that no link through the empty key is missed, as WalkFollowsExactly and NoEmptyKeysFollowed say when; reflect.DeepEqual also tells a nil slice from an empty one, which can only add reports.
- EventGuarantees.BatchesInFlight: stop does not wait for the interval ticker's goroutine in the model, nor is the ticker a separate caller; both only allow more interleavings. A waiter is released together with the drain flag, a moment before the channel is closed.
- EventProgress.FlushDelivers: progress of a caller running alone; under contention no fairness is assumed. In particular a coalesced flush may return while an event enqueued after the drain's last look is still buffered.
- Factory.OneLiveCore: the count is unbounded where the source has 32 bits, and cores are values in a table rather than objects on a heap.
- Factory.HandleBeforeFetchExactly: the initial fetch with the storing of its answer is one step, and so is the start of the event processor and the data source; that a data source may fill the store later is not part of the model.
- Factory.ShutdownOnce: halting a core (its sources, its event processor, its listeners) is one step.
- Factory.GetFinishesAlone: progress of a caller running alone; no fairness of the scheduler is assumed, so no progress under contention is claimed.
- FallbackPoller.PollerLifecycle: a poller is an entry that is uncancelled or cancelled; a cancelled poller may still finish the poll it is in.
- SemverParser.ParseExact: strings are valid UTF-8; what trimming does to broken encodings is not modelled.
- ShortestDigits.OneFloatOneText: the overflow limit of a width is left out, and that the formatting library yields shortest digits is assumed; that it yields the nearest of them is assumed where the rows say so.
- Bucketing.RampUpKeeps: weights are unbounded integers, without the 64-bit wrap-around of their sum.
- MD5, regular expressions, number parsing and shortest-digit formatting, time parsing, Unicode tables: foreign code.
- Single conditions, their operators and the And/Or folding of conditions and groups: one uninterpreted predicate, since each is settled by reading one branch.
- Variation values: raw JSON text; decoding and the typed accessors are not modelled.
- Requests, headers, JSON payloads, the line scanner's 16 MiB limit, and handleEvent's dispatch to the store.
- The polling source, listeners and OnUpdate, inspectors, logging and warn-once, configuration options, ForTesting, ResetForTesting and the Debug helpers.
- dropUnevaluable: a filter that the initial load bypasses, so nothing holds of the store because of it.
- Get's error returns for a missing key and a failed initialization: the first is one test, the second cannot happen, as doInit never fails.
- A nil HTTP client, with which the event processor does nothing.
