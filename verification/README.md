# kaas-ui: verified model of the server side

kaas-ui is a web UI for Kafka fleets, written in Rust. This project models the parts of its server whose
correctness is an argument rather than a glance, and proves that argument with Dafny 4.11. To check all of it:
`dafny verify dfyconfig.toml`.

| file | models |
|---|---|
| SizeHistogram, SizeSketch | the log-bucketed payload-size histogram and its percentiles |
| HyperLogLog, TopicAnalysis, AnalysisBuilder | the full-topic scan: registers, per-partition and total accumulators, the capped hour chart |
| Ring, Closing | the drop-oldest hand-off between a scan and its reader, and the notification of the reader's leaving |
| Governor | slots for long-lived streams, eviction and latches |
| Glob, Policy, Gate | patterns, roles, sessions, and the gate that mints a write grant |
| Wire, Writer, Client, Route | writes from caller to audit: requests to a Connect cluster as a grant allows them, their reading by the worker, the probe and its backoff |
| Redact, PercentEncoding | withheld config values, and names in URL paths |
| Tokens | the federated token cache |
| Fleet | which configurations start |
| Text, Ordered, Numbers, Bits | the string, map-order, counter and bit operations those use |

## How it is modelled

- An object whose methods update its fields is a class; each method's contract ties the new state to a function of
  the old one or to a ghost history of what the object was fed, and the lemmas are about that function or history.
  What such a class calls `Valid` is kept by every method, so it holds after every sequence of calls.
- The ring's protocol is a state machine over its lock and notify steps. `notify_one` wakes one waiter, or stores one
  permit where nobody waits; a waiter that was woken and is then cancelled hands its wake-up back. Calls to `closed`
  are alike, so their machine counts how many are at each point.
- A request to a worker or an issuer is a parameter holding what it brought back; clocks are parameters too. The log
  of writes is a ghost field, and a worker's reading of it, `Route`, is written from the paths of the Connect REST API
  and does not use the writer's own path functions.
- `Grant` has private fields in Rust that only `authorize` fills in. Here the gate records what it authorizes, for
  whom and under which ceiling, and a writer takes only a grant in that record. A process has one gate, with the one
  policy that no reload changes, and an access is one that policy gave. `PreparedConfig` is the subset type of
  configs whose `name` agrees.
- Beside a definition that follows the code branch by branch stands a lemma that says what it comes to without using
  it: in numbers, in the elements of a list, or by an independent definition (`PermittedIff`, `RedactMeans`,
  `RankMeans`, `EnvironmentMeans` and their like).
- Latches are kept in an arena in the order they are made, so a latch is its index.
- The scan's records come from a crate that is not part of this repository; a record's payload length is taken to be
  its key bytes plus its value bytes, as `bytes_scanned` documents it.

## Where the code and its documentation disagree

The model follows the code.

- Percentiles are documented as within about 4%. The bound is 1/16, and it is attained (`SixteenthIsAttained`);
  `FourPercentIff` says in which buckets 4% holds.
- `closed` is documented to resolve when the reader goes away. The reader's drop notifies once, so it does for every
  call if and only if at most one call was waiting (`EveryCallReturnsIff`); the pumps use one call per stream.
- Two entries whose credential variables coincide are documented to be refused. The owner a claim is compared by
  leaves the environment out, so equal kinds and ids in environments whose ids flatten alike are accepted and share
  the variable (`SharedVariableIff`, `TwinEnvironmentsShareASecret`).
- A write is documented to forget the cached connector list whatever happened. A request that brings no answer leaves
  it in place, though the write may have been applied (`Send`).
- `attempts` is documented as how many attempts have failed. A fault recorded by a write or another read reports
  one, however many probes failed before it (`AttemptsMean`, `FaultAfterFiveProbes`).
- A writer is documented to be for the Connect cluster its grant names. It compares the id alone, and ids are unique
  within an environment only, so at the writer the ceilings of all clusters of one id count together
  (`NothingBeyondTheCeilings`); a write takes client and target from one entry, so there each cluster has its own
  (`CeilingBoundsEveryRun`).
- A rebuilt session is the one that signed in only if no other role shares a name with one of its own
  (`SessionRebuild`); role names are not checked for uniqueness.
- A secret under `aws.access.`, `aws.secret.` or `aws.session.` is withheld only while those words lead the key
  (`KeptUnderEveryPrefix`, `AwsRuleStopsAtAPrefix`).

## Model

| member | source | states |
|---|---|---|
| SizeHistogram.BucketIsARange | crates/kaas-ui-core/src/analysis.rs:160-171 | a value is in a bucket exactly when it lies between the bucket's lower edge and the next one's, so the shifts and masks cut the numbers into adjacent ranges |
| SizeHistogram.SizeBucketMonotone | crates/kaas-ui-core/src/analysis.rs:163-171 | buckets are monotone over all values |
| SizeHistogram.RepresentativeInItsBucket | crates/kaas-ui-core/src/analysis.rs:173-184 | the representative of each of the 496 buckets falls back into that bucket |
| SizeHistogram.NothingOverflows | crates/kaas-ui-core/src/analysis.rs:163-184 | every 64-bit value has one of the 496 buckets, and no representative needs more than 64 bits |
| SizeHistogram.RepresentativeIsNear | crates/kaas-ui-core/src/analysis.rs:37-39 | a value's representative is within 1/16 of the value, for every 64-bit value |
| SizeHistogram.SixteenthIsAttained | crates/kaas-ui-core/src/analysis.rs:37-39 | 1/16 is attained at every power of two from 16 up, so no smaller bound holds everywhere |
| SizeHistogram.FourPercentIff | crates/kaas-ui-core/src/analysis.rs:37-39 | the documented 4% holds of every value of a bucket if and only if the bucket is one of the first sixteen, which are exact, or one of the last three of its octave's eight |
| SizeSketches.SizeSketch.Offer | crates/kaas-ui-core/src/analysis.rs:197-203 | in place, the sketch becomes the fold of the offered values with one more: count, saturating sum, bounds and bucket count |
| SizeSketches.SizeSketch.Quantile | crates/kaas-ui-core/src/analysis.rs:205-234 | the walk over the buckets answers the bucket midpoint of the true order statistic at rank max(1, ceil(q n)), clamped to the exact bounds, for every real q; the fallback after the loop is never reached |
| SizeSketches.RankMeans | crates/kaas-ui-core/src/analysis.rs:210-223 | the rank asked for is the least whose share of the count reaches the quantile, and the last for a quantile above one |
| SizeSketches.EstimateIsNear | crates/kaas-ui-core/src/analysis.rs:143-149 | every percentile is within 1/16 of the true order statistic and inside the exact minimum and maximum |
| SizeSketches.QuantileMonotone | crates/kaas-ui-core/src/analysis.rs:205-234 | a higher quantile never answers a smaller size |
| SizeSketches.OneSizeIsExact | crates/kaas-ui-core/src/analysis.rs:228-230 | values of one size are answered exactly, not with their bucket's midpoint |
| SizeSketches.OrderStatisticBySorting | crates/kaas-ui-core/src/analysis.rs:205-234 | the order statistic a percentile is measured against is the k-th of the offered values sorted, whatever order they came in |
| SizeSketches.SketchBounds | crates/kaas-ui-core/src/analysis.rs:143-145 | minimum and maximum are exact: attained, and around every value |
| SizeSketches.SketchBuckets | crates/kaas-ui-core/src/analysis.rs:202-202 | a bucket counts exactly the offered values in its range, and is present only if there is one |
| HyperLogLogs.HashRankMeans | crates/kaas-ui-core/src/analysis.rs:85-91 | a rank is one more than the leading zeros of the 52 bits below the index, and 64 where they are all zero |
| HyperLogLogs.IndexMeans | crates/kaas-ui-core/src/analysis.rs:85-87 | the register is chosen by the twelve bits above the 52 that the rank is taken from |
| HyperLogLogs.HyperLogLog.Offer | crates/kaas-ui-core/src/analysis.rs:79-97 | in place, one register keeps the larger of its rank and the new one and no other register changes |
| HyperLogLogs.RegisterIsTheLargestRank | crates/kaas-ui-core/src/analysis.rs:79-97 | a register is the largest rank of the items hashed to it, and 0 for none |
| HyperLogLogs.RegistersOfTheSameSet | crates/kaas-ui-core/src/analysis.rs:63-68 | order and repeats leave no trace: two streams of the same distinct items have the same registers |
| TopicAnalysis.CountersMean | crates/kaas-ui-core/src/analysis.rs:307-328 | offset and timestamp bounds are attained and hold every record; a negative timestamp is counted and bounds nothing |
| TopicAnalysis.ClocksMean | crates/kaas-ui-core/src/analysis.rs:316-319 | each clock is seen exactly when some record was stamped by it, and every event that is no record is a spoiled batch |
| TopicAnalysis.HoursMean | crates/kaas-ui-core/src/analysis.rs:329-331 | an hour's exact count is the number of stamped records in it, and an hour is there only if there is one |
| TopicAnalysis.HourChart | crates/kaas-ui-core/src/analysis.rs:24-31 | the hour chart never exceeds the cap, is truncated exactly when the stream spans more hours than the cap, and shows every hour it holds exactly |
| TopicAnalysis.BooksBalance | crates/kaas-ui-core/src/analysis.rs:337-355 | every record's key and value is either sized or counted absent, and the bytes scanned are the bytes sized while 64 bits hold them |
| TopicAnalysis.TotalsAreTheJoin | crates/kaas-ui-core/src/analysis.rs:425-433 | for any interleaving of partitions the totals are the join of the partition accumulators: sums, outer bounds, larger registers, added histograms and hours |
| TopicAnalysis.UntruncatedTotals | crates/kaas-ui-core/src/analysis.rs:323-335 | if the topic's chart is whole no partition's is truncated, and the partitions' charts add up to it |
| AnalysisBuilders.KeyRegisters | crates/kaas-ui-core/src/analysis.rs:337-343 | an accumulator's key registers are those of the keys it saw |
| AnalysisBuilders.ValueRegisters | crates/kaas-ui-core/src/analysis.rs:344-350 | and its value registers those of the values |
| AnalysisBuilders.OnlyMeans | crates/kaas-ui-core/src/analysis.rs:425-443 | a partition is fed its own records and its own spoiled batches, all of them and no others |
| AnalysisBuilders.Accumulator.Record | crates/kaas-ui-core/src/analysis.rs:307-356 | in place, every field of the accumulator becomes the fold of one more record |
| AnalysisBuilders.Accumulator.Malformed | crates/kaas-ui-core/src/analysis.rs:435-442 | a malformed batch is counted and changes no other field |
| AnalysisBuilders.TopicAnalysisBuilder.Record | crates/kaas-ui-core/src/analysis.rs:425-433 | in place, the totals take every record, the record's own partition takes it and no other partition changes |
| AnalysisBuilders.TopicAnalysisBuilder.Malformed | crates/kaas-ui-core/src/analysis.rs:435-442 | a batch that would not decode is counted against the totals and the partition it covered |
| AnalysisBuilders.TotalsJoinPartitions | crates/kaas-ui-core/src/analysis.rs:397-443 | after any stream the totals object's fields are the join of the partition objects' fields, and the hour charts agree if the totals' is whole |
| Rings.Shared.Push | crates/kaas-ui-api/src/streaming.rs:106-127 | the locked part of a push keeps the newest items up to the capacity, evicts one exactly when full, counts it, and takes nothing once the receiver is gone |
| Rings.Shared.Take | crates/kaas-ui-api/src/streaming.rs:152-167 | the locked part of a receive takes the oldest item and nothing else |
| Rings.StepKeepsWindow | crates/kaas-ui-api/src/streaming.rs:69-79 | each step keeps the window: the queue is the newest accepted items, every older one was received in push order or dropped and counted |
| Rings.StepKeepsAwake | crates/kaas-ui-api/src/streaming.rs:121-125 | no lost wake-up: each step keeps a receiver about to sleep, or asleep, with something to answer covered by a stored or owed wake-up |
| Rings.EveryRun | crates/kaas-ui-api/src/streaming.rs:69-186 | both laws hold in every state of every interleaving of push, notify, receive, cancel and drop steps |
| Rings.WakeUpsAreUsedOnce | crates/kaas-ui-api/src/streaming.rs:106-186 | a push and the sender's going each make one wake-up, a receiver uses one up to look again, and no other step makes any |
| Rings.WakeUpsAreEarned | crates/kaas-ui-api/src/streaming.rs:106-186 | so in every interleaving there are no more wake-ups than pushes accepted and senders gone |
| Rings.Conservation | crates/kaas-ui-api/src/streaming.rs:151-172 | dropped, received and queued items add up to the accepted ones, and once the end was answered none is queued |
| Rings.EveryScheduleAnswers | crates/kaas-ui-api/src/streaming.rs:151-167 | however its own steps and the owed notifications are interleaved, a receive with something to answer answers it: no schedule outlasts its work, none gets stuck before the answer, and the answer is the oldest item or the end |
| Rings.QueuedItemsAreReceived | crates/kaas-ui-api/src/streaming.rs:174-179 | after the sender is dropped every queued item is received in order before the end |
| RingClosing.ShortfallAfterTheDrop | crates/kaas-ui-api/src/streaming.rs:139-148 | after the receiver's drop one wake-up serves one waiting call, and each call that gives up having looked serves another, in every continuation |
| RingClosing.TwoCallsCanWait | crates/kaas-ui-api/src/streaming.rs:139-148 | a run in which two calls to `closed` are both waiting, so the case the drop serves short is reached |
| RingClosing.EveryCallReturnsIff | crates/kaas-ui-api/src/streaming.rs:139-148 | after the receiver's drop every schedule comes to an end, and at the end every call to `closed` has returned, if and only if at most one call was waiting; with more, in no schedule do all return |
| RingClosing.SecondCallWaitsForever | crates/kaas-ui-api/src/streaming.rs:139-148 | with two calls waiting at the drop, one is never woken in any run in which nobody gives up |
| Governors.StreamGovernor.TakeSlot | crates/kaas-ui-api/src/streaming.rs:272-313 | an acquisition is refused only at the process ceiling, and otherwise does exactly the acquiring step on the kept state |
| Governors.StreamGovernor.DropPermit | crates/kaas-ui-api/src/streaming.rs:341-366 | a drop does exactly the dropping step, once or late |
| Governors.OnlyTheOldestMakesRoom | crates/kaas-ui-api/src/streaming.rs:291-299 | an eviction trips the latch of the caller's oldest stream and no other, leaves only newer ones counted, and touches no other caller |
| Governors.SixthStreamEvicts | crates/kaas-ui-api/src/streaming.rs:284-299 | an acquisition trips a latch if and only if its key names one caller who has five streams already; otherwise it only adds its stream |
| Governors.AcquireKeepsCount | crates/kaas-ui-api/src/streaming.rs:279-306 | an acquisition keeps the total equal to the streams counted and at most 50, and evicting never subtracts from zero |
| Governors.DropKeepsCount | crates/kaas-ui-api/src/streaming.rs:350-365 | a drop keeps the total exact, leaves no caller with an empty list, and never subtracts from zero |
| Governors.EveryRunIsCounted | crates/kaas-ui-api/src/streaming.rs:272-367 | in every run of acquisitions and drops in any order the total is the number of streams counted, at most 50, and no list is empty |
| Governors.EveryRunIsConsistent | crates/kaas-ui-api/src/streaming.rs:272-367 | in every run, until 2^64 streams were opened, ids are distinct and increasing per caller and an undropped permit's latch is tripped exactly when its stream is no longer counted |
| Governors.EvictedInRunIff | crates/kaas-ui-api/src/streaming.rs:272-367 | in any run the step that trips a latch is an acquisition below fifty by the one caller whose oldest of five streams it is, and no other |
| Governors.AllDropped | crates/kaas-ui-api/src/streaming.rs:360-365 | when every permit is dropped the total is zero and no caller is remembered |
| Governors.LatchesStayTripped | crates/kaas-ui-api/src/streaming.rs:698-699 | a tripped latch stays tripped in every run |
| Governors.EveryRunIsNumbered | crates/kaas-ui-api/src/streaming.rs:284-306 | in every run however long, past the wrap of the id counter, ids are the numbers of the streams modulo 2^64 and each caller's list is in the order of opening |
| Governors.DropReleasesItsOwnIff | crates/kaas-ui-api/src/streaming.rs:341-366 | a drop releases its own stream if and only if no older stream of the caller, opened a multiple of 2^64 before, is still counted; otherwise it releases that one |
| Governors.CallerCeiling | crates/kaas-ui-api/src/streaming.rs:192-193 | a key that always named one caller never counts more than five streams |
| Governors.SharedKeyIsNeverEvicted | crates/kaas-ui-api/src/streaming.rs:268-271 | in every run, whatever other callers do and whatever is dropped, no permit under a key that never named one caller has its latch tripped |
| Governors.SharedKeyFillsTheProcess | crates/kaas-ui-api/src/streaming.rs:268-271 | such a key is held to the process ceiling alone: it comes to hold all fifty slots |
| GlobMatching.Matches | crates/kaas-ui-auth/src/policy.rs:522-560 | the leftmost-greedy loop accepts exactly the language of the recursive glob definition, for every pattern and value |
| GlobMatching.GreedyStep | crates/kaas-ui-auth/src/policy.rs:542-556 | taking the leftmost occurrence of the next piece loses no match and invents none |
| GlobMatching.StarIsAnyText | crates/kaas-ui-auth/src/policy.rs:522-560 | a `*` anywhere in a pattern stands for any text: the value is cut so that the front matches what precedes it and the end what follows |
| GlobMatching.PatternMatchesItself | crates/kaas-ui-auth/src/policy.rs:528-560 | every pattern matches its own text |
| GlobMatching.LiteralPatternIsExact | crates/kaas-ui-auth/src/policy.rs:538-541 | a pattern without `*` matches the same text only |
| GlobMatching.AnchoredAtBothEnds | crates/kaas-ui-auth/src/policy.rs:525-527 | text before a `*` starts the value and text after it ends the value, without overlap |
| AccessPolicy.UnnamedIsExistential | crates/kaas-ui-auth/src/policy.rs:418-439 | asking without a name is asking whether some name is permitted |
| AccessPolicy.MayImpliesSees | crates/kaas-ui-auth/src/policy.rs:404-439 | whatever is permitted on a cluster is on a cluster the caller sees |
| AccessPolicy.PermittedIff | crates/kaas-ui-auth/src/policy.rs:181-197 | an access permits exactly what some permission of a role that reaches the cluster by name and every label is written for: its resource, an action it lists or that `all` stands for, and the names it matches |
| AccessPolicy.SeesMeans | crates/kaas-ui-auth/src/policy.rs:404-416 | a cluster is seen exactly by an administrator and by a role that reaches it with any permission |
| AccessPolicy.OtherResourcesAreClosed | crates/kaas-ui-auth/src/policy.rs:181-184 | roles with no permission on a resource permit nothing on it |
| AccessPolicy.NamedScope | crates/kaas-ui-auth/src/policy.rs:191-195 | roles scoped to names without `*` permit no other name of a resource that has names |
| AccessPolicy.UnnamedScope | crates/kaas-ui-auth/src/policy.rs:81-91 | on the one resource without names a scope is void |
| AccessPolicy.OutsideEverySelection | crates/kaas-ui-auth/src/policy.rs:261-274 | nothing is permitted or seen on a cluster each role misses by a label or by every name |
| AccessPolicy.AdminRolePermits | crates/kaas-ui-auth/src/policy.rs:237-248 | the administrator role permits on every cluster exactly the actions each resource has |
| AccessPolicy.AccessMeans | crates/kaas-ui-auth/src/policy.rs:251-258 | a role is a caller's exactly by a subject among its names, or by `*` once signed in |
| AccessPolicy.Permissions | crates/kaas-ui-auth/src/policy.rs:487-513 | the nested loops list an action on a resource exactly when it is reported there and some name is permitted it |
| AccessPolicy.SessionRebuild | crates/kaas-ui-auth/src/policy.rs:342-364 | a rebuilt session keeps every role it had, and has exactly those if and only if no role of another caller shares a name with one of its own |
| AccessPolicy.DistinctNamesRebuildExactly | crates/kaas-ui-auth/src/policy.rs:351-364 | with distinct role names a rebuilt access is the resolved one |
| AccessPolicy.DuplicateNamesWidenASession | crates/kaas-ui-auth/src/policy.rs:351-364 | two roles of one name: the rebuilt session may read what the login could not |
| AccessPolicy.DeletedRoleIsRevoked | crates/kaas-ui-auth/src/policy.rs:348-350 | deleting a role takes it, and nothing else, from sessions already open |
| AccessPolicy.AnonymousNeedsToBeNamed | crates/kaas-ui-auth/src/policy.rs:220-223 | `*` never covers the anonymous caller, who is covered only by a role that spells `anonymous` out |
| AccessPolicy.OpenDeploymentHoldsNoRole | crates/kaas-ui-auth/src/policy.rs:441-463 | without an identity provider everything may be viewed and no role permits anything |
| WriteGate.PermissionFollowsTier | crates/kaas-ui-auth/src/gate.rs:101-142 | the permission table and the tier table agree: only `delete` and `reset_offsets` destroy, only `edit` and `create` reconfigure |
| WriteGate.AgreesMeans | crates/kaas-ui-auth/src/gate.rs:127-142 | each operation asks for its own permission, on the connector, and a creation on the Connect cluster by id |
| WriteGate.ReadersWriteNothing | crates/kaas-ui-auth/src/gate.rs:285-302 | roles that list only reading authorize no operation, on any target and under any ceiling |
| WriteGate.VerbsAreTheOperations | crates/kaas-ui-auth/src/policy.rs:10-13 | the write verbs a role may list are exactly those some operation performs |
| WriteGate.Gate.Authorize | crates/kaas-ui-auth/src/gate.rs:304-328 | a grant is minted and recorded exactly when the caller signed in, is no administrator, the ceiling lists the operation and a role permits it; a refusal records nothing and names the first gate that failed |
| WriteGate.Gate.NextId | crates/kaas-ui-auth/src/gate.rs:331-339 | an id was drawn before exactly when the clock reads what it read a multiple of 2^64 drawings earlier, so for the first 2^64 it never was |
| WriteGate.GrantIdsAreUnique | crates/kaas-ui-auth/src/gate.rs:331-332 | no two grants of a process share an id, for the first 2^64 |
| WriteGate.GrantIdInjective | crates/kaas-ui-auth/src/gate.rs:331-332 | ids are equal only for the same counter value, whatever the wall clock did |
| WriteGate.GrantHasARole | crates/kaas-ui-auth/src/gate.rs:215-219 | every grant a gate gave has its record: a caller who signed in, a ceiling that listed the operation, and a role configured in the gate's policy, and enforced, that permits it on its target |
| ConnectWire.ConnectorPathIsReadBack | crates/kaas-ui-connect/src/writer.rs:105-122 | an independent reader of verb and path finds the operation and the exact connector name the writer meant, whatever characters the name holds |
| ConnectWire.EndpointsMean | crates/kaas-ui-connect/src/writer.rs:100-161 | each operation has its own verb and path under the connector, and nothing else is read as one |
| ConnectWire.LawfulPinsTheGrant | crates/kaas-ui-connect/src/writer.rs:8-10 | a request outside the dry run is lawful for one operation and one connector only |
| ConnectWrites.WriterFor | crates/kaas-ui-connect/src/writer.rs:84-95 | a writer is made only for the Connect cluster its grant names |
| ConnectWrites.ConnectWriter.Connector | crates/kaas-ui-connect/src/writer.rs:340-356 | a verb gets the granted connector's name exactly when the grant is for one of the verb's operations and names one |
| ConnectWrites.ConnectWriter.Send | crates/kaas-ui-connect/src/writer.rs:359-387 | one lawful request is logged and counted, the cached list is forgotten exactly when an answer came, and health changes exactly for workers that cannot be reached or refuse |
| ConnectWrites.ConnectWriter.Restart | crates/kaas-ui-connect/src/writer.rs:105-121 | sends exactly the granted restart with both flags in their own places, or is refused with nothing sent |
| ConnectWrites.ConnectWriter.RestartTask | crates/kaas-ui-connect/src/writer.rs:124-133 | sends exactly the granted task restart, or is refused with nothing sent |
| ConnectWrites.ConnectWriter.State | crates/kaas-ui-connect/src/writer.rs:136-148 | pause, resume and stop each send exactly their own operation, or are refused with nothing sent |
| ConnectWrites.ConnectWriter.ResetTopics | crates/kaas-ui-connect/src/writer.rs:152-161 | sends exactly the granted topic reset, or is refused with nothing sent |
| ConnectWrites.ConnectWriter.PrepareEdit | crates/kaas-ui-connect/src/writer.rs:163-196 | the prepared config is the submitted one with each `******` replaced by the current value, refused for one with nothing to keep or another name |
| ConnectWrites.ConnectWriter.PrepareCreate | crates/kaas-ui-connect/src/writer.rs:198-225 | accepted exactly with a class, no placeholder and no other name, and then unchanged |
| ConnectWrites.ConnectWriter.Validate | crates/kaas-ui-connect/src/writer.rs:233-260 | the dry run sends the prepared config with its own name, which is the granted one exactly when it was prepared for it; an answer that is no verdict is a fault |
| ConnectWrites.ConnectWriter.Edit | crates/kaas-ui-connect/src/writer.rs:262-277 | sends exactly the granted edit with a config prepared for this connector, or is refused with nothing sent |
| ConnectWrites.ConnectWriter.Create | crates/kaas-ui-connect/src/writer.rs:279-289 | sends exactly the granted creation, naming the granted connector, or is refused with nothing sent |
| ConnectWrites.ConnectWriter.Delete | crates/kaas-ui-connect/src/writer.rs:291-301 | sends exactly the granted deletion, or is refused with nothing sent |
| ConnectWrites.ConnectWriter.ResetOffsets | crates/kaas-ui-connect/src/writer.rs:303-314 | sends exactly the granted offset reset, or is refused with nothing sent |
| ConnectWrites.ConnectWriter.AlterOffsets | crates/kaas-ui-connect/src/writer.rs:316-327 | sends exactly the granted offset change with the offsets given, or is refused with nothing sent |
| ConnectWrites.EverySentRequestWasAuthorized | crates/kaas-ui-connect/src/writer.rs:1-10 | everything a client ever sent is read as its grant's operation on its grant's connector, and its process's gate gave that grant: its policy is enforced, a role configured there permits it, and the ceiling it was given under lists it |
| ConnectWrites.OpenDeploymentSendsNothing | crates/kaas-ui-auth/src/policy.rs:441-463 | where no policy is enforced no client sends anything, in any run |
| ConnectWrites.NothingBeyondTheCeilings | crates/kaas-ui-auth/src/gate.rs:280-302 | an operation that no ceiling given for this Connect cluster listed is performed by nothing that is ever sent |
| ConnectRoutes.Apply | crates/kaas-ui-api/src/routes/connect_write.rs:431-454 | the dispatch sends exactly one request: a worker reads it as the granted operation on the granted connector, and it carries the flags, the task, the config or the offsets that were asked for |
| ConnectRoutes.WhatGoes | crates/kaas-ui-api/src/routes/connect_write.rs:354-391 | what cannot be undone goes out only with the name typed; an edit sends the submitted config with each `******` restored from the worker's, a creation the submitted one, and a dry run the same under its own name |
| ConnectRoutes.WhoMayWrite | crates/kaas-ui-api/src/routes/connect_write.rs:335-348 | lookup and gate let through exactly the holder of a session, where roles are enforced and the entry lists the operation, with roles of that session to see the Connect cluster and to perform the operation there |
| ConnectRoutes.NobodyIsAnonymous | crates/kaas-ui-api/src/auth.rs:145-152 | without a session a caller has no role but those that spell `anonymous` out |
| ConnectRoutes.ConnectHandle.Perform | crates/kaas-ui-api/src/routes/connect_write.rs:323-469 | a request goes out exactly where lookup, gate, confirmation and config agree and, unless it is a dry run, the intent was written; an intent is recorded if and only if a write then goes out, under a grant of its own |
| ConnectRoutes.EveryWriteWasAskedFor | crates/kaas-ui-api/src/routes/connect_write.rs:3-14 | whatever a Connect cluster was ever sent was asked for by the holder of a session, permitted by a configured role that session names, listed by that cluster's own ceiling, and is in the audit if it changes anything |
| ConnectRoutes.CeilingBoundsEveryRun | crates/kaas-ui-core/src/registry.rs:569-577 | whatever a worker performs is on its own cluster's ceiling, and without a `writes` block nothing is ever sent |
| ConnectRoutes.OthersKeepValid | crates/kaas-ui-api/src/routes/connect_write.rs:331-347 | writes to the other Connect clusters of the process take none of this away |
| ConfigRedaction.NonInterference | crates/kaas-ui-connect/src/redact.rs:148-185 | two configs are shown alike if and only if they have the same keys and differ at most in secrets that neither gives as a reference |
| ConfigRedaction.RedactMeans | crates/kaas-ui-connect/src/redact.rs:154-185 | the redacted form has each key once, in order; a value reads `******` exactly where it is no reference and its key is declared or named a secret, and every other is shown verbatim |
| ConfigRedaction.DescribeMeans | crates/kaas-ui-connect/src/redact.rs:105-118 | a key is described by its longest dotted end that the plugin describes |
| ConfigRedaction.DeclaresSecretMeans | crates/kaas-ui-connect/src/redact.rs:93-103 | a key is declared secret exactly when it is, or ends on a `.` boundary in, a declared key |
| ConfigRedaction.DeclaredClosedUnderPrefix | crates/kaas-ui-connect/src/redact.rs:12-18 | a declared secret stays declared under any dotted prefix |
| ConfigRedaction.EndsSecretlyMeans | crates/kaas-ui-connect/src/redact.rs:33-49 | a key is withheld by its ending exactly when one of the listed endings closes its last segment or, for an ending with a dot in it, is its last two segments |
| ConfigRedaction.ProviderReferenceMeans | crates/kaas-ui-connect/src/redact.rs:137-146 | a value is shown as a pointer exactly when it is a reference with nothing but blanks around it, its provider named and no closing brace inside |
| ConfigRedaction.KeptUnderEveryPrefix | crates/kaas-ui-connect/src/redact.rs:120-135 | a key stays withheld by name under every dotted prefix exactly when its ending is what withholds it |
| ConfigRedaction.AwsRuleStopsAtAPrefix | crates/kaas-ui-connect/src/redact.rs:51-52 | the cloud-credential rule looks at the front of a key and is lost behind a prefix |
| ConnectWrites.Restore | crates/kaas-ui-connect/src/writer.rs:180-192 | the loop over the submitted keys restores every placeholder or finds one that cannot be |
| ConnectWrites.RedactThenEditIsIdentity | crates/kaas-ui-connect/src/writer.rs:163-167 | submitting what a redacted read showed gives back the current config, secrets included |
| ConnectWrites.EditingOneKey | crates/kaas-ui-connect/src/writer.rs:163-167 | changing one shown value changes exactly that key; setting `******` keeps the current value or is refused where there is none |
| ConnectWrites.DeletingOneKey | crates/kaas-ui-connect/src/writer.rs:174-195 | deleting a key from the form deletes exactly that key |
| ConnectClients.BackoffSchedule | crates/kaas-ui-connect/src/client.rs:656-661 | backoff is 1, 2, 4, 8, 16, 32 and then 60 seconds: monotone and between one second and a minute |
| ConnectClients.DueMeans | crates/kaas-ui-connect/src/client.rs:256-262 | a failure is believed for the scheduled seconds while workers are unreachable or rebalance, and a minute for every other fault |
| ConnectClients.WaitingMeans | crates/kaas-ui-connect/src/client.rs:255-266 | in any state a failure is believed until the wait for that many failures in a row is over, counted from the last answer |
| ConnectClients.FailuresAreSpread | crates/kaas-ui-connect/src/client.rs:255-266 | the k-th consecutive failed probe starts no earlier than the k-1 backoffs before it allow |
| ConnectClients.SinceIsTheFirstFault | crates/kaas-ui-connect/src/client.rs:602-608 | through any run of faults of any kinds `since` stays the instant of the first |
| ConnectClients.AfterFaultMeans | crates/kaas-ui-connect/src/client.rs:602-622 | a refusal or a misconfiguration is unusable, every other fault an outage with at least one attempt |
| ConnectClients.ConnectClient.RecordFault | crates/kaas-ui-connect/src/client.rs:602-631 | health becomes the fault's with `since` kept, and a probe that had succeeded is forgotten unless one is under way |
| ConnectClients.AttemptsMean | crates/kaas-ui-connect/src/client.rs:61-62 | after any calls in any order the reported attempts are the failed probes, at least one, if and only if the fault is a probe's or at most one probe has failed |
| ConnectClients.FaultAfterFiveProbes | crates/kaas-ui-connect/src/client.rs:602-620 | five failed probes and then a fault of a write: one attempt is reported |
| ConnectClients.ConnectClient.Probed | crates/kaas-ui-connect/src/client.rs:245-288 | answers from memory exactly when ready or inside the backoff; otherwise one request decides outcome, health and the run of failures, and health is ready exactly when the stored outcome is |
| ConnectClients.ConnectClient.Connectors | crates/kaas-ui-connect/src/client.rs:290-329 | serves the cached list while it is fresh; else answers with the probe's failure or the request's own outcome, and holds only a list that came |
| PercentEncoding.Segment | crates/kaas-ui-connect/src/client.rs:640-654 | the client's encoder writes exactly the percent-encoding of the bytes |
| PercentEncoding.Encode | crates/kaas-ui-serde/src/subjects.rs:214-234 | the registry's encoder writes the same, on every input |
| PercentEncoding.DecodedOfEncoded | crates/kaas-ui-connect/src/client.rs:644-654 | decoding an encoded segment gives back the bytes (section 2.1 of RFC 3986) |
| PercentEncoding.EncodedAlphabet | crates/kaas-ui-connect/src/client.rs:640-643 | the output holds only unreserved characters, `%` and hexadecimal digits, so never `/` or `?` (section 2.3 of RFC 3986) |
| PercentEncoding.UnreservedStays | crates/kaas-ui-connect/src/client.rs:644-654 | what needs no escape gets none (section 2.3 of RFC 3986) |
| PercentEncoding.SegmentedInjective | crates/kaas-ui-connect/src/client.rs:640-643 | two names never make one segment |
| PercentEncoding.DotSegments | crates/kaas-ui-connect/src/client.rs:644-654 | a segment is a dot segment (section 5.2.4 of RFC 3986) for the names `.` and `..` and no others |
| TokenCache.UsableBounds | crates/kaas-ui-core/src/federated.rs:449-459 | of any lifetime between half and four fifths is used, and the margin or half the lifetime is left before expiry |
| TokenCache.UsableOfWholeSeconds | crates/kaas-ui-core/src/federated.rs:454-459 | for whole seconds up to a day the window is four fifths, less where the margin asks, never under half, exactly |
| TokenCache.StatedLifetimeMeans | crates/kaas-ui-core/src/federated.rs:482-492 | the seconds an answer states are its lifetime up to a day, quoted or not, and a minute where none can be read |
| TokenCache.ParseU64Means | crates/kaas-ui-core/src/federated.rs:487-487 | a quoted number is read with or without a plus sign while it fits 64 bits, and anything else is none |
| TokenCache.QuotedLifetimeIsTheSame | crates/kaas-ui-core/src/federated.rs:477-492 | a lifetime sent as a string counts as the same number |
| TokenCache.FederatedTokenProvider.CurrentToken | crates/kaas-ui-core/src/federated.rs:258-297 | a returned token was fetched in this call or is unexpired when decided on, no exchange starts inside the usable window, and a failed one leaves the cache alone |
| TokenCache.ExchangesAreSpread | crates/kaas-ui-core/src/federated.rs:263-268 | every exchange after a successful one starts once its token was due for renewal |
| FleetConfig.Validate | crates/kaas-ui-core/src/config.rs:1259-1662 | the nested loops accept exactly the declaratively well-formed fleets: ids, references, claims |
| FleetConfig.WellFormedMeans | crates/kaas-ui-core/src/config.rs:1259-1662 | a fleet starts exactly when its environments can be told apart and start, one has a cluster, and two claims on one variable are of one kind and id |
| FleetConfig.EnvironmentMeans | crates/kaas-ui-core/src/config.rs:1293-1633 | an environment starts exactly when each entry is addressable and alone under its id, every reference names an entry there, and no Connect cluster is also inventory |
| FleetConfig.PathSafeIff | crates/kaas-ui-core/src/config.rs:1095-1104 | a path-safe id is one that is its own path segment, without a dot or a tilde |
| FleetConfig.ClaimedIff | crates/kaas-ui-core/src/config.rs:1317-1602 | the variables claimed are those its entries may read, all of them and no others |
| FleetConfig.TakeVariable | crates/kaas-ui-core/src/config.rs:1075-1093 | a claim succeeds exactly when no other owner holds the variable |
| FleetConfig.CheckRegistries | crates/kaas-ui-core/src/config.rs:1293-1402 | the registry block passes exactly with path-safe, unique ids and no clashing claim |
| FleetConfig.CheckClusters | crates/kaas-ui-core/src/config.rs:1404-1526 | the cluster block passes exactly with path-safe, unique ids, resolving registry references and no clashing claim |
| FleetConfig.CheckResources | crates/kaas-ui-core/src/config.rs:1545-1558 | the inventory block passes exactly with non-empty ids, each used once |
| FleetConfig.CheckConnects | crates/kaas-ui-core/src/config.rs:1560-1633 | the Connect block passes exactly with path-safe ids counted once, not also inventory, resolving references and no clashing claim |
| FleetConfig.OwnerInjective | crates/kaas-ui-core/src/config.rs:1083-1084 | the owner string tells kind and id apart |
| FleetConfig.VariableMeans | crates/kaas-ui-core/src/config.rs:1027-1045 | a credential is looked for under its name, environment and id in capitals |
| FleetConfig.SharedVariableIff | crates/kaas-ui-core/src/config.rs:1010-1014 | in a fleet that starts two claims share a variable exactly when credential, kind and id agree and their environments flatten alike |
| FleetConfig.VariablesAreUnshared | crates/kaas-ui-core/src/config.rs:1010-1014 | where no two environment ids flatten alike every credential variable belongs to one entry |
| FleetConfig.TwinEnvironmentsShareASecret | crates/kaas-ui-core/src/config.rs:1070-1093 | environments `a-b` and `a_b` with a cluster of one name start and share one password variable |
| FleetConfig.CredentialsAreNotOverrides | crates/kaas-ui-core/src/config.rs:1745-1756 | no credential variable is read as configuration |
| FleetConfig.IsOursMeans | crates/kaas-ui-core/src/config.rs:1745-1756 | configuration is the two roots of the file and what is nested under them in either spelling, in any case |

## Left out

- SizeSketches.SizeSketch.Quantile: the rank is computed over real numbers, because rounding of `q * count` in `f64` is not the point of the bound.
- AnalysisBuilders.TopicAnalysisBuilder.Record: counters and `bytes_scanned` are unbounded naturals, because 2^64 records or bytes are out of a scan's reach; the saturating size sums are modelled as they are.
- Governors.EveryRunIsConsistent: holds until 2^64 streams have been opened, because ids wrap there; `EveryRunIsNumbered` and `DropReleasesItsOwnIff` say what holds after that.
- ConnectClients.ConnectClient.Connectors: a list fetched while a write is answered may be stored after it was forgotten, because the fetch and the store are modelled as one step.
- ConnectClients.ConnectClient.RecordFault: the race for the probe's lock is not modelled, because each locked part is taken as one step; a fault finds the lock free or held by the probe that reports it.
- ConnectWire.ConnectorPathIsReadBack: a path is read as written, before a URL parser removes dot segments; `DotSegments` says which names that touches.
- ConnectRoutes.ConnectHandle.Perform: the reads behind a write (the worker's copy of a config, the plugin's definition, the topic view the lookup asks about) are given as their results, and an audit line holds its grant and outcome only, because the rest is rendering.
- FleetConfig.Validate: restricted to ids, references, claims and the presence of environments and clusters; urls, TLS, credential shapes, labels, codecs, `writes` blocks and roles are separate checks of one entry each.
- HyperLogLog's `estimate`, averages and the rendered JSON: floating point and formatting.
- The hash behind the registers: any function from bytes to 64-bit words.
- `plugin_keys` and `topics` caches: the same time-to-live as the connector list.
- The process-wide shutdown latch and `Shutdown::wait`: a watch channel with one value; only its being told once is modelled, on the streams' latches.
- HTTP, TLS, sockets, cookies, OIDC login, session encryption and the identity provider's claims.
- Error wording, the rendering of audit lines, capability projection, schema decoding, sizing advice and the web frontend: conversions and tables.
