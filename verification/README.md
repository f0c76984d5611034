# EasyFaaS: a verified model of its core

EasyFaaS runs functions in a pool of containers on a node. This project models the
parts of it whose correctness is not evident from reading one function:

* the **runtime scheduler** (`RuntimeEvents`, `RuntimePool`, `RuntimeManagement`,
  `SchedulerRuns`, `SchedulerSafety` and what follows from them): the eight-state life
  cycle of a container and its check-and-set events, first-fit occupation with
  scale-up, rollback and scale-down, and memory reservation, over every run of
  requests, node answers, connections and periodic tasks;
* the **shutdown protocol** of a function process and its runner, at the granularity of
  lock, channel and wait-group operations, and the reservation check at the granularity
  of its two lock sections;
* the **log path**: the in-place stream splitter, the bounded log store, the JSON string
  escaper and the log record;
* the address allocator, the expiring cache and the registry client above it, the
  resource names, and the path multiplexer.

Code that updates objects in place is modelled by classes whose methods are proved
against functions on values; the laws are lemmas about those functions and about runs
of steps. `dafny verify dfyconfig.toml` checks everything.

## What was found

Properties that do not hold as one might expect are kept with a concrete input and the
exact condition under which they do hold:

* The marked total equals the recorded reservations exactly on runs where no occupation
  takes a runtime that still records one. A failed cool-down keeps its reservation and a
  reconnecting runner does not clear it (`LeakExample.FailedCoolDownLeaks`); a runner that
  returns before a reset does the same and takes the counter past its limit as well
  (`LeakExample.ReconnectWithoutReset`).
* The counter of a runtime can exceed the limit of its commit when requests without a
  commit id have the larger quota (`UnnamedRequests`), and only then.
* Reclaiming is left through the end of a process that is still connected, and only so.
* The run channel is closed twice if a process connects between a runner's wait and its
  lock (`ShutdownProtocol.WindowPanics`), and only then.
* The split check-and-add of the reservation overcommits by up to K-1 requests.
* In a subnet that starts with a zero octet the address walk fails at once from the network
  address; from any other it never fails, and it never ends either unless a suitable address
  with a non-zero first octet lies above (`IpAllocator.ZeroOctetNeverFails`).
* `name:qualifier` is misread exactly when it starts with the caller's account id.
* Unregistering a path that was registered twice leaves it listed.

Where comments and code disagree the code is followed: the scale count applies a ceiling
to an integer quotient, so nothing is rounded up; rolling back zeroes a container's resources
instead of restoring them; registering a path twice replaces the handler although the
comments say it panics. The trailing slash that prefixes must have is not what makes the
priority order a longest-prefix match: `PathMux.PriorityIsLength` holds without it.

## Model

| member | source | states |
|---|---|---|
| `RuntimeEvents.CheckMeaning` | pkg/controller/rtctrl/event.go:35-279 | each check, written as a chain of early returns, accepts exactly under its meaning: occupy and merge an available cold container, retrieve an idle merged one or an idle reclaiming one last reset by the deadline, roll back a warming or merged one of that commit, mark a markable one, stop an idle warm one last used before the deadline, reset one silent since before the deadline that is abnormal or in WarmUp, Stopping, Stopped or Closed |
| `RuntimeEvents.RefusalReason` | pkg/controller/rtctrl/event.go:35-279 | a refusal for the state names the state and the states that would do, and comes before every other reason except, for a rollback, a foreign commit; a refused reset says so with the id |
| `RuntimeEvents.FieldsWritten` | pkg/controller/rtctrl/event.go:54-289 | field by field, which events write it and with what; unlisted fields are written by none |
| `RuntimeEvents.RollbackRestores` | pkg/controller/rtctrl/event.go:54-173 | take and roll back compose to the identity on state and concurrency; memory, processor share, commit id, mode and reservation flag come back cleared rather than restored |
| `RuntimeEvents.RuntimeInfo.CAS` | pkg/controller/rtctrl/event.go:292-313 | the check decides the outcome; on success the record is the event applied to it, on failure it is unchanged |
| `RuntimeEvents.RuntimeInfo.InitRuntime` | pkg/controller/rtctrl/runtime.go:48-96 | a process is accepted exactly when the record is cold or warming and has no commit or that commit; the record then is warm and used |
| `RuntimePool.PickSpec` | pkg/controller/rtctrl/runtime_dispatcher.go:225-276 | a first-fit scan picks increasing, hence distinct, indices, and passes over a match only when it is full |
| `RuntimePool.PickFull` | pkg/controller/rtctrl/runtime_dispatcher.go:225-276 | the scan finds as many as asked for exactly when that many match |
| `RuntimePool.ScaleUpSuccess` | pkg/controller/rtctrl/runtime_dispatcher.go:187-276 | success: the first available container has the written-out record of the request with the processor share of all containers taken, exactly the next scale count of available ones are merged, nothing else changed, and the marked total is raised by the request within the allocatable memory |
| `RuntimePool.ScaleUpFailure` | pkg/controller/rtctrl/runtime_dispatcher.go:187-276 | failure: the marked total and every state and counter are what they were; only the reservation fields of containers taken on the way are cleared |
| `RuntimePool.ScaleUpFailureRecords` | pkg/controller/rtctrl/runtime_dispatcher.go:225-276 | what a failure leaves, exactly: nothing changed when memory is short; every available container cleared of its reservation fields, and a new access time on the first, when containers are short |
| `RuntimePool.OccupySucceedsIff` | pkg/controller/rtctrl/runtime_dispatcher.go:187-276 | an occupation succeeds if and only if the memory fits and at least scale count + 1 containers are available |
| `RuntimePool.ScaleCount` | pkg/controller/rtctrl/runtime_dispatcher.go:246-246 | the ceiling, taken of the integer quotient, adds nothing: the count is the truncated quotient less one |
| `RuntimePool.ScaleCountCovers` | pkg/controller/rtctrl/runtime_dispatcher.go:246-246 | (count+1)*base <= mem < (count+2)*base, with equality on the left exactly when base divides mem |
| `RuntimePool.FirstWarmIsMarked` | pkg/controller/rtctrl/runtime_dispatcher.go:351-363 | a warm runtime is found if and only if one has room for the commit; it is then the first such one, gains exactly one holder and a new access time, and nothing else changes |
| `RuntimePool.ScaleDownOutcome` | pkg/controller/rtctrl/runtime_dispatcher.go:278-348 | refused, nothing changes; accepted, target and containers have the written-out records: a small target gives nothing back, a scaled-up one takes back exactly the first scale count of other retrievable containers if and only if there are that many, and otherwise takes all of them and recommends none |
| `RuntimePool.AsUint64Meaning` | pkg/controller/rtctrl/runtime_dispatcher.go:286-286 | a non-negative byte count is itself, a negative one its two's complement |
| `RuntimePool.SettleOutcome` | pkg/controller/task.go:126-261 | for every call and answer, container by container: use and reservation are given back exactly on the target of an answer without error; abnormal are those that were, the target of a failed cool-down, the recommended ones of a lost response and those a response names; nothing else changes |
| `RuntimeManagement.RuntimeManager.SetUpTo` | pkg/controller/rtctrl/runtime_dispatcher.go:253-268 | the loop that applies an event to up to n accepting runtimes acts on exactly the first-fit pick, each once |
| `RuntimeManagement.RuntimeManager.RollbackEach` | pkg/controller/rtctrl/runtime_dispatcher.go:365-375 | rolls back every container of a list |
| `RuntimeManagement.RuntimeManager.OccupyOne` | pkg/controller/rtctrl/runtime_dispatcher.go:212-221 | the plain loop occupies the head of the first-fit choice, or nothing when the choice is empty |
| `RuntimeManagement.RuntimeManager.OccupyColdWithScaleUp` | pkg/controller/rtctrl/runtime_dispatcher.go:225-276 | the two loops with the deferred rollback refine one simultaneous choice of target and merged containers |
| `RuntimeManagement.RuntimeManager.OccupyColdRuntime` | pkg/controller/rtctrl/runtime_dispatcher.go:187-223 | the whole call over shared objects refines the pure occupation, including the release of the marked memory on failure and the ids of the recommendation |
| `RuntimeManagement.RuntimeManager.FindWarmRuntime` | pkg/controller/rtctrl/runtime_dispatcher.go:351-363 | marks the first warm runtime with room for the commit, and only that one |
| `RuntimeManagement.RuntimeManager.RetireRuntime` | pkg/controller/rtctrl/runtime_dispatcher.go:278-348 | stop or reset, then retrieval of the scale count of containers; a retrieval that falls short keeps what it retrieved and recommends nothing |
| `RuntimeManagement.RuntimeManager.SettleJob` | pkg/controller/task.go:126-261 | the answer of the node agent releases what the target had reserved, or on failure leaves its reservation and flags the containers that failed |
| `RuntimeManagement.FirstChoice` | pkg/controller/rtctrl/runtime_dispatcher.go:225-276 | the first runtime to accept the occupation is the head of the first-fit choice |
| `RuntimeManagement.RestOfChoice` | pkg/controller/rtctrl/runtime_dispatcher.go:225-276 | scanning again from the start after the head is occupied finds exactly the rest of the choice |
| `SchedulerRuns.StepByChange` | pkg/controller/rtctrl/event.go:292-394 | every step of the scheduler changes every runtime by one of the allowed changes: an accepted event, a take-and-roll-back, a local event or a settlement |
| `SchedulerRuns.CallRemembers` | pkg/controller/task.go:126-149 | a call is sent exactly when the stop or reset is accepted, and notes memory, use and reservation its target has then and the containers given back |
| `SchedulerRuns.LocalStateWritten` | pkg/controller/rtctrl/runner.go:65-96 | what connections, releases and flags do to state, abnormal flag and counter, event by event |
| `SchedulerRuns.LocalFieldsWritten` | pkg/controller/rtctrl/runtime.go:48-96 | the same for use, commit, modes, liveness and user |
| `SchedulerRuns.LocalFieldsKept` | pkg/controller/rtctrl/runtime_dispatcher.go:437-447 | memory is synchronised only while unused and unreserved; access and reset times, reservation flag and identity are never written |
| `SchedulerRuns.LiveWritten` | pkg/controller/rtctrl/runtime.go:48-96 | a process is connected from its acceptance to its end |
| `SchedulerSafety.InvStep` | pkg/controller/task.go:105-261 | every step keeps: a warm runtime has a live process whose commit is the recorded one, and an outstanding call remembers its target's reservation exactly |
| `SchedulerSafety.InvRun` | pkg/controller/task.go:105-261 | the same after every run |
| `SchedulerSafety.InitialInv` | pkg/controller/rtctrl/runtimeinfo.go:26-49 | a fresh node satisfies the invariant |
| `MarkedAccounting.SlackStep` | pkg/controller/rtctrl/runtime_dispatcher.go:187-223 | conservation: a step changes marked minus recorded reservations by exactly what it overwrites |
| `MarkedAccounting.LostNothingIff` | pkg/controller/rtctrl/event.go:54-65 | a step loses memory if and only if it takes a runtime that still records some |
| `MarkedAccounting.SlackRun` | pkg/controller/rtctrl/runtime_dispatcher.go:378-422 | conservation over whole runs |
| `MarkedAccounting.MarkedCoversReservations` | pkg/controller/task.go:126-193 | in every state of every run the marked total is at least the sum of the recorded reservations and never negative, and it is equal if and only if every occupied runtime was unreserved when taken |
| `MarkedAccounting.CleanRunLosesNothing` | pkg/controller/task.go:158-178 | a run loses nothing if and only if it is clean |
| `MarkedAccounting.NeverOvercommittedIff` | pkg/controller/rtctrl/runtime_dispatcher.go:378-390 | with check and add in one step, in every state of every run of any number of requests the marked total is within the allocatable memory if and only if every report of the node's memory covers what is marked when it arrives |
| `MarkedAccounting.NeverOvercommitted` | pkg/controller/rtctrl/runtime_dispatcher.go:378-390 | in particular in every run with fixed allocatable memory |
| `LeakExample.ReconnectWithoutReset` | pkg/controller/rtctrl/runner.go:65-96 | a concrete run: the runner drops while the runtime is warming up and comes back before a reset; the next occupation takes the counter to two against a limit of one and leaves two units marked for one recorded |
| `LeakExample.FailedCoolDownLeaks` | pkg/controller/task.go:158-178 | a concrete run: the node call of a cool-down fails, process and runner go, a runner returns to an idle runtime and a second occupation overwrites the reservation that was never returned; two units are marked for one recorded while the counter is in order |
| `RuntimeLifecycle.NotAcquiredUntilRunner` | pkg/controller/rtctrl/runner.go:65-81 | from out of service or flagged abnormal, no step of any run acquires the runtime until a runner connects to it |
| `RuntimeLifecycle.StopTakesOutOfService` | pkg/controller/rtctrl/event.go:232-261 | a cool-down that is accepted puts the runtime out of service |
| `RuntimeLifecycle.ReclaimingForever` | pkg/controller/rtctrl/event.go:104-137 | once no process is connected, no run leaves Reclaiming |
| `RuntimeLifecycle.ReclaimingForeverIff` | pkg/controller/rtctrl/runtime.go:355-389 | Reclaiming has no exit if and only if no function process is connected |
| `RuntimeLifecycle.RequestReachesItsCommit` | pkg/controller/rtctrl/client.go:116-138 | after every run, a request with a commit id that marks a warm runtime or passes the last wait reaches a process that reported that commit |
| `RuntimeLifecycle.HeldMemoryIsFixed` | pkg/controller/rtctrl/event.go:54-65 | while a runtime stays reserved its recorded memory is what it was occupied with |
| `RuntimeLifecycle.ScaleDownMatchesScaleUp` | pkg/controller/rtctrl/runtime_dispatcher.go:314-348 | over every run in which the runtime stays reserved under the same base, its scale-down asks for exactly as many containers as its scale-up merged |
| `IdleTimes.CoolDownOnlyAfterIdle` | pkg/controller/rtctrl/event.go:219-250 | over every run: a cool-down is sent only if every request handed the runtime before the deadline |
| `IdleTimes.ResetOnlyAfterSilence` | pkg/controller/rtctrl/runtimeinfo.go:146-169 | over every run: a reset is sent only if every report of the runner lies before the deadline |
| `IdleTimes.GivenBackOnlyAfterTimeout` | pkg/controller/rtctrl/event.go:104-137 | over every run: a container being reclaimed is given back again only when its last giving back or reset is not after the reset deadline |
| `IdleTimes.StampsNeverGoBack` | pkg/controller/rtctrl/runtimeinfo.go:121-133 | no time stamp of a runtime goes back behind the clock of the run |
| `ConcurrencyBound.BoundedRun` | pkg/controller/rtctrl/event.go:182-224 | under uniform quotas and idle reconnections no run takes a counter above the larger of its commit's limit and that of requests without a commit, where a limit is max(1, quota) |
| `ConcurrencyBound.ConcurrencyWithinMost` | pkg/controller/invoke.go:363-409 | from a fresh node, for all requests: that bound, and zero in Cold, Merged, Reclaiming, Stopping and Stopped |
| `ConcurrencyBound.ConcurrencyWithinLimit` | pkg/controller/invoke.go:363-409 | when no request without a commit id marks a warm runtime, the counter never exceeds max(1, quota) of its commit |
| `UnnamedRequests.OwnLimitIff` | pkg/controller/rtctrl/runtime.go:48-96 | the commit's own limit bounds the counter in all runs if and only if requests without a commit have the smallest limit |
| `ConcurrencyBound.ColdIdleIff` | pkg/controller/rtctrl/runner.go:65-81 | every cold runtime of a run is idle if and only if every runner connected to an idle one |
| `ConcurrencyBound.RetiredThenIdle` | pkg/controller/rtctrl/event.go:253-289 | a stop or reset establishes that condition for the next runner, however the run of named requests goes on, unless a runner goes while a process is connected |
| `ConcurrencyBound.CounterCountsHolders` | pkg/controller/invoke.go:507-515 | until a stop, reset, retrieval or process end zeroes it, the counter is the acquisitions minus the releases |
| `ReservationRace.OvercommitBounded` | pkg/controller/rtctrl/runtime_dispatcher.go:378-390 | with check and add as separate steps, K callers of size at most S keep marked plus pending within allocatable + (K-1)*S in every interleaving, and a single caller never exceeds allocatable |
| `ReservationRace.OvercommitReached` | pkg/controller/rtctrl/runtime_dispatcher.go:378-390 | for every K and S an interleaving reaches that bound |
| `ShutdownProtocol.InvStep` | pkg/controller/rtctrl/runtime.go:90-150 | every step of every interleaving keeps the invariant tying the wait group to the loops still running and the channels to the incarnation |
| `ShutdownProtocol.OnlyPanic` | pkg/controller/rtctrl/runtime.go:355-389 | the one close that can panic is that of the run channel, exactly when a process connects while another is alive; stop and stopping channels close at most once |
| `ShutdownProtocol.ClosedAfterStopped` | pkg/controller/rtctrl/runner.go:84-96 | a runner shutdown that starts waiting while a process is alive sets Closed only after that process has set Stopped |
| `ShutdownProtocol.LosingRunnerLeaves` | pkg/controller/rtctrl/runner.go:84-96 | losing the runner while a process is alive starts such a wait |
| `ShutdownProtocol.WaitingUnderLock` | pkg/controller/rtctrl/runtime.go:355-389 | while a process shutdown waits under the lock nobody joins the wait group |
| `ShutdownProtocol.NoDeadlock` | pkg/controller/rtctrl/runtime.go:355-389 | from every state that holds the lock there is a run of the send loop and the shutdown alone that releases it |
| `ShutdownProtocol.NoPanicOutsideWindow` | pkg/controller/rtctrl/runtime.go:48-96 | no run panics in which no process connects between a runner's wait and its lock |
| `ShutdownProtocol.WindowPanics` | pkg/controller/rtctrl/runner.go:84-96 | every such connection can be continued to a panic |
| `ShutdownProtocol.WindowReachable` | pkg/controller/rtctrl/runner.go:84-96 | such a connection is reachable from a fresh runtime |
| `ShutdownProtocol.LiveProcessStops` | pkg/controller/rtctrl/runtime.go:227-272 | from every state with a connected process there is a run that ends it and leaves the runtime stopped |
| `ShutdownProtocol.WindowFreesReclaiming` | pkg/controller/rtctrl/runner.go:84-96 | through that window a process survives its runner, the next runner and a merge, so that even a reclaiming container is left |
| `LogSplitter.Dispatcher.Remove` | pkg/controller/rtctrl/log_dispatcher.go:114-116 | drops one byte in place and keeps the order of all others |
| `LogSplitter.Dispatcher.Scan` | pkg/controller/rtctrl/log_dispatcher.go:103-170 | the in-place scan agrees with the byte-at-a-time splitter at every position |
| `LogSplitter.Dispatcher.OnRead` | pkg/controller/rtctrl/log_dispatcher.go:68-205 | one read: the calls made and the unsent tail are those of the byte-at-a-time splitter |
| `LogSplitter.Dispatcher.Read` | pkg/controller/rtctrl/log_dispatcher.go:68-205 | for every fragmentation of the stream the calls and the tail are those of the byte-at-a-time splitter on all bytes read, and every read has room |
| `LogSplitter.FeedAllConcat` | pkg/controller/rtctrl/log_dispatcher.go:68-205 | the splitter does not depend on where its input is cut |
| `LogSplitter.RoomKept` | pkg/controller/rtctrl/log_dispatcher.go:68-77 | the tail is always shorter than the buffer and free of separators |
| `LogSplitter.ChunksWellCut` | pkg/controller/rtctrl/log_dispatcher.go:110-196 | every chunk is a line ending in its only newline, of at most one byte more than the buffer, or a separator-free end-of-request text |
| `LogSplitter.ChunksSpellStream` | pkg/controller/rtctrl/log_dispatcher.go:68-205 | nothing is lost, duplicated or reordered: chunks and tail spell the stream, dropped zero bytes and added newlines accounted for |
| `Utf8.EncodeDecode` | pkg/userlog/userlog.go:202-262 | decoding yields scalar values only, and encoding gives the bytes back |
| `Utf8.DecodeEncode` | pkg/userlog/userlog.go:202-262 | encoding a scalar value is undone by decoding, whatever follows |
| `Utf8.ValidIsEncoded` | pkg/userlog/userlog.go:202-262 | valid text is the encoding of scalar values |
| `Utf8.EncodedIsValid` | pkg/userlog/userlog.go:202-262 | and the encoding of scalar values is valid text |
| `JsonEscaper.WriteBytesAsString` | pkg/userlog/userlog.go:202-262 | the scanner that copies lazily writes what a rune-by-rune escaper writes |
| `JsonEscaper.ReadBack` | pkg/userlog/userlog.go:202-262 | a string reader after section 7 of RFC 8259 gets every byte back, stops at the closing quote, and sees U+FFFD for each invalid byte |
| `JsonEscaper.CleanIff` | pkg/userlog/userlog.go:202-262 | the round trip is exact if and only if the text is valid UTF-8 |
| `JsonEscaper.NothingUnsafe` | pkg/userlog/userlog.go:202-262 | no control byte, angle bracket or ampersand is written |
| `JsonEscaper.NoRawSeparator` | pkg/userlog/userlog.go:202-262 | U+2028 and U+2029 never appear raw at any position |
| `JsonEscaper.UnchangedIff` | pkg/userlog/userlog.go:202-262 | a text is written as it is if and only if it is valid and holds no control character, quote, backslash, angle bracket, ampersand or separator |
| `UserLogRecord.MarshalJSONBuf` | pkg/userlog/userlog.go:69-200 | the field-by-field writer with its comma flag writes the record of the present fields in order; it fails exactly for a year outside 0 to 9999, after the fields and their comma |
| `UserLogRecord.RecordIsOneLine` | pkg/userlog/userlog.go:69-200 | whatever the fields hold, a record has exactly one newline, at its end |
| `UserLogRecord.RecordReadsBack` | pkg/userlog/userlog.go:69-200 | reading a record gives every written key and value back, in order |
| `UserLogRecord.RecordRestoresEntry` | pkg/userlog/userlog.go:69-200 | looking the fields of a record up under their keys restores the entry, absent fields as empty or -1 and invalid bytes replaced |
| `UserLogRecord.RecordRoundTrip` | pkg/userlog/userlog.go:69-200 | for entries of valid UTF-8 the round trip is exact |
| `IpAllocator.AllocateIP` | pkg/funclet/network/allocate_ip_linux.go:34-113 | unless the subnet starts with a zero octet, the walk ends after one round, returns the first suitable address after the last one handed out, and fails if and only if the subnet has none |
| `IpAllocator.SuitableIff` | pkg/funclet/network/allocate_ip_linux.go:45-65 | a suitable address as ranges of numbers: strictly inside the subnet, not loopback, link-local, multicast or broadcast, and unknown to bridge, neighbour table and ping |
| `IpAllocator.IncreaseMeaning` | pkg/funclet/network/allocate_ip_linux.go:108-124 | an increment is a four-byte address exactly when its number needs four bytes; other bytes read as zero |
| `IpAllocator.ZeroOctetNeverFails` | pkg/funclet/network/allocate_ip_linux.go:108-124 | in a subnet that starts with a zero octet the walk from any other address than the network's cannot fail: it finds an address with a non-zero first octet above the last one, or goes on for ever |
| `IpAllocator.ZeroOctetFailsAtOnce` | pkg/funclet/network/allocate_ip_linux.go:64-75 | from the network address of such a subnet it fails at the first turn, whatever is free |
| `IpAllocator.ContainerNetwork.GetNewVeth` | pkg/funclet/network/network.go:94-120 | a pooled interface is reused before a new address is taken; owned addresses are conserved; failure changes nothing |
| `IpAllocator.ContainerNetwork.DeleteVeth` | pkg/funclet/network/network.go:126-141 | the first interface of the process moves to the end of the pool and no owned address is lost |
| `ExpiringCache.TestsAgreeIff` | pkg/util/cache/cache.go:36-41 | the two expiry tests in the code agree at all times if and only if the deadline is not negative |
| `ExpiringCache.StepShows` | pkg/util/cache/cache.go:69-246 | each operation answers like a plain map from keys to value and deadline, and keeps showing it |
| `ExpiringCache.CacheIsPlainMap` | pkg/util/cache/cache.go:949-966 | over every trace with a clock that never goes back, whatever sweeps it contains, all results are those of the plain map without a janitor |
| `ExpiringCache.JanitorUnobservable` | pkg/util/cache/cache.go:1094-1105 | removing every sweep from a trace changes no result |
| `ExpiringCache.Cache.Add` | pkg/util/cache/cache.go:110-120 | stores only over a missing or expired entry |
| `ExpiringCache.Cache.Replace` | pkg/util/cache/cache.go:124-134 | stores only over a live entry |
| `ExpiringCache.Cache.Get` | pkg/util/cache/cache.go:138-154 | finds exactly the live entries |
| `ExpiringCache.Cache.Increment` | pkg/util/cache/cache.go:205-246 | adds in the type of the live entry, any of the eleven integer types with its own wrap-around or a floating-point one, and keeps its deadline; a missing, expired or other entry is an error |
| `ExpiringCache.WrapMeaning` | pkg/util/cache/cache.go:205-246 | the stored integer is in the range of its type and differs from the true sum by a multiple of its modulus; a sum in range is exact |
| `ExpiringCache.StoredUntil` | pkg/util/cache/cache.go:69-154 | how long a stored entry is found for every duration and default, without showing in any other key |
| `ExpiringCache.SumMeaning` | pkg/util/cache/cache.go:205-246 | an increment keeps the type, is congruent to the true sum and in range, and exact when nothing overflows |
| `ExpiringCache.IncrementOutcome` | pkg/util/cache/cache.go:205-246 | when an increment succeeds or fails, and that it touches only the value of its entry |
| `ExpiringCache.RangeBounds` | pkg/util/cache/cache.go:205-246 | the ranges of the eleven integer types |
| `ExpiringCache.Cache.Listing` | pkg/util/cache/cache.go:1056-1071 | lists exactly the live entries |
| `ExpiringCache.Cache.DeleteExpired` | pkg/util/cache/cache.go:949-966 | the loop removes exactly the expired entries |
| `RegistryClient.CacheKeyInjective` | pkg/controller/function/cache.go:38-40 | cache keys are equal if and only if kind and key are |
| `RegistryClient.CacheKeyText` | pkg/controller/function/cache.go:26-40 | the keys as written |
| `RegistryClient.HitIff` | pkg/util/cache/cache.go:138-154 | a lookup hits with an object if and only if that object is the latest answer stored for that kind and key and is within its lifetime; it then has the kind asked for |
| `RegistryClient.HitWithinConfigured` | pkg/controller/function/cache.go:62-67 | a hit is exactly the latest answer stored within the expiration configured for the kind, within ten minutes for a kind without one, within the cache's default for zero, and ever for a negative one |
| `RegistryClient.StoreKeeps` | pkg/controller/function/cache.go:62-67 | storing an answer keeps cache and answer log consistent for every other key |
| `RegistryClient.SweepKeeps` | pkg/util/cache/cache.go:949-966 | time passing and janitor sweeps keep them consistent |
| `RegistryClient.FunctionServerClient.GetFunction` | pkg/controller/function/function_server.go:52-71 | a hit is the registry's latest servable answer for that name, a miss means there was none, errors are passed on and not cached |
| `RegistryClient.FunctionServerClient.GetAlias` | pkg/controller/function/function_server.go:73-92 | the same for aliases; an empty name is never cached |
| `RegistryClient.FunctionServerClient.GetRuntimeConfiguration` | pkg/controller/function/function_server.go:94-110 | the same for runtime configurations, always cached |
| `Brn.ParseIff` | pkg/brn/brn.go:79-104 | parsing accepts a text as a name if and only if the name prints as that text and has no colon in its first four fields |
| `Brn.StringUndoesParse` | pkg/brn/brn.go:79-104 | printing undoes parsing on every accepted text |
| `Brn.ParseUndoesStringIff` | pkg/brn/brn.go:79-104 | parsing undoes printing if and only if the first four fields have no colon |
| `Brn.RefusedIff` | pkg/brn/brn.go:79-86 | a text is accepted if and only if it has the prefix and at least five colons |
| `Brn.QualifierMeaning` | pkg/brn/function.go:166-188 | version is the qualifier exactly for $LATEST and numerals, alias exactly for other names, and each is empty otherwise |
| `Brn.ParseUndoesGenerateIff` | pkg/brn/function.go:45-102 | parsing undoes generating if and only if region and name have no colon |
| `Brn.AcceptedFunction` | pkg/brn/function.go:72-102 | an accepted function name prints back, and could have been generated if and only if it does not end in an empty qualifier |
| `Brn.BrnPatternIff` | pkg/brn/function.go:30-30 | reading the pieces between the colons is matching the full pattern |
| `Brn.PartialPatternIff` | pkg/brn/function.go:31-31 | reading the pieces between the colons is matching the short pattern |
| `BrnPatterns.FullPatternIff` | pkg/brn/function.go:30-30 | the reader of full names accepts exactly the texts matched by the regular expression as written |
| `BrnPatterns.PartialRegexIff` | pkg/brn/function.go:31-31 | the same for the short expression |
| `BrnPatterns.NamesIff` | pkg/brn/function.go:29-29 | the same for names and aliases |
| `BrnPatterns.VersionIff` | pkg/api/apiserver.go:29 | the same for versions |
| `Brn.FullForm` | pkg/brn/function.go:115-124 | a full name gives function, version and alias, whatever account asks |
| `Brn.BareForm` | pkg/brn/function.go:127-130 | a bare name is the function without version and alias |
| `Brn.AccountForm` | pkg/brn/function.go:139-147 | account:name:qualifier gives the same for that account or none, and an error for any other |
| `Brn.ShortFormIff` | pkg/brn/function.go:131-138 | name:qualifier gives the function if and only if the text does not start with the account id |
| `Brn.AccountNameIff` | pkg/brn/function.go:131-138 | account:name is read as such if and only if the text starts with the account id |
| `Brn.FormsAgreeIff` | pkg/brn/function.go:105-154 | full, account and short form agree for the owner if and only if the short form does not start with the account id |
| `Brn.RefusedNameIff` | pkg/brn/function.go:105-164 | a text is refused if and only if it matches neither pattern or names another account, and always with the same error |
| `PathMux.PriorityIsTotalOrder` | pkg/server/mux/pathrecorder.go:264-278 | the priority is irreflexive, transitive and total |
| `PathMux.SlashesCounted` | pkg/server/mux/pathrecorder.go:265-266 | the priority counts the slashes of the text |
| `PathMux.PriorityIsLength` | pkg/server/mux/pathrecorder.go:258-278 | among prefixes of one path, more slashes and then more characters is the same as longer |
| `PathMux.SortByPriority` | pkg/server/mux/pathrecorder.go:129-129 | the sorted keys are a permutation in descending priority |
| `PathMux.ArrangePrefixes` | pkg/server/mux/pathrecorder.go:128-135 | the snapshot's list holds exactly the registered prefixes with their handlers, highest priority first |
| `PathMux.PathRecorderMux.Refresh` | pkg/server/mux/pathrecorder.go:114-138 | the new snapshot says what the maps say |
| `PathMux.PathRecorderMux.Handle` | pkg/server/mux/pathrecorder.go:170-178 | registers and lists the path; a second registration replaces the first |
| `PathMux.PathRecorderMux.UnlistedHandle` | pkg/server/mux/pathrecorder.go:188-195 | registers without listing |
| `PathMux.PathRecorderMux.HandlePrefix` | pkg/server/mux/pathrecorder.go:204-216 | registers and lists a prefix; without a trailing slash it panics and changes nothing |
| `PathMux.PathRecorderMux.UnlistedHandlePrefix` | pkg/server/mux/pathrecorder.go:219-230 | the same without listing |
| `PathMux.PathRecorderMux.Unregister` | pkg/server/mux/pathrecorder.go:151-166 | removes path and prefix and the first listing |
| `PathMux.PathRecorderMux.NotFoundHandler` | pkg/server/mux/pathrecorder.go:141-148 | replaces the not-found handler |
| `PathMux.PathRecorderMux.ServeHTTP` | pkg/server/mux/pathrecorder.go:238-255 | scanning the snapshot picks the exact path, else the longest registered prefix, else the not-found handler |
| `PathMux.CurrentIsRegistered` | pkg/server/mux/pathrecorder.go:151-230 | after every history a path is registered exactly when its latest registration has not been withdrawn, and every prefix ends in a slash |
| `PathMux.RouteOverHistory` | pkg/server/mux/pathrecorder.go:238-255 | the dispatch rule stated over histories, with the current not-found handler read off the history |
| `PathMux.ListedCount` | pkg/server/mux/pathrecorder.go:151-216 | after every history a path is listed once per accepted listed registration, less one per unregistration that found a listing |
| `PathMux.StillListedIff` | pkg/server/mux/pathrecorder.go:157-163 | after unregistering, a path is still listed if and only if it was listed twice, although nothing serves it |
| `PathMux.ListedTwiceExample` | pkg/server/mux/pathrecorder.go:170-178 | a history that leaves such a listing |
| `LogStore.InvRun` | pkg/controller/rtctrl/logstore.go:192-217 | after every sequence of locked sections, buffered length plus remain is 4096 until close, closed means both streams ended, and the wait counter is 2 minus the ended streams |
| `LogStore.WaitOpensIff` | pkg/controller/rtctrl/logstore.go:350-418 | the counter never goes below zero and is zero if and only if each stream was ended by its own mark, by LogDone or by Close |
| `LogStore.NothingReopens` | pkg/controller/rtctrl/logstore.go:192-256 | whatever a call saw before it got the mutex still holds when it gets it; after Close nothing changes any more |
| `LogStore.SkippedChangesNothing` | pkg/controller/rtctrl/logstore.go:219-256 | a section left out on the strength of a test made without the mutex, at any earlier moment of any interleaving, would have changed nothing |
| `LogStore.HandedOutOnce` | pkg/controller/rtctrl/logstore.go:333-344 | after any sequence of sections the buffer is gone if and only if some call has closed the store |
| `LogStore.Stored` | pkg/controller/rtctrl/logstore.go:192-217 | which bytes are kept: everything offered while it fits; beyond that everything before the cut, the closed-off part at the cut, and every forced text after it |
| `LogStore.UnforcedBounded` | pkg/controller/rtctrl/logstore.go:192-217 | unforced text adds at most 4097 bytes in any run, and the buffer holds exactly those and the forced ones |
| `LogStore.BoundReached` | pkg/controller/rtctrl/logstore.go:209-216 | the extra byte does occur |
| `LogStore.LogStatStore.constructor` | pkg/controller/rtctrl/logstore.go:152-182 | an empty buffer with full budget and two streams to wait for |
| `LogStore.LogStatStore.AppendLogbuf` | pkg/controller/rtctrl/logstore.go:192-217 | the append with its cut and added newline, as one locked section |
| `LogStore.LogStatStore.SetDone` | pkg/controller/rtctrl/logstore.go:350-375 | a stream is taken off the wait group once, and the counter stays non-negative |
| `LogStore.LogStatStore.WriteStdLog` | pkg/controller/rtctrl/logstore.go:219-256 | refused after close; otherwise the end mark, then the append, then the file's answer |
| `LogStore.LogStatStore.WriteFunctionLog` | pkg/controller/rtctrl/logstore.go:258-285 | refused after close; otherwise the text is appended whole |
| `LogStore.LogStatStore.LogDone` | pkg/controller/rtctrl/logstore.go:377-394 | answers whether the wait group is open, after ending both streams if asked to |
| `LogStore.LogStatStore.CloseLocked` | pkg/controller/rtctrl/logstore.go:400-408 | a call that made its test before another closed the store gets an empty text and changes nothing; otherwise the buffered text |
| `LogStore.LogStatStore.Close` | pkg/controller/rtctrl/logstore.go:396-414 | uninterrupted, the first call gets the buffered text and opens the wait group, every later one is refused and changes nothing |

## Left out

- HTTP handlers, routers, options, REST clients, signing, metrics and log set-up.
- Container, cgroup, mount, netlink, iptables and ping calls: node answers, the neighbour table and ping replies are inputs.
- Used-resource accounting, the id-to-runtime map, statistics, load and init times.
- The project-id pool of `pkg/funclet/quota/xfs_quota.go` and the locking in `pkg/funclet/reset.go`, which unlocks containers it failed to lock.
- `bytefmt`, the other typed Increment and Decrement copies, eviction callbacks, and saving and loading of the cache.
- RuntimeManagement.RuntimeManager.OccupyColdRuntime: records are distinct objects; a runtime that shares the node's default resource record with others (`pkg/controller/rtctrl/runtime_dispatcher.go:128-132`) is not modelled.
- RuntimeManagement.RuntimeManager.SettleJob: the call to the node agent lies between two atomic steps; the deferred clean-up of one call is one step.
- SchedulerRuns.StepByChange: a dispatcher call is one atomic step; the periodic task has one outstanding call per target; a runner may go while a process is connected at any time, although the code lets that happen only in the window of `ShutdownProtocol.InWindow`, and a process connecting to a live one ends the controller.
- MarkedAccounting.MarkedCoversReservations: memory figures are unbounded integers, overflow of 63-bit byte counts is not modelled.
- ShutdownProtocol.InvStep: the HTTP stream mode and the wait group's own misuse panics are not modelled; a request being written is one step that ends.
- LogSplitter.Dispatcher.Read: the store takes a whole chunk or reports an error; partial writes and the routing of chunks by request id are not modelled.
- LogStore.LogStatStore.WriteStdLog: a call made of several locked sections is proved as one call; interleavings are covered by `LogStore.SkippedChangesNothing` and the lemmas over sequences of sections. The log file is an input.
- UserLogRecord.MarshalJSONBuf: the text of the time stamp is an input without characters that need escaping.
- IpAllocator.AllocateIP: proved for subnets that do not start with a zero octet; what the walk does on the others is `IpAllocator.ZeroOctetNeverFails` and `IpAllocator.ZeroOctetFailsAtOnce`.
- IpAllocator.ContainerNetwork.GetNewVeth: the same subnets as `IpAllocator.AllocateIP`.
- ExpiringCache.Cache.Increment: floating-point entries are added without rounding.
- RuntimePool.ScaleCount: the quotient is exact as a real number, while a float holds it exactly only up to 53 bits.
- RegistryClient.HitIff: the registry's answers and the clock are inputs; the clock does not go back.
- Brn.ParseUndoesGenerateIff: the digest that makes the account id is an input without a colon.
- PathMux.PathRecorderMux.ServeHTTP: the sorted listing for display, call-stack records and the handlers themselves; the sorting routine of the library is modelled by insertion.
