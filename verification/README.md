# gpu-ebpf-bridge: a verified model of the telemetry pipeline

The bridge polls NVML for per-process GPU samples, folds them, and publishes them in four
pinned BPF maps for eBPF consumers. This project models the three parts that interact over a
whole run, in the imperative form of the Go code, and proves what a consumer may rely on.

* **Sampler** (`sampler.dfy`, `sampler_laws.dfy`, `watermarks.dfy`, `delivery.dfy`,
  `delivery_guard.dfy`, `delivery_samples.dfy`, `delivery_witnesses.dfy`). `Real.ProcessSamples` joins the running-process list of each
  device with its utilization window, deleting memory entries as they are consumed, and keeps
  one watermark per device. The poller keeps a second one and passes its minimum down.
* **Fold** (`aggregation.dfy`, `aggregation_laws.dfy`). `Poller.tick` folds by (pid, device),
  then by pid, walking Go maps in an arbitrary order, narrowing to uint8 and summing in uint64.
* **Publication** (`store.dfy`, `publication.dfy`, `publication_laws.dfy`, `freshness.dfy`,
  `keys.dfy`, `poller.dfy`, `run_laws.dfy`). Data first, `gpu_meta` last, every update an atomic step that may fail, any
  LRU entry gone at any step, readers anywhere in between.
* **Mock backend** (`mock.dfy`, `mock_tick.dfy`, `decimal.dfy`).

`telemetry.dfy` holds widths, records and facts about sums and walks.

## How the model is set up

Methods of `Real`, `Bridge`, `Mock`, `Poller` and of the builder objects run the source's
loops over mutable fields; each is proved equal to a function of its inputs, its old state and
the order in which it happened to walk a map (a ghost result). The laws are then proved of
those functions for every such order. NVML is an oracle: a `Probe` says what the two calls
answer for one device during one ProcessSamples call, together with everything the device has
recorded so far. `Input` does the same for a whole tick, and `Kernel` for the maps: which
requests are accepted, and which LRU entries are dropped while one is served. Each of the
functions is in turn pinned by a law that does not mention it, on the raw process lists, recorded
samples, snapshots and steps.

**Clocks.** ProcessSamples and the meta record are stamped with `UnixNano`, while
`include/gpu_types.h:48` announces CLOCK_MONOTONIC and nothing fixes the unit of NVML's sample
timestamps. The hypotheses are separate: `BoundsRise` (the bounds a caller hands down do not go
back, as the poller's do not under `StampsRise`), `StampsRise` (host stamps do not go back), `LogRises`
(a device's own timestamps rise from query to query, in any unit) and `StampsPrecede` (what is
recorded after a query is timestamped after its stamp). Only the last three together, `SharedClock`,
say that host and device read one clock in one unit; they are asked for one device at a time and
only where named in the table. `Timed` is the writer's clock in the freshness theorems.

**What the proofs found.**

* Whatever the clocks, units and log, an answered query returns exactly the pending samples above
  its bound (`AnswerReturns`), so no sample is lost exactly when no query is answered after its
  bound has reached a pending one (`NoLossIff`); all this needs is that the bounds handed down do
  not go back. Either watermark may be to blame (`EitherMark`).
* The device's own watermark passes a sample recorded later with no newer timestamp, though the
  device answers every query (`RisingLogNeeded`). In a log that rises from query to query it
  passes none, and the losses are those to the poller's minimum (`RisingNoLossIff`).
* What the minimum has passed never comes back (`PassedIsLost`). With NVML in a coarser unit than
  nanoseconds a device that answers every query can lose all it records after the first tick
  (`SharedUnitNeeded`).
* On one clock the host can tell beforehand: a query is safe whatever the hidden log holds exactly
  when its bound is at most the larger of the device's last answer's stamp and its own watermark
  (`SafeForEveryLogIff`). A device that keeps answering, or that already has an entry in the
  poller's map, loses nothing to the minimum, so only its own watermark can lose it a sample
  (`ExactlyOnceIff`, `FailureToleranceIff`), and on a shared clock it loses none (`ExactlyOnce`,
  `FailureTolerance`). A device without an entry can lose samples to one hard failure even though
  it was queried successfully before (`EntryNeeded`).
* A soft error must mean "nothing newer". If it hides pending samples, the memory-only samples
  of the same tick still raise the poller's watermark past them, and they are lost with no hard
  failure anywhere (`HonestyNeeded`).
* A tick lowers the minimum exactly when a device without a watermark shows up below it
  (`MinimumDropsIff`); with one stamp per tick, exactly when the wall clock has stepped back below
  the minimum and such a device shows up (`CallLowersMinimumIff`).
* A pid whose devices cover all 256 low bytes is published with count 1 and a primary that
  depends on Go's map order. That is the only order dependence (`OrderIndependentIff`).
* MigInstance is the one field decided by sample order (`NoiseInvarianceIff`).
* A consumer whose reading is behind the writer's clock by some skew accepts records of true age
  between the skew and the skew plus the threshold, so it rejects the freshest ones
  (`AcceptsUnderSkew`). Reading the time before the record, which the C expression at
  `README.md:375` leaves open, is such a skew.

## Model

| member | source | states |
|---|---|---|
| Delivery.AtMostOnce | internal/nvml/real.go:244-287 | with no assumption on clocks, failures or the bound passed in, no recorded sample is returned more often than it was recorded, and every later bound of the device covers everything returned |
| Delivery.NoLossIff | internal/nvml/real.go:244-287 | for any caller whose bounds do not go back, whatever the clocks, units and log: the run returned exactly the covered part of the device's log, in order, if and only if no answered query's bound, the larger of both watermarks, had already reached a pending sample |
| Delivery.NoLossSinceIff | internal/nvml/real.go:244-287 | the same from any call of the run on |
| Delivery.AnswerReturns | internal/nvml/real.go:244-260 | an answered query returns exactly the pending samples above its bound |
| Delivery.RisingNoLossIff | internal/nvml/real.go:244-287 | in a log that rises from query to query, losses are exactly the samples the caller's minimum overtook |
| Delivery.EitherMark | internal/nvml/real.go:246-253 | a query's bound overtakes a pending sample if and only if the device's own watermark or the caller's minimum does: one of the two is to blame for every loss |
| Delivery.PollerBoundsRise | internal/poller/poller.go:295-318 | the poller is such a caller when host stamps do not go back, and its bound never exceeds the last stamp |
| Delivery.AnswerKeeps | internal/nvml/real.go:244-260 | in a log that rises from query to query, in any unit, those are the pending samples above the poller's minimum, although the bound mixes both watermarks |
| Delivery.PassedIsLost | internal/nvml/real.go:249-253 | in any unit and with any log, no sample timestamped at or below a minimum already reached is returned any more, however late it is recorded |
| DeliveryGuard.SafeForEveryLogIff | internal/nvml/real.go:244-255 | every run the host cannot tell from this one is complete for the device if and only if each answered query's bound was at most the larger of its last answer's stamp and its own watermark |
| DeliveryGuard.SafeQuery | internal/nvml/real.go:249-253 | such a bound overtakes nothing, whatever the log |
| Delivery.ExactlyOnce | internal/poller/poller.go:121-156 | on a shared clock, a device that never fails hard delivers its whole log, each sample once and in order, whatever the other devices do and although the bound mixes both watermarks |
| Delivery.ExactlyOnceIff | internal/poller/poller.go:121-156 | without assuming anything of the order of the log: a device that never fails hard delivers its whole log, once and in order, if and only if its own watermark never passed a pending sample |
| DeliverySamples.ExactlyOnceSamples | internal/nvml/real.go:262-302 | the same of the samples the poller gets: its utilization samples show the log one for one, all others are memory-only |
| DeliverySamples.HandedOver | internal/nvml/real.go:262-302 | over any run, with any failures, the samples handed over are one per recorded sample returned, in order, and memory-only ones |
| Delivery.FailureTolerance | internal/nvml/real.go:255-260 | on a shared clock, once the device has a poller entry, whatever it lost before, no later pattern of hard failures loses a sample: from then on exactly what its answers cover is returned, once and in order |
| Delivery.FailureToleranceIff | internal/nvml/real.go:255-260 | the same with an entry and any hard failures: losses since then are exactly those to the device's own watermark |
| Delivery.EntryHoldsBack | internal/poller/poller.go:295-318 | a pending sample is newer than the device's own poller entry, whatever order its log is in |
| Delivery.LossNeedsFailureWithoutEntry | internal/nvml/real.go:249-260 | a minimum that overtakes a pending sample belongs to a device with no poller entry whose previous query failed hard, whatever order its log is in |
| Delivery.LossIsFinal | internal/nvml/real.go:249-253 | with bounds that do not go back an overtaken sample never comes back: fewer samples returned than covered, at every later point |
| Delivery.MinimumNeverDecreases | internal/poller/poller.go:295-310 | if only host stamps do not go back, the minimum handed down never decreases, even as devices appear |
| Delivery.CallLowersMinimumIff | internal/poller/poller.go:295-310 | with no clock assumption, exactly when a call lowers the minimum: its stamp is below it and a device without an entry shows up |
| Delivery.RunWatermarks | internal/poller/poller.go:154-156 | after any run each poller watermark is the largest timestamp ever observed for its device, absent iff that is zero, and the bound is their minimum |
| DeliveryWitnesses.EntryNeeded | internal/poller/poller.go:121-124 | a real run in which a device answers, fails hard once without an entry, answers again, and has lost its only sample |
| DeliveryWitnesses.HonestyNeeded | internal/nvml/real.go:67-83 | a real run without hard failures of the device in which a soft error hiding a pending sample loses it |
| DeliveryWitnesses.SharedUnitNeeded | internal/nvml/real.go:220-253 | a real run without any failure of the device in which NVML's coarser unit loses its sample |
| DeliveryWitnesses.RisingLogNeeded | internal/nvml/real.go:281-287 | a real run without any failure or unit mismatch in which the device's own watermark loses a sample recorded later with an equal timestamp |
| Watermarks.WatermarkHistory | internal/poller/poller.go:312-318 | from nothing, each watermark is the maximum of the history of its device, pid-0 samples included |
| Watermarks.MinimumMonotone | internal/poller/poller.go:295-318 | a tick stamping everything with one time no earlier than any watermark cannot lower the minimum |
| Watermarks.MinimumDropsIff | internal/poller/poller.go:295-318 | for any samples, the minimum drops if and only if a device without a watermark has its latest sample below it |
| Watermarks.MinimumCanDrop | internal/poller/poller.go:295-318 | such samples exist |
| Sampler.Real.ProcessSamples | internal/nvml/real.go:215-305 | output, watermarks and map walks of one call are those of the sweep over devices |
| Sampler.Real.VisitHandle | internal/nvml/real.go:234-303 | one turn of the device loop: listing, bound, early exit on a hard failure, merge, watermark, memory-only samples |
| Sampler.ListRunning | internal/nvml/real.go:237-242 | the memory map after recording the running processes of a device |
| Sampler.MergeUtilization | internal/nvml/real.go:262-280 | each sample consumes its key's memory entry; the largest timestamp is found |
| Sampler.EmitIdle | internal/nvml/real.go:291-302 | in any walking order, this device's remaining entries are emitted and deleted, others kept |
| SamplerLaws.MemoryConserved | internal/nvml/real.go:230-302 | per device, stated on the process list itself: memory sums agree with what the list last says of each pid, each such value is carried by exactly one sample, nothing is left; a hard-failed device emits nothing, under no device |
| SamplerLaws.LastListingWins | internal/nvml/real.go:238-242 | the listing holds each pid's last listed value |
| SamplerLaws.BusyCarries | internal/nvml/real.go:267-280 | of a pid's several utilization samples the first carries its memory and every later one carries none |
| SamplerLaws.WindowEmitted | internal/nvml/real.go:255-302 | a device's samples are its window in order, one each with its pid and utilizations, then memory-only samples, all with the call's time and no MIG instance |
| SamplerLaws.SampleStamped | internal/nvml/real.go:220-300 | every sample of a call carries the call's one time and MIG instance 0 |
| SamplerLaws.DevicesInOrder | internal/nvml/real.go:234-303 | a call's samples come device by device |
| SamplerLaws.SweepShaped | internal/nvml/real.go:234-303 | every device contributes what its own probe alone determines; leftovers belong to hard-failed devices only |
| SamplerLaws.EndToEnd | internal/nvml/real.go:234-303 | stated on the process lists and logs: the keys a tick writes are the non-zero pids in either list of a device not failing hard; memory is what the list last says, zero if unlisted; utilizations are maxima over the samples newer than both watermarks; time is the call's and the MIG instance 0 |
| AggregationLaws.FoldMeaning | internal/poller/poller.go:158-201 | one entry per non-zero (pid, device), each field the maximum over its samples, MigInstance the first |
| AggregationLaws.DetailMeaning | internal/poller/poller.go:214-226 | each detail record is the direct record of its key over the raw samples |
| AggregationLaws.Refinement | internal/poller/poller.go:150-276 | for every sample list and walking order, exactly the non-zero pids seen get a record, and it is the direct one: maxima, latest time, wrapped sum over devices of the largest memory, device count |
| AggregationLaws.PublishedMeaning | internal/poller/poller.go:204-276 | each per-pid record is the aggregate of that pid's detail records |
| AggregationLaws.OrderIndependentIff | internal/poller/poller.go:214-276 | all walking orders publish the same record iff the pid's devices do not cover all 256 low bytes |
| AggregationLaws.SentinelSound | internal/poller/poller.go:255-272 | device numbers below 255: count exact and at least 1, 0xFF iff several devices, else the unique device |
| AggregationLaws.SumIsExact | internal/poller/poller.go:242 | at most 16 devices below 2^60 bytes each: the wrapping total is the true sum |
| AggregationLaws.NoiseInvarianceIff | internal/poller/poller.go:158-201 | permuting, duplicating and adding pid-0 samples changes nothing iff samples of one key agree on MigInstance |
| PublishedStore.Bridge.UpdateMeta | internal/maps/maps.go:98-103 | one atomic attempt on the meta record, replacing it exactly when the kernel accepts; nothing else changes |
| PublishedStore.Bridge.UpdateDevice | internal/maps/maps.go:105-109 | one atomic attempt, replacing the slot exactly when the kernel accepts and the index is below 16; nothing else changes |
| PublishedStore.Bridge.UpdatePerPid | internal/maps/maps.go:111-114 | the entries the kernel drops go, then one atomic attempt replaces the pid's record exactly when it accepts; nothing else changes |
| PublishedStore.Bridge.UpdatePerPidPerDevice | internal/maps/maps.go:116-121 | the same on the u64-keyed map, which keeps decoding to the (pid, device) store |
| PublishedStore.Bridge.DeletePerPid | internal/maps/maps.go:123-130 | succeeds exactly when the entry is missing or the kernel accepts; the entry is then gone, and otherwise nothing changes |
| PublishedStore.Bridge.DeletePerPidPerDevice | internal/maps/maps.go:132-140 | the same on the u64-keyed map |
| Keys.ShiftOrIsPack | internal/maps/maps.go:142-146 | bit by bit, shift-or is the key the store uses, and shift and mask are its decoding, for every pair and every u64 |
| Keys.PackUnpack | internal/maps/maps.go:142-146 | decoding an encoded pair gives the pair |
| Keys.UnpackPack | cmd/gpu-ebpf-bridge/dump.go:101-104 | encoding a decoded u64 gives the u64 |
| Keys.StoreIsomorphism | internal/maps/maps.go:116-146 | any sequence of keyed updates and deletes on the u64 map, decoded entry by entry, is the same sequence on a (pid, device) map |
| Publication.SurvivorsFaithful | internal/poller/poller.go:214-276 | under any evictions and failures, at any moment, every surviving entry is what the tick stamped on it computed for its key |
| Publication.ReaderGetsDirectRecord | internal/poller/poller.go:255-276 | a pid a reader finds carries the direct record over one tick's samples |
| Publication.PidZeroNeverPublished | internal/poller/poller.go:159-167 | a run never puts pid 0 into either map: maps without it, whatever else they hold at the start, never get it |
| PublicationLaws.MetaLast | internal/poller/poller.go:278-290 | whoever sees the meta record of tick k reads schema version 1, the number of devices, the time and the helper pid of that tick, and finds every write of ticks up to k already attempted |
| PublicationLaws.LastPidShows | internal/maps/maps.go:111-114 | a surviving per-pid entry holds the value and tick of the last successful write of its pid |
| PublicationLaws.LastDetailShows | internal/maps/maps.go:116-121 | the same for a detail entry |
| PublicationLaws.LastDeviceShows | internal/maps/maps.go:105-109 | a device slot holds the metrics and tick of the last successful write to it |
| PublicationLaws.FoundDeviceIff | internal/maps/bpf/gpu_types.bpf.c:39-45 | a device slot is filled if and only if some step put it |
| PublicationLaws.FoundPidIff | internal/maps/bpf/gpu_types.bpf.c:47-61 | a pid is found if and only if some step put it and no later eviction or delete takes it |
| PublicationLaws.FoundDetailIff | internal/maps/bpf/gpu_types.bpf.c:47-61 | the same for a detail entry |
| PublicationLaws.ReaderSeesNoOlderPid | internal/poller/poller.go:113-290 | for every interleaving: after seeing the meta of tick k, a surviving pid record is no older than its last successful write at or before k, and is the direct record of its own tick |
| PublicationLaws.ReaderSeesNoOlderDetail | internal/poller/poller.go:113-290 | the same for a detail record |
| PublicationLaws.ReaderSeesNoOlderDevice | internal/poller/poller.go:113-290 | the same for a device slot, which is then always found and holds a snapshot of that device from its own tick |
| PublicationLaws.LastMetaShows | internal/poller/poller.go:278-290 | the visible meta record is that of the last tick whose meta write succeeded |
| Freshness.AcceptsIff | README.md:372-376 | exactly when the uint64 age test accepts, for both clock orders |
| Freshness.AcceptedMeansFresh | internal/poller/poller.go:278-290 | on one clock, a reader accepts exactly when some meta record put was stamped within the threshold; by that stamp all data writes of the tick it sees and of earlier ticks had been attempted, and the record was put between stamp and reading |
| Freshness.AcceptsUnderSkew | README.md:372-376 | for every skew between the writer's clock and the reader's reading, exactly which true ages are accepted |
| PublicationLaws.CrossMapAgreement | internal/poller/poller.go:214-276 | with no per-pid update failing and no eviction, after every tick both maps hold the same pids, each aggregate summarises the details of its own tick and all other details of the pid are older |
| PublicationLaws.TickEffect | internal/poller/poller.go:214-286 | attempting a whole plan successfully overlays both per-pid maps with the tick's records, leaves each snapshotted device's last snapshot in its slot and the other slots alone, and puts the tick's meta record |
| PollerLoop.FoldWindow | internal/poller/poller.go:150-201 | the map of builder objects, one unshared object per key, shows the fold of the samples |
| PollerLoop.WriteDetails | internal/poller/poller.go:212-253 | in any walking order, one detail write per key and one unshared builder per pid showing the grouping |
| PollerLoop.WriteAggregates | internal/poller/poller.go:255-276 | one write per pid of its finished record |
| PollerLoop.AggBuilder.Record | internal/poller/poller.go:258-272 | the finished record: count never 0, exact up to 255 low bytes, sentinel exactly when above 1 |
| PollerLoop.Poller.MinLastSeen | internal/poller/poller.go:295-310 | the minimum watermark, zero when there is none, in any walking order |
| PollerLoop.Poller.AdvanceLastSeen | internal/poller/poller.go:312-318 | one watermark becomes the larger of itself and the timestamp, no other changes |
| PollerLoop.Poller.Tick | internal/poller/poller.go:107-293 | Devices failing changes nothing; otherwise the whole plan is attempted, meta last, with no request to the kernel beyond it, on the samples newer than the minimum, and the watermarks observe them all |
| PollerLoop.Run | internal/poller/poller.go:77-105 | exactly one tick, and one sampler call, for each input whose Devices call succeeds, in order, with its stamps, probes and snapshots; the maps saw those ticks' plans and no other request; watermarks, samples and calls are those of a poller-driven run |
| RunLaws.LiveSays | internal/poller/poller.go:107-111 | those inputs are all the ones whose Devices call succeeds, once each and in order |
| RunLaws.UndisturbedRun | internal/poller/poller.go:112-290 | for a kernel that accepts everything and drops nothing, every update in range succeeds and the two per-pid maps agree after the run |
| RunLaws.RunDeliversAll | internal/poller/poller.go:77-105 | from facts about the inputs alone: a device on the host's clock, honest and never failing hard, has all it recorded among the samples the ticks folded, each once and in order, and its other samples there are memory-only |
| RunLaws.RunToleratesFailures | internal/poller/poller.go:77-105 | for inputs on one clock and soft errors that hide nothing: once the device has an entry nothing more is lost, whatever was lost before; when it also says "nothing here" only with nothing recorded since its last answer, that is all it had recorded by then |
| RunLaws.ReturnedIsPublished | internal/poller/poller.go:150-276 | over any run, with any failures and clocks: for every sample returned for a process some tick writes per-pid and detail records at or above it in every utilization |
| RunLaws.RecordedIsPublished | internal/poller/poller.go:150-276 | from facts about the inputs alone, that is every sample the device recorded for a process |
| RunLaws.PublishedIsRecorded | internal/poller/poller.go:150-276 | over any run, every published SM or memory utilization above zero is exactly that of a sample some device recorded for the process |
| RunLaws.RunMinimumRises | internal/poller/poller.go:295-310 | for inputs with non-decreasing stamps the minimum of the run never decreases |
| MockBackend.Mock.Init | internal/nvml/mock.go:59-87 | defaults are filled in; device i has its number, 80 GiB and a UUID that is MOCK- and i in sixteen digits, or as many as it has; UUIDs are pairwise distinct |
| MockBackend.Mock.ProcessSamples | internal/nvml/mock.go:142-180 | error before Init, nothing for a caller past the clock, else the whole grid, pids wrapping at 2^32 |
| MockTick.MockTickRecord | internal/nvml/mock.go:158-179 | process j of device i is published with count 1, primary i and 256 MiB + j * 128 MiB |
| MockTick.MockPidCountIff | internal/nvml/mock.go:158-179 | a tick publishes exactly N * P pids iff the pid range stays within 32 bits |
| Decimal.LeftPad | internal/nvml/mock.go:199-208 | the digits read back as n; the length is the larger of the width and n's digit count |
| Decimal.DecimalUnique | internal/nvml/mock.go:199-208 | value and length determine the digit string |

## Left out

- NVML and go-nvml themselves: each call is an oracle with success, soft error or hard error. That go-nvml hands back no samples unless the call succeeds, that a successful query returns the recorded samples newer than the bound in recording order, and that NVML's sample buffer drops nothing are assumptions of the model; so is that deleting a missing map key is answered with "no such key".
- PublishedStore.Replay: a run starts from empty maps. What pinned maps keep over a bridge restart is modelled for pid 0 only, because a bridge that dies in the middle of a tick leaves an unfinished plan behind.
- Real.Init and Real.Close: the library reference counting is not modelled; handles are fixed for a run.
- Real.Devices and deviceSnapshotToMap: field-by-field copies; a snapshot keeps its index and a few metrics.
- bpffs, pinning, Open, Close, Unpin and the generated bindings: a map update is one atomic per-entry step.
- The kernel's LRU policy and the 4096-entry capacity: any entries may vanish at any step in the laws; in `Bridge` an oracle picks what an update of an LRU map drops.
- Mutexes: the poller calls the backend from one goroutine; only map readers run concurrently.
- Poller.Run's ticker, context and logging: a run is a sequence of ticks.
- Mock utilization sinusoids and snapshots: an arbitrary function gives the loads.
- Dump printing, flags, signals, workloads, and the README features not present in the code (refusing a second bridge, `--force`).
