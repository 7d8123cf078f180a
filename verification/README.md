# The observant agent, modelled in Dafny

The observant agent samples a host and its containers once per interval, writes the samples as
InfluxDB line protocol, and posts each batch to an ingest endpoint. This project models the parts of
the agent whose behaviour spans many steps, and proves what they keep over every run.

`dafny verify dfyconfig.toml` checks the whole project.

| files | what they model |
|---|---|
| `Wrappers`, `Bytes` | options; byte strings, Go's string order, decimal numbers as text |
| `TagSet`, `LineFormat`, `LineParser`, `RoundTrip`, `WholePoints`, `Lookalikes` | the text of a batch, a reader for it, what the reader gives back, by the points alone, and what no reader can give back |
| `Encoder` | the encoder object: one growing byte array, reused over the cycles |
| `DeadlineGuard` | `deadline`, `begin`, `end` as interleaved steps of a caller and workers that may never return |
| `StuckMounts` | the guard and the mounts together: a mount whose read never returns |
| `Disks`, `Notes`, `Cpu`, `Collector` | the mount state machine, the rate limit on timeout reports, the CPU percentages, and the collector object that updates its maps |
| `PushModel`, `PushRuns`, `PushTrace`, `PushVerdicts`, `PushOutcomes`, `Pusher` | the retry queue: a specification over a virtual clock and an arbitrary endpoint, what holds on all its runs, and the object that meets it |
| `DockerModel`, `DockerFanout`, `InspectSchedule`, `DockerCycles`, `DockerStays`, `DockerResults`, `DockerClient` | the container client: the goroutines under the semaphore, the inspect schedule, the restart cache, and the object |
| `Agent` | the agent: one encoder and one pusher that share byte slices |

How the outside enters: an HTTP attempt is a reply and a duration, both chosen freely for each query
(`PushModel.World`); a mount read, a stats call and an inspect call are arguments. A context is the
instant at which it ends. When a sleep and a context end at the same instant, the world decides.

An attempt is rejected for good on 4xx codes other than 408 and 429, and delivered on 2xx; every other
answer, and a transport error, is a failure for now (internal/push/push.go:251-254, 278-287).

Two facts about the code that the results make explicit:

- A line feed or carriage return in a name becomes a plain, unescaped space, so a batch cannot read
  back exactly when a name holds one. `RoundTrip.BatchRoundTrip` states the exact condition
  (`Faithful`): it holds if and only if the measurement, the written tags and the written field keys
  of each accepted point have no line end, and no field has a value of a type that the encoder does
  not know (such a field is written with no value). String values need no condition; their line ends
  come back as spaces. `Lookalikes` shows that this is a loss of the format and not of the reader.
- METRICS.md:303-305 says that only stopped containers are inspected. The code inspects running ones
  too, on a schedule (internal/docker/docker.go:427-455). The model follows the code. The configured
  gap is a lower bound, not the exact gap: `InspectSchedule.NextInspect` gives the exact one.

## Model

| member | source | states |
|---|---|---|
| Bytes.LessIsByteOrder | internal/lineproto/lineproto.go:86 | the order of keys is decided by the byte at the first position where they differ, and a proper prefix comes first |
| TagSet.StableSortSorts | internal/lineproto/lineproto.go:86 | the sort orders the tags by key in byte order and keeps the order of equal keys |
| TagSet.StableSortUnique | internal/lineproto/lineproto.go:86 | a tag list has one stable sort only, so the model does not depend on the algorithm of `sort.SliceStable` |
| TagSet.EmittedRefinesMap | internal/lineproto/lineproto.go:75-99 | the written tags have strictly increasing keys, no empty key or value, and exactly the bindings of the last-wins map of the base tags and the point's tags |
| TagSet.IncreasingUnique | internal/lineproto/lineproto.go:75-99 | a last-wins map has one strictly increasing list of tags only |
| TagSet.EmittedEqualIffSameMap | internal/lineproto/lineproto.go:75-99 | two tag lists are written alike if and only if they mean the same last-wins map |
| LineFormat.LineFraming | internal/lineproto/lineproto.go:88-121 | a line has one newline, at its end, and no carriage return, for all strings |
| LineFormat.BatchFraming | internal/lineproto/lineproto.go:61-140 | a batch is empty or ends in a newline, has one newline per accepted point and no carriage return, and is empty only without an accepted point |
| RoundTrip.ReadNameEscaped | internal/lineproto/lineproto.go:189-215 | reading undoes the escapes of all three classes, up to any byte that ends a text of the class; line ends in strings come back as spaces |
| RoundTrip.TokenOf | internal/lineproto/lineproto.go:152-179 | the text of a number or a boolean is one token that classifies as its normal value; an unsigned value that fits is a signed one |
| RoundTrip.ReadLineText | internal/lineproto/lineproto.go:61-122 | one line reads back as the measurement, the last-wins tags in key order, the valid fields in order and the optional time, and leaves the rest of the batch |
| RoundTrip.ReadBatchText | internal/lineproto/lineproto.go:61-122 | the text of any list of `Point` calls whose accepted points are faithful reads back as their meaning, in order |
| RoundTrip.BatchRoundTrip | internal/lineproto/lineproto.go:61-122 | the text of any list of `Point` calls reads back as the meaning of the accepted points, in order, if and only if these are free of line ends in names and of foreign value types |
| WholePoints.LineShowsEveryField | internal/lineproto/lineproto.go:61-150 | a call adds a line and a count exactly for a non-empty measurement with a field that has a key and a value other than nil, NaN or infinite; the line shows every such field, in order |
| WholePoints.BatchComesBack | internal/lineproto/lineproto.go:61-150 | nothing is lost: after any calls with clean arguments the batch reads back as one point for each call with a measurement and a finite number, boolean or string under a key, each with the same measurement, time and tag bindings and all of these fields in order |
| RoundTrip.TagsDecideTheLine | internal/lineproto/lineproto.go:75-99 | two faithful points that differ in tags only give the same line if and only if their last-wins maps are equal |
| Lookalikes.UnfaithfulIsAmbiguous | internal/lineproto/lineproto.go:189-196 | every accepted point shares its bytes with another one of the same encoder, and their meanings differ exactly when the measurement, a written tag value or a written field key has a line end or a value has a foreign type; so no reader can give back both, whatever it knows of the base tags |
| Lookalikes.UnfaithfulKeysAreAmbiguous | internal/lineproto/lineproto.go:86-99 | likewise for tag keys, when the base keys have no line end and the written keys stay in order with line feeds and carriage returns swapped: the point with the swapped keys has the same bytes, and another meaning exactly when a written key has a line end |
| Lookalikes.LineFeedIsLost | internal/lineproto/lineproto.go:193-196 | one concrete accepted point, with a line feed in its measurement, that does not read back |
| LineEncoder.WriteEscaped | internal/lineproto/lineproto.go:189-215 | the byte loop appends the escaped text and nothing else |
| LineEncoder.WriteValue | internal/lineproto/lineproto.go:152-179 | appends the text of the value by its type, with the integer suffix and the float fallback of large unsigned values |
| LineEncoder.Encoder.FillScratch | internal/lineproto/lineproto.go:75-86 | the scratch slice ends as the stable sort of the usable base tags followed by the usable point tags |
| LineEncoder.Encoder.WriteTags | internal/lineproto/lineproto.go:89-99 | the loop that looks one entry ahead writes each key once, with its last entry |
| LineEncoder.Encoder.WriteFields | internal/lineproto/lineproto.go:101-114 | the loop writes the valid fields in order, with commas between them only |
| LineEncoder.Encoder.Point | internal/lineproto/lineproto.go:61-122 | appends exactly one line for an accepted point and counts it; leaves buffer and count unchanged for any other; keeps the cells or moves to fresh ones |
| LineEncoder.Encoder.Bytes | internal/lineproto/lineproto.go:124-125 | hands out the cells of the buffer themselves |
| LineEncoder.Encoder.Len | internal/lineproto/lineproto.go:130-131 | the length is zero exactly when no line was written |
| LineEncoder.Encoder.Reset | internal/lineproto/lineproto.go:136-140 | empties the batch and keeps the cells |
| LineEncoder.BufferIsFramed | internal/lineproto/lineproto.go:61-140 | after any calls of `Point` and `Reset` the buffer is whole lines, one per counted point |
| LineEncoder.BufferReadsBack | internal/lineproto/lineproto.go:61-140 | and it reads back as the accepted points since `Reset`, exactly when these are faithful |
| DeadlineGuard.FlagMeansOneWorker | internal/collect/collect.go:279-334 | in every reachable state the flag of a name is set if and only if one worker of that name has not passed `end`, and that worker is the last one started |
| DeadlineGuard.StuckCallCostsOneWorker | internal/collect/collect.go:272-283 | while a call has not returned, no later call of its name was started, whatever the caller did |
| DeadlineGuard.WorkersAreBounded | internal/collect/collect.go:279-334 | the workers that have not passed `end` are exactly as many as the flags, so at most one per name |
| DeadlineGuard.RepliesAreOwn | internal/collect/collect.go:286-316 | a returned value is that of the same call, and a started call has at most one reply |
| DeadlineGuard.BeginStarts | internal/collect/collect.go:279-334 | a call starts a worker of its name, and the caller waits for it, if and only if no worker of that very name is active; else it is refused and nothing else happens |
| DeadlineGuard.NextCallIsNotRefused | internal/collect/collect.go:293-299 | once a value was returned, the next call of that name starts its worker |
| DeadlineGuard.WorldIsFree | internal/collect/collect.go:285-301 | a call may return anything at any time, also after its deadline, and a deadline may pass or a parent context end at any time; none of it touches the flags or the caller |
| DeadlineGuard.EveryCallIsAnswered | internal/collect/collect.go:279-316 | every started call has exactly one reply, or the caller is still in it |
| DeadlineGuard.WaitingValueIsReturned | internal/collect/collect.go:301-308 | a value that waits for the caller is what either select returns |
| DeadlineGuard.GivenUpCall | internal/collect/collect.go:309-315 | a caller that gives up returns the error of an ended parent context, and else a timeout |
| DeadlineGuard.LateWorkerFinishes | internal/collect/collect.go:288-300 | once fn has returned, however late, its worker frees the name, sends its answer and ends, and disturbs no caller |
| DeadlineGuard.ValueAfterEnd | internal/collect/collect.go:293-308 | whenever a value waits for the caller, in the outer or the inner select, the flag is already clear |
| DeadlineGuard.SendNeverBlocks | internal/collect/collect.go:289-300 | a late worker never blocks on its channel |
| DeadlineGuard.CallerReturns | internal/collect/collect.go:301-315 | in every run after its context is done, the caller is out of `deadline` by its third step, and until then a step of its own is possible, with no help from a worker |
| DeadlineGuard.CallerCanReturn | internal/collect/collect.go:301-315 | a done context stays done; each step of the caller brings it nearer to its return and no other step moves it |
| DeadlineGuard.RepliesHaveCauses | internal/collect/collect.go:279-316 | on every run a returned value is what fn of that very call returned, a timeout means that the deadline of that very call passed, and a context error that the parent context of that very call ended |
| DeadlineGuard.CancelLeavesValue | internal/collect/collect.go:288-308 | when the context is done because the worker cancelled it, the inner select finds the value |
| StuckMounts.NextReadIsRefused | internal/collect/collect.go:272-283 | while the read of a mount runs, the next call for it is refused at once and starts no worker |
| StuckMounts.StuckReadIsAlone | internal/collect/collect.go:272-334 | when the read of a mount never returns, no further worker is started for it on the whole run, and every further read of it is a timeout, even if it leaves the table and comes back; its own call returns no answer either, but a timeout or the error of its ended context |
| StuckMounts.StuckMountIsReported | internal/collect/collect.go:465-481 | and if it stays in the table, it is banned after as many cycles as are left to the limit, and reported as stuck exactly once |
| Disks.RunKeepsFaith | internal/collect/collect.go:440-522 | over every run of cycles a mount's count is its timeouts since its last answer or absence, at most the limit; no banned mount is read; each report comes exactly when it is due |
| Disks.BanLasts | internal/collect/collect.go:465-469 | a banned mount stays banned and is not read while it is in the mount table |
| Disks.StuckOncePerStay | internal/collect/collect.go:475-480 | a mount is reported as stuck once per stay and not read afterwards until it leaves |
| Disks.FailedOncePerStay | internal/collect/collect.go:482-490 | a mount is reported as failed at most once per stay |
| Disks.KeyIsInjective | internal/collect/collect.go:496-497 | device, NUL and decimal size make a key that decides both, for every device string |
| Disks.FirstOfPairsDistinct | internal/collect/collect.go:495-501 | no two kept mounts share a named device and a size |
| Disks.FirstOfPairsCovers | internal/collect/collect.go:495-501 | each suppressed mount has an earlier kept one of the same device and size |
| Disks.CycleKeepsFirstOfPairs | internal/collect/collect.go:447-515 | the set of byte keys picks, over a whole cycle, exactly the first reading of each device and size |
| Disks.CycleReads | internal/collect/collect.go:455-515 | a cycle reads exactly the mounts that no filter and no ban drops, once per line and in table order, considers every answer with a size, and records which mounts the table has |
| Disks.DiskShowsReading | internal/collect/collect.go:502-515 | a disk shows the sizes, the inode counts and the rounded percentages of its own reading, and the raw device is its device with or without the prefix |
| Disks.CycleReports | internal/collect/collect.go:447-522 | the two report lists of a cycle are the reports that it adds to the record, in order |
| Notes.ReportsAreSpaced | internal/collect/collect.go:254-270 | two timeout reports of one collector with no success in between are at least the quiet period apart |
| Notes.ReportsExactly | internal/collect/collect.go:254-270 | a call reports if and only if its error is a plain one, or a timeout with no earlier report, without a success since, younger than the quiet period |
| Cpu.PercentsInRange | internal/collect/collect.go:373-404 | each percentage is between 0 and 100 for any two samples |
| Cpu.PercentsAddUp | internal/collect/collect.go:373-404 | when no counter went back and the total advanced, the five shares add up to 100 within 0.025, usage and idle within 0.01, and usage is its four parts within 0.025 |
| Cpu.PercentsMeasure | internal/collect/collect.go:366-404 | for any two samples, each percentage times the elapsed total is the advance of its own counters, up to the rounding; a part that went back shows 0 and one above the total 100; no elapsed total gives zeros |
| CollectorClass.SortByMount | internal/collect/collect.go:849-851 | the result is ordered by mount and is a permutation of the argument |
| CollectorClass.Collector.CollectDisks | internal/collect/collect.go:440-522 | the loop over the maps does one cycle of the mount state machine; the disks, with sizes, inodes and rounded percentages, are a permutation, ordered by mount, of the first readings of each device and size; an unreadable table changes nothing |
| CollectorClass.MapsAreTruthful | internal/collect/collect.go:440-522 | in every reachable state of the collector its maps agree with the record of all its reads and reports |
| CollectorClass.Collector.EvictGone | internal/collect/collect.go:509-520 | exactly the entries of mounts out of the table go, in both maps |
| CollectorClass.Collector.Note | internal/collect/collect.go:256-270 | reports exactly the calls that the rate limit lets through |
| CollectorClass.Collector.CollectCPU | internal/collect/collect.go:343-386 | gives the raw times, the core count and the percentages since the last sample, or since boot; keeps the new sample; a known core count never changes; an error keeps everything |
| PushRuns.RunConserves | internal/push/push.go:105-218 | over every run the queue is the newest end of all batches ever buffered, at most four; dropped = retried + rejected + evicted + kept; each counter is its sum over the record |
| PushRuns.RunOrders | internal/push/push.go:105-218 | a batch that was acknowledged, evicted, or rejected with no buffer to go to never occurs again; flush acknowledgements come in submission order; a second permanent rejection is the flush after the try; no batch is rejected for good three times |
| PushRuns.PendingIsYoungest | internal/push/push.go:168-218 | what is kept was never acknowledged, evicted or rejected by a flush, and is younger than everything that a flush delivered |
| PushRuns.SendIsBounded | internal/push/push.go:100-130 | one `Send` makes at most one request per kept batch and four more, eight in all, and returns within `SendDeadline` and its caller's context, for every outcome and duration |
| PushRuns.SendReports | internal/push/push.go:105-130 | `Send` with a body succeeds if and only if its last event delivers that very batch; without one it succeeds; on an error its batch is the newest kept one |
| PushRuns.SendOnceReports | internal/push/push.go:132-156 | `SendOnce` succeeds exactly when its last event delivers its batch, makes at most three requests and leaves the queue alone |
| PushRuns.FlushBounds | internal/push/push.go:168-190 | a flush makes at most one request per kept batch and ends with its context |
| PushRuns.LadderBounds | internal/push/push.go:192-209 | the retry loop makes at most one request more than it has delays, ends with its context, and reports its last attempt |
| PushVerdicts.AttemptIsJudged | internal/push/push.go:220-287 | an attempt is delivered if and only if a 2xx answer came before the request timeout and the end of the context, rejected if and only if a 4xx other than 408 and 429 did, and else failed for now; a late answer counts for nothing |
| PushVerdicts.EmptyBodyIsDelivered | internal/push/push.go:221-223 | an empty body is delivered with no request and no time |
| PushVerdicts.VerdictsAreAnswers | internal/push/push.go:105-262 | over every run, each acknowledged body has a 2xx answer in time behind it, and each one thrown away as rejected a 4xx answer other than 408 and 429 |
| PushOutcomes.AcceptedSend | internal/push/push.go:105-130 | when the endpoint accepts, after any time per request that fits the contexts, one `Send` delivers all kept batches and the new one with one request each, takes the sum of these times, and keeps nothing |
| PushOutcomes.RefusedSend | internal/push/push.go:105-190 | when it refuses for good, likewise, one `Send` gives each kept batch its last request, tries the new one once, and keeps that one only |
| PushOutcomes.FailedSend | internal/push/push.go:105-218 | when every query is late, whatever its answer, or answered with no final status, one `Send` tries the oldest batch once and the new one four times, takes the time of these requests and of the backoff, then keeps the new one at the cost of the oldest if the queue is full |
| PushOutcomes.AcceptedFlush | internal/push/push.go:105-115 | `Send` without a body still delivers everything that was kept, when the endpoint accepts |
| PushOutcomes.LateSend | internal/push/push.go:105-218 | under a context that has ended a flush does nothing, and `Send` makes one vain attempt, keeps its batch, and takes no time |
| PushOutcomes.AnsweredOnce | internal/push/push.go:132-156 | an answered `SendOnce` makes one request and succeeds exactly when it was accepted |
| PushOutcomes.FailedOnce | internal/push/push.go:132-156 | against an endpoint that is down `SendOnce` makes three requests and gives up |
| PushOutcomes.OnceCost | internal/push/push.go:30-33 | its two delays add one second to the time of its three requests |
| PushOutcomes.LadderClimbs | internal/push/push.go:192-209 | failures for now use up the whole ladder, for any ladder and any request times that fit the context |
| PushOutcomes.BackoffCost | internal/push/push.go:35-37 | the backoff adds three and a half seconds to the time of its four requests |
| PushTrace.RunTraced | internal/push/push.go:105-218 | each post, buffering, eviction and kept batch is byte for byte the batch that its own call handed over |
| PusherClass.Pusher.Post | internal/push/push.go:220-262 | one attempt; an empty body counts as delivered with no request |
| PusherClass.Pusher.FlushPending | internal/push/push.go:168-190 | the loop meets its specification and brings no new cells into the queue |
| PusherClass.Pusher.SendWithRetry | internal/push/push.go:192-209 | the loop makes the posts and sleeps of the backoff ladder, each with its failure count |
| PusherClass.Pusher.Buffer | internal/push/push.go:211-218 | appends the batch and evicts from the old end down to the limit |
| PusherClass.Pusher.Send | internal/push/push.go:98-130 | does what the specification says to queue, counters and clock, and every body it adds lives in fresh cells |
| PusherClass.Copy | internal/push/push.go:117 | the body goes to fresh cells |
| PusherClass.Pusher.SendOnce | internal/push/push.go:132-156 | does what the specification says and keeps the queue |
| DockerModel.CpuInRange | internal/docker/docker.go:546-581 | the CPU share of a container is between 0 and 100 per core, for every reply and previous sample |
| DockerModel.CpuMeasuresHost | internal/docker/docker.go:546-570 | when the host counter advanced, the share times the host time is the container's time on all cores, up to the rounding; more than all cores could give shows as all cores |
| DockerModel.CpuMeasuresWall | internal/docker/docker.go:571-581 | else, when the clock advanced, the share times the wall-clock time is the container's time, with the same cap |
| DockerModel.CpuShowsZero | internal/docker/docker.go:562-581 | a first sample, a counter that went back, and a host counter and clock that both stood still show zero |
| DockerModel.MemoryMeasures | internal/docker/docker.go:583-612 | for every plausible reading, memory is the usage without the first of the three page-cache counters that is there; with no plausible limit there is no percentage, within the limit the percentage is its share up to the rounding, above the limit it shows the limit and 100 |
| DockerModel.MemoryInRange | internal/docker/docker.go:583-612 | memory stays under the plausible maximum and a known limit, the percentage is one, and a value is missing exactly when the reading is implausible |
| DockerFanout.InterleavingsAgree | internal/docker/docker.go:356-405 | with distinct IDs, every complete interleaving of the goroutines ends with the results, errors and maps of running them one after another |
| DockerFanout.SemaphoreHolds | internal/docker/docker.go:360-369 | at every step at most `batch` goroutines hold the semaphore; the run is bounded and never stuck |
| DockerFanout.StepIsLocal | internal/docker/docker.go:362-405 | a step of one goroutine changes its own cells and its own map entries only |
| InspectSchedule.InspectsAreSpaced | internal/docker/docker.go:438-455 | two inspections of one stay are at least `every` cycles apart |
| InspectSchedule.NextInspect | internal/docker/docker.go:438-477 | after an inspection the next can come on the next slot cycle only, `every` to 2*every-1 cycles later and exactly `every` from a slot cycle, and comes there if and only if the stats read succeeds |
| InspectSchedule.AlignedStamps | internal/docker/docker.go:438-477 | from an inspection on a slot cycle on, with successful stats reads there, a cycle inspects if and only if it is a slot cycle |
| InspectSchedule.ExactlyOncePerWindow | internal/docker/docker.go:438-477 | then every `every` consecutive cycles hold exactly one inspection |
| DockerCycles.CacheAgreesWithHistory | internal/docker/docker.go:332-485 | after every run the cached count of a container is the last one inspected successfully since it was last absent from the running list |
| DockerCycles.SampleCarriesLastKnown | internal/docker/docker.go:362-384 | and the sample of a running container carries exactly that count, or none |
| DockerCycles.PrevAgreesWithHistory | internal/docker/docker.go:554-562 | after every run the kept CPU reading of a container is its last stats reply since it was last absent from the running list |
| DockerCycles.SampleMeasuresSinceLast | internal/docker/docker.go:554-581 | the CPU share of a sample is measured since that reply, however many cycles ago |
| DockerCycles.MapsKnowRunningOnly | internal/docker/docker.go:629-653 | after each successful listing both maps know running containers only |
| DockerCycles.CycleCounts | internal/docker/docker.go:333-354 | the cycle number counts the listings that succeed and are not empty |
| DockerCycles.StampsAreInPast | internal/docker/docker.go:464-477 | no stamp of a restart entry lies in the future |
| DockerCycles.RoundAccounts | internal/docker/docker.go:342-419 | samples, skips and errors add up to the running and the kept stopped containers; at most 50 stopped ones are kept, none of the others is newer |
| DockerCycles.SlotIsRemainder | internal/docker/docker.go:457-462 | the slot is what is left of the hash after whole gaps |
| DockerResults.RunningResult | internal/docker/docker.go:362-386 | every running container has a result: an error when its stats read failed, else its own sample, marked as running, with the CPU share and memory of the reply |
| DockerResults.StoppedResult | internal/docker/docker.go:387-405 | every kept stopped container has a result: its own running flag and restart count and no stats, a skip when it stopped too long ago, an error when the call failed |
| DockerResults.EntryMeansMet | internal/docker/docker.go:438-485 | the client has a restart entry of exactly the containers whose stats read has succeeded since they were last absent |
| DockerResults.FirstReadIsInspected | internal/docker/docker.go:438-446 | in the first round in which a container runs and its stats read succeeds, since the start or its last absence, the client inspects it, and that very sample carries the count |
| InspectSchedule.FirstReadIsStamped | internal/docker/docker.go:438-446 | a container without an entry is inspected on its first day with a successful stats read, and its entry holds what the call gave |
| DockerStays.ClientInspectsAreSpaced | internal/docker/docker.go:332-477 | over every run, while a container stays, two inspect calls that its history shows are at least `every` cycles apart |
| DockerStays.ClientInspectsComeBack | internal/docker/docker.go:332-477 | and after one the next comes within 2*every-1 cycles, when the stats reads on the slots succeed |
| DockerStays.RunStays | internal/docker/docker.go:332-405 | on every run in whose listings a container stays, each round changes its restart entry as one day of the schedule does, and a failed listing changes nothing |
| DockerStays.ClientInspectsOncePerWindow | internal/docker/docker.go:332-477 | once a call fell on a slot, any rounds that span `every` cycles, failed listings among them or not, hold exactly one inspect call for the container |
| DockerStays.InspectIsStamp | internal/docker/docker.go:376-381 | the client makes an inspect call in exactly the cycles of the schedule, failed listings left out |
| DockerClient.RecentFirst | internal/docker/docker.go:496-500 | the result is a permutation, newest first |
| DockerClient.Compact | internal/docker/docker.go:407-418 | the in-place compaction leaves exactly the error-free results in front, in order |
| DockerClient.FanOut | internal/docker/docker.go:356-405 | whichever goroutine steps next, all end, the semaphore is free, and with distinct IDs the end is that of one after another |
| DockerClient.Client.PruneDead | internal/docker/docker.go:629-653 | exactly the entries of containers that do not run go, in both maps |
| DockerClient.Client.Plan | internal/docker/docker.go:424-436 | counts the cycle once and asks for every running container whether it is due in it |
| DockerClient.Client.Collect | internal/docker/docker.go:332-419 | a failed listing changes nothing; otherwise each chosen container has one result and the samples are the error-free ones; with distinct IDs results and maps are those of the specification |
| AgentClass.NoBatchIsEmpty | cmd/observant-agent/main.go:165-192 | the heartbeat is always accepted, so no cycle has an empty batch |
| AgentClass.HeartbeatComesBack | cmd/observant-agent/main.go:182-192 | every batch reads back with its heartbeat in place, whose fields are the version, the start time and the very value of `up` |
| AgentClass.Agent.CollectBatch | cmd/observant-agent/main.go:162-180 | the encoder holds exactly the points of this cycle, over the old cells, and the kept batches are untouched |
| AgentClass.Agent.Cycle | cmd/observant-agent/main.go:250-273 | hands one batch with heartbeat 1 to `Send`; encoder and queue share no cells; the pusher is where the calls so far lead |
| AgentClass.Agent.Shutdown | cmd/observant-agent/main.go:280-296 | flushes, then hands a last batch with heartbeat 0 to `SendOnce` under one deadline |
| AgentClass.KeptBatchesStay | cmd/observant-agent/main.go:165-180 | in every reachable state each kept batch has cells of its own, apart from the encoder's and from those of every other kept batch, which still hold the bytes of its own cycle, in cycle order, at most four |
| AgentClass.KeptBatchesReadBack | cmd/observant-agent/main.go:250-273 | each kept batch still reads back as the points of its own cycle, exactly when these are faithful |
| AgentClass.PointsAreDeliveredLines | internal/push/push.go:117-122 | the Points counter is the number of lines in all acknowledged bodies |
| AgentClass.ShutdownIsBounded | cmd/observant-agent/main.go:280-296 | a shutdown makes at most one request per kept batch and three more, adds nothing to the queue, and ends by its deadline, or late by the collection time at most |

## Left out

- HTTP, gzip, unix sockets, JSON and gopsutil: each call is an argument or a free choice.
- The redirect and transport layers of an HTTP attempt: an attempt gives one status or one transport error.
- Context instants: an attempt that would end exactly with its context counts as answered; a sleep that ends with its context is decided by the world.
- Cancelling a parent context while a call is under way: it is an end instant, fixed when the call starts but otherwise arbitrary.
- Text of floats: an opaque text over digits, `.`, `e`, `+` and `-`, also for an unsigned value that does not fit.
- IEEE rounding, NaN and infinities in the percentages: they are computed over the reals.
- The float read-back: it gives the text of the float, not its value.
- Years outside the range of nanoseconds in 64 bits: a time is a 64-bit number, or the zero time.
- Line protocol comments and naming restrictions: each measurement of the agent is a fixed name.
- The hash inside `slot`: any function of the ID; how evenly it spreads is not stated.
- 64-bit overflow of the counters, the cycle number and the mount counts: they are unbounded.
- The text of errors, `LastError` and the `at` time of a kept batch.
- The network, block and process counts of a container.
- `Encode` of both collectors, the `Skip*` lists, `probe`, `detect`, configuration, self-check and logging: long lists of easy members. A filter verdict is a flag of the mount.
- The reading of finish times of stopped containers: the reply says whether the container is too old.
- The collectors other than disks and CPU: they are calls of `deadline` with no state of their own.
- Shared use of the collector's maps by several callers: one caller at a time, as in the program.
- DockerModel.Step: an HTTP call with the access to the maps after it is one step of its goroutine; the lock makes each map access atomic, and no other goroutine touches the entries of that ID.
- DockerClient.Client.Collect: with an ID listed twice the results can depend on the order of the goroutines; then only the accounting is stated. Of the joined errors only the number is kept.
- CollectorClass.SortByMount: the order of two disks with the same mount is not stated, as `sort.Slice` does not fix it.
- DockerClient.RecentFirst: the order of containers of the same age is not stated, for the same reason.
- CollectorClass.Collector.CollectDisks: what each read gives, an in-flight refusal included, is an argument; the guard that decides it is the module DeadlineGuard.
- Lookalikes.UnfaithfulKeysAreAmbiguous: does not cover keys whose order changes with the swap, because the written order can then still tell the keys apart: the keys `a` LF `b` and `a` CR `b` of one point are written alike, and only in this order.
- DeadlineGuard: it is a state machine on values, as its steps interleave; an answer stands for the pair of value and error.
- AgentClass.Agent.Shutdown: the time spent in the collection is an argument, and the log line is left out.
- The case of a previous CPU sample with a zero time (internal/docker/docker.go:572): every kept sample has its time set.
