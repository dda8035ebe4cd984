# Verified model of the natra rate limiter

natra attaches a two-stage BPF rate limiter to a pod's veth. A Count-Min Sketch with lazy decay decides
which flows are heavy; heavy packets pay into a token bucket; what the bucket refuses is paced (EDT),
ECN-marked or dropped. A CNI plugin resolves the limits from annotations and attaches the program with a
chain of fallbacks. This project models both halves and proves properties of whole runs.

`dafny verify dfyconfig.toml` checks everything.

## How it is organised

| file | content |
|---|---|
| `Words.dfy` | 64-bit wrap-around, shifts and division facts |
| `Flow.dfy` | frames, flow keys, the dissector |
| `Decay.dfy`, `SharedCell.dfy`, `Sketch.dfy` | one cell, a cell shared by flows, the whole table |
| `Trust.dfy` | exactly when the sketch can be trusted, over real packets |
| `Race.dfy` | sketch updates as separate reads and writes by many CPUs |
| `Bucket.dfy`, `Pacing.dfy` | token bucket; EDT debt cursor and stamps |
| `Dataplane.dfy` | the classifier on the flat maps and on one direction alone |
| `Maps.dfy` | the classifier as imperative code over arrays, proved against `Dataplane` |
| `Stats.dfy`, `Runs.dfy`, `Throughput.dfy` | properties of whole runs |
| `Vanilla.dfy` | the plain limiter and the refinement to it |
| `Bandwidth.dfy`, `Limits.dfy` | quantity parsing; limits per direction |
| `Attach.dfy` | attach attempts, rollback, fallback, DEL, the operator's settings, and the EDT guard |
| `Add.dfy` | what an ADD comes to: the winning attempt, the hooks, the limits it writes |

Each imperative method is proved equal to a function of the old state; the run theorems are about those
functions. `Dataplane.DirectionsIndependent` carries every theorem about one direction to the shared maps.

The row hash, the JSON decoder and the float64 product of rate and burst ratio are arbitrary functions.
Clock readings, packet lengths, the ECN helper's answer, CPU numbers and the success of every kernel call
are inputs. Rates are bytes per second. A statement with a rate over time is multiplied by 10^9 so that it
stays in integers. `Words.Times` is multiplication and `Words.ShiftLeft`/`ShiftRight` are multiplication
and integer division by a power of two, each unfolded by recursion (`TimesIsProduct`, `ShiftLeftIsProduct`,
`ShiftRightIsQuotient`).

## Where code and comments differ

The model follows the code.

- Sketch updates are plain reads and writes (bpf/natra.bpf.c:278-295), not atomic adds (line 28).
  "One extra packet" (lines 144-147) is not a bound: `Race.LostUpdatesUnbounded`.
- An age of 64 intervals or more empties a cell (lines 287-288); the shift is not capped at 63 (line 124).
- `parse_flow` says it rejects fragments it does not dissect (line 304) but looks at neither the fragment
  offset nor the IP version; `Flow.ParseInvertsEncode` holds for any value of both.
- The EDT spacing is 8e9 * bytes / rate although the rate is in bytes (line 433), so it is eight times the
  transmission time at that rate. Pacing is stated in terms of that formula.
- The refill's product overflows after long idle gaps at high rates (lines 374-377), and can then give
  nothing: `TokenBucket.OverflowLosesRefill`. `TokenBucket.AddedAtLeast` says exactly when a refill loses
  more than rounding, and `TokenBucket.FreshBucketIsCapped` exactly when a new bucket starts full.
- "Explicit per-pod values win" (cmd/natra/main.go:459-461) fails for a threshold equal to the compiled-in
  default, and for a burst equal to the compiled-in share of the rate when a burst ratio is configured
  (`Limits.ExplicitBurstOverwritten`). `Limits.ExplicitValuesWin` says exactly when both values survive.
- Both configuration channels are said to agree (pkg/cni/config/config.go:11-14). For 1 to 7 bits/s they do
  not, nor when kubelet sends a small explicit burst: `Limits.ChannelsAgree` is exact.

## A property that is false as usually stated

A Count-Min Sketch "never underestimates", so that a flow above the threshold always reaches the bucket. With
unordered clocks this one can miss: another flow pushes the clock of a shared cell ahead, and when a late packet
of the first flow arrives, the bytes sent before it have aged longer in the cell than on the flow's own clock.

- What does hold on every run: the estimate is at least the flow's own decayed count, aged by as many
  intervals as its cells' clocks are ahead (`Sketch.NeverUnderestimates`), which for the packet just counted
  is at most its lateness (`Sketch.LatePacketCovered`, and for the classifier `Detection.HeavyFlowsAreCaught`).
- The failing input: `Detection.LateHeavyFlowMissed` gives, for any two flows that share a cell, any threshold
  from 163 bytes up and any lateness, a run of packets after which a flow above the threshold passes as a mouse.
- Exactly when the property holds, by what can be read before the call: `Detection.CaughtExactly`. A packet that
  is not behind its cells is caught; a late one can be missed if and only if some flow sharing a cell can hide
  bytes from the threshold (`Trust.Hides`, from header lengths, lateness and threshold), which from 163 bytes
  on every flow sharing a cell can. `Trust.TrustedExactlyWhenOnTime` is the same for the estimate itself.

Both directions speak of packets the program can receive: keys the dissector returns, no packet shorter than its
headers, 64-bit clocks (`Flow.ParsedFlows`, `Flow.FlowsHaveFrames`, `Maps.ObservedIsReal`, `Maps.RealIsObserved`).

## Model

| member | source | states |
|---|---|---|
| Flow.ParseFlow | bpf/natra.bpf.c:307-346 | the bound-checked dissector returns the frame's flow, or nothing for non-IPv4, short or bad-IHL frames; no read passes the end |
| Flow.FlowByBytes | bpf/natra.bpf.c:307-346 | by byte positions: which IPv4 frames have a flow, TCP and UDP with 20 and 8 header bytes and big-endian ports at 14 + 4 * IHL, any other protocol with ports 0, and which bytes are the addresses |
| Flow.ParseInvertsEncode | bpf/natra.bpf.c:324-345 | for every tuple, IHL 5..15, options, payload and ignored header fields, dissecting the built frame gives back exactly the tuple, zero padding |
| Flow.AcceptedFramesAreEncodings | bpf/natra.bpf.c:312-345 | conversely, every accepted byte string is the encoding of a well-formed frame with that tuple |
| Flow.ParsedFlows | bpf/natra.bpf.c:307-346 | every accepted frame has a key with zero padding, ports only for TCP and UDP, and at least its headers' length |
| Flow.FlowsHaveFrames | bpf/natra.bpf.c:307-346 | conversely every such key is the key of a frame of exactly its headers' length |
| Decay.Fade | bpf/natra.bpf.c:286-290 | the guarded shift is exactly floor(bytes / 2^elapsed) for every elapsed, 64 and above included |
| Decay.LazyDecayIsExactSum | bpf/natra.bpf.c:282-295 | for every sequence of touches the cell is floor(sum b_i * 2^T_i / 2^last) with last the latest index, throughout, if and only if that sum never exceeds 64 bits |
| Decay.NeverAboveIdeal | bpf/natra.bpf.c:282-295 | even when counters wrap, a cell never exceeds the exact decayed sum |
| Decay.SmallTrafficFits | bpf/natra.bpf.c:137-139 | below 2^64 bytes in total no counter wraps |
| Decay.EmptyTouchInvisible | bpf/natra.bpf.c:282-295 | an empty touch is invisible after the next touch if and only if it does not run ahead of both clocks |
| Decay.LooksLeaveNoTrace | bpf/natra.bpf.c:282-295 | touching a cell more often changes nothing: an empty touch anywhere in a run leaves every later cell as without it |
| Decay.LazyEqualsEager | bpf/natra.bpf.c:121-127 | the lazy counter equals a counter halved on every elapsed interval, wrap-around included |
| SharedCell.SharedCoversAged | bpf/natra.bpf.c:278-298 | for unordered indices, a shared cell holds at least a flow's private decayed counter aged by the most any of its bytes aged longer in the cell |
| SharedCell.ClocksBoundAges | bpf/natra.bpf.c:282-284 | in every history that extra age is at most the distance of the two clocks |
| SharedCell.SharedCoversOwn | bpf/natra.bpf.c:278-298 | without extra age the cell holds at least the private counter itself |
| SharedCell.OnTimeAgesFairly | bpf/natra.bpf.c:282-284 | a newest touch not behind the cell's clock means no extra age, whatever the history |
| SharedCell.TrustedExactlyOnTime | bpf/natra.bpf.c:282-295 | for any least packet length, a cell at clock c covers a flow touching it at index i in every history if and only if c <= i |
| SharedCell.UnfairPacketUnderestimates | bpf/natra.bpf.c:282-295 | one touch that aged faster in the cell is enough: on the same pattern, with no packet below a least length, some lengths make the cell underestimate |
| SharedCell.CoversPacketsExactlyWhenFair | bpf/natra.bpf.c:278-298 | on a fixed pattern of packets of at least that length, while one packet can still outweigh the rest, the cell covers the flow for all lengths if and only if no touch aged faster in the cell |
| SharedCell.CoversExactlyWhenFair | bpf/natra.bpf.c:278-298 | the same over byte counts from zero up, for every touch less than 64 intervals old |
| SharedCell.LatePacketUnderestimates | bpf/natra.bpf.c:282-295 | for any lateness and lengths x, z, y, a history whose cell holds floor(x / 2^lateness) + z + y, z of another flow, while the flow's own counter holds x + y |
| Sketch.IndexInjective | bpf/natra.bpf.c:271-277 | flat cell keys are in range and unique per direction, row and column |
| Sketch.RowMinIsLeast | bpf/natra.bpf.c:272-300 | the returned minimum is a lower bound of the flow's counters and one of them |
| Sketch.RowsTouchedStep | bpf/natra.bpf.c:274-295 | one row touches the flow's cell of that row once and disturbs no other row |
| Sketch.HalvesIndependent | bpf/natra.bpf.c:174-181 | a packet updates its direction's half as a stand-alone sketch and leaves the other half alone |
| Sketch.EstimateOfHalf | bpf/natra.bpf.c:271-300 | the estimate depends on that half only |
| Sketch.CellIsItsHistory | bpf/natra.bpf.c:266-301 | after any run each cell is the fold of exactly the touches that hash to it |
| Sketch.NeverUnderestimates | bpf/natra.bpf.c:266-301 | on every run without wrap, any flows, hash and order, the estimate is at least the flow's own decayed count aged by how far its cells' clocks are ahead, and at least that count itself when no byte aged faster in a cell |
| Sketch.LatePacketCovered | bpf/natra.bpf.c:266-301 | for the packet just counted, at least the flow's own decayed count aged by the packet's lateness |
| Sketch.OnTimePacketFairlyAged | bpf/natra.bpf.c:282-284 | the age condition holds whenever the packet is not behind its own four cells |
| Sketch.SmallRunNeverWraps | bpf/natra.bpf.c:137-139 | below 2^64 bytes of traffic no cell of the flow wraps |
| Trust.LateRunUnderestimates | bpf/natra.bpf.c:282-298 | for any two flows sharing a cell, any lateness and real lengths x, z, y, a run whose estimate is at most floor(x / 2^(c - j)) + z + y while the flow's own count is floor(x / 2^(i - j)) + y |
| Trust.TrustedExactlyWhenOnTime | bpf/natra.bpf.c:266-301 | with the flow's cells at clock c, a packet at index i gets an estimate no lower than the flow's own count in every real run if and only if c <= i or no other flow shares a cell |
| Trust.ForeignRun | bpf/natra.bpf.c:278-298 | in every real run, a cell ahead of the flow's clock holds the flow's count aged to it and another flow's headers besides |
| Trust.AboveExactly | bpf/natra.bpf.c:266-301 | for every threshold, a flow above it gets an estimate above it in every real run if and only if no flow sharing a cell can hide bytes |
| Trust.HiddenAboveHeaders | bpf/natra.bpf.c:491-493 | from 163 bytes on, that means not late, or no flow sharing a cell |
| Trust.EstimateIsLeastOfFour | bpf/natra.bpf.c:271-300 | after any run, wrap-around included, the estimate is the least of four counters, each of exactly the packets whose flows share the flow's column of 32768 under that row's own hash |
| Trust.OneFreeRowIsEnough | bpf/natra.bpf.c:274-277 | if in one of the four rows no other flow of the run has the flow's column, the estimate is at most the flow's own count |
| Detection.LightFlowsPass | bpf/natra.bpf.c:491-498 | a packet of such a flow whose own count is within the threshold passes as a mouse |
| Detection.UnaccountedPasses | bpf/natra.bpf.c:470-482 | without a rate or a parseable flow a packet passes unstamped, counted as passed, and moves neither bucket, cursor nor sketch |
| Detection.RefusedAndMarkable | bpf/natra.bpf.c:427-465 | what the bucket refuses is dropped only if it cannot be marked, and is marked or dropped by that alone unless egress paces |
| Detection.LaneSketchRun | bpf/natra.bpf.c:478-492 | in a classifier run the sketch sees exactly the parseable packets |
| Detection.HeavyFlowsAreCaught | bpf/natra.bpf.c:492-502 | any packet whose flow's decayed volume, aged by the packet's lateness, exceeds the threshold reaches the bucket; for a packet on time, the volume itself |
| Detection.CaughtExactly | bpf/natra.bpf.c:478-502 | every packet of a flow above the threshold reaches the bucket if and only if it is not behind its cells or no flow sharing a cell can hide bytes; from 163 bytes on, if and only if it is not behind or shares no cell |
| Detection.LateHeavyFlowMissed | bpf/natra.bpf.c:491-498 | for any two flows sharing a cell, any threshold from 163 bytes and any lateness, a run of real packets whose last is passed as a mouse though its flow is above the threshold |
| Race.StepCovered | bpf/natra.bpf.c:278-298 | every single read or write of any CPU keeps cells and held values within committed bytes |
| Race.RacesOnlyUndercount | bpf/natra.bpf.c:278-298 | under every interleaving no cell exceeds its committed bytes, and a packet is heavy only if all four of its cells have more than the threshold committed |
| Race.RowAlone | bpf/natra.bpf.c:282-298 | undisturbed, the separate reads and writes of a row are one atomic touch |
| Race.PacketAlone | bpf/natra.bpf.c:266-301 | undisturbed, a packet's reads and writes are exactly the sequential sketch update and estimate |
| Race.WriteLosesOverlap | bpf/natra.bpf.c:286-295 | unless it wraps, a write leaves lost exactly what the read it rests on had lost, what the fade took, and all that other CPUs committed to the cell in between |
| Race.OnlyWritesLose | bpf/natra.bpf.c:278-298 | no other access of any CPU changes what a cell has lost |
| Race.LostUpdatesUnbounded | bpf/natra.bpf.c:144-147 | for every n an interleaving commits n + 1 packets to a cell that shows one |
| TokenBucket.ClockIsRunningMax | bpf/natra.bpf.c:371-373 | the bucket's clock is the latest reading so far |
| TokenBucket.OrderDoesNotMatter | bpf/natra.bpf.c:363-387 | a run on unordered clocks equals the run on their running maximum: bucket, bytes and decision |
| TokenBucket.AddedAtMost | bpf/natra.bpf.c:374-377 | a refill, truncated twice and wrapping, never exceeds rate * elapsed |
| TokenBucket.AddedAtLeast | bpf/natra.bpf.c:374-377 | a refill falls short by less than rate/10^6 + 1 bytes if its product fits in 64 bits and, for rates up to 2^64 - 10^6, only then |
| TokenBucket.RateCap | bpf/natra.bpf.c:371-387 | over any run, clocks in any order and arithmetic wrapping, admitted bytes are at most burst + rate * clock advance |
| TokenBucket.WindowCap | bpf/natra.bpf.c:371-387 | the same cap on every window of every run |
| TokenBucket.UncappedConserves | bpf/natra.bpf.c:377-384 | while the cap does not bite, tokens plus admitted bytes are conserved up to rounding |
| TokenBucket.DeniedOnlyAboveRate | bpf/natra.bpf.c:377-389 | a denial after a full bucket means the whole allowance, less rounding, was used |
| TokenBucket.FreshBucketIsCapped | pkg/bpf/loader.go:262-272 | a configured bucket is full at its first call if and only if burst plus refill fits in 64 bits, overflowing products included |
| TokenBucket.OverflowLosesRefill | bpf/natra.bpf.c:374-378 | a drained bucket that gains nothing in an idle gap of 71 minutes, so that a minimal packet is denied |
| Pacing.SpacingExact | bpf/natra.bpf.c:430-433 | the split multiplication gives 8e9 * bytes in 64 bits if and only if bytes <= 2305843009 |
| Pacing.SpacingIs | bpf/natra.bpf.c:430-433 | up to 2305843009 bytes the spacing times the rate is 8e9 * bytes, less a remainder below the rate |
| Pacing.MaxPlus | bpf/natra.bpf.c:437-444 | the unbounded cursor is the maximum over all origins of the work queued since |
| Pacing.FaithfulIffFits | bpf/natra.bpf.c:437-444 | the 64-bit cursor follows it throughout if and only if the final value fits |
| Pacing.CursorIsLindley | bpf/natra.bpf.c:433-454 | the cursor's closed form, and stamping exactly when it is at most 50 ms past the packet's clock |
| Pacing.StampsSeparated | bpf/natra.bpf.c:436-454 | each release comes its own spacing after every earlier one and within 50 ms of its packet |
| Pacing.BacklogBounded | bpf/natra.bpf.c:157-164 | the spacings of packets held in fq, without the earliest, sum to less than 50 ms |
| EgressPacing.LaneCursorRun | bpf/natra.bpf.c:441-454 | in a classifier run the cursor counts every over-rate packet, marked and dropped ones too, and the stamps are those of the cursor run |
| EgressPacing.LaneBacklogBounded | bpf/natra.bpf.c:157-164 | in every classifier run, the spacings of the stamped packets fq still holds, without the earliest, sum to less than 50 ms |
| EgressPacing.OverRateEgress | bpf/natra.bpf.c:427-465 | an over-rate packet on paced egress falls due 8e9 * bytes / rate ns after the later of its clock and the cursor; the cursor moves there, and it is stamped if that is within 50 ms, else marked or dropped |
| EgressPacing.ReleasesKeepRate | bpf/natra.bpf.c:433-451 | in a classifier run each release comes after every earlier one by 8e9 * bytes / rate ns, less one |
| EgressPacing.StampsKeepSpacing | bpf/natra.bpf.c:436-451 | and lies within 50 ms of its packet |
| EgressPacing.UnpacedNeverStamps | bpf/natra.bpf.c:427-451 | no run stamps a packet on ingress or with pacing off |
| Dataplane.DecayIdx | bpf/natra.bpf.c:489-489 | the 32-bit cast of the decay index loses nothing |
| Dataplane.StatKeyInjective | pkg/bpf/loader.go:163-166 | counter keys are in range and unique per direction and slot |
| Dataplane.StepInLane | bpf/natra.bpf.c:468-514 | one packet moves its own direction as if alone and nothing of the other |
| Dataplane.DirectionsIndependent | bpf/natra.bpf.c:20-25 | over every interleaving, a direction's verdicts, bucket, sketch half and counters are those of its packets run alone |
| Maps.ObservedIsReal | bpf/natra.bpf.c:478-482 | a parseable frame handed over in full gives a packet of a dissectable key, at least as long as its headers |
| Maps.RealIsObserved | bpf/natra.bpf.c:478-482 | and every such packet can be handed over |
| Maps.NatraMaps.constructor | bpf/natra.bpf.c:93-217 | freshly loaded maps are zero |
| Maps.NatraMaps.Configure | pkg/bpf/loader.go:262-272 | writes one direction's configuration and a full bucket with zero clocks, nothing else |
| Maps.NatraMaps.BumpStat | bpf/natra.bpf.c:219-225 | increments one counter of one CPU |
| Maps.NatraMaps.TouchRow | bpf/natra.bpf.c:274-299 | one row's in-place update is a decay touch of the one cell |
| Maps.NatraMaps.CmsUpdateAndMin | bpf/natra.bpf.c:266-301 | the loop touches exactly the flow's four cells and returns their minimum |
| Maps.NatraMaps.ConsumeTokens | bpf/natra.bpf.c:355-390 | the charge changes only the direction's bucket, as the bucket model says, cursor untouched |
| Maps.NatraMaps.ThrottleDisposition | bpf/natra.bpf.c:420-466 | paces, marks or drops, advances the cursor in every paced case, and bumps the matching counter |
| Maps.NatraMaps.HeavyPath | bpf/natra.bpf.c:500-513 | bucket gate then disposition, with exactly the counters of the outcome |
| Maps.NatraMaps.Classify | bpf/natra.bpf.c:468-514 | the classifier's in-place effect, verdict and time stamp are those of the step semantics |
| Stats.CountersCount | bpf/natra.bpf.c:219-225 | each counter, summed over CPUs, grows by the number of packets with a matching outcome |
| Stats.SlotsByOutcome | pkg/bpf/loader.go:145-166 | which outcomes bump which of the slots 0 to 5 userspace reads |
| Stats.OutcomesPartition | bpf/natra.bpf.c:186-201 | outcomes partition: passed + throttled = all, throttled = ECN + EDT + dropped, throttled <= heavy <= all, shots = dropped |
| Stats.CountersConserve | bpf/natra.bpf.c:186-201 | the same identities for the counters userspace reads, over any interleaving and CPU assignment |
| Throughput.CellHoldsTick | bpf/natra.bpf.c:278-298 | every cell of a flow holds at least the flow's bytes of the current interval |
| Throughput.MiceBounded | bpf/natra.bpf.c:491-498 | per flow and interval, bytes passed as mice stay within the threshold |
| Throughput.HeavyBounded | bpf/natra.bpf.c:500-505 | bytes admitted by the bucket in a run stay within burst + rate * duration |
| Throughput.RoomNeverWraps | bpf/natra.bpf.c:137-139 | with room for the run's bytes in every cell, nothing wraps |
| Throughput.TwoStageBound | bpf/natra.bpf.c:468-504 | bytes counted as passed are at most flows * intervals * threshold + burst + rate * duration |
| Vanilla.VanUnlimited | bpf/vanilla.bpf.c:72-78 | without a rate the plain limiter passes everything and charges nothing |
| Vanilla.VanillaMaps.VanBump | bpf/vanilla.bpf.c:64-70 | increments one counter of one CPU |
| Vanilla.VanillaMaps.Charge | bpf/vanilla.bpf.c:85-103 | the charge under the lock |
| Vanilla.VanillaMaps.Classify | bpf/vanilla.bpf.c:72-111 | verdict, bucket and counter of the plain limiter |
| Refinement.LaneBucketRun | bpf/natra.bpf.c:500-505 | a run's bucket is the bucket run on the heavy packets alone |
| Refinement.HeavyPathRefinesVanilla | bpf/vanilla.bpf.c:85-110 | fed the heavy packets from the same bucket, the plain limiter decides each alike and ends with the same tokens and clock |
| Refinement.VerdictsCoincide | bpf/natra.bpf.c:459-465 | without pacing and ECN the verdicts coincide |
| Bandwidth.Atoi | pkg/cni/config/config.go:211-214 | the digit scan is base-10 conversion to int64 with range check |
| Bandwidth.ParseBandwidth | pkg/cni/config/config.go:193-224 | the scanning parser computes the specified result, error kinds included |
| Bandwidth.ParserIsExact | pkg/cni/config/config.go:193-248 | accepted texts are exactly nothing, or digits with a listed suffix in any case and a value of at most 2^62 - 1, and that value is returned |
| Bandwidth.GrammarIsExact | pkg/cni/config/config.go:193-248 | character by character: blanks, digits, a unit of a power of 1000 or 1024 in either case, blanks, within 2^62 - 1; exactly these texts are accepted, with that value |
| Bandwidth.RefusedBecause | pkg/cni/config/config.go:211-223 | which of the three errors a number with a unit gets |
| Bandwidth.AcceptedIsCapped | pkg/cni/config/config.go:36-38 | every accepted value lies in 0..2^62 - 1 |
| Bandwidth.ParseInvertsPrint | pkg/cni/config/config.go:193-224 | parsing a printed number with any known suffix returns the scaled number |
| Limits.ParseJsonConfig | pkg/cni/config/config.go:155-186 | field-by-field override of the defaults |
| Limits.ParseBandwidthAnnotation | pkg/cni/config/config.go:131-147 | empty, JSON and simple forms |
| Limits.AcceptedConfigsValidate | pkg/cni/config/config.go:250-263 | every accepted annotation passes Validate |
| Limits.ThresholdFormula | cmd/natra/main.go:507-521 | the threshold is max(16 KiB, rate * ms / 1000) if and only if the product fits in int64 |
| Limits.ResolveDirectionConfig | cmd/natra/main.go:408-477 | kubelet first, then the annotation, with clamping and cluster defaults |
| Limits.KubeletReachesItsDirection | cmd/natra/main.go:408-450 | kubelet's ingress and egress numbers each limit their own direction: rate / 8, a burst kept as sent within bounds, and the threshold in numbers |
| Limits.AnnotationReachesItsDirection | cmd/natra/main.go:409-423 | the ingress annotation limits ingress and the egress annotation egress, when kubelet is silent about that direction |
| Limits.AnnotationInNumbers | cmd/natra/main.go:451-473 | what a simple annotation becomes, in numbers |
| Limits.JsonInNumbers | pkg/cni/config/config.go:155-186 | what the extended form becomes, in numbers |
| Limits.JsonByFirstCharacter | pkg/cni/config/config.go:131-147 | the extended form is told by its first character after blanks |
| Limits.ThresholdInNumbers | cmd/natra/main.go:507-521 | a positive cluster threshold is taken as is, else 100 ms or the configured time of the rate, 16384 at least |
| Limits.ResolvedLimitsValidate | pkg/cni/config/config.go:250-263 | the limits of a direction pass Validate whatever the channel |
| Limits.ChannelsAgree | cmd/natra/main.go:425-472 | the two channels give the same limits exactly when the rate is 0, or at least 8 bits/s with kubelet's burst non-positive or at least the largest burst |
| Limits.ExplicitThresholdKept | cmd/natra/main.go:459-464 | exactly when an explicit per-pod threshold survives the cluster defaults |
| Limits.ExplicitValuesWin | cmd/natra/main.go:459-472 | exactly when an explicit burst, and when burst and threshold together, survive the cluster defaults |
| Limits.ExplicitBurstOverwritten | cmd/natra/main.go:465-471 | the annotation with rate "8M", burst "4M" and threshold 131072 gets a burst of 2000000 instead of 500000 under a configured ratio of 2 |
| Attach.RollbackRemoves | cmd/natra/main.go:643-650 | rollback removes exactly the link pins of the completed steps |
| Attach.PinMapsAdds | pkg/bpf/loader.go:285-304 | map pinning only adds this container's map names |
| Attach.AddPins | cmd/natra/main.go:575-584 | after ADD: nothing on failure, exactly the winning side's requested links on tcx, none on clsact, and map pins only besides |
| Attach.LinksAreNotMaps | cmd/natra/main.go:37-39 | link names and map names never coincide |
| Attach.AddThenDelRestores | cmd/natra/main.go:348-368 | ADD, whatever happened, then DEL restores the set of names |
| Attach.AttemptPacesOverFq | cmd/natra/main.go:614-666 | a pacing slot implies egress, pod side and a successful fq install in that attempt, and fq is installed exactly then |
| Attach.AddPacesOverFq | cmd/natra/main.go:598-692 | so for every program an ADD leaves live, clsact filters of failed attempts included |
| Attach.RequiredEdtIsOn | cmd/natra/main.go:565-573 | with edt=on, success means the requested egress direction paces |
| Attach.RequiredEdtRefusesHostSide | cmd/natra/main.go:174-212 | required EDT passes the pre-flight check exactly for modes without host side |
| AddOutcome.LinkNamesAre | cmd/natra/main.go:37-39 | the four link names of a container |
| AddOutcome.LinkNamesDiffer | cmd/natra/main.go:37-39 | which are all different |
| AddOutcome.ProgramsCarryLimits | cmd/natra/main.go:652-676 | every program an ADD leaves live has the rate, burst and threshold of its direction, no pacing on ingress, and the hook its direction passes on that side |
| AddOutcome.AddIs | cmd/natra/main.go:546-692 | an ADD succeeds exactly when the directory can be made, required pacing is not asked of the host side and some attempt's calls all succeed; the first such wins, with exactly the requested limits in its slots and pacing on pod-side egress over an installed fq only |
| AddOutcome.PinMapsExactly | pkg/bpf/loader.go:285-304 | exactly the maps before the first that cannot be pinned are pinned |
| AddFromSettings.AutoFallsBack | cmd/natra/main.go:174-212 | the winner of the automatic modes for every pattern of failures |
| AddFromSettings.ExplicitModeIsObeyed | cmd/natra/main.go:196-204 | an explicit mode tries the attempt it names and no other |
| AddFromSettings.LimitsReachThePrograms | cmd/natra/main.go:255-293 | from kubelet's numbers and annotations to the live programs and slots: each has exactly the limits its direction resolves to |
| AddFromSettings.NoLimitsNoChange | cmd/natra/main.go:279-284 | a pod without limits is left alone |
| Settings.OffNeverPaces | cmd/natra/main.go:255-293 | with pacing off no ADD, whatever fails, leaves a new program that paces |
| Settings.OnAlwaysPaces | cmd/natra/main.go:255-293 | with pacing on, an ADD that succeeds paces the requested egress direction |
| Settings.OnRefusesHostSide | cmd/natra/main.go:255-293 | with pacing on, an ADD told to attach on the host side changes no pin, filter or qdisc |
| Plugin.Node.RollbackPins | cmd/natra/main.go:643-650 | the rollback loop |
| Plugin.Node.PinAllMaps | pkg/bpf/loader.go:285-304 | the map pinning loop, stopping at the first failure |
| Plugin.Node.AttachDirection | pkg/bpf/loader.go:317-354 | pinned link or replaced filter, with the hook direction flipped on the host side |
| Plugin.Node.AttachSteps | cmd/natra/main.go:652-691 | configure and attach each direction, rolling back on failure |
| Plugin.Node.TryAttachOne | cmd/natra/main.go:598-692 | one attempt, with the fq probe |
| Plugin.Node.AttachAll | cmd/natra/main.go:546-585 | pre-flight check and fallback chain |
| Plugin.Node.CmdDel | cmd/natra/main.go:348-368 | the directory walk removes exactly the container's names |
| EdtGuard.StampsOnlyOverFq | bpf/natra.bpf.c:427-451 | any run of any program an ADD leaves live stamps a packet only on pod-side egress with fq installed |

## Left out

- SharedCell.CoversExactlyWhenFair: over the byte counts of one fixed pattern, both directions are proved for touches less than 64 intervals old (73 minutes); for older ones only sufficiency (SharedCoversOwn) is, because several touches that each round to nothing can still carry together. The conditions a caller can check, TrustedExactlyOnTime, TrustedExactlyWhenOnTime and CaughtExactly, have no such limit.
- SharedCell.CoversPacketsExactlyWhenFair: the same limit, moved forward by the bytes the other packets of the pattern must have.
- TokenBucket.AddedAtLeast: for rates within 10^6 of 2^64 bytes/s only one direction, because there the rounding allowance is as large as what a wrap loses.
- Bandwidth.ParseBandwidth: ASCII text, as ParserIsExact.
- Bandwidth.ParserIsExact: ASCII text. Unicode white space and letters whose upper case is ASCII are not modelled.
- Limits.ChannelsAgree: float64 rounding and out-of-range conversion are inside the arbitrary function `scale`; both channels call the same one.
- Race.RacesOnlyUndercount: one direction's table and a memory in which each aligned read or write is atomic and ordered.
- Attach.AddPins: assumes no pin of the container exists beforehand; names whose removal fails are disregarded.
- The hash function itself and collision probabilities; every statement holds for any hash.
- Kernel, netlink, netns and bpffs behaviour beyond success or failure of a call; the lock around the bucket is taken to make a call atomic.
- Undoing clsact filters, the clsact qdisc or fq after a failed attempt; the code does not, and the filters stay in the model.
- DEL when one container id followed by "-" is a prefix of another's pins; the code removes those too.
- JSON decoding, logging, result printing, CHECK, heap profiles and netns switching.
- `cmd/natra-tools`: reading counters out of band. Its stride of 3 (cmd/natra-tools/profile_linux.go:347) does not match the six slots per direction proved here.
- Test rigs, installers and manifests.
