# HAMi-vnpu-core coordination in Dafny

A Dafny model of how the in-container resource controller shares an NPU: managers of different pods
pass one baton, each plans its share of compute time, hands tokens to the workers of its pod and
measures them, and processes of a pod reserve device memory against one counter, all over shared
atomics and with processes that may crash.

`dafny verify dfyconfig.toml` checks the project.

## Layout

| file | content |
|---|---|
| Arith.dfy | sums, saturating subtraction, products kept as one quantity |
| Shmem.dfy | the shared records, sizes, and the two objects updated in place |
| Ring.dfy, RoundRobin.dfy, BatonSafety.dfy | the ring of waiting managers, rotation, mutual exclusion with crashes |
| FairShare.dfy, Average.dfy, LongRun.dfy | token plan, moving average, proportional share over rotations |
| Ledger.dfy, QuotaRuns.dfy, Overshoot.dfy | slots and counter, serial runs, interleaved hooks |
| InFlight.dfy, SlotRaces.dfy | counter and slots at the granularity of single atomic operations |
| TokenLaw.dfy, Handshake.dfy | the token bucket and the draw/report handshake |
| Election.dfy | one manager per pod, with takeover |
| Manager.dfy, Worker.dfy, Hook.dfy, Supervisor.dfy | the operations in place, each proved to do what the models say |

## Granularity and premises

Memory is sequentially consistent. Waiting is a step that is not enabled; clocks are gone.

* Baton: register, join, one look of the waiting loop (check, deactivation and compare-and-swap) and
  pass are one step each. A crashed manager takes no more steps and its slot stays active until it is
  reclaimed. The watchdog fires only on owners that are not live; `StealKeepsExclusionIff` says what
  that buys. Rotation starts with the owner's entry at the queue front, which `FirstClaimRotatesIff`
  traces to the first claim, and excludes reuse of an index whose old entry is still queued.
  `EveryoneServedIff` shows what the first premise buys, `JoinKeepsDistinctIff`,
  `ReplacementHasTwoTurns` and `ReplacementsEndRotation` what the second does: a successor that reuses
  the index of a crashed waiter is queued twice and gets a double share, and with 65 entries only the
  holder is served. `ServedIff`, `EveryoneServedIff`, `PassCircle` and `JoinCircle` have neither premise.
* Shares: priorities, scale and weight are reals and every rounding in the code is kept, that of f64
  is not. A manager's own average equals the one published in its slot, as registration sets and
  `UpdateLocalStats` keeps it.
* Memory: one device per pod, pids never reused, dead processes stay dead, the device hands out fresh
  handles. The u64 sum of the quota check wraps, as in a release build, and requests are of any size
  below 2^64. `QuotaRuns` runs hooks one after another, on a device that never satisfies a request
  which with the limit exceeds 2^64; `Overshoot` interleaves whole checks with commits and rollbacks;
  `InFlight` interleaves single operations, with re-deriving the counter as one of them; `SlotRaces`
  interleaves single operations on slots with crashes anywhere.
* Tokens: `TokenLaw` interleaves single operations. In `Handshake` a draw is one step and a report is
  one step or a begin and a finish.
* Election: winning, reclaiming and registering are one step, heartbeats are stale only for crashed
  managers, pids are distinct across pods; `HalfRegistrationIsHit` shows why the first is needed.

## What the code does not do

Each with its exact condition, proved for all inputs:

* A queued active manager can wait for ever. In every registry it is served if and only if it owns the
  baton or has an entry behind the front of the circle, which is what passes make of the ring's cells
  (`ServedIff`, `EveryoneServedIff`). With up to 64 entries all are served if and only if the front
  entry is the holder's, inactive, or queued twice (`ShortQueueServedIff`), and after the first claim
  if and only if the claimant is at the front or the front has departed (`FirstClaimRotatesIff`). With
  65 entries only the holder is served; repeated replacement of a waiter that has no free index below
  it gets there from any queue (`ReplacementsEndRotation`).
* A live waiter is stuck if and only if a live manager that has not joined yet sits in the slot the
  baton names (`NoDeadlockIff`); `WaiterIsStuck` is a run that gets there.
* A batch can grant more than its tokens if and only if, when the bucket is stored, a failed draw
  awaits its undo, or there are two processes and a token or a draw under way (`OvergrantIff`).
* A batch's wait can end before every drawer has published if and only if a worker is still measuring
  when it starts (`EarlyEndIff`).
* A crash leaves its slot recoverable if and only if the slot was not in transit (`CrashRecoverableIff`).
* Memory can be claimed beyond the limit if and only if two hooks run at once or a request wraps: runs
  without wrapping requests can if and only if k >= 2 hooks run at once, runs with them as soon as one
  does (`ExceedableIff`), and a run of k hooks exceeds k limits if and only if some request in it wraps
  (`OvershootIff`).
* The counter stops accounting for every byte if and only if a wrapping request is reserved, or the
  counter is re-derived while bytes are counted outside the slots (`StartedRunConservesIff`).
* A recalculation inside the reaping of a slot undercounts if and only if that slot and live processes
  held bytes (`OverlappedReapUndercountsIff`).
* An average of 1 is stuck for every series of measurements if and only if the configured weight is
  below 1/3 (`SmallWeightIsStuckIff`); with the default weight the average ends one short of a higher
  constant measurement (`Converges`).

The election module's comment promises exactly one manager per pod "while surviving crashes"
(crates/limiter/src/supervisor.rs:8-9); it holds under the premises above.

## Model

| member | source | states |
|---|---|---|
| `Shmem.GlobalRegistry.constructor` | crates/limiter/src/shmem/setup.rs:102-104 | a new registry is zeroed and its owner is the one invalid index |
| `Shmem.LocalContainerShmem.constructor` | crates/limiter/src/shmem/mod.rs:78-99 | a pod's region starts zeroed |
| `Ring.Scan` | crates/limiter/src/manager.rs:311-324 | the scan stops at the first position that holds an active manager, having skipped only inactive ones, or after a full turn |
| `Ring.FirstFree` | crates/limiter/src/manager.rs:207-218 | the slot a manager registers in is the first inactive one |
| `Ring.JoinWindow` | crates/limiter/src/manager.rs:260-264 | joining a queue of fewer than 64 entries appends to it, across wrap of the u32 tail |
| `Ring.JoinFullWindow` | crates/limiter/src/manager.rs:260-264 | joining a queue of 64 entries overwrites the front entry as well |
| `Ring.JoinCircle` | crates/limiter/src/manager.rs:260-264 | in every registry a join appends to the circle, or leaves only the new entry of a full one |
| `Ring.PassCircle` | crates/limiter/src/manager.rs:302-333 | in every registry a pass rotates the circle: front out, passer appended, inactive entries at the front skipped, new front owns the baton |
| `Ring.CircleWithinWindow` | crates/limiter/src/manager.rs:302-333 | of a queue of n entries passes see the first (n - 1) mod 64 + 1 |
| `Ring.PassWindow` | crates/limiter/src/manager.rs:302-333 | a pass rotates the queue: front out, passer appended, departed entries at the front skipped, new front owns the baton; up to 64 entries and across u32 wrap |
| `Ring.PassChoosesActive` | crates/limiter/src/manager.rs:308-324 | a pass hands the baton to an active manager or keeps it |
| `RoundRobin.StepKeepsRotation` | crates/limiter/src/manager.rs:260-333 | register, join, pass and departure keep each joined active manager queued exactly once with the owner at the front |
| `RoundRobin.RunKeepsRotation` | crates/limiter/src/manager.rs:260-333 | the same over every run, with uniqueness of each manager's position spelled out |
| `RoundRobin.StepAdvances` | crates/limiter/src/manager.rs:302-333 | no step moves a queued manager further from its turn and each pass brings it one active manager closer |
| `RoundRobin.TurnWithin` | crates/limiter/src/manager.rs:302-333 | a queued manager owns the baton after at most as many passes as active managers are ahead of it |
| `RoundRobin.NewcomerWaits` | crates/limiter/src/manager.rs:260-264 | a manager that joins becomes the last entry of the queue and has exactly as many turns ahead as active managers were queued |
| `RoundRobin.RegisteredMayJoin` | crates/limiter/src/manager.rs:206-222 | a registration makes the first free slot active under its pid with the default average, and its manager may join |
| `RoundRobin.DepartedIsSkipped` | crates/limiter/src/manager.rs:606-615 | a departed manager is handed the baton by no number of passes |
| `RoundRobin.PassKeepsDistinctIff` | crates/limiter/src/manager.rs:302-333 | a pass keeps queue entries distinct if and only if the holder's entry was at the front |
| `RoundRobin.LostEntryStarves` | crates/limiter/src/manager.rs:302-333 | a manager without an entry behind the front of the circle is never handed the baton by any number of passes |
| `RoundRobin.LostEntryStarvesOnRuns` | crates/limiter/src/manager.rs:206-333 | nor by any run of registrations, joins of others, passes and departures, reuse of indices included, while the holder stays |
| `RoundRobin.ServedIff` | crates/limiter/src/manager.rs:302-333 | in every registry with an active holder, passes hand the baton to an active manager if and only if it owns it or has such an entry |
| `RoundRobin.EveryoneServedIff` | crates/limiter/src/manager.rs:302-333 | whoever holds the baton and however long the queue, every queued active manager is handed it after some passes if and only if each but the holder has an entry behind the front of the circle |
| `RoundRobin.ShortQueueServedIff` | crates/limiter/src/manager.rs:302-333 | with up to 64 entries, if and only if the front entry is the holder's, inactive, or queued twice; for distinct active entries, if and only if the holder is at the front |
| `RoundRobin.OverfullQueueSticks` | crates/limiter/src/manager.rs:302-333 | when the circle is a single entry, as with 65 queued, every pass returns the baton to the holder |
| `RoundRobin.FirstClaimRotatesIff` | crates/limiter/src/manager.rs:260-300 | after registrations, joins and departures on a fresh registry the first claim succeeds, starts the rotation if and only if the claimant is at the front, and serves everyone if and only if it is there or the front has departed |
| `RoundRobin.FreshRegistryRotates` | crates/limiter/src/manager.rs:260-333 | from a fresh registry, with the front as first claimant, every further run keeps the rotation |
| `RoundRobin.TurnOrder` | crates/limiter/src/manager.rs:302-333 | with all entries active the k-th pass serves the k-th entry, round and round, also when entries repeat |
| `RoundRobin.JoinKeepsDistinctIff` | crates/limiter/src/manager.rs:260-264 | a join keeps queue entries distinct if and only if the index is not queued already |
| `RoundRobin.ReplacementHasTwoTurns` | crates/limiter/src/manager.rs:206-264 | a successor that registers in the slot of the waiter it replaces is queued twice and has two turns in every rotation |
| `RoundRobin.ReplacementsEndRotation` | crates/limiter/src/manager.rs:206-333 | from any queue of at most 64 entries, as many replacements of a waiter with no free index below it as make 65 end the rotation: all stay active and only the holder is served |
| `RoundRobin.TwoManagersStick` | crates/limiter/src/manager.rs:206-333 | a run of the model: two managers join in order and the waiting one is replaced 63 times |
| `RoundRobin.OutOfOrderClaimStarves` | crates/limiter/src/manager.rs:266-279 | a run of the model: the second to join claims first, and the first to join is never handed the baton |
| `BatonSafety.StepIsSafe` | crates/limiter/src/manager.rs:206-333 | every step, crash, watchdog claim and reclaim included, keeps live managers' slots active under their pid and a live holder the owner |
| `BatonSafety.RunIsSafe` | crates/limiter/src/manager.rs:206-333 | safety and mutual exclusion over every run from a safe state |
| `BatonSafety.MutualExclusion` | crates/limiter/src/manager.rs:206-333 | from a fresh registry at most one live manager holds the baton, and it is the owner with an active slot |
| `BatonSafety.JoinEnqueues` | crates/limiter/src/manager.rs:260-264 | a join makes its manager wait as the last entry of the circle and moves nobody else |
| `BatonSafety.PassGivesTurn` | crates/limiter/src/manager.rs:302-333 | a pass makes the holder wait again, gives the baton to the first active entry of the rotated circle, and a live waiter with that index sees its turn |
| `BatonSafety.NoDeadlockIff` | crates/limiter/src/manager.rs:266-300 | a live waiter has a live holder, an observable turn or an enabled claim if and only if no live manager that has not joined sits in the owner's slot; such a manager has its turn once it joins |
| `BatonSafety.WaiterIsStuck` | crates/limiter/src/manager.rs:206-300 | a run of the model: a crashed holder is reclaimed and its slot reused, and the waiter can do nothing until the newcomer joins |
| `BatonSafety.StaleClaimEvicts` | crates/limiter/src/manager.rs:284-294 | a watchdog claim deactivates the stale owner's slot and no other's, and no other manager's pass reaches it |
| `BatonSafety.StealKeepsExclusionIff` | crates/limiter/src/manager.rs:284-294 | a watchdog claim keeps exclusion if and only if no live manager was holding |
| `FairShare.Anchor` | crates/limiter/src/manager.rs:335-346 | the anchor is the largest average of an active manager, or 1 |
| `FairShare.CeilCovers` | crates/limiter/src/manager.rs:356-360 | the token count before scaling covers priority times anchor and overshoots by less than one token's time |
| `FairShare.FloorLoses` | crates/limiter/src/manager.rs:362-364 | truncating the scaled count loses less than one token's time, and nothing for a whole scale |
| `FairShare.RunBudget` | crates/limiter/src/manager.rs:335-393 | the run budget of a round lies within one token's time below and one unit of priority above priority * anchor * scale |
| `FairShare.RunBudgetByPriority` | crates/limiter/src/manager.rs:350-393 | the same in the configured priority: one of at least 1 counts as it is in both modes, a lower one as 1, or with fixed shares as itself but at least 0.01 |
| `FairShare.PlanCovers` | crates/limiter/src/manager.rs:348-392 | for every input the base is the least token count within the limits that covers priority times anchor, the tokens the greatest within them not above the scaled base, and the run and time limit what these take, capped at u64 |
| `FairShare.RestIs` | crates/limiter/src/manager.rs:370-378 | no rest without fixed shares; with them the nearest whole number to (100 - priority) * anchor * scale, as for priority 1 below and none from 100, capped at u64 |
| `FairShare.DutyCycle` | crates/limiter/src/manager.rs:370-378 | with fixed shares, run over run plus rest lies between p/100 and (p+1)/101, up to half a microsecond of rest |
| `LongRun.TurnsOf` | crates/limiter/src/manager.rs:302-333 | in any number of passes a manager has the number of turns fixed by its queue position |
| `LongRun.RotationsRun` | crates/limiter/src/manager.rs:224-258 | over K full rotations every manager runs its budget exactly K times |
| `LongRun.RotationBounds` | crates/limiter/src/manager.rs:302-393 | the total over K rotations lies in [K p A s, K (p+1) A s), with p the configured priority if at least 1, else 1, or with fixed shares max(p, 0.01) |
| `LongRun.ProportionalShare` | crates/limiter/src/manager.rs:302-393 | total_i (p_j + 1) > total_j p_i for every pair of managers, with configured priorities of at least 1 as they are and lower ones as they count |
| `Average.BlendBetween` | crates/limiter/src/manager.rs:575-579 | the weighted, truncated average lies between its arguments and moves up only when the weighted gap is a whole unit |
| `Average.MeasurementMoves` | crates/limiter/src/manager.rs:571-583 | the new average is the sample, kept within a quarter and four times the old average, plus the weighted part of the old distance to it, rounded down; without tokens nothing changes |
| `Average.SwingBounded` | crates/limiter/src/manager.rs:574-577 | one measurement moves the average by at most a factor of four |
| `Average.AvgStays` | crates/limiter/src/manager.rs:571-583 | measurements of at most m keep the average within [1, m] |
| `Average.NoOverflow` | crates/limiter/src/manager.rs:348-368 | over every run of measurements the budget product, the time limit and the grace period stay inside u64, the multiplication never saturates, tokens stay in 1..2000000, the limit is one and a half budgets and 50 ms, and the grace period a quarter of the limit and 10 ms but at least half a second |
| `Average.SmoothStep` | crates/limiter/src/manager.rs:571-583 | for every weight the average approaches a constant measurement without crossing it, with the exact stall condition |
| `Average.Converges` | crates/limiter/src/manager.rs:571-583 | with weight 0.7 the average reaches m from above, m - 1 from below, within |m - avg| measurements, and stays |
| `Average.FallsGeometrically` | crates/limiter/src/manager.rs:571-583 | for every weight each measurement from above leaves at most 1 - 3/4 of the weight of the distance |
| `Average.RisesGeometrically` | crates/limiter/src/manager.rs:571-583 | for every weight each measurement from below, within a factor of four, leaves at most 1 - weight of the weighted distance less the rounding unit |
| `Average.TriplesWhileFar` | crates/limiter/src/manager.rs:574-577 | with weight 0.7 the average at least triples with each measurement until it is within a factor of four |
| `Average.ConvergesFast` | crates/limiter/src/manager.rs:571-583 | with weight 0.7 the limit is reached after logarithmically many measurements: as soon as 0.475^n of the distance from above is below 1, or 0.3^n of the deficit from below is below 0.4 |
| `Average.SmallWeightIsStuckIff` | crates/limiter/src/manager.rs:571-583 | over every series of measurements an average of 1 stays 1 if and only if the weight is below 1/3 |
| `Manager.RegisterGlobalSlot` | crates/limiter/src/manager.rs:206-222 | takes the first inactive slot, or none when the registry is full |
| `Manager.ReapDeadSlots` | crates/limiter/src/manager.rs:54-77 | frees every dead slot and subtracts what it held from the counter |
| `Manager.ContainerManager.JoinGlobalQueue` | crates/limiter/src/manager.rs:260-264 | performs the model's join on the shared ring |
| `Manager.ContainerManager.PollGlobalTurn` | crates/limiter/src/manager.rs:266-300 | one look of the waiting loop performs the model's poll |
| `Manager.ContainerManager.FindNext` | crates/limiter/src/manager.rs:311-324 | the scanning loop finds the model's scan position and candidate |
| `Manager.ContainerManager.PassBaton` | crates/limiter/src/manager.rs:302-333 | performs the model's pass on the shared ring |
| `Manager.ContainerManager.CalculateFairShare` | crates/limiter/src/manager.rs:335-393 | the loop and arithmetic compute the plan from the anchor and one's own average |
| `Manager.ContainerManager.UpdateLocalStats` | crates/limiter/src/manager.rs:571-583 | folds a measurement into the average, never below 1, and publishes it in one's own slot only |
| `Manager.ContainerManager.StartLocalBatch` | crates/limiter/src/manager.rs:395-403 | opens a batch: the handshake model's start step |
| `Manager.ContainerManager.EnterMeasuringState` | crates/limiter/src/manager.rs:405-410 | empties the bucket and enters measuring: the handshake model's measure step |
| `Manager.ContainerManager.AggregateLocalTimes` | crates/limiter/src/manager.rs:537-569 | returns the length of the smallest interval that holds the batch's reports with non-zero duration, or (0, 0) without any |
| `Manager.ContainerManager.Drop` | crates/limiter/src/manager.rs:606-623 | deactivates one's slot and gives up the role only if it is still one's own |
| `Ledger.OwnSlot` | crates/limiter/src/worker.rs:155-164 | the slot found is the first active one with the process's pid |
| `Ledger.ClaimableSlot` | crates/limiter/src/worker.rs:166-191 | the slot found is the first inactive or dead one |
| `Ledger.FreedCanRegister` | crates/limiter/src/worker.rs:608-615 | a slot given up by drop, reaper or recalculation makes room for a registration |
| `Ledger.RecalcStabilises` | crates/limiter/src/worker.rs:478-518 | from any state one recalculation frees dead slots, keeps live ones, makes the counter the live sum and is idempotent |
| `Ledger.ReapThenRecalc` | crates/limiter/src/manager.rs:54-77 | reaping before a recalculation changes nothing that matters, and nothing at all if and only if dead slots hold nothing on other devices |
| `Ledger.ReapCovers` | crates/limiter/src/manager.rs:54-77 | reaping keeps the counter at or above the live sum if it covered all occupied slots, without hitting the floor |
| `Ledger.OverlappedReapUndercountsIff` | crates/limiter/src/manager.rs:60-75 | a recalculation anywhere between the reaper's claim of one slot and its subtraction makes the counter undercount if and only if that slot and live processes held bytes |
| `Ledger.ReserveAdmitsIff` | crates/limiter/src/worker.rs:385-418 | a reservation is admitted if and only if it fits or its u64 sum wraps to something that fits |
| `QuotaRuns.MallocKeepsInv` | crates/hook/src/hook.rs:36-54 | an allocation keeps the ledger in agreement; its rollback hits the floor if and only if the request wrapped |
| `QuotaRuns.FreeKeepsInv` | crates/limiter/src/worker.rs:437-466 | a release keeps the ledger in agreement and neither subtraction hits its floor |
| `QuotaRuns.RegisterKeepsInv` | crates/limiter/src/worker.rs:154-193 | a registration keeps the ledger in agreement |
| `QuotaRuns.RegisterMoves` | crates/limiter/src/worker.rs:154-193 | a registration succeeds if and only if a slot is the process's own, inactive or dead; then its slot and handle map are empty and the counter is as before |
| `QuotaRuns.MallocMoves` | crates/hook/src/hook.rs:36-75 | an admitted and granted allocation adds exactly its size to the re-derived counter, live bytes, slot and handle map; any other leaves what a recalculation leaves |
| `QuotaRuns.FreeMoves` | crates/limiter/src/worker.rs:437-466 | a release takes exactly what the handle held from counter, slot and map without re-deriving; a failed one changes nothing |
| `QuotaRuns.MallocThenFree` | crates/hook/src/hook.rs:36-95 | round trip: an allocation and its release, or a refused allocation, equal one recalculation, with the counter at the live sum |
| `QuotaRuns.LeavingReturnsBytes` | crates/limiter/src/worker.rs:608-615 | what a process held when it exited or crashed returns to the quota with the next recalculation and not before |
| `QuotaRuns.ReapMoves` | crates/limiter/src/manager.rs:54-77 | reaping frees every dead slot and takes exactly the dead bytes from the counter |
| `QuotaRuns.NoLimitNoLedger` | crates/limiter/src/worker.rs:376-379 | without a limit allocation and release leave the ledger untouched |
| `QuotaRuns.StepKeepsInv` | crates/limiter/src/worker.rs:372-518 | every serial step keeps the invariant and hits a floor if and only if a refused request wrapped |
| `QuotaRuns.SerialRunAgrees` | crates/limiter/src/worker.rs:372-518 | after every serial run live slots equal handle maps, live sum <= memory_used <= memory_limit |
| `QuotaRuns.SerialRunFloorsIff` | crates/limiter/src/worker.rs:421-453 | at every point of a serial run a saturating subtraction hits its floor if and only if a refused request wrapped |
| `QuotaRuns.FreshPodAgrees` | crates/limiter/src/worker.rs:372-518 | from a fresh pod, every serial run ends in agreement within the limit, and the next step keeps that and hits a floor if and only if it is a refused request that wraps |
| `QuotaRuns.WrapIsReached` | crates/limiter/src/worker.rs:385-435 | a run of the model reaches a refused request that wraps, and its rollback hits the floor |
| `Overshoot.StepKeepsBoundIff` | crates/limiter/src/worker.rs:372-435 | with at most k hooks in flight a step keeps committed plus in-flight bytes within k limits if it admits no request that wraps, and only then when k limits are below 2^64; a wrapping request claims at least 2^64 |
| `Overshoot.StartThenFinish` | crates/hook/src/hook.rs:36-75 | a check and its commit or rollback with nothing in between are one allocation of the serial model |
| `Overshoot.CrashGivesUp` | crates/limiter/src/worker.rs:478-496 | a crash gives up what its process's hooks have reserved and nothing of others |
| `Overshoot.OvershootAtMost` | crates/hook/src/hook.rs:36-75 | from a fresh pod no run without a wrapping request claims more than k limits |
| `Overshoot.OvershootIff` | crates/hook/src/hook.rs:36-75 | from a fresh pod with k limits below 2^64, a run claims more than k limits at some point if and only if some request in it wraps |
| `Overshoot.WrapExceeds` | crates/limiter/src/worker.rs:385-400 | for every limit one hook claims 2^64 bytes with a request that wraps |
| `Overshoot.ExceedableIff` | crates/limiter/src/worker.rs:372-419 | without wrapping requests the bound k * limit is reached for every k, so the limit can be exceeded if and only if k >= 2; with them, if and only if k >= 1 |
| `InFlight.StepConservesIff` | crates/limiter/src/worker.rs:385-453 | an atomic step keeps counter = slots + reserved + leaving bytes <= limit if and only if it neither reserves a wrapping request nor re-derives the counter while bytes are outside the slots; no such step heals |
| `InFlight.Reserves` | crates/limiter/src/worker.rs:385-419 | an undisturbed check reserves exactly its size over the re-derived counter, or is refused and reserves nothing |
| `InFlight.LosesRace` | crates/limiter/src/worker.rs:387-417 | a lost compare-and-swap loads the current counter and keeps its request |
| `InFlight.Commits` | crates/limiter/src/worker.rs:421-428 | a commit moves exactly what was reserved into slot and handle map |
| `InFlight.RollsBack` | crates/limiter/src/worker.rs:429-434 | a rollback gives back exactly what was reserved |
| `InFlight.Releases` | crates/limiter/src/worker.rs:437-453 | an undisturbed release takes exactly what the handle held from map, slot and counter |
| `InFlight.RunConservesIff` | crates/limiter/src/worker.rs:385-453 | an interleaving of any number of threads conserves throughout if and only if it has no step of either kind |
| `InFlight.RunConserves` | crates/limiter/src/worker.rs:385-453 | and then ends within the limit, and its next step does not heal |
| `InFlight.StartedRunConservesIff` | crates/limiter/src/worker.rs:372-453 | both from any number of resting threads in an empty pod |
| `InFlight.WrapIsReached` | crates/limiter/src/worker.rs:385-435 | a run of the model, for every limit and holding: one thread's request wraps and its rollback heals |
| `SlotRaces.StepKeepsExclusive` | crates/limiter/src/worker.rs:166-191 | every atomic operation of registration, clean-up, drop or crash keeps slots exclusive |
| `SlotRaces.OthersKeepOff` | crates/limiter/src/worker.rs:483-496 | no other thread changes a slot a live process holds or any thread has in transit |
| `SlotRaces.OneLiveHolder` | crates/limiter/src/worker.rs:154-193 | two live processes never hold the same slot |
| `SlotRaces.StepKeepsBalance` | crates/limiter/src/manager.rs:54-77 | every byte put into slots is in exactly one place, so a dead slot's bytes are subtracted at most once |
| `SlotRaces.SlotsStayExclusive` | crates/limiter/src/worker.rs:154-193 | in every reachable state an inactive slot has pid 0, live holders differ, owners' slots carry their pid, and no more was subtracted than added |
| `SlotRaces.CrashInTransitLeaks` | crates/limiter/src/worker.rs:167-177 | a crash between setting the active flag and storing the pid (or in a clean-up or drop) leaks the slot in every continuation |
| `SlotRaces.CrashRecoverableIff` | crates/limiter/src/worker.rs:166-191 | after a crash of a process that holds or moves a slot, with a live clean-up thread elsewhere, some continuation frees the slot if and only if it was not in transit |
| `SlotRaces.Registers` | crates/limiter/src/worker.rs:154-193 | an undisturbed process comes to own an inactive slot, a dead process's or its own, with its pid and no bytes |
| `SlotRaces.LosersLookOn` | crates/limiter/src/worker.rs:166-191 | who finds the flag set or loses a compare-and-swap changes no slot and looks on |
| `SlotRaces.CleanerFrees` | crates/limiter/src/manager.rs:54-77 | an undisturbed clean-up frees a dead slot and subtracts exactly what it held |
| `SlotRaces.OwnerMoves` | crates/limiter/src/worker.rs:421-466 | an owner adds and takes exactly what it says, and a drop leaves the slot free with its bytes |
| `Worker.RegisterProcSlot` | crates/limiter/src/worker.rs:154-193 | takes one's own slot, else the first inactive or dead one, zeroed |
| `Worker.SchedulerClient.RecalculateUsage` | crates/limiter/src/worker.rs:478-518 | clean-up, sum and correction leave the counter equal to the live sum, which is returned |
| `Worker.SchedulerClient.CheckMemoryQuota` | crates/limiter/src/worker.rs:372-419 | re-derives, then reserves or refuses as the model does |
| `Worker.SchedulerClient.PostAllocHbm` | crates/limiter/src/worker.rs:421-435 | commits to handle map and slot, or rolls back, healing on underflow |
| `Worker.SchedulerClient.PostFreeHbm` | crates/limiter/src/worker.rs:437-466 | releases what the handle held from slot and counter, healing on underflow |
| `Worker.SchedulerClient.Drop` | crates/limiter/src/worker.rs:608-615 | frees the slot and leaves its bytes |
| `Worker.SchedulerClient.DrawToken` | crates/limiter/src/worker.rs:233-287 | an undisturbed look draws exactly when the batch runs with tokens left, as the handshake model's draw step |
| `Worker.SchedulerClient.ReportBatch` | crates/limiter/src/worker.rs:293-297 | publishes exactly once per batch, as the handshake model's report step |
| `Hook.RtMalloc` | crates/hook/src/hook.rs:36-75 | the hook's sequence of check, device call and commit or rollback is the model's allocation |
| `Hook.RtFree` | crates/hook/src/hook.rs:78-95 | the hook's device call and release is the model's release, nothing without a limit |
| `TokenLaw.StepIsLawful` | crates/limiter/src/worker.rs:248-287 | every atomic step keeps tokens = T - grants - pending failed draws + late undos modulo 2^64 |
| `TokenLaw.RunIsLawful` | crates/limiter/src/manager.rs:395-410 | the token law in every interleaving |
| `TokenLaw.PoliteGrants` | crates/limiter/src/worker.rs:248-287 | if no draw happens while a failed one is pending, a batch grants at most T plus the undos that straddle its start, of which there is at most one |
| `TokenLaw.OneProcessGrants` | crates/limiter/src/worker.rs:227-287 | a one-process pod grants at most T + 1 launches a batch, and at most T without a straddling undo |
| `TokenLaw.StraddlingUndoGrantsOneMore` | crates/limiter/src/worker.rs:284-287 | for every T a run of one process grants T + 1 |
| `TokenLaw.PendingUndoOvergrants` | crates/limiter/src/worker.rs:259-287 | in every batch, two processes without pending undo, and a token or a draw under way, can be granted n launches more than its tokens for every n below 2^64 |
| `TokenLaw.OvergrantIff` | crates/limiter/src/worker.rs:227-287 | for every state and size, the batch stored next can grant more than its tokens if and only if a failed draw awaits its undo, or there are two processes and a token or a draw under way |
| `Handshake.StepKeepsInv` | crates/limiter/src/worker.rs:238-297 | every step keeps active_workers the number of drawers and reported_count that of their reports plus late ones |
| `Handshake.CountMeansAllReported` | crates/limiter/src/manager.rs:484-495 | reported never exceeds active by more than the late reports; without these, equal counts mean every drawer has published |
| `Handshake.HandshakeIsSound` | crates/limiter/src/manager.rs:484-501 | the same over every run whose reports are single steps |
| `Handshake.AggregateCoversDrawers` | crates/limiter/src/manager.rs:537-569 | when the counts match, every worker that drew since the batch started has reported, and an interval holds the aggregated reports if and only if it holds every drawer's non-zero measurement, with first draw and reported duration read from the steps of the run |
| `Handshake.NoStaleReport` | crates/limiter/src/worker.rs:358-366 | with reports split in begin and finish, a slot with the current batch id still holds the time of this batch's first draw and the duration reported in it, read from the steps of the run |
| `Handshake.HistoryIs` | crates/limiter/src/worker.rs:238-297 | in every run the model's records of draws and reports are those of the run's own steps since the batch started |
| `Handshake.LateReportEndsWaitEarly` | crates/limiter/src/manager.rs:484-495 | a run of the model: a late report is counted in the next batch and ends its wait before the only drawer has published |
| `Handshake.EarlyEndIff` | crates/limiter/src/manager.rs:484-495 | for every state in which a batch starts, its wait can end with a drawer unpublished if and only if a worker is still measuring |
| `Election.ReclaimClearsOwnPod` | crates/limiter/src/supervisor.rs:156-169 | reclaiming clears the pod's own active slot and leaves every other pod's as it was |
| `Election.ElectWinsIff` | crates/limiter/src/supervisor.rs:66-133 | a standby process that runs the election manages its pod if and only if the recorded manager is not alive and some global slot is inactive or its own pod's |
| `Election.ElectInstalls` | crates/limiter/src/supervisor.rs:66-92 | a winner is recorded with an active slot of its own; against a live manager nothing changes; without room the pod's role is vacant; no other pod's record changes |
| `Election.SuccessorWins` | crates/limiter/src/supervisor.rs:98-169 | when a manager crashes or resigns, any standby process of its pod that runs the election next becomes manager, however full the registry is |
| `Election.StepKeepsInv` | crates/limiter/src/supervisor.rs:66-169 | every step keeps one recorded manager per pod with at most one active slot |
| `Election.OneManagerPerPod` | crates/limiter/src/supervisor.rs:66-169 | in every reachable state a pod has at most one live manager and one active slot, and live managers' slots are theirs |
| `Election.ElectionSparesOtherPods` | crates/limiter/src/supervisor.rs:156-169 | an election never changes a slot active for another pod, reused or not |
| `Election.HalfRegistrationIsHit` | crates/limiter/src/supervisor.rs:156-169 | a run of the model reaches a state in which, between another pod's flag and pid stores, a reclaim clears its flag: the crashed predecessor was evicted and its slot, still under its pid, is the first free |
| `Supervisor.TryBecomeManager` | crates/limiter/src/supervisor.rs:98-124 | claims a vacant role, one's own, or that of a manager that is not alive, and names the predecessor |
| `Supervisor.ReclaimStaleGlobalSlot` | crates/limiter/src/supervisor.rs:156-169 | clears the recorded slot only if it still carries the predecessor's pid |
| `Supervisor.Contend` | crates/limiter/src/supervisor.rs:66-92 | in every model state that the two regions show, one pass of the election loop is the election step, and a win also the takeover step of the batch; the outcome, the registry and the record are also stated outright |

## Left out

- Mapping, sizing and first-time creation of the shared files, futexes, sleeps and clocks: foreign calls; the initial contents are the constructors'.
- Stream and event timing, device discovery and the hardware refresh of slots: foreign; a measured duration is any number, and self-stabilisation covers any slot contents.
- The polling loop of a local round (crates/limiter/src/manager.rs:412-509), its timeouts and its count of consumed tokens: driven by clocks; its effects on shared state are the batch steps.
- Worker report slots' registration (crates/limiter/src/worker.rs:120-152): the same claim pattern as process slots; workers keep their slot here, so re-registration in the middle of a batch is not modelled.
- Devices other than the pod's one: the counter is pod-wide but re-derived per device; only the reaper and the recalculation carry all eight.
- Publication of limit and priority by a new manager, `get_hbm_info`, the no-op stub client and fork handling: easy or plumbing.
- u64 wrap of byte sums other than the quota check's, and of average times 4 beyond its saturation: sums stay far below 2^64.
- Shmem.LocalContainerShmem.constructor: omits the region's priority, heartbeat and initialised flag and the report slots' pid and occupied fields, because no modelled step reads them.
- Manager.ContainerManager.PollGlobalTurn: one look of the waiting loop, because the loop ends only when other managers move; progress is `NoDeadlockIff` and `TurnWithin`.
- Worker.SchedulerClient.DrawToken: an undisturbed look, because races with the manager and other processes are `TokenLaw`'s.
- Worker.SchedulerClient.CheckMemoryQuota: an undisturbed compare-and-swap, because retries are `InFlight`'s.
- RoundRobin.TurnWithin: bounds passes, not time, because how long a round lasts is the device's affair.
