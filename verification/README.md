# A verified model of the multi-hole connection

The `connection` crate spreads one IP flow over four to ten UDP holes between two peers and puts it together
again at the far end; the TUN bridge and the server around it number the packets, route them and hand out
addresses. This project models the decisions those parts take and proves what they keep, step by step and over
whole runs. To check it: `dafny verify dfyconfig.toml`.

## How to read it

Code that changes an object in place is a class here, with the fields of the original and methods that follow its
branches; a ghost field or function gives the value the fields stand for, and each method's postcondition ties the
new value to a specification function of the old one. The theorems are then about those functions, over all
sequences of events. Times are whole nanoseconds in the resequencer and whole milliseconds in the drain; clocks,
random draws and the network's choices are parameters.

- **Order buffer.** `HeldRing.dfy` refines the 512-slot ring, which does not store counters, to a map from
  counters to packets. `ReorderSpec.dfy` is what a session does with one packet or one expiry; `ReorderRuns.dfy`,
  `ReorderHistory.dfy` and `ReorderTheorems.dfy` prove the window invariant, conservation of packets and the order
  of what is handed on over every run; `Lateness.dfy` is the adaptive wait. `Resequencer.dfy` is the imperative
  `Session` and `Resequencer`, proved against `ReorderSpec.dfy`. `PushEffects.dfy` tells what one packet does by
  numbers and moments, `Expiry.dfy` which gaps an expiry gives up, when that is too early and what is remembered of
  them; `Restarts.dfy` follows a sender that counts anew, and `ReorderLimits.dfy` has runs in which the order buffer
  does less than one would expect.
- **End to end.** `Sequencer.dfy` numbers packets per flow bucket, and `EndToEnd.dfy` composes numbering, any
  permutation by the holes and the order buffer. `Pipeline.dfy` puts the duplicate window in between, so that copies
  may come any number of times.
- **Draining a hole.** `Drain.dfy` is the machine at one end; `DrainNetwork.dfy` puts two of them, their timers,
  their Drains and the data in flight into one timed system and proves that the agreed drain loses nothing;
  `DrainMargin.dfy` has the runs that show how exact its conditions are.
- **The hole set.** `Holes.dfy` is the policy `plan`; `P2pCore.dfy`, `P2pRuns.dfy` and `Evaluations.dfy` are the
  manager that carries it out; `LastPlace.dfy` is the race of two managers for the last place.
- **Bit windows.** `Bits.dfy` has the machine-word facts; `Dedup.dfy` and `DedupRuns.dfy` the 4096-bit duplicate
  window modulo 2^32; `Auth.dfy` and `AuthRuns.dfy` sealing, opening and the 64-bit replay window,
  `Signatures.dfy` which bytes a tag covers.
- **Bytes.** `Xor.dfy` is the block-wise mask, `WireFormat.dfy` the three packet forms as byte strings with
  a parser as functions (Protocol Buffers Encoding, sections "Base 128 Varints" and "Length-Delimited Records"),
  `WireGrammar.dfy` the bytes of every field and the exact set of accepted messages, `Wire.dfy` the writer, reader,
  encoders and parser that work in buffers.
- **Indexes and allocators.** `SlotPicker.dfy`, `PortPool.dfy`, `Ports.dfy`, `Hub.dfy`, `AddressBook.dfy`.

## What the proofs say about the code

- An expiry waits as long as it should for every gap if and only if the session's recorded `oldest` is the earliest
  arrival of a held packet (`Expiry.NeverEarlyExactly`). Only a second copy of a held packet can spoil that: it stays
  right exactly if the copy is no later than what is recorded or another held packet arrived at that moment
  (`HeldRings.ExactAfterInsert`, `Expiry.NeverEarlyAfterPush`). Otherwise `oldest` is too early until nothing is held
  or something no later comes, and the next expiry that is due gives up every gap and empties the session, however
  recent its packets are (`Expiry.ExpireGivesUpExactly`, `Expiry.EverythingIsGivenUp`). Such states are reachable for
  every fixed wait (`ReorderLimits.AGapIsGivenUpEarly`). It is never too late (`Expiry.EveryOverdueGapIsGivenUp`).
- A packet that jumps more than 511 numbers ahead is handed on but counted in no statistic, because the counters
  are updated before it is pushed (reorder.rs lines 320-329); the conservation theorem lists those packets apart, and
  `ReorderLimits.AJumpIsNotCounted` is a run with one.
- The drain loses nothing between agreed ends if and only if each end keeps another active hole, delays differ by less
  than the 100 ms between `GRACE` and `CONFIRM_WAIT`, and they are below 1150 ms (`DrainMargin.DrainIsSafeExactly`);
  among delays of at most a second only the difference counts. At a difference of exactly 100 ms a data packet can
  arrive in the same millisecond in which its receiver closes, and never later; at more it comes too late. An end
  without another active hole sends over the one it drains (multilink.rs lines 836-840), so that such data can be lost
  whatever the delays (`DrainMargin.AloneLosesData`). If no Drain gets through in time, data can be lost as well
  (`DrainMargin.UnheardDrainLosesData`).
- The duplicate window is right while every number stays within half the number space of the newest. After such a run
  the next number is dropped exactly if one of the last 4096 looks like it modulo 2^32, however far away it is
  (`DedupRuns.DropsExactlyLookalikes`); a number just 2^31 ahead is not remembered and passes again and again
  (`DedupRuns.HalfAheadIsForgotten`).
- What an expiry passes over is remembered, so that a latecomer's lateness can be measured, only while at most 1024
  numbers are remembered in all; beyond that everything remembered before is forgotten at once
  (`Expiry.ExpireRemembers`).
- The comment in p2p/mod.rs (lines 229-233) promises that two sides cannot block each other on the last place.
  That holds: at least one of the two holes is always accepted. Both are, exactly if two places were left or neither
  side's announcement was overtaken by the answer to the hole it competes with (`LastPlace.BothAcceptedExactly`); on
  the very last place an exchange with a refusal always exists (`LastPlace.LastPlaceCanBeRefused`).
- The replay window lets a packet through exactly if it comes for the first time and none sealed 64 or more later came
  before it. In positions: packets displaced by at most 32 places, half the window, are all let through
  (`AuthRuns.HalfTheWindowIsSafe`), and with 33 places that is no longer so (`AuthRuns.OnePlaceMoreIsTooMuch`).

## Model

| member | source | states |
|---|---|---|
| `HeldRings.HeldRing.Insert` | hp-backend/connection/src/reorder.rs:90-108 | Inserting into the ring is inserting into the map of held packets, with `count`, `lo`, `hi` and `oldest` kept up |
| `HeldRings.HeldRing.Remove` | hp-backend/connection/src/reorder.rs:110-131 | Removing returns what the map holds under that counter, if anything, and takes only that out; both ends and the earliest arrival are found again |
| `HeldRings.HeldRing.First` | hp-backend/connection/src/reorder.rs:82-84 | The cached lower end is the least held counter |
| `HeldRings.ExactIsKept` | hp-backend/connection/src/reorder.rs:90-131 | `oldest` stays the exact earliest arrival under removal and under insertion of a counter that is not held |
| `HeldRings.ExactAfterInsert` | hp-backend/connection/src/reorder.rs:90-108 | In every state: after an insertion `oldest` is exact if and only if nothing was held, or what came is no later than it, or another held packet arrived at that moment |
| `HeldRings.ExactAfterRemove` | hp-backend/connection/src/reorder.rs:110-131 | A removal repairs nothing: `oldest` is exact afterwards if and only if it was before or nothing is left |
| `HeldRings.MirrorsFrom` | hp-backend/connection/src/reorder.rs:86-88 | The slots may be read from any window of 512 that covers the held counters: indexes modulo 512 stay unambiguous |
| `ReorderRuns.PushKeepsSessionInv` | hp-backend/connection/src/reorder.rs:252-338 | Every path of a push leaves all held counters strictly between `next` and `next + 512`, `skipped` below `next` and at most 1024 |
| `ReorderRuns.PushConserves` | hp-backend/connection/src/reorder.rs:252-338 | On every path the pushed packet and the held ones equal what is released, still held or overwritten |
| `ReorderRuns.PushContinues` | hp-backend/connection/src/reorder.rs:252-338 | What a push releases in order goes strictly on from where the session was, unless it renumbers |
| `ReorderRuns.ExpireConserves` | hp-backend/connection/src/reorder.rs:346-372 | An expiry neither loses nor invents a held packet |
| `ReorderRuns.ExpireContinues` | hp-backend/connection/src/reorder.rs:346-372 | What an expiry releases goes strictly on in order up to the new `next` |
| `Expiry.ExpireGivesUpExactly` | hp-backend/connection/src/reorder.rs:346-372 | In every state of a session, which missing numbers an expiry gives up: while `oldest` is exact, those with a held packet beyond them that has waited at least `wait`; otherwise all below something held, as soon as `wait` has passed since `oldest` |
| `Expiry.NeverEarlyExactly` | hp-backend/connection/src/reorder.rs:346-372 | For every wait: no expiry gives up a gap before a held packet beyond it has waited that long, if and only if `oldest` is exact |
| `Expiry.NeverEarlyAfterPush` | hp-backend/connection/src/reorder.rs:252-338 | Whether that is so after a packet arrived, on every path of a push, read off the packet and the state before |
| `Expiry.EverythingIsGivenUp` | hp-backend/connection/src/reorder.rs:346-372 | Once `oldest` is not exact, the first expiry that is due hands on everything held, however recent |
| `Expiry.EveryOverdueGapIsGivenUp` | hp-backend/connection/src/reorder.rs:346-372 | In every state, exact or not, no gap stays in front of a held packet that has waited at least `wait` |
| `Expiry.ExpireRemembers` | hp-backend/connection/src/reorder.rs:354-361 | Every number an expiry passes over is remembered, with the moment its gap was noticed, and so is everything remembered before, if these are at most 1024 together; otherwise only numbers it passed over itself |
| `ReorderLimits.AGapIsGivenUpEarly` | hp-backend/connection/src/reorder.rs:252-372 | For every fixed wait and every shorter time there is a reachable state, after a duplicate, in which an expiry gives up a gap although the only held packet has waited only so long |
| `ReorderLimits.WithoutCopiesNeverEarly` | hp-backend/connection/src/reorder.rs:252-372 | In every reachable state of any run: no expiry of a session is early if and only if its `oldest` is exact, and that is so as long as no held packet was overwritten |
| `ReorderLimits.AJumpIsNotCounted` | hp-backend/connection/src/reorder.rs:320-329 | A second packet more than 511 numbers ahead is handed on and counted nowhere |
| `ReorderRuns.ExpireLeavesNothingDue` | hp-backend/connection/src/reorder.rs:346-372 | An expiry moves on only if the recorded `oldest` has waited at least `wait`, leaves nothing due, and remembers a number as skipped only with such a moment |
| `ReorderSpec.DrainTakesTheRun` | hp-backend/connection/src/reorder.rs:398-405 | Draining hands on the held packets of consecutive counters from `next`, each at its place |
| `ReorderSpec.DrainLeavesTheRest` | hp-backend/connection/src/reorder.rs:398-405 | Draining stops at the first missing counter and leaves the others as they were |
| `ReorderHistory.StepPreservesInv` | hp-backend/connection/src/reorder.rs:252-378 | Every arrival, expiry and pruning keeps the invariant of all sessions and their number at most 16 |
| `ReorderHistory.StepBalances` | hp-backend/connection/src/reorder.rs:252-378 | Over one step, packets in equal packets released, held, overwritten or pruned |
| `ReorderHistory.StepStaysOrdered` | hp-backend/connection/src/reorder.rs:252-378 | Over one step, the log of released packets stays in order per session |
| `ReorderTheorems.EveryRunIsSound` | hp-backend/connection/src/reorder.rs:252-423 | From a new resequencer, every run keeps window invariant, conservation, order, wait and statistics together |
| `ReorderTheorems.EveryPacketIsAccountedFor` | hp-backend/connection/src/reorder.rs:252-423 | Over every run, the multiset of pushed packets is what was released, is held, was overwritten by a duplicate or was pruned; the counters add up to it, apart from jump packets |
| `ReorderTheorems.EveryStreamIncreases` | hp-backend/connection/src/reorder.rs:252-372 | Over every run, the packets of a session that were not late strictly increase in number between renumberings |
| `ReorderTheorems.EveryStateFitsTheRing` | hp-backend/connection/src/reorder.rs:63-131 | In every reachable state each held counter is in the window, `oldest` bounds all arrivals and is exact if nothing was overwritten, `skipped` is bounded, sessions are at most 16 |
| `ReorderTheorems.EveryWaitIsMeasured` | hp-backend/connection/src/reorder.rs:209-248 | In every reachable adaptive state: before 64 samples the wait is the initial one, kept between 3 and 30 ms; from then on it is a sample of the last window of up to 512, and a quarter of it more, kept in those limits, with at most `k` of the `n` samples below that one and fewer than `n - k` above, `k` being the integer nearest to `0.99 * (n - 1)` |
| `ReorderTheorems.EveryFixedWaitStays` | hp-backend/connection/src/reorder.rs:179-212 | A fixed wait stays as set over every run and nothing is measured |
| `ReorderTheorems.ExpireAllIsARun` | hp-backend/connection/src/reorder.rs:346-372 | Expiring all sessions in any order is a run of single expiries, so the run theorems cover `expire_into` |
| `PushEffects.BehindTheExpected` | hp-backend/connection/src/reorder.rs:273-298 | A packet behind the expected number by at most 511, less than three seconds after the session's last one, goes on alone and changes neither the expected number nor what is held; any other follows everything held, in ascending order, and the session goes on from it |
| `PushEffects.TheExpected` | hp-backend/connection/src/reorder.rs:300-319 | The expected packet goes on at once with the held ones that follow it without a gap, up to the first number missing; its lateness is measured from the recorded arrival |
| `PushEffects.AheadOfTheExpected` | hp-backend/connection/src/reorder.rs:320-338 | A packet at most 511 ahead is held with its moment, in place of an earlier copy; one further ahead follows everything held and keeps what was skipped in memory |
| `PushEffects.OpensASession` | hp-backend/connection/src/reorder.rs:266-274 | The first packet of a session goes on at once whatever its number; with 16 sessions open the longest silent one goes, and no other session changes |
| `PushEffects.EveryPacketIsCounted` | hp-backend/connection/src/reorder.rs:252-338 | Which counters a packet raises, by how its number lies to the expected one, and by how much |
| `Restarts.ARestartIsFollowed` | hp-backend/connection/src/reorder.rs:276-289 | After a restart more than 511 behind, or behind after three seconds of silence, all new numbers come out once and in their order, whatever order they arrive in with none more than 511 places early |
| `Restarts.EverySessionSawItsLast` | hp-backend/connection/src/reorder.rs:273-274 | In every reachable state a session's `last_seen` is the moment of its last arrival, whatever was expired since |
| `Restarts.EveryStateShowsItsFigures` | hp-backend/connection/src/reorder.rs:48-53 | In every reachable state `max_held` is the largest number of packets any session ever held at once, and `wait_ms` the current wait in milliseconds |
| `Lateness.PaceFollowsSamples` | hp-backend/connection/src/reorder.rs:209-248 | The ring of samples and the counter of recalculations together mean the wait computed from the last full batch |
| `Lateness.WaitStaysInLimits` | hp-backend/connection/src/reorder.rs:229-248 | The adaptive wait never leaves 3 ms to 30 ms |
| `Lateness.SortSorts` | hp-backend/connection/src/reorder.rs:229-248 | The samples the percentile is read from are sorted and the same samples |
| `Lateness.WaitIsMeasured` | hp-backend/connection/src/reorder.rs:229-248 | The wait computed from a window of samples is one of them with a quarter more, ranked as the 99th percentile, within the limits |
| `Lateness.RoundingDoesNotMatter` | hp-backend/connection/src/reorder.rs:229-248 | For every number of samples that occurs, the percentile's real-valued index lies within 0.49 of the integer index used |
| `Resequencers.Session.Push` | hp-backend/connection/src/reorder.rs:271-338 | The imperative push of a session does what the specification says, to fields, output and counters |
| `Resequencers.Session.Expire` | hp-backend/connection/src/reorder.rs:346-372 | The loop of an expiry ends, and does what the specification says |
| `Resequencers.Session.Drain` | hp-backend/connection/src/reorder.rs:398-405 | The release loop hands on the run of held packets |
| `Resequencers.Session.Flush` | hp-backend/connection/src/reorder.rs:417-423 | Flushing hands on everything held, in increasing order, and empties the ring |
| `Resequencers.Resequencer.PushInto` | hp-backend/connection/src/reorder.rs:252-338 | The whole state after a push, and the packets appended to the output, are those of the specification |
| `Resequencers.Resequencer.ExpireInto` | hp-backend/connection/src/reorder.rs:346-372 | Every session is expired once, as specified, and nothing due remains |
| `Resequencers.Resequencer.NextDeadline` | hp-backend/connection/src/reorder.rs:341-343 | The deadline is the earliest moment at which an expiry would skip a gap |
| `Resequencers.Resequencer.Prune` | hp-backend/connection/src/reorder.rs:374-378 | A session silent longest is dropped, and only that one |
| `Resequencers.Resequencer.Record` | hp-backend/connection/src/reorder.rs:209-248 | Recording a sample changes samples, wait and the published wait as specified |
| `Sequencers.Sequencer.RouteInspected` | hp-backend/tun/src/bridge.rs:53-67 | A TCP packet gets the next number of its bucket, other IP packets none, oversized ones and those that are not IP are dropped |
| `Sequencers.StreamIsConsecutive` | hp-backend/tun/src/bridge.rs:41-67 | Whatever is sent, the packets of a bucket carry consecutive numbers |
| `Sequencers.StreamCarriesPayloads` | hp-backend/tun/src/bridge.rs:41-67 | The numbered packets of a bucket are its TCP packets, in the order read |
| `Sequencers.RoutesByKind` | hp-backend/tun/src/bridge.rs:53-67 | What is longer than 1400 bytes or no IP packet is dropped, TCP is numbered in one of 16 buckets, anything else is not |
| `Sequencers.OthersAreSentToo` | hp-backend/tun/src/bridge.rs:53-67 | The IP packets that are not TCP are sent without a number, in the order read, and nothing else is |
| `EndToEnd.RoomForAll` | hp-backend/tun/src/bridge.rs:26-28 | Sixteen buckets never need more than the sixteen sessions, so none is pruned |
| `EndToEnd.EveryBucketComesOutInOrder` | hp-backend/connection/src/reorder.rs:252-338 | If the holes only permute the packets, each bucket's first arrives first, none overtakes a missing one by more than 511 and no gap is given up, every bucket comes out exactly as read and nothing stays held |
| `Pipeline.FirstCopyPasses` | hp-backend/connection/src/multilink.rs:1216-1246 | While nothing is 4096 late or 2^31 ahead, the first copy of each packet passes the duplicate window and no other does, however many there are and from whatever number the count starts |
| `Pipeline.NumbersArePaced` | hp-backend/connection/src/multilink.rs:1216-1246 | Up to 2^31 packets in all, no copy can be 2^31 ahead of the newest |
| `Pipeline.DuplicatesDoNotMatter` | hp-backend/connection/src/multilink.rs:1216-1248 | Copies repeated any number of times by any paths, in runs of any length: if every packet comes, none 4096 late or 2^31 ahead and the first copies on time, every bucket comes out exactly as read and nothing stays held |
| `Drains.Drain.OnPeerDrain` | hp-backend/connection/src/drain.rs:65-80 | New state and actions on a Drain of the peer, in each state |
| `Drains.Drain.OnTick` | hp-backend/connection/src/drain.rs:83-103 | New state and actions when time has passed, in each state |
| `Drains.Drain.Wakeup` | hp-backend/connection/src/drain.rs:106-112 | The moment a machine wants to be woken, in each state |
| `Drains.EveryDrainEnds` | hp-backend/connection/src/drain.rs:52-112 | With timers served in time, a drain marks once within 2 s and closes once 2.1 s later; a requester sends at most 7 Drains, a receiver at most 8 |
| `Drains.DeadlineIsFixed` | hp-backend/connection/src/drain.rs:65-103 | Once draining, the closing time never moves |
| `Drains.ActionsFollowHistory` | hp-backend/connection/src/drain.rs:52-112 | After any events, every action and wake-up of an end follows from its own history: when it was created, last sent a Drain, stopped and closed - with requests every 300 ms for two seconds, a delete-link from one second on, confirmations again 300 ms after the last Drain, and the closing after 2.1 s |
| `Drains.ConfirmationIsRecent` | hp-backend/connection/src/drain.rs:72-80 | Whenever an asked end that drains receives a Drain, it has itself sent one less than 300 ms ago once it has reacted; an end that asks sends none while it drains |
| `DrainNetwork.RunKeepsInv` | hp-backend/connection/src/drain.rs:18-112 | Over every run of two ends and the network, the timed invariant linking both machines and all messages in flight holds |
| `DrainNetwork.DrainingLosesNothing` | hp-backend/connection/src/drain.rs:18-112 | With another active hole, delays up to 1 s and a spread within `GRACE - CONFIRM_WAIT`, once the ends have heard of each other no data is still on its way to a closed end, save a packet arriving at that very moment with the widest spread |
| `DrainMargin.DrainIsSafeExactly` | hp-backend/connection/src/drain.rs:18-112 | For all delays: no agreed closed end ever has data on the way, in any run, if and only if no end is left without another active hole, delays differ by less than `GRACE - CONFIRM_WAIT` and the last request at 1800 ms, answered by data, is through before 4100 ms |
| `DrainMargin.WithinASecond` | hp-backend/connection/src/drain.rs:18-23 | For delays of at most 1 s, that is so if and only if no end is left alone and they differ by less than `GRACE - CONFIRM_WAIT` |
| `DrainMargin.WideSpreadLosesData` | hp-backend/connection/src/drain.rs:52-103 | With a wider or equal spread there is a run with late data; the receiver closes `least + GRACE - CONFIRM_WAIT` after it was sent |
| `DrainMargin.LongDelaysLoseData` | hp-backend/connection/src/drain.rs:52-103 | With delays of 1150 ms or more there is a run with late data, however little they differ |
| `DrainMargin.AloneLosesData` | hp-backend/connection/src/multilink.rs:836-852 | If an end may be left without another active hole, then for all delays with a least one of at most 1800 ms there is a run in which the other end closes with data just sent to it (longer ones lose data anyway) |
| `DrainMargin.StopsForGoodExactly` | hp-backend/connection/src/multilink.rs:836-852 | In no run is data on the way that was sent after its sender marked the hole as draining, if and only if no end is left without another active hole |
| `DrainNetwork.BothFallSilent` | hp-backend/connection/src/drain.rs:52-112 | In every run each end sends at most 8 Drains and is closed 4.1 s after it began |
| `DrainMargin.UnheardDrainLosesData` | hp-backend/connection/src/drain.rs:83-103 | If no Drain is heard, for all delays there is a run in which an end closes with data just sent to it |
| `Holes.PlanRetiresDistinctLiveHoles` | hp-backend/connection/src/holes.rs:145-207 | No hole is retired twice in a plan, and none that is already draining |
| `Holes.PlanKeepsTheMinimum` | hp-backend/connection/src/holes.rs:145-207 | Live holes less retired plus opened stay at the minimum or above, and outside the badly lossy case a retirement leaves the minimum of active holes |
| `Holes.PlanOpensWithinLimits` | hp-backend/connection/src/holes.rs:145-190 | Above the minimum, an opening replaces a retired hole one for one or is the single growth below the maximum after the interval |
| `Holes.PlanRefills` | hp-backend/connection/src/holes.rs:145-152 | Below the minimum the plan opens exactly what is missing and retires nothing |
| `Holes.PlanReplacesEveryBadHole` | hp-backend/connection/src/holes.rs:104-165 | Every live hole old enough to judge that loses more than the allowed share one way or the other, and no other, is retired, each retirement followed by an opening |
| `Holes.WhatIsCounted` | hp-backend/connection/src/holes.rs:98-150 | Live are the holes not draining, in work the active ones, expired the live ones past their age, each counted once |
| `Holes.PlanDrainsTheOldest` | hp-backend/connection/src/holes.rs:167-185 | As many expired holes as there is slack are retired, those are the oldest, and none is opened |
| `Holes.PlanGrows` | hp-backend/connection/src/holes.rs:187-190 | With nothing urgent, one hole is opened exactly when the set is below its maximum and the interval is over |
| `Holes.PlanCullsTheWorst` | hp-backend/connection/src/holes.rs:192-206 | With nothing urgent and no growth, a hole is culled exactly when more than the minimum are active and one that may be culled loses noticeably; it is a worst of those, and the only one |
| `P2pCore.Core.HandlePeer` | hp-backend/connection/src/p2p/mod.rs:234-246 | State and effect on a peer's record: forwarded, answered or refused |
| `P2pCore.Core.HandleEnded` | hp-backend/connection/src/p2p/mod.rs:249-258 | The hole is forgotten, and remembered as closed if its peer was known |
| `P2pCore.Core.HandleEvaluate` | hp-backend/connection/src/p2p/mod.rs:261-285 | The plan is carried out action by action within the limit of holes |
| `P2pCore.Core.TakeNumber` | hp-backend/connection/src/p2p/mod.rs:269-275 | The search for a number ends with the first one from `next_id` on that is not in use, around the 32-bit circle |
| `P2pCore.SearchStops` | hp-backend/connection/src/p2p/mod.rs:269-272 | The search tries no more numbers than there are holes |
| `Evaluations.EvaluationDrainsWhatIsPlanned` | hp-backend/connection/src/p2p/mod.rs:261-285 | Nothing happens in the first three seconds; afterwards the holes told to drain are, in order, exactly those the plan retires |
| `Evaluations.BadHolesAreReplaced` | hp-backend/connection/src/p2p/mod.rs:261-285 | With the minimum there, exactly the holes that lose too much are told to drain, and with room one is opened for each |
| `Evaluations.ExpiredHolesAreDrained` | hp-backend/connection/src/p2p/mod.rs:261-285 | With nothing bad, as many expired holes as there are active ones beyond the minimum are told to drain, the oldest first |
| `Evaluations.NewHolesAreRecorded` | hp-backend/connection/src/p2p/mod.rs:266-278 | Each hole opened is recorded with the moment and the age picked for it, unanswered; all others stay as they are |
| `Evaluations.NewHolesAreNumbered` | hp-backend/connection/src/p2p/mod.rs:268-276 | Own holes get, in turn, the first free number after the one before, around the 32-bit circle |
| `Evaluations.GrowthIsSpaced` | hp-backend/connection/src/p2p/mod.rs:264-277 | Over every run whose clock does not go back, the set grows beyond its minimum only `add_interval` or more after the start and after every opening before |
| `Evaluations.EveryRecordIsAnswered` | hp-backend/connection/src/p2p/mod.rs:234-246 | What a record of the peer does to every hole, known, closed before, refused for lack of room or new, and the effect that answers it |
| `Evaluations.EndedHolesAreRemembered` | hp-backend/connection/src/p2p/mod.rs:249-258 | A hole that ends is forgotten and, if answered, remembered among the last 256; no other hole changes |
| `P2pCore.FirstFreeIsUnique` | hp-backend/connection/src/p2p/mod.rs:269-275 | The number so described is the only one |
| `P2pRuns.EveryPoolIsBounded` | hp-backend/connection/src/p2p/mod.rs:200-285 | Over every run unanswered holes are at most twice the maximum, all holes three times, remembered closings 256 |
| `P2pRuns.SpawnsTakeFreeNumbers` | hp-backend/connection/src/p2p/mod.rs:234-285 | No spawned hole takes a number in use, nor do two spawned together share one |
| `P2pRuns.EvaluationOpensWhatIsPlanned` | hp-backend/connection/src/p2p/mod.rs:261-285 | With room for them, all planned holes are opened, so the minimum the plan promises is reached |
| `P2pRuns.ClosedHolesStayClosed` | hp-backend/connection/src/p2p/mod.rs:234-258 | A record of one of the last 256 closed holes and sessions opens nothing |
| `LastPlace.LastPlaceProgress` | hp-backend/connection/src/p2p/mod.rs:229-246 | In every order of announcements and answers at least one of the two holes is accepted, and both when two places are left |
| `LastPlace.BothSidesAgree` | hp-backend/connection/src/p2p/mod.rs:229-246 | After any exchange in which both announcements came, the owed answers can be delivered, and then both sides hold the same set of answered holes, larger than before |
| `LastPlace.AcceptedUnlessOvertaken` | hp-backend/connection/src/p2p/mod.rs:234-246 | In every exchange, each side takes the other's hole if and only if it was announced and two places were left or the announcement was not overtaken by the answer to the own hole |
| `LastPlace.BothAcceptedExactly` | hp-backend/connection/src/p2p/mod.rs:229-246 | Both holes are accepted if and only if two places were left or neither answer came ahead of the other announcement |
| `LastPlace.LastPlaceCanBeRefused` | hp-backend/connection/src/p2p/mod.rs:234-246 | On the very last place there is an exchange in which one hole is accepted and the other refused |
| `LastPlace.ALastPlaceRace` | hp-backend/connection/src/p2p/mod.rs:210-246 | Two managers with room for one hole run into such a race from their start, by the first evaluation of each; three deliveries later one hole is accepted and the other refused |
| `Dedup.ShiftedWordBits` | hp-backend/connection/src/dedup.rs:48-65 | A word put together from two neighbours holds exactly the bits that were `shift` places lower, for every shift |
| `Dedup.DedupWindow.ShiftBy` | hp-backend/connection/src/dedup.rs:48-68 | The in-place loops shift the whole 4096-bit window by any distance |
| `Dedup.DedupWindow.Seen` | hp-backend/connection/src/dedup.rs:80-106 | Window and verdict for every number and state |
| `Dedup.DedupWindow.Admit` | hp-backend/connection/src/dedup.rs:72-74 | A packet without a number passes and leaves the window as it is |
| `DedupRuns.DropsExactlyKnownNumbers` | hp-backend/connection/src/dedup.rs:76-106 | Over every run whose numbers stay within half the space of the newest, a packet is dropped exactly when its number arrived before and is fewer than 4096 behind the newest |
| `DedupRuns.EachNumberPassesOnce` | hp-backend/connection/src/dedup.rs:76-106 | While nothing is 4096 late, each number passes exactly once |
| `DedupRuns.WrapChangesNothing` | hp-backend/connection/src/dedup.rs:76-92 | Where the numbers start and whether they pass 2^32 changes no verdict |
| `DedupRuns.DropsExactlyLookalikes` | hp-backend/connection/src/dedup.rs:80-106 | After any paced run, any next number, however far ahead or behind, is dropped if and only if one that arrived, fewer than 4096 behind the newest, equals it modulo 2^32 |
| `DedupRuns.FullLapsAreMistaken` | hp-backend/connection/src/dedup.rs:90-104 | A number any full laps away from a recent one is dropped |
| `DedupRuns.HalfAheadIsForgotten` | hp-backend/connection/src/dedup.rs:90-104 | The bound of half the space is exact: after any paced run, a number 2^31 ahead of the newest changes nothing and passes again at every repetition |
| `Auth.ReplayWindow.IsFresh` | hp-backend/connection/src/auth.rs:232-238 | Fresh means above the top, or within 64 of it and not accepted |
| `Auth.ReplayWindow.Accept` | hp-backend/connection/src/auth.rs:240-250 | Accepting adds the counter and forgets exactly those 64 or more behind the new top |
| `Auth.MovedWordMarks` | hp-backend/connection/src/auth.rs:241-246 | The shifted word marks the new counter and the old ones still in the window, for every distance |
| `Auth.Sealer.Seal` | hp-backend/connection/src/auth.rs:162-178 | Sealing fits the header before the message, uses the next counter and touches nothing else; without room or counters nothing changes |
| `Auth.Opener.Open` | hp-backend/connection/src/auth.rs:272-289 | What is let through and what the window becomes, with a window or without |
| `Auth.CounterRoundTrip` | hp-backend/connection/src/auth.rs:129-134 | Every counter is read back from its eight bytes |
| `Signatures.TheTagCoversExactly` | hp-backend/connection/src/auth.rs:129-139 | Two packets are genuine together for every key if and only if they have the same header, the same length modulo 2^32 and the same first 128 bytes of the message |
| `Signatures.LayoutOfSealed` | hp-backend/connection/src/auth.rs:162-178 | A sealed packet is sixteen bytes of tag, the counter in eight bytes lowest first, and the message |
| `AuthRuns.OpensExactlyNewPackets` | hp-backend/connection/src/auth.rs:224-289 | Over every run of any packets, one is let through exactly when it is genuine, its counter was not let through and none 64 or more above it was |
| `AuthRuns.NoCounterTwice` | hp-backend/connection/src/auth.rs:224-289 | Over every run no counter is let through twice |
| `AuthRuns.SealedIsGenuine` | hp-backend/connection/src/auth.rs:162-178 | A sealed packet is genuine to an opener with the same key and gives back counter and message |
| `AuthRuns.OpensExactlyInTime` | hp-backend/connection/src/auth.rs:142-289 | Packets of one sealer in any order, repeated or lost: one is let through, with its message, if and only if it comes for the first time and none sealed 64 or more later came before |
| `AuthRuns.HalfTheWindowIsSafe` | hp-backend/connection/src/auth.rs:142-289 | If no packet moves by more than 32 places, each is let through at its first arrival and each repetition refused |
| `AuthRuns.OnePlaceMoreIsTooMuch` | hp-backend/connection/src/auth.rs:232-238 | There is a permutation of 66 packets, none moved by more than 33 places, in which one is refused |
| `Xor.CycledTwice` | hp-backend/connection/src/xor.rs:22-39 | Masking twice with the same key restores the bytes |
| `Xor.MaskedByteDigits` | hp-backend/connection/src/xor.rs:22-39 | A masked byte differs from the plain one in exactly the binary digits the key byte has |
| `Xor.Expand` | hp-backend/connection/src/xor.rs:41-47 | The pad is the key repeated to 64 bytes |
| `Xor.XorBlocks` | hp-backend/connection/src/xor.rs:78-88 | Whole blocks are masked in step with the cycled key, and the rest begins where the key begins |
| `Xor.XorWide` | hp-backend/connection/src/xor.rs:70-76 | At widths 16, 32 and 64 the result is the byte-wise mask |
| `Xor.XorInPlace` | hp-backend/connection/src/xor.rs:23-39 | Whichever width is chosen, the bytes are masked with the cycled key |
| `Wire.Mask` | hp-backend/connection/src/codec.rs:43-46 | Exactly the first 152 bytes of a packet, or all of a shorter one, are masked |
| `Wire.MaskCovers` | hp-backend/connection/src/codec.rs:36-46 | Byte `i` below 152 is masked with key byte `i % 16`; the others stay |
| `Wire.UnmaskingRestores` | hp-backend/connection/src/codec.rs:42-46 | Masking again removes the mask |
| `WireFormat.VarintReadsBack` | hp-backend/connection/src/wire.rs:217-227 | Every 64-bit number is read back from its variable-length form, whatever follows |
| `WireFormat.BlockReadsBack` | hp-backend/connection/src/wire.rs:229-235 | Every length-delimited field is read back, whatever follows |
| `WireFormat.MessageReadsBack` | hp-backend/connection/src/wire.rs:123-303 | Each of the three packet forms, with any slot, numbers, client, flow, pid and payload, parses as exactly that packet |
| `WireFormat.MessagesAreDistinct` | hp-backend/connection/src/wire.rs:28-34 | Different packets have different bytes; a zero pid or flow differs from none |
| `WireGrammar.WritesExactly` | hp-backend/connection/src/wire.rs:9-199 | The bytes of each form with the numbers of all fields written out, and which fields are left out when |
| `WireGrammar.ParsesExactly` | hp-backend/connection/src/wire.rs:201-303 | A byte string is accepted as a packet if and only if it is a message of the grammar: known fields in any order, none twice, numbers of up to ten bytes, nothing after the end |
| `Wire.VarintLen` | hp-backend/connection/src/wire.rs:36-43 | The computed length is the number of bytes written |
| `Wire.BytesFieldLen` | hp-backend/connection/src/wire.rs:72-75 | The same for a byte field with tag and length |
| `Wire.Writer.PutVarint` | hp-backend/connection/src/wire.rs:57-63 | Writing succeeds exactly when it fits, and then appends the variable-length form |
| `Wire.Writer.PutBytes` | hp-backend/connection/src/wire.rs:65-69 | Writing bytes succeeds exactly when they fit |
| `Wire.BeginLite` | hp-backend/connection/src/wire.rs:89-109 | The lengths computed beforehand are those of what is written, and the part before the inner message succeeds exactly when it fits |
| `Wire.FinishLite` | hp-backend/connection/src/wire.rs:110-118 | The last field, signature and mask complete the packet, or nothing is sent and no counter used |
| `Wire.EncodeData` | hp-backend/connection/src/wire.rs:123-132 | Encoding succeeds exactly when the signed message fits and a counter is left; then the buffer starts with that packet, sealed and masked |
| `Wire.EncodeWrapped` | hp-backend/connection/src/wire.rs:137-170 | The same for a client's packet behind a router |
| `Wire.EncodeOrdered` | hp-backend/connection/src/wire.rs:173-199 | The same for a numbered packet |
| `Wire.Reader.TakeVarint` | hp-backend/connection/src/wire.rs:217-227 | The reading loop is the specified reader, with its limit of ten bytes and 64 bits |
| `Wire.Parse` | hp-backend/connection/src/wire.rs:240-303 | The parsing loops are the specified parser, refusing unknown and repeated fields and trailing bytes |
| `Wire.EncodedPacketsArrive` | hp-backend/connection/src/wire.rs:86-303 | What an encoder wrote, unmasked, is genuine and parses as the packet that was encoded |
| `SlotPickers.SlotPicker.Compact` | hp-backend/connection/src/multilink.rs:244-251 | The in-place compaction keeps exactly the slots that are still live, in order |
| `SlotPickers.SlotPicker.Pick` | hp-backend/connection/src/multilink.rs:243-264 | Result and remaining slots of a pick, for every random draw |
| `SlotPickers.PicksAreLive` | hp-backend/connection/src/multilink.rs:243-264 | Over every run only live slots are picked, and one whenever any is live |
| `SlotPickers.NoRepeatWithinARound` | hp-backend/connection/src/multilink.rs:223-264 | However the live set changes, no slot is picked twice in one round |
| `SlotPickers.LoadIsEven` | hp-backend/connection/src/multilink.rs:223-264 | With a fixed live set of at most ten, after any number of picks each was picked the even share, rounded down or up |
| `SlotPickers.PoolIs` | hp-backend/connection/src/multilink.rs:243-258 | A pick chooses among the live slots left of the round, or, when none is left, among the first ten live ones |
| `SlotPickers.EverySlotIsEquallyLikely` | hp-backend/connection/src/multilink.rs:259-264 | Each slot of the pool is picked for exactly one remainder of the random number |
| `SlotPickers.XorShift32.Next` | hp-backend/connection/src/multilink.rs:287-294 | The next state is the scrambled one and never zero |
| `SlotPickers.ScrambledIsNotZero` | hp-backend/connection/src/multilink.rs:287-294 | No stage of the generator turns a non-zero state into zero |
| `PortPools.PortPool.Lease` | hp-backend/connection/src/port_pool.rs:35-46 | A leased port is in range and held by nobody; a lease fails exactly when all ports are held |
| `PortPools.PortPool.Release` | hp-backend/connection/src/port_pool.rs:53-56 | Dropping a lease frees that port and no other |
| `PortPools.PortPool.InUse` | hp-backend/connection/src/port_pool.rs:49-51 | The bits counted over the words are the outstanding leases |
| `Ports.ZigzagPorts` | hp-backend/connection/src/port_utils.rs:59-77 | For all arguments: which ports are listed, each once, nearer ones first and the upper side first |
| `Ports.EveryPortOnce` | hp-backend/connection/src/port_utils.rs:53-58 | With the center within the bounds, every port of the range but 0 is listed once, in non-decreasing distance |
| `Ports.SweepBounds` | hp-backend/connection/src/port_utils.rs:80-84 | The range covers both ports and everything within the margin of either, among the valid ports |
| `Ports.Interleave` | hp-backend/connection/src/punch.rs:407-416 | All first entries, then all second ones and so on, each exactly once |
| `Ports.NobodyIsBehind` | hp-backend/connection/src/punch.rs:393-416 | Of every prefix of the order: it merges first parts of the candidates' lists, each in its own order, and these differ by at most one unless a list is through |
| `Ports.EverybodyIsServed` | hp-backend/connection/src/punch.rs:407-416 | The whole order merges all lists completely, each in its own order |
| `Ports.SweepOrder` | hp-backend/connection/src/punch.rs:396-417 | The order is the interleaving of every candidate's own sweep |
| `Hubs.Routes.Assign` | hp-backend/tun/src/hub.rs:78-92 | The two maps after an assignment |
| `Hubs.AssignedPairs` | hp-backend/tun/src/hub.rs:76-92 | The owner has that address and no other, the previous owner none, all other pairs are as before |
| `Hubs.AssigningAgainChangesNothing` | hp-backend/tun/src/hub.rs:81-83 | Repeating an assignment keeps link and flow counters |
| `Hubs.AssignedTargets` | hp-backend/tun/src/hub.rs:84-92 | After a new assignment the address leads to that link and client with all 16 counters at 0; every other address leads where it led, with its counters, except the owner's former one |
| `Hubs.RemovedPeerIsGone` | hp-backend/tun/src/hub.rs:115-122 | In both directions exactly the pairs of the removed peer are gone |
| `Hubs.UplinkCountsOne` | hp-backend/tun/src/hub.rs:141-147 | A packet changes one counter at most, that of its bucket behind its destination if it is a TCP packet of at most 1400 bytes |
| `Hubs.Routes.RemovePeer` | hp-backend/tun/src/hub.rs:115-122 | Exactly the entries of that peer and of the clients behind it are gone from both maps |
| `Hubs.Routes.Uplink` | hp-backend/tun/src/hub.rs:141-147 | A packet goes to the holder of its destination with the next number of that holder's flow, and only that counter moves |
| `Hubs.Routes.Downlink` | hp-backend/tun/src/hub.rs:166-176 | A packet is let in exactly if its source is the address given to that client of that peer |
| `Hubs.EveryTableIsInverse` | hp-backend/tun/src/hub.rs:42-122 | Over every run the two maps stay inverse to each other |
| `Hubs.RepliesGoBack` | hp-backend/tun/src/hub.rs:129-171 | After every run, a source is accepted from a client of a peer exactly when replies to it go to that client of that peer |
| `AddressBooks.AddressBook.GetOrAssign` | hp-server/src/addresses.rs:46-60 | The known address, or the lowest free one of the pool, or failure when there is none |
| `AddressBooks.PoolIsInside` | hp-server/src/addresses.rs:72-85 | What is handed out lies in the subnet and is neither its network nor its broadcast address |
| `AddressBooks.PoolsSplitTheSubnet` | hp-server/src/addresses.rs:72-89 | From 512 addresses on the two pools split everything strictly inside whose last byte is neither 0 nor 255, the first 256 for computers; in a smaller subnet both share everything strictly inside |
| `AddressBooks.SubnetIsARange` | hp-server/src/addresses.rs:62-77 | An address is in the subnet exactly if it lies between network and broadcast address |
| `AddressBooks.NewAddressesAreUsable` | hp-server/src/addresses.rs:53-57 | A newly given address is free, strictly between network and broadcast, and not the server's |
| `AddressBooks.AnswersNeverClash` | hp-server/src/addresses.rs:46-60 | Over every run from a book without clashes, two answers are the same address exactly when they are for the same key |
| `AddressBooks.FailsOnlyWhenFull` | hp-server/src/addresses.rs:46-60 | A request fails exactly when its key has no address and its whole pool is taken |

## Left out

- Counters at the end of their range: numbers of packets and the replay window's top are unbounded here; the sealer's
  own limit is modelled, a flow of 2^64 packets is not.
- Order of hash maps: where the source walks a hash map (`expire_into`, `prune`, `remove_peer`), the model takes any
  order.
- `limit_slots` and `LinkRegistry` (`multilink.rs:826-852`): which other holes an end has is not followed; the drain
  model has a parameter that says whether an end may be left without another active one.
- Drain shell: the loop of `SlotBase::drain` that calls the machine is taken as timely steps. Drains may be lost or
  multiplied; data the network itself loses is not a step, since the theorem is about data that does arrive.
- Drain and delete-link messages: both count as a Drain to the peer, as in the source; peers of older versions are not
  a separate kind of end.
- Loss shares are real numbers: negative zero and not-a-number do not occur.
- Ageing of holes: the random lifetime of a hole is a parameter.
- Holes.PlanKeepsTheMinimum: speaks of one plan; since a retired hole stays active until its drain is agreed, the number
  of active holes over a run is not bounded below by it.
- Pipeline.DuplicatesDoNotMatter: takes every packet to carry a `pid`, as it does when statistics are collected;
  without one, copies are not recognised by the source either.
- P2pRuns.EveryPoolIsBounded: needs twice the maximum of holes to be no more than there are numbers, 2^32; otherwise the
  search for a free number in the source would not end.
- Peer sessions: addresses and keys in a peer's record are not modelled, only its hole number and session.
- Log output, statistics text and the hexadecimal form of session keys.
- Sorting in the percentile and in `plan` is insertion sort here; only order and contents are used.
- Cryptography: the tag is an unknown function of key, counter, length and signed prefix; forging is not considered.
  The key derivations, the rendezvous signature and the random start of a sealer are not part of this model.
- Bytes outside the three fast forms (Init, keep-alive, statistics, offers) and their Protocol Buffers library.
- WireGrammar.ParsesExactly: that the general library would accept or refuse the same malformed bytes is not stated.
- Bitwise operations: single bits are read, set and cleared in machine words; exclusive or on bytes is spelled out
  digit by digit, and the 32-bit subnet mask is division by the size of the subnet.
- Persisting the address book and reading it back; a loaded book is any map.
- PortPools.PortPool.InUse: the processor's population count is taken as the number of set bits of a word.
- Sockets, tasks, timers, STUN, MQTT, TLS, TUN devices, the hole-punching exchange and all user interfaces.
