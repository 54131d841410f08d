# ApexOS: verified models of the radio stack and the agent's control code

ApexOS runs an agent daemon (`agentd`) on a small computer with a microcontroller
"brainstem" that keeps a radio mesh. This project models, in Dafny, the parts
whose correctness spans many calls, power cuts and interleavings, and proves what
they keep over every run.

**Radio stack** (`apexos-mesh-proto`, `firmware/brainstem`)

- `ReplayWindow.dfy`, `ReplayTable.dfy`, `InboxTable.dfy`, `Handover.dfy` - the
  anti-replay bitmap (compare section 3.4.3 of RFC 4303), the never-evict table
  of windows, the inbox, and the decision that joins them.
- `Store.dfy`, `Brainstem.dfy`, `FlashBytes.dfy`, `Lives.dfy`, `Redelivery.dfy`,
  `SaveOrder.dfy`, `PowerCuts.dfy` - saving both tables to flash slot by slot, power
  cuts between any two slots, reboots, the bytes that stay, what whole lives keep, a
  packet delivered twice, and what the order of the two saves means for the re-ACK law.
- `Counter.dfy` - the lock-free nonce counter (section 2.8 of RFC 8439).
- `Cobs.dfy`, `Frames.dfy`, `Chunks.dfy` - framing, the streaming deframer, bulk chunks.
- `Adverts.dfy`, `Neighbors.dfy` - advertising structures and the liveness table.

**Agent control** (`agentd`)

- `Goals.dfy`, `GoalRuns.dfy`, `GoalEvents.dfy`, `GoalHonesty.dfy` - the autonomous
  goal driver: its handlers, what every run keeps, what each event does to a goal, and
  which goals escape the stall clock.
- `Addresses.dfy`, `CellTree.dfy` - the mandala's cell tree.
- `Budgets.dfy`, `Laps.dfy` - its budgets, and a measured cell spending and renewing them.
- `Turns.dfy` - one assistant turn with its tool rounds.
- `Wakeups.dfy`, `CancelledWakeups.dfy` - the wakeup caps, and how cancelling evades them.
- `Evolution.dfy` - self-modification and its rollback.

`Words.dfy`, `Bits.dfy`, `Search.dfy` and `Counting.dfy` hold machine words and byte
layouts, bit operations, first-match search, and counting.

Code that works in place is a class (or a method over arrays) proved against a
specification function; the lemmas then speak about that function. A run is a
sequence of events; a power cut is a save event that stops after any number of
slots, followed by a reboot that keeps only flash.

## Where the code and its documentation part

- **The radio loop spends the counter before the decision.** `main.rs:603` offers
  every frame to the replay table and `decide_radio_inbound` at line 632 offers it
  again, so the decision is never `Deliver` (`Handover.RadioLoopNeverDelivers`),
  nothing is ever held (`Handover.RadioLoopNeverHolds`) and addressed packets are
  re-ACKed at once. The hand-over theorems are about `decide_radio_inbound` as the
  only writer, the way its own module states the law.
- **The replay table is saved before the inbox.** The re-ACK law of
  `inbox.rs:9-11` survives a power cut exactly when the replay save was safe
  (`PowerCuts.SafeSaveSurvivesTheCut`); it holds over every life of safe saves
  (`SaveOrder.ReAckMeansTaken`), saving the inbox first is safe
  (`SaveOrder.InboxFirstIsSafe`), and the shipped order is not
  (`PowerCuts.ReplayFirstLosesThePacket`). All of these are about the decision as
  the only writer; with the radio loop's extra offer the packet is lost earlier.
- **A cut inbox save can lose a packet that is on flash and held in RAM**, when the
  host took it, a reboot brought it up for delivery again and another packet now
  sits below it (`Redelivery.RedeliveredPairIsLost`). `Lives.EveryCutKeepsExactly`
  is the exact condition. What is lost was handed to the host before
  (`Lives.FlashedIsNeverLost`).
- **A re-ACK also answers counter 0 and counters older than the window**
  (`Handover.ReAckOutOfReach`), so the law is stated for counters at least 1 that
  the window still reaches.
- **A mark set on an orphan is never cleared.** The effective parent prefers it
  even when the parent is back (`worker.rs:2572`), so "reports to the nearest
  living ancestor" has the exact condition `CellTree.ReportsToTheNearestExactly`.
- **The stall exemption can outlive its batch**, exactly as
  `GoalHonesty.HonestExactly` says; `GoalHonesty.ADishonestRun` is a run that does it.
- **Cancelling fired wakeups lifts the daily bound**
  (`CancelledWakeups.CancelBreaksTheBound`).
- **A lap that reports no reading is judged on the old record.** `mandala.rs:669-671`
  promises renewal to a cell whose last lap strictly decreased; after one fall, laps
  without a reading are granted as well (`Laps.GrantKeepsThePromiseExactly`), until
  the parent is spent (`Laps.SilentLapsSpendEverything`).
- **"At most twice the root"** (`mandala.rs:301-303`) has the exact condition
  `Budgets.TwiceTheRootExactly`.
- **The session counter is seeded from saved histories and mesh sessions, not
  from reloaded goals** (`main.rs:296-307`). The run theorems about goals assume
  it is past them (`GoalRuns.Seeded`); `GoalHonesty.SeedingIsNeededExactly` and
  `GoalHonesty.NoBorrowedApprovalExactly` show that this is what they need, and
  `GoalHonesty.UnseededRuns` what happens without.
- **The outermost advertising length byte wraps** for bodies over 245 bytes
  (`Adverts.LengthBytesAreTrue`).
- **A registration into an absent plugin list does nothing** although it is
  acknowledged, which is why emptying the list cannot be undone
  (`Evolution.UndoRestoresExactly`).

## Assumptions

Writing one flash record is atomic. Serializer, checksum, hash and the image
rewrite are parameters; the round trips ask of the serializer only that it undoes
itself and writes no empty frame. Tool-call ids never repeat (they come from one
process-wide counter). Bus events reach the goal driver without loss. Neighbour
sightings have increasing times. The wakeup clock does not run back, generated
wakeup ids are new, and `cancel_schedule` is not aimed at a wakeup fired that day.

## Model

| member | source | states |
|---|---|---|
| `ReplayWindows.AcceptMeaning` | apexos-mesh-proto/src/crypto.rs:169-196 | for every window and every size of jump, the shift and mask operations insert the counter into the marked set, forget exactly what slid out, and admit exactly the positive, unmarked counters still in reach |
| `ReplayWindows.MarkedBit` | apexos-mesh-proto/src/crypto.rs:169-196 | bit i of the new bitmap is set exactly for the counter just accepted or for an old bit carried over, at any shift |
| `ReplayWindows.WindowRefinesSet` | apexos-mesh-proto/src/crypto.rs:134-196 | from any window that faithfully records a set of accepted counters, the answers to any call sequence are those of the set |
| `ReplayWindows.TracksStep` | apexos-mesh-proto/src/crypto.rs:169-196 | bit i set exactly when highest - i was accepted, kept by every call |
| `ReplayWindows.WindowIsASet` | apexos-mesh-proto/src/crypto.rs:134-196 | from power-on, any call sequence is answered true exactly for counters at least 1, never accepted, and above highest - 64 |
| `ReplayWindows.RejectionIsPermanent` | apexos-mesh-proto/src/crypto.rs:169-196 | a refused counter stays refused whatever is accepted afterwards |
| `ReplayWindows.ReplayWindow.CheckAndAccept` | apexos-mesh-proto/src/crypto.rs:169-196 | the in-place step is the specified one and admits exactly the fresh counters |
| `ReplayTables.ReplayTable.Accept` | apexos-mesh-proto/src/crypto.rs:230-251 | the in-place table step equals its specification: own window, else first vacant slot, else full, never evicting |
| `ReplayTables.AcceptKeepsPlaces` | apexos-mesh-proto/src/crypto.rs:219-251 | senders fill a gap-free prefix, each once, and no sender ever moves |
| `ReplayTables.AcceptRemembers` | apexos-mesh-proto/src/crypto.rs:230-251 | Fresh marks the very pair, nothing else becomes marked, other answers change nothing, and no refusal is ever lifted for any sender |
| `ReplayTables.AnswerMeaning` | apexos-mesh-proto/src/crypto.rs:230-251 | exactly when the answer is Replay and exactly when it is TableFull |
| `ReplayTables.RefusalInReachIsMarked` | apexos-mesh-proto/src/crypto.rs:169-196 | a refusal of a counter the window still reaches means that pair was accepted before |
| `ReplayTables.SlotRoundTrip` | apexos-mesh-proto/src/crypto.rs:284-301 | the 18-byte record decodes to the entry it was made from |
| `ReplayTables.LoadMeaning` | apexos-mesh-proto/src/crypto.rs:268-281 | a record is refused exactly when it is short or brings a new sender to a full table; a known sender keeps its window, a new one takes the first vacant slot, nothing else changes |
| `ReplayTables.ReplayTable.Load` | apexos-mesh-proto/src/crypto.rs:268-281 | restores one record in place: a known sender is left alone, an undecodable one or a full table refuses |
| `ReplayTables.ReplayTable.Encode` | apexos-mesh-proto/src/crypto.rs:261-264 | a record exactly for an occupied slot |
| `InboxTables.InboxTable.Put` | apexos-mesh-proto/src/inbox.rs:78-97 | insert in place: oversize and full are refused without change, a held pair is accepted without change, else the first vacant slot is taken; slots stay distinct and well formed |
| `InboxTables.InboxTable.Remove` | apexos-mesh-proto/src/inbox.rs:99-106 | take in place: returns the held packet exactly when the pair is held and frees that slot only |
| `InboxTables.InboxTable.Load` | apexos-mesh-proto/src/inbox.rs:122-130 | restores one record in place: a zero length loads as nothing, an undecodable or refused record is an error without change |
| `InboxTables.InboxTable.Encode` | apexos-mesh-proto/src/inbox.rs:114-120 | every slot in range has a record, a vacant one the zero record |
| `InboxTables.InboxTable.Len` | apexos-mesh-proto/src/inbox.rs:58-60 | the loop counts the occupied slots |
| `InboxTables.ContainsMeans` | apexos-mesh-proto/src/inbox.rs:70-74 | a pair is contained exactly when some slot holds it |
| `InboxTables.InsertMeaning` | apexos-mesh-proto/src/inbox.rs:78-97 | insert adds exactly the one pair and keeps pairs distinct and tails zero-filled |
| `InboxTables.InsertHoldsThePacket` | apexos-mesh-proto/src/inbox.rs:78-97 | exactly when a packet is refused; a new pair lands in the first vacant slot with its own length and bytes, and no other slot changes |
| `InboxTables.TakeMeaning` | apexos-mesh-proto/src/inbox.rs:99-106 | take removes exactly the one pair |
| `InboxTables.CountIsFull` | apexos-mesh-proto/src/inbox.rs:58-68 | the count-based full test agrees with finding no vacant slot |
| `InboxTables.SlotRoundTrip` | apexos-mesh-proto/src/inbox.rs:179-210 | the 268-byte record with its zero tail decodes to the slot it was made from |
| `InboxTables.TombstoneIsEmpty` | apexos-mesh-proto/src/inbox.rs:114-130 | the record written for a vacant slot decodes to a packet of length zero, which a load skips |
| `Handover.DecideRadioInbound` | apexos-mesh-proto/src/inbox.rs:156-177 | the method over both tables in place does exactly the specified decision |
| `Handover.DecisionMeaning` | apexos-mesh-proto/src/inbox.rs:156-177 | exactly when a frame is delivered, made to wait, or dropped; nothing but a delivery changes either table |
| `Handover.InsertNeverRefuses` | apexos-mesh-proto/src/inbox.rs:167-173 | the insert result that the code discards is never an error |
| `Handover.StepInv` | apexos-mesh-proto/src/inbox.rs:156-177 | every arrival and every host take keeps: delivered pairs are the disjoint union of held and taken, and all of them are refused by the replay table |
| `Handover.DeliveredAtMostOnce` | apexos-mesh-proto/src/inbox.rs:156-177 | in no run is the same (sender, ctr) delivered at two different moments |
| `Handover.HandoverLaw` | apexos-mesh-proto/src/inbox.rs:9-11 | in every reachable state delivered = held or taken, never both, and a re-ACK for a counter at least 1 and in reach is only given for a taken pair |
| `Handover.DeliveredPacketIsHeld` | apexos-mesh-proto/src/inbox.rs:78-172 | in every reachable state each occupied slot holds, byte for byte, the packet delivered for its pair, and every pair delivered and not taken has such a slot |
| `Handover.ReAckOutOfReach` | apexos-mesh-proto/src/crypto.rs:169-187 | both exclusions of that law are needed: for every sender and every h, after h was delivered and taken, counter 0 and every counter at or below h - 64 is re-ACKed though never delivered |
| `Handover.RadioLoopNeverDelivers` | firmware/brainstem/src/bin/main.rs:603-668 | the radio loop offers each frame to the replay table before the decision, so the decision is never Deliver and a fresh fitting packet is re-ACKed although nobody held it |
| `Handover.DecideAloneDelivers` | firmware/brainstem/src/bin/main.rs:603-668 | without that first offer the same frame is delivered in exactly those cases |
| `Handover.RadioLoopNeverHolds` | firmware/brainstem/src/bin/main.rs:603-668 | over any run of the radio loop from an empty inbox nothing is ever held, and every fresh addressed packet that fits is re-ACKed |
| `Handover.FirstPacketIsReAckedUnheld` | firmware/brainstem/src/bin/main.rs:603-668 | concretely, the first packet a new board hears |
| `Stores.Store.SaveInbox` | firmware/brainstem/src/store.rs:310-326 | writes slot records in order, tombstones included; stopped at any slot the bank is the new prefix and the old rest, other keys untouched |
| `Stores.Store.SaveReplay` | firmware/brainstem/src/store.rs:328-344 | writes occupied slots in order; stopped at any slot earlier records are new and later ones old, other keys untouched |
| `Stores.Store.LoadInbox` | firmware/brainstem/src/store.rs:286-308 | the loop over keys builds the table the bank describes and fails exactly when a record is torn, undecodable or refused |
| `Stores.Store.LoadReplay` | firmware/brainstem/src/store.rs:261-284 | the same for the replay bank, where a record of the wrong length also fails |
| `Stores.Store.ReserveCounters` | firmware/brainstem/src/store.rs:225-242 | a successful reservation has stored the ceiling it returns; a failed one changes nothing; other keys untouched |
| `Stores.InboxSaveHolds` | firmware/brainstem/src/store.rs:310-326 | the bytes left by a save cut at any slot hold the new slots up to the cut and the old ones after it |
| `Stores.ReplaySaveHolds` | firmware/brainstem/src/store.rs:328-344 | the bytes left by a cut replay save hold, slot by slot, the new entry before the cut and the old one after it |
| `Stores.RestoreMeaning` | firmware/brainstem/src/store.rs:286-308 | loading compacts: every nonempty packet comes back, none is invented, and each lands at or below the flash slot it came from |
| `Stores.RestoreNeverRefuses` | firmware/brainstem/src/store.rs:286-308 | no packet is refused on the way |
| `Stores.LoadIsRestore` | firmware/brainstem/src/store.rs:286-308 | on a bank that holds well-formed slots, loading the bytes never fails and is the restore of those slots |
| `Stores.LoadReplayIsIdentity` | firmware/brainstem/src/store.rs:261-284 | a packed replay bank loads back slot for slot |
| `Stores.InboxLoadsExactly` | firmware/brainstem/src/store.rs:286-308 | an inbox bank of any bytes is refused exactly when some record is torn, shorter than its header, or claims a packet over 256 bytes or not all there |
| `Stores.ReplayLoadsExactly` | firmware/brainstem/src/store.rs:261-284 | a replay bank of any bytes is refused exactly when some record is torn or not 18 bytes long |
| `Stores.ReservationMeaning` | firmware/brainstem/src/store.rs:225-258 | a reservation starts at the stored ceiling, at zero only when none was ever stored, and ends 1024 above it or at the top of the range; a torn or short record never yields one |
| `Brainstem.StepInv` | firmware/brainstem/src/store.rs:261-344 | arrivals, takes, saves cut after any slot and reboots all keep the crash invariant (a held pair on flash is on flash at or above its RAM slot; durable acceptances are refused by RAM and flash alike) |
| `FlashBytes.WriteHolds` | firmware/brainstem/src/store.rs:310-344 | the records written by any event, cut saves included, hold the logical flash slots |
| `FlashBytes.EveryFlashLoads` | firmware/brainstem/src/store.rs:261-344 | from a blank flash, after any sequence of events with saves cut anywhere, the bytes of both banks load, and to exactly the tables a reboot is given |
| `Lives.CutSaveKeepsHeldPairs` | firmware/brainstem/src/store.rs:286-326 | after any life, cutting an inbox save after any slot and rebooting keeps every nonempty pair that was on flash and still held and that the host has not taken since the last whole save or reboot |
| `Lives.EveryCutKeepsExactly` | firmware/brainstem/src/store.rs:286-326 | the exact condition: a pair held in RAM slot j comes back from a cut after every number of slots if and only if flash holds it in slot j or later |
| `Redelivery.RedeliveredPairIsLost` | firmware/brainstem/src/store.rs:261-326 | why the exclusion is needed, for every two senders, counter and packet: delivered, saved, taken after a reboot and delivered again behind another packet, the pair is on flash and in RAM, and a save cut after one slot loses it |
| `Lives.FlashedIsNeverLost` | firmware/brainstem/src/store.rs:261-344 | durability over whole lives: once flash holds a packet, after any arrivals, takes, cut saves and reboots the host took it, or flash and RAM both still hold it |
| `Lives.OnlyDeliveredPackets` | firmware/brainstem/src/store.rs:286-326 | over whole lives, cut saves and reboots included, what RAM or flash holds for a pair is byte for byte a packet delivered for that pair |
| `Lives.CutSaveInventsNothing` | firmware/brainstem/src/store.rs:286-326 | after such a cut every slot restored was in RAM or on flash before |
| `Lives.WholeSaveReloadsExactly` | firmware/brainstem/src/store.rs:286-326 | after a whole save a reboot brings back exactly the nonempty held pairs |
| `Brainstem.SaveReplayMixes` | firmware/brainstem/src/store.rs:328-344 | a cut replay save leaves each sender its old or its new window in the same slot and stays packed |
| `Lives.CutReplaySaveReloads` | firmware/brainstem/src/store.rs:261-344 | and it reloads so after any life |
| `Lives.DurablePairsStayRefused` | firmware/brainstem/src/store.rs:261-344 | in every life a pair accepted before some whole replay save is answered Replay, before and after one more reboot |
| `Lives.SavedAcceptanceIsForever` | firmware/brainstem/src/store.rs:261-344 | from a delivery followed by a whole replay save, no later run of cut saves and reboots makes the pair fresh again |
| `SaveOrder.OrderStep` | firmware/brainstem/src/bin/main.rs:517-528 | with only safe replay saves, every step keeps each marked pair taken or held, in RAM and on flash |
| `SaveOrder.SafeToSaveExactly` | firmware/brainstem/src/store.rs:328-344 | a replay save cut after k slots keeps flash accountable if and only if every untaken held pair it marks in those slots is on the inbox's flash already |
| `PowerCuts.SafeSaveSurvivesTheCut` | firmware/brainstem/src/store.rs:261-344 | the same seen after the power cut: every marked pair is held or was taken, exactly when the save was safe |
| `PowerCuts.UnsafeSaveBreaksTheLaw` | firmware/brainstem/src/store.rs:261-344 | after an unsafe save and a power cut some pair never taken is answered with a re-ACK, or dropped while the inbox is full |
| `SaveOrder.InboxFirstIsSafe` | firmware/brainstem/src/bin/main.rs:517-528 | a replay save is safe whenever nothing was delivered since the last whole inbox save |
| `SaveOrder.ReAckMeansTaken` | apexos-mesh-proto/src/inbox.rs:9-11 | with only safe replay saves, over any life of cuts and reboots, a re-ACK for a counter in reach is only given for a taken pair |
| `PowerCuts.ReplayFirstLosesThePacket` | firmware/brainstem/src/bin/main.rs:517-528 | the shipped order, for every life where the decision alone meets each frame: deliver, save replay whole, lose power; the retry is answered as a replay and the packet is held only if flash had it already |
| `PowerCuts.ReplayFirstLosesTheFirstPacket` | firmware/brainstem/src/bin/main.rs:517-528 | concretely, where the decision alone meets each frame, the very first packet a new board hears is re-ACKed without ever being taken |
| `PowerCuts.DeliveredIsNotOnFlash` | firmware/brainstem/src/bin/main.rs:517-528 | a pair delivered now and not taken since the last whole save is not on flash yet |
| `Counter.NonceInjective` | apexos-mesh-proto/src/crypto.rs:28-33 | different (sender, counter) pairs have different nonces |
| `Counter.AadInjective` | apexos-mesh-proto/src/crypto.rs:38-45 | different headers have different associated data |
| `Counter.StepInv` | firmware/brainstem/src/counter.rs:25-52 | every single atomic access of every task, top-up, failed or unreported write and reboot keeps the allocator invariant |
| `Counter.NeverHandedOutTwice` | firmware/brainstem/src/counter.rs:39-52 | over every interleaving and any number of reboots no counter is handed out twice, none is 0, none exceeds what flash promises |
| `Counter.HandedOutUnderThePromise` | firmware/brainstem/src/counter.rs:39-52 | at the moment it is handed out a number is new and at most the ceiling already on flash |
| `Counter.ExhaustedBootRepeats` | apexos-mesh-proto/src/crypto.rs:307-316 | the saturation at 2^64 - 1: the first number after a boot is new if and only if the promise was not at the top with its last number spent |
| `Counter.ShortLivesAreAllowed` | apexos-mesh-proto/src/crypto.rs:307-316 | that boot cannot occur while the stored value leaves room for the reservations made |
| `Counter.PromiseGrowsSlowly` | firmware/brainstem/src/store.rs:225-242 | n events raise the stored value by at most 1024 n |
| `Counter.NoncesNeverRepeat` | apexos-mesh-proto/src/crypto.rs:28-33 | no two frames of one board, nor of two boards with different ids, ever use the same nonce |
| `Counter.TryIsARun` | firmware/brainstem/src/counter.rs:39-52 | one call, whatever the other tasks do between its three accesses, is a run of the step machine, and what it takes is the last number issued in it |
| `Counter.TryTakesANewNumber` | firmware/brainstem/src/counter.rs:39-52 | so a number returned is new, nonzero and within the promise, under any interference |
| `Counter.NoneMeansUsedUp` | firmware/brainstem/src/counter.rs:39-52 | under any interference a call that returns no number leaves the range used up: no next number, or one above the ceiling; a lost exchange is always retried |
| `Counter.TopUpReachesThePromise` | firmware/brainstem/src/counter.rs:31-33 | a top-up that is reported and adopted brings the ceiling to all flash promises, 1024 more than before or the top of the range |
| `Counter.TryUndisturbed` | firmware/brainstem/src/counter.rs:39-52 | left alone a call takes the next number, exactly when there is one under the ceiling |
| `Counter.Allocator.TryNext` | firmware/brainstem/src/counter.rs:39-52 | the retry loop over the two cells returns what that run takes and leaves the cells as its end state has them |
| `Counter.Allocator.Raise` | firmware/brainstem/src/counter.rs:31-33 | adopting a stored reservation moves the cells as the machine's step does, never lowers the ceiling and stays within the promise |
| `Counter.Allocator.Init` | firmware/brainstem/src/counter.rs:25-28 | called with what a reservation returned, the cells are the machine's after a boot: above every number ever handed out, unless the range is spent |
| `Cobs.RoundTrip` | apexos-mesh-proto/src/frame.rs:13-44 | COBS: decoding undoes encoding for every byte string, and the coded bytes hold no zero |
| `Cobs.DecodeUndoesEncode` | apexos-mesh-proto/src/frame.rs:13-44 | the same from any half-built block, across the 254-byte block boundary |
| `Cobs.DecodesOnlyEncodings` | apexos-mesh-proto/src/frame.rs:28-33 | the converse: whatever non-empty bytes decode are the encoding of the result, or that less the empty last block the encoder adds after a full one |
| `Frames.FrameRoundTrip` | apexos-mesh-proto/src/frame.rs:13-44 | whenever encoding succeeds the wire is a zero-free run plus one delimiter, at most 4096 bytes, and decodes to the frame |
| `Frames.EncodedWhen` | apexos-mesh-proto/src/frame.rs:13-25 | which frames are refused: those the serializer fails on, and by size none up to 4074 serialized bytes and all above 4090 |
| `Frames.OnlyIntactFramesComeOut` | apexos-mesh-proto/src/frame.rs:28-44 | for every stream of bytes, what comes out are exactly the frames of the zero-delimited runs whose unstuffed bytes end in the checksum of the rest and whose rest parses with nothing left over, in order; exactly the runs with a wrong checksum are in crc_fail |
| `Frames.DamagedRunIsCounted` | apexos-mesh-proto/src/frame.rs:132-168 | a run with a wrong checksum yields nothing and adds exactly one to crc_fail, nothing else |
| `Frames.KindMeans` | apexos-mesh-proto/src/frame.rs:28-44 | whether a run counts as a frame or as a checksum failure, told from its unstuffed bytes, the checksum and the parser alone |
| `Frames.Deframer.Push` | apexos-mesh-proto/src/frame.rs:132-168 | the byte loop over buffer, skip flag and counters computes the specified state and output for any bytes from any state |
| `Frames.DeframerSplitsOnZero` | apexos-mesh-proto/src/frame.rs:112-168 | for every stream the frames out are exactly the successful decodes of the zero-delimited runs of 1 to 4095 bytes, in order, and buffer, skip flag and all five counters are those of the split (resyncs = oversize drops less one while skipping) |
| `Frames.NextByte` | apexos-mesh-proto/src/frame.rs:132-168 | one byte keeps that agreement |
| `Frames.RunEnds` | apexos-mesh-proto/src/frame.rs:132-168 | the closing zero changes exactly the counter of the kind of run it closes |
| `Frames.PiecesDoNotMatter` | apexos-mesh-proto/src/frame.rs:132-168 | however a stream is cut into pushes the frames are those of its zero-delimited runs |
| `Frames.BufferStaysBelowTheLimit` | apexos-mesh-proto/src/frame.rs:132-168 | the buffer stays below 4096 bytes at every byte of every stream |
| `Frames.EveryRunIsCountedOnce` | apexos-mesh-proto/src/frame.rs:83-110 | every delimited run falls in exactly one counter and the frame counter is the number of frames |
| `Frames.DelimitedRun` | apexos-mesh-proto/src/frame.rs:13-25 | a zero-free run and its delimiter yield their frame exactly when together at most 4096 bytes and decodable: the limits of both sides meet |
| `Frames.DelimiterRestoresFraming` | apexos-mesh-proto/src/frame.rs:112-168 | from any state, one delimiter gives at most one old frame and after it any encoded frames come out exactly, in order |
| `Chunks.GeometryIsSound` | apexos-mesh-proto/src/chunk.rs:94-147 | for every geometry accepted no expected length underflows, each is in 1..=chunk_len, and they sum to total_len |
| `Chunks.CutFitsTheGrid` | apexos-mesh-proto/src/chunk.rs:33-50 | the pieces have exactly the number and lengths the announcement describes |
| `Chunks.JoinUndoesCut` | apexos-mesh-proto/src/chunk.rs:33-50 | joining the pieces gives the blob |
| `Chunks.DeliveryHolds` | apexos-mesh-proto/src/chunk.rs:149-167 | chunks in any order with any duplicates never error, and exactly those that arrived are held |
| `Chunks.BlobRoundTrip` | apexos-mesh-proto/src/chunk.rs:33-198 | for every blob accepted: its own announcement is accepted, delivery in any order succeeds, the vacant slots are the undelivered indexes, and finishing returns the blob exactly when all arrived |
| `Chunks.OnlyTheAnnouncedBlob` | apexos-mesh-proto/src/chunk.rs:149-198 | whatever chunks are offered in whatever order: a blob comes back only when every slot was filled, and then it has the announced length and hashes to the announced root; full slots that hash otherwise are RootMismatch |
| `Chunks.SlotHoldsFirstFit` | apexos-mesh-proto/src/chunk.rs:149-167 | after any offers a slot holds the first one that named the root and the slot and had its length, for good; vacant means none did |
| `Chunks.OfferAnswered` | apexos-mesh-proto/src/chunk.rs:149-167 | how an offer is answered, told from the offers before it: refused unless it fits, new if none fitted before, otherwise accepted exactly when it repeats the first |
| `Chunks.AcceptedBlobs` | apexos-mesh-proto/src/chunk.rs:33-50 | exactly which blobs the chunker takes |
| `Chunks.Reassembler.New` | apexos-mesh-proto/src/chunk.rs:94-115 | accepts exactly the geometries that tile the total length |
| `Chunks.Reassembler.Accept` | apexos-mesh-proto/src/chunk.rs:149-167 | in place: foreign root, bad index, wrong length and conflicting bytes are refused without change, a duplicate is reported as not new |
| `Chunks.Reassembler.Missing` | apexos-mesh-proto/src/chunk.rs:170-177 | ascending list of exactly the vacant indexes |
| `Chunks.Reassembler.FinishBlob` | apexos-mesh-proto/src/chunk.rs:185-198 | the append loop returns the gathered bytes, or Incomplete, or RootMismatch |
| `NeighborTables.TableIsTheNewestEight` | firmware/brainstem/src/neighbors.rs:46-110 | for any history at increasing times the table is exactly the eight most recently heard distinct nodes with their latest time and strength |
| `NeighborTables.RecentMeaning` | firmware/brainstem/src/neighbors.rs:46-57 | the specification list holds each node's last sighting and nothing else |
| `NeighborTables.EvictsTheOldest` | firmware/brainstem/src/neighbors.rs:88-110 | in a full table the slot chosen for a stranger is that of the longest unheard node |
| `NeighborTables.MissedOnlyWhenCrowdedOut` | firmware/brainstem/src/neighbors.rs:69-74 | a node last heard within 30 s is reported gone if and only if at least eight other nodes were heard after it |
| `NeighborTables.AliveExactly` | firmware/brainstem/src/neighbors.rs:69-74 | a node is alive exactly when its last sighting is less than 30 seconds old and fewer than eight other nodes were heard since |
| `NeighborTables.SameNodes` | firmware/brainstem/src/neighbors.rs:46-57 | the nodes listed before a node's last sighting are exactly those heard after it |
| `NeighborTables.Neighbors.Heard` | firmware/brainstem/src/neighbors.rs:46-57 | in place: own slot, else a free one, else the stalest is overwritten |
| `NeighborTables.Neighbors.FindSlot` | firmware/brainstem/src/neighbors.rs:88-110 | the three scans find that slot |
| `NeighborTables.Neighbors.IsAlive` | firmware/brainstem/src/neighbors.rs:69-74 | the scan answers whether the table has a recent enough entry of the node; what that means for a history is `AliveExactly` |
| `Adverts.Advertise` | firmware/brainstem/src/radio.rs:154-186 | filling the fixed buffer byte by byte gives the specified command |
| `Adverts.LengthBytesAreTrue` | firmware/brainstem/src/radio.rs:154-186 | both inner length bytes are always true, the outermost exactly when the body is at most 245 bytes (above that it wraps) |
| `Adverts.CommandCarriesTheStructure` | firmware/brainstem/src/radio.rs:154-186 | the command carries one manufacturer structure with company id, magic and the frame |
| `Adverts.ParseExtAdvReport` | firmware/brainstem/src/radio.rs:250-295 | the index loop computes the specified walk and stays in bounds on every byte string |
| `Adverts.WalkSkipsForeign` | firmware/brainstem/src/radio.rs:250-295 | any well-formed structures that are not ours are stepped over exactly |
| `Adverts.HeardAsSent` | firmware/brainstem/src/radio.rs:154-295 | what is advertised, after any foreign structures and before any tail, is heard as the same frame with the report's signed signal strength |
| `Adverts.WalkIsHonest` | firmware/brainstem/src/radio.rs:250-295 | on arbitrary bytes a frame is only taken from inside the data, from a manufacturer structure of the stated length whose body starts with our company id and magic and whose rest, at most 248 bytes, parses to the frame with nothing left over |
| `Adverts.OnlyReportsAreHeard` | firmware/brainstem/src/radio.rs:250-295 | a frame is only heard in an extended advertising report whose stated data is all there |
| `Adverts.AdvertisedWhen` | firmware/brainstem/src/radio.rs:154-186 | a frame is advertised exactly when it serializes to at most 248 bytes |
| `GoalRuns.StepInv` | agentd/crates/agentd/src/goal.rs:265-346 | every bus event keeps: distinct sessions, steps in budget, sound batch books, exact auto-approval set, no Acting goal stranded |
| `GoalRuns.NoGoalIsStranded` | agentd/crates/agentd/src/goal.rs:265-346 | in every reachable state an Acting goal has a prompt out or awaits an unreported batch; 1 <= step <= max_steps <= 100; a goal's session is auto-approved exactly when it asked and is Acting or Blocked |
| `GoalRuns.FinalIsForever` | agentd/crates/agentd/src/goal.rs:386-452 | Done and Cancelled goals never change state or step again, restarts included |
| `GoalEvents.VerdictDecides` | agentd/crates/agentd/src/goal.rs:520-596 | what the agent's word on a step does: done, or carrying on at the last step, is Done and disarmed; blocked is Blocked and stays armed; else the next step is prompted; no other goal changes |
| `GoalEvents.TurnDecides` | agentd/crates/agentd/src/goal.rs:540-596 | the same from the recorded word; a turn that ends without one counts as carrying on |
| `GoalEvents.ResumedOrCancelled` | agentd/crates/agentd/src/goal.rs:386-452 | Blocked and Failed goals, and no others, resume at the step where they stood; Acting and Blocked ones, and no others, are cancelled and disarmed |
| `GoalEvents.HeldAndReturned` | agentd/crates/agentd/src/goal.rs:672-790 | a turn that ends with batches out holds the goal; the last batch to report takes it one step on, never past its budget, and prompts it; an approval parks it and keeps it armed |
| `GoalEvents.ReportedForGood` | agentd/crates/agentd/src/goal.rs:300-346 | a batch that reported is out no more, whatever its workers still say, until a restart |
| `GoalEvents.CreatedGoal` | agentd/crates/agentd/src/goal.rs:455-500 | a new goal acts on a session of its own from step 1, prompted, with 12 steps by default or the low 32 bits of the request kept between 1 and 100 |
| `GoalEvents.RestartParks` | agentd/crates/agentd/src/goal.rs:352-383 | a restart parks what was Acting, keeps every other state and every step, and re-arms exactly the resumable goals that asked for it |
| `GoalHonesty.ClockFailsExactly` | agentd/crates/agentd/src/goal.rs:621-637 | the sweep fails an Acting goal exactly when it is not flagged as awaiting a batch and its step is overdue, and then disarms it |
| `GoalHonesty.ExemptionOutlivesTheBatch` | agentd/crates/agentd/src/goal.rs:748-764 | the flag survives approval block, report and resume: an Acting goal with no batch out that no clock ever fails |
| `GoalHonesty.HonestExactly` | agentd/crates/agentd/src/goal.rs:386-418 | while every exempt Acting goal has a batch out, one event breaks that if and only if it resumes a goal still flagged though its batches have all reported |
| `GoalHonesty.AlwaysHonestExactly` | agentd/crates/agentd/src/goal.rs:265-346 | over whole runs the exemption always means a batch is out if and only if no such resume happens |
| `GoalHonesty.ADishonestRun` | agentd/crates/agentd/src/goal.rs:386-418 | a run from a new daemon that gets there: create, fan out, hold, approval, report, resume |
| `GoalHonesty.SeedingIsNeededExactly` | agentd/crates/agentd/src/main.rs:296-307 | however many sessions are opened in between, a new goal gets a session of its own if and only if every goal on record has a session below the counter |
| `GoalHonesty.NoBorrowedApprovalExactly` | agentd/crates/agentd/src/main.rs:296-307 | no ordinary session is ever handed an auto-approved id if and only if every armed goal has a session below the counter |
| `GoalHonesty.UnseededRuns` | agentd/crates/agentd/src/main.rs:296-307 | runs from a new daemon restarted with the counter at 1: two goals share a session, and the next ordinary session is auto-approved |
| `Goals.GoalDriver.CreateGoal` | agentd/crates/agentd/src/goal.rs:455-500 | new goal at step 1 on a fresh session, budget clamped after truncation to 32 bits, prompted at once; nothing without an objective |
| `Goals.GoalDriver.Record` | agentd/crates/agentd/src/goal.rs:520-536 | the verdict is kept for the goal acting on the session, if there is one |
| `Goals.GoalDriver.OnTurnComplete` | agentd/crates/agentd/src/goal.rs:540-595 | with batches out the goal is held; else its verdict ends, parks or advances it, and the last step ends it |
| `Goals.GoalDriver.OnApprovalPending` | agentd/crates/agentd/src/goal.rs:748-764 | the acting goal is blocked and its turn cancelled, its awaiting flag untouched |
| `Goals.GoalDriver.OnWorkerStateChanged` | agentd/crates/agentd/src/goal.rs:317-321 | a batch already reported is not pending again |
| `Goals.GoalDriver.OnTaskBatchDone` | agentd/crates/agentd/src/goal.rs:324-337 | only the last of a session's batches resumes its held goal |
| `Goals.GoalDriver.FailStalled` | agentd/crates/agentd/src/goal.rs:621-637 | all stalled goals fail in one sweep and their sessions are disarmed, whatever order the map is walked in |
| `Goals.GoalDriver.ResumeGoal` | agentd/crates/agentd/src/goal.rs:386-418 | only Blocked or Failed goals resume; a yolo goal is re-armed |
| `Goals.GoalDriver.CancelGoal` | agentd/crates/agentd/src/goal.rs:423-452 | only Acting or Blocked goals are cancelled; the session is disarmed and its turn cancelled |
| `Goals.GoalDriver.LoadAll` | agentd/crates/agentd/src/goal.rs:352-382 | after a restart in-flight goals are parked, transient fields cleared and exactly the armed ones re-armed |
| `Goals.GoalDriver.Reload` | agentd/crates/agentd/src/goal.rs:352-382 | the driver built from the saved goals, its goal counter exactly the larger of its seed and one past the highest loaded id |
| `Budgets.ChainIsBounded` | agentd/crates/agentd/src/mandala.rs:290-299 | any chain of admitted children is no longer than the root's depth and never gains steps or deadline |
| `Budgets.ContractIsAdmissible` | agentd/crates/agentd/src/mandala.rs:290-311 | the default child is admitted exactly when the parent has depth 2, a step, a cell and room |
| `Budgets.TotalWorkIsBounded` | agentd/crates/agentd/src/mandala.rs:301-311 | steps along a contraction chain sum to at most twice the root's plus its depth |
| `Budgets.TwiceTheRootExactly` | agentd/crates/agentd/src/mandala.rs:301-311 | the documented "at most twice the root" holds if and only if the chain is no longer than the bit length of the root's steps plus its one bits |
| `Budgets.TwiceTheRootFails` | agentd/crates/agentd/src/mandala.rs:301-311 | a root of one step and three cells already breaks it |
| `Budgets.RenewalConserves` | agentd/crates/agentd/src/worker.rs:2682-2690 | a renewal never creates steps, moves them exactly until the cell's 16-bit word saturates, and leaves the parent at least one |
| `Budgets.RenewalsDrainTheParent` | agentd/crates/agentd/src/mandala.rs:675-681 | halving with floor 1 takes p to exactly 1 in ceil(log2 p) steps and not fewer |
| `Laps.GrantedExactly` | agentd/crates/agentd/src/worker.rs:2618-2640 | a lap is granted steps exactly when the cell is measured and at its ceiling, the parent has two steps to share and the record the lap is judged on ends in a fall; a K-stall never hides a fall |
| `Laps.LapMeaning` | agentd/crates/agentd/src/worker.rs:2609-2662 | a measured cell whose last two readings both did not fall rests, keeping step, ceiling and parent; a cell at its ceiling without a grant is done; every other lap takes the next step, at the ceiling with half the parent's steps moved to ceiling and budget record |
| `Laps.EndedForGood` | agentd/crates/agentd/src/worker.rs:2580-2662 | a cell that ended never works again: steps, ceiling, record and budget stay |
| `Laps.RecordIsTheReadings` | agentd/crates/agentd/src/worker.rs:2664-2681 | the record is the last 64 readings the run reported, in order, from continued and finishing turns alike |
| `Laps.GrantKeepsThePromiseExactly` | agentd/crates/agentd/src/worker.rs:2612-2640 | a granted lap's own reading strictly decreased, as the renewal law promises (mandala.rs:669-671), if and only if the lap carried a reading |
| `Laps.SilentLapsSpendEverything` | agentd/crates/agentd/src/worker.rs:2609-2690 | for every measured cell whose record last fell: laps without any reading are granted until the parent has exactly one step left, and only then does the cell end |
| `Laps.SilentLapIsGranted` | agentd/crates/agentd/src/worker.rs:2612-2640 | an input where the lap reports no reading and is granted all the same |
| `Laps.RunDrains` | agentd/crates/agentd/src/worker.rs:2609-2690 | over any run of reports, rests, wakes and sibling grants, the parent is halved (floor 1) once for each grant and not otherwise |
| `Laps.GrantsDrainTheParent` | agentd/crates/agentd/src/mandala.rs:669-681 | over any run the parent keeps a step and gives at most ceil(log2 p) grants, and it is down to exactly 1 if and only if it gave them all |
| `Laps.StepsAreBudgeted` | agentd/crates/agentd/src/worker.rs:2609-2690 | over any run the cell never steps past its ceiling, and ceiling, parent and what siblings took add up to the same all along |
| `Laps.StepsAreBounded` | agentd/crates/agentd/src/worker.rs:2609-2690 | so a cell takes at most its first ceiling and all but one of its parent's steps |
| `Laps.GrantsAreSpaced` | agentd/crates/agentd/src/worker.rs:2627-2640 | a grant of g raises the ceiling by g, so the next g - 1 laps renew nothing, whatever they report |
| `Laps.ThreeFallsOneGrant` | agentd/crates/agentd/src/worker.rs:2609-2690 | three falling readings in a row at a ceiling of four, under a parent of eight steps: one grant, parent left with four |
| `Laps.RecordsConserve` | agentd/crates/agentd/src/worker.rs:2682-2690 | over any run the parent's and the cell's budget records together never gain a step |
| `Addresses.AncestryIsSegmentPrefix` | agentd/crates/agentd/src/mandala.rs:250-257 | the string test is proper prefix segment by segment, for all strings |
| `Addresses.ParentDropsOneSegment` | agentd/crates/agentd/src/mandala.rs:237-240 | the parent is the address without its last segment |
| `Addresses.AncestorsThroughParent` | agentd/crates/agentd/src/mandala.rs:237-257 | the ancestors are the parent and the parent's ancestors |
| `Addresses.RootIsAboveAll` | agentd/crates/agentd/src/mandala.rs:225-257 | every address the parser accepts is the root or below it |
| `Addresses.DecimalRoundTrip` | agentd/crates/agentd/src/mandala.rs:246-248 | a printed ordinal parses back to itself |
| `Addresses.ChildIsValid` | agentd/crates/agentd/src/mandala.rs:225-248 | exactly which minted addresses the parser takes back: a valid parent, an ordinal below a million, at most 64 characters in all |
| `CellTree.ReparentOrphans` | agentd/crates/agentd/src/mandala.rs:566-595 | the in-place pass gives the same tree and the same moved set in whatever order cells are visited |
| `CellTree.WalkFindsNearest` | agentd/crates/agentd/src/mandala.rs:566-595 | the walk up finds the nearest living ancestor, or none exists |
| `CellTree.ReportsToTheNearestExactly` | agentd/crates/agentd/src/worker.rs:2571-2576 | with the root on record, after the pass a cell's effective parent (its mark if it has one, else its address parent) is its nearest living ancestor if and only if no mark points past a living parent |
| `CellTree.AllChainsReachTheRootExactly` | agentd/crates/agentd/src/worker.rs:2571-2576 | every chain of effective parents climbs to the root over living ancestors if and only if every mark beside a living parent names a living ancestor |
| `CellTree.ParentLostAndFound` | agentd/crates/agentd/src/worker.rs:4219-4245 | for every cell and parent: a parent unreadable at one boot and readable at the next leaves the child reporting past it, because the mark is saved and never cleared |
| `CellTree.LostAndFoundExample` | agentd/crates/agentd/src/worker.rs:4219-4245 | cells 0, 0.1, 0.1.2 with 0.1 unreadable once: 0.1.2 then reports to 0 while 0.1 lives |
| `CellTree.LossKeepsMarks` | agentd/crates/agentd/src/mandala.rs:545-595 | records that vanish for good never leave a mark past a living parent |
| `CellTree.MintKeepsMarks` | agentd/crates/agentd/src/mandala.rs:599-614 | neither does minting a child |
| `CellTree.RunKeepsSound` | agentd/crates/agentd/src/mandala.rs:545-614 | minting within the address limits and boots that lose records for good keep every address valid, the root on record and no mark past a living parent |
| `CellTree.GrownTreesReportToTheNearest` | agentd/crates/agentd/src/worker.rs:2571-2576 | so in every tree grown that way from its root alone, after every boot's pass each cell reports to its nearest living ancestor |
| `CellTree.SecondPassMovesNothing` | agentd/crates/agentd/src/mandala.rs:566-595 | a second pass changes nothing |
| `CellTree.NextChildOrdinal` | agentd/crates/agentd/src/mandala.rs:599-614 | one past the highest ordinal toward any descendant, zero only when there is none |
| `CellTree.MintedAddressIsFresh` | agentd/crates/agentd/src/mandala.rs:599-614 | the minted child is neither a key nor an ancestor of any key |
| `Turns.CollectToolResults` | agentd/crates/agent/src/turn.rs:396-492 | the event loop over remaining, results and phases returns one answer per call in call order, and fails only when the bus closed on unanswered calls |
| `Turns.AwaitResults` | agentd/crates/agent/src/turn.rs:396-470 | the loop's books agree with the events heard, call by call, and it stops early only when all are answered |
| `Turns.FirstResultMeaning` | agentd/crates/agent/src/turn.rs:396-470 | the result kept is the first one for the call on its own session |
| `Turns.EachAnswerIsFirstOrMissing` | agentd/crates/agent/src/turn.rs:362-492 | every answer is the first matching same-session result, or an error naming the approval phase and whether the bus lagged |
| `Turns.AnsweredEarly` | agentd/crates/agent/src/turn.rs:396-492 | stopping as soon as all calls are answered loses nothing |
| `Turns.Run` | agentd/crates/agent/src/turn.rs:239-338 | the loop that pushes onto the history computes the specified turn |
| `Turns.StreamKeepsBooks` | agentd/crates/agent/src/turn.rs:239-300 | for every chunk stream the recorded calls are the message's tool uses, in order, under fresh ids |
| `Turns.TurnIsWellPaired` | agentd/crates/agent/src/turn.rs:239-338 | every successful turn only appends; messages alternate, none is empty, each assistant message with uses is followed at once by one result per use in order |
| `Turns.ReplyIsTheStream` | agentd/crates/agent/src/turn.rs:239-300 | a stream either fails, exactly when an error comes before its end, or its reply is its closed text, thinking and tool-use blocks, in order, none lost |
| `Turns.TurnSaysTheStreams` | agentd/crates/agent/src/turn.rs:239-338 | every assistant message a successful turn appends is exactly what that round's stream closed |
| `Turns.TurnSucceeds` | agentd/crates/agent/src/turn.rs:239-338 | a turn succeeds when no stream fails, the bus is not closed on it and some round asks for no tools |
| `Turns.PhaseMeaning` | agentd/crates/agent/src/turn.rs:396-470 | the phase an error names is the last one the bus reported for the call; a refusal is no report |
| `Wakeups.PruneKeepsTheLedger` | agentd/crates/agentd/src/scheduler.rs:137-158 | pruning never drops an entry either cap counts |
| `Wakeups.Scheduler.CountPending` | agentd/crates/agentd/src/scheduler.rs:138-140 | the number of wakeups that have not fired |
| `Wakeups.Scheduler.CountFired` | agentd/crates/agentd/src/scheduler.rs:143-148 | the number of wakeups fired on the current UTC day |
| `Wakeups.Scheduler.ScheduleWakeup` | agentd/crates/agentd/src/scheduler.rs:418-476 | accepted exactly when enabled, with a note, a resolvable time and both caps free; then one pending entry is added, else nothing changes |
| `Wakeups.FireTimeMeaning` | agentd/crates/agentd/src/scheduler.rs:76-110 | when a request's time resolves and to what: exactly one of delay and time, between a minute and ninety days ahead |
| `Wakeups.Scheduler.RunTick` | agentd/crates/agentd/src/scheduler.rs:239-306 | the in-place firing loop and prune compute the specified tick |
| `Wakeups.TickMeaning` | agentd/crates/agentd/src/scheduler.rs:223-305 | no entry is passed over: on a tick it goes off exactly when it is due (a wakeup only while enabled), a wakeup is then on the log, and only wakeups that fired more than two days ago are dropped |
| `Wakeups.Scheduler.CancelWakeup` | agentd/crates/agentd/src/scheduler.rs:529-550 | removes exactly the pending wakeup of that id |
| `Wakeups.Scheduler.CancelSchedule` | agentd/crates/agentd/src/scheduler.rs:393-410 | removes every entry of that id, fired or not |
| `Wakeups.StepInv` | agentd/crates/agentd/src/scheduler.rs:239-476 | ticks, requests, cancels and the clock keep: firings of the day plus pending within daily - 1 + max pending, and no waiting task was ever fired |
| `Wakeups.WakeupsAreBounded` | agentd/crates/agentd/src/scheduler.rs:239-476 | in every run at most daily_cap - 1 + max_pending wakeups fire in any UTC day, pending never exceeds its cap, each fires at most once and never early |
| `Wakeups.ThirtyNineByDefault` | agentd/crates/agentd/src/scheduler.rs:55-61 | with the shipped caps that is 39 |
| `Wakeups.CancelCanEraseTheLedger` | agentd/crates/agentd/src/scheduler.rs:393-410 | a cancel lowers the day's count exactly when it hits an entry fired today, and at the cap it lets a refused request through |
| `CancelledWakeups.CancelBreaksTheBound` | agentd/crates/agentd/src/scheduler.rs:393-410 | for all caps: cancelling each fired wakeup lets one a minute go off all day |
| `Counting.CountFilter` | agentd/crates/agentd/src/scheduler.rs:137-158 | filtering out only what is not counted changes no count |
| `Evolution.Files.Propose` | agentd/crates/agentd/src/main.rs:1135-1204 | snapshot taken before the edit; a soul rewrite without a snapshot is refused, everything else applied |
| `Evolution.Files.ComputeUndo` | agentd/crates/agentd/src/main.rs:1651-1686 | the inverse built from what the files hold before the edit |
| `Evolution.Files.Undo` | agentd/crates/agentd/src/main.rs:1290-1322 | a rollback applies the stored inverse to the stored target |
| `Evolution.Files.ApplyProposal` | agentd/crates/agentd/src/main.rs:1731-1804 | each proposal edits its own table only; adding to an absent plugin list does nothing |
| `Evolution.PluginCommand` | agentd/crates/agentd/src/evolution.rs:331-338 | the command of the first plugin with the id, exactly when there is one |
| `Evolution.ApplyRefinesView` | agentd/crates/agentd/src/evolution.rs:347-402 | with distinct ids every edit acts on souls, rules and the id-to-command map as a plain map update, and distinctness is kept |
| `Evolution.UndoRestoresExactly` | agentd/crates/agentd/src/evolution.rs:289-319 | one evolution and its inverse restore souls, rules and commands if and only if a changed rule existed, a registered name was new or had the same command (or the list was empty), and an unregister did not empty the list |
| `Evolution.EvolvedReads` | agentd/crates/agentd/src/main.rs:1135-1204 | what one evolution leaves, key by key: an existing soul reads as proposed and none is made up, the rule is set, a new command joins a list that is there, a removed one is gone, all else reads as before |
| `Evolution.NewRuleStays` | agentd/crates/agentd/src/evolution.rs:283-302 | undoing a brand-new rule leaves it in place |
| `Evolution.UnregisterLosesOrderAndEnv` | agentd/crates/agentd/src/evolution.rs:310-318 | undoing an unregister gives the files back exactly when the plugin was last of several and had no environment |
| `Evolution.RollbackRestores` | agentd/crates/agentd/src/evolution.rs:289-319 | for any history of such changes, rolling back the records latest first restores souls, rules and commands |
| `Evolution.RollbackRestoresExactly` | agentd/crates/agentd/src/evolution.rs:289-402 | for histories that register no name twice that is exact: restored if and only if every change was one whose undo can be trusted when it was made |
| `Evolution.RestoredOnlyIf` | agentd/crates/agentd/src/evolution.rs:289-402 | a history restored whole touched no rule that was not there and never emptied a nonempty plugin list: no other change makes up for either |

## Left out

- Sealing and opening frames (ChaCha20-Poly1305), blake3, CRC32 and postcard themselves: parameters or absent.
- The outbox queue, commissioning and the identity record in the flash store, and the flash wear-levelling below it.
- The goals file, objective and episode texts, directives, steering and bus announcements other than prompts and cancels; each handler is one step, so a handler interleaved with another at an await point is not modelled.
- Worker and council drivers, orbit and stall detection, breadth products, lattice presets and the open-descendant count of the mandala: finite tables or bookkeeping.
- Cron evaluation (a parameter says which cron tasks are due), wakeup home sessions and the text of wakeup frames.
- Text deltas, token accounting, ambient injection and cancellation inside a turn.
- The undo-record text codec and its legacy repair, ownership checks, file write failures and the plugin supervisor in evolution.
- `pac_lint`, the event bus fan-out, provider request building with its cache marks, the user interfaces, HTTP, confinement and installers.
- Turns.TurnIsWellPaired: says nothing about turns that fail; the code then returns the error and the caller keeps its own copy of the history.
- GoalRuns.NoGoalIsStranded: assumes no bus event is lost and that a restart seeds both counters past every reloaded goal.
- CellTree.LossKeepsMarks: unreadable records are lost for good there; what happens when one comes back is `CellTree.ParentLostAndFound`.
- Laps.RunDrains: the parent's record is there throughout and is not itself renewed; the step counter is unbounded, where the code counts in 32 bits.
- CellTree.GrownTreesReportToTheNearest: the code mints without looking at the address limits; a child past them is refused only when its record is read back.
- CellTree.NextChildOrdinal: ordinals are unbounded, where the code counts in 32 bits; six-digit segments keep them below a million.
- Frames.EveryRunIsCountedOnce: counters are unbounded, where the code has 64-bit words.
- NeighborTables.TableIsTheNewestEight: two sightings in the same millisecond are not covered; the eviction choice between equal times then depends on slot order.
- Evolution.RollbackRestoresExactly: histories that register a name already on the list are covered for one step only (`Evolution.UndoRestoresExactly`).
- Evolution.Files.ApplyProposal: rule and plugin tables stand for the TOML texts; other keys of a plugin table than command and environment are not modelled.
