# Gemmini memory path, VCD activity and AMO ALU: a verified model

This project models three parts of the repository and proves what they are for.

1. **The AXI4 memory path.** `AXI4IdIndexer` squeezes a five-bit ID to four bits and carries the lost bit in the echo;
   `AXI4UserYanker` parks echoes in one FIFO per ID and re-attaches them to responses; `mm_dramsim2_t` is the memory
   slave behind it, with a pending list, a busy bit per read ID, FIFOs per address and a single-burst write engine;
   `mm_t` stores strobed words and `mm_magic_t` is the slave that answers at once. DRAMSim is replaced by an
   adversary: in each cycle it decides whether it accepts transactions, and completes any owed transactions, in any
   order, each once. Main results: `EndToEnd.ReadsEndToEnd`, `EndToEnd.ReadsAreFresh`, `Instants.ReadsAtOneInstant`,
   `EndToEnd.WritesEndToEnd`, `WriteLands.UpstreamWriteLands`, `Ports.PortsExactly`, `ReadAfterWrite.ReadAfterB`,
   `EndToEnd.AssertionsNeverFire`, `WellBehaved.AssertionsHold`, `Drain.SystemDrains`,
   `Inflight.AlwaysConsistent`, `Bounds.ReadsBounded`, `Overtaking.OvertakingIsBounded`, `Footprint.RunLands`,
   `UnalignedWrites.RightStoresExactly`, `NarrowReads.RightDataExactly`, `MagicMemory.RefinesByteMemory`,
   `MagicMemory.ReadsPreviousTick`, `UserYanker.AssertionIsExact`.
2. **Switching activity from VCD.** The header parser with its scope stack, the per-signal toggle count, the
   aggregation by region and the power formula of the HotSpot export. Main results: `VcdRoundTrip.FileRoundTrip`,
   `Vcd.FileMeans`, `Vcd.RaisedExactly`, `Toggles.TogglesFromFirstToLast`, `Activity.RegionsConserve`,
   `ActivityBound.ActivityExactly`, `Power.SmokePower`.
3. **`AMOALU`.** One combinational expression against two's-complement integer semantics: `AmoAlu.AluMeans` and,
   by command code, `AmoAlu.CommandCodes`.

`dafny verify dfyconfig.toml` checks everything.

## How it is built

| files | content |
|---|---|
| `Seqs`, `Arithmetic`, `Bits` | filters and sums over sequences, products and quotients, 64-bit words as bits |
| `Layout`, `Text`, `Strings` | lines as tokens and blanks, the Python string operations, and what they mean |
| `Axi`, `Memory`, `Stores`, `Bursts`, `AddressFifos` | payloads, the byte array, the write engine, read bursts, the FIFOs per address |
| `ReadPath`, `WritePath`, `Dramsim` | the slave as a step machine with a log of all handshakes, and its invariant |
| `DramsimClass`, `MagicMemory` | the two slaves as classes with mutable fields, proved to move as the step machines |
| `IdIndexer`, `BundleQueue`, `UserYanker` | the two AXI modules and the queues at register level |
| `System`, `EndToEnd`, `Instants`, `ReadAfterWrite`, `Ports`, `WriteLands`, `WellBehaved`, `Drain` | the composition, its invariant, and the theorems over all runs |
| `Inflight`, `Bounds`, `Progress`, `WriteProgress`, `Overtaking`, `Footprint`, `NarrowReads`, `UnalignedWrites` | further properties of the same machines |
| `Toggles`, `Vcd`, `VcdReader`, `VcdLines`, `VcdRoundTrip`, `Activity`, `ActivityBound`, `Power` | the VCD chain |
| `AmoAlu` | the ALU |

A run is a sequence of cycles; each cycle fixes what the environment does. The logs are specification state: they
record accepted AR, AW and W beats and taken R and B beats, and the theorems speak about them. The classes hold the
source's fields and do not keep logs; their methods state the whole new state through the step machines.

## What the code does not do

- A read burst ignores `ar_size` and returns consecutive whole words. For narrow multi-beat reads this is not what
  section A3.4.1 of ARM IHI 0022E asks (`NarrowReads.NarrowExample`). `NarrowReads.RightWordsExactly` and
  `NarrowReads.RightDataExactly` give the exact condition.
- A write burst that is not aligned to its transfer size keeps its offset on every beat, and the mask then cuts the
  first bytes of each later transfer (`UnalignedWrites.UnalignedExample`). `UnalignedWrites.RightStoresExactly` gives
  the exact condition.
- `reset` clears only the response queues of a slave; pending reads, busy bits, FIFOs and the write engine keep their
  contents. `Dramsim.Tick` and `MagicMemory.Tick` model this, and the theorems are about runs without reset after the
  start (`SimDRAM.v` does not tick the memory while reset is high).
- Writes of one ID may be completed in any order by DRAMSim; the slave does not reorder. The response IDs
  are still right by counting, as `WritePath.CompleteKeeps` and `EndToEnd.WritesEndToEnd` show.
- Normalised activity is not bounded by 1 in general: a signal that changes several times between two time lines
  exceeds it (`ActivityBound.GlitchExceedsOne`). `ActivityBound.ActivityExactly` gives the exact condition, a count of
  value lines against time lines.
- `int()` in the reader may raise on a malformed width; `Vcd.RaisedExactly` says exactly when.

## Model

Paths are relative to the repository root.

| member | source | states |
|---|---|---|
| `EndToEnd.ReadsEndToEnd` | rtl_exports/generated-verilog/GemminiRocketConfig/gen-collateral/AXI4UserYanker.sv:271-314 | over every run of the three modules with any DRAMSim completion order, the upstream R beats are a prefix of whole uninterleaved bursts; each burst answers its own AR with its own five-bit ID, TileLink state and `len + 1` beats, `last` on the final one only; no AR is answered twice; bursts keep AR order within each five-bit ID |
| `EndToEnd.ReachedInv` | rtl_exports/generated-verilog/GemminiRocketConfig/gen-collateral/AXI4UserYanker.sv:749-791 | the whole-system invariant holds after every run |
| `EndToEnd.ReadsAreFresh` | rtl_exports/generated-verilog/GemminiRocketConfig/gen-collateral/mm_dramsim2.cc:96-140 | every answered read burst is the reference memory, with all its AWs, after some number of W beats that counts every beat accepted up to and including its AR's tick, hence every beat of every write whose B had been taken by then |
| `Instants.ReadsAtOneInstant` | rtl_exports/generated-verilog/GemminiRocketConfig/gen-collateral/mm_dramsim2.cc:17-28 | every answered burst was read at the end of one single cycle of the run: its AR had been accepted in an earlier cycle, all its data is the slave's memory when that cycle ended, and by then no beat of it had been delivered upstream |
| `Instants.TickAnswers` | rtl_exports/generated-verilog/GemminiRocketConfig/gen-collateral/mm_dramsim2.cc:90-140 | all bursts a tick answers hold the memory at its end, W beat of the tick included, belong to ARs of earlier ticks, and have no beat taken |
| `ReadAfterWrite.ReadAfterB` | rtl_exports/generated-verilog/GemminiRocketConfig/gen-collateral/mm_dramsim2.cc:17-132 | over any run, a read whose AR was accepted after the B of a write had been taken saw all W beats of that write; and at every byte that no later beat touched, the write's own strobed lane if it is size-aligned, or what was there before it outside its window and strobes |
| `EndToEnd.WritesEndToEnd` | rtl_exports/generated-verilog/GemminiRocketConfig/gen-collateral/mm_dramsim2.cc:113-132 | although DRAMSim may complete the writes of one ID in any order, upstream B number j carries the ID and state of one own AW, no AW is answered twice, AW order is kept within each ID, and all W beats of an answered AW are already in the memory, which is the replay of all accepted beats |
| `WriteLands.UpstreamWriteLands` | rtl_exports/generated-verilog/GemminiRocketConfig/gen-collateral/AXI4IdIndexer.sv:114-130 | over any run, for any accepted upstream AW that is aligned, fits the bus and lies in the memory, in its own fields: from a moment with exactly the W beats of the AWs before it taken to a moment with its own as well, byte p of the slave's memory becomes lane `p mod word` of beat `(p - addr) / 2^size` if p is in `[addr, addr + (len + 1) * 2^size)` and the lane is strobed, and stays as it was otherwise; the beats are those on the wires |
| `Ports.BeatsExactly` | rtl_exports/generated-verilog/GemminiRocketConfig/gen-collateral/mm_dramsim2.cc:92-92 | at every moment of a run the accepted W beats are exactly, in order, the beats on the wires of the cycles in which the master offered one and the slave had a burst in flight |
| `Ports.MomentWithCount` | rtl_exports/generated-verilog/GemminiRocketConfig/gen-collateral/mm_dramsim2.cc:121-124 | so the number of beats taken passes through every count on its way |
| `Ports.NoBeatNoChange` | rtl_exports/generated-verilog/GemminiRocketConfig/gen-collateral/mm_dramsim2.cc:121-132 | in a cycle without a W beat on the wires the memory does not change and no burst ends |
| `Ports.PortsExactly` | rtl_exports/generated-verilog/GemminiRocketConfig/gen-collateral/AXI4UserYanker.sv:749-791 | at every reachable state, whatever the next cycle brings: an AR goes through if and only if DRAMSim accepts and its four-bit ID has fewer reads without their last beat than 2 (IDs 0 to 3) or 1 (IDs 4 to 15); an AW likewise, with no burst in flight; R and B beats are taken exactly when there is one and the master is ready |
| `WellBehaved.AssertionsHold` | rtl_exports/generated-verilog/GemminiRocketConfig/gen-collateral/mm.cc:16-18 | over any run of a master that stays in the memory, sends whole words and marks the last beat of its bursts, the class invariant and every range and `last` assertion of the slave hold in the next cycle |
| `EndToEnd.AssertionsNeverFire` | rtl_exports/generated-verilog/GemminiRocketConfig/gen-collateral/AXI4UserYanker.sv:278-295 | neither `Q must be ready faster than the response` assertion can fire in any cycle after any run of the composed system |
| `System.StepKeeps` | rtl_exports/generated-verilog/GemminiRocketConfig/gen-collateral/AXI4UserYanker.sv:749-791 | the whole-system invariant (slave invariant, echo queues, agreement of all logs, per-ID answer order) is kept by every cycle, whatever the master and DRAMSim do |
| `System.ReadOwed` | rtl_exports/generated-verilog/GemminiRocketConfig/gen-collateral/AXI4UserYanker.sv:758-765 | a beat at the slave's R port is the next beat of the oldest unfinished AR of its ID, and the yanker shows that AR's echo |
| `System.WriteOwed` | rtl_exports/generated-verilog/GemminiRocketConfig/gen-collateral/AXI4UserYanker.sv:751-756 | a B at the slave's port answers the oldest unanswered AW of its ID, whose burst is finished, and the yanker shows that AW's echo |
| `System.MoveAnswered` | rtl_exports/generated-verilog/GemminiRocketConfig/gen-collateral/AXI4UserYanker.sv:299-300 | one cycle keeps every upstream B answering a finished burst, first AWs first within each ID |
| `Dramsim.TickKeeps` | rtl_exports/generated-verilog/GemminiRocketConfig/gen-collateral/mm_dramsim2.cc:67-148 | the slave invariant (write engine against the reference memory, order per read ID, busy bits, FIFOs against DRAMSim's debts, B counting, freshness of bursts) is kept by every reset-free tick and every schedule of completions |
| `Dramsim.InitialInv` | rtl_exports/generated-verilog/GemminiRocketConfig/gen-collateral/mm_dramsim2.h:83-103 | the state after construction satisfies the invariant with empty logs |
| `Dramsim.CallbackKeeps` | rtl_exports/generated-verilog/GemminiRocketConfig/gen-collateral/mm_dramsim2.cc:17-37 | one completion callback, at any address DRAMSim owes, keeps the invariant |
| `Dramsim.TickLogFrame` | rtl_exports/generated-verilog/GemminiRocketConfig/gen-collateral/mm_dramsim2.cc:90-94 | the log of a tick records exactly the five handshakes, each decided from the state before the tick, whatever DRAMSim completes in it |
| `Dramsim.TickHandshakes` | rtl_exports/generated-verilog/GemminiRocketConfig/gen-collateral/mm_dramsim2.cc:90-94 | each of the five handshakes of a tick, by the pins themselves: valid, ready or accepting, burst in flight |
| `Dramsim.ReadSent` | rtl_exports/generated-verilog/GemminiRocketConfig/gen-collateral/mm_dramsim2.cc:101-102 | an issue sends one read transaction, for the AR's own address |
| `Dramsim.WriteSent` | rtl_exports/generated-verilog/GemminiRocketConfig/gen-collateral/mm_dramsim2.cc:126-129 | the last W beat of a burst, and nothing else, sends one write transaction, for `addr + (len + 1) * 2^size` |
| `Dramsim.ResetExactly` | rtl_exports/generated-verilog/GemminiRocketConfig/gen-collateral/mm_dramsim2.cc:90-147 | a tick under reset is one with no pin raised, after which the two response queues are empty and everything else is kept |
| `ReadPath.IssueKeeps` | rtl_exports/generated-verilog/GemminiRocketConfig/gen-collateral/mm_dramsim2.cc:96-107 | issuing the first pending read with an idle ID keeps AR order per ID and at most one read in flight per ID |
| `ReadPath.AcceptKeeps` | rtl_exports/generated-verilog/GemminiRocketConfig/gen-collateral/mm_dramsim2.cc:109-111 | an accepted AR goes to the end of its ID's order |
| `ReadPath.CompleteKeeps` | rtl_exports/generated-verilog/GemminiRocketConfig/gen-collateral/mm_dramsim2.cc:17-28 | completing the oldest request of any owed address answers the oldest unanswered AR of that request's ID, frees the ID, and appends one whole burst to the response stream |
| `ReadPath.PopKeeps` | rtl_exports/generated-verilog/GemminiRocketConfig/gen-collateral/mm_dramsim2.cc:137-138 | taking an R beat advances the stream by exactly that beat |
| `WritePath.BeatKeeps` | rtl_exports/generated-verilog/GemminiRocketConfig/gen-collateral/mm_dramsim2.cc:121-132 | a W beat keeps, for each ID, answered plus owed responses equal to finished bursts; the last beat sends one transaction |
| `WritePath.CompleteKeeps` | rtl_exports/generated-verilog/GemminiRocketConfig/gen-collateral/mm_dramsim2.cc:30-37 | a write completion in any order keeps the count of responses per ID |
| `WritePath.StartKeeps` | rtl_exports/generated-verilog/GemminiRocketConfig/gen-collateral/mm_dramsim2.cc:113-119 | accepting an AW answers nothing and finishes nothing |
| `WritePath.PopKeeps` | rtl_exports/generated-verilog/GemminiRocketConfig/gen-collateral/mm_dramsim2.cc:134-135 | taking a B moves one response of its ID from queued to taken |
| `AddressFifos.PushMirrors` | rtl_exports/generated-verilog/GemminiRocketConfig/gen-collateral/mm_dramsim2.cc:101-102 | after sending a transaction the FIFO of its address holds exactly the transactions sent and not completed there, and DRAMSim owes one completion for each |
| `AddressFifos.PopMirrors` | rtl_exports/generated-verilog/GemminiRocketConfig/gen-collateral/mm_dramsim2.cc:27-36 | after a completion at an address the FIFOs hold exactly what is left once the oldest transaction with that address is removed |
| `AddressFifos.OldestExists` | rtl_exports/generated-verilog/GemminiRocketConfig/gen-collateral/mm_dramsim2.cc:19-32 | a completion DRAMSim owes always finds its FIFO non-empty, its head being the oldest transaction sent for that address |
| `Stores.BeginKeeps` | rtl_exports/generated-verilog/GemminiRocketConfig/gen-collateral/mm_dramsim2.cc:113-119 | starting a burst keeps the array equal to the replay of all accepted beats, each dealt to its own AW |
| `Stores.AdvanceKeeps` | rtl_exports/generated-verilog/GemminiRocketConfig/gen-collateral/mm_dramsim2.cc:121-127 | one strobed store keeps the array equal to the replay of all accepted beats, beat c of a burst going to `addr + c * size` |
| `Bursts.StreamPush` | rtl_exports/generated-verilog/GemminiRocketConfig/gen-collateral/mm_dramsim2.cc:22-25 | pushing a whole burst appends it uninterleaved to the response stream |
| `Bursts.StreamPop` | rtl_exports/generated-verilog/GemminiRocketConfig/gen-collateral/mm_dramsim2.cc:137-138 | popping a beat leaves the stream exactly one beat further, and `last` ends the burst |
| `DramsimClass.DramsimMm.Tick` | rtl_exports/generated-verilog/GemminiRocketConfig/gen-collateral/mm_dramsim2.cc:67-148 | the class, with its array of busy bits, maps, queues and store fields updated in place, moves to exactly the state of the step machine and keeps the source's own assertions satisfied |
| `DramsimClass.DramsimMm.FindIdle` | rtl_exports/generated-verilog/GemminiRocketConfig/gen-collateral/mm_dramsim2.cc:97-98 | the scan returns the first pending read whose ID is idle, or the length of the list |
| `DramsimClass.DramsimMm.Issue` | rtl_exports/generated-verilog/GemminiRocketConfig/gen-collateral/mm_dramsim2.cc:96-107 | in-place issue: busy bit set, request moved to its address's FIFO, one transaction owed, list entry erased |
| `DramsimClass.DramsimMm.PushBurst` | rtl_exports/generated-verilog/GemminiRocketConfig/gen-collateral/mm_dramsim2.cc:21-25 | the word loop appends exactly the beats of the burst read from the current array |
| `DramsimClass.DramsimMm.ReadComplete` | rtl_exports/generated-verilog/GemminiRocketConfig/gen-collateral/mm_dramsim2.cc:17-28 | the callback answers and removes the head of the address's FIFO and frees its ID |
| `DramsimClass.DramsimMm.WriteComplete` | rtl_exports/generated-verilog/GemminiRocketConfig/gen-collateral/mm_dramsim2.cc:30-37 | the callback queues the B of the head of the address's FIFO and removes it |
| `DramsimClass.DramsimMm.Complete` | rtl_exports/generated-verilog/GemminiRocketConfig/gen-collateral/mm_dramsim2.cc:19-32 | under the invariant, an owed completion meets the callbacks' non-empty assertions |
| `DramsimClass.DramsimMm.Update` | rtl_exports/generated-verilog/GemminiRocketConfig/gen-collateral/mm_dramsim2.cc:140-140 | any schedule of owed completions is executed in order, after the tick's W beat |
| `DramsimClass.DramsimMm.Front` | rtl_exports/generated-verilog/GemminiRocketConfig/gen-collateral/mm_dramsim2.cc:90-138 | everything before `mem->update()`, with all fire flags taken from the state at the top |
| `DramsimClass.DramsimMm.StoreBeat` | rtl_exports/generated-verilog/GemminiRocketConfig/gen-collateral/mm_dramsim2.cc:121-132 | one W beat: the array as `Stored` says, the engine one beat further, and one transaction for the address after the burst when it ends |
| `Inflight.InvConsistent` | rtl_exports/generated-verilog/GemminiRocketConfig/gen-collateral/mm_dramsim2.cc:96-111 | a read ID is busy if and only if a request with that ID is in the per-address FIFOs; no ID is there twice; every request is under its own address; FIFO lengths equal DRAMSim's debts |
| `Inflight.AlwaysConsistent` | rtl_exports/generated-verilog/GemminiRocketConfig/gen-collateral/mm_dramsim2.cc:19-36 | that consistency holds after every tick and between any two callbacks of a tick of any run, so neither non-empty assertion fails |
| `Bounds.ReadsBounded` | rtl_exports/generated-verilog/GemminiRocketConfig/gen-collateral/AXI4UserYanker.sv:301-524 | at every reachable state the slave has at most 2 unfinished reads on each of IDs 0..3, at most 1 on each of IDs 4..15, at most 20 in all, hence at most 20 pending or in flight |
| `Bounds.WritesBounded` | rtl_exports/generated-verilog/GemminiRocketConfig/gen-collateral/AXI4UserYanker.sv:525-748 | the same bounds for AWs whose B has not been taken |
| `Bounds.QueueIsUnfinished` | rtl_exports/generated-verilog/GemminiRocketConfig/gen-collateral/AXI4UserYanker.sv:301-314 | the read queue of an ID is as long as the reads of that ID that the slave has not finished |
| `Progress.TickMeasure` | rtl_exports/generated-verilog/GemminiRocketConfig/gen-collateral/mm_dramsim2.cc:96-138 | the count of steps still to take grows only by an accepted AR (by its beats plus two) and drops by exactly one for each issue, completion and R beat taken |
| `Progress.NoDeadlock` | rtl_exports/generated-verilog/GemminiRocketConfig/gen-collateral/mm_dramsim2.cc:96-107 | while that count is positive, an R beat can be taken, or DRAMSim owes a read, or the scan finds a read to issue |
| `Progress.FairRunShrinks` | rtl_exports/generated-verilog/GemminiRocketConfig/gen-collateral/mm_dramsim2.cc:96-138 | over a fair run without new ARs the count falls by at least the number of ticks, or to zero |
| `Progress.FairRunDrains` | rtl_exports/generated-verilog/GemminiRocketConfig/gen-collateral/mm_dramsim2.cc:96-138 | after as many fair ticks as the count, every accepted AR has been answered in order and every beat taken |
| `WriteProgress.TickMeasure` | rtl_exports/generated-verilog/GemminiRocketConfig/gen-collateral/mm_dramsim2.cc:113-135 | the count of write steps still to take grows only by an accepted AW (by its beats plus two) and drops by exactly one for each W beat, completion and B taken |
| `WriteProgress.NoDeadlock` | rtl_exports/generated-verilog/GemminiRocketConfig/gen-collateral/mm_dramsim2.cc:121-135 | while that count is positive, a burst is in flight, or DRAMSim owes a write, or a B can be taken |
| `WriteProgress.NothingLeft` | rtl_exports/generated-verilog/GemminiRocketConfig/gen-collateral/mm_dramsim2.cc:121-135 | when it is zero, every accepted AW of every ID has had its B taken |
| `Drain.SystemDrains` | rtl_exports/generated-verilog/GemminiRocketConfig/gen-collateral/AXI4UserYanker.sv:749-791 | from any reachable state of the composed system, as many fair cycles without new requests as there are steps left on both sides empty all echo queues, answer every accepted AR and AW in order within its ID, and deliver every R beat |
| `Drain.FairRun` | rtl_exports/generated-verilog/GemminiRocketConfig/gen-collateral/mm_dramsim2.cc:67-140 | over such cycles the steps left fall by at least one per cycle, down to zero, and nothing new is accepted |
| `Drain.FairCycleExists` | rtl_exports/generated-verilog/GemminiRocketConfig/gen-collateral/mm_dramsim2.cc:67-140 | in every state DRAMSim and the master can make the next cycle fair |
| `Drain.RunConserves` | rtl_exports/generated-verilog/GemminiRocketConfig/gen-collateral/mm_dramsim2.cc:67-140 | over any run without new requests, fair or not, the steps taken (issues, completions, R and W beats, B responses) and the steps left add up exactly to the steps at the start |
| `Drain.TakingAllDrains` | rtl_exports/generated-verilog/GemminiRocketConfig/gen-collateral/AXI4UserYanker.sv:749-791 | so any such run that takes as many steps as were left drains the composed system, however long DRAMSim or the master waits in between |
| `Overtaking.TickMoves` | rtl_exports/generated-verilog/GemminiRocketConfig/gen-collateral/mm_dramsim2.cc:96-107 | one tick leaves a pending read issued, or no further back, and one place further forward if DRAMSim accepts and its ID is idle |
| `Overtaking.OvertakingIsBounded` | rtl_exports/generated-verilog/GemminiRocketConfig/gen-collateral/mm_dramsim2.cc:96-107 | a read pending at place i is issued once i + 1 ticks were accepting with its own ID idle, whatever else arrives |
| `Overtaking.PendingInOrder` | rtl_exports/generated-verilog/GemminiRocketConfig/gen-collateral/mm_dramsim2.cc:97-104 | pending reads of one ID stay in AR order |
| `Memory.Mm.Write` | rtl_exports/generated-verilog/GemminiRocketConfig/gen-collateral/mm.cc:13-29 | the strobe loop, with the 64-bit mask, shift and right-shift carried out bit by bit, changes byte p exactly when p is in the addressed word, its strobe bit is set and its lane is in the window of `size` lanes (no window for size 64), to its own lane of the data |
| `Memory.Mm.Read` | rtl_exports/generated-verilog/GemminiRocketConfig/gen-collateral/mm.cc:31-37 | returns the word of bytes at the address |
| `Memory.LanesHit` | rtl_exports/generated-verilog/GemminiRocketConfig/gen-collateral/mm.cc:17-28 | bit i of the cut strobe is set exactly for the bytes a transfer stores |
| `Bits.Window` | rtl_exports/generated-verilog/GemminiRocketConfig/gen-collateral/mm.cc:20-20 | `((1 << size) - 1) << off` in 64-bit arithmetic is a window of `size` ones at bit `off`, cut at bit 63 |
| `Memory.ReadBack` | rtl_exports/generated-verilog/GemminiRocketConfig/gen-collateral/mm.cc:13-37 | reading any word after a write gives the new byte in exactly the strobed, selected lanes of the addressed word and the old byte elsewhere |
| `Footprint.BurstLands` | rtl_exports/generated-verilog/GemminiRocketConfig/gen-collateral/mm.cc:81-99 | after all beats of a size-aligned INCR burst, byte p in its window holds lane `p mod word` of beat `(p - addr) / size` if strobed, every other byte is unchanged (ARM IHI 0022E, section A3.4.1) |
| `Footprint.SlotWindow` | rtl_exports/generated-verilog/GemminiRocketConfig/gen-collateral/mm.cc:91-91 | beat k of a burst covers `[addr + k * size, addr + (k + 1) * size)` |
| `Footprint.AlignedHits` | rtl_exports/generated-verilog/GemminiRocketConfig/gen-collateral/mm.cc:15-28 | an aligned transfer stores exactly the strobed bytes of `[addr, addr + size)` |
| `Footprint.EffectsOfBurst` | rtl_exports/generated-verilog/GemminiRocketConfig/gen-collateral/mm.cc:81-99 | in the replay of a whole run every finished burst appears whole, in its place, with its own addresses |
| `Footprint.RunLands` | rtl_exports/generated-verilog/GemminiRocketConfig/gen-collateral/mm.cc:81-99 | in a run, once the last beat of a size-aligned burst is in, the memory is the one before its first beat with exactly the burst's own strobed bytes changed |
| `Footprint.UntouchedKeeps` | rtl_exports/generated-verilog/GemminiRocketConfig/gen-collateral/mm.cc:24-28 | a byte that no beat of a stretch of the run touches keeps its value over it |
| `NarrowReads.RightWordsExactly` | rtl_exports/generated-verilog/GemminiRocketConfig/gen-collateral/mm_dramsim2.cc:21-25 | `ar_size` is ignored: every transfer is answered from its own word if and only if the burst is full-width, a single transfer, or two narrow ones of which the first ends its word |
| `NarrowReads.RightDataExactly` | rtl_exports/generated-verilog/GemminiRocketConfig/gen-collateral/mm.cc:73-79 | the same on data and lanes: every byte lane that a transfer uses is right in every memory if and only if the burst is supported |
| `NarrowReads.NarrowExample` | rtl_exports/generated-verilog/GemminiRocketConfig/gen-collateral/mm_dramsim2.cc:21-25 | a failing input: the second of two 4-byte transfers over an 8-byte bus gets bytes 12 to 15 in the lanes where it asks for bytes 4 to 7 |
| `UnalignedWrites.RightStoresExactly` | rtl_exports/generated-verilog/GemminiRocketConfig/gen-collateral/mm.cc:81-99 | a write burst's address is never re-aligned: every beat, with every strobe section A3.4.1 of ARM IHI 0022E allows, stores exactly its transfer's bytes if and only if the burst is size-aligned, or a single transfer, or 64 bytes wide (then the strobe is not masked) |
| `UnalignedWrites.SecondBeatMisses` | rtl_exports/generated-verilog/GemminiRocketConfig/gen-collateral/mm.cc:19-28 | in every other burst the second beat misses the first byte of its transfer |
| `UnalignedWrites.UnalignedExample` | rtl_exports/generated-verilog/GemminiRocketConfig/gen-collateral/mm.cc:19-28 | a failing input: of two 4-byte transfers from address 1 over an 8-byte bus, the second never stores byte 4 |
| `MagicMemory.RefinesByteMemory` | rtl_exports/generated-verilog/GemminiRocketConfig/gen-collateral/mm.cc:44-114 | every reset-free run refines an atomic byte memory: the array is the replay of all accepted W beats; R beats delivered are a prefix of the ARs' word bursts in AR order, each burst from the reference memory after exactly the W beats of the ticks before its AR's; B IDs delivered are a prefix of the AW IDs in AW order |
| `MagicMemory.ReadsPreviousTick` | rtl_exports/generated-verilog/GemminiRocketConfig/gen-collateral/mm.cc:73-79 | the AR of burst j is accepted in one tick of the run, and the burst holds the slave's memory as it was when that tick began, so not the same tick's W beat |
| `MagicMemory.TickKeeps` | rtl_exports/generated-verilog/GemminiRocketConfig/gen-collateral/mm.cc:67-113 | the slave's invariant is kept by every reset-free tick |
| `MagicMemory.TickStream` | rtl_exports/generated-verilog/GemminiRocketConfig/gen-collateral/mm.cc:73-79 | a tick appends its AR's burst whole and removes at most the head beat |
| `MagicMemory.TickResponses` | rtl_exports/generated-verilog/GemminiRocketConfig/gen-collateral/mm.cc:94-102 | a tick appends a B exactly when a burst finishes and removes at most the oldest |
| `MagicMemory.TickHandshakes` | rtl_exports/generated-verilog/GemminiRocketConfig/gen-collateral/mm.cc:67-71 | what a tick accepts and delivers, by the pins themselves |
| `MagicMemory.IdleTick` | rtl_exports/generated-verilog/GemminiRocketConfig/gen-collateral/mm.cc:89-105 | without a W beat offered the memory stays; without a ready master the queue it would take from stays |
| `MagicMemory.ResetTick` | rtl_exports/generated-verilog/GemminiRocketConfig/gen-collateral/mm.cc:67-113 | under reset nothing is accepted and the response queues are lost |
| `MagicMemory.MagicMm.Step` | rtl_exports/generated-verilog/GemminiRocketConfig/gen-collateral/mm.cc:67-113 | the class, updating its fields and the array in place, moves to exactly the specified state, an AR reading the array before the same tick's store |
| `MagicMemory.MagicMm.PushBurst` | rtl_exports/generated-verilog/GemminiRocketConfig/gen-collateral/mm.cc:73-79 | the word loop appends exactly the beats of the burst |
| `MagicMemory.MagicMm.StoreBeat` | rtl_exports/generated-verilog/GemminiRocketConfig/gen-collateral/mm.cc:89-99 | one W beat: array, engine and response queue |
| `IdIndexer.RoundTrip` | rtl_exports/generated-verilog/GemminiRocketConfig/gen-collateral/AXI4IdIndexer.sv:102-144 | a response that returns with its own echo carries its own five-bit ID and TileLink state |
| `IdIndexer.Injective` | rtl_exports/generated-verilog/GemminiRocketConfig/gen-collateral/AXI4IdIndexer.sv:115-144 | the four-bit ID and echo sent down determine the five-bit ID and state |
| `BundleQueue.FifoNext` | rtl_exports/generated-verilog/GemminiRocketConfig/gen-collateral/Queue2_BundleMap.sv:81-96 | a FIFO of bounded depth: one element more exactly when one is offered and it is not full, that element last; the head dropped exactly when dequeued non-empty; all others kept in order |
| `BundleQueue.Queue1.Posedge` | rtl_exports/generated-verilog/GemminiRocketConfig/gen-collateral/Queue1_BundleMap.sv:46-97 | the one-entry register queue refines the FIFO of depth 1 |
| `BundleQueue.Queue2.Posedge` | rtl_exports/generated-verilog/GemminiRocketConfig/gen-collateral/Queue2_BundleMap.sv:74-97 | the ring with two one-bit pointers and maybe_full refines the FIFO of depth 2 |
| `UserYanker.HeadIsOldest` | rtl_exports/generated-verilog/GemminiRocketConfig/gen-collateral/AXI4UserYanker.sv:754-764 | a queue is non-empty exactly while a response of its ID is owed, and its head is the echo of the oldest unanswered beat |
| `UserYanker.ReadyExactly` | rtl_exports/generated-verilog/GemminiRocketConfig/gen-collateral/AXI4UserYanker.sv:757-781 | an address beat goes through if and only if the other side is ready and its ID has fewer unanswered beats than 2 (IDs 0 to 3) or 1 (IDs 4 to 15) |
| `UserYanker.NextTracks` | rtl_exports/generated-verilog/GemminiRocketConfig/gen-collateral/AXI4UserYanker.sv:301-748 | each clock keeps every queue equal to the echoes of its ID's unanswered beats, in order, within its depth |
| `UserYanker.RunTracks` | rtl_exports/generated-verilog/GemminiRocketConfig/gen-collateral/AXI4UserYanker.sv:301-748 | so it is over every run of any slave that answers only what it owes |
| `UserYanker.AssertionIsExact` | rtl_exports/generated-verilog/GemminiRocketConfig/gen-collateral/AXI4UserYanker.sv:278-295 | over any run of any slave, the assertion never fires if and only if the slave never shows a response for an ID it owes none |
| `UserYanker.Yanker.Posedge` | rtl_exports/generated-verilog/GemminiRocketConfig/gen-collateral/AXI4UserYanker.sv:301-748 | the arrays of read and write queues, updated in place, move as specified |
| `UserYanker.Yanker.Clock` | rtl_exports/generated-verilog/GemminiRocketConfig/gen-collateral/AXI4UserYanker.sv:301-524 | the sixteen queues of one direction, each deciding from its own enable, move together as specified |
| `Toggles.DeltaIsDistance` | scripts/extract_vcd_activity.py:69-77 | between binary values the delta is the popcount of the xor of their numbers, whatever leading zeros and width |
| `Toggles.DeltaOtherwise` | scripts/extract_vcd_activity.py:70-77 | if either value has a character other than 0 and 1, the delta is 0 for equal values and 1 for different ones |
| `Toggles.Triangle` | scripts/extract_vcd_activity.py:69-77 | that distance obeys the triangle inequality, and the slack is even |
| `Toggles.Symmetric` | scripts/extract_vcd_activity.py:69-77 | that distance is symmetric |
| `Toggles.TogglesAreSteps` | scripts/extract_vcd_activity.py:121-141 | the toggle count of a binary trace is the sum of the distances of consecutive values |
| `Toggles.TogglesFromFirstToLast` | scripts/extract_vcd_activity.py:121-141 | it is at least the distance from the first value to the last, and of the same parity |
| `Toggles.CountBounds` | scripts/extract_vcd_activity.py:136-141 | for values that fit the width, `changes <= toggles <= changes * max(1, width)` and there are fewer changes than values |
| `Toggles.WavesCount` | scripts/extract_vcd_activity.py:121-141 | the bound is reached: n values of all zeros and all ones in turn count (n - 1) * max(1, width) toggles |
| `Vcd.FileMeans` | scripts/extract_vcd_activity.py:80-143 | for any file read without error, every signal's record counts exactly the values that the lines after the header give its code; time_steps and last_time are the number and last readable value of the time lines; keys and insertion order agree (what a line says is stated by the `VcdLines` rows) |
| `Vcd.RaisedExactly` | scripts/extract_vcd_activity.py:101-104 | reading raises ValueError if and only if a header line declares a width that int() refuses |
| `VcdLines.ScopeLine` | scripts/extract_vcd_activity.py:94-97 | a header line whose first token starts with $scope, however indented, spaced and ended, pushes its third token if it has one |
| `VcdLines.UpscopeLine` | scripts/extract_vcd_activity.py:98-100 | an $upscope line pops one scope if there is one |
| `VcdLines.VarLine` | scripts/extract_vcd_activity.py:101-108 | a $var line of six tokens or more declares its fourth token, with the dotted path of the scopes and the glued name tokens, and the width its third token spells, or raises ValueError if that spells no number; a shorter one does nothing |
| `VcdLines.BadVarLine` | scripts/extract_vcd_activity.py:101-104 | the lines on which reading raises, by their tokens |
| `VcdLines.EndLine` | scripts/extract_vcd_activity.py:109-110 | an $enddefinitions line ends the header |
| `VcdLines.OtherHeaderLine` | scripts/extract_vcd_activity.py:93-111 | blank and all other header lines do nothing |
| `VcdLines.TimeLine` | scripts/extract_vcd_activity.py:113-119 | a body line that starts with # between blanks is a time line, and its time is the number its rest spells, if any |
| `VcdLines.ScalarLine` | scripts/extract_vcd_activity.py:121-123 | a body line that starts with 0, 1, x, z, X or Z gives the rest of the line that value in lower case |
| `VcdLines.VectorLine` | scripts/extract_vcd_activity.py:124-129 | a line of two tokens that starts with b, B, r or R gives the second token the rest of the first, in lower case |
| `VcdLines.BrokenVectorLine` | scripts/extract_vcd_activity.py:126-127 | with any other number of tokens it says nothing |
| `VcdLines.OtherLine` | scripts/extract_vcd_activity.py:130-131 | every other body line, blank or $dumpvars for instance, says nothing |
| `VcdReader.IterVcd` | scripts/extract_vcd_activity.py:80-143 | the loop over a dictionary of Signal objects updated in place returns the specified dictionary, order and counters, one fresh object per code |
| `VcdReader.Signal.Assign` | scripts/extract_vcd_activity.py:136-141 | an object's last, toggles and changes move as specified |
| `VcdReader.SetDefault` | scripts/extract_vcd_activity.py:108-108 | an existing code keeps its object, a new one gets a fresh object |
| `VcdReader.Turn` | scripts/extract_vcd_activity.py:88-141 | one turn of the loop, blank lines included |
| `VcdReader.HeaderLine` | scripts/extract_vcd_activity.py:93-111 | one header line: scope stack, declarations, end of header, or ValueError |
| `VcdReader.BodyLine` | scripts/extract_vcd_activity.py:113-141 | one body line: time line, value line or neither; objects of other codes are unchanged |
| `VcdRoundTrip.HeaderRoundTrip` | scripts/extract_vcd_activity.py:93-111 | reading any writing of a scope tree (any blanks around and between tokens, any line ends, notes and broken lines between) makes exactly the tree's declarations, in order and with full dotted paths, and restores the scope stack |
| `VcdRoundTrip.FirstDeclaration` | scripts/extract_vcd_activity.py:108-108 | exactly the declared codes are signals, each with the path and width of its first declaration |
| `VcdRoundTrip.EventRoundTrip` | scripts/extract_vcd_activity.py:113-131 | any writing of a time, a scalar, a vector or real value, or of nothing, is read back as what it was, in either case of letters |
| `VcdRoundTrip.FileRoundTrip` | scripts/extract_vcd_activity.py:80-143 | reading any file that writes a tree and a trace gives every code its first path and width and the toggle count of its values in the trace, the trace's time steps and last time, and leaves the scope stack empty |
| `Text.StripPadded` | scripts/extract_vcd_activity.py:89-89 | strip() of a trimmed text between any blanks (characters 9 to 13 and 28 to 32) is that text |
| `Text.SplitLay` | scripts/extract_vcd_activity.py:95-102 | split() of any layout of tokens gives the tokens back |
| `Text.EveryLineRenders` | scripts/extract_vcd_activity.py:95-102 | every line is a layout of the tokens that split() finds |
| `Text.RenderedLine` | scripts/extract_vcd_activity.py:89-94 | the stripped line starts with its first token and splits into its tokens |
| `Strings.ParseIntExactly` | scripts/extract_vcd_activity.py:104-104 | int() returns n if and only if the text is blanks, an optional sign, groups of digits with single underscores, and blanks, spelling n; otherwise it raises |
| `Strings.JoinMeans` | scripts/extract_vcd_activity.py:107-107 | the joined path is the scopes and the name with dots between |
| `Strings.ConcatMeans` | scripts/extract_vcd_activity.py:106-106 | the name is all characters of its tokens, in order |
| `Strings.RemoveMeans` | scripts/extract_vcd_activity.py:65-66 | clean_name keeps exactly the characters other than a space, in order |
| `Strings.LowerMeans` | scripts/extract_vcd_activity.py:57-60 | lower() moves exactly the letters A to Z by 32 |
| `Text.ParseShow` | scripts/extract_vcd_activity.py:104-104 | int() of a printed number is the number |
| `Activity.Aggregate` | scripts/extract_vcd_activity.py:160-186 | the aggregation loop keeps exactly the wanted signals and leaves one accumulator for every category of the map and every class met, and no other, each holding the totals of its own signals |
| `Activity.RegionsConserve` | scripts/extract_vcd_activity.py:162-190 | region counts, toggles and activities add up to those of all kept signals, an activity being toggles over max(1, time steps) times max(1, width) |
| `Activity.Conservation` | scripts/extract_vcd_activity.py:184-186 | each kept signal is counted in exactly one region of any duplicate-free listing that covers the classes |
| `Activity.FirstMatch` | scripts/extract_vcd_activity.py:56-61 | a path belongs to the first category, in map order, with a matching term |
| `Activity.NoMatch` | scripts/extract_vcd_activity.py:58-62 | and to `other` if there is none |
| `Activity.MatchesMeans` | scripts/extract_vcd_activity.py:57-60 | a path matches a category if and only if one of its non-empty terms occurs in it, character by character, whatever the case of ASCII letters |
| `ActivityBound.CalmCount` | scripts/extract_vcd_activity.py:113-134 | with at most one value line per code between time lines, a code has at most one value more than there are time lines |
| `ActivityBound.CalmBounds` | scripts/extract_vcd_activity.py:136-141 | then changes are at most time_steps and toggles at most changes times the width |
| `ActivityBound.ActivityExactly` | scripts/extract_vcd_activity.py:166-171 | a code's normalised activity is in [0, 1] whatever fitting values its value lines carry, if and only if there are at most max(1, time lines) + 1 of them; every width included |
| `ActivityBound.ManyExceedsOne` | scripts/extract_vcd_activity.py:166-171 | with one value line more, the same lines with other fitting values have an activity above 1 |
| `ActivityBound.FewActivity` | scripts/extract_vcd_activity.py:166-171 | with so few value lines and fitting values the activity is in [0, 1] |
| `ActivityBound.CalmIsFew` | scripts/extract_vcd_activity.py:113-134 | a calm code passes that count |
| `ActivityBound.CalmActivity` | scripts/extract_vcd_activity.py:166-171 | so the normalised activity of a calm code with fitting values is in [0, 1] |
| `ActivityBound.GlitchExceedsOne` | scripts/extract_vcd_activity.py:166-171 | a concrete one-bit trace above the count has activity 2 |
| `Power.FewFileActivities` | scripts/extract_vcd_activity.py:166-171 | if every kept signal passes the count and has fitting values, every kept activity is in [0, 1] |
| `Power.FewFileAverages` | scripts/extract_vcd_activity.py:224-236 | and so is every region average, a region without signals included |
| `Power.AverageMeans` | scripts/extract_vcd_activity.py:225-232 | a region's average times the number of its signals, or 1, is the sum of its activities |
| `Power.RegionRows` | scripts/extract_vcd_activity.py:224-236 | one row per region with its average |
| `Power.Powers` | scripts/export_smoke_hotspot_inputs.py:46-50 | one power per row, in row order; an empty region file is refused |
| `Power.SmokePower` | scripts/export_smoke_hotspot_inputs.py:46-50 | from VCD lines through both scripts: no power is exported exactly when there is no region; every exported power is `base + scale * average` of its region, every category has one, and if every kept signal passes the count of value lines and has fitting values, and scale >= 0, each is in [base, base + scale] |
| `AmoAlu.AluMeans` | rtl_exports/generated-verilog/GemminiRocketConfig/gen-collateral/AMOALU.sv:10-15 | for the masks of a doubleword, a low word and a high word, every command computes its integer meaning (add modulo 2^n, xor, or, and, signed and unsigned min and max, otherwise swap) on the selected field and keeps the other field |
| `AmoAlu.CommandCodes` | rtl_exports/generated-verilog/GemminiRocketConfig/gen-collateral/AMOALU.sv:10-15 | the same by command code, on every field: 8 adds modulo 2^n; 9, 10 and 11 are xor, or and and, bit by bit; 12 and 13 pick the least and greatest two's-complement number, 14 and 15 the least and greatest unsigned one; every other code gives io_rhs; the other field keeps io_lhs |
| `AmoAlu.LaneIs` | rtl_exports/generated-verilog/GemminiRocketConfig/gen-collateral/AMOALU.sv:14-14 | the three masks, bit by bit, and the bits they select |
| `AmoAlu.SignedIsInt` | rtl_exports/generated-verilog/GemminiRocketConfig/gen-collateral/AMOALU.sv:15-15 | the signed reading is the bits' number with the top bit weighing negative |
| `AmoAlu.Moduli` | rtl_exports/generated-verilog/GemminiRocketConfig/gen-collateral/AMOALU.sv:13-15 | the two moduli as numbers |
| `AmoAlu.UnmaskedBytesKept` | rtl_exports/generated-verilog/GemminiRocketConfig/gen-collateral/AMOALU.sv:14-15 | for every mask and command a byte that is not written keeps io_lhs, and a written one takes the result |
| `AmoAlu.LessWhole` | rtl_exports/generated-verilog/GemminiRocketConfig/gen-collateral/AMOALU.sv:15-15 | the comparator orders doublewords, signed or unsigned as io_cmd[1] says |
| `AmoAlu.LessLow` | rtl_exports/generated-verilog/GemminiRocketConfig/gen-collateral/AMOALU.sv:15-15 | the comparator orders low words when byte 4 is not written |
| `AmoAlu.LessHigh` | rtl_exports/generated-verilog/GemminiRocketConfig/gen-collateral/AMOALU.sv:15-15 | the low words decide only between equal high words, so nothing leaks into a high-word comparison |
| `AmoAlu.AddHigh` | rtl_exports/generated-verilog/GemminiRocketConfig/gen-collateral/AMOALU.sv:13-15 | with byte 3 not written no carry enters the high word |
| `AmoAlu.AddUncut` | rtl_exports/generated-verilog/GemminiRocketConfig/gen-collateral/AMOALU.sv:13-15 | with byte 3 written the sum is taken whole, and modulo 2^k on every low field |
| `AmoAlu.LogicMeans` | rtl_exports/generated-verilog/GemminiRocketConfig/gen-collateral/AMOALU.sv:10-15 | xor, or and and by two shared flags are the bitwise operations on the field's number |
| `AmoAlu.PickMeans` | rtl_exports/generated-verilog/GemminiRocketConfig/gen-collateral/AMOALU.sv:15-15 | min, max, minu, maxu and swap pick the right operand for the field |

## Left out

- DRAMSim itself, its ini files, clock and power callback: replaced by the adversary described above.
- A refused `addTransaction`: the source ignores its result (mm_dramsim2.cc:102 and 128), and the model assumes that DRAMSim takes every transaction, also the write sent when it is not willing to accept. The theorems about answered writes and draining rest on this.
- `write_id_busy` and `cycle` of `mm_dramsim2_t`: written but never read by any decision.
- SimDRAM, SimTSI, SimJTAG, SimUART, the UART and bit-bang sources, testchip_tsi and testchip_htif: DPI marshalling, mmap, ELF loading and sockets.
- The output registers of `SimDRAM.v`: they are sampled after each tick, which is the state the next tick starts from, so the yanker is wired to the slave's pins directly. The first cycle after reset, in which those registers are still low while the slave is already ready, is not modelled: runs start after it.
- Arbiters, AccPipe and the synchroniser wrappers: one-line modules.
- Cache, prot, qos, lock, burst and resp wires: passed through unchanged and never looked at.
- WRAP and FIXED bursts and bursts that leave the memory: the slave has no code for them. The INCR footprint theorem is about size-aligned bursts, the store and replay theorems about all addresses.
- Reset in the middle of traffic: modelled in the ticks, excluded from the run theorems.
- 64-bit wrap-around of addresses and counters: addresses are natural numbers and the source's range assertions are preconditions of the class methods; strobes are modelled in exactly 64 bits.
- The undefined echo shown by an empty queue: fixed to zero in `UserYanker.HeadEcho`; no theorem uses it.
- The 32 queue instances inside `AXI4UserYanker`: held as their FIFO contents, the registers of each kind being refined in `BundleQueue`.
- Text decoding and line splitting of the VCD file: the model starts from ASCII lines as the file yields them, blanks and line ends included; numerals longer than Python's digit limit are accepted.
- The header round trip is about files whose scope and var lines have their tokens in the usual places; what every other line does is stated line by line in `VcdLines`. Time lines and scalar lines with blanks inside keep those blanks, as the code does.
- The clock pattern: an arbitrary predicate on paths. The YAML term map: an arbitrary ordered list of categories.
- Row order, `top_signals`, the per-signal file and all CSV, floorplan and trace formatting: the region dictionary is complete before any of them.
- Floating-point rounding: activities, averages and powers are exact reals.
- inspect_gemmini_hierarchy.py, check_python_env.py, shell scripts, logs, reports and result files.
