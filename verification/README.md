# Verification model of the MIPS pipeline simulator

This project models the simulator in four connected parts and proves what they promise.

- **Memory** (`MemoryStore.dfy`): big-endian values in a byte array. An access that runs
  out of the memory keeps the bytes it reached.
- **Emulator** (`Emulator.dfy`, `FunctionalSimulator.dfy`): one instruction at a time, with
  the pending branch flag and saved target of the source, and the functional driver.
  `IsaReference.dfy` is an independent account of the instructions the simulator implements,
  after MIPS32 Architecture For Programmers Volume II, section 3.2: two program counters,
  signed integers, quotients and remainders, a register 0 that stays zero, address errors.
  It is the manual on the words of `IsaReference.Encoded`; other words, the memory array and
  what lies outside it, the halt word, the exception address and branches in delay slots
  are as the simulator treats them. `EmulatorTheorems.dfy` relates the two over runs.
  `InstructionMeaning.dfy` says of the instruction word at the PC what each result bit, the
  flags of the record and the memory address are, in numbers alone.
- **Caches** (`Lru.dfy`, `Cache.dfy`): rank vectors, valid bits and tags updated in place,
  against the most-recently-used list and the stack-distance rule. `CacheCapacity.dfy` says
  how many consecutive blocks a cache holds, from its size alone.
- **Pipeline** (`Pipeline.dfy`, `Simulator.dfy`): one cycle as the steps of the loop of
  `runCycles`. `PipelineHistory.dfy` states what every state of a run keeps,
  `PipelineInvariants.dfy` proves that one cycle keeps it, `PipelineTheorems.dfy` draws the
  consequences for whole runs, `EmulatedProgram.dfy` shows that every memory image is a
  program they apply to, and `Agreement.dfy` runs both simulators side by side.
  `Dependence.dfy` compares the hazard tables with what instructions can read and write, in
  both directions; `ProgramAccesses.dfy` computes the addresses both caches are asked for
  from the states of the emulator.

`Bits.dfy` holds 32-bit words and the bitwise operators.

Objects of the source are classes (`MemoryStore`, `Emulator`, `Cache`, `Simulator`), and
their methods update fields and arrays in place. Each method is proved equal to a
specification function on the abstract state, and the lemmas are about those functions.
The pipeline theorems hold for every program whose records are numbered and well formed
(`PipelineHistory.GoodProgram`) and for every pair of hit rules; the emulator and the
caches are then shown to be an instance.

Findings about the source, stated as theorems:

- `ADD`, `SUB` and `ADDI` read the signs of their operands after they wrote the
  destination. When the destination is a source, an overflow goes unnoticed, or `SUB`
  traps without one. Misaligned halfword and word accesses go through without an address
  error. `IsaReference.ExecuteMeetsIsa` gives the exact condition for both; the lemmas named
  `LateSigns…` and `IsaReference.MisalignedLoadGoesThrough` give concrete instructions.
- Bits in fields that a format fixes at zero are ignored, so that `ROTR` runs as `SRL`, and
  instructions of the manual that the simulator lacks, such as `XOR`, are illegal
  (`IsaReference.StrayFieldsAreIgnored`, `IsaReference.UnknownIsReserved`,
  `IsaReference.OutsideTheSubset`).
- The hazard tables list every register an instruction reads or writes, except the link
  register that `JAL` writes. A branch on register 31 in the delay slot of `JAL` is not held
  back, and this is the only way a branch reaches EX before the instruction in MEM has
  written its source (`EmulatedProgram.WritesAreListed`, `EmulatedProgram.LinkIsReadEarly`,
  `EmulatedProgram.OnlyTheLinkPasses`).
- The pipeline stalls for nothing but a dependency, with one exception: operations whose two
  sources are one register and cancel, such as `SUB $1,$2,$2` or `BEQ $2,$2`, wait for that
  register although their effect does not depend on it (`Dependence.SourcesAreNeeded`).
- Leaving the loop early when the halt reaches WB skips nothing that would have changed the
  state (`PipelineInvariants.EarlyExitSkipsNothing`).

One remark on a comment: `src/cycle.cpp:392-394` calls the first component of a remembered
dependency the using instruction, but the calls pass the load first. The model follows the
calls.

## Model

| member | source | states |
|---|---|---|
| `Memory.ReadAfterWrite` | src/MemoryStore.cpp:59-98 | in range, a read of what was just written yields the value modulo 2^(8 size) |
| `Memory.ReadAfterDisjointWrite` | src/MemoryStore.cpp:59-90 | a write changes no read that shares no byte with it, in range or not |
| `Memory.ReadInPieces` | src/MemoryStore.cpp:72-79 | a word is the big-endian combination of its halves, a half of its bytes |
| `Memory.ReadByByte` | src/MemoryStore.cpp:72-79 | the i-th byte of what a read yields is the byte at address - start + i, modulo 2^32, and zero from the first one outside the memory |
| `Memory.WriteByByte` | src/MemoryStore.cpp:80-84 | a write puts the i-th byte of the value there, up to the first one outside, and leaves every other byte alone |
| `Memory.MemoryStore.GetOrSetValue` | src/MemoryStore.cpp:59-90 | value, status and new contents for every size, address and direction, with the bytes reached before leaving the memory |
| `FunctionalSimulator.Emulator.constructor` | src/emulator.cpp:13-21 | starts at PC 0 with no pending branch, no instruction counted and every register zero |
| `FunctionalSimulator.Emulator.ExecuteInstruction` | src/emulator.cpp:49-293 | updates registers, memory, PC, pending branch and din exactly as the step function on values does, and returns its record |
| `FunctionalSimulator.RunInstructions` | src/funct.cpp:23-38 | stops after the asked number of instructions, or right after the first halt; with 0 it always returns HALT |
| `FunctionalSimulator.RunTillHalt` | src/funct.cpp:42-49 | ends in the state after the first halt |
| `IsaReference.DecodeIsSplit` | src/emulator.cpp:78-105 | masks and sign extension pick the fields of the manual's instruction formats |
| `IsaReference.ExecuteMeetsIsa` | src/emulator.cpp:107-290 | every word has the effect the reference gives, if and only if no operand sign was read too late and no access is misaligned; on the words of `Encoded` the reference is the manual; the operators both sides use are stated bit by bit and as integers in `InstructionMeaning` |
| `InstructionMeaning.LogicalResult` | src/emulator.cpp:135-147 | after AND, OR, NOR, ANDI and ORI each of the 32 bits of the destination is that function of the bits of the operands |
| `InstructionMeaning.ArithmeticResult` | src/emulator.cpp:117-178 | sums, differences, comparisons and shifts leave the integer result modulo 2^32 in the destination, unless they trap |
| `InstructionMeaning.FlagsOfRecord` | src/emulator.cpp:115-184 | a record is invalid exactly for an unknown operation other than the halt word, and overflowing exactly for the ADD, SUB and ADDI that are reported so |
| `InstructionMeaning.HaltIsTheWord` | src/emulator.cpp:71-75 | an instruction halts if and only if its word is 0xfeedfeed; then nothing is decoded and only the PC moves |
| `InstructionMeaning.LoadsReadStoresWrite` | src/cycle.cpp:239-246 | the instructions the pipeline takes for loads are those whose result depends on memory, those it takes for stores those that change memory |
| `IsaReference.UnknownIsReserved` | src/emulator.cpp:179-184 | a word is illegal exactly when its opcode and function are not among those implemented |
| `IsaReference.StrayFieldsAreIgnored` | src/emulator.cpp:78-105 | an implemented operation with bits in fields its format fixes at zero runs as the word without them, which the manual assigns to it |
| `IsaReference.MisalignedIsAddressError` | src/emulator.cpp:243-284 | the reference raises an address error for exactly the misaligned accesses |
| `IsaReference.MisalignedLoadGoesThrough` | src/emulator.cpp:256-260 | a concrete misaligned LW that the emulator performs |
| `IsaReference.OutsideTheSubset` | src/emulator.cpp:155-184 | a concrete XOR that is illegal and a concrete ROTR that runs as SRL |
| `IsaReference.AddJudged` | src/emulator.cpp:117-131 | ADD never reports a false overflow, and misses one exactly when the destination is a source |
| `IsaReference.SubJudged` | src/emulator.cpp:161-175 | what SUB reports for each aliasing of destination and sources |
| `IsaReference.AddiJudged` | src/emulator.cpp:188-203 | ADDI reports exactly the overflows that occur while the destination is not the source |
| `IsaReference.LateSignsMissASum` | src/emulator.cpp:117-131 | a concrete ADD whose overflow goes unnoticed |
| `IsaReference.LateSignsMissAnIncrement` | src/emulator.cpp:188-203 | a concrete ADDI whose overflow goes unnoticed |
| `IsaReference.LateSignsTrapADifference` | src/emulator.cpp:161-175 | a concrete SUB that traps on 1 - 2 |
| `EmulatorTheorems.DelaySlotRefinement` | src/emulator.cpp:52-65 | the pending flag and saved target carry the control of the machine with PC and next PC, also for branches in delay slots and traps that drop a pending branch |
| `EmulatorTheorems.DelaySlotRun` | src/emulator.cpp:52-65 | over every run, with no condition, the emulator is the machine with PC and next PC |
| `EmulatorTheorems.RunMeetsIsa` | src/emulator.cpp:49-293 | a whole run is a run of the reference machine while no sign is misread and neither a PC nor an access is misaligned |
| `EmulatorTheorems.RecordsAreChained` | src/emulator.cpp:58-69 | over every run, each record's nextPC is the pc of the next, and din numbers the records |
| `EmulatorTheorems.TakenBranchTarget` | src/emulator.cpp:210-233 | outside a delay slot a taken branch goes to the delay-slot address plus the shifted offset |
| `EmulatorTheorems.TrapLeavesState` | src/emulator.cpp:126-130 | an overflowing or illegal instruction leaves registers and memory alone, drops a pending branch and continues at 0x8000 |
| `EmulatorTheorems.LoadSeesStore` | src/emulator.cpp:243-284 | a load after a store of its size to its address, with no overlapping store between, brings back the stored bytes |
| `Caching.SplitIsDivision` | src/cache.cpp:41-70 | shift and mask give address / (blockSize numSets) and (address / blockSize) mod numSets |
| `Caching.SameSplitSameBlock` | src/cache.cpp:68-78 | tag and set agree exactly for addresses of one block |
| `CacheCapacity.HoldsItsSize` | src/cache.cpp:41-43 | while all accesses stay within as many consecutive blocks as the cache has lines (cacheSize / blockSize when that divides evenly among the ways), an access hits if and only if its block was accessed before |
| `CacheCapacity.HoldsNoMore` | src/cache.cpp:41-43 | accessing that many consecutive blocks after a block evicts it, whatever was accessed before |
| `CacheCapacity.LinesFillTheCache` | src/cache.cpp:41-43 | the lines times the block size fill the cache up to less than a block per way, exactly when the size divides |
| `CacheCapacity.WellFormedIsPowers` | src/cache.cpp:41-49 | the configurations modelled are those with a way, a power of two of at least four bytes per block, and a power of two of sets |
| `Lru.AccessRowAgrees` | src/cache.cpp:66-112 | an access hits exactly when the block is among the W most recent of its set, and keeps the set in agreement with the most-recently-used list |
| `Lru.RowAgrees` | src/cache.cpp:51-112 | after every history the valid ways by descending rank hold the first W blocks of the list, and the ranks are a permutation |
| `Lru.HitIffNearEnough` | src/cache.cpp:66-92 | a hit means: the block was accessed before, and fewer than W other blocks of its set since |
| `Lru.FreeWaysFirst` | src/cache.cpp:82-112 | findLRU finds a way; no valid block is evicted while a way is free; valid tags of a set differ and rank above invalid ways |
| `Lru.Inclusion` | src/cache.cpp:66-112 | what a cache holds, one with more ways holds after the same accesses |
| `Lru.MoreWaysFewerMisses` | src/cache.cpp:89-90 | more ways never add a miss to a history |
| `Caching.Cache.Access` | src/cache.cpp:66-92 | the object hits by the stack-distance rule for its configuration, whose capacity `CacheCapacity` states, and counts each access once |
| `Caching.Cache.UpdateLRU` | src/cache.cpp:94-103 | promotes one way of one set and leaves every other set alone |
| `Caching.Cache.FindLRU` | src/cache.cpp:105-112 | returns the first way of rank 0 without reaching the assertion |
| `PipelineInvariants.KeepsExceptions` | src/cycle.cpp:173-214 | one cycle keeps the exception tracker exact: at most one excepting instruction in flight, never in MEM or WB, where the flags say |
| `PipelineInvariants.KeepsOrder` | src/cycle.cpp:107-198 | stalls, bubbles and squashes lose, repeat and reorder no instruction |
| `PipelineInvariants.KeepsAccesses` | src/cycle.cpp:224-248 | each cache is asked once for each instruction that uses it, in program order, never for a bubble and never again during a stall |
| `PipelineInvariants.KeepsTally` | src/cycle.cpp:395-462 | five remembered dependencies stand in for all ever detected |
| `PipelineInvariants.EarlyExitSkipsNothing` | src/cycle.cpp:529-536 | the cycle that returns HALT leaves the state a full iteration would |
| `PipelineInvariants.AlwaysInv` | src/cycle.cpp:495-568 | every state of every run keeps all invariants together |
| `PipelineTheorems.InOrderExactlyOnce` | src/cycle.cpp:107-198 | what retired, then MEM, EX, ID, IF, is the executed trace without squashed instructions, with increasing numbers |
| `PipelineTheorems.SquashRemovesTheException` | src/cycle.cpp:173-214 | a pending squash removes exactly the excepting instruction executed last, however long it waits, and never the halt |
| `PipelineTheorems.HazardsNeverPass` | src/cycle.cpp:251-475 | EX never holds a listed consumer of a load in MEM, nor a branch on a listed result in MEM or a load in WB |
| `PipelineTheorems.LoadStallsAreDistinct` | src/cycle.cpp:395-462 | loadStalls is the number of distinct dependencies ever visible, and the table never exceeds five |
| `PipelineTheorems.CachesFollowTheProgram` | src/cycle.cpp:224-248 | in every state instruction accesses are the pcs of all executed records, data accesses the addresses of those that entered MEM, each once and in order; `ProgramAccesses` gives both from the emulator states |
| `ProgramAccesses.AccessesFollowTheStates` | src/cycle.cpp:224-248 | in every state of a run of an image, instruction accesses are the PCs of the emulator states, data accesses the base register plus signed immediate of every load and store before the oldest instruction not yet in MEM |
| `InstructionMeaning.RecordAsks` | src/cycle.cpp:238-246 | the data cache is asked exactly for LW, LBU, LHU, SW, SB, SH, with base register plus signed immediate |
| `PipelineTheorems.DumpShowsTheLatches` | src/cycle.cpp:107-198 | in every state the dump words are those of the instructions in the latches, zero for a bubble, and the cycle is that of the last iteration |
| `PipelineTheorems.StallsAreBounded` | src/cycle.cpp:507-555 | an instruction stalls in ID at most twice, and once unless it is a branch; stalls at IF and MEM never exceed misses times latency |
| `PipelineTheorems.UnusedSignals` | src/cycle.cpp:472-483 | the stall signals for EX and WB are never raised |
| `PipelineTheorems.NoDeadlock` | src/cycle.cpp:507-537 | from every state the pipeline moves within 2 + I latency + 3 D latency cycles |
| `PipelineTheorems.HaltMovesFourTimes` | src/cycle.cpp:518-537 | the halt reaches WB by exactly four moves after its fetch, with stalls only in between |
| `PipelineTheorems.HaltIsSound` | src/cycle.cpp:495-573 | HALT is returned only for a program that halts; then cycles = din + 4 + invalid + 2 overflowing instructions + stalls, stalls at MEM = data misses times latency, and retired instructions and cache accesses are those of the program |
| `PipelineTheorems.RunsToHalt` | src/cycle.cpp:495-585 | every program that halts makes the pipeline return HALT within a bound linear in instructions and latencies |
| `PipelineTheorems.HaltsExactlyWithProgram` | src/cycle.cpp:495-585 | the pipeline halts if and only if the program does |
| `PipelineTheorems.TimingChangesNothing` | src/cycle.cpp:495-585 | caches and latencies change nothing that is executed, retired or accessed |
| `CycleSimulator.MoreWaysCostNothing` | src/cycle.cpp:224-248 | with more ways and all else equal, a simulation halts with no more instruction misses, data misses or stalls at MEM |
| `EmulatedProgram.EveryImageIsAProgram` | src/emulator.cpp:49-75 | every memory image gives well-formed records, never equal to a bubble |
| `EmulatedProgram.WritesAreListed` | src/cycle.cpp:257-279 | an instruction changes a register the tables do not list if and only if it is JAL, the register is 31, and 31 did not hold the link address yet |
| `EmulatedProgram.ReadsAreListed` | src/cycle.cpp:341-382 | an instruction's effect depends on no register but those the tables list |
| `Dependence.SourcesAreNeeded` | src/cycle.cpp:341-382 | a register is listed as a source if and only if some instruction of that operation on those registers, in some state, has another effect when that register changes; except operations with two equal sources that cancel |
| `Dependence.DestinationsAreWritten` | src/cycle.cpp:257-279 | an operation can change exactly the registers listed as written, apart from the link register of JAL and AND or OR of a register with itself |
| `Dependence.HazardsAreDependencies` | src/cycle.cpp:251-390 | each hazard condition holds if and only if the consumer needs the nonzero register the producer loads or writes |
| `Dependence.StallsAreDependencies` | src/cycle.cpp:416-475 | in every state ID stalls if and only if its instruction needs a register loaded in EX, or is a branch that needs one written in EX or loaded in MEM; load stalls are the distinct pairs that ever waited |
| `Dependence.UntouchedIsZero` | src/emulator.cpp:13-21 | over every run of an image, a register that no executed operation can change is zero |
| `EmulatedProgram.NeverNeedsThePendingLoad` | src/cycle.cpp:338-475 | in every state the instruction in EX does not depend on what the load in MEM brings |
| `EmulatedProgram.BranchNeverNeedsPending` | src/cycle.cpp:251-336 | in every state a branch in EX does not depend on a register listed as written in MEM or loaded in WB |
| `EmulatedProgram.OnlyTheLinkPasses` | src/cycle.cpp:251-299 | in every state a branch in EX reads a register the instruction in MEM can change if and only if MEM holds JAL and the branch reads 31 |
| `EmulatedProgram.JalIsNoHazard` | src/cycle.cpp:251-299 | JAL in EX raises no hazard for a branch in ID |
| `EmulatedProgram.LinkIsReadEarly` | src/cycle.cpp:251-299 | the image JAL 0x10; BEQ $31,$0 reaches the state with JAL in MEM and the branch on 31 in EX after four cycles |
| `CycleSimulator.Simulator.constructor` | src/cycle.cpp:70-78 | starts in the first state of the run, each cache with its own configuration, the emulator at PC 0 with every register zero |
| `CycleSimulator.Simulator.RunCycle` | src/cycle.cpp:499-568 | one loop iteration takes the object from a reachable state to the next, and tells whether it halted |
| `CycleSimulator.Simulator.RunCycles` | src/cycle.cpp:495-574 | runs the asked number of cycles or to the halt, and returns HALT exactly in the cycle that ends the run |
| `CycleSimulator.Simulator.RunTillHalt` | src/cycle.cpp:578-594 | terminates with HALT in the functional state after the halt; the caches were asked for the PCs and effective addresses of the program, and cycles and stalls are what their misses cost at their own latencies |
| `CycleSimulator.Simulator.UpdateCacheDelays` | src/cycle.cpp:224-248 | asks the instruction cache for the pc just fetched and the data cache for the address of the load or store that entered MEM, and sets the delay to that cache's own latency on a miss, zero on a hit |
| `CycleSimulator.Simulator.DetectHazards` | src/cycle.cpp:416-475 | raises the ID stall if and only if the instruction there must wait for a register, and counts the dependencies as the specification of the cycle says |
| `CycleSimulator.Simulator.HasArithmeticHazard` | src/cycle.cpp:251-299 | true exactly when a branch in ID needs a nonzero register that the operation in EX produces |
| `CycleSimulator.Simulator.HasLoadUseHazard` | src/cycle.cpp:338-390 | true exactly when ID holds no branch and needs the nonzero register EX loads |
| `CycleSimulator.Simulator.HasLoadBranchHazard` | src/cycle.cpp:302-336 | true exactly when a branch in ID needs the nonzero register loaded in EX or MEM |
| `Agreement.RunBoth` | src/cycle.cpp:578-594 | both simulators halt with the same registers, memory, PC and instruction count, for any caches, every register that nothing wrote being zero |

## Left out

- File and console I/O, dumps, the disassembler, argument parsing and the main programs: they add no behaviour to the parts modelled. Memory contents are the input of every theorem.
- `FunctionalSimulator.RunTillHalt`: requires that the program halts, since the driver does not terminate otherwise. `PipelineTheorems.HaltsExactlyWithProgram` covers both cases.
- `CycleSimulator.Simulator.RunTillHalt`: requires that the program halts, for the same reason.
- `Agreement.RunBoth`: requires that the program halts, for the same reason.
- `IsaReference.ExecuteMeetsIsa`: instructions of the manual that the simulator does not implement, and exceptions the manual leaves to the implementation, such as those for addresses outside the memory, are not part of the reference.
- Wrap-around of the counters (din, cycles, hits, misses, load stalls): they are natural numbers.
- Cache configurations whose block size or number of sets is not a power of two, or whose block is smaller than a word: the source takes a truncated or undefined logarithm there. The cache data type and the read/write argument change nothing and are dropped.
- The unused random generator and `iCacheHitCount`.
- Names of registers (`RegisterInfo`): registers are an array of 32 words.
- `FunctionalSimulator.Emulator.ExecuteInstruction`: its one body is split into methods for the fetch, ADD, SUB, ADDI, the other R-type instructions, branches and jumps, and the rest; reads of the memory ignore the status, as in the source.
- A stall bound that separates instruction-cache stalls from those hidden behind other stalls for each single miss: `PipelineTheorems.Finished` gives their exact sum.
