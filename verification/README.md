# A verified model of the CPU project's simulators, generators and tables

The repository is a student x86 CPU project. It holds a cycle-accurate pipeline simulator, a functional
simulator, generators that turn truth tables, state machines and a SystemVerilog subset into gates, a build
chain for memory images, and a C library with hash tables, a queue and a thread pool. This project models
the parts with the most state and branching and proves that they do what they are for.

`dafny verify dfyconfig.toml` checks everything.

## The parts

- **LC-3b pipeline** (`Lc3bDatapath`, `Lc3bNumbers`, `Lc3bArithmetic`, `Lc3bPipeline`, `Lc3bRuns`, `Lc3bMicrocode`,
  `Lc3bIsa`, `Lc3bStaleFetch`, `Lc3bSimulator`). A state is drained by completing what is in flight, oldest first.
  One cycle either leaves the drained state alone or advances it by one instruction of the sequential machine,
  with dependency stalls, branch stalls and cache misses in the way. The result is carried to whole runs, to a
  progress bound, and to the shipped microcode, whose rows are checked against the conditions. `Lc3bIsa` is the
  LC-3b instruction set in numbers, opcode by opcode; the sequential machine with the shipped microcode is proved
  to be just that, so that the pipeline computes LC-3b programs. The class has the simulator's globals as fields
  and is proved equal to the transition system stage by stage. Words are 32-bit vectors, as C `int`s are here.
- **Queue and thread pool** (`PFifo`, `ThreadPool`, `ThreadPoolRuns`). The ring buffer is a class. The pool is a
  state machine in which every semaphore operation and every access to the ring is a step of its own; its
  results hold for every interleaving.
- **Truth tables to gates** (`QuineMcCluskey`, `SopNetlist`, `SopCompiler`, `CombCompiler`, `FsmCompiler`). The
  minimiser is exact, emitted netlists mean their sums of products, and the registers of a compiled state
  machine stay in step with the machine of the CSV file. Two generators share this code; `fast` and `forward`
  select the differences between their copies.
- **ROM generator** (`RomCompiler`). Banks, slices and a decoder; every port shows the last matching row.
- **SystemVerilog subset to netlist** (`SynthBits`, `SynthLowering`, `SynthModule`, `SynthRuns`, `SynthTool`,
  `SynthMeaning`, `SynthExamples`). The source language is evaluated by the width rules of section 11.6 of IEEE
  1800-2017, and `SynthMeaning` says in numbers what its operators mean. `WellWidthed` is the condition on widths
  under which the tool agrees with the language; for comparisons of a sum with a constant it is shown exactly when
  the two disagree. Clocks have names, and a step may have edges of any of them.
- **Hash tables** (`VerstableProbing`, `VerstableChains`, `VerstableImage`, `Verstable`; `KhashlSlots`, `Khashl`;
  `RobinHoodSlots`, `RobinHood`; `SplitOrder`, `SplitOrderedTable`; shared: `Ring`, `Counting`, `Wrappers`). Each is a class
  over arrays or linked nodes that refines a map or a set. `Image`, `Slots` and the like are the values of the
  arrays; the effect of each update on the invariant is a lemma about values.
- **Functional x86 simulator** (`X86Memory`, `X86Flags`, `RepStrings`, `X86Cpu`). Repeated string instructions
  run one micro-operation a cycle; they refine the plain loop, which copies or compares the elements one after
  the other, and are characterised when a fault interrupts them.
- **Memory image** (`MemoryImage`, `BankTables`). Sections to sparse pages, pages to frames, frames to banked
  cells, and back through the TLB.

## Results where the code falls short

- `Lc3bRuns.FetchIsCurrent`: a word may be fetched stale, exactly when an instruction that is still in DE or AGEX
  stores another value to it; the older instructions have reached the data cache by then. A run fetches right
  exactly if no fetch comes before such a store (`RunFetchesRight`). The instance is
  `Lc3bStaleFetch.ShippedMachineFetchesStale`: with the shipped microcode a store of the word 0 into the
  instruction that follows it is not seen by the fetch of that instruction.
- `Verstable.Table.Evict`, `InsertRaw`: an eviction that finds no empty bucket has already unlinked the key. The
  table then misses that key until the next rehash. This happens exactly in the states that `Stuck` describes,
  never with a load factor of at most one in tables of up to 1024 buckets (`SmallTablesNeverStick`); with a load
  factor of two it does (`AFullTableIsStuck`). The inserts that grow recover from it.
- `Khashl.Table.Resize`: shrinking moves the keys before it asks for the smaller array. The table keeps its keys if
  and only if it is not the case that there are keys, the smaller size has room for them and the array is refused
  (`LosesKeys`); `RefusedShrink` is such a table and request.
- `SopNetlist.ReduceTree`: the copy of the tree in `genFSM_SOP.py` (lines 697-723) asks for a one-input cell, which
  the library lacks, exactly when `HasLoneChunk` holds of the number of wires. For a whole state machine this is
  exactly if some equation has a sum or a product of such a length (`SopCompiler.LoneSums`); thirteen literals
  are one (`ThirteenLiterals`).
- `SynthExamples.AgreeUnlessCarry`: an unsized literal makes the language compute in 32 bits and the netlist in
  the width of the signal. For each of the six comparisons of `x + c` with `d` it is stated which values of `x` go
  wrong.
- `RepStrings.RepMovsFaults`: after a fault in REP MOVS the count is one below the number of elements left
  (`CountGoneBeforeTheMove` has a count of zero with one of two bytes moved); REPE CMPS is right (`RepeCmpsFaults`).
- `Lc3bIsa.RegistersStayShort`: PC + 2 is not cut to 16 bits, so that a register gets a wider value exactly in a call
  from the last word of memory or beyond.
- `X86Flags.AuxiliaryCarry`: AF ignores the carry that comes in.

## Where code and comments disagree

The model follows the code.

- `genFSM_SOP.py` 433-436 reports a colliding PLA key as keeping the old row, and keeps the new one.
- `synthGen.py` 949-953 draws the last arm outermost; the loop makes the first arm outermost.
- `hashmap.c` 68 speaks of a load factor up to 90 percent; the code allows 95.

## Model

| member | source | states |
|---|---|---|
| Lc3bDatapath.CopyOffsetsAgree | design/legacy/sim/harish_sim/lc3bsim6.c:1309-1313 | the stage-by-stage copies of the control bits hand every stage the fields the decoder read from the control-store row |
| Lc3bDatapath.PcBitsSelectWord | design/legacy/sim/harish_sim/lc3bsim6.c:1328-1369 | giving the instruction cache only the low 16 bits of the PC selects the same word |
| Lc3bPipeline.InvPreserved | design/legacy/sim/harish_sim/lc3bsim6.c:1025-1369 | every cycle keeps: at most one valid branch-stalling instruction in DE, AGEX or MEM, with nothing valid younger than it |
| Lc3bPipeline.OperandsAreCurrent | design/legacy/sim/harish_sim/lc3bsim6.c:1200-1252 | when the dependency logic does not stall, completing the decoded instruction from the operands read this cycle equals completing it after all older instructions |
| Lc3bPipeline.CompleteMemFrame | design/legacy/sim/harish_sim/lc3bsim6.c:1025-1126 | an instruction that completes leaves alone every register, the condition codes and the memory that its control word does not write, and the PC unless it redirects it |
| Lc3bPipeline.OldestCommute | design/legacy/sim/harish_sim/lc3bsim6.c:1075-1126 | finishing the oldest instruction may move across a fetch: only the PC differs, by the step past the fetched word |
| Lc3bPipeline.YoungerCommute | design/legacy/sim/harish_sim/lc3bsim6.c:1130-1198 | with no branch in flight the two younger instructions complete the same way whatever the PC |
| Lc3bPipeline.CycleRefines | design/legacy/sim/harish_sim/lc3bsim6.c:285-294 | one clock cycle changes the drained machine by exactly one sequential instruction if a valid instruction enters DE and by nothing otherwise |
| Lc3bPipeline.CheckpointsShift | design/legacy/sim/harish_sim/lc3bsim6.c:285-294 | how the memories of the partial drains move in a cycle, so that a fetch sees memory before the stores of at most two older instructions |
| Lc3bNumbers.SumOfNumbers | design/legacy/sim/harish_sim/lc3bsim6.c:979-993 | adding the bits of two C ints is addition modulo 2^32 |
| Lc3bNumbers.BitsOfMeet | design/legacy/sim/harish_sim/lc3bsim6.c:983-985 | the bitwise AND of two numbers, position by position |
| Lc3bNumbers.BitsOfDiffer | design/legacy/sim/harish_sim/lc3bsim6.c:986-988 | the bitwise XOR of two numbers, position by position |
| Lc3bArithmetic.AluValue | design/legacy/sim/harish_sim/lc3bsim6.c:979-993 | the ALU in numbers: sum modulo 2^16, AND, XOR, or the second operand |
| Lc3bArithmetic.ShfValue | design/legacy/sim/harish_sim/lc3bsim6.c:995-1013 | the shifter in numbers: multiplication or division by a power of two, with zeros or with the sign |
| Lc3bArithmetic.ExtendedField | design/legacy/sim/harish_sim/lc3bsim6.c:885-910 | sign extension is the two's complement reading of a field |
| Lc3bArithmetic.AgexAddressValue | design/legacy/sim/harish_sim/lc3bsim6.c:1138-1160 | the address adder in numbers: base and signed offset, once or twice, modulo 2^16 |
| Lc3bArithmetic.JoinValue | design/legacy/sim/harish_sim/lc3bsim6.c:806-819 | a word is its high byte times 256 and its low byte |
| Lc3bRuns.FetchIsCurrent | design/legacy/sim/harish_sim/lc3bsim6.c:1328-1369 | a fetch reads memory as it was before the instructions in DE and AGEX; so it gets the word of the sequential machine if and only if they do not change that word |
| Lc3bRuns.PipelineRunsProgram | design/legacy/sim/harish_sim/lc3bsim6.c:303-321 | from an empty pipeline, after any number of cycles in which no fetch comes before a pending store to its word, the drained machine is the sequential machine after as many instructions as were fetched |
| Lc3bRuns.RunFetchesRight | design/legacy/sim/harish_sim/lc3bsim6.c:1328-1369 | all fetches of a run get the words of the sequential machine if and only if none comes before a pending store to its word |
| Lc3bRuns.DistanceSuffices | design/legacy/sim/harish_sim/lc3bsim6.c:1328-1369 | a condition on the program alone is enough: no instruction's word is changed by the two instructions before it |
| Lc3bRuns.NextFetch | design/legacy/sim/harish_sim/lc3bsim6.c:783-819 | from any cycle of any run a valid instruction enters DE within a bound computed from the stalls and the cache-miss phase |
| Lc3bRuns.PipelineProgresses | design/legacy/sim/harish_sim/lc3bsim6.c:783-819 | every 21 cycles of any run fetch at least one instruction, whatever the dependencies, branches and cache misses |
| Lc3bMicrocode.UcodeIsWellFormed | design/legacy/sim/harish_sim/ucode6.txt:1-63 | every row of the shipped microcode meets the conditions that the pipeline results ask of a control store |
| Lc3bMicrocode.ShippedMachineRunsProgram | design/legacy/sim/harish_sim/ucode6.txt:1-63 | with the shipped microcode, 21 m cycles from reset fetch at least m instructions, and the drained machine is the sequential machine after them as long as no fetch comes before a pending store to its word |
| Lc3bIsa.ExecMeans | design/legacy/sim/harish_sim/lc3bsim6.c:1025-1325 | under any control word the sequential machine does in numbers what the datapath description says |
| Lc3bIsa.InstructionMeans | design/legacy/sim/harish_sim/ucode6.txt:1-63 | with the shipped microcode each instruction does what its opcode says: ADD, AND, XOR, SHF, LDB, LDW, STB, STW, BR, JMP, JSR, JSRR, LEA and TRAP in numbers |
| Lc3bIsa.RegistersStayShort | design/legacy/sim/harish_sim/lc3bsim6.c:1328-1369 | registers stay below 2^16 exactly unless a call is made whose next address is beyond the memory |
| Lc3bIsa.ShippedMachineIsLc3b | design/legacy/sim/harish_sim/lc3bsim6.c:303-321 | the drained state after 21 m cycles is what the instruction set makes of the initial state in as many instructions as were fetched, as long as no fetch comes before a pending store to its word |
| Lc3bStaleFetch.ShippedMachineFetchesStale | design/legacy/sim/harish_sim/lc3bsim6.c:1328-1369 | a concrete program on the shipped microcode whose third cycle fetches the word from before the store that precedes it |
| Lc3bSimulator.Simulator.constructor | design/legacy/sim/harish_sim/lc3bsim6.c:681-708 | power-on: empty latches, PC, memory, registers and cycle count zero, Z set |
| Lc3bSimulator.Simulator.DcacheAccess | design/legacy/sim/harish_sim/lc3bsim6.c:783-800 | every ninth cycle misses with 0xfeed on the bus and no write; a hit reads the old word and then writes the enabled bytes |
| Lc3bSimulator.Simulator.IcacheAccess | design/legacy/sim/harish_sim/lc3bsim6.c:806-819 | every thirteenth cycle misses; a hit reads the word at the address |
| Lc3bSimulator.Simulator.SrStage | design/legacy/sim/harish_sim/lc3bsim6.c:1025-1072 | writes back register and condition codes exactly as the transition system says |
| Lc3bSimulator.Simulator.MemStage | design/legacy/sim/harish_sim/lc3bsim6.c:1075-1126 | memory access, stall, branch resolution and the SR latch exactly as the transition system says |
| Lc3bSimulator.Simulator.AgexStage | design/legacy/sim/harish_sim/lc3bsim6.c:1130-1198 | address and ALU results and the MEM latch exactly as the transition system says |
| Lc3bSimulator.Simulator.DependencyLogic | design/legacy/sim/harish_sim/lc3bsim6.c:1200-1252 | the computed stall is the dependency test of the transition system |
| Lc3bSimulator.Simulator.DeStage | design/legacy/sim/harish_sim/lc3bsim6.c:1255-1325 | decode, register read and the AGEX latch exactly as the transition system says |
| Lc3bSimulator.Simulator.FetchStage | design/legacy/sim/harish_sim/lc3bsim6.c:1328-1369 | PC selection, the DE latch and the fetch exactly as the transition system says |
| Lc3bSimulator.Simulator.ClockCycle | design/legacy/sim/harish_sim/lc3bsim6.c:285-294 | the five stage functions in their order, on the mutable machine, are one step of the transition system |
| Lc3bSimulator.Simulator.RunFor | design/legacy/sim/harish_sim/lc3bsim6.c:303-321 | a bounded run is that many steps of the transition system; it ends early, and the machine halts, exactly one cycle after the first PC of zero |
| PFifo.FullExactlyWhen | design/legacy/sim/sim_func/libs/mpsLibC/RingBuffer/PFifo/PFifo.c:34-56 | the index test for full holds exactly with all but one slot used, and equal indices exactly with none |
| PFifo.AdvanceHead | design/legacy/sim/sim_func/libs/mpsLibC/RingBuffer/PFifo/PFifo.c:34-46 | storing at the head and advancing it appends to the abstract queue |
| PFifo.AdvanceTail | design/legacy/sim/sim_func/libs/mpsLibC/RingBuffer/PFifo/PFifo.c:47-58 | advancing the tail removes the oldest element of the abstract queue |
| PFifo.Fifo.constructor | design/legacy/sim/sim_func/libs/mpsLibC/RingBuffer/PFifo/PFifo.c:167-212 | a new queue is empty, with one slot more than the capacity |
| PFifo.Fifo.Enqueue | design/legacy/sim/sim_func/libs/mpsLibC/RingBuffer/PFifo/PFifo.c:34-46 | appends unless the ring is full; reports which |
| PFifo.Fifo.Dequeue | design/legacy/sim/sim_func/libs/mpsLibC/RingBuffer/PFifo/PFifo.c:47-58 | removes and returns the oldest element unless the ring is empty |
| PFifo.Fifo.TryPush | design/legacy/sim/sim_func/libs/mpsLibC/RingBuffer/PFifo/PFifo.c:70-89 | non-blocking push: appends or reports a full queue, and keeps semaphores and ring in balance |
| PFifo.Fifo.TryPop | design/legacy/sim/sim_func/libs/mpsLibC/RingBuffer/PFifo/PFifo.c:125-144 | non-blocking pop: returns the oldest element or reports an empty queue |
| PFifo.Fifo.ElemCount | design/legacy/sim/sim_func/libs/mpsLibC/RingBuffer/PFifo/PFifo.c:225-233 | the count computed from the indices is the number of queued elements |
| PFifo.Fifo.Flush | design/legacy/sim/sim_func/libs/mpsLibC/RingBuffer/PFifo/PFifo.c:235-239 | pops until the queue is empty, and terminates |
| ThreadPool.TokensAreGood | design/legacy/sim/sim_func/libs/mpsLibC/RingBuffer/PFifo/PFifo.c:59-68 | in every state of the invariant a thread holding a slot token finds room and one holding a data token finds an element |
| ThreadPool.StepKeepsTokens | design/legacy/sim/sim_func/libs/mpsLibC/RingBuffer/PFifo/PFifo.c:59-68 | each atomic step moves semaphore tokens between a thread, the semaphores and the ring, and loses none |
| ThreadPool.StepInv | design/legacy/sim/sim_func/libs/mpsLibC/ThreadPool/ThreadPool.c:45-58 | the invariant of the whole pool (token balance, FIFO log, pills last, exits) survives every step of every thread |
| ThreadPool.StepKeepsElements | design/legacy/sim/sim_func/libs/mpsLibC/ThreadPool/ThreadPool.c:125-147 | no step loses or duplicates a job or a kill pill |
| ThreadPoolRuns.FinishedWorkers | design/legacy/sim/sim_func/libs/mpsLibC/ThreadPool/ThreadPool.c:132-147 | when the destroyer has joined all workers each holds exactly one pill and none is left in the ring |
| ThreadPoolRuns.NoDeadlock | design/legacy/sim/sim_func/libs/mpsLibC/ThreadPool/ThreadPool.c:45-147 | until the destroyer has returned some thread can always take a step |
| ThreadPoolRuns.StepCosts | design/legacy/sim/sim_func/libs/mpsLibC/ThreadPool/ThreadPool.c:45-147 | every step lowers a measure, so that no schedule goes on for ever |
| ThreadPoolRuns.EveryInterleaving | design/legacy/sim/sim_func/libs/mpsLibC/ThreadPool/ThreadPool.c:45-147 | for every interleaving of clients, workers and the destroyer: Enqueue and Dequeue never fail, order is FIFO, the run is bounded, and it ends only with the destroyer returned |
| ThreadPoolRuns.ShutdownAccountsForJobs | design/legacy/sim/sim_func/libs/mpsLibC/ThreadPool/ThreadPool.c:132-147 | at the end a job has run exactly as often as it was given if and only if it is not left in the ring or with a client |
| ThreadPoolRuns.OrderlyShutdownRunsEveryJob | design/legacy/sim/sim_func/libs/mpsLibC/ThreadPool/ThreadPool.c:132-147 | if every client returned before the shutdown began, the queue ends empty and every job has run exactly as often as it was given |
| QuineMcCluskey.MergeIsOneDifference | design/EverythingEverywhereAllAtOnce/scripts/RTL_Generation/genFSM_SOP.py:464-472 | two cubes merge exactly when they differ in one position and neither has a dash there |
| QuineMcCluskey.CanMerge | design/EverythingEverywhereAllAtOnce/scripts/RTL_Generation/genFSM_SOP.py:464-472 | the loop returns the merged cube if and only if the cubes merge |
| QuineMcCluskey.MergeRound | design/EverythingEverywhereAllAtOnce/scripts/RTL_Generation/genFSM_SOP.py:480-489 | the double loop of one round collects all merges and marks the cubes that merged |
| QuineMcCluskey.MergeRoundIsStep | design/EverythingEverywhereAllAtOnce/scripts/RTL_Generation/genFSM_SOP.py:480-489 | what the loop collected is the set of merges of all pairs of the round |
| QuineMcCluskey.NextRound | design/EverythingEverywhereAllAtOnce/scripts/RTL_Generation/genFSM_SOP.py:479-493 | if round k holds exactly the implicants with k dashes, the merges are exactly those with k + 1 |
| QuineMcCluskey.UnusedArePrime | design/EverythingEverywhereAllAtOnce/scripts/RTL_Generation/genFSM_SOP.py:490-492 | the cubes of a round that took no part in a merge are exactly its prime implicants |
| QuineMcCluskey.PrimeImplicants | design/EverythingEverywhereAllAtOnce/scripts/RTL_Generation/genFSM_SOP.py:477-493 | the loop terminates and returns exactly the prime implicants of the ON and don't-care minterms |
| QuineMcCluskey.BestFirst | design/EverythingEverywhereAllAtOnce/scripts/RTL_Generation/genFSM_SOP.py:506-513 | the stable sort puts a cube first that covers at least as much of what is left as any other |
| QuineMcCluskey.KeyMeans | design/EverythingEverywhereAllAtOnce/scripts/RTL_Generation/genFSM_SOP.py:506-512 | the key compares how many minterms are covered and then how many dashes there are |
| QuineMcCluskey.TakeBest | design/EverythingEverywhereAllAtOnce/scripts/RTL_Generation/genFSM_SOP.py:514-516 | picking the best cube keeps: chosen cubes are prime, picks are greedy, what is left can still be covered |
| QuineMcCluskey.DropBest | design/EverythingEverywhereAllAtOnce/scripts/RTL_Generation/genFSM_SOP.py:513-514 | so does skipping a cube that covers nothing of what is left |
| QuineMcCluskey.QmMinimise | design/EverythingEverywhereAllAtOnce/scripts/RTL_Generation/genFSM_SOP.py:458-518 | chosen cubes are prime implicants, each a greediest choice for what was left, every ON minterm is covered, and the incomplete-cover branch is never taken |
| SopNetlist.OrderedSettles | design/EverythingEverywhereAllAtOnce/scripts/RTL_Generation/genCombinational_SOP.py:623-664 | a netlist in which gates read only earlier wires has a solution for every input |
| SopNetlist.ReduceTree | design/EverythingEverywhereAllAtOnce/scripts/RTL_Generation/genCombinational_SOP.py:459-497 | for any number of wires the tree of gates computes their AND or OR; the copy without forwarding asks for a one-input cell exactly when some layer leaves a chunk of one wire |
| SopNetlist.EmitAnd | design/EverythingEverywhereAllAtOnce/scripts/RTL_Generation/genCombinational_SOP.py:500-513 | one wire, up to twelve, or more: the emitted cells compute the conjunction |
| SopNetlist.EmitTerm | design/EverythingEverywhereAllAtOnce/scripts/RTL_Generation/genFSM_SOP.py:940-995 | a product term as constant, AND tree, NOR of complements or NAND cell, on wires of its own; one-input cells exactly for a term whose tree has a lone wire in some layer |
| SopNetlist.EmitSop | design/EverythingEverywhereAllAtOnce/scripts/RTL_Generation/genFSM_SOP.py:922-999 | all ways of emitting an output, NOR and NAND-NAND included, compute the sum of its products; the FSM copy asks for a one-input cell exactly if the sum or a product has a lone wire in its tree |
| SopNetlist.ThirteenLiterals | design/EverythingEverywhereAllAtOnce/scripts/RTL_Generation/genFSM_SOP.py:697-723 | a product of thirteen literals makes the FSM generator ask for a one-input cell |
| SopCompiler.SopMatchesCubes | design/EverythingEverywhereAllAtOnce/scripts/RTL_Generation/genFSM_SOP.py:559-571 | a sum of products is on exactly when one of the cubes covers the input vector |
| SopCompiler.Minimise | design/EverythingEverywhereAllAtOnce/scripts/RTL_Generation/genFSM_SOP.py:458-518 | the minimised cubes are on for the ON minterms, off outside ON and don't-care |
| SopCompiler.CompileBlock | design/EverythingEverywhereAllAtOnce/scripts/RTL_Generation/genCombinational_SOP.py:533-664 | inverters and logic of all outputs: every solution of the gate equations gives each output its truth table; a one-input cell is asked for exactly if an equation of the FSM copy has a lone wire in a tree |
| CombCompiler.ExpandsToCovered | design/EverythingEverywhereAllAtOnce/scripts/RTL_Generation/genCombinational_SOP.py:128-140 | expanding the don't-cares of a row yields exactly the minterms it covers |
| CombCompiler.FirstMatch | design/EverythingEverywhereAllAtOnce/scripts/RTL_Generation/genCombinational_SOP.py:156-167 | the first row covering the vector, or none |
| CombCompiler.BuildTable | design/EverythingEverywhereAllAtOnce/scripts/RTL_Generation/genCombinational_SOP.py:142-167 | the first-seen table maps every vector to the outputs of the first row covering it |
| CombCompiler.Compile | design/EverythingEverywhereAllAtOnce/scripts/RTL_Generation/genCombinational_SOP.py:128-664 | end to end: only library cells, reads only driven wires, and each output is that of the first matching row, either value on a don't-care, 0 without a row |
| FsmCompiler.ExpandRow | design/EverythingEverywhereAllAtOnce/scripts/RTL_Generation/genFSM_SOP.py:247-286 | a row expanded vector by vector; a conflict is reported exactly if a vector already has another move |
| FsmCompiler.ExpandTable | design/EverythingEverywhereAllAtOnce/scripts/RTL_Generation/genFSM_SOP.py:260-294 | the table of the first row for each state and vector; stops exactly if two rows clash |
| FsmCompiler.RouteState | design/EverythingEverywhereAllAtOnce/scripts/RTL_Generation/genFSM_SOP.py:301-312 | the undefined vectors of a state go to ERROR with all outputs 0, the others keep their move |
| FsmCompiler.RouteAll | design/EverythingEverywhereAllAtOnce/scripts/RTL_Generation/genFSM_SOP.py:296-312 | the same for every user-defined state |
| FsmCompiler.BitsNeeded | design/EverythingEverywhereAllAtOnce/scripts/RTL_Generation/genFSM_SOP.py:346-347 | the fewest state bits that tell the states apart, at least one |
| FsmCompiler.Enumerate | design/EverythingEverywhereAllAtOnce/scripts/RTL_Generation/genFSM_SOP.py:349-352 | distinct codes below the number of states, IDLE first with code 0, ERROR last |
| FsmCompiler.FillPla | design/EverythingEverywhereAllAtOnce/scripts/RTL_Generation/genFSM_SOP.py:429-436 | for any entries, a later row replaces an earlier one with the same key: each key has the row of its last entry, or the row from before |
| FsmCompiler.FilledHas | design/EverythingEverywhereAllAtOnce/scripts/RTL_Generation/genFSM_SOP.py:429-436 | entries that have one move for each state and vector all have their row, and other rows stay |
| FsmCompiler.BuildPla | design/EverythingEverywhereAllAtOnce/scripts/RTL_Generation/genFSM_SOP.py:314-436 | for every state and vector, self-loops of ERROR included, the PLA row is the code of the next state and the outputs of the CSV machine's move |
| FsmCompiler.CompileTable | design/EverythingEverywhereAllAtOnce/scripts/RTL_Generation/genFSM_SOP.py:343-999 | codes, PLA and gates together: one clock edge of the gates is one move of the CSV machine, and one-input cells are asked for exactly if an equation has a lone wire in a tree |
| FsmCompiler.ChecksMean | design/EverythingEverywhereAllAtOnce/scripts/RTL_Generation/genFSM_SOP.py:173-240 | the checks before the conversion: a row for IDLE, and every next state is ERROR or has a row |
| FsmCompiler.Compile | design/EverythingEverywhereAllAtOnce/scripts/RTL_Generation/genFSM_SOP.py:173-999 | errors exactly for a missing IDLE, an undefined next state or clashing rows; otherwise gates that step as the CSV machine does, with a one-input cell exactly if an equation has a lone wire in a tree |
| FsmCompiler.BlockSteps | design/EverythingEverywhereAllAtOnce/scripts/RTL_Generation/genFSM_SOP.py:922-999 | gates that realise the PLA columns step as the CSV machine does |
| FsmCompiler.FsmBisimulation | design/EverythingEverywhereAllAtOnce/scripts/RTL_Generation/genFSM_SOP.py:893-903 | from reset, after any input sequence, the flip-flops hold the code of the CSV machine's state, and every specified output agrees in every cycle |
| FsmCompiler.ResetIsIdle | design/EverythingEverywhereAllAtOnce/scripts/RTL_Generation/genFSM_SOP.py:893-903 | reset, which clears the flip-flops, puts the hardware into IDLE |
| FsmCompiler.ErrorShows | design/EverythingEverywhereAllAtOnce/scripts/RTL_Generation/genFSM_SOP.py:349-352 | in every cycle of a run from reset the flip-flops hold ERROR's code exactly if the CSV machine is in ERROR |
| FsmCompiler.ErrorTraps | design/EverythingEverywhereAllAtOnce/scripts/RTL_Generation/genFSM_SOP.py:314-327 | from the cycle in which the flip-flops hold ERROR's code they hold it in every later one, with all outputs 0, whatever the inputs |
| VerstableProbing.ProbesDiffer | design/legacy/sim/sim_func/libs/mpsLibC/HashMap/verstable/verstable.h:476-479 | triangular probing never meets the same bucket twice below the bucket count |
| VerstableProbing.EmptyIsProbed | design/legacy/sim/sim_func/libs/mpsLibC/HashMap/verstable/verstable.h:1132-1153 | in tables of up to 1024 buckets a search from an occupied home finds an empty bucket if there is one |
| VerstableChains.LinkKeepsChains | design/legacy/sim/sim_func/libs/mpsLibC/HashMap/verstable/verstable.h:1353-1364 | linking a new bucket after the right predecessor keeps every chain complete and increasing |
| VerstableChains.SkipKeepsChains | design/legacy/sim/sim_func/libs/mpsLibC/HashMap/verstable/verstable.h:1204-1206 | unlinking a bucket keeps the chains of all other keys |
| VerstableChains.SkipBreaksChain | design/legacy/sim/sim_func/libs/mpsLibC/HashMap/verstable/verstable.h:1204-1212 | a bucket that was unlinked and not moved is in no chain any more |
| VerstableChains.StartKeepsChains | design/legacy/sim/sim_func/libs/mpsLibC/HashMap/verstable/verstable.h:1262-1294 | a new chain in a vacated home bucket keeps the others |
| VerstableChains.ClearKeepsChains | design/legacy/sim/sim_func/libs/mpsLibC/HashMap/verstable/verstable.h:1596-1685 | clearing an unlinked bucket keeps the chains |
| Verstable.Table.constructor | design/legacy/sim/sim_func/libs/mpsLibC/HashMap/verstable/verstable.h:1031-1055 | a new table is empty |
| Verstable.Table.FindFirstEmpty | design/legacy/sim/sim_func/libs/mpsLibC/HashMap/verstable/verstable.h:1132-1153 | finds the first empty bucket of the probe sequence, and fails exactly if there is none within the displacement limit |
| Verstable.Table.FindInsertLocation | design/legacy/sim/sim_func/libs/mpsLibC/HashMap/verstable/verstable.h:1159-1176 | finds the key of the chain after which the displacement belongs |
| Verstable.Table.Evict | design/legacy/sim/sim_func/libs/mpsLibC/HashMap/verstable/verstable.h:1188-1228 | moves a foreign key into its own chain; fails exactly if no empty bucket is probed, and then leaves that key out of its chain |
| Verstable.Table.InsertRaw | design/legacy/sim/sim_func/libs/mpsLibC/HashMap/verstable/verstable.h:1251-1373 | inserts or overwrites; refused exactly if full or out of probes; a refused insert leaves the table whole exactly if the key was not stuck behind an eviction that failed |
| Verstable.Table.Rehash | design/legacy/sim/sim_func/libs/mpsLibC/HashMap/verstable/verstable.h:1391-1469 | moves all keys to a doubling that takes them, so that the map is unchanged, also when a key was out of its chain; on failure nothing changes. With a load factor of at most one no smaller size of up to 1024 buckets has room, and failure means that none up to the memory has |
| Verstable.Table.ReinsertInto | design/legacy/sim/sim_func/libs/mpsLibC/HashMap/verstable/verstable.h:1405-1450 | the reinsertion loop transfers all keys, or stops at the first that is refused with just the keys before it transferred; up to 1024 buckets and load factor one it stops only for lack of room |
| Verstable.Table.Insert | design/legacy/sim/sim_func/libs/mpsLibC/HashMap/verstable/verstable.h:1478-1510 | adds or replaces the pair and returns where it is, growing as needed; the end iterator leaves the map unchanged, and with a load factor of at most one it means that no size of up to 1024 buckets within the memory has room |
| Verstable.Table.GetOrInsert | design/legacy/sim/sim_func/libs/mpsLibC/HashMap/verstable/verstable.h:1514-1544 | returns the key's place, adding the pair only if the key is absent; the end iterator as for an insert |
| Verstable.Table.Get | design/legacy/sim/sim_func/libs/mpsLibC/HashMap/verstable/verstable.h:1549-1585 | finds a key exactly if it is there and in its chain; so always, in a whole table |
| Verstable.Table.EraseItrRaw | design/legacy/sim/sim_func/libs/mpsLibC/HashMap/verstable/verstable.h:1596-1685 | removes exactly the iterator's key; the flag says whether the iterator's bucket still holds a key not yet passed |
| Verstable.Table.Erase | design/legacy/sim/sim_func/libs/mpsLibC/HashMap/verstable/verstable.h:1689-1699 | removes the key if present and reports whether it was |
| Verstable.Table.FastForward | design/legacy/sim/sim_func/libs/mpsLibC/HashMap/verstable/verstable.h:1701-1719 | skips to the next occupied bucket, four at a time |
| Verstable.Table.First | design/legacy/sim/sim_func/libs/mpsLibC/HashMap/verstable/verstable.h:1779-1787 | the first occupied bucket |
| Verstable.Table.Next | design/legacy/sim/sim_func/libs/mpsLibC/HashMap/verstable/verstable.h:1721-1729 | the next occupied bucket |
| Verstable.Table.EraseItr | design/legacy/sim/sim_func/libs/mpsLibC/HashMap/verstable/verstable.h:945-957 | removes the iterator's key and returns the next key to visit |
| Verstable.VisitAndErase | design/legacy/sim/sim_func/libs/mpsLibC/HashMap/verstable/verstable.h:945-957 | a first/next loop erasing any subset visits every key present at the start exactly once and leaves exactly the others |
| Verstable.SmallTablesNeverStick | design/legacy/sim/sim_func/libs/mpsLibC/HashMap/verstable/verstable.h:1188-1228 | with a load factor of at most one and up to 1024 buckets no insert leaves a key out of its chain, and one is refused only because the load factor is reached |
| Verstable.AFullTableIsStuck | design/legacy/sim/sim_func/libs/mpsLibC/HashMap/verstable/verstable.h:1188-1228 | with a load factor of two it can: a concrete full table, below its load limit, in which an eviction for the key fails |
| KhashlSlots.NotPassed | design/legacy/sim/sim_func/libs/mpsLibC/HashMap/khashl/khashl.h:145-157 | a probe that reaches an unused slot shows that the key is absent |
| KhashlSlots.MovableMeansPassing | design/legacy/sim/sim_func/libs/mpsLibC/HashMap/khashl/khashl.h:246-247 | the cyclic test of the back-shift holds exactly for keys whose probe passes the vacated slot |
| KhashlSlots.MovedBack | design/legacy/sim/sim_func/libs/mpsLibC/HashMap/khashl/khashl.h:246-247 | moving such a key back moves the hole and keeps every other key reachable |
| KhashlSlots.DoneVacating | design/legacy/sim/sim_func/libs/mpsLibC/HashMap/khashl/khashl.h:242-251 | at an unused slot the hole may be freed |
| KhashlSlots.TakeUpKeeps | design/legacy/sim/sim_func/libs/mpsLibC/HashMap/khashl/khashl.h:180-198 | taking a key in hand keeps: moved keys are reachable in the new geometry, the rest wait |
| KhashlSlots.PutDownKeeps | design/legacy/sim/sim_func/libs/mpsLibC/HashMap/khashl/khashl.h:180-198 | so does putting it down, with or without kicking a key out |
| KhashlSlots.RehashEnds | design/legacy/sim/sim_func/libs/mpsLibC/HashMap/khashl/khashl.h:199-206 | when no old slot is left, the array is a sound table of the new size |
| Khashl.BitsFor | design/legacy/sim/sim_func/libs/mpsLibC/HashMap/khashl/khashl.h:165-168 | the least power of two, at least four, that covers the request |
| Khashl.RoundUp | design/legacy/sim/sim_func/libs/mpsLibC/HashMap/khashl/khashl.h:165-168 | the shifting loop computes that logarithm |
| Khashl.MaxCountMeans | design/legacy/sim/sim_func/libs/mpsLibC/HashMap/khashl/khashl.h:77 | the table may hold three quarters of its slots |
| Khashl.Table.Get | design/legacy/sim/sim_func/libs/mpsLibC/HashMap/khashl/khashl.h:145-157 | returns the key's slot, or the number of slots exactly if it is absent |
| Khashl.Table.KickOut | design/legacy/sim/sim_func/libs/mpsLibC/HashMap/khashl/khashl.h:185-197 | the kick-out loop terminates and places the key in hand and all it displaces |
| Khashl.Table.MoveAll | design/legacy/sim/sim_func/libs/mpsLibC/HashMap/khashl/khashl.h:180-198 | the whole in-place move keeps the keys, growing or shrinking |
| Khashl.Table.Resize | design/legacy/sim/sim_func/libs/mpsLibC/HashMap/khashl/khashl.h:162-207 | the table stays valid with its keys if and only if it is not a shrink with keys that fit, whose smaller array is refused; the return code of every case is exact |
| Khashl.RefusedShrink | design/legacy/sim/sim_func/libs/mpsLibC/HashMap/khashl/khashl.h:199-206 | a table of eight slots with one key, asked to shrink to four and refused: the key is gone |
| Khashl.Table.Put | design/legacy/sim/sim_func/libs/mpsLibC/HashMap/khashl/khashl.h:209-232 | adds the key or finds it, growing first if full; fails exactly on a refused allocation of a full table, and then keeps the keys |
| Khashl.Table.ShiftBack | design/legacy/sim/sim_func/libs/mpsLibC/HashMap/khashl/khashl.h:242-248 | moves the hole forward until no probe needs it |
| Khashl.Table.Del | design/legacy/sim/sim_func/libs/mpsLibC/HashMap/khashl/khashl.h:236-252 | removes exactly the key of the slot |
| Khashl.Table.Clear | design/legacy/sim/sim_func/libs/mpsLibC/HashMap/khashl/khashl.h:137-143 | removes all keys |
| RobinHoodSlots.Falls | design/legacy/sim/sim_func/libs/mpsLibC/HashMap/tidwall/hashmap.c:270-314 | the distance field falls by at most one per step, around the ring |
| RobinHoodSlots.Poorer | design/legacy/sim/sim_func/libs/mpsLibC/HashMap/tidwall/hashmap.c:270-314 | every bucket a key's probe passed is at least as far from its home as the key would be there |
| RobinHoodSlots.DistanceBound | design/legacy/sim/sim_func/libs/mpsLibC/HashMap/tidwall/hashmap.c:270-314 | no distance exceeds the number of keys, so that 16 bits hold it up to 65535 keys |
| RobinHoodSlots.StopsAtEmpty | design/legacy/sim/sim_func/libs/mpsLibC/HashMap/tidwall/hashmap.c:327-343 | an empty bucket before the key shows that it is absent |
| RobinHoodSlots.NewKeyHere | design/legacy/sim/sim_func/libs/mpsLibC/HashMap/tidwall/hashmap.c:270-314 | where an insertion would swap, the key in hand is new: a swap never passes an equal key |
| RobinHoodSlots.SwapHand | design/legacy/sim/sim_func/libs/mpsLibC/HashMap/tidwall/hashmap.c:305-311 | swapping keeps the order and the keys |
| RobinHoodSlots.ShiftIntoHole | design/legacy/sim/sim_func/libs/mpsLibC/HashMap/tidwall/hashmap.c:382-396 | shifting the next bucket into the hole keeps the order and the keys |
| RobinHood.Reinsert | design/legacy/sim/sim_func/libs/mpsLibC/HashMap/tidwall/hashmap.c:236-254 | the reinsertion loop adds one key to the new buckets |
| RobinHood.PutOrReplace | design/legacy/sim/sim_func/libs/mpsLibC/HashMap/tidwall/hashmap.c:286-313 | the set loop adds the pair or replaces the value, and returns the old one |
| RobinHood.Find | design/legacy/sim/sim_func/libs/mpsLibC/HashMap/tidwall/hashmap.c:327-343 | the probe finds a key exactly if it is there |
| RobinHood.ShiftBack | design/legacy/sim/sim_func/libs/mpsLibC/HashMap/tidwall/hashmap.c:382-396 | removes exactly the key of the bucket |
| RobinHood.RoundUpCapacity | design/legacy/sim/sim_func/libs/mpsLibC/HashMap/tidwall/hashmap.c:115-123 | the least power of two, at least sixteen, that covers the request |
| RobinHood.Map.constructor | design/legacy/sim/sim_func/libs/mpsLibC/HashMap/tidwall/hashmap.c:104-162 | a new map is empty, grows above 60 percent and shrinks below 10 |
| RobinHood.Map.SetGrowByPower | design/legacy/sim/sim_func/libs/mpsLibC/HashMap/tidwall/hashmap.c:63-65 | clamps the power to 1 to 16 and leaves the contents |
| RobinHood.Map.SetLoadFactor | design/legacy/sim/sim_func/libs/mpsLibC/HashMap/tidwall/hashmap.c:67-79 | clamps the factor to 50 to 95 percent and leaves the contents |
| RobinHood.Map.Resize | design/legacy/sim/sim_func/libs/mpsLibC/HashMap/tidwall/hashmap.c:226-261 | keeps the contents in both directions; on a failed allocation nothing changes |
| RobinHood.Map.Set | design/legacy/sim/sim_func/libs/mpsLibC/HashMap/tidwall/hashmap.c:270-314 | is a map update returning the value replaced; the table grows exactly when the count has reached its limit; on a failed growth the contents are unchanged |
| RobinHood.Map.Get | design/legacy/sim/sim_func/libs/mpsLibC/HashMap/tidwall/hashmap.c:327-343 | is a map lookup |
| RobinHood.Map.Delete | design/legacy/sim/sim_func/libs/mpsLibC/HashMap/tidwall/hashmap.c:366-405 | is a map removal returning the value, also when the shrink fails; a smaller array is taken exactly at ten percent load above the initial capacity |
| SplitOrder.ReverseValue | design/legacy/sim/sim_func/libs/mpsLibC/HashMap/LockFreeHashTable/Lock-free-hashtable.c:41-50 | the loop reverses the 32 bits of a word |
| SplitOrder.ReverseSplit | design/legacy/sim/sim_func/libs/mpsLibC/HashMap/LockFreeHashTable/Lock-free-hashtable.c:41-50 | low bits become high bits under reversal |
| SplitOrder.CodeParity | design/legacy/sim/sim_func/libs/mpsLibC/HashMap/LockFreeHashTable/Lock-free-hashtable.c:59-81 | regular codes are odd and dummy codes even |
| SplitOrder.RegularAfterDummy | design/legacy/sim/sim_func/libs/mpsLibC/HashMap/LockFreeHashTable/Lock-free-hashtable.c:59-69 | a key sorts after the dummy of its hash modulo the size, for every power-of-two size |
| SplitOrder.ParentBefore | design/legacy/sim/sim_func/libs/mpsLibC/HashMap/LockFreeHashTable/Lock-free-hashtable.c:441-450 | a bucket's parent has a smaller number and its dummy sorts earlier, so that initialisation ends |
| SplitOrder.GetParent | design/legacy/sim/sim_func/libs/mpsLibC/HashMap/LockFreeHashTable/Lock-free-hashtable.c:441-450 | the loop clears the highest set bit |
| SplitOrderedTable.ListFind | design/legacy/sim/sim_func/libs/mpsLibC/HashMap/LockFreeHashTable/Lock-free-hashtable.c:208-247 | stops at the first node that is the one looked for or sorts after it |
| SplitOrderedTable.ListInsert | design/legacy/sim/sim_func/libs/mpsLibC/HashMap/LockFreeHashTable/Lock-free-hashtable.c:361-380 | adds the node in order, or finds the one already there |
| SplitOrderedTable.Unsplice | design/legacy/sim/sim_func/libs/mpsLibC/HashMap/LockFreeHashTable/Lock-free-hashtable.c:394-418 | takes exactly that node out of the list |
| SplitOrderedTable.HashTable.constructor | design/legacy/sim/sim_func/libs/mpsLibC/HashMap/LockFreeHashTable/Lock-free-hashtable.c:770-781 | a new table is empty, with 16 buckets |
| SplitOrderedTable.HashTable.InitializeBucket | design/legacy/sim/sim_func/libs/mpsLibC/HashMap/LockFreeHashTable/Lock-free-hashtable.c:462-486 | recursion through the parents ends with a dummy in place, and the contents unchanged |
| SplitOrderedTable.HashTable.Find | design/legacy/sim/sim_func/libs/mpsLibC/HashMap/LockFreeHashTable/Lock-free-hashtable.c:561-589 | is a map lookup, whichever buckets are initialised |
| SplitOrderedTable.HashTable.FindSignalSafe | design/legacy/sim/sim_func/libs/mpsLibC/HashMap/LockFreeHashTable/Lock-free-hashtable.c:606-634 | the same without initialising a bucket |
| SplitOrderedTable.HashTable.Insert | design/legacy/sim/sim_func/libs/mpsLibC/HashMap/LockFreeHashTable/Lock-free-hashtable.c:520-547 | adds an absent key, keeps a present one's value, and doubles exactly above three quarters load |
| SplitOrderedTable.HashTable.ResizeTable | design/legacy/sim/sim_func/libs/mpsLibC/HashMap/LockFreeHashTable/Lock-free-hashtable.c:497-509 | doubling keeps the map and every bucket start |
| SplitOrderedTable.HashTable.Delete | design/legacy/sim/sim_func/libs/mpsLibC/HashMap/LockFreeHashTable/Lock-free-hashtable.c:648-683 | is a map removal returning the value |
| SynthBits.AddIsAddition | design/EverythingEverywhereAllAtOnce/scripts/RTL_Generation/test/counter/synthGen.py:757-761 | the adder cell adds modulo a power of two |
| SynthBits.SubIsSubtraction | design/EverythingEverywhereAllAtOnce/scripts/RTL_Generation/test/counter/synthGen.py:763-767 | the subtractor cell subtracts modulo a power of two |
| SynthBits.LessIsLess | design/EverythingEverywhereAllAtOnce/scripts/RTL_Generation/test/counter/synthGen.py:796-802 | the comparator cell compares as numbers |
| SynthLowering.LoweringIsCorrect | design/EverythingEverywhereAllAtOnce/scripts/RTL_Generation/test/counter/synthGen.py:644-828 | for every well-widthed expression the result wire carries its value under the width rules of section 11.6 of IEEE 1800-2017 |
| SynthModule.LoweringIsOrdered | design/EverythingEverywhereAllAtOnce/scripts/RTL_Generation/test/counter/synthGen.py:644-828 | lowering reads only signals and wires driven earlier, and drives every wire once |
| SynthModule.EvaluateSatisfies | design/EverythingEverywhereAllAtOnce/scripts/RTL_Generation/test/counter/synthGen.py:644-828 | evaluating such a netlist in order satisfies its equations |
| SynthModule.RhsMeans | design/EverythingEverywhereAllAtOnce/scripts/RTL_Generation/test/counter/synthGen.py:898-920 | the right-hand side found for the register is its value after the arm's assignments, hold included |
| SynthModule.FindRhs | design/EverythingEverywhereAllAtOnce/scripts/RTL_Generation/test/counter/synthGen.py:898-920 | the search loop finds the last assignment to the register, or the register itself |
| SynthRuns.ArmsSelect | design/EverythingEverywhereAllAtOnce/scripts/RTL_Generation/test/counter/synthGen.py:941-975 | the mux chain selects the right-hand side of the first arm whose condition holds, else the default |
| SynthRuns.ChainIsCorrect | design/EverythingEverywhereAllAtOnce/scripts/RTL_Generation/test/counter/synthGen.py:941-988 | the register's data input is what the if-chain selects |
| SynthRuns.FlattenKeeps | design/EverythingEverywhereAllAtOnce/scripts/RTL_Generation/test/counter/synthGen.py:875-922 | flattening an if-chain keeps the next value of its register |
| SynthRuns.NetlistSettles | design/EverythingEverywhereAllAtOnce/scripts/RTL_Generation/test/counter/synthGen.py:832-838 | every state of the signals in which the assignments hold extends to the whole netlist |
| SynthRuns.StepsAgree | design/EverythingEverywhereAllAtOnce/scripts/RTL_Generation/test/counter/synthGen.py:830-991 | whichever clocks have an edge, the source takes a step exactly when the netlist can; registers of other clocks keep their value |
| SynthRuns.RunsAgree | design/EverythingEverywhereAllAtOnce/scripts/RTL_Generation/test/counter/synthGen.py:830-991 | over any number of steps, with any clock edges, the runs of the netlist are exactly the runs of assignments and chains |
| SynthRuns.ModuleRunsAgree | design/EverythingEverywhereAllAtOnce/scripts/RTL_Generation/test/counter/synthGen.py:830-991 | the same for the module as written, with its if-chains |
| SynthRuns.RegistersOfModule | design/EverythingEverywhereAllAtOnce/scripts/RTL_Generation/test/counter/synthGen.py:975-988 | the registers of the netlist are one for each block, in order, on its clock and with its signal and width |
| SynthMeaning.SumOperators | design/EverythingEverywhereAllAtOnce/scripts/RTL_Generation/test/counter/synthGen.py:757-767 | plus and minus are sum and difference modulo a power of two |
| SynthMeaning.BitOperators | design/EverythingEverywhereAllAtOnce/scripts/RTL_Generation/test/counter/synthGen.py:770-784 | the bitwise operators, position by position |
| SynthMeaning.ComplementOperators | design/EverythingEverywhereAllAtOnce/scripts/RTL_Generation/test/counter/synthGen.py:689-734 | the complement flips every bit, and minus is the difference from zero modulo a power of two |
| SynthMeaning.TruthOperators | design/EverythingEverywhereAllAtOnce/scripts/RTL_Generation/test/counter/synthGen.py:786-828 | comparisons compare numbers, logical operators test for zero, and the result is one bit |
| SynthMeaning.Reductions | design/EverythingEverywhereAllAtOnce/scripts/RTL_Generation/test/counter/synthGen.py:689-726 | reductions: all bits, some bit, an odd number of bits, each perhaps inverted |
| SynthTool.Synthesiser.LowerExpr | design/EverythingEverywhereAllAtOnce/scripts/RTL_Generation/test/counter/synthGen.py:644-828 | the recursive method appends exactly the specified entries with consecutive numbers |
| SynthTool.Synthesiser.LowerFFChain | design/EverythingEverywhereAllAtOnce/scripts/RTL_Generation/test/counter/synthGen.py:941-988 | likewise for muxes and register |
| SynthTool.Synthesiser.LowerContinuous | design/EverythingEverywhereAllAtOnce/scripts/RTL_Generation/test/counter/synthGen.py:830-838 | likewise for a continuous assignment and its alias |
| SynthTool.FindTargets | design/EverythingEverywhereAllAtOnce/scripts/RTL_Generation/test/counter/synthGen.py:879-893 | finds the one register of every block, and fails exactly if some block drives none or several |
| SynthTool.FlattenBlock | design/EverythingEverywhereAllAtOnce/scripts/RTL_Generation/test/counter/synthGen.py:896-922 | builds the mux chain of a block, on the block's clock |
| SynthTool.Synthesiser.Translate | design/EverythingEverywhereAllAtOnce/scripts/RTL_Generation/test/counter/synthGen.py:830-991 | the whole translation yields the specified netlist, with one register for each block in order, on its clock and with its signal and width, or an error exactly for a block without a single register |
| SynthExamples.AgreeUnlessCarry | design/EverythingEverywhereAllAtOnce/scripts/RTL_Generation/test/counter/synthGen.py:748-761 | the width condition is needed: for x + c compared with d under each of six comparisons, netlist and language agree exactly if losing the carry out of x does not change the comparison, given as a range of sums |
| SynthExamples.CounterRunsAgree | design/EverythingEverywhereAllAtOnce/scripts/RTL_Generation/test/counter/counter.sv:1-38 | the shipped counter module is within the condition, and its netlist runs as its source |
| X86Memory.FirstEntryDecides | design/EverythingEverywhereAllAtOnce/scripts/sim/memory.py:63-78 | the first valid TLB entry for the page decides |
| X86Memory.TranslationMeans | design/EverythingEverywhereAllAtOnce/scripts/sim/memory.py:63-78 | the address is 4096 times the frame number and the offset in the page, or the fault for a page that is absent or beyond memory |
| X86Memory.StoreThenLoad | design/EverythingEverywhereAllAtOnce/scripts/sim/memory.py:83-118 | a value stored is loaded again, cut to its width |
| X86Memory.StoreKeepsOthers | design/EverythingEverywhereAllAtOnce/scripts/sim/memory.py:101-118 | a store leaves all other bytes |
| X86Memory.DigitOfBytes | design/EverythingEverywhereAllAtOnce/scripts/sim/memory.py:117 | the bytes of a value are its digits to base 256, least significant first |
| X86Memory.DigitOfValue | design/EverythingEverywhereAllAtOnce/scripts/sim/memory.py:98 | byte k of a value read has the weight of the k-th power of 256 |
| X86Memory.Memory.constructor | design/EverythingEverywhereAllAtOnce/scripts/sim/memory.py:34-41 | the image is cut off or filled with zeros to the memory size |
| X86Memory.Memory.TranslateAddress | design/EverythingEverywhereAllAtOnce/scripts/sim/memory.py:63-78 | the loop finds the address of the first valid entry, or the fault |
| X86Memory.Memory.Read | design/EverythingEverywhereAllAtOnce/scripts/sim/memory.py:83-99 | beyond the limit exactly above the segment's limit; otherwise translation, bounds, and the value whose byte at position k is the k-th digit to base 256 |
| X86Memory.Memory.Write | design/EverythingEverywhereAllAtOnce/scripts/sim/memory.py:101-118 | likewise: byte k is the k-th digit of the value and all other bytes stay; on a fault memory is unchanged |
| X86Memory.Memory.FetchBytes | design/EverythingEverywhereAllAtOnce/scripts/sim/memory.py:123-141 | the bytes up to the first address that does not translate, and the fault of that translation; only the first is checked against the limit |
| X86Flags.SubFlagsOrder | design/EverythingEverywhereAllAtOnce/scripts/sim/flags.py:72-99 | after a subtraction with borrow CF, ZF, SF and OF order the operands unsigned and signed, PF counts the ones of the low byte, and AF is the borrow of the low digit |
| X86Flags.AddFlagsMean | design/EverythingEverywhereAllAtOnce/scripts/sim/flags.py:29-55 | after an addition with carry CF and OF tell unsigned and signed overflow, ZF a result of zero, SF its sign, PF the parity of its low byte, AF the carry of the low digits |
| X86Flags.ParityMeans | design/EverythingEverywhereAllAtOnce/scripts/sim/flags.py:50-52 | the parity flag says that an even number of the low eight bits are one |
| X86Flags.AuxiliaryCarry | design/EverythingEverywhereAllAtOnce/scripts/sim/flags.py:54-55 | AF is the carry out of bit 3 exactly unless a carry comes in and the low digits sum to 15 |
| X86Flags.FlagRegister.UpdateSub | design/EverythingEverywhereAllAtOnce/scripts/sim/flags.py:72-99 | sets all flags as specified and keeps DF |
| X86Flags.FlagRegister.UpdateAdd | design/EverythingEverywhereAllAtOnce/scripts/sim/flags.py:29-55 | sets all flags as specified and keeps DF |
| RepStrings.RollbackReturns | design/EverythingEverywhereAllAtOnce/scripts/sim/execute.py:224-230 | rolling back puts EIP on the instruction again |
| RepStrings.OffsetMeans | design/EverythingEverywhereAllAtOnce/scripts/sim/execute.py:204-222 | after k elements an offset is the base plus or minus k times the size, by the direction flag, modulo 2^32 |
| RepStrings.MoveCopies | design/EverythingEverywhereAllAtOnce/scripts/sim/execute.py:204-222 | one move copies the bytes at DS:ESI to ES:EDI and leaves the others |
| RepStrings.MovesCopy | design/EverythingEverywhereAllAtOnce/scripts/sim/execute.py:236-297 | after k moves that do not write to places of later elements every target holds what its source held at the start, the other bytes are unchanged, and ESI and EDI are k elements on |
| RepStrings.RepMovsFollows | design/EverythingEverywhereAllAtOnce/scripts/sim/execute.py:236-297 | after 2k cycles k moves are done and the count is n - k; after 2k + 1 the count is one lower |
| RepStrings.RepMovsIsLoop | design/EverythingEverywhereAllAtOnce/scripts/sim/execute.py:236-297 | REP MOVS with count n takes exactly 2n cycles, equals n single MOVS, leaves ECX 0, and EIP stays until the last |
| RepStrings.RepMovsCopies | design/EverythingEverywhereAllAtOnce/scripts/sim/execute.py:236-297 | after 2n cycles of such a REP MOVS the n elements are copied, ECX is 0 and EIP is past the instruction |
| RepStrings.RepMovsFaults | design/EverythingEverywhereAllAtOnce/scripts/sim/execute.py:236-297 | a fault in move k leaves k elements moved and ECX at n - k - 1, one below the count of elements left |
| RepStrings.CountGoneBeforeTheMove | design/EverythingEverywhereAllAtOnce/scripts/sim/execute.py:236-297 | a REP MOVS of two bytes whose second move faults with a count of zero |
| RepStrings.RepOfNothing | design/EverythingEverywhereAllAtOnce/scripts/sim/execute.py:252-261 | a count of zero changes nothing but EIP |
| RepStrings.FlagsCompare | design/EverythingEverywhereAllAtOnce/scripts/sim/execute.py:299-322 | the flags of a comparison order the two memory elements |
| RepStrings.ComparesStride | design/EverythingEverywhereAllAtOnce/scripts/sim/execute.py:299-322 | k single CMPS stride over k elements and leave the flags of the last |
| RepStrings.RepeCmpsIsLoop | design/EverythingEverywhereAllAtOnce/scripts/sim/execute.py:324-396 | REPE CMPS takes exactly 4(m + 1) cycles up to the first mismatch m or the last element, with ECX n - m - 1, flags and offsets of m + 1 single CMPS, and EIP held |
| RepStrings.RepeCmpsFaults | design/EverythingEverywhereAllAtOnce/scripts/sim/execute.py:324-396 | a fault on element k leaves ECX at n - k |
| X86Cpu.Cpu.ExecMovs | design/EverythingEverywhereAllAtOnce/scripts/sim/execute.py:204-222 | the handler is one element moved, or the fault with nothing changed |
| X86Cpu.Cpu.ExecCmps | design/EverythingEverywhereAllAtOnce/scripts/sim/execute.py:299-322 | the handler is one element compared, or the fault with nothing changed |
| X86Cpu.Cpu.ExecRepMovs | design/EverythingEverywhereAllAtOnce/scripts/sim/execute.py:236-297 | the handler is one micro-operation of the specified machine |
| X86Cpu.Cpu.ExecRepeCmps | design/EverythingEverywhereAllAtOnce/scripts/sim/execute.py:324-396 | the handler is one micro-operation of the specified machine |
| X86Cpu.Cpu.RollbackEipTo | design/EverythingEverywhereAllAtOnce/scripts/sim/execute.py:224-230 | puts EIP back and says so |
| X86Cpu.Cpu.RunCycle | design/EverythingEverywhereAllAtOnce/scripts/sim/sim.py:113-137 | a turn of the main loop is a cycle of the specified machine, or ends with the fault |
| X86Cpu.Cpu.RunCycles | design/EverythingEverywhereAllAtOnce/scripts/sim/sim.py:84-150 | so are n turns on the same instruction |
| MemoryImage.SparseImage.SparseWrite | design/EverythingEverywhereAllAtOnce/scripts/StartUp_Gen/Mem/compile.py:89-100 | at every address: the byte written, what was there, or the zero of a new page |
| MemoryImage.SparseImage.WriteSections | design/EverythingEverywhereAllAtOnce/scripts/StartUp_Gen/Mem/compile.py:434-442 | any sequence of sections leaves what its writes say |
| MemoryImage.LastWriteWins | design/EverythingEverywhereAllAtOnce/scripts/StartUp_Gen/Mem/compile.py:89-100 | the last section covering an address decides its byte |
| MemoryImage.SparseImage.ApplyVmMappings | design/EverythingEverywhereAllAtOnce/scripts/StartUp_Gen/Mem/compile.py:461-519 | fails exactly if a frame is out of range; each frame holds the page of its last assembled mapping, or the background |
| MemoryImage.WrittenIsFetched | design/EverythingEverywhereAllAtOnce/scripts/StartUp_Gen/Mem/compile.py:461-519 | a byte written to a mapped page is read at its linear address through a TLB that follows the mappings |
| MemoryImage.SectionsAreFetched | design/EverythingEverywhereAllAtOnce/scripts/sim/memory.py:123-141 | a fetch over such bytes returns just what the sections hold |
| BankTables.BuildBankTables | design/EverythingEverywhereAllAtOnce/scripts/StartUp_Gen/Mem/genHexMem.py:67-111 | fails exactly on indivisible shapes; otherwise line by line and cell by cell the image |
| BankTables.SpotOfAddress | design/EverythingEverywhereAllAtOnce/scripts/StartUp_Gen/Mem/genHexMem.py:67-111 | from bank, cell, line and byte to an address and back |
| BankTables.AddressOfSpot | design/EverythingEverywhereAllAtOnce/scripts/StartUp_Gen/Mem/genHexMem.py:67-111 | from an address to its spot and back |
| BankTables.ImageIsInBanks | design/EverythingEverywhereAllAtOnce/scripts/StartUp_Gen/Mem/genHexMem.py:67-111 | every byte of the image is at the spot of its address |
| BankTables.CellHolds | design/EverythingEverywhereAllAtOnce/scripts/StartUp_Gen/Mem/genHexMem.py:67-111 | the byte of a bank, cell, line and position is that of the image at the address computed from them |
| BankTables.WriteCellHex | design/EverythingEverywhereAllAtOnce/scripts/StartUp_Gen/Mem/genHexMem.py:116-136 | byte k of a word is digit k to base 256 of the number written; only widths 1, 2, 4 and 8 |
| RomCompiler.LastMatch | design/EverythingEverywhereAllAtOnce/scripts/RTL_Generation/genCombinational_ROM_Harish.py:92-133 | the last row covering the vector, or none |
| RomCompiler.ExpandRows | design/EverythingEverywhereAllAtOnce/scripts/RTL_Generation/genCombinational_ROM_Harish.py:92-133 | every address holds the outputs of the last row covering its vector, and nothing without one |
| RomCompiler.BankAndWord | design/EverythingEverywhereAllAtOnce/scripts/RTL_Generation/genCombinational_ROM_Harish.py:139-145 | the upper input bits number the bank and the lower five the word |
| RomCompiler.EnableDecodes | design/EverythingEverywhereAllAtOnce/scripts/RTL_Generation/genCombinational_ROM_Harish.py:286-326 | a bank's gate is on exactly when the upper bits are its number |
| RomCompiler.EmitOeLogic | design/EverythingEverywhereAllAtOnce/scripts/RTL_Generation/genCombinational_ROM_Harish.py:286-326 | the decoder is made of those gates, and fails exactly when they need more than twelve inputs |
| RomCompiler.BuildRomContents | design/EverythingEverywhereAllAtOnce/scripts/RTL_Generation/genCombinational_ROM_Harish.py:151-173 | every word of every slice holds its bits of the table entry |
| RomCompiler.SliceBit | design/EverythingEverywhereAllAtOnce/scripts/RTL_Generation/genCombinational_ROM_Harish.py:168-171 | a bit of a slice is the bit of the whole, at the slice's offset |
| RomCompiler.TapReads | design/EverythingEverywhereAllAtOnce/scripts/RTL_Generation/genCombinational_ROM_Harish.py:358-377 | each port taps its own bit of the entry |
| RomCompiler.OneDriver | design/EverythingEverywhereAllAtOnce/scripts/RTL_Generation/genCombinational_ROM_Harish.py:332-343 | for every input vector exactly one bank drives the shared slice wires |
| RomCompiler.Generate | design/EverythingEverywhereAllAtOnce/scripts/RTL_Generation/genCombinational_ROM_Harish.py:383-445 | for 1 to 17 inputs and any number of outputs each port shows the last matching row, 0 without one; other inputs are refused |

## Left out

- Text input and output: CSV, Verilog, JSON, hex and log files, command lines, the parsers of `synthGen.py`, and the
  assembler, linker and disassembler. Tables, modules, netlists and decoded instructions are values here, and
  names are assumed distinct.
- CombCompiler.Compile: bracket characters in signal names are not cleaned, so that clashes after cleaning are
  not modelled.
- QuineMcCluskey.QmMinimise: the order in which Python lists a set is left open; the results hold for any order.
- FsmCompiler.Enumerate: the codes of the states between IDLE and ERROR are any distinct ones, not those of sorted
  names; nothing depends on the order.
- FsmCompiler.Compile: the checks of headers and cell characters, and the rejection of an empty table, are not
  part of this model. Rows that a table gives for ERROR itself are replaced by the trap, as in the code.
- SopNetlist.EmitSop: a one-input cell, which the library does not have, is taken to pass its input on.
- Lc3bRuns.PipelineRunsProgram: runs in which a fetch comes before a pending store to its word are excluded. What
  the pipeline computes after a stale fetch is not described further.
- Lc3bPipeline.CycleRefines: memory is indexed with the low 16 bits of a latched address. The address unit delivers
  no more, so this differs from the C code only in states that start with a wider one.
- Lc3bSimulator.Simulator.RunFor: loading programs and microcode, dumps and the command loop are not modelled; the
  microcode is a table of constants.
- Lc3bIsa.InstructionMeans: RTI does nothing, as in the microcode; there are no exceptions and no supervisor mode.
- The second copy of the pipeline in `maanav_lc3` is not part of this model.
- ThreadPool.StepInv: the user's job is one step, semaphore errors do not happen, and a job handed over after
  shutdown may stay in the ring, as in the code. Timed push and pop are not modelled. Processor memory order is
  not modelled: steps are atomic and interleave.
- Verstable.Table.InsertRaw: a metadatum is a record instead of packed bits; destructors, contexts, `clone`,
  `reserve`, `shrink`, `clear` and `cleanup` are not modelled. Hash functions are parameters, and an allocation
  succeeds up to the size `memory`, which also bounds the doubling of a rehash.
- Verstable.Table.Insert: for a load factor above one, or more than 1024 buckets, it is not said which sizes refuse a
  key, because that depends on the hash values.
- Khashl.Table.Resize: the bitmap of used slots is an array of Booleans; the map and ensemble wrappers are not
  modelled; slot numbers stay below 2^32 by the bound on the request. A grown array has any values in its new
  slots.
- RobinHood.Map.Resize: the old bucket serves as scratch space in the code and is copied here; the distance field
  is a natural number, bounded by `DistanceBound`. A `NULL` comparison function, `clear`, `scan` and `iter` are
  not modelled; load factors are percentages.
- SplitOrderedTable.HashTable.Delete: sequential runs only. Marked links, hazard pointers, `foreach`, `lock_value`
  and the clearing of the deleted node's value are not modelled; the load test is on integers, and the table
  stays below 2^31 buckets.
- SynthLowering.LoweringIsCorrect: constant evaluation of parameters is done before; operators the tool rejects
  are not part of the expression type. The condition `WellWidthed` is sufficient; which values of the operands
  go wrong outside it is stated for comparisons of a sum with a constant only.
- SynthRuns.ModuleRunsAgree: clocks are named edges and not signals; reset ports, wire declarations and the emitted text are not modelled.
- X86Memory.Memory.Read: the accesses of the stack, which skip the limit, are not modelled; an access across a
  page translates only its first byte, as in the code.
- X86Flags.FlagRegister.UpdateSub: the flags are named Booleans instead of bits of one register; logical and
  shift updates are not modelled.
- RepStrings.RepMovsCopies: moves whose targets overlap later elements are not described beyond the single moves.
- RepStrings.RepMovsIsLoop: the instruction is given for each cycle; a string move that overwrites its own
  instruction is not modelled.
- MemoryImage.SparseImage.SparseWrite: page bases are rounded down by division, which is the source's mask for page
  sizes that are powers of two; the random background fill is a parameter.
- BankTables.BuildBankTables: padding of the image to the memory size happens before.
- RomCompiler.Generate: the ROM cell and its tri-state output are modelled as the value driven by the one enabled
  bank; inverters are part of the literals.
- The other generators (`genCombinational_ROM.py`, `genFSM_LUT.py`), the legacy `icache.c`, the remaining x86
  instructions, and the smaller containers of the C library are easy or unfinished.
