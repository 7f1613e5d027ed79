# Verification of the compiler back end and its flow-based passes

The project models the part of the PTX-to-AEC compiler whose correctness is a theorem about runs, and proves it on
two machines.

* **The AEC machine** (`Machine`, `InstructionMeaning`, `Simulator`, `LaneGeometry`, `BranchTraces`): lanes with 256
  registers and 8 predicates, a shared global memory and a parameter memory, executed in lockstep as the simulator does,
  every exception included, with the branch trace and its counters.
* **The PTX machine** (`Ptx`, `Cfg`): labels and instructions over virtual registers, with a trace of loads, stores,
  branches and predicate writes.

On these stand the passes, each as the source writes it (loops, worklists, in-place updates) and each proved against
a definition that does not mention its data structures.

* **List scheduling** (`ScheduleGraph`, `ScheduleOrder`, `Scheduler`, `ScheduleConflicts`, `ScheduleMeaning`,
  `ScheduleProgram`, `ScheduleExact`, `ScheduleHazard`): the loop never stalls and returns the unique order in which the
  next instruction goes first by kind and position; every tracked conflict keeps its order, load-before-store by
  priority alone; runs, launches and branch traces are preserved when guards are stable and no pair is written.
* **Register allocation** (`Liveness`, `LoopRanges`, `LinearScan`, `LinearScanFacts`, `LinearScanOrder`,
  `AllocationMeaning`, `RegisterAllocation`, `AllocationPtx`, `LoopNests`, `FallbackAllocator`): intervals, loop
  extension, the scan, its pressure bound and its choice of registers, and a simulation across back edges for any number
  of iterations.
* **Optimiser passes**: constant propagation (`Dataflow`, `ConstantPropagation`, `PropagationOrder`,
  `PropagationMeaning`, `UnseenWrites`), dead code (`Dce`) and common subexpressions (`LocalCse*`) preserve every run of
  a program with loops, and do all they promise: what is known and folded (`FoldingComplete`), kept (`DceExact`) and
  removed (`LocalCseComplete`) is stated exactly.
* **Analyses**: dominators and natural loops equal their path definitions (`Graphs`); uniformity is exact in its
  operands and sound for two lanes of a warp (`Uniformity`, `UniformityExact`, `UniformityMeaning`).
* **Lowering**: the code of 32-bit instructions, loads and stores simulates PTX lane by lane and, for the threads of a
  warp in lockstep over one memory, instruction by instruction (`Lowering`, `Lockstep`); an if-converted region equals
  branching (`IfConversion`, `ControlPlan`, `ConvertedRegions`); the 128-bit encoding has the bits of the instruction
  format (`WireFormat`), and it and its decoding invert each other exactly on canonical instructions and tidy words
  (`Encoding`).
* **Programs on which a pass fails**: `ScheduleHazard`, `PropagationHazard`, `AllocationHazard`, `LinearScanHazard`,
  `LocalCseHazard`, `ControlHazard`.

Single-precision arithmetic, conversions and PTX comparisons are fields of a parameter (`Fpu`, `Unit`), so every
theorem holds for any meaning of them. Registers, labels and opcodes are datatypes instead of strings. An exception or
error return is an outcome (`None`, `Error`, `Stuck`), never a precondition.

## Where the code promises less than its comments

The code is modelled as it is. Where a promise fails, a lemma gives a program and another gives the condition.

* The scheduler does not track guards or second halves of pairs as reads and writes
  (`src/aec_compiler/passes/scheduler.py:143-148`): `ScheduleHazard.GuardHazardChangesMeaning` and
  `ScheduleHazard.PairHazardChangesMeaning`; which pairs keep their order is exact in `ScheduleExact.PairOrderExact`.
* Constant propagation lets facts enter an entry block that is a loop header
  (`src/aec_compiler/passes/global_cp.py:84-96`): `PropagationHazard.EntryLoopChangesMeaning`. A test on the program
  decides it: the facts are true in every run if and only if the test passes (`PropagationMeaning.FactsTrueExactly`),
  and then every run is preserved.
* Guarded, carry and fused writes are not seen by its dataflow phase (`src/aec_compiler/passes/_helpers.py:18-43`):
  `PropagationHazard.FusedWriteChangesMeaning`; such a write keeps the facts true if and only if none is known for its
  register (`UnseenWrites.UnseenExactly`), or, for a guarded move, if it moves the known value
  (`UnseenWrites.GuardedMoveExactly`).
* The pair fallback of the scan puts a register that is in use on the free list, and the next job gets it
  (`src/aec_compiler/passes/register_allocation.py:132-143`): `LinearScanHazard.CrowdMeetsHazard`; exact per job in
  `LinearScanFacts.AssignPartitionedExactly` and per scan in `LinearScanFacts.ScanPartitionedExactly`.
* Liveness drops operands of a third or later definition of the same register
  (`src/aec_compiler/analysis/liveness.py:99-105`): exact in `Liveness.RecordedExactly`. The merged interval does not
  depend on them, the loop extension does: `AllocationHazard.UncoveredLoopChangesMeaning`; the extended intervals
  protect the loops if and only if the loops are covered (`RegisterAllocation.ExtendedProtects`).
* Common-subexpression elimination records an expression that mentions its own destination, and removes a destination
  that its scope reads before writing it (`src/aec_compiler/passes/local_scalar.py:240-257`):
  `LocalCseHazard.SelfReadChangesMeaning` and `LocalCseHazard.ExposedChangesMeaning`; exact in
  `LocalCseExact.ExpressionHoldsExactly` and `LocalCseExact.IgnoresExactly`.
* `%warpid` is classified as uniform, but is computed from the x coordinate alone
  (`src/aec_compiler/sim.py:333-334`): exact in `Uniformity.WarpIdUniformExactly`.
* A converted region must neither write its guard nor hold guards of its own
  (`src/aec_compiler/legacy_lowering.py:468-476`): `ControlHazard.GuardWriteDiffers` and
  `ControlHazard.OwnGuardDiffers`, on PTX programs that the planner converts; exact per instruction in
  `IfConversion.ActsUnderGuardExactly` and `IfConversion.KeepsGuardExactly`.

## Model

| member | source | states |
|---|---|---|
| `Commute.EffectDependsOnReads` | src/aec_compiler/sim.py:219-299 | what a lane does depends only on the registers, predicates and memory the instruction really reads, guard and second halves of pairs included |
| `Commute.EffectWithinWrites` | src/aec_compiler/sim.py:225-299 | a lane changes only the registers, predicates and memory the instruction really writes |
| `Commute.StepsCommute` | src/aec_compiler/sim.py:188-191 | two instructions without a real conflict can run in either order on a whole warp, exceptions included |
| `Commute.WarpCommutes` | src/aec_compiler/sim.py:188-191 | the warp machine commutes every pair of unconflicting instructions |
| `ScheduleGraph.GreedyFacts` | src/aec_compiler/passes/scheduler.py:109-120 | every instruction is emitted once, and after all instructions it has edges from |
| `ScheduleGraph.GreedyLength` | src/aec_compiler/passes/scheduler.py:122-123 | a complete greedy order is a permutation of the block |
| `ScheduleGraph.GreedyUnique` | src/aec_compiler/passes/scheduler.py:99-115 | the priorities determine the order: at most one greedy order per block |
| `ScheduleGraph.GreedyExists` | src/aec_compiler/passes/scheduler.py:110-120 | from every prefix the ready list can be driven to the end |
| `ScheduleConflicts.WriteReadKept` | src/aec_compiler/passes/scheduler.py:54-63 | every write-read pair keeps its order, though only the closest definition has an edge |
| `ScheduleConflicts.WriteWriteKept` | src/aec_compiler/passes/scheduler.py:74-80 | every write-write pair keeps its order, though only consecutive writes have an edge |
| `ScheduleConflicts.ReadWriteKept` | src/aec_compiler/passes/scheduler.py:65-72 | every read-write pair keeps its order, though only reads since the last write have an edge |
| `ScheduleConflicts.LateKindKept` | src/aec_compiler/passes/scheduler.py:97-115 | a store, and the control instruction that ends the block, comes after every earlier instruction, although no edge says so |
| `ScheduleConflicts.StoreLoadKept` | src/aec_compiler/passes/scheduler.py:86-91 | every store-load pair keeps its order, though only the last store has an edge |
| `ScheduleConflicts.GuaranteedKept` | src/aec_compiler/passes/scheduler.py:46-115 | all tracked conflicts of a block keep their order |
| `Scheduler.SourceRegs` | src/aec_compiler/passes/scheduler.py:143-148 | the source registers, in 0..255 and without repetition |
| `Scheduler.CollectDefs` | src/aec_compiler/passes/scheduler.py:30-33 | the positions of all definitions of each register |
| `Scheduler.ClosestDef` | src/aec_compiler/passes/scheduler.py:56-60 | the last definition before the use, or none |
| `Scheduler.LinkEdges` | src/aec_compiler/passes/scheduler.py:50-95 | one instruction adds exactly its incoming edges, and its counter is their number |
| `Scheduler.Track` | src/aec_compiler/passes/scheduler.py:72-91 | pending reads, last writes and last store describe the instructions seen so far |
| `Scheduler.BuildGraph` | src/aec_compiler/passes/scheduler.py:42-95 | the dependents lists hold every edge with its multiplicity, each counter is the number of incoming edges, and the ready list holds exactly the instructions without any |
| `Scheduler.SortReady` | src/aec_compiler/passes/scheduler.py:112 | the ready list with the same members, sorted: loads, then computations, then stores, then control instructions, each kind in textual order |
| `Scheduler.HeadIsBest` | src/aec_compiler/passes/scheduler.py:111-115 | the head of the sorted ready list is the ready instruction of highest priority |
| `Scheduler.Release` | src/aec_compiler/passes/scheduler.py:116-120 | after an emission each counter again equals the number of unemitted incoming edges with multiplicity, and newly ready instructions are listed once |
| `Scheduler.NeverStalls` | src/aec_compiler/passes/scheduler.py:110-123 | when the ready list is empty everything has been emitted |
| `Scheduler.ListSchedule` | src/aec_compiler/passes/scheduler.py:109-123 | the loop returns the complete greedy order of the block |
| `Scheduler.ScheduleBlock` | src/aec_compiler/passes/scheduler.py:18-125 | the schedule of the block: a block of at most two instructions or in order of kinds already is returned as it is, else each next instruction is the one that goes first by kind and position among those that have waited for all their edges; the error is unreachable |
| `ScheduleOrder.NodeExactly` | src/aec_compiler/passes/scheduler.py:128-148 | the kind of each opcode, and which register fields the graph takes as written and read |
| `ScheduleOrder.OrderExactly` | src/aec_compiler/passes/scheduler.py:99-115 | an order is the schedule if and only if each next instruction goes first, by kinds and positions, among those that could be emitted |
| `ScheduleOrder.KindsStayInOrder` | src/aec_compiler/passes/scheduler.py:99-115 | of two instructions of one kind the later is emitted first only if the earlier still waits for another at that moment |
| `ScheduleOrder.LaterKindsWait` | src/aec_compiler/passes/scheduler.py:97-115 | an instruction is emitted before one of an earlier kind only if that one still waits for another at that moment |
| `ScheduleOrder.InOrderUnchanged` | src/aec_compiler/passes/scheduler.py:99-125 | a block whose kinds are in order, such as computations without edges, has its own text as schedule |
| `ScheduleMeaning.Reorder` | src/aec_compiler/passes/scheduler.py:125 | executing a permutation whose inversions commute has the effect of the original sequence |
| `ScheduleMeaning.BlockPreserved` | src/aec_compiler/passes/scheduler.py:18-125 | a scheduled block has the effect of the block on every warp, and keeps its final control instruction in place |
| `ScheduleMeaning.StableBlockCovered` | src/aec_compiler/passes/scheduler.py:32-33 | merging predicate and register numbers only adds order: stable guards and no pair writes suffice for a block to be preserved |
| `ScheduleProgram.FindLeaders` | src/aec_compiler/passes/scheduler.py:158-169 | the set holds exactly the first instructions of basic blocks |
| `ScheduleProgram.SortLeaders` | src/aec_compiler/passes/scheduler.py:171-174 | the sorted leaders cut the program into consecutive blocks |
| `ScheduleProgram.PlaceBlock` | src/aec_compiler/passes/scheduler.py:179-180 | a scheduled block overwrites its own positions and nothing else |
| `ScheduleProgram.ScheduleRange` | src/aec_compiler/passes/scheduler.py:173-180 | one iteration replaces its block in place by its schedule |
| `ScheduleProgram.ScheduleLowered` | src/aec_compiler/passes/scheduler.py:151-185 | the result is the program with every block replaced by its schedule |
| `ScheduleProgram.TextIsScheduled` | src/aec_compiler/passes/scheduler.py:171-180 | every block of the result is the schedule of the same block of the input |
| `ScheduleProgram.ControlsFixed` | src/aec_compiler/passes/scheduler.py:171-180 | control instructions stay where they are |
| `ScheduleProgram.LeadersFixed` | src/aec_compiler/passes/scheduler.py:158-180 | blocks start at the same positions before and after |
| `ScheduleProgram.BlockStepPreserved` | src/aec_compiler/passes/scheduler.py:151-185 | from the start of a block both programs reach the same block in the same state |
| `ScheduleProgram.BoundariesPreserved` | src/aec_compiler/passes/scheduler.py:151-185 | both programs visit the same sequence of blocks with the same registers, predicates and memory at every boundary |
| `ScheduleProgram.RunPreserved` | src/aec_compiler/passes/scheduler.py:151-185 | both programs end in the same state after the same number of instructions, or both raise an exception, from every warp and for every step limit |
| `ScheduleProgram.StableProgramCovered` | src/aec_compiler/passes/scheduler.py:143-148 | the condition a caller can check: no instruction but the final branch is guarded by a predicate its block computes, and no pair writes |
| `ScheduleExact.PairOrderExact` | src/aec_compiler/passes/scheduler.py:46-115 | a pair keeps its order in every block exactly when it has a tracked conflict or its second instruction is a store or control instruction |
| `ScheduleExact.GuardedLoadOvertakes` | src/aec_compiler/passes/scheduler.py:143-148 | exactly when a load can overtake the comparison that computes its guard |
| `ScheduleExact.PairLoadOvertakes` | src/aec_compiler/passes/scheduler.py:143-148 | exactly when a load from the second half of a pair can overtake the instruction that writes the pair, be it an immediate, a copy or a load |
| `ScheduleHazard.GuardHazardChangesMeaning` | src/aec_compiler/passes/scheduler.py:143-148 | a concrete program whose result the scheduler changes, because guards are not tracked as reads |
| `ScheduleHazard.PairHazardChangesMeaning` | src/aec_compiler/passes/scheduler.py:143-148 | a concrete program whose result the scheduler changes, because the second half of a pair is not tracked as a write |
| `Simulator.TrackBSimulator.ExecuteLanes` | src/aec_compiler/sim.py:188-190 | one instruction over all lanes in order updates lanes and memory as the warp machine says |
| `Simulator.TrackBSimulator.BranchNextPc` | src/aec_compiler/sim.py:193-217 | the next pc when all lanes agree, an exception when they do not; the decisions of all lanes are appended to the branch trace, and the counters stay the number of its entries and of its divergent ones |
| `Simulator.TrackBSimulator.RunWarp` | src/aec_compiler/sim.py:162-191 | a warp leaves the memory, instruction count and branch trace of the run function, and fails exactly when it does, with the branches recorded up to there |
| `Simulator.TrackBSimulator.RunBlock` | src/aec_compiler/sim.py:139-152 | the warps of one block run one after another |
| `Simulator.TrackBSimulator.Run` | src/aec_compiler/sim.py:138-160 | the launch runs all warps of all blocks in order over one memory, with one trace, up to the first exception |
| `LaneGeometry.LaneReads` | src/aec_compiler/sim.py:306-335 | what a fresh lane reads, selector by selector as numbers: coordinates of its thread and block that make up their indices, both sizes, and its place in a row modulo and divided by the warp size; no other selector, registers zero, predicates false |
| `LaneGeometry.PointUnique` | src/aec_compiler/sim.py:53-74 | the coordinates are determined by the index |
| `LaneGeometry.ThreadIsLane` | src/aec_compiler/sim.py:138-152 | every thread of every block is one lane of the launch, at its quotient and remainder by the warp size |
| `LaneGeometry.WarpIsThreads` | src/aec_compiler/sim.py:138-152 | the warps of a launch are, block by block, those that start at each multiple of the warp size, the last one shorter |
| `InstructionMeaning.WideImmediateLoads` | src/aec_compiler/sim.py:229-233 | a 64-bit immediate modulo 2^64 in two registers, low word first |
| `InstructionMeaning.CopyReads` | src/aec_compiler/sim.py:301-335 | a copy reads a register, or the selector from 0x100 on |
| `InstructionMeaning.WideCopyReads` | src/aec_compiler/sim.py:234-239 | a wide copy copies the pair, exactly unless it writes over the second half of its source before that is read |
| `InstructionMeaning.LoadReads` | src/aec_compiler/sim.py:279-289 | a load reads the little-endian number at the address into one register or a pair, exactly when the access is in range |
| `InstructionMeaning.StoreWrites` | src/aec_compiler/sim.py:291-299 | a store leaves the little-endian number of its register at the address, zeros above in a wide one, and changes nothing else |
| `InstructionMeaning.StoreLoad` | src/aec_compiler/sim.py:279-299 | a load from where a store has written reads what was stored |
| `InstructionMeaning.IntegerComputes` | src/aec_compiler/sim.py:337-364 | sums, differences, products and multiply-adds modulo 2^32 |
| `InstructionMeaning.FloatComputes` | src/aec_compiler/sim.py:337-364 | a multiply-add rounds twice, a fused one once, and a result that cannot be packed is an exception |
| `InstructionMeaning.ComparisonDecides` | src/aec_compiler/sim.py:366-387 | the predicate, and nothing else, by comparison of words without sign or of floats |
| `Simulator.LaunchPreserved` | src/aec_compiler/passes/scheduler.py:151-185 | scheduling preserves whole launches: final memory, instruction count, whether they abort, and the branch trace even when they do |
| `Simulator.LaunchDiverges` | src/aec_compiler/sim.py:138-160 | a launch records at most one divergent branch, and none if it finishes |
| `BranchTraces.DivergesOnce` | src/aec_compiler/sim.py:193-217 | so does every run of a warp, from any point |
| `BranchTraces.TracePreserved` | src/aec_compiler/passes/scheduler.py:151-185 | the scheduled program records the same branches with the same decisions of every lane, also in runs that fail in the middle of a block |
| `Dce.CollectDefinitions` | src/aec_compiler/passes/global_dce.py:41-46 | the definitions of every register but predicates |
| `Dce.MarkSeeds` | src/aec_compiler/passes/global_dce.py:62-65 | every side-effecting instruction is live and on the worklist |
| `Dce.Propagate` | src/aec_compiler/passes/global_dce.py:53-72 | the live set is the least set with the side effects that contains all definitions of what its members read |
| `Dce.LiveUnique` | src/aec_compiler/passes/global_dce.py:53-72 | there is only one such set |
| `Dce.EliminateDeadCode` | src/aec_compiler/passes/global_dce.py:35-88 | the result holds exactly the labels and live instructions, in order |
| `Dce.LabelMoves` | src/aec_compiler/passes/global_dce.py:81-88 | a label stays in front of the same kept items |
| `Dce.DeadEffect` | src/aec_compiler/passes/global_dce.py:74-85 | a deleted instruction changes nothing but a register that no live instruction reads |
| `DceExact.ReadsExactly` | src/aec_compiler/passes/_helpers.py:47-56 | an instruction reads its guard and every register and address among its operands but the destination |
| `DceExact.LiveExactly` | src/aec_compiler/passes/global_dce.py:53-72 | an instruction is kept if and only if it is guarded, sets the carry, is not a pure operation or writes a predicate, or a chain of reads leads from its result to one that is |
| `DceExact.UnreadDeleted` | src/aec_compiler/passes/_helpers.py:71-92 | an unguarded pure instruction whose result nothing reads is deleted |
| `Dce.RunsMatch` | src/aec_compiler/passes/global_dce.py:35-88 | the filtered program runs in lockstep, standing still on deleted instructions, with the same memory, loads, stores, branches and predicates and the same values in every register a live instruction reads |
| `Dce.CatchUp` | src/aec_compiler/passes/global_dce.py:35-88 | every step of the filtered program is reached by the original |
| `Dce.EliminationPreserves` | src/aec_compiler/passes/global_dce.py:35-88 | a run of the original ends with a memory and trace if and only if a run of the filtered program does |
| `Cfg.CollectLabels` | src/aec_compiler/analysis/cfg.py:183-190 | the positions of all labels, or the error for a duplicate |
| `Cfg.FindLeaders` | src/aec_compiler/analysis/cfg.py:193-211 | the set of first items of blocks, or the error for an undefined target |
| `Cfg.ConnectEdges` | src/aec_compiler/analysis/cfg.py:214-242 | the successors of every block |
| `Cfg.BuildCfg` | src/aec_compiler/analysis/cfg.py:117-169 | the graph, exactly when labels are distinct and every branch resolves |
| `Cfg.CfgValid` | src/aec_compiler/analysis/cfg.py:240-242 | predecessors are the inverse of successors, and edges stay among blocks |
| `Cfg.StepFollowsEdges` | src/aec_compiler/analysis/cfg.py:221-238 | inside a block control goes to the next item, at its end along an edge or off the end of the program |
| `Cfg.BranchEdgesTaken` | src/aec_compiler/analysis/cfg.py:225-235 | every edge of a final branch is taken from some state |
| `Graphs.Visit` | src/aec_compiler/analysis/cfg.py:54-60 | the depth-first visit adds what is reachable, each block once, and is closed when it returns |
| `Graphs.ReversePostorder` | src/aec_compiler/analysis/cfg.py:50-63 | exactly the reachable blocks, each once, the entry first, and each before its successors unless they are on a cycle with it |
| `Graphs.Recompute` | src/aec_compiler/analysis/cfg.py:75-80 | a block itself and what dominates all its reachable predecessors |
| `Graphs.Sweep` | src/aec_compiler/analysis/cfg.py:71-84 | the sets only shrink, so the loop terminates, and without a change all blocks are at the fixpoint |
| `Graphs.FixpointIsDominance` | src/aec_compiler/analysis/cfg.py:65-84 | any such fixpoint is the dominance relation |
| `Graphs.Dominators` | src/aec_compiler/analysis/cfg.py:65-84 | d is in the result for n exactly when every path from the entry to n passes through d |
| `Graphs.BackEdges` | src/aec_compiler/analysis/cfg.py:86-93 | exactly the edges from a reachable block to one that dominates it |
| `Graphs.NaturalLoop` | src/aec_compiler/analysis/cfg.py:95-114 | the header and exactly the blocks that reach the tail without passing through it |
| `Graphs.LoopEntry` | src/aec_compiler/analysis/cfg.py:107-112 | every predecessor of a member other than the header is a member |
| `Graphs.HeaderDominates` | src/aec_compiler/analysis/cfg.py:95-114 | the header dominates every member of its loop |
| `ConstantPropagation.FoldSound` | src/aec_compiler/passes/global_cp.py:185-246 | folding changes neither what an instruction does nor, where a constant is claimed, what it writes |
| `FoldingComplete.KnownAfterExactly` | src/aec_compiler/passes/global_cp.py:99-114 | after an unguarded pure instruction without carry its register is known if and only if it is a move, a u32 sum, difference or product or a bitwise operation whose sources are all immediates or known at a type that can be used; the value is the machine's result on them |
| `FoldingComplete.ResultExactly` | src/aec_compiler/passes/global_cp.py:120-151 | in the result every known source is written as a literal, and a bitwise operation on known sources is a move of its value; nothing else changes |
| `FoldingComplete.KnownNextExactly` | src/aec_compiler/passes/global_cp.py:120-151 | the facts from item to item of a block while rewriting |
| `FoldingComplete.ClosedFolds` | src/aec_compiler/passes/global_cp.py:185-246 | along items that compute constants from constants every source in the result is a literal |
| `FoldingComplete.ClosedResult` | src/aec_compiler/passes/global_cp.py:185-246 | and it is the literal of the value that the source has when the run is there |
| `FoldingComplete.ExampleFolds` | src/aec_compiler/passes/global_cp.py:233-235 | what the pass must return for a move, a sum and a difference of constants |
| `PropagationMeaning.TransferSound` | src/aec_compiler/passes/global_cp.py:99-114 | the dataflow step of an item keeps the facts true when none is known for what the item writes unseen |
| `ConstantPropagation.TransferBlock` | src/aec_compiler/passes/global_cp.py:99-114 | the facts at the end of a block, from those at its start |
| `Dataflow.EntryConstants` | src/aec_compiler/passes/global_cp.py:160-182 | a constant enters a block exactly when every predecessor with facts agrees on it |
| `Dataflow.IncomingUnique` | src/aec_compiler/passes/global_cp.py:160-182 | the facts that enter a block are determined by the exits |
| `Dataflow.FactsHold` | src/aec_compiler/passes/global_cp.py:77-118 | with sound exits, the facts at every item hold whenever a run is there |
| `Dataflow.UpdateSound` | src/aec_compiler/passes/global_cp.py:116-118 | updating one exit keeps all exits sound |
| `ConstantPropagation.SweepBlocks` | src/aec_compiler/passes/global_cp.py:82-118 | one round visits the blocks in order, each seeing the updates before it, and reports exactly whether an exit changed |
| `ConstantPropagation.Analyse` | src/aec_compiler/passes/global_cp.py:77-118 | the exits after the first round that changes nothing, or after 20 rounds |
| `PropagationOrder.RoundsGrow` | src/aec_compiler/passes/global_cp.py:77-118 | from round to round, and inside a round, the exits only gain facts |
| `PropagationMeaning.EveryRoundSound` | src/aec_compiler/passes/global_cp.py:77-118 | after any number of rounds each block's exit constants hold in every run that leaves the block |
| `ConstantPropagation.Apply` | src/aec_compiler/passes/global_cp.py:120-151 | every item is rewritten with the facts known before it, reset at block starts |
| `ConstantPropagation.PropagateConstants` | src/aec_compiler/passes/global_cp.py:49-157 | the result is the program rewritten with the exits at which the rounds stop, the first round without a change or the twentieth; what it then is, FoldingComplete.ResultExactly says |
| `PropagationMeaning.PropagationPreserves` | src/aec_compiler/passes/global_cp.py:49-157 | the rewritten program has the same runs, step by step, after any number of rounds, when no fact enters the entry block and none is known for what an instruction writes unseen |
| `PropagationMeaning.EntryFreePreserves` | src/aec_compiler/passes/global_cp.py:49-157 | in particular when nothing jumps to the entry block and every write is seen |
| `PropagationMeaning.FactsTrueExactly` | src/aec_compiler/passes/global_cp.py:84-96 | the facts the pass uses are true in every run if and only if the program passes a test that takes nothing to enter its entry block |
| `PropagationMeaning.CleanPreserves` | src/aec_compiler/passes/global_cp.py:49-157 | what the pass returns for a program that passes the test has the same runs |
| `PropagationMeaning.EntryUseChangesRun` | src/aec_compiler/passes/global_cp.py:120-151 | when a constant that enters the entry block is copied before its register is written, every run that gets there from another value is changed |
| `UnseenWrites.UnseenExactly` | src/aec_compiler/passes/_helpers.py:18-43 | a fused, carry, guarded load or other write that the dataflow phase skips keeps the facts true, for every machine, if and only if none is known for its register |
| `UnseenWrites.GuardedMoveExactly` | src/aec_compiler/passes/global_cp.py:99-114 | a guarded move keeps them true if and only if none is known for its register or it moves the known value |
| `PropagationHazard.EntryLoopChangesMeaning` | src/aec_compiler/passes/global_cp.py:84-96 | a concrete program, with its entry block as loop header, whose result differs from it within two steps |
| `PropagationHazard.FusedWriteChangesMeaning` | src/aec_compiler/passes/_helpers.py:18-43 | a concrete kernel that accumulates with a fused operation: nothing enters its entry block, zero is claimed for what the operation writes, and the result of the pass stores zero |
| `Liveness.CollectOccurrences` | src/aec_compiler/analysis/liveness.py:59-72 | the definitions and uses of every register, in order |
| `Liveness.OccursExactly` | src/aec_compiler/analysis/liveness.py:59-72 | an instruction defines its first operand if its operation has a result, and uses its guard and its other operands |
| `Liveness.SplitRange` | src/aec_compiler/analysis/liveness.py:83-115 | the uses a definition owns and the last of them, or the definition itself |
| `Liveness.AnalyzeLiveness` | src/aec_compiler/analysis/liveness.py:41-129 | the split ranges of every register that occurs |
| `Liveness.RecordedExactly` | src/aec_compiler/analysis/liveness.py:92-105 | a use is recorded unless it precedes the first definition or belongs to a third or later definition of the same register |
| `Liveness.MergeRanges` | src/aec_compiler/passes/register_allocation.py:73-80 | the least first definition and the greatest last use |
| `Liveness.SpanOfMerged` | src/aec_compiler/passes/register_allocation.py:73-80 | the merged interval is the span from the first definition to the last occurrence, so it covers the uses that split ranges lose |
| `LoopRanges.ComputeLoopRange` | src/aec_compiler/passes/register_allocation.py:193-224 | the least and the greatest instruction in any natural loop, or none |
| `LoopRanges.LabelsInLoop` | src/aec_compiler/passes/register_allocation.py:210-220 | labels between the target of a back edge and the first instruction belong to its loop |
| `RegisterAllocation.MergeAll` | src/aec_compiler/passes/register_allocation.py:60-80 | the merged intervals of all defined registers but predicates |
| `RegisterAllocation.HasUseExactly` | src/aec_compiler/passes/register_allocation.py:227-242 | the helper finds a use in the range exactly when one is recorded |
| `RegisterAllocation.ExtendedExactly` | src/aec_compiler/passes/register_allocation.py:60-92 | an interval runs from the first definition to the last occurrence, or to the end of the loops exactly when the register is used in them and occurs nowhere after |
| `RegisterAllocation.SortByFirst` | src/aec_compiler/passes/register_allocation.py:92 | one job per register, by first definition |
| `RegisterAllocation.TwoDefinitionsRecorded` | src/aec_compiler/analysis/liveness.py:92-105 | with at most two definitions of each register no loop misses a use |
| `RegisterAllocation.ExtendedProtects` | src/aec_compiler/passes/register_allocation.py:82-89 | extended intervals span all occurrences and reach the end of the loops for every register used inside them, if and only if each such register has a recorded use there or occurs at their end or later |
| `RegisterAllocation.ReducibleInside` | src/aec_compiler/passes/register_allocation.py:193-224 | every branch back to a dominating block lies within the computed range |
| `LinearScan.ExpireActive` | src/aec_compiler/passes/register_allocation.py:100-107 | registers whose interval has ended go to the free list, the others stay |
| `LinearScan.FindPair` | src/aec_compiler/passes/register_allocation.py:113-114 | the last index that holds the even half of a free pair |
| `LinearScan.TakePair` | src/aec_compiler/passes/register_allocation.py:111-143 | the state after a pair request, fallback included |
| `LinearScan.FallbackLowers` | src/aec_compiler/passes/register_allocation.py:132-143 | without a free aligned pair the fallback hands out nothing, and lowers the last free register by one if it is odd |
| `LinearScanOrder.FreedExactly` | src/aec_compiler/passes/register_allocation.py:100-107 | registers of intervals that ended before the job, and only those, join the end of the free list in the order in which they were given out |
| `LinearScanOrder.PairTakesLast` | src/aec_compiler/passes/register_allocation.py:113-131 | a pair takes the last even register whose neighbour is free and leaves the rest of the list as it is |
| `LinearScanOrder.RegisterTakesLast` | src/aec_compiler/passes/register_allocation.py:144-148 | a register takes the last of the free list |
| `LinearScanOrder.RegistersNeeded` | src/aec_compiler/passes/register_allocation.py:94-148 | without pairs the scan never gives out a register above the largest number of intervals live at once |
| `LinearScan.ScanJobs` | src/aec_compiler/passes/register_allocation.py:94-148 | the states of the scan, one per job |
| `LinearScanFacts.AssignPartitionedExactly` | src/aec_compiler/passes/register_allocation.py:109-148 | one assignment keeps free list and active set a partition of 1..239 exactly when it is not a pair request with no aligned pair free, two registers left and the last of them odd |
| `LinearScanFacts.FallbackFails` | src/aec_compiler/passes/register_allocation.py:132-143 | the fallback never serves a pair: it changes nothing or loses a register |
| `LinearScanFacts.ScanSound` | src/aec_compiler/passes/register_allocation.py:94-148 | as long as that case is not met: the partition holds, mappings are aligned, and overlapping intervals share no register |
| `LinearScanFacts.ScanPartitionedExactly` | src/aec_compiler/passes/register_allocation.py:94-148 | the scan accounts for every register before and after every job if and only if no job meets that case |
| `LinearScanFacts.PressureLeavesPair` | src/aec_compiler/passes/register_allocation.py:113-114 | when at most 119 intervals meet at a point an aligned pair is free: 118 owners touch at most 118 of 119 pairs |
| `LinearScanFacts.ScanAllocates` | src/aec_compiler/passes/register_allocation.py:91-148 | under the bound every register is mapped, pairs even-aligned in 2..239, overlapping intervals disjoint, and the fallback is never reached |
| `LinearScanHazard.CrowdMeetsHazard` | src/aec_compiler/passes/register_allocation.py:132-143 | a concrete program for which the pass maps two registers that are live together to register 4, and a pair to none |
| `AllocationMeaning.StepSimulates` | src/aec_compiler/passes/register_allocation.py:68-148 | one step on mapped registers simulates the step on virtual registers, branches back and forward included |
| `AllocationMeaning.MappedRunSimulates` | src/aec_compiler/passes/register_allocation.py:68-148 | so does every run, from any register contents, whatever the instructions compute |
| `RegisterAllocation.AllocateRegisters` | src/aec_compiler/passes/register_allocation.py:47-172 | the mapping comes from scanning the merged intervals extended over the loop range |
| `RegisterAllocation.AllocationPreserves` | src/aec_compiler/passes/register_allocation.py:47-172 | for programs with any loops the pass recognises and covers, running on the mapped registers simulates running on virtual ones, for every number of steps |
| `AllocationPtx.RunFollows` | src/aec_compiler/passes/register_allocation.py:47-172 | the PTX machine is an instance of the virtual-register machine |
| `AllocationPtx.AllocationMirrors` | src/aec_compiler/passes/register_allocation.py:47-172 | at every step the mapped program is at the same item with the same memory and the same loads, stores, branches and predicates as the PTX program |
| `LoopNests.NestReducible` | src/aec_compiler/passes/register_allocation.py:193-224 | in a nest of do-while loops every branch back goes to a dominating block |
| `LoopNests.NestPreserved` | src/aec_compiler/passes/register_allocation.py:47-172 | allocation preserves every run of such a nest in which registers are defined before they are used, at most twice |
| `AllocationHazard.UncoveredLoopChangesMeaning` | src/aec_compiler/passes/register_allocation.py:227-242 | a concrete loop that meets every other condition, and whose second load reads another address after the pass |
| `FallbackAllocator.SearchExactly` | src/aec_compiler/legacy_lowering.py:114-130 | the search terminates with the least aligned free base from its start, and fails only if there is none |
| `FallbackAllocator.CallsKeepDisjoint` | src/aec_compiler/legacy_lowering.py:98-139 | over any calls: registers given on demand meet no other register or pair half, stay below 240, and pairs are even-aligned |
| `FallbackAllocator.StagesAvoidTemporaries` | src/aec_compiler/legacy_lowering.py:98-149 | after a scan under the bound no register of either stage is a temporary |
| `FallbackAllocator.RegisterAllocator.constructor` | src/aec_compiler/legacy_lowering.py:99-112 | all registers of the given mapping, both halves of pairs, are reserved |
| `FallbackAllocator.RegisterAllocator.Allocate` | src/aec_compiler/legacy_lowering.py:114-130 | the allocated base and the reservations, or an unchanged allocator |
| `FallbackAllocator.RegisterAllocator.Reg` | src/aec_compiler/legacy_lowering.py:132-139 | a known name keeps its register, a new one gets the next free |
| `FallbackAllocator.RegisterAllocator.Temp` | src/aec_compiler/legacy_lowering.py:141-146 | temporaries 240 to 255 in turn, then an error |
| `FallbackAllocator.RegisterAllocator.ResetTemps` | src/aec_compiler/legacy_lowering.py:148-149 | temporaries start again at 240 |
| `LocalCse.ResolveAlias` | src/aec_compiler/passes/local_scalar.py:373-379 | following aliases, never twice through one name |
| `LocalCse.AliasReadAfterTargetRedefinition` | src/aec_compiler/passes/local_scalar.py:398-407 | whether the alias is read at or after a redefinition of its target |
| `LocalCse.OptimizeScope` | src/aec_compiler/passes/local_scalar.py:227-260 | the state after all instructions of a scope |
| `LocalCseComplete.KeyedExactly` | src/aec_compiler/passes/local_scalar.py:275-289 | which instructions take part |
| `LocalCseComplete.GoneExactly` | src/aec_compiler/passes/local_scalar.py:237-258 | an instruction is removed if and only if it is not read outside and an earlier one, undisturbed since, computes the same expression into another register that is not written before the result is read |
| `LocalCseComplete.CurrentExactly` | src/aec_compiler/passes/local_scalar.py:353-370 | every operand reads, in the place of a removed result that has not been written since, the register that replaces it, and is otherwise unchanged |
| `LocalCseComplete.EmittedExactly` | src/aec_compiler/passes/local_scalar.py:227-260 | the other instructions, so rewritten, are emitted in order |
| `LocalCseMeaning.RewrittenResult` | src/aec_compiler/passes/local_scalar.py:353-370 | a rewritten instruction computes what the original computes |
| `LocalCseMeaning.StepRelated` | src/aec_compiler/passes/local_scalar.py:237-258 | each step keeps: fresh aliases hold the value, stale ones are never read, recorded expressions hold |
| `LocalCseMeaning.ScopePreserves` | src/aec_compiler/passes/local_scalar.py:227-260 | after an optimised scope every register but the removed destinations and those unknown before it holds its original value |
| `LocalCseProgram.SplitScopes` | src/aec_compiler/passes/local_scalar.py:201-224 | the maximal scopes in order make up the program, with labels and boundaries on their own |
| `LocalCseProgram.SplitUnique` | src/aec_compiler/passes/local_scalar.py:201-224 | there is only one such split |
| `LocalCseProgram.CountReads` | src/aec_compiler/passes/_helpers.py:63-68 | how many instructions read each register |
| `LocalCseProgram.CountOutside` | src/aec_compiler/passes/local_scalar.py:89-97 | a name is read more often in the program than in a scope exactly when another scope reads it |
| `LocalCseProgram.EliminateCommonSubexpressions` | src/aec_compiler/passes/local_scalar.py:77-118 | every maximal scope is replaced by its optimised form |
| `LocalCseProgram.ResultUnique` | src/aec_compiler/passes/local_scalar.py:77-118 | the program determines the scopes, what is removed from them and the result |
| `LocalCseRuns.RemovedReadInside` | src/aec_compiler/passes/local_scalar.py:93-97 | a removed destination is read in no other scope |
| `LocalCseRuns.ScopeMatched` | src/aec_compiler/passes/local_scalar.py:85-104 | from the start of a scope both programs reach matching points |
| `LocalCseRuns.EliminationPreserves` | src/aec_compiler/passes/local_scalar.py:77-118 | the optimised program ends with a memory and trace if and only if the original does, loops included, when no destination that only its scope reads is read by its own instruction or before it is written |
| `LocalCseExact.ExpressionHoldsExactly` | src/aec_compiler/passes/local_scalar.py:240-257 | for operations with open results and moves: the recorded expression holds after the instruction, for every machine, if and only if the instruction does not read its destination or is a move |
| `LocalCseExact.IgnoresExactly` | src/aec_compiler/passes/local_scalar.py:93-97 | a scope of such instructions computes the same whatever a register holds before it, if and only if it does not read the register before writing it |
| `LocalCseHazard.SelfReadChangesMeaning` | src/aec_compiler/passes/local_scalar.py:240-257 | a concrete loop, with an instruction that reads its own destination, that stores another value after the pass |
| `LocalCseHazard.ExposedChangesMeaning` | src/aec_compiler/passes/local_scalar.py:93-97 | a concrete loop, with a removed destination that the next iteration reads first, that stores another value after the pass |
| `Encoding.OpcodesInvert` | src/aec_compiler/isa.py:303-315 | opcode numbers and names invert each other in both profiles |
| `Encoding.TypesInvert` | src/aec_compiler/isa.py:303-315 | type codes and names invert each other in both profiles |
| `Encoding.ControlFields` | src/aec_compiler/isa.py:218-251 | type, guard, comparison, memory space and source type can be read back from the control half-word |
| `Encoding.RoundTripExactly` | src/aec_compiler/isa.py:210-385 | decoding an encoded instruction gives it back if and only if it is canonical, 64-bit immediates included |
| `Encoding.InstructionsToBytes` | src/aec_compiler/isa.py:283-287 | the bytes of all instructions in order, or the first error |
| `WireFormat.OpcodeOnWire` | src/aec_compiler/isa.py:92-144 | the opcode number in the high half of the last word, opcode by opcode |
| `WireFormat.TypeOnWire` | src/aec_compiler/isa.py:268-276 | the type field, type by type: a 32-bit shift of bits is written as unsigned, immediates and branches without a type |
| `WireFormat.GuardOnWire` | src/aec_compiler/isa.py:229-240 | the enable and negate bits and the predicate number |
| `WireFormat.OptionsOnWire` | src/aec_compiler/isa.py:221-251 | source type of a conversion, comparison, address space or family in their places |
| `WireFormat.LastWord` | src/aec_compiler/isa.py:264 | these fields make up the last word |
| `WireFormat.OtherWords` | src/aec_compiler/isa.py:253-263 | the other three words as arithmetic on the fields, 64-bit and other immediates included |
| `WireFormat.EncodesExactly` | src/aec_compiler/isa.py:211-240 | which instructions each profile can encode |
| `WireFormat.ErrorExactly` | src/aec_compiler/isa.py:211-240 | the error of the others |
| `WireFormat.StreamExactly` | src/aec_compiler/isa.py:283-287 | a stream is written if and only if all its instructions can be encoded, else the error is that of the first that cannot |
| `WireFormat.StreamOnWire` | src/aec_compiler/isa.py:283-287 | 16 bytes per instruction, the words in order, the lowest byte of each first |
| `Encoding.BytesToWords` | src/aec_compiler/isa.py:295-298 | the words of a stream, or the error for a length that is not a multiple of 16 |
| `Encoding.StreamRoundTrip` | src/aec_compiler/isa.py:283-298 | streams of canonical instructions of any length decode to what they were written from |
| `Encoding.ReencodesExactly` | src/aec_compiler/isa.py:210-385 | whatever decodes can be encoded again, and gives the same four words if and only if their spare bits are zero, their predicate bits fit and their type is one the opcode is encoded with |
| `Encoding.StreamReencodesExactly` | src/aec_compiler/isa.py:283-298 | a binary that decodes is written back byte for byte if and only if all its words are so |
| `IfConversion.StepMasked` | src/aec_compiler/sim.py:188-190 | an instruction under a guard does to the active lanes what it does to them alone, and nothing to the others |
| `IfConversion.RegionMasked` | src/aec_compiler/legacy_lowering.py:468-476 | so does a whole region: registers, predicates, memory and exceptions |
| `IfConversion.UniformRegion` | src/aec_compiler/legacy_lowering.py:581-596 | when the lanes agree the masked region does what the branch does |
| `IfConversion.ActsUnderGuardExactly` | src/aec_compiler/legacy_lowering.py:468-476 | an emitted instruction acts in exactly the lanes where the guard passes if and only if it had no guard or the same one |
| `IfConversion.KeepsGuardExactly` | src/aec_compiler/legacy_lowering.py:468-476 | it leaves the guard on in every such lane if and only if it cannot set the predicate the other way |
| `Lowering.InstrSimulates` | src/aec_compiler/legacy_lowering.py:185-466 | the code of a 32-bit instruction, load or store, immediates in temporaries, does to a lane and to memory what the instruction does; it traps on an access out of range, and else only on a floating-point overflow |
| `Lowering.PieceSimulates` | src/aec_compiler/legacy_lowering.py:170-183 | so does the code of a straight piece of a program |
| `Lockstep.PackSimulates` | src/aec_compiler/legacy_lowering.py:170-183 | a warp does with the code of a straight piece what its threads do in lockstep over one memory, each seeing the stores of those before it |
| `ConvertedRegions.ConvertedRegionLockstep` | src/aec_compiler/legacy_lowering.py:547-596 | if-conversion equals branching: the emitted code of a converted region does to registers, predicates and memory of a warp what its threads do when those that take the branch skip the region, exceptions included |
| `ConvertedRegions.ConvertedRegionBranches` | src/aec_compiler/legacy_lowering.py:547-596 | without stores in the region each lane ends with the registers and predicates its own PTX run, through the branch or past it, brings to the end of the region, and memory is unchanged |
| `ControlHazard.GuardWriteDiffers` | src/aec_compiler/legacy_lowering.py:547-596 | a PTX program without loop branches that the planner converts and whose region sets its own guard: a lane that does not take the branch ends differently |
| `ControlHazard.OwnGuardDiffers` | src/aec_compiler/legacy_lowering.py:547-596 | a PTX program without loop branches that the planner converts and whose region holds another guard: a lane that takes the branch ends differently |
| `ControlPlan.CollectUniformSlice` | src/aec_compiler/legacy_lowering.py:610-622 | the slice grows by an item and everything in the region it is computed from, and by nothing else |
| `ControlPlan.UniformControl` | src/aec_compiler/legacy_lowering.py:599-607 | the least closed set with the loop branches of the region |
| `ControlPlan.Planner.TryLegalize` | src/aec_compiler/legacy_lowering.py:547-596 | a forward branch is converted exactly when its region branches only as uniform control and has no other guard |
| `ControlPlan.TriedKeepsSound` | src/aec_compiler/legacy_lowering.py:585-595 | converting a branch keeps the guards promised to earlier ones |
| `ControlPlan.Planner.Build` | src/aec_compiler/legacy_lowering.py:525-544 | the plan of the branches in textual order: a branch that is not uniform is converted if and only if its target is forward, its region is not empty and, outside the control of its loops, holds no branch and no item whose guard in the final plan differs; the varying ones that are not converted are kept as they are; the error if and only if a branch that could be converted has a predicate out of range; and every converted region is guarded as promised |
| `ControlPlan.PlanUnique` | src/aec_compiler/legacy_lowering.py:525-596 | the plan is determined by the program, the classification of its branches and its loop branches |
| `ControlPlan.SkipGuardExactly` | src/aec_compiler/legacy_lowering.py:565-580 | the guard of a region is the predicate of its branch, of number below 8, in the other sense |
| `ControlPlan.LoopBranches` | src/aec_compiler/legacy_lowering.py:634-642 | exactly the branches that end a block and go back along a back edge |
| `ControlPlan.ConvertedRegionRuns` | src/aec_compiler/legacy_lowering.py:468-476 | the emitted code of a converted region without loops is the region, masked |
| `Uniformity.AnalyzeUniformity` | src/aec_compiler/analysis/uniformity.py:52-84 | the state of every guarded branch and of every register, in textual order |
| `UniformityExact.StateExactly` | src/aec_compiler/analysis/uniformity.py:52-112 | after each item its register is uniform if and only if it is a parameter load, or an operation all of whose sources are literals, indices and sizes that a block or warp shares, or uniform registers, and varying if and only if it is another load or has a thread or lane index or a varying register as source; the others keep their state |
| `UniformityExact.GeometryExactly` | src/aec_compiler/analysis/uniformity.py:150-163 | an index other than the warp number is uniform if and only if all lanes of every warp of every launch agree on it, and else varying |
| `Uniformity.WarpIdUniformExactly` | src/aec_compiler/sim.py:333-334 | the warp number is the same in all lanes of every warp if and only if warps do not wrap around the rows of a block |
| `UniformityMeaning.OperandAgrees` | src/aec_compiler/analysis/uniformity.py:142-164 | an operand classified as uniform has the same value in both lanes |
| `UniformityMeaning.ItemAgrees` | src/aec_compiler/analysis/uniformity.py:56-81 | one lockstep item keeps the agreement of two lanes |
| `UniformityMeaning.LanesAgree` | src/aec_compiler/analysis/uniformity.py:52-112 | after any straight-line prefix two lanes of a warp agree on every register classified as uniform |
| `UniformityMeaning.UniformBranchConverges` | src/aec_compiler/analysis/uniformity.py:71-79 | a branch on a uniform predicate does not diverge |

## Left out

- ScheduleProgram.RunPreserved: sufficient only; inverted instructions that conflict may still happen to commute on particular values, so the converse fails. The exact statement is about pairs, in ScheduleExact.PairOrderExact.
- ScheduleProgram.RunPreserved: programs with CALL or RET are excluded; the lowering emits none and the simulator rejects them.
- Simulator.TrackBSimulator.ExecuteLanes: lanes are values threaded through the loop, not mutable objects.
- Simulator.TrackBSimulator.RunWarp: the list of memory accesses is not kept, and memory and instruction count are unspecified after an exception.
- Simulator.TrackBSimulator.Run: as for one warp, without the list of memory accesses.
- Cfg.BuildCfg: blocks are named by the index of their first item, so clashes of generated names and a label called `entry` that is not first are not modelled.
- RegisterAllocation.AllocateRegisters: the mapping of predicates, which the lowering does not use, and the numbers reported beside the mappings are not computed.
- RegisterAllocation.AllocationPreserves: assumes definitions textually before uses, first definitions without guard, branches back that are back edges, and no branch forward over the first definition of a register needed later; a program outside these may still be allocated correctly. LoopNests.NestPreserved is the part of it that can be read off the text.
- AllocationPtx.AllocationMirrors: PTX values are low words, so the second word of a pair is 0 in this instance; RegisterAllocation.AllocationPreserves carries both words for any semantics.
- LinearScanHazard.CrowdMeetsHazard: states the interference of the mapping and not a run, because the pair that gets no register is allocated by a later stage.
- UnseenWrites.UnseenExactly: operations whose result the machine leaves open, and moves in GuardedMoveExactly; a guarded integer operation can compute the known constant whatever its operands are, as a product with 0 does, so for these only the direction of PropagationMeaning.TransferSound is stated.
- LocalCseRuns.EliminationPreserves: the conditions are sufficient for programs; LocalCseExact has the exact statements, for one instruction and for one scope of operations with open results and moves. Integer operations can undo each other.
- Uniformity.AnalyzeUniformity: the definition and use tables and the values before and after each item are not returned; only the state of each branch and of each register is.
- UniformityMeaning.LanesAgree: straight-line prefixes only, since the analysis reads the text in order and does not join paths.
- ControlPlan.ConvertedRegionRuns: regions without loops inside; the control of a loop stays unguarded, and what a plan promises about the other items of such a region is in Planner.Build.
- Lowering.InstrSimulates: moves, integer and single-precision operations, comparisons, loads and stores of 32-bit words; parameter loads, wide registers and conversions, which the simulator does not execute, are not covered. Accesses are aligned to their words, as PTX requires, because the PTX machine has a word at each address and the AEC machine bytes.
- Lowering.InstrSimulates: a single-precision result that is too large for the simulator to pack is an exception there and a value in PTX, so after an overflow nothing is claimed.
- Lockstep.PackSimulates: as for Lowering.InstrSimulates.
- ConvertedRegions.ConvertedRegionLockstep: the threads advance together, as the warp does; PTX leaves open how threads that share memory interleave. ConvertedRegionBranches is about each thread on its own.
- IEEE single precision, struct packing of floats and comparisons on floats: parameters; nothing about rounding is claimed.
- 64-bit values in PTX runs: the PTX machine computes with low words, as the lowering of every operation but wide moves and loads does.
- The order in which sets and dictionaries are iterated is left open where it does not matter.
- `ret` under a guard: PTX runs return unconditionally, as the lowering emits HALT without the guard.
- Conservative dead-result elimination and local constant folding: special cases of what Dce and ConstantPropagation prove.
- LICM, load hoisting, loop unrolling, repeated load reuse and block simplification: they rest on pattern conditions of their own and are not modelled.
- Parsing of PTX text, object dumps, reports, the command line, pipelines and parameter layout: text handling and tables without an invariant across functions.
