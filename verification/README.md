# A verified model of the N-Gage recompiler and its runtime

The repository turns ARM code of Symbian games into C that runs on the host. This project
models the three parts that have to fit together for that to be right, and proves that they do.

**The lifter as a compiler.** `Arm` is a flat machine over decoded ARMv4 instructions, registers,
NZCV and byte memory (ARM Architecture Reference Manual, DDI 0100, sections A2.4-A2.5, A3.2 and
A5.1-A5.4). `CCode` is the C the lifter emits: expressions over the context, assignments, flag
calls, labels, gotos, switches, calls and returns on a host stack, with a fuel bound that only
cuts runs short. `Lift` defines what is emitted; `Lifter` is the program that emits it, with its
loops and counters. `Simulation`, `MemorySim` and `BlockSim` relate single instructions,
`Translation` states the side conditions, and `Correctness` proves the theorem over whole runs:
a disciplined run of the lifted code is a run of the ARM machine. For a dozen forms that the side
conditions exclude or leave to a run-time condition, `Limits` shows in exactly which states, or for
which instructions, the emitted C is right; `LimitCases` has a state in which each of eleven goes wrong. `Sample` is one
function whose runs meet every hypothesis. `LiftLaws` says, from the decoded instructions and the
words of the image alone, what each kind of instruction is lifted to and where its line ends;
`SideLaws` spells out the side conditions of the theorem. `Bits` and `WordLaws` say bit by bit and
number by number what the operations compute that both machines share.

**The runtime.** `Guest` is the context, the memory accessors and the flag helpers, `Shifts` the
barrel shifter. `HeapModel`, `HeapHistory` and `Heap` are the first-fit heap whose headers live in
guest memory, refined to an ordered list of cells. `KernelModel`, `KernelProofs` and `Kernel` are
the cleanup stack and the trap frames under nested guest programs; `ShimLaws` is what a caller
sees of each shim. `DispatchModel` and `Dispatch`
are the lazily sorted table that callees may extend while it is in use.

**The wiring.** `Segments` and `ImageFile` are the dumped segments, the file they are packed into
and the loader; `Literals` connects them to folded literals and jump tables, and restates the
translation theorem over a loaded image. `Imports` is the self-pointing import table. `Abi` and
`CallTree` show that lifted functions keep r4-r11 and sp, the check dispatch makes.

Words and bytes are bounded integers with every wrap written out. Guest memory is a window
starting at 0 of at most 2^32 bytes; the base bias of `c->mem` is dropped, and an access outside
the window reads 0 or is dropped, as in builds with the soft guard. What host code outside the
model does (functions outside the lifted code, the linker's numbering of shims, the C and V
a flag-setting multiplication leaves) is a parameter.

Static side conditions of the translation theorem, in `Translation.SourceOk`: ARM state only; each
function is not empty, starts with its first decoded instruction, and decodes each address once;
instructions lie at word-aligned addresses below 0xFFFFFFF0, and one that can fall through is
followed in the text by the next decoded one; functions outside lie at word-aligned addresses
outside the text. `Arm.Predictable` excludes what the architecture leaves UNPREDICTABLE or to the
implementation: pc as an operand of a register-amount shift, a multiplication, a byte or halfword
load, an offset register or a base with writeback; any store of pc; writeback into the register
transferred or from a base that is its own offset; multiplications into their own first operand, or
long ones with equal registers; an empty register list; sp in a pop list, or in a push list but not
lowest; a base with writeback in an `ldm` list, or in an `stm` list but not lowest; `blx pc`.
`Simulation.Liftable` excludes what the lifter gets wrong: data processing that writes pc; constant
shifts above 31; loads with writeback into their own offset register; shifted offset registers
post-index; `ldr pc` with writeback; single-register decrement-after with writeback; sp in a push
list; `blx lr`; flag-setting long multiplications.

Conditions on the run, in `Translation.Disciplined`: accesses are aligned and inside the window; a condition on C is not tested while C is stale; folded words are unmodified when
used; a table index is inside the recovered table and the load, whatever its shift and sign, reads
the target it selects; what would enter the program counter at a return or tail call is the value
lr had on entry; and where a `bx` marked as a call is not tight with its `mov lr, pc` (adjacent,
nothing jumping between them, the `mov` carried out whenever the `bx` is), lr holds the address
after it all the same. The value lr has when the run starts is word-aligned. A run that reaches a
stub ends there unfinished.

`recompiler/README.md` still says that jump tables become a run-time dispatch. The code lowers
them to a switch (`recompiler/lift.py:182-187`, `recompiler/lift.py:488-507`), and the model
follows the code.

## Model

| member | source | states |
|---|---|---|
| Correctness.TranslationCorrect | recompiler/lift.py:147-522 | whole-program translation: whenever a disciplined run of the lifted code finishes, the ARM machine started at the same address in an agreeing state reaches the address lr held, with equal registers, memory, N, Z, V and sequence of outside calls, and equal C unless stale; through calls, recursion, tail branches and indirect calls |
| Correctness.ShadowCall | recompiler/lift.py:437-522 | runs finished or not: every instruction a run reaches, at any depth and after any number of steps, is reached by the ARM machine with the same registers, memory, N, Z, V and outside calls so far, and the same C unless it is stale there; its condition passes on both sides or on neither; only the visits up to that instruction need discipline |
| Correctness.ShadowLines | recompiler/lift.py:249-299 | the same from any line inside a function: lifted position and ARM program counter stay in correspondence through loops, and the lifted C is ARM's whenever it is not stale |
| Correctness.NeverStuck | recompiler/lift.py:437-522 | if the lifted program never finishes and stays disciplined, the ARM machine started there takes any number of steps without getting stuck |
| Correctness.SimCall | runtime/src/dispatch.c:47-84 | a finished call of a lifted or outside function is some number of ARM steps from its address to the value of lr |
| Correctness.SimLines | recompiler/lift.py:509-522 | a finished run of a lifted body from line i is ARM steps from instruction i to the return address |
| Correctness.SimLine | recompiler/lift.py:147-207 | one emitted line under its guard, calls included, is ARM steps from its instruction to where the line ends |
| Correctness.CallLine | recompiler/lift.py:154-180 | `bl`, `blx`, outside `b`, `bx` and `ldr pc` as host calls: call-and-continue for linking calls and the `mov lr, pc` idiom, call-and-return otherwise |
| Correctness.IdiomReady | recompiler/lift.py:459-477 | after an adjacent `mov lr, pc` that is carried out whenever the `bx` is, conditional or not, the emitted lr is the address of the instruction after the `bx` |
| Correctness.JumpLine | recompiler/lift.py:168-187 | local branches, switches and `bx lr` end where the ARM step does |
| Correctness.StraightSim | recompiler/lift.py:209-303 | every instruction without control flow that is not `adc`, `sbc`, `rsc` or rotated through carry is rendered, and the emitted statements change the context as the ARM step does |
| Sample.SampleIsCovered | recompiler/lift.py:437-522 | the hypotheses can be met: `push {lr}; blne OUT; pop {pc}` satisfies the side conditions, and each of its runs around a harmless outside function finishes and is disciplined |
| Translation.LabelsResolve | recompiler/lift.py:479-520 | every target of every goto and switch in a lifted function is a label emitted exactly once, on the line of the instruction at that address |
| Translation.VisitsConcat | recompiler/lift.py:249-299 | discipline and staleness of the carry compose over consecutive parts of a run |
| CCode.CallMoreFuel | runtime/src/dispatch.c:47-84 | the result of a call that did not run out of fuel is independent of the fuel |
| Simulation.OperandAgrees | recompiler/lift.py:110-133 | rendered operands evaluate to the ARM shifter operand, the program counter reading as address plus 8 |
| Simulation.DpSim | recompiler/lift.py:249-299 | data processing but for `adc`, `sbc`, `rsc` and rotation through carry is rendered; result, N, Z and V agree, C agrees unless the instruction makes it stale |
| Simulation.CondAgrees | recompiler/lift.py:34-48 | the emitted condition passes exactly when ARM's does, provided C is not stale where it is read |
| MemorySim.LoadSim | recompiler/lift.py:305-378 | loads of every size, sign, offset and indexing mode agree with ARM, folded literals included |
| MemorySim.StoreSim | recompiler/lift.py:305-378 | stores with their base updates agree with ARM |
| MemorySim.MulLongSim | recompiler/lift.py:233-247 | one 64-bit accumulation equals ARM's two halves with a carry between them |
| BlockSim.BlockTransferCorrect | recompiler/lift.py:404-434 | for every register list and ia, ib, da, db the snapshot-based sequence is the simultaneous transfer by rank from the original base, with the right writeback, touching nothing else, even when an `ldm` loads its own base |
| BlockSim.PushSim | recompiler/lift.py:381-387 | the emitted push is ARM's store-multiple decrement-before |
| BlockSim.PopMovesRun | recompiler/lift.py:389-402 | the emitted pop loads each listed register from its rank and moves sp above them |
| Shifts.AmountShiftCorrect | runtime/include/ngage_runtime.h:109-113 | for every value and amount the four helpers equal amount mod 256 repetitions of the one-bit shift or rotate |
| Shifts.ConstShiftCorrect | recompiler/lift.py:117-125 | the constant shifts the lifter writes equal that many one-bit steps, for 1 to 31 |
| Bits.ShiftedBits | runtime/include/ngage_runtime.h:109-113 | for every kind and amount, which bit of the operand each bit of the shifted word is, or zero |
| Bits.CarryOutIs | recompiler/lift.py:117-132 | the carry-out of each shift by any amount is a named bit of the operand, or the old carry for none |
| Bits.BitwiseBits | recompiler/lift.py:279-289 | and, or and exclusive-or work on each bit alone |
| Bits.NotBits | recompiler/lift.py:256-264 | the complement turns every bit over |
| WordLaws.ResultsAre | recompiler/lift.py:249-299 | each bit of a logical result by the operation's truth table, with the shifter's carry; comparisons have the flags of their subtraction or addition |
| WordLaws.ImmediateIs | recompiler/lift.py:110-113 | each bit of an immediate operand, and its carry-out |
| WordLaws.ConditionsMean | recompiler/lift.py:33-48 | after `ngage_add_flags` the condition expressions tell sign, zeroness, unsigned carry and signed overflow of the sum |
| WordLaws.LoadsExtend | recompiler/lift.py:366-371 | a signed byte or halfword load gives the number between its two bounds with those low bits, an unsigned one the bits |
| WordLaws.LittleEndian | runtime/include/ngage_runtime.h:51-62 | bytes make halves and halves make words, least significant first, and what is outside reads as 0 |
| WordLaws.StoredIsLoaded | runtime/include/ngage_runtime.h:64-74 | a store of any size is read back reduced to that size, changes no byte outside it, and is dropped unless wholly inside the window |
| WordLaws.MulResIs | recompiler/lift.py:221-232 | multiplication is the product and addend modulo 2^32 |
| WordLaws.Product64Is | recompiler/lift.py:233-247 | long multiplication is the signed or unsigned product modulo 2^64 |
| WordLaws.BlockModesAre | recompiler/lift.py:404-434 | the words of a block lie where a pointer stands that steps from the base, up for the registers in ascending order or down in descending order, before or after each step as the mode says |
| WordLaws.AscendingIs | recompiler/lift.py:140-144 | a register list holds each listed register once, in ascending order |
| Guest.CompareDecides | recompiler/lift.py:33-48 | after `ngage_sub_flags(a, b)` the condition expressions decide the exact signed and unsigned relations of a and b |
| Guest.AddFlagsMeaning | runtime/include/ngage_runtime.h:92-99 | C and V are the unsigned carry and the signed overflow of the unbounded sum, and no other bit changes |
| Guest.SubFlagsMeaning | runtime/include/ngage_runtime.h:101-107 | C is no-borrow and V the signed overflow of the unbounded difference |
| Guest.SubIsAddComplement | runtime/include/ngage_runtime.h:92-107 | subtraction equals addition of the complement with carry-in 1, in result and all four flags |
| Guest.ReadBack | runtime/include/ngage_runtime.h:52-69 | a stored word is read back |
| Guest.ReadElsewhere | runtime/include/ngage_runtime.h:52-69 | a store leaves every word that does not overlap it |
| Guest.NgageCpu.Add | runtime/include/ngage_runtime.h:92-99 | the in-place update of cpsr is the addition's flags and nothing else |
| Guest.NgageCpu.Sub | runtime/include/ngage_runtime.h:101-107 | the same for subtraction |
| Guest.NgageCpu.Read32 | runtime/include/ngage_runtime.h:52-56 | the little-endian word at the address, or 0 outside the window |
| Guest.NgageCpu.Write32 | runtime/include/ngage_runtime.h:64-69 | four bytes written in place, everything else unchanged |
| Guest.NgageCpu.Write16 | runtime/include/ngage_runtime.h:70-73 | two bytes written in place, everything else unchanged |
| Guest.NgageCpu.Write8 | runtime/include/ngage_runtime.h:74 | one byte written in place, everything else unchanged |
| Lifter.Image.Word32 | recompiler/lift.py:81-86 | the word of the first segment that holds it whole |
| Lifter.Lifter.RegList | recompiler/lift.py:140-144 | the registers of a list in ascending order |
| Lifter.Lifter.Push | recompiler/lift.py:381-387 | the appended statements are the push that BlockSim.PushSim proves right |
| Lifter.Lifter.Pop | recompiler/lift.py:389-402 | the appended statements are the pop that BlockSim.PopMovesRun proves right, with a return exactly when the list holds pc |
| Lifter.Lifter.LdmStm | recompiler/lift.py:404-434 | the appended statements are the transfer that BlockSim.BlockTransferCorrect proves right |
| Lifter.Lifter.Emit | recompiler/lift.py:147-207 | one line per instruction, the one LiftLaws tells by kind, counted as lifted, or as stubbed exactly when it is a stub |
| Lifter.Lifter.Decode | recompiler/lift.py:443-454 | the decodable heads inside the function's bytes, in order |
| Lifter.Lifter.FindIdioms | recompiler/lift.py:467-477 | the loop marks the set that LiftLaws.MarkedAre describes |
| Lifter.Lifter.ReadTable | recompiler/lift.py:497-504 | the table entries up to the first word that is not a local instruction, at most 256 |
| Lifter.Lifter.FindLabels | recompiler/lift.py:479-507 | the first pass recovers the tables that LiftLaws.TableLine describes, and the labels that Translation.LabelsResolve resolves |
| LiftLaws.BxLine | recompiler/lift.py:459-477 | a `bx` whose condition passes calls its register; right after an instruction that moves pc to lr it comes back to the next line in the callee's state, under whatever two conditions, and anywhere else it returns |
| LiftLaws.MarkedAre | recompiler/lift.py:467-477 | the marked addresses are exactly those of a `bx` or `blx` right after a flagless `mov lr, pc`, whatever the conditions |
| LiftLaws.MovLinkLine | recompiler/lift.py:256-264 | the lifted `mov lr, pc` puts the address two instructions on in lr |
| LiftLaws.ReturnLine | recompiler/lift.py:166-168 | `bx lr` returns, marked or not |
| LiftLaws.LinkLine | recompiler/lift.py:154-161 | `bl` and `blx` call with the address of the next decoded instruction in lr, or the end of the function, and come back |
| LiftLaws.BranchLine | recompiler/lift.py:175-180 | `b` goes to a decoded instruction of the function, and to anything else is a tail call |
| LiftLaws.TableLine | recompiler/lift.py:488-507 | any word load into pc off pc by a register and not post-indexed, of any condition, shift and sign, is a switch on its index register over the longest run of at most 256 local words behind it, and is one exactly when the first word is local |
| LiftLaws.SwitchLine | recompiler/lift.py:182-187 | when its condition passes and the words up to its index are local, the run goes to the word the index selects |
| LiftLaws.LoadPcLine | recompiler/lift.py:360-364 | every other word load into pc without writeback is a tail call of the word loaded |
| LiftLaws.StubLine | recompiler/lift.py:196-203 | exactly `adc`, `sbc`, `rsc` and operands rotated through carry become stubs |
| LiftLaws.StubsAre | recompiler/lift.py:200-207 | the stubs counted are as many as the lines that are stubs |
| LiftLaws.SkippedLine | recompiler/lift.py:135-138 | an instruction whose condition fails does nothing, unless it is a stub |
| LiftLaws.LiteralLine | recompiler/lift.py:310-316 | a word load off pc by a constant, into another register, is the image's word whenever one segment holds it whole |
| LiftLaws.DecodedAre | recompiler/lift.py:443-454 | the instructions lifted are the decodable heads inside the function's bytes, or with no heads those at every fourth address |
| SideLaws.CoveredAre | recompiler/lift.py:209-434 | which instructions the theorem covers, form by form |
| SideLaws.EntailsIs | recompiler/lift.py:33-48 | one condition entails another exactly for equal ones, for the condition that always passes, and for eight named pairs |
| SideLaws.ReadsCarryIs | recompiler/lift.py:33-48 | the conditions taken to read C are exactly those a change of C can change |
| SideLaws.StaleAfterIs | recompiler/lift.py:249-299 | which instructions make C stale, refresh it or leave it |
| Lifter.Lifter.LiftFunc | recompiler/lift.py:437-522 | the loops emit exactly the lines the translation theorem is about; lifted plus stubbed grows by the number of lines, stubbed by the stubs among them |
| Limits.WritebackExact | recompiler/lift.py:413-430 | block writeback is right if and only if it is not decrement-after with one register, in every state |
| Limits.PushSpExact | recompiler/lift.py:381-387 | a push is right if and only if its list does not hold sp, in every state |
| Limits.PostShiftStoreExact | recompiler/lift.py:327-330 | a post-indexed store with a register offset is right if and only if the dropped shift leaves that register's value alone |
| Limits.PostShiftLoadExact | recompiler/lift.py:327-330 | a post-indexed load with a register offset, whatever the shift and even into the offset register, is right if and only if the unshifted register after the load equals the shifted one before it |
| Limits.LoadIntoOffsetExact | recompiler/lift.py:355-377 | a writeback load into its own offset register is right if and only if the loaded value gives the same offset |
| Limits.StaleCarryExact | recompiler/lift.py:249-299 | a flag-setting logical instruction keeps C right if and only if the shifter's carry-out is the carry already there |
| Limits.MulLongFlagsExact | recompiler/lift.py:233-247 | a flag-setting long multiplication is right if and only if N and Z already are the sign and the zeroness of the 64-bit product plus accumulator, and V what the processor leaves there |
| Limits.BlxLrExact | recompiler/lift.py:154-161 | `blx lr` always calls the address after it; the context is that of the ARM step, the target if and only if lr held that address |
| Limits.MarkedCallExact | recompiler/lift.py:169-172 | a `bx` marked as a call, wherever its `mov lr, pc` stands: when the callee returns, the emitted code goes on at the next line in an agreeing state, and that is where ARM is if and only if lr held the address after the `bx` |
| Limits.TableLoadExact | recompiler/lift.py:182-187 | a load lowered to a switch, for any shift, sign and index: the switch goes to the entry its index selects, or to the next line; right if and only if that is the aligned form of the word ARM loads |
| Limits.TableEntryExact | recompiler/lift.py:488-507 | in terms of the unmodified table: ARM goes to the target of the entry the load reads, the switch to that of the index, and they agree if and only if those targets do |
| Limits.LoadPcWritebackExact | recompiler/lift.py:360-364 | `ldr pc` with writeback leaves the registers of the ARM step, calls the word one offset past the one ARM loads and returns; the target is ARM's if and only if that word is the aligned form of the one ARM loads |
| Limits.DpCompilesExact | recompiler/lift.py:101-108 | a data-processing instruction other than the four stubbed forms lifts to C, which compiles if and only if the instruction does not write the program counter |
| LimitCases.DecrementAfterFails | recompiler/lift.py:413-430 | `ldmda r1!, {r2}` in a state where the emitted C goes wrong |
| LimitCases.PushSpFails | recompiler/lift.py:381-387 | `push {sp}`, likewise |
| LimitCases.PostShiftStoreFails | recompiler/lift.py:327-330 | `str r3, [r1], r2, lsl #1`, likewise |
| LimitCases.PostShiftLoadFails | recompiler/lift.py:327-330 | `ldr r3, [r1], r2, lsl #1`, likewise |
| LimitCases.LoadIntoOffsetFails | recompiler/lift.py:355-377 | `ldr r2, [r1, r2]!`, likewise |
| LimitCases.StaleCarryFails | recompiler/lift.py:249-264 | `movs r0, r1, lsr #1` on an odd value, likewise in C |
| LimitCases.MulLongFlagsFails | recompiler/lift.py:233-239 | `umulls r0, r3, r1, r2` on a zero, likewise in Z |
| LimitCases.BlxLrFails | recompiler/lift.py:154-161 | `blx lr` with lr at 0 goes to 0 on the ARM machine and to the next address in the emitted C |
| LimitCases.LoadPcWritebackFails | recompiler/lift.py:360-364 | `ldr pc, [r1], #4` goes to the word at r1 on the ARM machine and to the word after it in the emitted C |
| LimitCases.UnshiftedTableFails | recompiler/lift.py:488-507 | `ldr pc, [pc, r2]` before a table is lowered to a switch; with 4 in r2 the ARM machine goes to entry 1 and the switch to entry 4 |
| LimitCases.MarkedCallFails | recompiler/lift.py:169-172 | `movne lr, pc; bx r1` with Z set and lr elsewhere: the callee takes the ARM machine there, and the emitted code goes on with the next line |
| HeapHistory.HeapSafeAlways | runtime/src/heap.c:17-60 | after any sequence of allocations, frees and writes to live payloads on a fresh heap, headers tile [base, brk) exactly, payloads are 8-aligned, in range and disjoint, and the pointers returned are those of the abstract heap |
| HeapHistory.HeapSafeBelow2GiB | runtime/src/heap.c:17-60 | the same from bounds a caller can check: the heap ends 16 bytes below 2 GiB and no request reaches 2 GiB |
| HeapHistory.ModestNeverWraps | runtime/src/heap.c:40 | under those bounds the new frontier never wraps |
| HeapHistory.HistoryRefines | runtime/src/heap.c:23-60 | the heap in guest bytes refines the ordered list of cells over every history; sizes never change and the frontier never decreases |
| HeapHistory.HeapSafe | runtime/src/heap.c:23-60 | what any represented heap guarantees: exact tiling, positive sizes that are multiples of 8, disjoint payloads |
| HeapHistory.StepKeepsPayload | runtime/src/heap.c:23-60 | no allocator call alters a byte of a live payload |
| HeapHistory.AllocExact | runtime/src/heap.c:23-46 | for every request on every represented heap, the code allocates as the abstract heap does if and only if the new frontier does not wrap, or the request rounds up to 2^32 and 8 bytes are not available either, or the block would reach from the last header position of the address space round to itself, or the rounded base and the wrapped frontier are both past the end |
| HeapHistory.WrapHandsOutTooMuch | runtime/src/heap.c:40-45 | a concrete request that wraps: a block is handed out and the frontier moves back |
| HeapModel.AllocRefines | runtime/src/heap.c:23-46 | allocation takes the lowest free cell that fits, else appends at the frontier, else returns 0 and changes nothing |
| HeapHistory.AllocZeroedRefines | runtime/src/heap.c:48-55 | zeroed allocation is that allocation with the requested bytes zero and every other payload unchanged |
| HeapHistory.FreeRefines | runtime/src/heap.c:57-60 | freeing marks exactly the cell of that block; null does nothing |
| HeapModel.PayloadsDisjoint | runtime/src/heap.c:23-46 | payloads of different cells do not overlap each other or the headers |
| HeapModel.WalkFinds | runtime/src/heap.c:26-38 | the walk over headers in memory finds the first fit of the cell list |
| Heap.GuestHeap.Alloc | runtime/src/heap.c:23-46 | the walking loop and the in-place header writes are the allocation on values, and keep the heap invariant |
| Heap.GuestHeap.AllocZeroed | runtime/src/heap.c:48-55 | the zeroing loop, likewise |
| Heap.GuestHeap.Free | runtime/src/heap.c:57-60 | the in-place free, likewise |
| KernelProofs.RunTrapCorrect | runtime/src/kernel.c:43-64 | for every nested guest program `ngage_run` restores the trap depth; after a leave it returns the reason, cuts the cleanup stack to the smaller of the entry level and the level at the leave, and freed exactly the entries above, top first, once each, despite the second unwind |
| KernelProofs.LeaveCorrect | runtime/src/kernel.c:43-64 | with distinct live entries pushed since the trap, a leave frees exactly their cells and the heap invariant holds afterwards |
| KernelProofs.HeapSurvives | runtime/src/hle/euser.c:46-96 | under every nested guest program of shim calls the heap keeps refining its cells |
| KernelProofs.ExecLogged | runtime/src/hle/euser.c:46-109 | a program changes the heap only by the operations it logs |
| KernelProofs.UnwindFreesOnce | runtime/src/kernel.c:31-36 | unwinding distinct live entries is admissible and frees exactly their cells |
| KernelProofs.Unwinds | runtime/src/kernel.c:31-36 | unwinding pops down to the level and frees what it pops, top first |
| KernelProofs.ExecTraps | runtime/src/kernel.c:43-64 | a program ends with the trap frames it started with, or jumps to the innermost of them |
| Kernel.Kernel.CleanupPush | runtime/src/kernel.c:22-25 | pushes in place, dropping the pointer when 1024 are held |
| Kernel.Kernel.CleanupPop | runtime/src/kernel.c:26-28 | pops in place, or returns 0 |
| Kernel.Kernel.CleanupUnwindTo | runtime/src/kernel.c:31-36 | the loop pops and frees exactly the entries above the level, whatever they point at; the heap stays intact if they are live |
| Kernel.Kernel.Leave | runtime/src/kernel.c:58-64 | records the reason, unwinds and jumps; without a trap it returns to the program |
| Kernel.Kernel.AllocShim | runtime/src/hle/euser.c:48-65 | allocation into r0, leaving with -4 on failure where the shim does, for every request; the heap stays intact if the request does not wrap |
| Kernel.Kernel.PopAndDestroyN | runtime/src/hle/euser.c:93-96 | the loop pops r0 entries and frees those that are not null |
| Kernel.Kernel.Delete | runtime/src/hle/euser.c:66 | frees r0, whatever it points at; the heap stays intact if it is live or null |
| Kernel.Kernel.Shim | runtime/src/hle/euser.c:48-109 | each shim on the arrays has its effect on values, whatever it frees or overwrites, and jumps exactly when it leaves; the heap stays intact if its operations are admissible |
| Kernel.Kernel.Exec | runtime/src/hle/euser.c:46-109 | programs of shim calls run on the arrays exactly as on values |
| Kernel.Kernel.RunTrap | runtime/src/kernel.c:43-56 | `ngage_run` on the arrays is the run on values |
| ShimLaws.LeaveIfErrorLaw | runtime/src/hle/euser.c:71-75 | nothing happens for any r0 that is not negative; a negative one under a trap leaves to the innermost with itself as the reason |
| ShimLaws.ExitLaw | runtime/src/hle/euser.c:108 | leaves to the innermost trap with r0, signed, as the reason |
| ShimLaws.AllocLaws | runtime/src/hle/euser.c:48-65 | `new`, `newL`, `AllocL` and the array `new` return a live block of at least r0 bytes, zeroed for the first two; with no room the second and third leave with -4 and the others return 0, the heap unchanged |
| ShimLaws.NeverJump | runtime/src/hle/euser.c:48-65 | neither `new` without a leave jumps, whatever the heap holds |
| ShimLaws.DeleteLaw | runtime/src/hle/euser.c:66 | frees exactly the cell of r0 and leaves stacks and registers alone |
| ShimLaws.PopAndDestroyLaw | runtime/src/hle/euser.c:89-92 | drops the top entry and frees exactly its cell |
| ShimLaws.PopAndDestroyNShim | runtime/src/hle/euser.c:93-96 | drops the top r0 entries, or all there are, and frees them top first |
| ShimLaws.PushPopLaw | runtime/src/kernel.c:18-28 | a push below 1024 entries puts r0 on top and a pop undoes it; at 1024 it does nothing |
| ShimLaws.TrapLimit | runtime/src/kernel.c:40-44 | the 33rd nested `ngage_run` returns -1 without running its entry, the 32nd runs it |
| DispatchModel.DepthLimit | runtime/src/dispatch.c:47-53 | a call at depth 20000 or more aborts, and any other runs its function or reports the address |
| DispatchModel.LeaveLaws | runtime/src/kernel.c:40-64 | a leave ends what follows it up to the innermost of at most 32 traps, and does nothing without one |
| DispatchModel.LeaveLosesFrame | runtime/src/dispatch.c:47-78 | a call that leaves under a caught trap never decrements: its frame stays counted |
| DispatchModel.CallsTruthful | runtime/src/dispatch.c:47-84 | on the map that Dispatch.Dispatch.Call refines: over every interleaving of registrations and calls, functions acting differently at every call included, each call ran exactly the function registered for its address before it, and was reported unregistered exactly when there was none |
| DispatchModel.CallKeepsTable | runtime/src/dispatch.c:31-40 | with distinct addresses a registration lasts through every call |
| DispatchModel.CallAccounts | runtime/src/dispatch.c:47-84 | the depth counter always equals live frames plus frames discarded by caught leaves, so a call that returns normally restores it exactly when none was discarded |
| DispatchModel.RecursionReturns | runtime/src/dispatch.c:47-84 | a function that registers another, calls itself and then the other: the calls made, and the counter back where it was |
| Dispatch.Dispatch.Register | runtime/src/dispatch.c:31-40 | appends an entry and marks the table dirty; growth loses nothing |
| Dispatch.Dispatch.Sort | runtime/src/dispatch.c:42-54 | leaves a sorted permutation |
| Dispatch.Dispatch.Find | runtime/src/dispatch.c:55-60 | binary search for the first entry at or above the address |
| Dispatch.Dispatch.Lookup | runtime/src/dispatch.c:54-61 | the function the map holds for the address, or none |
| Dispatch.Dispatch.Call | runtime/src/dispatch.c:47-84 | the re-entrant call over the array behaves as on the map when no address is registered twice, keeps the log truthful, and not dirty implies sorted throughout |
| ImageFile.PackThenLoad | recompiler/gen_image.py:19-26 | packing any packable segment list and loading the file lays exactly those segments over memory and returns their number |
| ImageFile.LoadsIff | runtime/src/image.c:14-27 | a file loads if and only if it starts with a packed segment list |
| ImageFile.RecordsLoadIff | runtime/src/image.c:19-24 | the record loop succeeds if and only if that many whole records are there, which packing reproduces byte for byte |
| ImageFile.OverlayHolds | runtime/src/image.c:19-24 | after loading disjoint segments, memory holds every byte of each |
| ImageFile.OverlayElsewhere | runtime/src/image.c:19-24 | loading changes no byte outside the segments |
| ImageFile.FoldingAgrees | recompiler/lift.py:81-86 | for every address inside one segment the lifter's read equals the runtime's read of the loaded memory |
| ImageFile.ReadWordIs | recompiler/lift.py:81-86 | a word is found exactly when some segment holds all its bytes, in the first such segment, little-endian, missing data as 0 |
| ImageFile.Layout | recompiler/gen_image.py:19-26 | the count, then start, length and bytes of each segment, in little-endian words |
| ImageFile.ShortFile | runtime/src/image.c:14-27 | a file too short for its count, a header or a record gives -1, and what was copied stays |
| ImageFile.WriteImage | recompiler/gen_image.py:19-26 | the packing loop writes that file and counts its bytes, and stops exactly on lists that cannot be packed |
| ImageFile.CopyIn | runtime/src/image.c:22 | the bytes copied in place, everything else unchanged |
| ImageFile.LoadImage | runtime/src/image.c:14-27 | the loading loop leaves the memory and return value of the load on values, partial copies of a short record included; a file that cannot be opened changes nothing |
| Literals.TranslationOverImage | recompiler/lift.py:309-316 | the whole translation theorem, flags and staleness included, for a packed and loaded image: unmodified literal and table bytes suffice, and for a table load other than `lsl #2` that the entry it reads leads where the selected one does |
| Literals.FoldedLiteralIntact | recompiler/lift.py:310-316 | folding a pc-relative load keeps its meaning in every state whose literal bytes are unmodified since loading |
| Literals.TableIsLongestPrefix | recompiler/lift.py:497-504 | the recovered targets are the longest prefix, up to 256 words, of the table whose words are local instruction addresses |
| Literals.JumpTableLowering | recompiler/lift.py:182-187 | any word load into pc off pc by a register, under any condition, and any index up to which the words behind it are local: when the condition passes the lifted line goes to the instruction one ARM step reaches, always for `ldr pc, [pc, rN, lsl #2]`, and for any other shift or sign whenever the load reads the entry the index selects |
| Imports.Generate | recompiler/gen_hle.py:138-154 | each import is routed to its shim or to a stub of its own, and each is counted once |
| Imports.RouteIs | recompiler/gen_hle.py:138-154 | the shim is looked up by the name without a leading `__imp_`; an import without one gets the stub of its own number |
| Imports.HleInit | recompiler/gen_hle.py:157-162 | the generated loop writes and registers every slot, in place |
| Imports.ImportsWired | recompiler/gen_hle.py:139-162 | with slots a word apart and not otherwise registered, every slot reads back as its own address and a call to it runs the shim chosen for it |
| Imports.InitElsewhere | recompiler/gen_hle.py:159-161 | initialisation changes no byte outside the slots |
| Imports.InitRecorded | recompiler/gen_hle.py:159-161 | the registrations of the init loop keep the log and the map of the dispatch table in step |
| Imports.LiftedImportCall | recompiler/gen_hle.py:157-162 | where calls go through the initialised table, the lifted lines load-slot, load-through-slot, call by `bx` or `blx` run the host function registered for the shim of that import, and have its effect |
| Imports.LiftedImportRun | recompiler/gen_hle.py:157-162 | run from the first of the three lines, a lifted function that jumps through the slot with `bx` runs the shim of that import and returns with it |
| Imports.LiftedImportLink | docs/SYMBIAN-HLE.md:42-51 | the documented sequence with `blx`: the shim runs with lr at the next instruction, and the function goes on there when it returns |
| Imports.LiftedImportIdiom | recompiler/lift.py:169-172 | the sequence with `mov lr, pc` and `bx`, under any two conditions of which the second entails the first: when the `bx` is carried out the shim runs with lr at the instruction after it, and the function goes on there when it returns |
| Abi.SaveRestore | recompiler/lift.py:381-402 | for any register list without sp: push, any code that restores sp and leaves the saved words, then pop restores every listed register and sp, and pops the entry lr as the return address |
| CallTree.CallKeepsAbi | runtime/src/dispatch.c:62-75 | over every call tree of such functions, a call that returns passes dispatch's check of r4-r11 and sp |
| CallTree.AbiKeptIs | runtime/src/dispatch.c:62-75 | that check, register by register: r4 to r11 and sp are what they were |
| CallTree.LiftedShape | recompiler/lift.py:381-402 | a decoded function that pushes a list, returns by popping it and writes no other callee-saved register is lifted to code of the required shape |
| CallTree.EmitShape | recompiler/lift.py:147-207 | an emitted line writes only registers its instruction writes, and returns only if it leaves the function |
| CallTree.EmitWrites | recompiler/lift.py:147-207 | and the converse: the line writes every register its instruction writes, and returns if it leaves |
| CallTree.EpilogueReturnsToCaller | recompiler/lift.py:389-402 | an intact frame makes the epilogue return-disciplined |

## Left out

- Decoding, mnemonic parsing and instruction groups: instructions come decoded, as data; assumed of the decoder are that it does not class loads and pops into pc as jumps, and that it gives a rotation through carry an amount, without which `recompiler/lift.py:117` would not see it.
- The text of the emitted C, its comments and file headers: the statement tree is modelled.
- Thumb code, rotate-through-carry operands, `adc`, `sbc`, `rsc` and other stubs: emitted as `SUnimplemented`, and `ngage_unimplemented` ends the modelled run there, unfinished.
- Correctness.TranslationCorrect: says nothing of runs that call an unregistered address, leave through lifted frames, or hit the 20000-call abort; the abort is part of the dispatch model only.
- Arm.Exec: C after a flag-setting multiplication, and V after a long one, are UNPREDICTABLE in ARMv4 and chosen by the environment; unaligned accesses have no step.
- CallTree.CallKeepsAbi: covers frames saved by push and restored by pop; other prologues are not of the required shape.
- Kernel.Kernel.Exec: requires that the operations of the program are admissible, since an allocation after a stray free or write may walk corrupted headers for ever.
- Kernel.Kernel.RunTrap: the same requirement for the operations of its entry.
- Constant shifts of 32 and more, which the C standard leaves undefined as rendered: excluded by the side conditions, without a theorem on when the emitted C is right.
- Callbacks: a function outside the lifted code is one opaque step on both sides, so one that calls back into lifted code, as the scheduler's shims do, is not covered.
- cpsr is four named flags and a rest that nothing changes, in place of bit positions in one word.
- Heap: a walk over headers the guest has overwritten is outside the representation, and so are double frees of a reused block.
- Dispatch: an address registered twice leaves the outcome of a call open, since `qsort` is unstable; the table is sorted here by a verified insertion sort.
- Kernel: C++ destructors on cleanup, guest-level nested TRAPs and the panic report are not modelled; a panic is a leave like `Exit`.
- ImageFile.LoadImage: requires every record to lie inside the guest window, which the source does not check.
- `ngage_vcall`, the trace and stack arrays, the memory guard and watchpoints: debugging aids or one-line wrappers.
- memcpy, memset, descriptors, bitmaps, file server, window server, media, soft-float and the scheduler: short shims over host services that would only add easy members.
