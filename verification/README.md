# Verified models of the HotSpot amd64 interpreter and assembler

A Dafny model of the code generators and runtime routines that carry the hardest invariants of the
amd64 port of the JDK 5 HotSpot virtual machine (`jdk5.0_src/hotspot/src/cpu/amd64/vm`), with proofs
that those invariants hold. `dafny verify dfyconfig.toml` checks everything.

Protocols that several threads run are state machines whose steps are single instructions on shared
memory; a run is any sequence of steps by any number of threads. Code that works step by step on
buffers, frames and registers is imperative: classes and methods with loops, each proved against a
specification that does not come from its body.

| files | subject |
|---|---|
| `Words` | powers of two, 64-bit subtraction, bitwise AND and the page mask of the recursion test |
| `ThinLock`, `ThinLockProofs`, `ThinLockTheorems` | stack-locking in `lock_object` and `unlock_object` |
| `MonitorSlots`, `MonitorOrder` | the monitor slots of a frame and the order in which they are released |
| `RemoveActivation`, `FrameReleases` | unlocking whatever a frame still holds, and the same seen in the locking protocol of all threads |
| `Eden`, `EdenProofs`, `EdenTheorems` | allocation by CAS and from thread-local buffers, refill with filler arrays |
| `DeoptFrames` | frames pushed by the deoptimizer, found again by the stack walker and left by returns |
| `Rewriting`, `RewritingProofs`, `RewritingTheorems` | bytecodes that rewrite themselves, and fused pairs |
| `Options`, `CodeBytes` | optional values; bytes, jints and little-endian fields |
| `Labels`, `Assembly` | labels and fixup chains threaded through the code, against a two-pass assembler |
| `Operands`, `Instructions`, `Parser` | operand and instruction encoding against a decoder; `locate_operand` |
| `DataRelocations` | addresses in displacements and 64-bit immediates, got and set |
| `Patching` | patching calls and jumps that other threads execute |
| `FastGetField` | the fast JNI getters against safepoints |
| `CallingConvention`, `SignatureHandlers`, `SlowSignature` | native calls: generated and slow signature handlers against the ABI |
| `LongArithmetic` | 64-bit arithmetic on 32-bit register pairs (i486) |
| `Subtypes`, `SubtypeChecks` | the subtype tables of classes and arrays, and the check with its cache |
| `Switches` | linear and binary search of lookupswitch tables |

## Assumptions

- Memory is sequentially consistent; a store within one aligned 8-byte line is one change, and an
  instruction is fetched at one instant, as nativeInst_amd64.cpp:146-148 and 161-162 assume.
- A thread's stack is at least a page away from every other thread's.
- The runtime's slow path for locking (`share/vm/runtime/synchronizer.cpp:292-350`) waits while another
  thread owns the object; a failed allocation goes to the runtime and changes nothing.
- Callers of `tlab_allocate` ask for less than would carry the buffer's top past 2^64, and no buffer has 2^28 + 3
  words or more, though max_size() allows it (`EdenProofs.CapIsEnoughIff`); eden ends at least 2^35 bytes below
  2^64, so that the sum in `_new` does not wrap around.
- Emitted code stays below 2 GB, and positions in label chains below 2^22, as `Displacement::init` asserts.
- Cloneable and Serializable extend no other interface.
- Decoders and conventions are stated from their standards: the Intel SDM Volume 2 (sections 2.1.5 and
  2.2.1), the System V AMD64 ABI (section 3.2.3) and the Java Virtual Machine Specification (section 6.5).

## Where the code falls short of its intent

Each of these is proved with its exact condition, or with a concrete input.

- `tlab_refill`: the filler array has the right size if and only if the free space is below 2^28 words;
  beyond that its length in bytes overflows a jint (`EdenProofs.FillerCovers`).
- `ThreadLocalAllocBuffer::max_size` is meant to keep buffers fillable, but a cap does so if and only if it is below
  2^28 + 3 words, and max_size() is nearly four times that (`EdenProofs.CapIsEnoughIff`).
- `tlab_refill`: the bound on how often a buffer is retained holds in all runs if and only if the increment of the
  waste limit, a flag, is positive and at most 2^63 minus the free words of the largest buffer: with 0 a buffer is
  retained for ever, and a larger one can make the limit negative (`EdenTheorems.RetainsIffRaised`,
  `EdenTheorems.RetainedForEver`, `EdenTheorems.RetainsAreBounded`).
- `tlab_allocate` has no wrap check: what passes fits if and only if top + bytes is below 2^64
  (`EdenTheorems.TlabCheckIsSound`, `EdenTheorems.TlabCheckCanWrap`).
- A frame that the deoptimizer pushes with two words keeps no link to its sender: the walker finds all frames,
  whatever the pcs are, if and only if each has three words (`DeoptFrames.UnrollThenWalk`,
  `DeoptFrames.ThreeWordsForAllPcs`, `DeoptFrames.TwoWordFrameIsLost`).
- `fast_icaload` looks for the handler of its caload's exception at the iload's index: it is faithful if and only if
  the exception table has the same handlers for both (`RewritingTheorems.FusedIffAlike`,
  `RewritingTheorems.HandlerIsLost`).
- `NativeGeneralJump::replace_mt_safe` does not check alignment: it is safe if and only if there is one processor
  or the first four bytes lie in one line (`Patching.ReplaceIsSafeIffInLine`).
- A jump that is set to go to itself reads back as -1 (`Patching.JumpRoundTrip`).
- `pd_get_address_from_code` is not the processor's address for an instruction with an immediate
  (`DataRelocations.DataIsTarget`); an address further than 2 GB away is set truncated
  (`DataRelocations.SetDataValue`).
- `mull` with a memory operand drops the high bit of its registers (`Instructions.EmitMull`).
- `locate_operand` has no row for movslq (`Parser.ParserAgrees`).
- The 32-bit safepoint counter may wrap around during a getter: a stale value is possible if and only if
  2^32 increments are (`FastGetField.StaleIffWrapped`).
- The short backward form of `jmp` and `jcc` to a label is dead code: a bound label is never ahead, and
  `isByte` accepts only 0..255 (share/vm/asm/assembler.hpp:130). The model keeps the branch and proves
  that it is not taken.
- The second guarantee of `check_verified_entry_alignment` follows from the first (`Patching.EntryAlignment`).

## Model

| member | source | states |
|---|---|---|
| `ThinLockProofs.StackTestMeaning` | jdk5.0_src/hotspot/src/cpu/amd64/vm/interp_masm_amd64.cpp:686-696 | the one AND of the recursion test is zero exactly for an 8-aligned mark within one page above rsp, for every page size of 2^3 to 2^30 |
| `ThinLockProofs.StepKeepsInv` | jdk5.0_src/hotspot/src/cpu/amd64/vm/interp_masm_amd64.cpp:647-780 | every instruction-level step of locking and of unlocking any slot in any order, by any thread at any nesting depth, keeps the protocol's invariant |
| `ThinLockTheorems.MutualExclusion` | jdk5.0_src/hotspot/src/cpu/amd64/vm/interp_masm_amd64.cpp:647-780 | in every run of any number of threads, two threads never occupy the same object |
| `ThinLockTheorems.MarkShape` | jdk5.0_src/hotspot/src/cpu/amd64/vm/interp_masm_amd64.cpp:647-780 | a mark is either the neutral header of an object nobody holds, or the owner's first slot, which stores the header while all later slots store 0 |
| `ThinLockTheorems.HeaderConserved` | jdk5.0_src/hotspot/src/cpu/amd64/vm/interp_masm_amd64.cpp:724-780 | between two unlocked moments the header is the same bit for bit, whatever locking went on in between |
| `ThinLockTheorems.OnlyContentionWaits` | jdk5.0_src/hotspot/src/cpu/amd64/vm/interp_masm_amd64.cpp:724-780 | the CAS of unlocking never fails, and only slow_enter can wait, for another owner |
| `ThinLockTheorems.TestDecidesRecursion` | jdk5.0_src/hotspot/src/cpu/amd64/vm/interp_masm_amd64.cpp:686-702 | the test answers recursive only for an object the thread holds, and does so whenever the slot is within a page |
| `ThinLockTheorems.EntriesAreValid` | jdk5.0_src/hotspot/src/cpu/amd64/vm/interp_masm_amd64.cpp:566-618 | in whatever order a thread releases its slots, an entry still there is recursive or its object's mark points to it, and a slot left behind by its object's release stores 0 |
| `ThinLockTheorems.LeftSlotsAreInert` | jdk5.0_src/hotspot/src/cpu/amd64/vm/interp_masm_amd64.cpp:566-618 | a slot left behind is no object's mark, so that clearing it unlocks nothing |
| `ThinLockTheorems.OthersLeaveMarks` | jdk5.0_src/hotspot/src/cpu/amd64/vm/interp_masm_amd64.cpp:724-780 | no step of another thread changes the mark of an object that a thread occupies |
| `ThinLockTheorems.OthersLeaveSlots` | jdk5.0_src/hotspot/src/cpu/amd64/vm/interp_masm_amd64.cpp:724-780 | no step of another thread changes a thread's slots or registers |
| `MonitorSlots.Frame.MonitorEnter` | jdk5.0_src/hotspot/src/cpu/amd64/vm/templateTable_amd64.cpp:3471-3554 | takes the free slot closest above the topmost slot of the object or grows the block; the expression stack and all other words keep their contents |
| `MonitorSlots.Frame.Grow` | jdk5.0_src/hotspot/src/cpu/amd64/vm/templateTable_amd64.cpp:3519-3540 | moves the expression stack down by one entry unchanged and moves no live slot |
| `MonitorSlots.Frame.MonitorExit` | jdk5.0_src/hotspot/src/cpu/amd64/vm/templateTable_amd64.cpp:3557-3604 | frees the topmost slot of the object, or reports an illegal monitor state and changes nothing |
| `MonitorSlots.Frame.LockMethod` | jdk5.0_src/hotspot/src/cpu/amd64/vm/interpreter_amd64.cpp:667-721 | puts a synchronized method's object into the first slot of the frame |
| `MonitorOrder.ExitIsMostRecent` | jdk5.0_src/hotspot/src/cpu/amd64/vm/templateTable_amd64.cpp:3471-3604 | when slots and acquisitions agree, the topmost slot of an object is its most recent acquisition, and there is one exactly when one is pending |
| `MonitorOrder.RunAgrees` | jdk5.0_src/hotspot/src/cpu/amd64/vm/templateTable_amd64.cpp:3471-3604 | any sequence of monitorenter and monitorexit keeps slots and acquisitions in agreement |
| `MonitorOrder.EveryExitIsMostRecent` | jdk5.0_src/hotspot/src/cpu/amd64/vm/templateTable_amd64.cpp:3471-3604 | from a new frame, with or without a method lock, every monitorexit releases the most recent acquisition |
| `MonitorOrder.RunFrame` | jdk5.0_src/hotspot/src/cpu/amd64/vm/templateTable_amd64.cpp:3471-3604 | any sequence of monitorenter and monitorexit on a frame in memory leaves the slots that the run of the slot machine has, the agreement, and the expression stack unchanged |
| `RemoveActivation.Activation.UnlockObject` | jdk5.0_src/hotspot/src/cpu/amd64/vm/interp_masm_amd64.cpp:724-780 | frees the entry, puts the header back unless the entry is recursive, and says when the runtime is needed |
| `RemoveActivation.Activation.UnlockRest` | jdk5.0_src/hotspot/src/cpu/amd64/vm/interp_masm_amd64.cpp:566-618 | the restart loop ends, since each round frees one occupied entry, and leaves none |
| `RemoveActivation.Activation.Remove` | jdk5.0_src/hotspot/src/cpu/amd64/vm/interp_masm_amd64.cpp:497-618 | unwinding leaves every slot empty and puts back exactly the headers of the outermost entries, in whatever order locks were left and whatever other threads do meanwhile; a normal return throws exactly when locking was not block-structured; the do-not-unlock flag keeps all monitors |
| `RemoveActivation.FreeingCounts` | jdk5.0_src/hotspot/src/cpu/amd64/vm/interp_masm_amd64.cpp:566-618 | freeing an occupied slot lowers the loop's measure by one |
| `FrameReleases.FrameIsValid` | jdk5.0_src/hotspot/src/cpu/amd64/vm/interp_masm_amd64.cpp:566-618 | in every state of the locking protocol, each occupied entry of a frame is recursive or its object's mark points to it |
| `FrameReleases.OthersUndisturb` | jdk5.0_src/hotspot/src/cpu/amd64/vm/interp_masm_amd64.cpp:724-780 | a step of another thread changes no entry of a frame and no mark of an object whose outermost entry is in it |
| `FrameReleases.OthersBetween` | jdk5.0_src/hotspot/src/cpu/amd64/vm/interp_masm_amd64.cpp:566-618 | nor does any sequence of them between two operations of the frame's thread |
| `FrameReleases.ReleaseIsUnlockObject` | jdk5.0_src/hotspot/src/cpu/amd64/vm/interp_masm_amd64.cpp:724-780 | in every run, with any steps of other threads between its instructions, the release of any entry frees that entry alone, puts an outermost entry's header back at one moment, disturbs no other outermost entry and never needs the runtime |
| `EdenProofs.TriesAreSound` | jdk5.0_src/hotspot/src/cpu/amd64/vm/assembler_amd64.cpp:6598-6632 | eden_allocate proceeds exactly when the object fits, for every size, because of its unsigned wrap check; _new does when the sum cannot wrap |
| `EdenProofs.StepKeepsInv` | jdk5.0_src/hotspot/src/cpu/amd64/vm/assembler_amd64.cpp:6598-6773 | every step of allocation, by CAS or from a buffer, and of refill, with each thread's own and changing buffer size, keeps eden exactly tiled |
| `EdenProofs.FillerCovers` | jdk5.0_src/hotspot/src/cpu/amd64/vm/assembler_amd64.cpp:6724-6740 | for every free space that a buffer can have, the filler array covers it and the reserve exactly, if and only if it is below 2^28 words |
| `EdenProofs.CapIsEnoughIff` | jdk5.0_src/hotspot/src/share/vm/memory/threadLocalAllocBuffer.cpp:226-240 | a cap on buffer sizes lets in only buffers that the filler can fill if and only if it is below 2^28 + 3 words, and max_size() is above that |
| `EdenTheorems.ObjectsDisjoint` | jdk5.0_src/hotspot/src/cpu/amd64/vm/templateTable_amd64.cpp:3193-3247 | in every interleaving all objects handed out lie in eden and do not overlap |
| `EdenTheorems.ObjectsStay` | jdk5.0_src/hotspot/src/cpu/amd64/vm/assembler_amd64.cpp:6598-6665 | eden's top never decreases and an object keeps its place for the rest of the run |
| `EdenTheorems.EdenIsParsable` | jdk5.0_src/hotspot/src/cpu/amd64/vm/assembler_amd64.cpp:6667-6773 | a walk over the objects of a retired buffer ends exactly where the next block starts; a live buffer's usable end plus the reserve is the end of its block |
| `EdenTheorems.EdenUsed` | jdk5.0_src/hotspot/src/cpu/amd64/vm/assembler_amd64.cpp:6598-6632 | what eden has used is the sum of direct allocations and buffers |
| `EdenTheorems.TlabCheckIsSound` | jdk5.0_src/hotspot/src/cpu/amd64/vm/assembler_amd64.cpp:6635-6665 | what passes tlab_allocate's check fits in the buffer, if and only if top + bytes is below 2^64 |
| `EdenTheorems.TlabCheckCanWrap` | jdk5.0_src/hotspot/src/cpu/amd64/vm/assembler_amd64.cpp:6635-6665 | a concrete request that passes tlab_allocate's check though it does not fit |
| `EdenTheorems.RetainsIffRaised` | jdk5.0_src/hotspot/src/cpu/amd64/vm/assembler_amd64.cpp:6686-6710 | a buffer with any limit is retained fewer than (free - limit) / increment + 1 times in a row, if and only if the increment is positive and at most 2^63 minus its free words |
| `EdenTheorems.RetainedForEver` | jdk5.0_src/hotspot/src/cpu/amd64/vm/assembler_amd64.cpp:6686-6710 | with an increment of 0, a buffer that is retained once is retained any number of times |
| `EdenTheorems.RetainsAreBounded` | jdk5.0_src/hotspot/src/cpu/amd64/vm/assembler_amd64.cpp:6686-6710 | so it is at every moment of every run, if and only if the increment is positive and at most 2^63 minus the free words of the largest buffer that eden has room for |
| `DeoptFrames.Stack.Unroll` | jdk5.0_src/hotspot/src/cpu/amd64/vm/runtime_amd64.cpp:361-410 | pops the deoptimized frame and pushes the interpreter frames, each with its pc, its link and the word that is left of its sender's sp, without touching the caller's words |
| `DeoptFrames.Stack.PushFrames` | jdk5.0_src/hotspot/src/cpu/amd64/vm/runtime_amd64.cpp:584-630 | the loop that pushes the frames, for any number of frames and any sizes that hold a pc and a frame pointer |
| `DeoptFrames.WalkFrom` | jdk5.0_src/hotspot/src/cpu/amd64/vm/frame_amd64.cpp:131-142 | repeating sender_for_interpreter_frame finds the pushed frames in reverse |
| `DeoptFrames.UnrollThenWalk` | jdk5.0_src/hotspot/src/cpu/amd64/vm/runtime_amd64.cpp:361-410 | unrolling and then walking finds exactly the described frames, youngest first, and ends at the caller's unextended sp, if and only if every frame has three words or happens to be followed by a pc equal to its sender's sp; rsp moves by the sum of the sizes and the adjustment |
| `DeoptFrames.RecoversIffKept` | jdk5.0_src/hotspot/src/cpu/amd64/vm/frame_amd64.cpp:131-142 | the frames that the walk reports are the described ones just if every frame keeps its link |
| `DeoptFrames.ThreeWordsForAllPcs` | jdk5.0_src/hotspot/src/cpu/amd64/vm/runtime_amd64.cpp:384-406 | the frames of an unroll block keep their links whatever the pcs are, if and only if every size is at least three words |
| `DeoptFrames.TwoWordFrameIsLost` | jdk5.0_src/hotspot/src/cpu/amd64/vm/runtime_amd64.cpp:392-406 | a concrete unroll block with a frame of two words that the builder takes and whose link is lost |
| `DeoptFrames.Stack.RemoveFrame` | jdk5.0_src/hotspot/src/cpu/amd64/vm/interp_masm_amd64.cpp:629-635 | leave, popq and the move to rsp give a frame's caller exactly what the walker reports as its sender |
| `DeoptFrames.ReturnFromAll` | jdk5.0_src/hotspot/src/cpu/amd64/vm/interp_masm_amd64.cpp:629-635 | returning from all frames of the deoptimizer, one after the other, ends with the caller's unextended sp, its frame pointer and its pc |
| `RewritingProofs.ILoadChoosesFinal` | jdk5.0_src/hotspot/src/cpu/amd64/vm/templateTable_amd64.cpp:358-413 | whatever an iload sees behind it, at whatever moment, it installs the one final bytecode, and only before a successor that is final |
| `RewritingProofs.ALoadChoosesFinal` | jdk5.0_src/hotspot/src/cpu/amd64/vm/templateTable_amd64.cpp:650-726 | the same for aload_0 |
| `RewritingProofs.PatchKeepsPairs` | jdk5.0_src/hotspot/src/cpu/amd64/vm/templateTable_amd64.cpp:117-157 | no patch ever invalidates a pair that is installed |
| `RewritingProofs.StepKeepsInv` | jdk5.0_src/hotspot/src/cpu/amd64/vm/templateTable_amd64.cpp:358-413 | every micro-step of execution and rewriting keeps the invariant of the code |
| `RewritingTheorems.PairEffect` | jdk5.0_src/hotspot/src/cpu/amd64/vm/templateTable_amd64.cpp:2785-2830 | one fused step of fast_iload2 or fast_xaccess is two steps of the loaded bytecodes |
| `RewritingTheorems.ICaloadEffect` | jdk5.0_src/hotspot/src/cpu/amd64/vm/templateTable_amd64.cpp:590-605 | one step of fast_icaload is two loaded steps if and only if the caload does not throw or the exception table has the same handler for both bytecode indices |
| `RewritingTheorems.FusedIffAlike` | jdk5.0_src/hotspot/src/share/vm/oops/methodOop.cpp:54-94 | fast_icaload does what the two loaded bytecodes do, in every state, if and only if the exception table treats iload and caload alike for every such pair of the method |
| `RewritingTheorems.StepSimulated` | jdk5.0_src/hotspot/src/cpu/amd64/vm/templateTable_amd64.cpp:117-157 | each micro-step is no, one or two steps of the same thread in the original program, unless it is a fast_icaload whose caload throws to a different handler |
| `RewritingTheorems.RunSimulated` | jdk5.0_src/hotspot/src/cpu/amd64/vm/templateTable_amd64.cpp:117-157 | every run of the self-modifying program, by any threads and with any jumps, exceptions and rewrites, is a run of the original program, for every method whose exception table treats its pairs of iload and caload alike |
| `RewritingTheorems.HandlerIsLost` | jdk5.0_src/hotspot/src/cpu/amd64/vm/templateTable_amd64.cpp:590-605 | a method of which a thread, after another one has rewritten it, comes to a handler that no run of the original program reaches |
| `RewritingTheorems.PairsAreForGood` | jdk5.0_src/hotspot/src/cpu/amd64/vm/templateTable_amd64.cpp:358-413 | an installed pair always sits before the successor it was fused with |
| `RewritingTheorems.FinalStays` | jdk5.0_src/hotspot/src/cpu/amd64/vm/templateTable_amd64.cpp:358-413 | a final bytecode is never rewritten again |
| `Labels.DisplacementRoundTrip` | jdk5.0_src/hotspot/src/cpu/amd64/vm/assembler_amd64.hpp:224-292 | the three fields of a Displacement come back from its jint, also from a negative one |
| `Labels.BoundBranchDecodes` | jdk5.0_src/hotspot/src/cpu/amd64/vm/assembler_amd64.cpp:4678-4730 | a branch to a bound label decodes to the label's position |
| `Labels.ChainsDescend` | jdk5.0_src/hotspot/src/cpu/amd64/vm/assembler_amd64.hpp:195-305 | the chain in the code has strictly decreasing positions and visits branches to one label only |
| `Labels.Assembler.EmitBranch` | jdk5.0_src/hotspot/src/cpu/amd64/vm/assembler_amd64.cpp:4565-4584 | call, jmp or jcc to a label, forward or backward, keeps the chains of all labels |
| `Labels.Assembler.Bind` | jdk5.0_src/hotspot/src/cpu/amd64/vm/assembler_amd64.cpp:48-71 | the loop over the chain ends with every branch to the label decoding to its position, and writes only the fields of those branches |
| `Assembly.Assemble` | jdk5.0_src/hotspot/src/cpu/amd64/vm/assembler_amd64.cpp:4678-4730 | for any emission sequence, once all labels are bound the one-pass code equals that of a two-pass assembler that knew every position |
| `Assembly.PatchedIsTwoPass` | jdk5.0_src/hotspot/src/cpu/amd64/vm/assembler_amd64.cpp:48-71 | a buffer whose branches are all bound is the two-pass code, byte for byte |
| `Operands.Assembler.EmitOperand` | jdk5.0_src/hotspot/src/cpu/amd64/vm/assembler_amd64.cpp:203-314 | every legal address is printed so that the independent decoder of ModRM, SIB and displacement gives it back, with rbp, r13, rsp and r12 |
| `Operands.BaseIndexPrints` | jdk5.0_src/hotspot/src/cpu/amd64/vm/assembler_amd64.cpp:213-246 | base and index with each displacement size decode to the same registers, scale and displacement |
| `Operands.StackPrints` | jdk5.0_src/hotspot/src/cpu/amd64/vm/assembler_amd64.cpp:247-267 | rsp and r12 as a base decode through the SIB byte without an index |
| `Operands.BasePrints` | jdk5.0_src/hotspot/src/cpu/amd64/vm/assembler_amd64.cpp:267-290 | a plain base decodes to itself; rbp and r13 are never printed without a displacement |
| `Operands.IndexPrints` | jdk5.0_src/hotspot/src/cpu/amd64/vm/assembler_amd64.cpp:292-303 | an index alone decodes to no base and a 32-bit displacement |
| `Operands.RipPrints` | jdk5.0_src/hotspot/src/cpu/amd64/vm/assembler_amd64.cpp:304-313 | a RIP-relative operand decodes to the distance from the operand's end to the target |
| `Instructions.EmitPrefix` | jdk5.0_src/hotspot/src/cpu/amd64/vm/assembler_amd64.cpp:929-963 | the source's nested choice yields the REX byte 0100WRXB, and no byte when it is not needed |
| `Instructions.EmitInsn` | jdk5.0_src/hotspot/src/cpu/amd64/vm/assembler_amd64.cpp:1333-1388 | every Address-taking emitter: the whole instruction decodes to its prefix, opcode, register, operand and immediate, and a RIP-relative operand resolves to its target from the instruction's end |
| `Instructions.EmitArith` | jdk5.0_src/hotspot/src/cpu/amd64/vm/assembler_amd64.cpp:168-185 | the short and the long immediate form have the same meaning |
| `Instructions.EmitMull` | jdk5.0_src/hotspot/src/cpu/amd64/vm/assembler_amd64.cpp:3140-3151 | mull, which emits no REX prefix, means its operand if and only if no register in it needs one |
| `Parser.LocateOperand` | jdk5.0_src/hotspot/src/cpu/amd64/vm/assembler_amd64.cpp:432-745 | the parser, as a loop over ip, against its table-driven specification |
| `Parser.ParserAgrees` | jdk5.0_src/hotspot/src/cpu/amd64/vm/assembler_amd64.cpp:432-745 | on every instruction an Address-taking emitter can print the parser finds the decoder's end and 32-bit displacement, except movslq, for which it finds nothing |
| `Parser.EmittedIsParsed` | jdk5.0_src/hotspot/src/cpu/amd64/vm/assembler_amd64.cpp:747-751 | locate_next_instruction returns the end of the emitted bytes, and has no row for movslq |
| `Parser.EmitAndLocate` | jdk5.0_src/hotspot/src/cpu/amd64/vm/assembler_amd64.cpp:432-751 | emitting an instruction and locating its operand: the parser comes to its end, and finds the displacement that was printed, right in front of the immediate |
| `Parser.CallIsLocated` | jdk5.0_src/hotspot/src/cpu/amd64/vm/assembler_amd64.cpp:585-640 | the 32-bit field of a call, jump or conditional jump, and its end, are found behind the opcode |
| `Parser.ImmediateIsLocated` | jdk5.0_src/hotspot/src/cpu/amd64/vm/assembler_amd64.cpp:544-547 | the 64-bit immediate of movq, and its end, are found behind prefix and opcode |
| `DataRelocations.GetAddress` | jdk5.0_src/hotspot/src/cpu/amd64/vm/relocInfo_amd64.cpp:69-86 | reads the address that the displacement encodes, or the 64-bit immediate |
| `DataRelocations.SetDataValue` | jdk5.0_src/hotspot/src/cpu/amd64/vm/relocInfo_amd64.cpp:13-28 | what is set in a 64-bit immediate is what is got; in a displacement it is so exactly when the distance fits a jint; nothing else that is decoded, and no other byte, changes |
| `DataRelocations.DataIsTarget` | jdk5.0_src/hotspot/src/cpu/amd64/vm/relocInfo_amd64.cpp:13-86 | the address got from a displacement is the one the processor uses, if and only if the instruction has no immediate |
| `DataRelocations.EmitMovq` | jdk5.0_src/hotspot/src/cpu/amd64/vm/assembler_amd64.cpp:1233-1245 | a movq with a 64-bit immediate: the parser finds the immediate and the end of the instruction, and the immediate is the one given |
| `Patching.StagesAreSafe` | jdk5.0_src/hotspot/src/cpu/amd64/vm/nativeInst_amd64.cpp:50-93 | with its first four bytes in one line a thread sees the old instruction, then spins, then sees the new one |
| `Patching.ReplaceIsSafeIffInLine` | jdk5.0_src/hotspot/src/cpu/amd64/vm/nativeInst_amd64.cpp:321-355 | for NativeGeneralJump::replace_mt_safe, which checks no alignment, every thread sees only those, for all contents, if and only if there is one processor or the first four bytes lie in one line |
| `Patching.TornView` | jdk5.0_src/hotspot/src/cpu/amd64/vm/nativeInst_amd64.cpp:321-355 | across the end of a line a thread may fetch a mixture of the old instruction and the guard |
| `Patching.ReplaceMtSafe` | jdk5.0_src/hotspot/src/cpu/amd64/vm/nativeInst_amd64.cpp:50-93 | replace_mt_safe, aligned or on one processor: the states other threads can see, in order, and no byte outside changes |
| `Patching.PatchVerifiedEntry` | jdk5.0_src/hotspot/src/cpu/amd64/vm/nativeInst_amd64.cpp:242-280 | the same for a jump over a method's entry, which then goes to the destination |
| `Patching.EntryAlignment` | jdk5.0_src/hotspot/src/cpu/amd64/vm/nativeInst_amd64.cpp:211-225 | the second guarantee on the entry follows from the first, and the five bytes lie in one line |
| `Patching.SetDestinationMtSafe` | jdk5.0_src/hotspot/src/cpu/amd64/vm/nativeInst_amd64.cpp:110-175 | a thread calls the old destination, then perhaps spins, then calls the new one, in both branches |
| `Patching.NeverShouldNotReachHere` | jdk5.0_src/hotspot/src/cpu/amd64/vm/nativeInst_amd64.cpp:110-175 | the last branch is unreachable for every address, if and only if a line has at least four bytes |
| `Patching.JumpRoundTrip` | jdk5.0_src/hotspot/src/cpu/amd64/vm/nativeInst_amd64.hpp:349-366 | a jump has the destination that was set, unless that is the jump itself |
| `Patching.SetCallDestination` | jdk5.0_src/hotspot/src/cpu/amd64/vm/relocInfo_amd64.cpp:45-66 | a relocated call, jump or conditional jump has the new destination, except that a jump to itself stays one |
| `FastGetField.StepKeepsInv` | jdk5.0_src/hotspot/src/cpu/amd64/vm/jniFastGetField_amd64.cpp:33-108 | every step of getters, safepoints, moves and mutators keeps the seqlock's invariant |
| `FastGetField.FastIsTrue` | jdk5.0_src/hotspot/src/cpu/amd64/vm/jniFastGetField_amd64.cpp:33-108 | in every run a value returned by the fast path is the field's value in the object's current location when it was loaded, if fewer than 2^32 increments fell into the call |
| `FastGetField.CounterWraps` | jdk5.0_src/hotspot/src/cpu/amd64/vm/jniFastGetField_amd64.cpp:134-198 | a run with 2^32 increments in which the fast path returns a stale value |
| `FastGetField.StaleIffWrapped` | jdk5.0_src/hotspot/src/cpu/amd64/vm/jniFastGetField_amd64.cpp:33-108 | a run with at most d increments in the call returns a stale value from the fast path, for some state and some steps, if and only if d is at least 2^32 |
| `FastGetField.FastExactly` | jdk5.0_src/hotspot/src/cpu/amd64/vm/jniFastGetField_amd64.cpp:33-108 | below 2^32 increments the getter goes fast exactly when the counter is the one it started with, and then holds the field's value |
| `FastGetField.PcLists.FindSlowcasePc` | jdk5.0_src/hotspot/src/share/vm/prims/jniFastGetField.cpp:16-23 | a fault at a getter's speculative load resumes at that getter's slow case |
| `CallingConvention.PlacesDiffer` | jdk5.0_src/hotspot/src/cpu/amd64/vm/interpreterRT_amd64.cpp:20-256 | no two arguments share a register or stack word |
| `CallingConvention.StackFits` | jdk5.0_src/hotspot/src/cpu/amd64/vm/interpreter_amd64.cpp:1142-1152 | stack arguments fit in the parameter words that the native entry reserves |
| `SignatureHandlers.SignatureHandlerGenerator.Generate` | jdk5.0_src/hotspot/src/cpu/amd64/vm/interpreterRT_amd64.cpp:20-256 | for any argument list, the code generated for each argument moves the right local to where the ABI wants it |
| `SignatureHandlers.GeneratedCodePasses` | jdk5.0_src/hotspot/src/cpu/amd64/vm/interpreterRT_amd64.cpp:20-256 | after the generated code has run, every argument is in its place at once |
| `SlowSignature.SlowSignatureHandler.Iterate` | jdk5.0_src/hotspot/src/cpu/amd64/vm/interpreterRT_amd64.cpp:359-439 | the runtime routine fills the stub's frame with every argument and marks exactly the doubles, leaving the return address |
| `SlowSignature.Reload` | jdk5.0_src/hotspot/src/cpu/amd64/vm/interpreter_amd64.cpp:312-342 | the stub reloads every argument register, with the width that the identifiers give, and does not write rarg1 for a static method |
| `SlowSignature.SlowHandler` | jdk5.0_src/hotspot/src/cpu/amd64/vm/interpreter_amd64.cpp:284-345 | the slow handler passes every argument in its ABI place and keeps its return address, whatever call_VM leaves in the registers |
| `SlowSignature.MirrorKeepsArguments` | jdk5.0_src/hotspot/src/cpu/amd64/vm/interpreter_amd64.cpp:1191-1210 | the handle of a static method's mirror, loaded into rarg1 behind the signature handler, overwrites no argument |
| `SlowSignature.HandlersAgree` | jdk5.0_src/hotspot/src/cpu/amd64/vm/interpreterRT_amd64.cpp:359-439 | for every argument list and all locals, both handlers put the same value, up to its width, in the same place, whatever was in the registers before either |
| `LongArithmetic.Lneg` | jdk5.0_src/hotspot/src/cpu/i486/vm/assembler_i486.cpp:2438-2442 | neg, adc, neg negate a long modulo 2^64 |
| `LongArithmetic.Lmul` | jdk5.0_src/hotspot/src/cpu/i486/vm/assembler_i486.cpp:2445-2483 | the product modulo 2^64, on the quick path too |
| `LongArithmetic.ShiftLeft` | jdk5.0_src/hotspot/src/cpu/i486/vm/assembler_i486.cpp:2486-2504 | shldl and shll, bit by bit, multiply a pair by a power of two |
| `LongArithmetic.Lshl` | jdk5.0_src/hotspot/src/cpu/i486/vm/assembler_i486.cpp:2486-2504 | x times 2^(s mod 64), modulo 2^64, for every shift count |
| `LongArithmetic.ShiftRight` | jdk5.0_src/hotspot/src/cpu/i486/vm/assembler_i486.cpp:2507-2526 | shrdl and sarl or shrl, bit by bit, take the floor of a pair divided by a power of two |
| `LongArithmetic.Lshr` | jdk5.0_src/hotspot/src/cpu/i486/vm/assembler_i486.cpp:2507-2526 | the floor of x / 2^(s mod 64), signed or unsigned, for every shift count |
| `LongArithmetic.Lcmp2int` | jdk5.0_src/hotspot/src/cpu/i486/vm/assembler_i486.cpp:2530-2553 | -1, 0 or 1 as the signed longs compare |
| `Subtypes.DisplayMeans` | jdk5.0_src/hotspot/src/share/vm/oops/klass.cpp:168-198 | for classes, interfaces and arrays of any dimension, the display of a type holds exactly its primary supers, each at its depth |
| `Subtypes.SecondariesMean` | jdk5.0_src/hotspot/src/share/vm/oops/klass.cpp:222-264 | the secondary supers of a type, with overflowing supers and without duplicates, decide the subtype relation for everything that is not primary |
| `Subtypes.ComputedMean` | jdk5.0_src/hotspot/src/share/vm/oops/objArrayKlass.cpp:204-242 | what compute_secondary_supers gives are supertypes, and among interfaces and arrays of interfaces exactly the supertypes |
| `Subtypes.InitializeSecondaries` | jdk5.0_src/hotspot/src/share/vm/oops/klass.cpp:222-264 | the loops that leave room, skip duplicates, fill from the end and pack give exactly the secondary supers |
| `SubtypeChecks.ScanFinds` | jdk5.0_src/hotspot/src/cpu/amd64/vm/interp_masm_amd64.cpp:227-236 | the scan sets Z exactly when it finds the word, also in an empty list |
| `SubtypeChecks.StepKeepsInv` | jdk5.0_src/hotspot/src/cpu/amd64/vm/interp_masm_amd64.cpp:195-243 | every step of every check keeps all caches true |
| `SubtypeChecks.AnswersAreRight` | jdk5.0_src/hotspot/src/cpu/amd64/vm/interp_masm_amd64.cpp:195-243 | after any history of checks by any threads, on classes, interfaces and arrays, every answer is that of the subtype relation, and a cache only holds a true secondary super |
| `Switches.SwappedKey` | jdk5.0_src/hotspot/src/cpu/amd64/vm/templateTable_amd64.cpp:1851-1888 | comparing the byte-swapped key with a raw table word is comparing the key with the operand |
| `Switches.FastLinearSwitch` | jdk5.0_src/hotspot/src/cpu/amd64/vm/templateTable_amd64.cpp:1851-1888 | goes on at the target of the last matching pair, or at the default |
| `Switches.BinarySearch` | jdk5.0_src/hotspot/src/cpu/amd64/vm/templateTable_amd64.cpp:1893-1969 | the loop keeps both invariants of its comment, for a key in the table's range and for one below all of it, and ends |
| `Switches.FastBinarySwitch` | jdk5.0_src/hotspot/src/cpu/amd64/vm/templateTable_amd64.cpp:1890-1997 | on a strictly sorted, nonempty table it chooses the same target as the linear search, for every key |

## Left out

- Lock inflation, waiting and notification, and the contents of runtime slow paths: the locking slow path waits or
  finds the object free or already owned, and nothing else is said about it.
- Weak memory ordering and torn instruction fetch, see the assumptions.
- Breakpoints, JVMTI and JVMPI branches, profiling, verification and tracing code, OopMaps and CodeBlobs.
- The Windows branches of the signature handlers, and the flags for CMS and for running without TLABs.
- Buffers that the runtime itself fills or resets, and garbage collection; of the runtime, resize() is a step.
- The uncommon trap blob differs from the deoptimization blob only in its frame layout on entry; one model
  stands for both loops.
- Rewriting covers iload, aload_0, getfield and the bytecodes they turn into; other quickenings (putfield,
  invocations, ldc) have no pairs.
- RewritingTheorems.ICaloadEffect: speaks of the handler that is chosen; the line number that fast_icaload gives in
  a stack trace, which is that of the iload as well, is not modelled.
- Labels.Assembler.EmitBranch: does not model relocation records, which do not change the code.
- Operands.Assembler.EmitOperand: stands for both overloads, for general and for xmm registers, which print the
  same bytes; relocation records are reduced to whether there is one.
- Instructions.EmitInsn: leaves out the register-to-register forms, the form of movq that loads an unreachable
  address, and the wrappers that test reachability; which opcode belongs to which mnemonic is not stated.
- Patching covers one patcher at a time, as Patching_lock ensures.
- FastGetField.FastIsTrue: the double xor that creates a data dependency between loads is not modelled beyond
  the order of loads that it enforces.
- When array classes are created, and in which order their supers; that a class's transitive interfaces are stored
  without duplicates, which no check can tell.
- Switches.FastBinarySwitch: needs at least one pair, and at most 2^30 so that i + j fits in 32 bits; a
  method's code of at most 64 KB holds far fewer.
- Division, remainder and floating point on i486.
- `generate_atomic_add_ptr` and the three-argument `call_VM` overload, whose code does not do what their names say.
- ClosureFinder.java and Unsafe.java: file handling around a graph walk, and native declarations.
