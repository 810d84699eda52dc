# monoruby: a model in Dafny

monoruby compiles Ruby to register bytecode, interprets it, and compiles hot code to x86. Its hard parts keep a
picture of a machine: which slots of a frame currently live in which floating-point registers, which temporary
holds which value, which cells a free list holds, which lookup result a call site remembers. This project models
those pictures together with the machines they describe, and proves when they stay true.

| files | subject |
|---|---|
| `jit_machine`, `jit_context`, `jit_deopt`, `jit_run`, `jit_loads` | the JIT's slot-to-register linkage, float code beside an interpreter, deoptimisation |
| `jit_merge`, `jit_placing`, `jit_edge`, `jit_step`, `jit_join`, `jit_sharing`, `jit_path`, `jit_loop`, `jit_codegen` | control-flow edges and joins, whole paths and loops, the code generator |
| `ruby_core`, `compiled_core`, `register_machine`, `bytecode_spec`, `bytecode_proof`, `bytecode_limits`, `bytecodegen`, `ir_context`, `code_layout`, `truth` | the compiler from syntax tree to bytecode |
| `encoding`, `basic_blocks`, `code_fits`, `bytecode_link` | the 64-bit instruction words, the control-flow graph, what fits them, running the words |
| `liveness`, `loop_analysis`, `loop_links`, `loop_scan`, `liveness_reads` | the loop liveness analysis |
| `mark_bits`, `gc_heap`, `allocator` | the mark-and-sweep allocator |
| `class_graph`, `globals`, `instance_variables` | metaclasses, method lookup and its inline cache, instance variables and their caches |
| `frame_init`, `fixnum`, `flonum`, `prelude` | the two function prologues, tagged integers, packed floats, shared definitions |

## How it is built

Code that the original runs step by step (`BBContext`, the code generator, `IrContext`, `Allocator`,
`LoopAnalysis`, the class and instance-variable stores, the prologues) is a class or an array method here. Each
method is proved against a function or predicate over values, and the theorems are about those: a method's
contract says which specified state or code it produces, a lemma says what that state or code means.

Emitted machine code is a sequence of abstract instructions with an executor (`JitMachine.Exec`): moves between
sixteen xmm registers, boxing, unboxing with a side exit, float arithmetic. A double is known by its bits only;
the operations are parameters, assumed to be commutative for add and mul, to ignore the sign of zero operands
except in division by zero, and to convert only the Integer zero to a zero (`JitDeopt.Lawful`). The yardstick is
the interpreter's own frame; two frames agree by number, or by value (`JitDeopt.Grade`), and every theorem about
being in step is stated for both.

The compiler proof is relative to a runtime that may answer each operator call depending on all calls made
before, or raise. So "same outcome" includes the order of calls. Loops make the semantics partial; fuel is used
as an index and disappears in the whole-program theorems, which are equivalences for termination and for
divergence. The modelled language: nil, booleans, integer literals, locals, the eleven binary operators, six
comparisons, `&&`, `||`, unary minus, `if`, `while`, `until`, post-tested loops, sequences, assignment and n-ary
parallel assignment of locals (`a += e` is an assignment of a binary operation). The proof has two layers: every
program means what `CompiledCore.EvalAs` says, and that is the source's meaning under a condition on the syntax.

Automatic induction is switched off on every lemma.

## What the proofs brought to light

- **Shared registers.** An edge moves slots that share a register together. After `x = f; y = x` in one branch and
  `x = f; y = g` in the other, the edge from the second leaves x with y's number
  (`JitJoin.JoinAfterCopyMisdelivers`); a loop after a copy goes wrong in the same way
  (`JitJoin.LoopAfterCopyMisdelivers`). `JitStep.DeliversExactly` says exactly which edges are right.
- **Values change their class.** A copy of a loaded Integer, an edge to a register-only link, and the spilling of a
  slot together with a stale sharer each turn an Integer into a Float of the same number, on the next write-back or
  side exit. `JitDeopt.CopySlotKeeps` and `JitStep.EdgeKeepsInStep` say exactly when a value survives.
- **Two integers under a float operation.** A slot with a register is not looked at again, so compiled float code
  can meet two Integers, or Bignums, which pass the float guards because the heap path converts with `val_tof`. The
  interpreter computes an integer then (`JitRun.IntegerDivisionParts`, `JitRun.ArithIsSafe`).
- **Negative zero.** Compiled float division tests the divisor register for the bits of +0.0. The interpreter's
  zero test accepts both signs, because boxing turns -0.0 into 0.0. They part exactly for a register that holds
  -0.0 (`JitRun.ArithIsSafe`), as after `0.0 * a` (`JitRun.NegativeZeroGoesAstray`).
- **2^-255.** Its packed word is the one of 0.0, so boxing turns it into 0.0. It is the only double besides -0.0
  that does not read back (`Flonums.ReadsBackExactly`).
- **Late reads, early writes.** The compiler reads a local operand when the operator runs and writes the
  destination of `&&` and `||` before the right side. `BytecodeLimits` says exactly when each is harmless, and what
  the second one compiles to.
- **Unrecorded operands.** The liveness scan does not record the operands of index reads and writes, array literals,
  constant stores and default-argument tests, and records ranges and array expansions in the wrong order.
  `LivenessReads.UnreadExactly` says for which slots that matters; `IndexedSlotIsReportedUnused` is a loop for which
  the report is wrong. Returns are not recorded either, which is harmless (`ReturnsComeLater`). The analysis fails
  when it meets no back edge (`LoopScans.ReturnLoopFails`).
- **Cache versions wrap.** An inline method cache is trusted again after exactly a multiple of 2^32 definitions
  (`GlobalTables.Globals.Call`, and a run that gets there: `CallAfterRound`).
- **Two prologues.** The compiled prologue ignores a block parameter, and without positional parameters does not look
  at the argument count (`FrameInit.ProloguesAgreeExactly`, `ProloguesPart`).
- **Marking follows `var_table` only**, so what is live here is what that marking reaches.

## Model

| member | source | states |
|---|---|---|
| JitEdge.EdgePreservesMeaning | src/executor/globals/compiler/jitgen/merge.rs:133-283 | For every consistent source linkage, sharers included, and every edge the compiler emits that delivers: the stores, moves, exchanges, late conversions and guards never raise; they run through exactly when each value to be loaded is a number and each value to live in a register only is a float (or was spilled on the way); every slot is then where the target says (stack, both, or register), cycles included; and a side exit taken anywhere among the checks writes every slot back, as the register box exactly where the slot was stale, spilled, or register-only in the exit context |
| JitStep.DeliversExactly | src/executor/globals/compiler/jitgen/merge.rs:133-283 | Delivering is the exact condition: whatever frame the machine holds, the edge keeps it in step with the interpreter if and only if, by the two linkages alone, every slot that goes from register to register finds its own content where the target expects it |
| JitPlacing.DeliversUnlessEvicted | src/executor/globals/compiler/jitgen/merge.rs:170-256 | For targets with a register per slot, an edge delivers if and only if no exchange is made for a slot whose register still holds a slot already placed |
| JitPlacing.SameSharingDelivers | src/executor/globals/compiler/jitgen/merge.rs:170-256 | An edge delivers if movers share registers in the target exactly as in the source; in particular if nobody shares |
| JitPlacing.ExclusiveDelivers | src/executor/globals/compiler/jitgen/merge.rs:170-256 | Where no two slots share a register, every edge to a target with a register per slot delivers, whatever cycles the moves form |
| JitSharing.GuardDelivers | src/executor/globals/compiler/jitgen/merge.rs:170-256 | For any target, sharers included: an edge delivers if those who share in the target share in the source and no exchange is made for a slot whose register slots already placed belong in, unless a sharer of its own target register was placed before |
| JitSharing.TakenYetDelivered | src/executor/globals/compiler/jitgen/merge.rs:170-256 | That guard is not necessary once targets share: a linkage where an exchange takes the content of a placed slot's register away, and a later sharer brings it back |
| JitPlacing.DeliveryNeedsSharing | src/executor/globals/compiler/jitgen/merge.rs:170-256 | It delivers only if those who share in the target share in the source |
| JitStep.EdgeKeepsInStep | src/executor/globals/compiler/jitgen/merge.rs:133-283 | In the interpreter's terms, by number or by value: a delivering edge arrives in step, and a side exit hands the interpreter its own frame; by value exactly if every slot valid on the stack that is spilled or comes to live in the register only (in the target, or in the exit context) holds what boxing yields |
| JitStep.SideExitTurnsIntegerIntoFloat | src/executor/globals/compiler/jitgen/merge.rs:133-283 | A loaded Integer on an edge to a register-only link leaves through the side exit as a Float of the same number |
| JitMerge.FreeSlotsEffect | src/executor/globals/compiler/jitgen/merge.rs:150-169 | First pass: a stale slot the target does not link is boxed and stored together with everybody who shares its register, who then count as valid on the stack; every unwanted link is dropped; nothing else changes |
| JitMerge.MoveSlotTraced | src/executor/globals/compiler/jitgen/merge.rs:170-256 | One move or exchange: the slot is linked to the wanted register, and every other slot is linked to the register that its content went to |
| JitMerge.MoveSlotEffect | src/executor/globals/compiler/jitgen/merge.rs:170-256 | The code of the move makes the registers hold what the compiler believes of them |
| JitMerge.PlaceSlotsEffect | src/executor/globals/compiler/jitgen/merge.rs:170-256 | Second pass: every register holds the content the compiler traces to it, stale stack copies wanted valid are stored, and exactly the slots to load and to guard are queued |
| JitMerge.ConvEffect | src/executor/globals/compiler/jitgen/merge.rs:258-283 | Late conversions: they run through exactly when all queued values are numbers, and change only the registers they fill |
| JitRun.RunIsSafe | src/executor/globals/compiler/jitgen.rs:840-870 | For any sequence of slot copies, write-backs, operand loads, stores and float operations that reads no dead slot, against an interpreter that knows no registers and does integer arithmetic on integers: if every operation reached is faithful, compiled code that reaches the end represents the interpreter's final frame; a side exit hands over the frame the interpreter has before one of the operations; compiled code raises, or goes on where it should raise, only if the interpreter raises. By number, and by value |
| JitRun.RunInStepExactly | src/executor/globals/compiler/jitgen.rs:840-870 | A run through to the end is in step all the way if and only if every operation is faithful |
| JitRun.ArithIsSafe | src/executor/globals/compiler/jitgen/binary_op.rs:269-339 | A float operation on linked operands defines its slot in step with the interpreter if and only if the operands are not both integers, or (by number only) the exact integer result converts to what the float operation gives; it goes on where the interpreter raises exactly when the divisor register holds -0.0, and never raises where the interpreter does not |
| JitRun.InterpretMatches | src/executor/op.rs:14-205 | The interpreter raises exactly for a zero divisor of either kind; its result is what the registers' result stands for exactly if the arithmetic is faithful |
| JitRun.IntegersAreExact | src/executor/op.rs:14-205 | On two integers, small or big, the interpreter gives exactly their sum, difference and product, and the largest integer not above their quotient, whatever the signs; it raises exactly for a zero divisor |
| JitRun.FloatsAreFloats | src/executor/op.rs:14-205 | With a Float operand it gives the Float of the operation on the two doubles, and raises exactly for a divisor that is a zero of either sign |
| JitRun.IntegerDivisionParts | src/executor/globals/compiler/jitgen/binary_op.rs:269-339 | 7 / 2 with both slots loaded as Integers earlier: compiled code goes on with the quotient of 7.0 and 2.0 where the interpreter holds 3 |
| JitRun.NegativeZeroGoesAstray | src/executor/globals/compiler/jitgen/binary_op.rs:269-339 | `t = 0.0 * a; y = z / t` from an ordinary frame, for a that makes the product -0.0: compiled code goes past the division, the interpreter raises at it |
| JitPath.PathIsSafe | src/executor/globals/compiler/jitgen/merge.rs:4-283 | Along any path of blocks and edges that drop unused slots, whose edges deliver and whose operations are faithful and read no dead slot, compiled code follows an interpreter that runs the operations alone, with the same three kinds of ending |
| JitLoops.LoopIsSafe | src/executor/globals/compiler/jitgen/merge.rs:4-85 | From the analysis to the machine: a compiled loop entered with the reported slots dead, which drops them again at each branch back, follows the interpreter through any number of iterations along any paths, with the same three kinds of ending, if every slot reported is written where the scan misses a read of it and edges and operations are as above |
| JitLoops.LoopAvoids | src/executor/globals/compiler/jitgen/analysis.rs:18-79 | On any such run no operation reads a slot that is dead there, given only that the loop does not read the reported slots before it writes them |
| JitLoops.DeadIsUnread | src/executor/globals/compiler/jitgen/analysis.rs:18-79 | At every instruction on every way through the loop: a reported slot that the way has not defined yet is not read |
| JitDeopt.DeoptIsSafe | src/executor/globals/compiler/jitgen.rs:1569-1614 | Running the deopt write-back in any state a context represents rebuilds the interpreter's frame in every slot that is not dead, by number or by value |
| JitDeopt.AgreementIs | src/executor/globals/compiler/jitgen.rs:1569-1614 | By value, frames agree only if they are equal; by number, if each slot holds the same value or the same number; without links only the frame itself stands for a frame |
| JitDeopt.CopySlotKeeps | src/executor/globals/compiler/jitgen.rs:840-858 | A copy gives the destination the source's number, by sharing the register or by moving the stack copy, and keeps every other slot; it keeps the value if and only if the source is not valid on the stack as something other than a box |
| JitDeopt.CopyReturnsBox | src/executor/globals/compiler/jitgen.rs:840-858 | A copy of a linked Integer comes back from a deoptimisation as the register's box, although the source comes back as the Integer |
| JitDeopt.WriteBackSlotKeeps | src/executor/globals/compiler/jitgen.rs:860-870 | Writing one slot back keeps all values and leaves the slot valid on the stack, in the register it had |
| JitDeopt.ReadSlotKeeps | src/executor/globals/compiler/jitgen/read_slot.rs:22-73 | Loading a slot under any assumption links it to a register that holds its number, or exits with a frame the interpreter can use; no other link changes |
| JitLoads.ReadExitsExactly | src/executor/globals/compiler/jitgen/read_slot.rs:22-73 | A load of an unlinked slot goes on exactly for a Float or Bignum if a Float is assumed, a small Integer if an Integer is, with the value's double in a register that no slot had; otherwise it exits with the frame the interpreter would have got before; a linked slot needs no code |
| JitLoads.BinopExitsExactly | src/executor/globals/compiler/jitgen/read_slot.rs:4-20 | Given registers, a float operation leaves compiled code exactly if an operand has to be loaded and is not of the class assumed for it |
| JitLoads.FloatOpsAssume | src/executor/globals/compiler/jitgen/read_slot.rs:45-57 | Where a float operation is decoded there is an assumption for each operand, so that the unreachable arm is not reached, and one at least is that of a Float |
| JitLoads.IntegersAreLeft | src/executor/globals/compiler/jitgen/read_slot.rs:45-57 | So a float operation on two small Integers that have to be loaded always goes back to the interpreter |
| JitLoads.IntegerDivisionExits | src/executor/globals/compiler/jitgen/read_slot.rs:22-41 | 7 / 2 under a Float assumption, from a frame without links: back to the interpreter with that frame |
| JitDeopt.XmmWriteKeeps | src/executor/globals/compiler/jitgen.rs:218-231 | The register taken for a result belongs to no other slot, and every slot but the result still holds its value |
| JitDeopt.DefineCompletes | src/executor/globals/compiler/jitgen.rs:218-231 | Filling that register completes the definition exactly if it holds what the defined value asks for |
| JitDeopt.StoreKeeps | src/executor/globals/compiler/jitgen.rs:184-193 | Unlinking a slot and storing to its stack cell defines it and keeps the rest |
| JitDeopt.FloatCodeEffect | src/executor/globals/compiler/jitgen/binary_op.rs:269-339 | Add, sub, mul and div leave lhs op rhs in the result register however the three registers coincide, change no other register, and raise exactly when the divisor register is +0.0 |
| JitContext.WriteBackEffect | src/executor/globals/compiler/jitgen.rs:233-252 | The write-back stores exactly the register-only slots, boxed, and preserves the register file |
| JitContext.DeallocConsistent | src/executor/globals/compiler/jitgen.rs:184-193 | Unlinking a slot keeps the two maps mutually inverse and touches no other slot |
| JitContext.LinkConsistent | src/executor/globals/compiler/jitgen.rs:171-182 | Linking a free slot keeps them inverse; with an empty register it keeps registers exclusive |
| JitContext.SwapConsistent | src/executor/globals/compiler/jitgen.rs:201-216 | Exchanging two registers, sharers and all, keeps them inverse |
| JitContext.XmmWriteConsistent | src/executor/globals/compiler/jitgen.rs:218-231 | Taking a result register leaves it to that slot alone, keeps the maps inverse and every other link |
| JitContext.XmmWriteExactly | src/executor/globals/compiler/jitgen.rs:218-231 | A result keeps its slot's own register if that is register-only and shared with nobody; otherwise it gets the lowest one that no other slot has; there is none exactly if other slots have all of them |
| JitContext.BBContext.From | src/executor/globals/compiler/jitgen.rs:136-153 | A context built from a linkage has exactly that linkage, with inverse maps |
| JitContext.BBContext.AllocXmm | src/executor/globals/compiler/jitgen.rs:162-169 | The first register without slots |
| JitContext.BBContext.LinkXmm | src/executor/globals/compiler/jitgen.rs:171-182 | In-place link is the specified one |
| JitContext.BBContext.DeallocXmm | src/executor/globals/compiler/jitgen.rs:184-193 | In-place unlink is the specified one |
| JitContext.BBContext.RemoveUnused | src/executor/globals/compiler/jitgen.rs:155-157 | Unlinks exactly the listed slots |
| JitContext.BBContext.XmmSwap | src/executor/globals/compiler/jitgen.rs:201-216 | The loop over slots exchanges every link to the two registers |
| JitContext.BBContext.XmmWriteReg | src/executor/globals/compiler/jitgen.rs:218-231 | In-place choice of the result register is the specified one |
| JitJoin.MergeEntriesMeaning | src/executor/globals/compiler/jitgen.rs:412-440 | The merged linkage is none exactly when some entry has none, register-only exactly when all entries are, and otherwise keeps the first entry's register |
| JitJoin.JoinIsJoinable | src/executor/globals/compiler/jitgen/merge.rs:87-131 | No edge into a join pairs an unlinked source with a register-only target, or loads a slot |
| JitJoin.LoopTargetMeaning | src/executor/globals/compiler/jitgen/merge.rs:47-62 | A loop target links exactly the loop's uses that are linked in the merge, each to its own register: register-only if and only if the merge is and the slot is reported as a Float, else in both places |
| JitJoin.LoopHeadIsJoinable | src/executor/globals/compiler/jitgen/merge.rs:47-76 | With use set and unused set disjoint, no forward edge into a loop head pairs an unlinked source with a register-only target, and the target has a register per slot |
| JitJoin.PruneKeepsInStep | src/executor/globals/compiler/jitgen.rs:155-157 | Dropping the links of unused slots keeps all other slots in step |
| JitJoin.JoinEdgeExactly | src/executor/globals/compiler/jitgen/merge.rs:87-131 | Whatever slots share registers in the entries, an edge into a join keeps compiled code in step if and only if it delivers |
| JitJoin.JoinNeedsSharing | src/executor/globals/compiler/jitgen/merge.rs:87-131 | For that, slots that share a register in the first entry must share one in every entry, if the join links them |
| JitJoin.JoinKeepsSharing | src/executor/globals/compiler/jitgen/merge.rs:87-131 | And it is enough that among the slots the join links exactly the same share |
| JitJoin.LoopEdgeExactly | src/executor/globals/compiler/jitgen/merge.rs:28-85 | A forward edge into a loop head keeps compiled code in step, apart from the slots the loop does not use, if and only if nobody is evicted |
| JitJoin.JoinAfterCopyMisdelivers | src/executor/globals/compiler/jitgen/merge.rs:87-131 | After `x = f; y = x` in one branch and `x = f; y = g` in the other, the edge from the second leaves x with the number of y |
| JitJoin.LoopAfterCopyMisdelivers | src/executor/globals/compiler/jitgen/merge.rs:28-85 | After `x = f; z = g; y = x`, the edge into a loop that uses all three leaves x with the number of z |
| JitJoin.StackSlotInfo.Merge | src/executor/globals/compiler/jitgen.rs:412-422 | The in-place merge is the slot-wise merge |
| JitJoin.MergeAll | src/executor/globals/compiler/jitgen.rs:424-440 | The loop over entries merges them all |
| JitJoin.LoopHeadContext | src/executor/globals/compiler/jitgen/merge.rs:47-62 | The loop over the use set builds that target |
| JitCodegen.Codegen.GenWriteBackForTarget | src/executor/globals/compiler/jitgen/merge.rs:133-283 | The emitting pass produces exactly the code the edge theorems are about, and its side exit writes back the final context |
| JitCodegen.Codegen.FreeAll | src/executor/globals/compiler/jitgen/merge.rs:150-169 | First loop, slot by slot, on a context updated in place |
| JitCodegen.Codegen.PlaceAll | src/executor/globals/compiler/jitgen/merge.rs:170-256 | Second loop, with the conversion and guard lists it builds |
| JitCodegen.Codegen.PlaceSlotOf | src/executor/globals/compiler/jitgen/merge.rs:170-256 | One slot of the second loop, for each pair of source and target link |
| JitCodegen.Codegen.GenWriteBackSingle | src/executor/globals/compiler/jitgen.rs:1550-1568 | Boxes one register and stores it to each listed slot |
| JitCodegen.Codegen.CopySlotTo | src/executor/globals/compiler/jitgen.rs:840-858 | Emits the specified copy and updates the context |
| JitCodegen.Codegen.WriteBack | src/executor/globals/compiler/jitgen.rs:860-870 | Emits the specified write-back and updates the context |
| JitCodegen.Codegen.XmmReadAssume | src/executor/globals/compiler/jitgen/read_slot.rs:22-73 | Emits that load, with the conversion for the assumed class and a side exit for the context after linking |
| JitCodegen.Codegen.GenBinopFloat | src/executor/globals/compiler/jitgen/binary_op.rs:269-339 | Emits the specified float sequence for each aliasing case |
| BytecodeProof.CodeCorrect | src/executor/bytecodegen.rs:626-1141 | For every expression of the modelled language and every destination mode, running the code from any state yields the value of the compiled meaning where it is wanted, leaves locals as it says and lower temporaries alone, makes the same calls in the same order, raises exactly when it raises, and has not left the code while it is still evaluating |
| CompiledCore.AsWritten | src/executor/bytecodegen.rs:597-617 | The compiled meaning (a local operand is read late, the destination of a short-circuit and, or is written early) is the source meaning for every expression in which no operand that is a local is assigned by the other operand and no short-circuit right side reads the local it goes into |
| BytecodeProof.ProgramComesTo | src/executor/bytecodegen.rs:134-152 | Every program ends with an outcome (value, locals, calls; or calls and a raise) if and only if the compiled meaning comes to it |
| BytecodeProof.ProgramBehavesAsExpr | src/executor/bytecodegen.rs:134-152 | A program of such an expression ends with an outcome if and only if the source evaluates to it |
| BytecodeProof.ProgramDivergesAsExpr | src/executor/bytecodegen.rs:134-152 | Every program runs for ever if and only if its compiled meaning does, and for such expressions if and only if the source does |
| BytecodeLink.RunAlike | src/executor/inst.rs:1230-1441 | Packed into words, read back and run on the slots of a frame, a program does step for step what it does on locals and temporaries |
| BytecodeLink.WordsComeTo | src/executor/bytecodegen/encode.rs:4-278 | From the expression to the words, for every expression of the modelled language: the packed program, read back and run on slots, comes to exactly the outcomes of the compiled meaning, and so for plain expressions of the source; given only the generator's count of temporaries and a frame and program within 16 and 31 bits |
| BytecodeLink.Assemble | src/executor/bytecodegen/encode.rs:4-278 | Generator and encoder together: whatever frame and runtime, the words they produce, read back and run on as many slots as the generator has counted, come to exactly the outcomes of the compiled meaning |
| BytecodeLink.CompiledFits | src/executor/bytecodegen/encode.rs:4-278 | With the temporaries that the generator counts, every register of a compiled program has a slot in the frame, and every immediate and displacement fits its field, if frame and program are within 16 and 31 bits |
| CodeFits.Fits | src/executor/bytecodegen.rs:626-1141 | Code of any expression in any mode names only the frame's locals, carries integers of 16 or 32 bits only where they fit, and branches only within itself or just behind |
| CodeLayout.OperatorEnds | src/executor/bytecodegen/binary.rs:34-105 | Add, sub, mul, div and exp carry a literal of 16 bits, the right one first; comparisons carry a right one; all others take registers |
| CodeLayout.LiteralIs | src/executor/bytecodegen.rs:237-247 | An integer literal is one instruction, with the integer in it exactly if it has 32 bits |
| CodeLayout.ConditionEnds | src/executor/bytecodegen.rs:309-377 | A condition ends with a branch to its destination in the wanted sense; a comparison and its branch are marked as a pair, and nothing else is |
| CodeLayout.LoopLayout | src/executor/bytecodegen.rs:1574-1647 | A loop begins and ends with its marks, and branches back to the first mark from just before its value |
| BytecodeProof.OperandsCorrect | src/executor/bytecodegen.rs:597-617 | Both operands stand in their registers when the operator reads them, although locals are read late |
| BytecodeProof.OperatorCorrect | src/executor/bytecodegen/binary.rs:34-105 | Register and immediate forms of an operator all make the source's call |
| BytecodeProof.LogicCorrect | src/executor/bytecodegen/binary.rs:108-146 | Short-circuit and, or into a register, written early, yield the short-circuit value |
| BytecodeProof.CondCorrect | src/executor/bytecodegen.rs:309-377 | For every nesting of short-circuit and, or: branches exactly when the truth equals jmp_if_true, falls through otherwise, and evaluates exactly the leaves that short-circuit evaluation does, in order |
| Truth.FalseWords | src/value.rs:148-150 | Over the tagged words: or-ing bit 4 gives the word of false exactly for nil and false, and for no integer, address, packed float or symbol |
| Truth.BranchTestsWord | src/executor/globals/compiler/vmgen.rs:1203-1227 | A conditional branch of the register machine goes where that test of the condition's word says, for either sense |
| Truth.SlotBranchTestsWord | src/executor/globals/compiler/vmgen.rs:1203-1227 | So does a branch of the machine that runs words |
| Truth.LiteralDecides | src/executor/bytecodegen.rs:309-377 | With nil or false as condition an if comes to exactly what its else branch does, with any other literal to what the other does; `nil && r` comes to nil, `false or r` to r; in the source and in the program |
| Truth.LiteralComesTo | src/value.rs:148-164 | A literal comes to its value, with no call and no other change |
| Truth.StoppedLoop | src/executor/bytecodegen.rs:1574-1610 | A loop whose literal condition stops it does not run its body and is nil, in the source and in the program |
| BytecodeProof.IfCorrect | src/executor/bytecodegen.rs:833-857 | Conditional with and without value |
| BytecodeProof.WhileCorrect | src/executor/bytecodegen.rs:1574-1610 | while and until: as many rounds as the source, same state after |
| BytecodeProof.DoWhileCorrect | src/executor/bytecodegen.rs:1613-1646 | The same with the test at the end |
| BytecodeProof.StmtsCorrect | src/executor/bytecodegen.rs:533-566 | Sequence: all but the last for effect |
| BytecodeProof.ListCorrect | src/executor/bytecodegen.rs:1429-1478 | Right sides of a parallel assignment land in consecutive temporaries |
| BytecodeProof.MulAssignCorrect | src/executor/bytecodegen.rs:1429-1478 | The n-ary assignment assigns simultaneously: all right sides are evaluated before any local changes |
| Truth.ParallelExchanges | src/executor/bytecodegen.rs:1429-1478 | `x, y = y, x` exchanges the two, and its value is the array of the new values |
| Truth.LastMentionWins | src/executor/bytecodegen.rs:1429-1478 | Of several mentions of a target the last one counts; what is not mentioned stays |
| BytecodeProof.IndirectCorrect | src/executor/bytecodegen.rs:1004-1141 | Constructs without a direct store form go through a temporary |
| BytecodeProof.NegCorrect | src/executor/bytecodegen.rs:508-519 | Unary minus in place |
| Truth.NegationIs | src/executor/bytecodegen.rs:508-519 | Negating an integer is arithmetic and makes no call; negating anything else is one call |
| Truth.OperatorCalls | src/executor/bytecodegen/binary.rs:34-105 | An operator on two literals makes exactly one call, of itself with its operands in order, and comes to what that returns or raises |
| Truth.ComparisonCalls | src/executor/bytecodegen/binary.rs:34-105 | So does a comparison |
| BytecodeProof.AssignCorrect | src/executor/bytecodegen.rs:1004-1141 | Assignment to a local, as statement or as value |
| Truth.AssignmentIs | src/executor/bytecodegen.rs:1004-1141 | An assignment comes to the value assigned, which the local then holds, and changes no other local |
| BytecodeLimits.LateReadExactly | src/executor/bytecodegen.rs:597-617 | Wherever it stands, `x + r` with r compiled faithfully is compiled faithfully if and only if r does not come to an end or leaves x with its old value |
| BytecodeLimits.LogicStoresTwice | src/executor/bytecodegen/binary.rs:108-146 | Wherever it stands and whatever its sides are, `x = l && r` is compiled as `(x = l) && (x = r)`; likewise for or |
| BytecodeLimits.EarlyWriteExactly | src/executor/bytecodegen/binary.rs:108-146 | With both sides compiled faithfully, `x = l && r` is compiled faithfully if and only if l does not come to an end, or settles it, or r comes to the same when x already holds the value of l |
| BytecodeLimits.SelfLogicExactly | src/executor/bytecodegen/binary.rs:108-146 | So `x = l && x` is if and only if l settles it or x already holds the value of l |
| BytecodeLimits.OperandLogicExactly | src/executor/bytecodegen/binary.rs:108-146 | `x = l && x op r` (or `r op x`), with r apart from x, is if and only if l settles it, or x already holds what l comes to, or r does not come to an end |
| BytecodeLimits.LateOperandReadIsWrong | src/executor/bytecodegen.rs:597-617 | `a + (a = 5)` calls 5 + 5 instead of 1 + 5 |
| BytecodeLimits.EarlyLogicWriteIsWrong | src/executor/bytecodegen/binary.rs:108-146 | `x = 1 && x` leaves 1 instead of 7 |
| Bytecodegen.EmitsEither | src/executor/bytecodegen.rs:350-377 | Two conditions that branch to the same label compose |
| Bytecodegen.EmitsSkip | src/executor/bytecodegen.rs:350-377 | Two conditions with a label that skips the second compose, once the label is patched |
| Bytecodegen.EmitsWhile | src/executor/bytecodegen.rs:1574-1610 | With labels patched later, the loop's three labels resolve to the displacements of the specification |
| IrContexts.Compile | src/executor/bytecodegen.rs:134-152 | Labels, patching and the temp counter together produce exactly the specified program, and every register is within the recorded temp count |
| IrContexts.ISeqInfo.Push | src/executor/globals/functions.rs:786-793 | Next temporary; the high-water mark never falls |
| IrContexts.ISeqInfo.Pop | src/executor/globals/functions.rs:795-798 | Gives back the last temporary |
| IrContexts.IrContext.NewLabel | src/executor/bytecodegen.rs:170-175 | A fresh, unplaced label |
| IrContexts.IrContext.ApplyLabel | src/executor/bytecodegen.rs:177-180 | Places the label at the current end |
| IrContexts.IrContext.GenBinaryTempExpr | src/executor/bytecodegen.rs:597-617 | Operand code, registers and unchanged temp counter |
| IrContexts.IrContext.GenBinary | src/executor/bytecodegen.rs:1371-1385 | Operands and destination of an operator |
| IrContexts.IrContext.GenCmp | src/executor/bytecodegen.rs:1402-1427 | Comparison with and without immediate |
| IrContexts.IrContext.GenArith | src/executor/bytecodegen/binary.rs:34-105 | Arithmetic with an immediate on either side or none |
| IrContexts.IrContext.GenLogic | src/executor/bytecodegen/binary.rs:108-146 | Short-circuit and, or around one label |
| IrContexts.IrContext.GenOptCondbr | src/executor/bytecodegen.rs:309-377 | Condition code for any nesting, temp counter unchanged |
| IrContexts.IrContext.GenIf | src/executor/bytecodegen.rs:833-857 | Two labels, both branches with the same temp counter |
| IrContexts.IrContext.GenWhile | src/executor/bytecodegen.rs:1574-1610 | Loop code, its value and the end marker |
| IrContexts.IrContext.GenWhileBeginPostfix | src/executor/bytecodegen.rs:1613-1646 | The same for a test at the end |
| IrContexts.IrContext.GenCompStmts | src/executor/bytecodegen.rs:533-566 | Sequence, loop over all but the last |
| IrContexts.IrContext.GenMulAssign | src/executor/bytecodegen.rs:1429-1478 | Evaluation loop, assignment loop, array value |
| IrContexts.IrContext.GenExpr | src/executor/bytecodegen.rs:626-1002 | Any expression: specified code; the temp counter moves by exactly one (Use) or zero (NotUse) |
| IrContexts.IrContext.GenStoreExpr | src/executor/bytecodegen.rs:1004-1141 | Any expression into a register: specified code, temp counter unchanged |
| IrContexts.IrContext.IrToBytecode | src/executor/bytecodegen/encode.rs:4-61 | Every branch becomes the displacement to its label |
| Allocators.Allocator.constructor | src/alloc.rs:84-103 | An empty heap with one current page |
| Allocators.Allocator.Alloc | src/alloc.rs:154-193 | Never returns a live cell; takes the head of the free list, else the next cell of the current page, else retires the full page to `pages`; keeps the free list an acyclic duplicate-free chain of length free_list_count over exactly the free cells; the page it then goes to is the one given back last, or a new one if none is left |
| Allocators.Allocator.Write | src/rvalue.rs:175-198 | A live object overwritten with one that points to live objects only: nothing else changes, and the heap stays valid |
| Allocators.Allocator.GcCheckAndMark | src/alloc.rs:256-274 | Sets exactly the cell's bit, says whether it was set, counts it once |
| Allocators.Allocator.MarkValue | src/value.rs:30-36 | Marks what a value reaches, nothing for an immediate |
| Allocators.Allocator.MarkRValue | src/rvalue.rs:55-68 | Terminates on cyclic heaps; newly marked cells are closed under edges and all reachable from the root; the counter grows with the marks |
| Allocators.MarkedIsReachable | src/rvalue.rs:55-68 | From a cleared bitmap the marks are exactly the reachable cells |
| Allocators.Allocator.ClearMark | src/alloc.rs:278-282 | No bit set on any page, counter zero |
| Allocators.Allocator.DeallocEmptyPages | src/alloc.rs:284-295 | Pages without marks move to the spare pages, the others stay in order |
| Allocators.KeptAndRetired | src/alloc.rs:284-295 | Kept and retired pages partition the old ones by whether a bit is set |
| Allocators.Allocator.SweepBits | src/alloc.rs:297-316 | Bit scan of one word: links exactly the unmarked cells, in order, after the list so far |
| Allocators.Allocator.SweepPage | src/alloc.rs:318-346 | One page, full or partly used, its bitmap word by word |
| Allocators.Allocator.Sweep | src/alloc.rs:318-346 | The rebuilt free list is the unmarked cells of all pages and the used part of the current one |
| Allocators.SweptIsUnmarked | src/alloc.rs:318-346 | It has no duplicates, is disjoint from the marked cells, and marked plus free is DATA_LEN per kept page plus used_in_current |
| Allocators.CollectionKeeps | src/alloc.rs:216-251 | Mark, page retirement and sweep together leave exactly the reachable cells live and nothing reachable that is not |
| Allocators.Allocator.Gc | src/alloc.rs:216-251 | After a collection live is what the root reaches, the free list is the other handed-out cells of the kept pages, a page is kept exactly if it has a live cell, the counters agree, and the next threshold is set; does nothing when disabled |
| Allocators.Allocator.CheckGc | src/alloc.rs:203-214 | Collects exactly when enabled and a page has filled to the mark or the outside allocation exceeds the threshold |
| GcHeap.ReachStays | src/rvalue.rs:55-68 | What a cell reaches stays inside any set closed under edges |
| GcHeap.CellsAddUp | src/alloc.rs:216-251 | The count of live and free cells, page by page |
| MarkBits.SetBitSets | src/alloc.rs:256-274 | Or-ing a bit in sets that bit only |
| MarkBits.TrailingOnesAreOnes | src/alloc.rs:297-316 | The bits the sweep skips over are all marks |
| MarkBits.PageDeadIs | src/alloc.rs:318-346 | The word-wise scan visits exactly the unmarked cells of a page, each once |
| LoopScans.Analyse | src/executor/globals/compiler/jitgen/analysis.rs:18-79 | For any loop of the modelled form: every slot reported unused is, on every path from the head to exit, back edge or return, written before any recorded read; the use set is increasing and disjoint from it; no result only if no path branches back; and if no block is dead, a slot is reported unused exactly if it is written first on all paths, a slot is in the use set only if some path that branches back reads it first, and there is a result only if some path branches back; and the use set says of each slot how the branches back leave it, as in `LoopLinks.UseSetReports` |
| LoopScans.ReturnLoopFails | src/executor/globals/compiler/jitgen/analysis.rs:18-79 | `while c; return x; end` is a loop of the modelled form without a dead block, and the analysis has no result for it |
| LoopScans.FloatLoopReport | src/executor/globals/compiler/jitgen/analysis.rs:379-390 | `while c; x = x + y; end` on Floats: x and y are reported as Floats, c is not reported |
| LoopLinks.UseSetReports | src/executor/globals/compiler/jitgen/analysis.rs:379-390 | If no block is dead: a slot that some path branching back reads first is reported as a Float if all such paths leave it in a register as a Float, and is reported if all leave it in a register; it is not reported if all leave it without, nor as a Float if one leaves it in a register as something else; and never both ways |
| LoopLinks.AfterMeans | src/executor/globals/compiler/jitgen/analysis.rs:414-484 | The link along a path is told by what happened to the slot's content since its definition, through copies: computed as a Float and only used as one, in no register, or known to be a Float |
| LoopLinks.TraitIsAttained | src/executor/globals/compiler/jitgen/analysis.rs:128-366 | Whatever the scan shows of a link at an instruction, some path to it shows |
| Liveness.LinkMeans | src/executor/globals/compiler/jitgen/analysis.rs:414-484 | The same for any sequence of recorded accesses |
| Liveness.MergeIsLeast | src/executor/globals/compiler/jitgen/analysis.rs:535-547 | Merging links takes the least one above both in their order, so the order of merging does not matter |
| LoopAnalyses.ScanIsExact | src/executor/globals/compiler/jitgen/analysis.rs:128-366 | With no dead block the scan is exact at every instruction: a slot is Used there if and only if some path reads it first, NotUsed if and only if all paths write it first |
| LoopAnalyses.UnusedIsExact | src/executor/globals/compiler/jitgen/analysis.rs:57-78 | So are the merged summaries of exit, back edge and return |
| LoopAnalyses.BackedgeIsExact | src/executor/globals/compiler/jitgen/analysis.rs:57-78 | There is a summary of back edges if and only if some path branches back |
| LoopAnalyses.PathIsCovered | src/executor/globals/compiler/jitgen/analysis.rs:128-366 | On any path, of any length, the scan's state covers what happens along it, dead blocks or not |
| LoopAnalyses.EndIsCovered | src/executor/globals/compiler/jitgen/analysis.rs:57-78 | So do the summaries for exit, back edge and return |
| LoopAnalyses.UsedAndUnusedAreDisjoint | src/executor/globals/compiler/jitgen/analysis.rs:57-78 | What is used as a float is never reported unused |
| LoopScans.LoopAnalysis.AddBranch | src/executor/globals/compiler/jitgen/analysis.rs:94-103 | Records the state for the target, and nothing else |
| LoopScans.LoopAnalysis.AddBackedge | src/executor/globals/compiler/jitgen/analysis.rs:112-118 | Merges into the back-edge summary |
| LoopScans.LoopAnalysis.AddReturn | src/executor/globals/compiler/jitgen/analysis.rs:120-126 | Merges into the return summary |
| LoopScans.LoopAnalysis.IncomingInfo | src/executor/globals/compiler/jitgen/analysis.rs:43-52 | The merge of all states on record for a block, or nothing known |
| LoopScans.LoopAnalysis.ScanInst | src/executor/globals/compiler/jitgen/analysis.rs:128-366 | One instruction keeps the scan's invariant: every edge from a scanned instruction is covered or recorded, and every state comes from an instruction that leads there |
| LoopScans.LoopAnalysis.ScanBb | src/executor/globals/compiler/jitgen/analysis.rs:128-366 | One block does |
| LoopScans.BlockStarts | src/executor/globals/compiler/jitgen/analysis.rs:25-41 | All block starts from the head on, in order |
| LoopAnalyses.MergeRecordedIs | src/executor/globals/compiler/jitgen/analysis.rs:43-52 | The merge covers each state on record, and whatever it shows of a slot (its use, its link) one of them shows |
| Liveness.RecordAllTouches | src/executor/globals/compiler/jitgen/analysis.rs:421-484 | The recorded state of a slot is that of the first access that settles it |
| Liveness.TouchAllCovers | src/executor/globals/compiler/jitgen/analysis.rs:421-484 | Recording is monotone in the covering order |
| Liveness.MergeCovers | src/executor/globals/compiler/jitgen/analysis.rs:514-563 | A merge covers both sides |
| LivenessReads.NoticesReadsExactly | src/executor/globals/compiler/jitgen/analysis.rs:128-366 | An instruction's record notices all its reads if and only if it is none of the kinds whose operands are not recorded or are recorded after the write |
| LivenessReads.RecordsAreReal | src/executor/globals/compiler/jitgen/analysis.rs:128-366 | Every write of an instruction is recorded, as a write unless a read of the slot is recorded before; and no read or write is recorded that does not happen |
| LivenessReads.OperationKinds | src/executor/globals/compiler/jitgen/analysis.rs:128-366 | Each operand is recorded with its own class, and the result as a Float exactly for a float operation |
| LivenessReads.FloatKinds | src/executor/globals/compiler/jitgen/analysis.rs:128-366 | Float literals, and results and arguments of inlined functions, are recorded as Floats |
| LivenessReads.UnreadExactly | src/executor/globals/compiler/jitgen/analysis.rs:128-366 | A slot that the scan finds written first is really never read before a write if and only if the scan has it written at every instruction whose read of it goes unnoticed |
| LivenessReads.UnreadIf | src/executor/globals/compiler/jitgen/analysis.rs:128-366 | One half of it, dead blocks or not: written first on all paths, and written at every instruction that misses a read, a slot is really never read before |
| LivenessReads.ReturnsComeLater | src/executor/globals/compiler/jitgen/analysis.rs:128-366 | At a return it always is: returns do no harm although their operand is not recorded |
| LivenessReads.UnusedIsUnread | src/executor/globals/compiler/jitgen/analysis.rs:128-366 | So a slot reported unused is really unread if every instruction that reads it is a return or notices |
| LivenessReads.IndexedSlotIsReportedUnused | src/executor/globals/compiler/jitgen/analysis.rs:128-366 | `begin; y = a[i]; a = nil; end while c`: the analysis has a result, it lists a as unused, and a is read before it is written |
| ClassGraph.SingletonIsUnique | src/executor/globals/class.rs:158-208 | Two singletons of one class object are the same class |
| ClassGraph.SingletonsInherit | src/executor/globals/class.rs:187-208 | The superclass of a class's singleton is the singleton of its superclass, Class at the root |
| ClassGraph.SingletonKeeps | src/executor/globals/class.rs:172-181 | Adding a singleton keeps the whole hierarchy invariant: smaller superclasses, unique owners, parallel metaclasses |
| ClassGraph.LookupKept | src/executor/globals/class.rs:222-227 | New classes change no old lookup |
| ClassGraph.LookupFresh | src/executor/globals/class.rs:222-227 | From a class without methods a name is looked up exactly as from its superclass |
| ClassGraph.MethodKeeps | src/executor/globals/class.rs:213-220 | Adding a method keeps the hierarchy |
| ClassGraph.MethodLookup | src/executor/globals/class.rs:213-220 | A definition is found from exactly the classes whose superclass walk comes to its class before another definition; no other lookup changes |
| GlobalTables.Globals.constructor | src/executor/globals/class.rs:302-306 | The empty class table |
| GlobalTables.Globals.NewSingletonClass | src/executor/globals/class.rs:172-181 | What is appended and which object stands for it |
| GlobalTables.Globals.GetSingletonId | src/executor/globals/class.rs:187-208 | Terminates, returns the class's singleton, made with all its ancestors' singletons when missing; changes nothing when it exists; keeps the hierarchy |
| GlobalTables.Globals.GetRealClassId | src/executor/globals/class.rs:325-331 | Terminates at a class that is no singleton, at Class for every class object |
| GlobalTables.Globals.FindMethod | src/executor/globals.rs:405-417 | The walk up the superclass chain finds the nearest definition |
| GlobalTables.Globals.GenerateClassObj | src/executor/globals/class.rs:158-170 | A class gets its object and singleton; every other class keeps its record |
| GlobalTables.Globals.DefineClass | src/executor/globals/class.rs:137-145 | A new class keeps hierarchy and caches; every name is looked up from it as from its superclass, and nowhere without one; no class made on the way has methods |
| GlobalTables.Globals.DefineBuiltinClass | src/executor/globals/class.rs:147-156 | A reserved class does, before any call; every name is looked up from it as from its superclass |
| GlobalTables.Globals.GetSingleton | src/value.rs:106-110 | The singleton's object stands for it |
| GlobalTables.Globals.DefineMethod | src/executor/globals/compiler/vmgen.rs:1101-1115 | Every lookup afterwards, for all classes and names; and no cache matches the new version but those filled a multiple of 2^32 definitions ago |
| GlobalTables.Globals.NewCallSite | src/executor/bytecodegen/encode.rs:10-19 | A new call site starts with an empty cache |
| GlobalTables.Globals.Call | src/executor/globals/compiler/vmgen/method_call.rs:69-158 | After any run: a call gets what the superclass walk finds now, except exactly when its cache was filled a positive multiple of 2^32 definitions ago for the same class |
| GlobalTables.Globals.CallAfterRound | src/executor/globals/compiler/vmgen/method_call.rs:69-158 | From any state on: define a method, call it, define it anew, make 2^32 - 1 more definitions of another name: the same call gets the old function where a lookup finds the new one |
| GlobalTables.VersionMatches | src/executor/globals/compiler/vmgen/method_call.rs:69-79 | Equal 32-bit versions mean equal counts within 2^32 definitions |
| InstanceVariables.NumberingGrows | src/executor/globals/class/instance_var.rs:22-32 | A new name keeps the table a bijection onto 0..n |
| InstanceVariables.RValue.GetVar | src/rvalue.rs:154-169 | Reads the inline cell or the overflow entry |
| InstanceVariables.RValue.SetVar | src/rvalue.rs:175-198 | The variable reads back, no other one changes, whether inline, in range or by growing the overflow |
| InstanceVariables.IvarStore.NewObject | src/rvalue.rs:239-245 | A new object has no variable, and the store stays valid with it |
| InstanceVariables.IvarStore.NewCache | src/executor/bytecodegen/encode.rs:64-71 | A new cache is for its name, empty, and the store stays valid with it |
| InstanceVariables.IvarStore.GetIvarId | src/executor/globals/class/instance_var.rs:22-32 | The name's number; numbering stays a bijection and no object's variables change; no other name gets or changes a number |
| InstanceVariables.IvarStore.GetIvar | src/executor/globals/class/instance_var.rs:37-42 | The name-to-value map's entry |
| InstanceVariables.IvarStore.SetIvar | src/executor/globals/class/instance_var.rs:60-72 | Updates one entry of one object, or fails on a value without cells |
| InstanceVariables.IvarStore.GetInstanceVarWithCache | src/executor/globals/class/instance_var.rs:75-97 | Same result as the uncached read, whatever the cache held; afterwards the cache has this class and number, if there is one |
| InstanceVariables.IvarStore.SetInstanceVarWithCache | src/executor/globals/class/instance_var.rs:99-124 | Same effect as the uncached write, and all caches stay right; the cache has this class and number |
| Encoding.DecodeEncode | src/executor/inst.rs:1230-1441 | Decoding the word emitted for any instruction other than the cache placeholder gives back its operation, slots, signed immediates, optional result and ids |
| Encoding.FilledOperator | src/executor/inst.rs:1409-1428 | A word whose class caches have been written decodes to the integer operation if both classes are Integer, to the float operation if each is Integer or Float but not both Integer, else to the plain one, with kind and slots as emitted |
| Encoding.FilledCache | src/executor/inst.rs:1230-1441 | Class and id of an instance variable access, class and version of a call, and the code of a call's arguments are read back as written |
| Encoding.CacheIsIgnored | src/executor/inst.rs:1230-1441 | All other instructions without data in their second word decode as emitted, whatever is cached there |
| Encoding.GetIndexIsInjective | src/executor/globals/functions.rs:927-934 | Distinct valid registers have distinct slots below total_reg_num |
| Encoding.WwwReadsBack | src/executor/bytecodegen/encode.rs:301-303 | The four 16-bit fields read back |
| Encoding.WlReadsBack | src/executor/bytecodegen/encode.rs:289-291 | So do the 16-bit and 32-bit fields |
| Encoding.OpcodeTellsOperation | src/executor/bytecodegen/encode.rs:4-278 | Two instructions have the same opcode if and only if they are the same operation, kind of operator, branch sense and flags included |
| BytecodeLink.OperatorNumbers | src/executor/inst.rs:470-482 | The number of each operator and comparison within its group of opcodes |
| BasicBlocks.IrToBytecode | src/executor/bytecodegen/encode.rs:4-278 | One bytecode per instruction, each the encoding at its own position |
| BasicBlocks.GetBbInfo | src/executor/globals/functions.rs:856-923 | Marks exactly index 0 and the branch targets, numbers them in order, lists for each every branch source and then the fall-through predecessor |
| BasicBlocks.CollectBranches | src/executor/globals/functions.rs:856-923 | First loop: all branch sources of every position |
| BasicBlocks.NumberBlocks | src/executor/globals/functions.rs:856-923 | Second loop: blocks numbered by position |
| BasicBlocks.OneFallSource | src/executor/globals/functions.rs:856-923 | At most one instruction falls through to a position |
| BasicBlocks.BranchesAreLabels | src/executor/bytecodegen/encode.rs:20-61 | In encoded code, index plus one plus displacement is the label's position, for exactly the branches of the IR |
| BasicBlocks.FallsAreNeighbours | src/executor/globals/functions.rs:856-923 | Exactly the other instructions fall through, calls two words after their arguments |
| BasicBlocks.SkippedAreCaches | src/executor/bytecodegen.rs:1202-1219 | The words passed over are exactly the inline-cache placeholders |
| BasicBlocks.TargetsAreLabels | src/executor/globals/functions.rs:856-923 | A position is a target exactly if some IR branch's label stands there |
| Fixnums.TagReadsBack | src/value.rs:164-171 | Tagging is a bijection between 63-bit integers and odd words |
| Fixnums.TopBitsTellTheRange | src/value.rs:168-171 | The two top bits agree exactly on 63-bit integers |
| Flonums.ReadsBackExactly | src/value.rs:185-196 | A double reads back from its boxed form if and only if it is neither -0.0 nor 2^-255, both of which read back as 0.0 |
| Flonums.BoxedAlike | src/value.rs:185-196 | Two different doubles are boxed alike exactly if both are among 0.0, -0.0 and 2^-255 |
| Flonums.CompiledAgrees | src/executor/globals/compiler/jitgen.rs:576-599 | The compiled routines box and unbox exactly as the runtime does |
| Flonums.PackedExactly | src/value.rs:185-196 | Packed are the zeros and the doubles whose top exponent bits are 011 or 100 |
| Flonums.PackedIsApart | src/value.rs:332-349 | A packed double is no small integer, address, nil, boolean or symbol |
| Fixnums.IntAdd | src/executor/globals/compiler/vmgen.rs:939-946 | Overflow exactly when the sum leaves 63 bits, else the sum's tag |
| Fixnums.IntSub | src/executor/globals/compiler/vmgen.rs:948-955 | The same for the difference |
| Fixnums.IntAddImm | src/executor/globals/compiler/jitgen/binary_op.rs:143-208 | Immediate form of the sum |
| Fixnums.IntSubImm | src/executor/globals/compiler/jitgen/binary_op.rs:143-208 | Immediate form of the difference |
| Fixnums.IntShr | src/executor/globals/compiler/jitgen/binary_op.rs:670-717 | Right shift by any non-negative amount: the tag of the shifted integer |
| Fixnums.SarIsFloor | src/executor/globals/compiler/jitgen/binary_op.rs:687-717 | which is the quotient by the power of two, rounded down |
| Fixnums.IntBitOp | src/executor/globals/compiler/jitgen/binary_op.rs:642-668 | Or, and, exclusive or: the tag of the integers' bit operation |
| Fixnums.BitOpIsBitwise | src/executor/globals/compiler/vmgen.rs:1029-1078 | which is the operation on every bit of the two's complement, sign bits included |
| FrameInit.VmInitFunc | src/executor/globals/compiler/vmgen/init_method.rs:47-150 | Arity error exactly for too few arguments or too many without a rest parameter, never in a block; otherwise passed arguments, nil-filled required, zeroed optional parameters, the exact rest array, the block argument and nil temporaries |
| FrameInit.VmInitArgs | src/executor/globals/compiler/vmgen/init_method.rs:47-150 | The argument part of the frame |
| FrameInit.Fill | src/executor/globals/compiler/vmgen/init_method.rs:153-168 | The countdown loop fills exactly its slots |
| FrameInit.ExpandArg0 | src/executor/globals/compiler/vmgen/init_method.rs:170-205 | A lone array argument of a block is spread, nil-padded to the required number |
| FrameInit.SpreadsExactly | src/executor/globals/compiler/vmgen/init_method.rs:170-205 | It is spread exactly over two positional parameters or more; other arguments are taken as they are |
| FrameInit.MakeRestArray | src/executor/op.rs:427-433 | Replaces one slot by the array of the surplus arguments |
| FrameInit.JitInitFunc | src/executor/globals/compiler/jitgen.rs:1669-1787 | The compiled prologue's exact frame and error condition |
| FrameInit.ProloguesAgreeExactly | src/executor/globals/compiler/jitgen.rs:1669-1787 | The two prologues agree if and only if there is a positional parameter (or no arguments, or a block without rest parameter) and no block meets a block parameter |
| FrameInit.ProloguesPart | src/executor/globals/compiler/jitgen.rs:1669-1787 | Three calls: an argument for a method without parameters, an argument for a lone rest parameter, a block for a lone block parameter |

## Left out

- LoopScans.Analyse: loops with an inner loop, and loops with a call directly before a block start, are outside its requires: the scan passes over a call's second word without noticing the boundary, and keeps no back-edge state for inner loops. Where some paths that branch back leave a used slot in a register and others do not, whether and how it is reported is not told by paths alone: merging links does not commute with recording uses.
- JitRun.RunIsSafe: does not follow a run past an operation that is not faithful, or past a division by a register holding -0.0, where compiled code and interpreter part; `RunInStepExactly` and `ArithIsSafe` say when that is. Boxing is taken to keep every double but -0.0, which leaves out runs with 2^-255 in a register (`Flonums.ReadsBackExactly`).
- JitPath.PathIsSafe: takes as given that no operation reads a dead slot; `JitLoops.LoopIsSafe` derives that from the analysis for legs that run through a loop.
- JitLoops.LoopIsSafe: how each instruction is compiled is a relation (`JitLoops.Emitted`): a copy, a float operation, or operands written back or loaded and results stored.
- JitEdge.EdgePreservesMeaning: for edges that load a slot into a register that another slot shares, which the compiler does not emit, nothing is said.
- IrContexts.Compile: no method prologue, optional-argument tests or return instruction.
- IrContexts.IrContext.GenWhile: no loop stack for break, whose label is placed all the same.
- IrContexts.IrContext.GenWhileBeginPostfix: no loop stack for break.
- IrContexts.IrContext.GenMulAssign: targets are locals only.
- IrContexts.IrContext.GenExpr: the modelled constructs only, without the return mode.
- IrContexts.IrContext.GenStoreExpr: the modelled constructs only.
- BytecodeLink.WordsComeTo: frames of 2^16 slots or more and programs of 2^31 instructions or more, whose counters and displacements would not fit their words.
- Encoding.DecodeEncode: assumes operands within their 16 and 32 bits, and says nothing about the opcode 0 word of the inline-cache placeholder, which the decoder never meets at its own position.
- GlobalTables.Globals.Call: methods are added by definitions that bump the version; built-in definitions made before the program starts are the same step.
- Allocators.Allocator.Gc: one value stands for the root set; raw memory is not modelled.
- Back edges of compiled loops: the edge theorems apply wherever source and target are joinable, but that a back edge never pairs an unlinked slot with a register-only one is not proved.
- Float operations with an immediate operand, exponentiation and comparison in compiled code; NaN payloads.
- Compiler: break, next and return, method, class and block definitions, calls, non-local targets of assignments, overflow of the 16-bit temp counter, negation of the smallest 64-bit integer literal.
- x86 encoding, code pages, label patching in machine code, calling convention, compiled method calls and yield.
- Left shift, negation and multiplication of tagged integers, and big-integer representation.
- The constant inline cache: class creation sets constants without touching its version counter.
- Listing an object's instance variables; objects that change class between a cached access and the next.
- Arity checks at calls, keyword arguments, built-in functions, printing, files, the parser.
