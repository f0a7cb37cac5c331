# fox32: a verified model

fox32 is a 32-bit fantasy computer: an assembler that can write a relocatable executable
format (FXF), two interchangeable interpreters for one instruction set, a kernel with a
relocating loader and a cooperative scheduler, and a ROM with an event queue, number
routines and a file reader. This Dafny project models those parts and proves what holds
across them. `dafny verify dfyconfig.toml` checks everything.

## How the project is laid out

Words, Arithmetic, Memory and WordArrays give bounded machine words, operand sizes,
little-endian memory and the address map. Everything else follows the components:

| files | component |
|---|---|
| Asm, Backpatching, Targets, Assembler | the assembler: what one pass records (functions), and the pass, the shared instruction objects, the in-place patching and the file writing as they run (classes) |
| Emission, Placement, Encoding | direct emission as a reference; label addresses; decoding what was encoded |
| Relocation, Linking, Fxf, Loader | the FXF format, the loader's loop, and relocation against assembly |
| Core, CoreMachine | the C interpreter as functions on machine states, and as one mutable machine proved against them |
| Cpu, CpuMachine | the same for the Rust interpreter and its memory map |
| ArithmeticLaws, Meaning, Steps | what instructions compute, in sums, products, quotients and bits, and what a step has written where |
| Lockstep, Completion, Differences, Lengths, CoreRuns, Interrupts, Restart, Recovery, Branches | properties of the interpreters, alone and together |
| Runtimes | the two machines run side by side |
| EventQueue, EventMemory | the event queue under interrupts, as small steps; and its routines on bytes in RAM |
| Tasks, TaskSwitcher | the task queue over whole runs; and its routines on the scheduler's memory |
| Compositor, Numbers, Ryfs | the overlay compositor; number printing and parsing; whole-file reading |

A class method is stated against a function of the values before it, and the lemmas are
about those functions. In CoreMachine and CpuMachine every instruction handler is proved
against the function of that instruction in Core or Cpu; the table below lists the routines
that make whole steps and runs. A C panic (longjmp) is an outcome that keeps the state reached so
far; undefined behaviour of C is an outcome of its own. A Rust panic is `None` or `false`.

## Where the code differs from what one might expect

* Relocation does not always commute with assembly. A field that holds a *distance* comes
  out wrong whatever it measures: if it names a constant, the distance changes when the
  program moves and the loader does not touch it; if it names an ordinary label, the distance
  stays and the loader adds the base to it all the same. The theorem is therefore an
  equivalence (`Fxf.RelocationCommutesWithAssembly`): it holds exactly when every such field is
  too narrow to notice the move. `Fxf.WordDistanceBreaks` shows that an `rjmp`, `rcall`, `rloop`
  or `rta` to any label always breaks it, and `Fxf.DistanceToConstantBreaks` gives a four-line
  program, `const c: 0`, a label, a `data.32` of it and `rjmp c`, whose file is relocated
  wrongly at address 0. A padded origin also depends on the start address and is excluded.
* A failing C step leaves memory and the instruction pointer alone, but not always the rest
  of the state: a push, pop, call or return has moved the stack pointer, a loop has counted
  r31 down, IN has read its port, and arithmetic has set its flags before its last operand
  can fail. `Restart.FailedStepKeepsState` says for every instruction exactly when the state
  is kept, `Restart.FailingPushStep` is one step where it is not, and
  `Recovery.RestartsUnchanged` says what that means for running the instruction again.
* `new_task` is described as jumping to the new task immediately. It does so exactly when no
  other task is queued (`Tasks.NewTaskRunsAtOnce`); otherwise the oldest queued task
  continues, as in `Tasks.NewTaskWaits`.
* Entering a handler in the C interpreter marks the machine as halted; the Rust interrupt
  path does not (`Interrupts.RaisesAgreeExceptHalted`).
* The Rust memory accepts writes to ROM, and the Rust decoder accepts jumps, port access and
  returns in every size; the C interpreter reports an error for both. `Completion.RunsFollow` says that a
  covered run the Rust interpreter completes is completed by the C one, to the same end, if and
  only if no step of it does either; `Completion.OnlyRustPushesIntoRom` is a step that does.
* The two interpreters also differ where lock step leaves an instruction out; `Differences`
  says what each of them does for BRK, a skipped LOOP, CMP or IN, LOOP through r31, RTA through a
  pointer and POP through the stack pointer.
* The event queue's first use is not safe under interrupts: an event that comes between the two
  instructions that set an unset pointer is lost (`EventQueue.FirstUseLosesEvent`,
  `EventQueue.FirstUseKeepsOnlyEmpty`). First in, first out holds for every run in which that
  does not happen, and for every run of a queue already in use (`EventQueue.FifoOnceInUse`).
* An overlay that reaches past the right edge is drawn with its rows shortened to the
  visible width. `Compositor.BlitOverlay` states what is drawn then too;
  `Compositor.OwnImage` says exactly when it is the overlay's own image, and
  `Compositor.ClippedOverlayIsSkewed` gives one where it is not.
* Boot runs the kernel itself under task ID 0 together with the first task, so the ID
  bitmap is exact only from the point `Tasks.BootIsConsistent` names; a first task that ends
  before it ever yields makes the kernel panic.
* Reading a file always copies whole 506-byte payloads, whatever the file's size.

## Model

| member | source | states |
|---|---|---|
| Fxf.RelocationCommutesWithAssembly | fox32os/kernel/fxf/reloc.asm:8-57 | for every program without origins whose label fields are words (constants apart), loading its FXF file at any base and relocating it leaves at base+0x24 exactly the raw binary assembled for base+0x24, if and only if every field that holds a distance is too narrow to notice the move; header, table and the rest of memory are untouched, for any order of the table |
| Fxf.WordDistanceBreaks | fox32asm/src/main.rs:92-102 | every such program with a word-sized distance, to a constant or to an ordinary label, is relocated wrongly at every base |
| Fxf.DistanceToConstantBreaks | fox32asm/src/main.rs:65-70 | a concrete program meeting the other hypotheses whose FXF file, loaded at address 0 and relocated, differs from the program assembled for where it lies |
| Fxf.FileBegins | fox32asm/src/main.rs:398-428 | a file begins with the magic bytes and version 0, the code's length and empty extern and global tables |
| Fxf.ImageReads | fox32asm/src/main.rs:398-462 | reading a loaded FXF file at the header's offsets gives the code pointer, the table size and place, the code and every entry |
| Loader.FxfReloc | fox32os/kernel/fxf/reloc.asm:8-57 | the in-place loop adds the relocation address once to every word the table names and to nothing else, and returns that address |
| Loader.ParseFxfBinary | fox32os/kernel/fxf/fxf.asm:8-13 | loading an assembled FXF file leaves, at the returned address, the raw binary assembled for that address, if and only if no field that holds a distance notices the move |
| Relocation.OrderDoesNotMatter | fox32os/kernel/fxf/reloc.asm:41-54 | two tables with the same entries, in any order, have the same effect on memory |
| Relocation.RelocateWord | fox32os/kernel/fxf/reloc.asm:41-54 | each addressed word has grown by the relocation address exactly once |
| Relocation.RelocateOutside | fox32os/kernel/fxf/reloc.asm:41-54 | bytes outside every addressed word are unchanged |
| Linking.PassesMoved | fox32asm/src/main.rs:352-381 | assembling from address o succeeds exactly when assembling from 0 does, and gives the same code with labels and addresses moved by o |
| Linking.ChunkRelocates | fox32asm/src/main.rs:92-102 | adding o to one instruction's relocatable fields gives that instruction assembled o further on, if and only if its distances do not notice |
| Linking.CodeRelocates | fox32asm/src/main.rs:92-102 | the same for the whole code and the whole relocation table, whose entries never overlap |
| Emission.BackpatchingIsDirectEmission | fox32asm/src/main.rs:348-394 | placeholders and backpatching give, for every tree, start and label table, the bytes of one-pass emission with the final labels; one succeeds exactly when the other does |
| Emission.NodePatchesToEmission | fox32asm/src/main.rs:966-1001 | one node's patched placeholders are its directly emitted bytes |
| Backpatching.FillOne | fox32asm/src/main.rs:61-85 | writing an address (or its distance) over a field fills that field and changes no other byte |
| Backpatching.RelocsAdd | fox32asm/src/main.rs:92-102 | the relocation entries gathered label by label are, in whatever order, the same entries |
| Targets.ChunksListed | fox32asm/src/main.rs:1154-1177 | after a pass each name's target list holds exactly its uses, in source order |
| Targets.BackpatchTarget.Write | fox32asm/src/main.rs:61-85 | the field of the shared instruction is overwritten with the little-endian address or distance, cut to the field |
| Assembler.Assembler.GenerateBackpatchImmediate | fox32asm/src/main.rs:1154-1177 | appends the placeholder bytes and lists the field under its label |
| Assembler.Assembler.NodeToImmediateValues | fox32asm/src/main.rs:1179-1264 | appends the operands, source first, and lists their fields |
| Assembler.Assembler.AssembleNode | fox32asm/src/main.rs:966-1001 | gives a new instruction with the node's bytes, or fails exactly where the source panics |
| Assembler.Assembler.AddNode | fox32asm/src/main.rs:352-381 | one round of the assembling loop takes the pass from one state to the next |
| Assembler.Assembler.AddNodes | fox32asm/src/main.rs:352-381 | the whole loop performs the pass, and fails exactly when it does |
| Assembler.Assembler.WriteTarget | fox32asm/src/main.rs:61-85 | patching one target fills one more hole of the whole program and leaves every other instruction alone |
| Assembler.Assembler.PerformBackpatching | fox32asm/src/main.rs:92-102 | all uses of one label are patched, and their places noted unless it is a constant |
| Assembler.Assembler.Backpatch | fox32asm/src/main.rs:383-394 | in whatever order the table yields its keys, every instruction ends up patched and the noted places are a permutation of the relocation table; fails exactly if a used label is undefined |
| Assembler.Assembler.WriteFxf | fox32asm/src/main.rs:396-462 | the header, code and table written piece by piece, with the two table fields filled in last, are the FXF image |
| Assembler.Assemble | fox32asm/src/main.rs:345-462 | the whole assembler: succeeds exactly when the pass does and all used labels are defined, and then writes the resolved code, or the FXF image with some permutation of the relocation table |
| Placement.LabelsAreTrueOffsets | fox32asm/src/main.rs:349-381 | a label's address is the start plus the number of output bytes before it, and those bytes are the output of what precedes it |
| Placement.LabelsAreTrueOffsetsFromOrigin | fox32asm/src/main.rs:361-363 | the same counted from one leading origin |
| Placement.NodeStandsAtOffset | fox32asm/src/main.rs:375-380 | an instruction's bytes stand in the output at its recorded address less the start |
| Encoding.HalfDecodes | fox32asm/src/main.rs:1021-1152 | the opcode half of every instruction node decodes to that instruction, condition, size and operand kinds |
| Encoding.EmitsWhatTheAssemblerEmits | fox32asm/src/main.rs:1179-1264 | a well-formed label-free node emits, and its bytes depend neither on labels nor on its address |
| Encoding.NodeResolves | fox32asm/src/main.rs:1179-1264 | any instruction node, labels included, emits exactly if its destination can be written and its labels are defined, and then the bytes of the same instruction with each label replaced by its address, or its distance, cut to the field |
| Encoding.DirectIsEmitAll | fox32asm/src/main.rs:352-381 | direct emission of instructions, label definitions and constants gives the resolved instructions' bytes one after the other, and fails exactly if an instruction does |
| Encoding.SweepRecovers | fox32/src/cpu.rs:2666-2760 | a list of instructions, label definitions and constants assembles if and only if every destination can be written and every name used is defined, and then a linear sweep over the assembler's output recovers every instruction in order, with each label operand read as its address or distance |
| Encoding.LabelFreeSweepRecovers | fox32/src/cpu.rs:2666-2760 | without labels, every list of well-formed instructions assembles and is recovered as it was |
| Encoding.LabelsReachTheirCode | fox32asm/src/main.rs:352-394 | sweeping the output from a label's address less the start recovers the instructions behind the label |
| Encoding.DecodingIsFaithful | fox32/src/cpu.rs:2666-2760 | two well-formed nodes decode alike if and only if they differ only in what the decoder discards: NOP's condition, and the size of jumps, RTA and port access on registers |
| Encoding.AssembledLength | fox32asm/src/main.rs:1179-1264 | the bytes emitted for a node are as many as its decoded instruction takes, labels included |
| Branches.RelativeBranchesLand | fox32core/fox32.c:613-614 | an assembled word-sized rjmp, rcall or rta naming label L, in a program lying in RAM or ROM d away from where it was assembled for, reaches L+d modulo 2^32 in both interpreters, with the return address pushed or the register set |
| Branches.BranchBytes | fox32asm/src/main.rs:65-70 | what both memories give a machine standing at such an instruction: its opcode half, the label's distance from it, and the register |
| Steps.StepsMean | fox32core/fox32.c:751-932 | a completed C step of any arithmetic, logical, shift, rotate, bit, test or move instruction has put the mathematical result, carry and zero flag where its operands say, keeping a register's high bits on a narrow write (zeroing them for MOVZ), and has changed nothing else |
| Steps.CpuStepsMean | fox32/src/cpu.rs:254-276 | the same of a covered step of the Rust interpreter that the C one follows |
| Meaning.CarryLaw | fox32core/fox32.c:590-592 | ADD, SUB, MUL and IMUL give the sum, difference and product modulo the size, and the carry exactly on overflow |
| Meaning.ZeroLaw | fox32core/fox32.c:594-611 | division and remainder (signed ones truncate towards zero), AND, OR and XOR bit by bit, shifts as multiplication and division by powers of two, rotations as moving bits round, and one bit set or cleared |
| Meaning.CpuLaw | fox32/src/cpu.rs:302-2167 | the same of every two-operand operation of the Rust interpreter, whose shift counts and bit numbers are cut to the width and whose shifts take their carry from a bit of the count |
| Meaning.TargetWrites | fox32core/fox32.c:511-551 | a completed destination write has changed exactly that register or those bytes; a narrow register write keeps the high bits, a zero-extending one clears them |
| ArithmeticLaws.BitwiseLaws | fox32core/fox32.c:596-598 | each bit of AND, OR and XOR is that of the operands' bits |
| ArithmeticLaws.NotLaw | fox32core/fox32.c:682 | NOT turns every bit over |
| ArithmeticLaws.RotateLaw | fox32core/fox32.c:604-611 | a left and a right shift that fill the width together move every bit round |
| ArithmeticLaws.SignedShiftLaw | fox32core/fox32.c:600 | SRA divides the two's complement reading, rounding down |
| Lockstep.RunsAgree | fox32core/fox32.c:751-932 | from the same state, for any number of steps, when both interpreters complete a run of covered instructions they end in the same registers, flags, memory and bus history |
| Completion.RunsFollow | fox32core/fox32.c:751-932 | a covered run the Rust interpreter completes is completed by the C interpreter, with the same end state, if and only if no step of it writes ROM or is a word-only instruction encoded in another size |
| Completion.StepCompletes | fox32core/fox32.c:399-415 | the same for one step |
| Completion.OnlyRustPushesIntoRom | fox32/src/memory.rs:29-50 | a push with the stack pointer one word into ROM completes in Rust and not in C |
| Lockstep.StepAgrees | fox32/src/cpu.rs:254-276 | the same for one step |
| Differences.BrkDiffers | fox32core/fox32.c:776-782 | BRK reports the debugger's error in C and does nothing in Rust |
| Differences.SkippedLoopDiffers | fox32/src/cpu.rs:2289-2303 | a LOOP whose condition fails counts r31 down in Rust only, and both go on with the next instruction |
| Differences.LoopThroughCounterDiffers | fox32core/fox32.c:635-645 | LOOP r31 jumps to the counted-down value in C and to the value before in Rust |
| Differences.SkippedCmpDiffers | fox32core/fox32.c:718-725 | a CMP whose condition fails sets the flags in C only |
| Differences.SkippedInDiffers | fox32core/fox32.c:784-788 | an IN whose condition fails reads its port in Rust only |
| Differences.RtaThroughPointerDiffers | fox32core/fox32.c:797-801 | RTA through a pointer writes at the pointer in C, and at the instruction's address plus the pointer in Rust |
| Differences.PopThroughStackDiffers | fox32core/fox32.c:660-665 | POP through the stack pointer writes above the popped value in C and over it in Rust |
| Lockstep.SourceAgrees | fox32core/fox32.c:470-490 | both read the same source operand, and move equally far |
| Lockstep.TargetAgrees | fox32core/fox32.c:511-535 | both write the same destination operand |
| Lockstep.AddAgrees | fox32/src/cpu.rs:302-400 | ADD, SUB and MUL agree, flags included, executed or not |
| Lockstep.AndAgrees | fox32/src/cpu.rs:978-1067 | DIV, REM, AND, OR and XOR agree |
| Lockstep.CmpAgrees | fox32/src/cpu.rs:2078-2167 | CMP agrees when its condition holds |
| Lockstep.BtsAgrees | fox32/src/cpu.rs:1996-2077 | BTS agrees when its condition holds and the bit lies in the operand |
| Lockstep.MovAgrees | fox32/src/cpu.rs:2168-2269 | MOV, and MOVZ into a register, agree |
| Lockstep.LoopAgrees | fox32/src/cpu.rs:2289-2303 | LOOP and RLOOP agree when the condition holds and the operand is not r31 |
| Lockstep.CallAgrees | fox32/src/cpu.rs:2279-2288 | CALL and RCALL agree |
| Lockstep.RetiAgrees | fox32/src/cpu.rs:2483-2493 | RETI agrees |
| Lengths.CoreAdvancesByLength | fox32core/fox32.c:580-633 | a completing C instruction that does not transfer control advances by its length, executed or skipped |
| Lengths.CpuAdvancesByLength | fox32/src/cpu.rs:277-2575 | the same for Rust, executed or not |
| Lengths.DecodersAgreeOnLength | fox32/src/cpu.rs:2666-2760 | both decoders assign every opcode half the same length |
| CoreRuns.FailingStepIsClean | fox32core/fox32.c:934-939 | a step that reports an error has changed neither RAM, ROM nor the instruction pointer, and leaves the machine halted |
| CoreRuns.FailingPushMovesStack | fox32core/fox32.c:443-454 | a push that fails has moved the stack pointer and changed nothing else; from stack pointer 0 it does fail |
| Restart.FailedStepKeepsState | fox32core/fox32.c:635-734 | a failing step leaves exactly the state before it, marked as halted, if and only if: PUSH and CALL fail at the condition or the operand; POP, RET, RETI and LOOP at the condition; IN before a port is read; NOT, INC, DEC and arithmetic at an operand or with flags that already are what they become; every other instruction always |
| Restart.FailingPushStep | fox32core/fox32.c:667-671 | one concrete failing step that has moved the stack pointer |
| Restart.AddKeeps | fox32core/fox32.c:698-707 | checked arithmetic that fails keeps the state if and only if its condition or an operand fails, or both flags already are what they become |
| Restart.InKeeps | fox32core/fox32.c:784-788 | IN that fails keeps the state if and only if it has read no port |
| CoreRuns.RomIsConstant | fox32core/fox32.c:400-415 | no sequence of steps, resumptions and interrupts, failing or not, changes ROM |
| CoreRuns.ResumeComposes | fox32core/fox32.c:941-951 | resuming for a and then b steps gives the state, first error and instruction count of resuming for a+b, and a call starts at most its count of instructions |
| CoreRuns.ResumeStops | fox32core/fox32.c:941-951 | a call without error used up its count or found the machine halted |
| Core.Execute | fox32core/fox32.c:751-932 | a panic anywhere in an instruction leaves RAM, ROM, the instruction pointer and the halted flag as they were |
| Core.Target | fox32core/fox32.c:511-535 | a destination write that panics has changed no memory |
| Recovery.RecoverEnters | fox32core/fox32.c:122-128 | recovering enters the handler at vector 0 for the debugger, 1 for a memory fault, 2 for an illegal opcode, condition, register or immediate, 3 for a division, 4 for the bus |
| Recovery.EveryFailureHasHandler | fox32core/fox32.c:973-992 | every error of a step has an exception vector; recovering succeeds exactly when interrupts are on and the frame fits, and then the error's handler is entered |
| Recovery.FailedInstructionRestarts | fox32core/fox32.c:953-992 | after recovering, a handler that keeps its frame and stack pointer and ends in RETI continues at the instruction that failed, with the flags and stack pointer the failing step left and everything else as the handler left it; the handler entered is the error's, and entering it changes RAM only in the frame |
| Recovery.RestartsUnchanged | fox32core/fox32.c:953-992 | behind a handler that gives everything back, the failed instruction runs again from the state it failed in, frame bytes and halted mark apart, if and only if it keeps the state when it fails |
| Interrupts.CoreRaiseSucceeds | fox32core/fox32.c:953-971 | raising succeeds if and only if interrupts are on and five bytes of stack fit |
| Interrupts.CoreInterruptRoundTrip | fox32core/fox32.c:953-971 | raise, any handler keeping the five bytes and the stack pointer, and RETI restore instruction pointer, stack pointer and flags; raise changes no other RAM |
| Interrupts.CpuInterruptRoundTrip | fox32/src/cpu.rs:232-240 | the same for the Rust request path |
| Interrupts.CpuRaiseSucceeds | fox32/src/cpu.rs:210-240 | an enabled request succeeds if and only if the five bytes lie in RAM or in ROM |
| Interrupts.FlagRoundTrip | fox32/src/cpu.rs:17-33 | the flags byte and the flags convert back and forth without loss |
| Interrupts.RaisesAgreeExceptHalted | fox32core/fox32.c:953-971 | the two ways into a handler agree in everything but the halted flag |
| CoreMachine.Machine.constructor | fox32core/fox32.c:349-357 | a new machine is halted at the start of ROM, with everything else zero |
| CoreMachine.Machine.Source | fox32core/fox32.c:470-509 | reads an operand of any kind and moves the cursor past it, or panics |
| CoreMachine.Machine.Target | fox32core/fox32.c:511-551 | writes an operand of any kind, keeping a register's high bits on a narrow write, and nothing else |
| CoreMachine.Machine.Execute | fox32core/fox32.c:751-932 | one instruction changes the machine as specified, data instructions as Steps.StepsMean says; a panic leaves RAM, ROM and the instruction pointer alone |
| CoreMachine.Machine.Step | fox32core/fox32.c:934-939 | one step with its report; a failing one leaves memory and the instruction pointer alone, and the rest of the state exactly under the condition of Restart |
| CoreMachine.Machine.Resume | fox32core/fox32.c:941-951 | the counting loop performs the specified run, with the first error; it starts at most its count of instructions, stops early only when halted or failing, and never changes ROM |
| CoreMachine.Machine.Raise | fox32core/fox32.c:953-971 | enters a handler as specified, and succeeds if and only if interrupts are on and the frame fits |
| CoreMachine.Machine.Recover | fox32core/fox32.c:973-992 | enters the handler of the error's exception, at the address in that exception's vector |
| CpuMachine.Processor.constructor | fox32/src/cpu.rs:58-67 | starts at the ROM with stack, registers and flags zero, on the given memory |
| CpuMachine.Processor.Read | fox32/src/memory.rs:29-46 | reads what the address map says or panics |
| CpuMachine.Processor.Write | fox32/src/memory.rs:29-50 | writes RAM or ROM in place or panics |
| CpuMachine.Processor.ExecuteMemoryInstruction | fox32/src/cpu.rs:254-276 | one step: fetch, decode, execute, advance; data instructions as Steps.CpuStepsMean says |
| CpuMachine.Processor.Interrupt | fox32/src/cpu.rs:210-240 | does nothing while interrupts are off; otherwise succeeds if and only if the frame lies in memory, saves pointer and flags in the five bytes below the stack, enters the vector's handler, and a RETI behind any handler that gives the frame back returns to the interrupted state |
| Runtimes.RunBoth | fox32/src/main.rs:109-134 | the two machines, started in the same state on separate memories, are in the same state after any covered run neither fails, and one fails exactly if the Rust one does or a step is not one the C one follows |
| EventQueue.FifoUnderInterleavings | fox32rom/event.asm:55-109 | under every interleaving of the main program with the handler in which no event comes while an unset pointer is being set, whenever interrupts are on the events produced are those delivered, then one being returned, then the queue, in order; and what all returns of event_next and event_wait have handed over are the delivered events, with "no event" in between |
| EventQueue.FifoOnceInUse | fox32rom/event.asm:55-109 | from a queue whose pointer is set, the same for every interleaving whatever |
| EventQueue.FirstUseKeepsOnlyEmpty | fox32rom/event.asm:111-114 | setting an unset pointer keeps every event if and only if none has come since it was found unset |
| EventQueue.FirstUseLosesEvent | fox32rom/event.asm:111-114 | a concrete run, of event_next called for the first time and one interrupt, that loses its event |
| EventQueue.CallsInitialise | fox32rom/event.asm:45-57 | calling event_next or event_wait sets an unset pointer and goes on to the comparison or to sleep |
| EventQueue.EmptyQueueReturnsNoEvent | fox32rom/event.asm:55-60 | on an empty queue event_next returns type 0xFFFFFFFF with zero parameters and leaves the queue alone |
| EventQueue.EventNewAdds | fox32rom/event.asm:99-109 | in seven steps the handler's event stands behind the others, the pointer is one slot higher, and r8 and the stack are as before |
| EventQueue.WaitSleeps | fox32rom/event.asm:45-53 | event_wait sleeps with interrupts on, and when woken sleeps again exactly if the queue is empty |
| EventQueue.IclFindsQueueNonEmpty | fox32rom/event.asm:58-62 | whenever the masking icl is reached the queue is still not empty, and no step can leave the queue's memory |
| EventQueue.ActionKeeps | fox32rom/event.asm:61-109 | every single step, of the main program or the handler, keeps the conservation invariant, unless it is an event coming while an unset pointer is being set |
| EventQueue.DequeueTakesOldest | fox32rom/event.asm:61-97 | from the icl, with n events queued, exactly 5n+9 steps later the oldest is in the registers, the others are one slot lower, and r8, r9 and the stack are restored |
| EventMemory.StoreEvent | fox32rom/event.asm:147-164 | eight words are stored and nothing else changes |
| EventMemory.EventNew | fox32rom/event.asm:99-109 | the event joins the end of the queue in RAM; memory outside the queue is unchanged |
| EventMemory.TakeOldest | fox32rom/event.asm:61-97 | the oldest event is taken out and the others keep their order |
| EventMemory.EventNext | fox32rom/event.asm:55-97 | the oldest event, or the empty event if there is none |
| Tasks.OperationConserves | fox32os/kernel/task.asm:10-81 | each operation keeps the ID bitmap set exactly for the current and queued tasks, one task an ID, and never fills more than 32 slots, not even before it takes a task out; ending panics exactly on an empty queue |
| Tasks.RoundRobin | fox32os/kernel/task.asm:28-81 | after a task yields or adds a task, each other task alive runs exactly once, in queue order, and then it continues with the return address and stack pointer it had just after its call |
| Tasks.NewTaskRunsAtOnce | fox32os/kernel/task.asm:3-43 | a new task continues immediately if and only if no task was queued; otherwise the oldest queued one does |
| Tasks.NewTaskWaits | fox32os/kernel/task.asm:3-43 | a concrete scheduler in which another task continues instead |
| Tasks.WaitsItsTurn | fox32os/kernel/task.asm:54-81 | a queued task runs after exactly those before it, whatever they do, at its saved address and stack |
| Tasks.BootIsConsistent | fox32os/kernel/main.asm:76-89 | boot reaches a state with an exact bitmap once the first task has yielded or added a task; if it ends first, and only then, the kernel panics on the empty queue |
| Tasks.OneBit | fox32os/kernel/task.asm:11 | marking and unmarking an ID change one bit of the bitmap |
| TaskSwitcher.Scheduler.SwitchToNext | fox32os/kernel/task.asm:54-81 | the head of the queue continues and the slots shift down in place |
| TaskSwitcher.Scheduler.YieldTask | fox32os/kernel/task.asm:28-43 | the current task is queued behind its call and the next continues |
| TaskSwitcher.Scheduler.NewTask | fox32os/kernel/task.asm:10-43 | the new task and then the caller are queued, inside the 32 slots, and the next continues |
| TaskSwitcher.Scheduler.EndCurrentTask | fox32os/kernel/task.asm:45-81 | the ID is given up and the next task continues; panics on an empty queue |
| TaskSwitcher.Scheduler.GetUnusedTaskId | fox32os/kernel/task.asm:88-98 | the lowest unused ID from 1 to 31, or 0 if there is none |
| Compositor.Display.Update | fox32/src/main.rs:314-326 | after the loops every byte of the screen is the one composed from the background and the overlays |
| Compositor.TopmostIsShown | fox32/src/main.rs:321-325 | that byte belongs to the highest-numbered enabled overlay that is opaque there |
| Compositor.BackgroundIsShown | fox32/src/main.rs:317-319 | and to the background where no overlay is opaque |
| Compositor.BlitOverlay | fox32/src/main.rs:342-385 | merging changes exactly the pixels where the overlay is opaque, clipped at the bottom and right |
| Compositor.OwnImage | fox32/src/main.rs:349-354 | an overlay shows its own row and column at a covered position if and only if it fits the screen's width or the position is in its first row |
| Compositor.ClippedOverlayIsSkewed | fox32/src/main.rs:349-354 | a concrete clipped overlay whose second row shows a pixel of its first |
| Compositor.BlitPixel | fox32/src/main.rs:370-382 | a pixel is copied if its alpha byte is not zero |
| Numbers.StringToInt | fox32rom/integer.asm:10-62 | for any terminated string and radix, the positional value of its alphanumeric characters modulo 2^32, the same for its upper-case form |
| Numbers.DigitCharacters | fox32rom/integer.asm:22-52 | decimal digits stand for 0 to 9, letters of either case for 10 to 35, and no other character for a digit |
| Numbers.CaseDoesNotMatter | fox32rom/integer.asm:43-52 | a text and its upper-case form have the same digits |
| Numbers.DecimalString | fox32rom/draw_text.asm:278-291 | the digit loop leaves the decimal digits and a terminator on the stack |
| Numbers.HexString | fox32rom/draw_text.asm:318-335 | the rotate loop draws the eight hexadecimal digits, most significant first |
| Numbers.PrintedParsesBack | fox32rom/integer.asm:10-62 | parsing what is printed gives the number back, for every 32-bit number, in both notations |
| Numbers.DecimalRoundTrip | fox32rom/draw_text.asm:278-291 | the digit loop and string_to_int on the same memory give back every 32-bit number |
| Numbers.HexRoundTrip | fox32rom/draw_text.asm:318-335 | the drawn hexadecimal characters, stored and parsed, give the number back |
| Numbers.MulAddResidue | fox32rom/integer.asm:53-55 | reducing after every digit gives the residue of the full value |
| Ryfs.ReadWholeFile | fox32rom/ryfs.asm:227-269 | for a chain of sectors that ends, the loop ends with the destination holding the payloads in chain order, and nothing else changed but the sector buffer |
| Ryfs.WrittenFileReads | fox32rom/ryfs.asm:227-269 | a file laid out as 506 bytes behind six header bytes a sector, with the next sector's number in the third and fourth, is a chain whose contents are that file |
| Ryfs.CopyMemoryBytes | fox32rom/memory.asm:11-26 | copies a byte run and changes nothing else |
| Ryfs.ReadSector | fox32rom/disk.asm:12-25 | fills the buffer with the sector of the disk the low byte names |
| Ryfs.ChainIsUnique | fox32rom/ryfs.asm:252-262 | the first sector determines the file |
| Ryfs.ChainIsAcyclic | fox32rom/ryfs.asm:252-262 | a chain that ends visits no sector twice |
| Words.LoadStore | fox32core/fox32.c:417-441 | reading back a little-endian write gives the value, cut to the size |
| Words.LittleEndian | fox32core/fox32.c:132-146 | the lowest byte comes first |
| Words.LoadStoreDisjoint | fox32core/fox32.c:417-441 | a write does not disturb a disjoint read |

## Left out

- Text parsing, includes and the assembler's current-size and current-condition cells: the model starts from syntax trees.
- FXF programs whose relocatable labels are in fields narrower than a word, and loading a file with an empty relocation table: the loader always adds a word, in a loop that tests after decrementing.
- Encoding.SweepRecovers: operands are as wide as their instruction, which the parser ensures; data among the instructions is not swept, because a linear sweep cannot tell it from code. A leading origin is covered through Placement.LeadingOrigin.
- Output sizes beyond the address space: table size and pointer are cut to 32 bits as in the source, but the loader theorem is about files that lie in RAM.
- Lockstep.StepAgrees: does not cover BRK, shifts, rotates, BSE, BCL, RTA with a pointer destination, false-condition CMP, BTS, LOOP and IN, or POP through RSP; the two sources define these differently, as Differences, Meaning and Steps say for each. IMUL, IDIV and IREM exist only in C.
- Lockstep.RunsAgree: speaks of runs both interpreters complete; Completion.RunsFollow replaces the half about the C side. When the Rust side fails where the C side completes (it reads operands of instructions it skips, and whole words through register pointers) is not stated.
- Core.Execute: the debug disassembly print, the stored panic code and error strings have no counterpart; the host's safe push and pop wrappers are not modelled.
- Core.Unchecked: division by zero, the smallest 32-bit number divided by minus one, and shift counts below 0 or above 31 are undefined in C and an outcome of their own here; shifting a promoted operand left past bit 31 is taken as GCC and Clang define it.
- Cpu.Compute: additions wrap and shift counts are masked as in a release build; a debug build would panic on overflow.
- The Rust exception path (handle_exception), debug printing and the bad-opcode memory dump.
- EventQueue.FifoUnderInterleavings: the handler adds events only while fewer than 32 are queued, and events are added only by the handler; what the queue does beyond 32 events, event_new from the main program with interrupts on, and the F12 monitor are not modelled. Copying one event is one step; the byte-level routines are in EventMemory.
- TaskSwitcher.Scheduler.YieldTask: the return address on top of the caller's stack is a parameter and rsp a field; the rest of the stacks, and the registers a switch does not save, are not modelled.
- Compositor.BlitOverlay: requires an overlay that does not start off screen and whose visible image lies in RAM; the source indexes out of range otherwise.
- Numbers.DecimalString: drawing glyphs is left out; so are the saved registers on the stack.
- Numbers.HexString: the drawn characters are a sequence instead of glyphs.
- Ryfs.ReadWholeFile: saving registers on the stack is not modelled; disks are a map from disk and sector number to 512 bytes, and the controller's port commands are one call.
- Loader.FxfReloc: saving r1 to r5 on the stack is not modelled.
- The I/O bus is a function of the transfer history whose devices do not write to memory; windows, audio, disks behind ports and the host's threads are outside.
- Partial file reads, directory lookup, the bump allocator, text and rectangle drawing, menus, mouse and the monitor: left out as easy or as drawing.
