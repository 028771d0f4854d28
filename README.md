# MyRiscVOSPy core, modelled in Dafny

MyRiscVOSPy is a small RISC-V "operating system" playground written in Python. It has two halves.

**Simulator:**
- a 32-entry register file with a program counter and one saved context;
- a flat, bounds-checked, little-endian byte memory;
- an interrupt controller with prioritised, maskable interrupt lines;
- a fetch/step/run loop. It has no instruction semantics yet: the handler table is empty, so executing a word only advances the pc;
- a disassembler that splits a 32-bit word into its RISC-V fields and opcode category.

**Task scheduler:**
- a table of tasks that move between READY, RUNNING, BLOCKED, SLEEPING and TERMINATED;
- a timer tick that wakes sleepers and ages waiting tasks;
- a context switch that saves the outgoing task's registers and loads the incoming task's registers;
- three policies picked by name: priority (preemptive), round-robin (time-sliced) and first-come-first-served.

## How the model is built

Each Python file is one Dafny module.

**Stateful components.** Every component that changes state in place (`Registers`, `Memory`, `InterruptController`, `Simulator`, `Scheduler`) has two parts:
- a pure state value with transition functions (`WriteReg`, `Store32`, `Trigger`, `StepOf`, `TickOf`, …);
- a class with the same fields, whose methods are proved to produce exactly the state the transition function gives (`State() == WriteReg(old(State()), n, v)`).

The lemmas about the transition functions state what the Python code promises:
- round trips (write-then-read, trigger-then-clear, encode-then-extract);
- frame conditions (only the written bytes change, only the named interrupt changes, only competing tasks move);
- invariants (`Wf`: task ids in order, exactly the current task RUNNING, priorities within their aging bounds);
- the worked examples of the unit tests.

**Representation choices.**
- Python exceptions are `Err(...)` results. A method that raises returns `Fail(e)` and leaves its state as the Python code leaves it.
- Tasks are kept in a `seq<Task>` in id order. The dictionary is keyed by ids 1, 2, 3, … and never shrinks, so task n sits at position n - 1.
- The current task is held as an id rather than an object reference.
- The clock reading `time.time()` used for `creation_time` is an integer parameter, `now`.
- The CLI can replace `_apply_aging` with a no-op. This is an `agingEnabled` flag on the scheduler.

**Behaviour modelled as written.**
- Round-robin selection looks up the current task among the READY ids. But the current task is RUNNING, so it is never found. Every rotation therefore restarts from the lowest READY id, and with three READY tasks the third is never reached (`Scheduling.RoundRobinSkipsThirdTask`).
- TERMINATED is not a final state. `block_task`/`sleep_task` overwrite it, and `unblock_task` then makes the task READY (`Scheduling.TerminatedCanBeRevived`).
- When the current task is terminated, blocked or put to sleep, it stops being current before `schedule()` runs. Its registers are therefore not saved into its context (`Scheduling.SetAsideOf`).
- When a round-robin slice runs out and no other task is READY, `schedule()` switches the current task out and the scheduler goes idle (`RoundRobinScheduler.LoneTaskGoesIdleAtExpiry`). The round-robin `tick()` only calls `schedule()` while there is a current task, so no later tick starts anything again (`Scheduling.IdleRoundRobinStaysIdle`). The shell's `step` and `tick` commands only call `tick()` (ui/cli.py:187, 561), so there a lone task stops for good after one slice.
- A pending interrupt is never cleared by the simulator. Every later step jumps to its handler again (`Simulation.PendingInterruptCapturesExecution`).

## Model

| member | source | states |
|---|---|---|
| Common.Mask32 | core/registers.py:80 | `v & 0xFFFFFFFF`: the result is congruent to v modulo 2^32, and is v itself when v is already a 32-bit value |
| Common.ArgMinFirst | scheduler/priority_scheduler.py:33-38 | Python `min` with a key over the eligible items in table order. None exactly when nothing is eligible. Otherwise an eligible index whose key is at most every eligible key and strictly below every earlier eligible key (ties go to the first) |
| RegisterFile.ZeroBank | core/registers.py:26 | all 32 registers hold 0 |
| RegisterFile.InitialRegs | core/registers.py:23-38 | after `__init__` and `reset` every register reads 0, the pc is 0 and there is no saved context |
| RegisterFile.ReadReg | core/registers.py:53-60 | `InvalidRegister` exactly for numbers outside 0..31; register 0 always reads 0 |
| RegisterFile.WriteReg | core/registers.py:73-80 | error exactly for numbers outside 0..31. Writing x0 changes nothing. Otherwise register n reads back `v & 0xFFFFFFFF`, and every other register, the pc and the saved context are unchanged |
| RegisterFile.SetPcTo | core/registers.py:91-98 | the pc becomes `v & 0xFFFFFFFF` and nothing else changes |
| RegisterFile.SaveContextOf | core/registers.py:114-126 | returns a copy of the registers and the pc and records that copy as the saved context, leaving the live registers and pc alone; restoring with no argument straight afterwards changes nothing |
| RegisterFile.RestoreContextOf | core/registers.py:135-141 | fails with `NoSavedContext` exactly when no context is given and none was saved. Otherwise registers and pc come from the given context, or from the saved one when none is given. The saved context itself is untouched |
| RegisterFile.SetPcThenGetPc | core/registers.py:89-98 | after `set_pc(v)`, `get_pc` returns `v & 0xFFFFFFFF` and every register reads as before |
| RegisterFile.SnapshotSurvivesLaterWrites | core/registers.py:121-141 | `save_context` returns a copy of the registers and pc. A later register write and `set_pc` leave it intact, and `restore_context()` brings the state back to the snapshot point |
| RegisterFile.Registers.constructor | core/registers.py:23-32 | a fresh register file: all zero, pc 0, nothing saved |
| RegisterFile.Registers.Reset | core/registers.py:34-38 | all 32 registers zero, pc 0, saved context cleared |
| RegisterFile.Registers.Read | core/registers.py:40-60 | returns what `ReadReg` gives for the current state and changes nothing |
| RegisterFile.Registers.Write | core/registers.py:62-80 | new state and outcome are those of `WriteReg`; on error nothing changes |
| RegisterFile.Registers.GetPc | core/registers.py:82-89 | returns the pc |
| RegisterFile.Registers.SetPc | core/registers.py:91-98 | the new state is `SetPcTo` of the old one |
| RegisterFile.Registers.SaveContext | core/registers.py:114-126 | returns the snapshot and records it as the saved context, as `SaveContextOf` says |
| RegisterFile.Registers.RestoreContext | core/registers.py:128-141 | new state and outcome are those of `RestoreContextOf`; on error nothing changes |
| MainMemory.Zeros | core/memory.py:21 | n zero bytes |
| MainMemory.SpanOk | core/memory.py:87-88 | checking only the first and the last address of an access checks every byte of it |
| MainMemory.Load8 | core/memory.py:51-52 | `OutOfBounds` exactly for addresses outside 0..size-1 |
| MainMemory.Store8 | core/memory.py:67-72 | same error condition. On success only byte a changes, and it reads back `v & 0xFF` |
| MainMemory.Load16 | core/memory.py:87-92 | error exactly when a or a+1 is invalid; the value is below 2^16, little-endian: its low byte is the byte at a and its high byte the byte at a+1 |
| MainMemory.Store16 | core/memory.py:102-107 | error exactly when a or a+1 is invalid; on success only bytes a and a+1 change, little-endian: byte a holds the low byte of the value and byte a+1 the next one |
| MainMemory.Load32 | core/memory.py:119-126 | error exactly when a or a+3 is invalid; the value is a 32-bit word, little-endian: byte k of the value is the byte at a+k |
| MainMemory.Store32 | core/memory.py:136-143 | error exactly when a or a+3 is invalid; on success only bytes a..a+3 change |
| MainMemory.LoadBlock | core/memory.py:156-159 | error exactly when a or a+n-1 is invalid. Otherwise the n bytes starting at a (none when n <= 0) |
| MainMemory.StoreBlock | core/memory.py:169-172 | error exactly when a or a+len(d)-1 is invalid, so an empty block at address 0 fails. On success only the block's bytes change |
| MainMemory.LittleEndianBytes | core/memory.py:140-143 | the bytes `(v >> 8k) & 0xFF` put back together give `v & 0xFFFF` (two bytes) and `v & 0xFFFFFFFF` (four bytes) |
| MainMemory.WriteByteThenRead | core/memory.py:51-72 | `read_byte(a)` after `write_byte(a, v)` returns `v & 0xFF` |
| MainMemory.WriteHalfThenRead | core/memory.py:87-107 | `read_half(a)` after `write_half(a, v)` returns `v & 0xFFFF`, and bytes a and a+1 hold the low and the high byte of v |
| MainMemory.WriteWordThenRead | core/memory.py:119-143 | `read_word(a)` after `write_word(a, v)` returns `v & 0xFFFFFFFF`, and byte a+k holds byte k of v |
| MainMemory.WriteBlockThenRead | core/memory.py:156-172 | `read_block(a, len(d))` after `write_block(a, d)` returns d |
| MainMemory.NoPartialWrites | core/memory.py:136-137 | a word write starting in range but running past the end fails, because both ends are checked before any byte is stored. So does a half-word write at the last byte |
| MainMemory.Memory.constructor | core/memory.py:13-21 | `size` bytes, all zero |
| MainMemory.Memory.Reset | core/memory.py:24-26 | a fresh all-zero array of the same size |
| MainMemory.Memory.CheckAddress | core/memory.py:28-39 | passes exactly for addresses in 0..size-1, otherwise `OutOfBounds` |
| MainMemory.Memory.ReadByte | core/memory.py:41-57 | returns `Load8` of the contents |
| MainMemory.Memory.WriteByte | core/memory.py:59-75 | contents and outcome are those of `Store8`; on error nothing changes |
| MainMemory.Memory.ReadHalf | core/memory.py:77-92 | returns `Load16` of the contents |
| MainMemory.Memory.WriteHalf | core/memory.py:94-107 | contents and outcome are those of `Store16`; on error nothing changes |
| MainMemory.Memory.ReadWord | core/memory.py:109-126 | returns `Load32` of the contents |
| MainMemory.Memory.WriteWord | core/memory.py:128-143 | contents and outcome are those of `Store32`; on error nothing changes |
| MainMemory.Memory.ReadBlock | core/memory.py:145-159 | returns `LoadBlock` of the contents |
| MainMemory.Memory.WriteBlock | core/memory.py:161-172 | contents and outcome are those of `StoreBlock`; on error nothing changes |
| Interrupts.Find | core/interrupts.py:106 | nothing exactly when no entry has the id; otherwise the position of an entry that has it |
| Interrupts.Lookup | core/interrupts.py:106-109 | the dictionary entry for an id: None exactly for unregistered ids, otherwise the entry carrying that id |
| Interrupts.Register | core/interrupts.py:85-94 | ids stay unique. Re-registering an id keeps the id order; a new id is appended (dictionary insertion order). The enabled flag is unchanged |
| Interrupts.RegisterLookup | core/interrupts.py:85-94 | after `register_interrupt` the id maps to the new, non-pending descriptor, and every other id maps to what it did before |
| Interrupts.StandardRegistration | core/interrupts.py:42-63 | the three standard registrations from an empty, enabled controller give the initial controller state |
| Interrupts.InitialInterrupts | core/interrupts.py:30-63 | the controller starts enabled with the three standard interrupts registered and none pending |
| Interrupts.SetPending | core/interrupts.py:109 | only the pending flag of that id changes |
| Interrupts.Trigger | core/interrupts.py:106-109 | `UnknownInterrupt` exactly for unregistered ids. Otherwise that interrupt becomes pending and nothing else changes |
| Interrupts.Clear | core/interrupts.py:121-124 | `UnknownInterrupt` exactly for unregistered ids. Otherwise that interrupt stops being pending and nothing else changes |
| Interrupts.AnyPending | core/interrupts.py:136 | `any(i.pending ...)`: true iff some entry is pending |
| Interrupts.HasPending | core/interrupts.py:133-136 | true iff the controller is enabled and some entry is pending |
| Interrupts.Highest | core/interrupts.py:145-153 | None iff disabled or nothing pending. Otherwise a pending entry of minimum priority, the earliest registered among ties |
| Interrupts.ClearAll | core/interrupts.py:67-68 | every entry with its pending flag cleared and nothing else changed |
| Interrupts.ResetOf | core/interrupts.py:65-69 | enabled, same ids in the same order, nothing pending, priorities, handlers and descriptions kept |
| Interrupts.FreshController | core/interrupts.py:37-63 | a new controller is enabled and holds exactly 7 (priority 10, 0x100), 11 (20, 0x200) and 3 (30, 0x300), none pending |
| Interrupts.HighestIffPending | core/interrupts.py:133-153 | the highest-priority query returns an interrupt exactly when `has_pending_interrupts` is true |
| Interrupts.DisableKeepsPending | core/interrupts.py:155-161 | while disabled nothing is pending or offered. Disable then enable is the same as enable alone, so an enabled controller offers the same interrupt afterwards |
| Interrupts.TriggerThenClear | core/interrupts.py:106-124 | clearing an interrupt just triggered from non-pending restores the controller exactly |
| Interrupts.TriggeredIsOfferedOrBeaten | core/interrupts.py:106-153 | after a trigger on an enabled controller something is pending, and the offered interrupt's priority is at most the triggered one's |
| Interrupts.TimerFirst | core/interrupts.py:145-153 | with all three standard interrupts pending, the timer interrupt (priority 10) is offered |
| Interrupts.ExternalAfterTimerCleared | core/interrupts.py:121-153 | clearing the timer then offers the external interrupt (priority 20) |
| Interrupts.InterruptController.constructor | core/interrupts.py:30-40 | the initial controller state |
| Interrupts.InterruptController.Reset | core/interrupts.py:65-69 | the new state is `ResetOf` the old one (the loop clears every flag) |
| Interrupts.InterruptController.RegisterInterrupt | core/interrupts.py:71-94 | the new state is `Register` of the old one; the returned descriptor is non-pending |
| Interrupts.InterruptController.TriggerInterrupt | core/interrupts.py:96-109 | new state and outcome are those of `Trigger`; on error nothing changes |
| Interrupts.InterruptController.ClearInterrupt | core/interrupts.py:111-124 | new state and outcome are those of `Clear`; on error nothing changes |
| Interrupts.InterruptController.SetFlag | core/interrupts.py:106-124 | the shared body of trigger and clear: an unknown id fails and changes nothing, a known one sets only its flag |
| Interrupts.InterruptController.HasPendingInterrupts | core/interrupts.py:126-136 | returns `HasPending` of the state |
| Interrupts.InterruptController.GetHighestPriorityInterrupt | core/interrupts.py:138-153 | returns `Highest` of the state |
| Interrupts.InterruptController.Enable | core/interrupts.py:155-157 | only the enabled flag changes, to true |
| Interrupts.InterruptController.Disable | core/interrupts.py:159-161 | only the enabled flag changes, to false |
| Disassembler.Opcode | utils/disassembler.py:48 | below 0x80, and the word minus it has its low seven bits clear |
| Disassembler.Rd | utils/disassembler.py:60 | below 32 |
| Disassembler.Rs1 | utils/disassembler.py:72 | below 32 |
| Disassembler.Rs2 | utils/disassembler.py:84 | below 32 |
| Disassembler.Funct3 | utils/disassembler.py:96 | below 8 |
| Disassembler.Funct7 | utils/disassembler.py:108 | the top seven bits, below 0x80 |
| Disassembler.ImmI | utils/disassembler.py:120-124 | low 12 bits are `w >> 20`; bits 31:20 when bit 31 is 0, otherwise those bits OR 0xFFFFF000; a sign-extended 12-bit value |
| Disassembler.ImmS | utils/disassembler.py:136-141 | bits 4:0 from w[11:7], bits 11:5 from w[31:25], sign from bit 31; a sign-extended 12-bit value |
| Disassembler.ImmB | utils/disassembler.py:153-160 | bit 0 clear; w[31] to bit 12, w[7] to 11, w[30:25] to 10:5, w[11:8] to 4:1; a sign-extended 13-bit value |
| Disassembler.ImmU | utils/disassembler.py:172 | `w & 0xFFFFF000`: low 12 bits zero, upper bits from the word |
| Disassembler.ImmJ | utils/disassembler.py:184-191 | bit 0 clear; w[31] to 20, w[19:12] to 19:12, w[20] to 11, w[30:21] to 10:1; a sign-extended 21-bit value |
| Disassembler.ImmSRange | utils/disassembler.py:136-141 | read as two's complement, the S immediate lies in -2048..2047 and is negative iff bit 31 of the word is set |
| Disassembler.ReassembleR | utils/disassembler.py:48-108 | funct7, rs2, rs1, funct3, rd and opcode put back in place give the word: the R-type fields lose no bit |
| Disassembler.ReassembleI | utils/disassembler.py:110-124 | the I-type fields put back give the word |
| Disassembler.ReassembleS | utils/disassembler.py:126-141 | the S-type fields put back give the word |
| Disassembler.ReassembleB | utils/disassembler.py:143-160 | the B-type fields put back give the word |
| Disassembler.ReassembleU | utils/disassembler.py:162-172 | the U-type fields put back give the word |
| Disassembler.ReassembleJ | utils/disassembler.py:174-191 | the J-type fields put back give the word |
| Disassembler.EncodeR | utils/disassembler.py:38-108 | `extract_funct7`, `extract_rs2`, `extract_rs1`, `extract_funct3`, `extract_rd` and `extract_opcode` read back every field of an R-type word that fits its width |
| Disassembler.EncodeI | utils/disassembler.py:38-96 | `extract_rs1`, `extract_funct3`, `extract_rd` and `extract_opcode` read back the fields of an I-type word |
| Disassembler.EncodeS | utils/disassembler.py:38-96 | `extract_rs2`, `extract_rs1`, `extract_funct3` and `extract_opcode` read back the fields of an S-type word |
| Disassembler.EncodeB | utils/disassembler.py:38-96 | `extract_rs2`, `extract_rs1`, `extract_funct3` and `extract_opcode` read back the fields of a B-type word |
| Disassembler.EncodeU | utils/disassembler.py:38-60 | `extract_rd` and `extract_opcode` read back the fields of a U-type word |
| Disassembler.EncodeJ | utils/disassembler.py:38-60 | `extract_rd` and `extract_opcode` read back the fields of a J-type word |
| Disassembler.EncodeIThenExtract | utils/disassembler.py:120-124 | `extract_imm_i` of an encoded word gives back any sign-extended 12-bit immediate |
| Disassembler.EncodeSThenExtract | utils/disassembler.py:136-141 | `extract_imm_s` gives back any sign-extended 12-bit immediate |
| Disassembler.EncodeBThenExtract | utils/disassembler.py:153-160 | `extract_imm_b` gives back any even, sign-extended 13-bit immediate |
| Disassembler.EncodeUThenExtract | utils/disassembler.py:172 | `extract_imm_u` gives back the immediate's upper 20 bits |
| Disassembler.EncodeJThenExtract | utils/disassembler.py:184-191 | `extract_imm_j` gives back any even, sign-extended 21-bit immediate |
| Disassembler.CategoryOf | utils/disassembler.py:17-28 | None exactly for opcodes missing from `OPCODES`. Otherwise the category whose opcode and table name match |
| Disassembler.CategoryOfOpcodeOf | utils/disassembler.py:521-544 | the dispatch chain and the opcode table are in one-to-one correspondence: a category is chosen exactly for its own opcode, and every category's opcode is in the table |
| Disassembler.FieldsOf | utils/disassembler.py:110-191 | the fields each format reads are always in range: registers below 32, function fields within their widths, immediates sign-extended, with a zero low bit for B and J and zero low 12 bits for U |
| Disassembler.Encode | utils/disassembler.py:521-542 | the word carries the category's opcode from the table, so it is never the "nop" word 0 |
| Disassembler.Reencode | utils/disassembler.py:521-544 | for each category, the fields its disassembler reads determine the word completely |
| Disassembler.Decode | utils/disassembler.py:518-544 | "nop" exactly for 0. UNKNOWN exactly for a non-zero word whose opcode is not in the table, keeping that opcode. Otherwise the table's category, with the fields its format's extractors read from the word; they are well formed and re-encode to the word |
| Disassembler.DecodeEncode | utils/disassembler.py:521-542 | the other direction: any well-formed fields of any category encode to a word that decodes to exactly that category and those fields |
| Disassembler.AddExample | tests/test_disassembler.py:14 | 0x003100B3 decodes as an OP instruction with rd 1, rs1 2, rs2 3, funct3 0, funct7 0 |
| Disassembler.AddExampleNames | utils/disassembler.py:31-36 | registers 1, 2 and 3 are named ra, sp and gp |
| Disassembler.DisplayedImmI | utils/disassembler.py:273 | as written: the true immediate when bit 31 is clear, and the true immediate plus 2^32 - 2^12 when it is set |
| Disassembler.DisplayedImmB | utils/disassembler.py:368 | as written: the true offset when bit 31 is clear, and the true offset plus 2^32 - 2^13 when it is set |
| Disassembler.DisplayedImmJ | utils/disassembler.py:416 | as written: the true offset when bit 31 is clear, and the true offset plus 2^32 - 2^21 when it is set |
| Disassembler.DisplayedImmINeverNegative | utils/disassembler.py:273 | as written, the displayed I immediate is never negative, so it differs from the true value for every negative immediate |
| Disassembler.DisplayedImmIExample | utils/disassembler.py:273 | `addi ra, sp, -1` (0xFFF10093) is shown with 4294963199 where -1 is meant |
| Disassembler.DisplayedImmBNeverNegative | utils/disassembler.py:368 | as written, the displayed branch offset is never negative |
| Disassembler.DisplayedImmBExample | utils/disassembler.py:368 | `beq ra, sp, -4` (0xFE208EE3) is shown with 4294959100 where -4 is meant |
| Disassembler.DisplayedImmJNeverNegative | utils/disassembler.py:416 | as written, the displayed jump offset is never negative |
| Disassembler.DisplayedImmJExample | utils/disassembler.py:416 | `jal zero, -4` (0xFFDFF06F) is shown with 4292870140 where -4 is meant |
| Disassembler.SignedImmI | utils/disassembler.py:273 | corrected: the I immediate as a signed value in -2048..2047, negative iff bit 31 is set, equal to `w >> 20` minus 4096 exactly when negative |
| Disassembler.SignedImmB | utils/disassembler.py:368 | corrected: the 13-bit branch offset read in two's complement, in -4096..4095, negative iff bit 31 is set |
| Disassembler.SignedImmJ | utils/disassembler.py:416 | corrected: the 21-bit jump offset read in two's complement, in -2^20..2^20-1, negative iff bit 31 is set |
| Simulation.ResetSim | core/simulator.py:40-46 | registers initial, memory all zero at the same size, interrupt controller reset, not running, cycle count 0 |
| Simulation.WriteWords | core/simulator.py:56-57 | memory size is kept; a failure is `OutOfBounds` |
| Simulation.LoadProgramOf | core/simulator.py:56-60 | on success the pc is set to the load address (masked). On failure the registers are untouched, because the exception comes before `set_pc`. Interrupts, running flag and cycle count never change |
| Simulation.WriteWordsSucceedsIffFits | core/simulator.py:56-57 | loading succeeds iff the program is empty or fits entirely in memory from the load address |
| Simulation.LoadedWordsReadBack | core/simulator.py:56-57 | after a successful load, word i reads back at a + 4i as `p[i] & 0xFFFFFFFF` |
| Simulation.LoadLeavesRest | core/simulator.py:56-57 | a successful load changes no byte outside the program's range |
| Simulation.PrefixFailureSticks | core/simulator.py:56-57 | once a word of the program fails to store, the load ends with what was already written: the earlier words stay in memory |
| Simulation.ExecuteOf | core/simulator.py:121-122 | with the empty handler table no instruction changes any state |
| Simulation.HandleInterruptOf | core/simulator.py:164-172 | with nothing offered nothing changes. Otherwise the context is saved, the pc jumps to the offered handler, and registers, memory and the controller are untouched (the interrupt stays pending) |
| Simulation.FetchAddress | core/simulator.py:73-77 | with an interrupt on offer the fetch address is its handler address masked to 32 bits, otherwise the pc |
| Simulation.RedirectOf | core/simulator.py:73-77 | the pc becomes the address the step fetches from; with an interrupt on offer the saved context is overwritten with the interrupted registers and pc, otherwise it is kept; registers, memory, controller, running flag and cycle count are unchanged |
| Simulation.FetchExecuteOf | core/simulator.py:77-94 | memory, interrupts, registers and saved context are untouched. An invalid fetch raises and changes nothing; the zero word stops the simulator and returns false; any other word counts one cycle, moves the pc 4 bytes on (masked) and returns true |
| Simulation.StepOf | core/simulator.py:62-94 | memory, interrupts and registers x0..x31 are untouched. True only when the simulator was and stays running, with exactly one more cycle; otherwise no cycle is counted, and false leaves the simulator stopped |
| Simulation.StepWhenStopped | core/simulator.py:69-70 | a step when not running returns false and changes nothing |
| Simulation.StepHaltsOnZeroWord | core/simulator.py:77-82 | fetching 0 stops the machine and returns false, with cycle count, memory, registers and fetch pc unchanged |
| Simulation.StepAdvances | core/simulator.py:85-94 | a non-zero word counts one cycle, keeps running, and moves the pc to fetch address + 4 (masked); nothing else changes |
| Simulation.StepFetchFault | core/simulator.py:77-78 | a fetch outside memory raises: the step fails with `OutOfBounds`, still running, with no cycle counted |
| Simulation.StepTakesInterrupt | core/simulator.py:73-78 | with a pending interrupt, the step fetches from the offered handler's address, after saving the interrupted registers and pc |
| Simulation.PendingInterruptCapturesExecution | core/simulator.py:73-74 | the interrupt is not cleared, so after a successful step it is still pending and the next step fetches from the same handler again |
| Simulation.RunLoop | core/simulator.py:184-191 | memory and interrupts are untouched; a stopped simulator or a used-up bound ends the loop at once without error |
| Simulation.RunOf | core/simulator.py:174-191 | memory and interrupts are untouched; with a bound of 0 only the running flag is set |
| Simulation.RunLoopCycles | core/simulator.py:184-191 | the loop counts between 0 and budget cycles. If it ends running without failure it used the whole budget. Memory and interrupts are untouched |
| Simulation.RunBounded | core/simulator.py:181-191 | `run(max_cycles)` executes at most `max_cycles` cycles, and exactly that many when it stops only because of the bound |
| Simulation.Simulator.constructor | core/simulator.py:17-32 | initial registers, 1 MiB of zeros, the initial interrupt controller, not running, cycle count 0 |
| Simulation.Simulator.Reset | core/simulator.py:40-46 | the new state is `ResetSim` of the old one |
| Simulation.Simulator.LoadProgram | core/simulator.py:48-60 | new state and outcome are those of `LoadProgramOf` (word writes in a loop) |
| Simulation.Simulator.Step | core/simulator.py:62-94 | new state and result are those of `StepOf` |
| Simulation.Simulator.FetchExecute | core/simulator.py:77-94 | new state and result are those of `FetchExecuteOf` |
| Simulation.Simulator.ExecuteInstruction | core/simulator.py:96-122 | state unchanged, as `ExecuteOf` says |
| Simulation.Simulator.HandleInterrupt | core/simulator.py:164-172 | the new state is `HandleInterruptOf` of the old one |
| Simulation.Simulator.Run | core/simulator.py:174-191 | new state and outcome are those of `RunOf`: running set, then the bounded loop of steps |
| Simulation.Simulator.TriggerInterrupt | core/simulator.py:196-203 | controller state and outcome are those of `Trigger` |
| SchedulerBase.InitialSched | scheduler/scheduler_base.py:67-73 | no tasks, no current task, next id 1; well formed |
| SchedulerBase.HasTaskIffListed | scheduler/scheduler_base.py:118 | `task_id in self.tasks` holds exactly when some task carries that id |
| SchedulerBase.CreateTaskOf | scheduler/scheduler_base.py:90-106 | id = next id, which then increments. The task is appended, READY, with live priority equal to the original, run count 0, no context, and stack pointer `0x80000000 - id * stack_size`. Last run time, wake time and total runtime are 0 and the creation time is `now`. Nothing else changes |
| SchedulerBase.CreatePreservesWf | scheduler/scheduler_base.py:90-106 | creation keeps the table well formed. The new id was not in use and exceeds every earlier id (ids unique and increasing) |
| SchedulerBase.StartRegs | scheduler/scheduler_base.py:287-290 | a fresh task starts with all registers 0 except sp = its stack pointer, pc = its entry point, nothing saved |
| SchedulerBase.WithState | scheduler/scheduler_base.py:162-164 | one task's state is replaced; nothing else of that task, no other task and nothing else of the scheduler changes |
| SchedulerBase.SwitchOutOf | scheduler/scheduler_base.py:258-268 | with a current task: it is no longer RUNNING, its context is a copy of the registers and pc, which is also the saved context, and its last run time is the tick count; no other task and no other field changes. Without one, nothing changes |
| SchedulerBase.SwitchInOf | scheduler/scheduler_base.py:274-298 | the new task becomes current, RUNNING, with one more run; with a context its registers and pc are restored, without one the registers are reset and get its entry point and stack pointer; no other task changes |
| SchedulerBase.ContextSwitchOf | scheduler/scheduler_base.py:245-304 | keeps the table well formed. The new task (or none) is current. `context_switches` grows by exactly 1, also when switching to idle |
| SchedulerBase.ContextSwitchLeavesOthers | scheduler/scheduler_base.py:258-304 | tasks other than the outgoing and incoming one are untouched |
| SchedulerBase.ContextSwitchSavesOutgoing | scheduler/scheduler_base.py:258-268 | the outgoing task becomes READY, with the register snapshot as its context and the tick count as its last run time |
| SchedulerBase.ContextSwitchResumes | scheduler/scheduler_base.py:277-298 | a task with a context gets its registers and pc back, becomes RUNNING, and its run count grows by 1 |
| SchedulerBase.ContextSwitchStartsFresh | scheduler/scheduler_base.py:285-298 | a task without context starts at its entry point with sp set and every other register 0, and becomes RUNNING with run count + 1 |
| SchedulerBase.ContextSwitchToIdle | scheduler/scheduler_base.py:258-275 | switching to none leaves no task RUNNING |
| SchedulerBase.Wake | scheduler/scheduler_base.py:200-201 | only the state can change, it changes exactly for a sleeper whose wake-up time has come, and it becomes READY |
| SchedulerBase.WakeAll | scheduler/scheduler_base.py:199-201 | only states change, and only sleepers change at all |
| SchedulerBase.WakeAllWakesDue | scheduler/scheduler_base.py:199-201 | exactly the SLEEPING tasks whose wake time has come become READY; every other task is untouched |
| SchedulerBase.Age | scheduler/scheduler_base.py:217-224 | only the priority can change, only for a READY task, by exactly one step and never below 1 |
| SchedulerBase.AgeAll | scheduler/scheduler_base.py:216-224 | only priorities change, each by at most one step upwards |
| SchedulerBase.AgingStep | scheduler/scheduler_base.py:216-224 | a READY task with priority > 1 that last ran more than 100 ticks ago drops exactly one priority step, not below 1. All other tasks, and all other fields, are unchanged |
| SchedulerBase.AgingKeepsPrioritiesSane | scheduler/scheduler_base.py:220-224 | aging never raises a priority above the original, and never pushes it below 1 |
| SchedulerBase.BaseTickOf | scheduler/scheduler_base.py:196-204 | tick count + 1 and the table stays well formed. Current task, registers, switch count and slice unchanged |
| SchedulerBase.StatsOf | scheduler/scheduler_base.py:330-342 | tick count and context-switch count are the scheduler's; task count is the table size; the running task is the current task, reported iff some task is RUNNING, and it is that task |
| PriorityScheduler.HighestPriorityReady | scheduler/priority_scheduler.py:33-38 | None iff no task is READY. Otherwise a READY task of minimum priority, the lowest id among ties |
| PriorityScheduler.PriorityScheduleOf | scheduler/priority_scheduler.py:47-61 | keeps the table well formed |
| PriorityScheduler.PriorityScheduleRunsSelected | scheduler/priority_scheduler.py:47-61 | `schedule` returns the selected task and makes it current, switching context exactly when it differs from the current task |
| PriorityScheduler.PrioritySwitchesAway | scheduler/priority_scheduler.py:52-53 | with any READY task present, `schedule` always switches away from the RUNNING current task |
| PriorityScheduler.PriorityPreemptOf | scheduler/priority_scheduler.py:70-78 | the preemption check keeps the table well formed |
| PriorityScheduler.PreemptsWhenStrictlyBetter | scheduler/priority_scheduler.py:77-78 | a READY task with strictly lower priority value than the current one makes the check reschedule to the best READY task |
| PriorityScheduler.NoPreemptionWithoutBetter | scheduler/priority_scheduler.py:77 | when no READY task beats the current priority strictly, nothing changes |
| PriorityScheduler.NoPreemptionWhenIdle | scheduler/priority_scheduler.py:70-71 | without a current task the check changes nothing |
| RoundRobinScheduler.ReadyIds | scheduler/round_robin_scheduler.py:36-43 | the list is empty exactly when no task is READY; it has at most one id per task |
| RoundRobinScheduler.ReadyIdsListReady | scheduler/round_robin_scheduler.py:36-43 | an id is in the list iff its task is READY |
| RoundRobinScheduler.ReadyIdsAscending | scheduler/round_robin_scheduler.py:43 | the list is strictly ascending, as `sorted` makes it |
| RoundRobinScheduler.SuccessorInAscending | scheduler/round_robin_scheduler.py:49-50 | in an ascending list, the entry after x is the next larger member: nothing in the list lies strictly between them |
| RoundRobinScheduler.IndexOf | scheduler/round_robin_scheduler.py:47 | `list.index`: the first position holding x |
| RoundRobinScheduler.NextRoundRobin | scheduler/round_robin_scheduler.py:36-57 | any task returned is READY |
| RoundRobinScheduler.NoneIffNothingReady | scheduler/round_robin_scheduler.py:36-38 | no task is returned iff no task is READY |
| RoundRobinScheduler.StartsFromSmallest | scheduler/round_robin_scheduler.py:52-57 | with no current task, or one that is not READY, the smallest READY id is returned |
| RoundRobinScheduler.RoundRobinRotates | scheduler/round_robin_scheduler.py:43-51 | with a READY current task and a larger READY id, the next larger READY id is returned |
| RoundRobinScheduler.RoundRobinWraps | scheduler/round_robin_scheduler.py:49-50 | with a READY current task and no larger READY id, the smallest READY id is returned |
| RoundRobinScheduler.RoundRobinRestartsFromLowest | scheduler/round_robin_scheduler.py:52-54 | in every well-formed state (the current task is RUNNING, never READY) the choice is the smallest READY id |
| RoundRobinScheduler.RoundRobinScheduleOf | scheduler/round_robin_scheduler.py:66-81 | keeps the table well formed |
| RoundRobinScheduler.RoundRobinScheduleRunsSelected | scheduler/round_robin_scheduler.py:66-81 | `schedule` returns the selection and makes it current. The slice counter goes back to 0 exactly when a task other than the current one is selected, and is kept when the scheduler goes idle; a change of task costs one context switch |
| RoundRobinScheduler.RoundRobinSliceOf | scheduler/round_robin_scheduler.py:92-98 | the slice accounting keeps the table well formed |
| RoundRobinScheduler.SliceStaysBelow | scheduler/round_robin_scheduler.py:92-98 | with a time slice of at least 1, the slice counter stays below it across the accounting and across `schedule` |
| RoundRobinScheduler.SliceNotYetExpired | scheduler/round_robin_scheduler.py:92-96 | before expiry the accounting only increments the slice counter |
| RoundRobinScheduler.SliceExpiryHandsOver | scheduler/round_robin_scheduler.py:66-98 | when the slice runs out and some task is READY: the current task is READY again with its registers, pc and tick saved, the smallest READY id runs with the slice counter at 0, and one switch is counted |
| RoundRobinScheduler.LoneTaskGoesIdleAtExpiry | scheduler/round_robin_scheduler.py:66-98 | when the slice runs out and no other task is READY: the current task is switched out to READY, nothing runs, the slice counter is 0, and further slice accounting leaves this idle state alone |
| FcfsScheduler.OldestReady | scheduler/fcfs_scheduler.py:33-38 | None iff nothing is READY. Otherwise a READY task with minimum last run time, the lowest id among ties |
| FcfsScheduler.FcfsScheduleOf | scheduler/fcfs_scheduler.py:48-61 | keeps the table well formed and returns the task that is current afterwards |
| FcfsScheduler.FcfsKeepsCurrent | scheduler/fcfs_scheduler.py:48-49 | with a current (hence RUNNING) task, `schedule` changes nothing and returns it |
| FcfsScheduler.FcfsPicksOldest | scheduler/fcfs_scheduler.py:52-61 | without a current task it switches to the oldest READY task, or changes nothing if there is none |
| Scheduling.ScheduleOf | scheduler/scheduler_base.py:235-243 | the policy's `schedule`: the returned task is current afterwards. Clock, table size and next id unchanged; well formed |
| Scheduling.PreemptOf | scheduler/scheduler_base.py:226-233 | the policy's preemption check (a no-op except for priority): well formed, clock and table size unchanged |
| Scheduling.TickOf | scheduler/scheduler_base.py:190-207 | a tick advances the clock by exactly 1 and keeps the table well formed |
| Scheduling.StoreAsideOf | scheduler/scheduler_base.py:122-126 | the task's new record replaces the old one; if it was current, there is no current task |
| Scheduling.SetAsideOf | scheduler/scheduler_base.py:122-127 | store the record; a task that was not current changes nothing else. If it was current, `schedule` runs on the stored state and its choice is the new current task, and no task other than a READY or RUNNING one changes; a record that is not READY survives the rescheduling and the task is not current afterwards, so its registers are not saved into its context; the table stays well formed |
| Scheduling.TerminateOf | scheduler/scheduler_base.py:118-127 | `TaskNotFound` exactly for unknown ids; otherwise well formed, the task's record is its old one with state TERMINATED whatever state it was in, and the task is not current afterwards. A task that was not current changes nothing else; if it was current, the policy's `schedule` choice becomes current and only READY or RUNNING tasks besides it may change |
| Scheduling.BlockOf | scheduler/scheduler_base.py:139-148 | `TaskNotFound` exactly for unknown ids; otherwise well formed, the task's record is its old one with state BLOCKED whatever state it was in, and the task is not current afterwards. A task that was not current changes nothing else; if it was current, the policy's `schedule` choice becomes current and only READY or RUNNING tasks besides it may change |
| Scheduling.SleepOf | scheduler/scheduler_base.py:178-188 | `TaskNotFound` exactly for unknown ids; otherwise well formed, the task's record is its old one with state SLEEPING and wake time = tick count + ticks whatever state it was in, and the task is not current afterwards. A task that was not current changes nothing else; if it was current, the policy's `schedule` choice becomes current and only READY or RUNNING tasks besides it may change |
| Scheduling.UnblockOf | scheduler/scheduler_base.py:160-165 | `TaskNotFound` exactly for unknown ids. A BLOCKED task becomes READY; any other state leaves everything unchanged |
| Scheduling.SwitchMovesOnlyActive | scheduler/scheduler_base.py:258-304 | a switch to a READY task or to idle moves only READY/RUNNING tasks, and they stay READY/RUNNING |
| Scheduling.ScheduleMovesOnlyActive | scheduler/scheduler_base.py:235-243 | no policy's `schedule` touches a BLOCKED, SLEEPING or TERMINATED task |
| Scheduling.PreemptAndSliceMoveOnlyActive | scheduler/round_robin_scheduler.py:89-98 | neither the preemption check nor the slice accounting touches a task that is not competing |
| Scheduling.TickPerTask | scheduler/scheduler_base.py:196-207 | per task, one tick: a due sleeper becomes READY or RUNNING, a not-yet-due sleeper is untouched, a competing task keeps competing, and BLOCKED and TERMINATED tasks are untouched |
| Scheduling.TicksOf | scheduler/scheduler_base.py:190-207 | n ticks advance the clock by n, keeping the table well formed |
| Scheduling.SleeperWakesInTime | scheduler/scheduler_base.py:199-201 | a sleeper whose wake time falls within the next n ticks is competing after them |
| Scheduling.StaysActive | scheduler/scheduler_base.py:190-207 | a READY or RUNNING task is still READY or RUNNING after any number of ticks |
| Scheduling.TerminatedCanBeRevived | scheduler/scheduler_base.py:139-165 | nothing guards TERMINATED: block then unblock makes a terminated task READY |
| Scheduling.BlockThenUnblock | scheduler/scheduler_base.py:139-165 | blocking a READY, non-current task and unblocking it restores the state exactly |
| Scheduling.Created | scheduler/scheduler_base.py:76-106 | `create_task` with the default stack: one more task, still well formed |
| Scheduling.ThreeTasks | tests/test_scheduler.py:87-106 | three fresh READY tasks with the given priorities, no contexts, no current task |
| Scheduling.PriorityExample | tests/test_scheduler.py:87-117 | with priorities 1, 5, 10 the first `schedule()` picks task 1 and starts it at 0x1000 |
| Scheduling.RoundRobinExample | tests/test_scheduler.py:165-166 | with three fresh tasks the first round-robin `schedule()` picks task 1 |
| Scheduling.RoundRobinAlternates | scheduler/round_robin_scheduler.py:52-54 | with tasks 1..3 READY except the current one (1 or 2), `schedule` picks the other of 1 and 2 and leaves task 3 alone |
| Scheduling.RoundRobinSkipsThirdTask | scheduler/round_robin_scheduler.py:43-57 | three successive `schedule()` calls on three equal tasks run 1, 2, 1: task 3 is never chosen |
| Scheduling.FcfsTerminateHandsOver | scheduler/fcfs_scheduler.py:52-61 | terminating the current task 1 hands the processor to READY task 2, and a further `schedule()` keeps it |
| Scheduling.FcfsExample | tests/test_scheduler.py:187-210 | task 1 (priority 5) runs before task 2 (priority 1); after task 1 is terminated, task 2 is selected |
| Scheduling.IdlePriorityTick | scheduler/priority_scheduler.py:70-71 | with no current task a priority tick is just the base tick, and stays idle |
| Scheduling.IdleReadyStaysReady | scheduler/scheduler_base.py:196-207 | on an idle priority scheduler a READY task stays READY through any number of ticks |
| Scheduling.IdleSleeperWakes | scheduler/scheduler_base.py:199-201 | on an idle priority scheduler a sleeper due within n ticks is READY after them |
| Scheduling.IdleRoundRobinStaysIdle | scheduler/round_robin_scheduler.py:89-98 | with the round-robin policy and no current task, no number of ticks makes any task current |
| Scheduling.SleepExample | tests/test_scheduler.py:62-79 | `sleep_task(1, 10)` makes the task SLEEPING with wake time 10, and ten ticks later it is READY, with or without aging |
| Scheduling.Scheduler.constructor | scheduler/scheduler_base.py:60-73 | an empty scheduler over the given register file and policy, with aging on |
| Scheduling.Scheduler.CreateTask | scheduler/scheduler_base.py:76-106 | new state and returned task are those of `CreateTaskOf` |
| Scheduling.Scheduler.SwitchOut | scheduler/scheduler_base.py:258-268 | the new state is `SwitchOutOf` of the old one: the outgoing task is saved |
| Scheduling.Scheduler.SwitchIn | scheduler/scheduler_base.py:275-298 | the new state is `SwitchInOf` of the old one: the incoming task is loaded |
| Scheduling.Scheduler.ContextSwitch | scheduler/scheduler_base.py:245-304 | the new state is `ContextSwitchOf` of the old one |
| Scheduling.Scheduler.Schedule | scheduler/scheduler_base.py:235-243 | new state and result are those of `ScheduleOf` for the scheduler's policy |
| Scheduling.Scheduler.SetAside | scheduler/scheduler_base.py:122-127 | the new state is `SetAsideOf` of the old one |
| Scheduling.Scheduler.TerminateTask | scheduler/scheduler_base.py:108-127 | new state and outcome are those of `TerminateOf`; on error nothing changes |
| Scheduling.Scheduler.BlockTask | scheduler/scheduler_base.py:129-148 | new state and outcome are those of `BlockOf`; on error nothing changes |
| Scheduling.Scheduler.SleepTask | scheduler/scheduler_base.py:167-188 | new state and outcome are those of `SleepOf`; on error nothing changes |
| Scheduling.Scheduler.UnblockTask | scheduler/scheduler_base.py:150-165 | new state and outcome are those of `UnblockOf`; on error nothing changes |
| Scheduling.Scheduler.WakeSleepers | scheduler/scheduler_base.py:199-201 | the loop leaves the task list equal to `WakeAll` of the old one; nothing else changes |
| Scheduling.Scheduler.ApplyAging | scheduler/scheduler_base.py:209-224 | the loop leaves the task list equal to `AgeAll` of the old one; nothing else changes |
| Scheduling.Scheduler.CheckPreemption | scheduler/priority_scheduler.py:63-78 | the new state is `PreemptOf` of the old one for the policy |
| Scheduling.Scheduler.BaseTick | scheduler/scheduler_base.py:196-204 | the new state is `BaseTickOf` of the old one |
| Scheduling.Scheduler.AccountSlice | scheduler/round_robin_scheduler.py:92-98 | the new state is `RoundRobinSliceOf` of the old one |
| Scheduling.Scheduler.Tick | scheduler/scheduler_base.py:190-207 | the new state is `TickOf` of the old one, with the aging flag in force |
| Scheduling.Scheduler.GetSchedulerStats | scheduler/scheduler_base.py:330-342 | returns `StatsOf` of the state |
| Scheduling.Scheduler.SetAgingEnabled | ui/cli.py:806-807 | turns aging on or off and changes nothing else |
| SchedulerFactory.PolicyFor | scheduler/scheduler_factory.py:29-36 | an error (`UnknownSchedulerType`) exactly for names other than "priority", "round-robin" and "fcfs"; round-robin gets the given time slice |
| SchedulerFactory.NameRoundTrip | scheduler/scheduler_factory.py:29-36 | for every time slice, every policy is produced by its own name (round-robin with its own slice), and every accepted name is the name of the policy it produces |
| SchedulerFactory.CreateScheduler | scheduler/scheduler_factory.py:13-36 | a fresh, empty scheduler with the named policy over the given register file, or the error for an unknown name |

## Left out

- Text output is not modelled:
  - `Memory.dump`;
  - the disassembler's mnemonic strings and the word-for-word answers hard-coded for particular instruction words (utils/disassembler.py:210-211, 420-421, 502-517). `Decode` stops at the opcode category and the fields;
  - every `verbose`/`debug` print;
  - `get_status`, `get_all`, `get_state`, `get_task_stats` and `get_scheduler_type`.
- The disassembler is modelled on 32-bit words (`bv32`) only. The Python field extractors accept any integer, and for an argument wider than 32 bits some keep the upper bits (`extract_imm_u` masks only the low 12 bits away, utils/disassembler.py:162-172). Every caller in the core passes a word read by `read_word`, which is below 2^32.
- With `verbose` on, `context_switch` raises `AttributeError`: at scheduler/scheduler_base.py:272 whenever there is an outgoing task, and otherwise at :284 when the incoming task has a saved context. Both lines read `.pc` and `.registers` on the context, but `save_context` returns a dictionary (core/registers.py:121-126). At line 272 the outgoing task has already been made READY and its context and last run time saved, but `current_task` has not changed yet. At line 284 the incoming task is already current with its registers restored, but it is not yet RUNNING and its run count and the switch count have not moved. The model follows the non-verbose path only; these exception paths and the half-done switches they leave are not modelled.
- The `preemptions` counter is left out. It is initialised and never changed (scheduler/scheduler_base.py:73).
- `total_runtime` is never updated in the Python code, so it stays 0. `creation_time` is the `now` parameter instead of a clock reading.
- `run(None)`, the unbounded run, is left out. It need not terminate (an uncleared pending interrupt redirects every step), and `Run` takes a natural-number bound.
- The `time.sleep` pacing inside `run` is left out. It has no effect on state.
- Instruction semantics are not modelled. The handler table is empty, so `ExecuteOf` is the identity.
- Tasks are values addressed by id, not shared objects. Code outside the scheduler that holds a `Task` reference and mutates it (the unit tests assign `current_task` and `current_slice` directly) is not modelled.
- The simulator's reference to its interrupt controller and the controller's back-reference to the simulator are not modelled (the back-reference is never used).
- The interactive shell, the visualisation, the presets, the sample tasks and `main.py` are not part of this model.
- `SchedulerFactory.CreateScheduler` takes the simulator's register file rather than the whole simulator, because the scheduler uses only the registers.

## Findings

| source | as written | input that shows it | evidently intended | confidence | as-written member | corrected member |
|---|---|---|---|---|---|---|
| utils/disassembler.py:273 | `imm_signed = imm if imm < 0x800 else imm - 0x1000`, applied to an immediate `extract_imm_i` has already sign-extended to 32 bits | 0xFFF10093 (`addi ra, sp, -1`) is rendered with 4294963199 | the signed 12-bit immediate, -1 | not executed | Disassembler.DisplayedImmIExample | Disassembler.SignedImmI |
| utils/disassembler.py:368 | `imm_signed = imm if imm < 0x1000 else imm - 0x2000`, applied to the already sign-extended branch offset | 0xFE208EE3 (`beq ra, sp, -4`) is rendered with 4294959100 | the signed branch offset, -4 | not executed | Disassembler.DisplayedImmBExample | Disassembler.SignedImmB |
| utils/disassembler.py:416 | `imm_signed = imm if imm < 0x100000 else imm - 0x200000`, applied to the already sign-extended jump offset | 0xFFDFF06F (`jal zero, -4`) is rendered with 4292870140 | the signed jump offset, -4 | not executed | Disassembler.DisplayedImmJExample | Disassembler.SignedImmJ |

`Disassembler.DisplayedImmINeverNegative`, `Disassembler.DisplayedImmBNeverNegative` and `Disassembler.DisplayedImmJNeverNegative` extend each row to all words: as written, the shown value is never negative, so it is wrong for every negative immediate. The four negative-immediate words of the disassembler's unit tests (0xFFB22193, 0xFE419EE3, 0xFE83DCE3 and 0xFEC5F863, at tests/test_disassembler.py:34, 79, 85 and 91) are answered by the hard-coded strings at utils/disassembler.py:502-515, so they never reach these lines.
