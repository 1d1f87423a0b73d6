# pio_chip execution core in Dafny

This project models the programmable I/O chip's execution core: the
behaviour that its Verilator/GoogleTest benches drive and check. These parts
are modelled:

- the **program counter** with its wrap window, at 5 bits (`tests/`) and at
  4 bits (`tb/`);
- the **transmit FIFO**, four 32-bit entries in a ring;
- the **state machine** (FSM): decode and execution of `JMP` and `SET`, the
  X and Y scratch registers, and the one-edge delay between a taken jump
  and the new program counter;
- the **output shift register** (OSR): MOV loads and OUT left shifts;
- the **output arbitration**: a fixed-priority merge of the four machines
  of a core, a per-pin core-select mux, and the full chip arbitrator that
  composes the two;
- the **instruction register file**: 32 words of 16 bits.

The RTL itself is not part of this model. Each component is written from
what its bench drives and asserts.

Each clocked component has two layers:

- a pure next-state function on a value (`NextPc`, `FifoNext`, `FsmNext`,
  `OsrNext`, `Written`);
- a class whose `Step` method updates its fields or array in place and is
  proved equal to that function.

The lemmas about the functions state what the hardware promises: queue
order, wrap windows, bit-exact merge rules, and round trips between
encoding and decoding. Each bench then becomes a method that builds the
component, drives the same edges and exposes the values the bench reads.
The postcondition of that method is the bench's expectations.

One clock edge is one `Step` call. A bench's "preload through the
simulator" (`uut->osr = ...`, `uut->pc = ...`) is an initial-state
parameter of the constructor.

Files:

- `Bits.dfy`: words and single-bit tests.
- `ProgramCounter.dfy`
- `TxFifo.dfy`
- `StateMachine.dfy`
- `OutputShiftRegister.dfy`
- `OutputArbitration.dfy`: the general merge and mux theory.
- `OutputArbitrationTests.dfy`: the benches' concrete cases.
- `InstructionRegfile.dfy`

## Model

| member | source | states |
|---|---|---|
| ProgramCounter.NextPc | tests/program_counter.cpp:26-122 | the next pc always fits the counter width |
| ProgramCounter.NextPcCases | tests/program_counter.cpp:50-122 | priority order of the next-pc rule: reset loads wrap_top, then jump_en loads jump, then no pc_en holds, then pc = wrap_bottom wraps to wrap_top, then the top value rolls over to 0, otherwise pc + 1 |
| ProgramCounter.RunIdle | tests/program_counter.cpp:26-35 | with pc_en low and neither reset nor jump, any number of edges leaves pc unchanged |
| ProgramCounter.RunCounts | tests/program_counter.cpp:37-47 | with pc_en high, n edges that do not cross wrap_bottom or the top advance pc by exactly n |
| ProgramCounter.NextPcInWindow | tests/program_counter.cpp:50-64 | one counting edge from inside the window wrap_top..wrap_bottom stays inside it |
| ProgramCounter.RunInWindow | tests/program_counter.cpp:50-64 | any number of counting edges from inside the window stay inside it |
| ProgramCounter.RunPeriod | tests/program_counter.cpp:50-64 | from wrap_top, reaching wrap_bottom takes wrapBottom - wrapTop edges, and one more edge returns to wrap_top |
| ProgramCounter.RunSplit | tests/program_counter.cpp:26-47 | running m + n edges is running m edges, then n more |
| ProgramCounter.PcRegister.Step | tests/program_counter.cpp:28-47 | one rising edge overwrites the pc register with the next-pc rule's value |
| ProgramCounter.OnlyIncrementsWithPcEnable | tests/program_counter.cpp:26-48 | at any width: 2^width disabled edges all read 0, then 2^width enabled edges read 0, 1, 2, … in turn; also covers tb/tb_unit_tests.cpp:39-61 at width 4 |
| ProgramCounter.Wraps | tests/program_counter.cpp:50-75 | from pc 6 with window 2..7: 7, then wraps to 2; with wrap_top 8 above wrap_bottom 2, pc 2 still goes to 8; also covers tb/tb_unit_tests.cpp:63-88 |
| ProgramCounter.WrapsToZero | tests/program_counter.cpp:77-87 | from the top value with wrap_bottom below it, the counter rolls over to 0; also covers tb/tb_unit_tests.cpp:90-100 |
| ProgramCounter.ResetSendsPcToWrapTop | tests/program_counter.cpp:89-105 | reset with pc_en high loads each wrap_top from the top value down to 0; also covers tb/tb_unit_tests.cpp:102-118 |
| ProgramCounter.JumpSendsPcToJumpAddr | tests/program_counter.cpp:107-122 | jump_en loads each jump address from the top value down to 0, overriding counting; also covers tb/tb_unit_tests.cpp:120-135 |
| ProgramCounter.Pow2AtLeast16 | tb/tb_unit_tests.cpp:63-100 | a counter of at least 4 bits has at least 16 values, so the benches' addresses fit |
| TxFifo.Wrap | tests/fifo.cpp:83-117 | a pointer increment modulo the depth 4 stays below 4 |
| TxFifo.WrapIsMod | tests/fifo.cpp:83-117 | the pointer increment is arithmetic modulo 4 |
| TxFifo.FifoNext | tests/fifo.cpp:37-382 | one edge keeps the FIFO well formed: pointers below 4, count at most 4, tail + count = head modulo 4 |
| TxFifo.Contents | tests/fifo.cpp:83-117 | the queued words, oldest first; their number is count |
| TxFifo.FifoNextIsQueue | tests/fifo.cpp:61-358 | one edge is a queue operation: an accepted pop removes the oldest word and puts it on fifo_out, an accepted push appends the word, and fifo_out otherwise holds its value |
| TxFifo.ContentsShift | tests/fifo.cpp:321-358 | after an edge that pops off words and may push one, the queue is the old queue without its first off words, plus the pushed word |
| TxFifo.FlagsFromCount | tests/fifo.cpp:37-117 | empty exactly when nothing is queued, full exactly when four words are, and never both |
| TxFifo.IgnoredEdges | tests/fifo.cpp:37-272 | an edge with neither enable, a push into a full FIFO and a pop from an empty FIFO each leave the whole state unchanged |
| TxFifo.PushAppends | tests/fifo.cpp:61-117 | a push into a non-full FIFO appends the word to the queue |
| TxFifo.PopTakesOldest | tests/fifo.cpp:188-219 | a pop from a non-empty FIFO outputs the oldest word and removes it |
| TxFifo.PushAllAppends | tests/fifo.cpp:83-117 | pushing a sequence that fits appends the whole sequence in order |
| TxFifo.PopAllInOrder | tests/fifo.cpp:274-319 | popping n words yields the first n queued words in order and leaves the rest |
| TxFifo.FirstInFirstOut | tests/fifo.cpp:274-319 | whatever is pushed comes out in the same order after what was already queued |
| TxFifo.Fifo.IsEmpty | tests/fifo.cpp:37-41 | the empty flag is set exactly when the queue is empty |
| TxFifo.Fifo.IsFull | tests/fifo.cpp:119-152 | the full flag is set exactly when the queue holds 4 words |
| TxFifo.Fifo.constructor | tests/fifo.cpp:37-58 | after power-up and reset: all slots 0, head = tail = count = 0, fifo_out 0 |
| TxFifo.Fifo.Reset | tests/fifo.cpp:37-58 | reset clears every slot in place, both pointers, the count and the output |
| TxFifo.Fifo.Step | tests/fifo.cpp:61-382 | one rising edge updates the array, pointers, count and output in place to the next-state function's value |
| TxFifo.FillEdge | tests/fifo.cpp:119-186 | pushing the same word n + 1 times extends a FIFO holding it n times |
| TxFifo.DoesntFillWhenPushIsDisabled | tests/fifo.cpp:37-59 | reset state before and after a run of edges with push disabled; empty and not full |
| TxFifo.InsertIntoEmptyFifo | tests/fifo.cpp:61-81 | one push into the reset FIFO stores the word in slot 0, head 1, count 1, neither flag |
| TxFifo.InsertMultipleEdge1 | tests/fifo.cpp:83-117 | pushing 0x9999AAAA into the reset FIFO stores it in slot 0 with head 1 and count 1 |
| TxFifo.InsertMultipleEdge2 | tests/fifo.cpp:83-117 | pushing 0x5555FFFF stores it in slot 1 with head 2 and count 2 |
| TxFifo.InsertMultipleEdge3 | tests/fifo.cpp:83-117 | pushing 0x83A2A3B5 stores it in slot 2 with head 3 and count 3 |
| TxFifo.InsertMultipleEdge4 | tests/fifo.cpp:83-117 | pushing 0x83A2A3B5 again fills slot 3, wraps the head to 0 and makes the count 4 |
| TxFifo.InsertMultipleIntoFifo | tests/fifo.cpp:83-117 | three pushes give head 3 and count 3, not full; the fourth fills the FIFO, head wraps to 0 |
| TxFifo.FillWith | tests/fifo.cpp:119-186 | four pushes of one word from reset fill every slot with it |
| TxFifo.IgnoredRun | tests/fifo.cpp:119-272 | n ignored edges change nothing and read the same fifo_out and tail every time |
| TxFifo.InsertIntoFullFifo | tests/fifo.cpp:119-152 | a push into the full FIFO leaves memory, pointers and count untouched |
| TxFifo.DoesntReadWhenPopIsDisabled | tests/fifo.cpp:154-186 | a full FIFO is not drained by edges with pop disabled; fifo_out stays 0 |
| TxFifo.PopOneValueFromFifo | tests/fifo.cpp:188-219 | push then pop: fifo_out is the word, tail 1, count 0, empty |
| TxFifo.PopFromEmptyFifoRetainsPreviousData | tests/fifo.cpp:221-272 | 32 further pops from the empty FIFO keep fifo_out at the last word and tail at 1 |
| TxFifo.RampFillEdge | tests/fifo.cpp:274-297 | pushing word n of the 0xDEADBEE0.. ramp extends the n-word ramp FIFO |
| TxFifo.RampDrainEdge | tests/fifo.cpp:298-319 | popping the full ramp FIFO n + 1 times extends the n-pop state |
| TxFifo.FillRamp | tests/fifo.cpp:274-297 | the four fill edges of the ramp bench pass through exactly the ramp states |
| TxFifo.DrainRamp | tests/fifo.cpp:298-319 | the four drain edges of the ramp bench pass through exactly the drained states |
| TxFifo.RampFillObservations | tests/fifo.cpp:274-297 | during the fill, count is k + 1 and head is (k + 1) mod 4 |
| TxFifo.RampDrainPointers | tests/fifo.cpp:298-319 | during the drain, tail is (k + 1) mod 4 and head stays 0 |
| TxFifo.RampDrainOutputs | tests/fifo.cpp:298-319 | during the drain, fifo_out is the k-th ramp word 0xDEADBEE0 + k and count is 3 - k |
| TxFifo.PopFromFullFifo | tests/fifo.cpp:274-319 | the bench's counts, pointers, flags and outputs at every edge of the fill and of the drain, with memory unchanged by the drain |
| TxFifo.NextSlot | tests/fifo.cpp:321-358 | the ring increment of a slot equals adding 1 modulo 4 |
| TxFifo.SteadyEdge | tests/fifo.cpp:335-357 | with one word queued, push and pop together keep one word queued, output the queued word and advance tail by one slot |
| TxFifo.SameTimeEdges | tests/fifo.cpp:321-334 | the first two simultaneous push/pop edges from reset: the first only pushes (the FIFO was empty), the second pushes and pops |
| TxFifo.SteadyRun | tests/fifo.cpp:335-357 | n simultaneous push/pop edges output successive words and step head and tail around the ring together |
| TxFifo.SteadyStep | tests/fifo.cpp:335-357 | one simultaneous push/pop edge from the steady state |
| TxFifo.PushAndPopAtSameTime | tests/fifo.cpp:321-358 | the bench's pointers, counts, flags and the 30 outputs 2, 3, … of the simultaneous push/pop run |
| TxFifo.KeepFromFullEdge1 | tests/fifo.cpp:360-382 | pushing 1 into the reset FIFO stores it in slot 0 with head 1 and count 1 |
| TxFifo.KeepFromFullEdge2 | tests/fifo.cpp:360-382 | pushing 2 stores it in slot 1 with head 2 and count 2 |
| TxFifo.KeepFromFullEdge3 | tests/fifo.cpp:360-382 | pushing 3 stores it in slot 2 with head 3 and count 3 |
| TxFifo.KeepFromFullEdge4 | tests/fifo.cpp:360-382 | push with pop on a three-word FIFO: 4 lands in slot 3, the oldest word 1 comes out, the tail moves to 1 and the count stays 3 |
| TxFifo.PopKeepsFifoFromBeingFull | tests/fifo.cpp:360-382 | the bench's count 3, neither flag, and fifo_out 1 after the simultaneous push and pop |
| StateMachine.Decode | tests/fsm.cpp:43-159 | a decoded JMP or SET re-encodes to the word with its delay/side-set field cleared; any other word decodes as unmodelled and keeps its bits |
| StateMachine.DecodeEncode | tests/fsm.cpp:43-159 | encoding and then decoding a JMP or SET gives back the same instruction |
| StateMachine.DelayIgnored | tests/fsm.cpp:43-159 | bits 12:8 do not change the decoded instruction of a modelled word, nor whether a word is in the modelled subset |
| StateMachine.ExecutionIgnoresDelay | tests/fsm.cpp:43-159 | issuing a word and issuing it with bits 12:8 cleared give the same next state |
| StateMachine.JmpFields | tests/fsm.cpp:43-135 | a JMP word has opcode 000, the condition in bits 7:5 and the target in bits 4:0 |
| StateMachine.SetFields | tests/fsm.cpp:143-159 | a SET word has opcode 111, the destination in bits 7:5 and the 5-bit data in bits 4:0 |
| StateMachine.Execute | tests/fsm.cpp:43-159 | executing an instruction keeps the machine well formed: pc and any pending jump target inside the 5-bit address space |
| StateMachine.FsmNext | tests/fsm.cpp:43-159 | one edge, decode then execute, keeps the machine well formed |
| StateMachine.PcFollowsPending | tests/fsm.cpp:43-72 | a jump taken on the previous edge sets pc to its target; otherwise pc wraps at wrap_bottom, rolls over from 31 to 0, or advances by one |
| StateMachine.JmpEffect | tests/fsm.cpp:53-135 | a JMP schedules a jump to its target exactly when its condition holds on the current X and Y; X-- and Y-- decrement their register whether or not the jump is taken; other registers are kept |
| StateMachine.DecrementFromZero | tests/fsm.cpp:95-135 | X-- or Y-- on a zero register is not taken and wraps the register to 0xFFFFFFFF |
| StateMachine.SetEffect | tests/fsm.cpp:143-159 | SET zero-extends its 5-bit data into X or Y, leaves the other register as it was and schedules no jump |
| StateMachine.JumpLandsNextEdge | tests/fsm.cpp:43-51 | a taken JMP puts its target into pc on the following edge, whatever instruction is then presented |
| StateMachine.Fsm.constructor | tests/fsm.cpp:10-23 | a fresh machine holds its reset state: pc at wrap_top, X = Y = 0, no jump pending |
| StateMachine.Fsm.Reset | tests/fsm.cpp:10-23 | reset returns the machine to its reset state |
| StateMachine.Fsm.Step | tests/fsm.cpp:43-159 | one rising edge updates the registers in place to the decode-then-execute function's value |
| StateMachine.Fsm.Issue | tests/fsm.cpp:43-159 | executing one decoded instruction updates the registers in place to the execution function's value |
| StateMachine.FullWindowFits | tests/fsm.cpp:10-23 | the benches' wrap window 0..31 is a valid 5-bit configuration with 32 addresses |
| StateMachine.JumpAlwaysEdges | tests/fsm.cpp:43-51 | the unconditional jump to 21 is scheduled on the first edge and lands on the second |
| StateMachine.TestJumpUnconditionalInstruction | tests/fsm.cpp:43-51 | after two edges of `JMP 21`, pc reads 21 |
| StateMachine.JumpXZeroEdges | tests/fsm.cpp:53-72 | `JMP !X 10` from reset is taken; `SET X 21` lands the jump; then `JMP !X 30` is not taken twice |
| StateMachine.TestJumpXZero | tests/fsm.cpp:53-72 | the bench's pc readings 10 and 12 |
| StateMachine.JumpYZeroEdges | tests/fsm.cpp:74-93 | the same sequence on Y |
| StateMachine.TestJumpYZero | tests/fsm.cpp:74-93 | the bench's pc readings 10 and 12 |
| StateMachine.XDecrementEdges | tests/fsm.cpp:95-114 | `SET X 1`, then `JMP X-- 10` is taken with X becoming 0, then `JMP X-- 31` is not taken and wraps X to 0xFFFFFFFF |
| StateMachine.TestJumpXNonZeroDecrement | tests/fsm.cpp:95-114 | the bench's readings of X and pc |
| StateMachine.YDecrementEdges | tests/fsm.cpp:116-135 | the same sequence on Y |
| StateMachine.TestJumpYNonZeroDecrement | tests/fsm.cpp:116-135 | the bench's readings of Y and pc |
| StateMachine.SetImmediateEdges | tests/fsm.cpp:143-159 | `SET X 21` then `SET Y 14`, and the values stay through the next edge |
| StateMachine.TestSetImmediateXY | tests/fsm.cpp:143-159 | the bench's readings X = 21, Y = 14, and both again one edge later |
| OutputShiftRegister.DecodeCount | tests/output_shift_register.cpp:20-23 | a 5-bit count field stands for 1..32 bits, congruent to the field modulo 32, so 0 encodes 32 |
| OutputShiftRegister.ZeroFieldMeansThirtyTwo | tests/output_shift_register.cpp:20-23 | 0 is the one field value that means 32 |
| OutputShiftRegister.ShiftLeftMovesBits | tests/output_shift_register.cpp:76-88 | after a left shift by n, bit i of the OSR is bit i - n of the old value, and the low n bits are 0 |
| OutputShiftRegister.ShiftedOutHoldsTopBits | tests/output_shift_register.cpp:76-88 | the data output holds the top n bits of the old value, right-aligned, and zeros above them |
| OutputShiftRegister.ShiftLosesNoBits | tests/output_shift_register.cpp:76-88 | the shifted register and the shifted-out bits are disjoint, and together they restore the old value |
| OutputShiftRegister.IdleHolds | tests/output_shift_register.cpp:48-53 | an edge without mov_en or shift_en keeps the OSR |
| OutputShiftRegister.MovLoads | tests/output_shift_register.cpp:55-73 | mov_en replaces the whole OSR with mov_in, whatever it held; its priority over a shift on the same edge is the model's choice (see "## Left out") |
| OutputShiftRegister.FullShiftEmpties | tests/output_shift_register.cpp:82-87 | a shift by 32 leaves the OSR at 0 and puts its entire previous value on the data output |
| OutputShiftRegister.EmptyShiftsZeros | tests/output_shift_register.cpp:98-100 | shifting an empty OSR outputs zeros and leaves it empty; the bench OutShiftsZerosAfterEmpty is empty, so no bench asserts it |
| OutputShiftRegister.Osr.constructor | tests/output_shift_register.cpp:10-27 | the register starts at the value preloaded through the simulator |
| OutputShiftRegister.Osr.Step | tests/output_shift_register.cpp:48-88 | one rising edge overwrites osr and osr_data_out with the next-state function's values |
| OutputShiftRegister.MovFillsEmptyOsr | tests/output_shift_register.cpp:48-59 | mov_in is not taken while mov_en is low, then loaded once it is high |
| OutputShiftRegister.MovReplacesFullOsr | tests/output_shift_register.cpp:61-74 | a preloaded 0xBEEEEEEF is replaced by 0xC4C4C4C4 |
| OutputShiftRegister.OutShiftsBitsToDataOut | tests/output_shift_register.cpp:76-88 | an idle edge keeps 0x87654321; a 32-bit shift then leaves the OSR 0 with 0x87654321 on the data output |
| OutputArbitration.CombineWithinDrive | tests/fsm_output_arbitrator.cpp:19-43 | one priority stage never sets a value bit outside its drive mask |
| OutputArbitration.MergeWithinDrive | tests/fsm_output_arbitrator.cpp:19-43 | a merged core output has value bits only where it drives |
| OutputArbitration.CombineDriveBit | tests/fsm_output_arbitrator.cpp:19-30 | one stage drives a bit exactly when either input drives it |
| OutputArbitration.CombineValueBit | tests/fsm_output_arbitrator.cpp:32-43 | in one stage, the higher-priority input's value wins where it drives |
| OutputArbitration.MergeDriveBit | tests/fsm_output_arbitrator.cpp:19-30 | the merged drive sets a bit exactly when some machine drives it |
| OutputArbitration.MergeValueBit | tests/fsm_output_arbitrator.cpp:32-43 | the merged value bit is the value bit of the lowest-indexed machine that drives it |
| OutputArbitration.MergeUndrivenBit | tests/fsm_output_arbitrator.cpp:19-43 | a bit no machine drives reads 0 |
| OutputArbitration.MergeOfFour | tests/fsm_output_arbitrator.cpp:19-43 | merging a core's four machines is the chain of priority stages from machine 0 down to 3 |
| OutputArbitration.MergeDriveIsUnion | tests/fsm_output_arbitrator.cpp:28-41 | the core drive is the bitwise OR of the four machine drives |
| OutputArbitration.MergeDisjoint | tests/fsm_output_arbitrator.cpp:19-30 | with pairwise disjoint drives, the merged value is each machine's value on the bits it drives |
| OutputArbitration.MaskFromBit | tests/core_output_arbitrator.cpp:43-66 | the mask built from the core-select signals has bit i set exactly when pin i selects that core |
| OutputArbitration.SelectMaskBit | tests/core_output_arbitrator.cpp:43-66 | the select mask of a core has bit i set exactly when pin i selects it |
| OutputArbitration.MaskFromUniform | tests/core_output_arbitrator.cpp:26-41 | when every pin from k on selects a core, its mask holds exactly those 32 - k pins |
| OutputArbitration.SelectMaskUniform | tests/core_output_arbitrator.cpp:26-41 | when every pin selects a core, its mask is all ones |
| OutputArbitration.MaskFromUnselected | tests/core_output_arbitrator.cpp:26-41 | when no pin selects a core, its mask is 0 |
| OutputArbitration.GateValueBit | tests/core_output_arbitrator.cpp:43-66 | a gated value bit passes exactly where the mask is set |
| OutputArbitration.GateDriveBit | tests/core_output_arbitrator.cpp:43-66 | a gated drive bit passes exactly where the mask is set |
| OutputArbitration.MuxFromBit | tests/core_output_arbitrator.cpp:43-66 | each pin of the partial mux carries the selected core's value and drive bit if that core is in range, and nothing otherwise |
| OutputArbitration.CoreMuxBit | tests/core_output_arbitrator.cpp:43-66 | pin i of the core-select mux carries bit i of the value and drive of the core pin i selects |
| OutputArbitration.CoreMuxUniform | tests/core_output_arbitrator.cpp:26-41 | when every pin selects the same core, the mux output is that core's pair |
| OutputArbitration.MuxFromUniform | tests/core_output_arbitrator.cpp:26-41 | under a uniform select, the partial mux from the selected core down is that core's pair |
| OutputArbitration.MuxFromAbove | tests/core_output_arbitrator.cpp:26-41 | under a uniform select, the partial mux above the selected core drives nothing |
| OutputArbitration.CoreMuxIgnoresUnselected | tests/output_arbitrator.cpp:41-56 | changing a core that no pin selects does not change the mux output |
| OutputArbitration.MuxFromIgnores | tests/output_arbitrator.cpp:41-56 | the partial mux ignores a core whose select mask is 0 |
| OutputArbitration.CoreOutputs | tests/output_arbitrator.cpp:28-96 | the full arbitrator computes one merged pair per core |
| OutputArbitration.CoreOutputsAt | tests/output_arbitrator.cpp:28-96 | core c's entry is the merge of core c's four machines |
| OutputArbitration.CoreOutputsUpdate | tests/output_arbitrator.cpp:41-56 | changing one core's machines changes only that core's merged pair |
| OutputArbitration.ArbitrateDriveBit | tests/output_arbitrator.cpp:28-96 | pin i is driven exactly when some machine of the core pin i selects drives bit i |
| OutputArbitration.ArbitrateValueBit | tests/output_arbitrator.cpp:41-56 | pin i carries bit i of the lowest-indexed driving machine of its selected core |
| OutputArbitration.ArbitrateUndrivenBit | tests/output_arbitrator.cpp:58-73 | a pin that no machine of its selected core drives reads 0 |
| OutputArbitration.ArbitrateIgnoresUnselected | tests/output_arbitrator.cpp:41-56 | machines of a core that no pin selects cannot affect the pins |
| OutputArbitrationTests.QuadsMask0 | tests/core_output_arbitrator.cpp:56-60 | with select (i / 4) mod 4, core 0 owns pins 0-3 and 16-19 |
| OutputArbitrationTests.StripesMask0 | tests/output_arbitrator.cpp:88-90 | with select i mod 4, core 0 owns every fourth pin from 0 |
| OutputArbitrationTests.FsmDrivingGpioGetsSelected | tests/fsm_output_arbitrator.cpp:19-30 | the core merge gives value 0xAAAA5555 and drive 0xFFFFFFFF |
| OutputArbitrationTests.LowestIndexedFsmGetsPriority | tests/fsm_output_arbitrator.cpp:32-43 | the overlapping drives merge to value 0xDEADFEE0 and drive 0xFFFFFFF0 |
| OutputArbitrationTests.CoreSelectMuxWorksProperly | tests/core_output_arbitrator.cpp:26-41 | all pins select core 1: value 0xAAAAAAAA, drive 0x99999999 |
| OutputArbitrationTests.CoreSelectMuxMultipleSources | tests/core_output_arbitrator.cpp:43-66 | select (i / 4) mod 4: value 0x0050E0E0, drive 0x8F1F8F1F |
| OutputArbitrationTests.ChipFsmDrivingGpioGetsSelected | tests/output_arbitrator.cpp:28-39 | full chip, all pins on core 0: value 0xAAAA5555, drive 0xFFFFFFFF |
| OutputArbitrationTests.ChipLowestIndexedFsmGetsPriority | tests/output_arbitrator.cpp:41-56 | full chip: 0xDEADFEE0 / 0xFFFFFFF0, unaffected by the unselected core 1 |
| OutputArbitrationTests.ChipCoreSelectMuxWorksProperly | tests/output_arbitrator.cpp:58-73 | full chip, all pins on core 1: value 0x88888888 (0xAAAAAAAA where driven), drive 0x99999999 |
| OutputArbitrationTests.ChipCoreSelectMuxMultipleSources | tests/output_arbitrator.cpp:75-96 | full chip, select i mod 4: value 0x4800C80C, drive 0xDDDDDDDD |
| OutputArbitrationTests.StripesMux | tests/output_arbitrator.cpp:75-96 | the core-select mux of the four merged core pairs under select i mod 4 |
| InstructionRegfile.Written | tests/instruction_regfile.cpp:32-45 | a write-enabled edge replaces the word at the write address and no other; with write_en low the store is unchanged |
| InstructionRegfile.ReadAfterWrite | tests/instruction_regfile.cpp:32-56 | a read returns the word just written at that address and the old word everywhere else |
| InstructionRegfile.DisabledWriteKeepsStore | tests/instruction_regfile.cpp:86-96 | an edge with write_en low leaves the whole store unchanged |
| InstructionRegfile.Regfile.constructor | tests/instruction_regfile.cpp:8-25 | the fixture's reset leaves all 32 entries 0 |
| InstructionRegfile.Regfile.Read | tests/instruction_regfile.cpp:47-55 | instr_out is the stored word at read_addr |
| InstructionRegfile.Regfile.Reset | tests/instruction_regfile.cpp:58-84 | reset clears all 32 entries to 0 in place |
| InstructionRegfile.Regfile.Step | tests/instruction_regfile.cpp:36-43 | one rising edge updates the array in place to the write function's value |
| InstructionRegfile.WriteSweep | tests/instruction_regfile.cpp:36-43 | one edge per address 0..31 with write_en high stores the word at every address; with it low nothing changes |
| InstructionRegfile.ReadSweep | tests/instruction_regfile.cpp:47-55 | reading addresses 0..31 in turn returns the whole store in order |
| InstructionRegfile.TestReadWriteToRegfile | tests/instruction_regfile.cpp:32-56 | all 32 addresses read back 0x5555 |
| InstructionRegfile.TestReset | tests/instruction_regfile.cpp:58-84 | after writing 0xFFFF everywhere and resetting, all 32 addresses read 0 |
| InstructionRegfile.TestWriteEnableFalse | tests/instruction_regfile.cpp:86-107 | writes with write_en low store nothing: all 32 addresses read 0 |

## Left out

- tb/tb_main.cpp is not part of this model: it runs a free clock and dumps waveforms, which is simulation I/O.
- tests/test_utils.h is fixture plumbing. Only its convention is kept: a reset, then one step per rising edge.
- tests/gpio.cpp is not modelled. The pad's tri-state and pull-resistor behaviour is an electrical model with no logic to verify.
- Half-cycle `eval` calls are not modelled; each bench is replayed as whole rising edges.
- A simulator preload of a register is not modelled as an operation; it is the constructor's initial-state parameter.
- OSR pull, autopull, shift direction and the bits-remaining counter are left out. So are the partial-refill merge and the pull threshold as an input: their benches (tests/output_shift_register.cpp:90-128) have empty bodies, so no bit layout is asserted. The threshold field shares DecodeCount's encoding, but nothing in the model consumes it.
- OutputShiftRegister.MovLoads: a load winning over a shift requested on the same edge is the model's own choice. No bench drives mov_en and shift_en high together (tests/output_shift_register.cpp:48-88), so nothing asserts this priority.
- OutputShiftRegister.EmptyShiftsZeros: follows from the left shift filling with zeros. The bench OutShiftsZerosAfterEmpty (tests/output_shift_register.cpp:98-100) has an empty body, so no bench asserts it.
- OutputShiftRegister.OsrNext: clearing the data output on edges without a shift is taken from the name of the empty bench DataOutClearedBetweenShifts (tests/output_shift_register.cpp:90-92). No bench asserts it.
- StateMachine.Decode: only JMP with the conditions always, !X, X--, !Y and Y--, and SET to X or Y, are decoded. X!=Y, PIN, !OSRE and the WAIT, IN, OUT, PUSH, PULL, MOV and IRQ opcodes have no asserted behaviour (tests/fsm.cpp:137-141). They decode as an unmodelled instruction that only advances pc.
- StateMachine.Execute: the delay/side-set bits 12:8 are ignored (DelayIgnored, ExecutionIgnoresDelay). No bench sets them.
- StateMachine replays: the benches' wrapper sets its wrap window outside the visible sources. The replays use the window 0..31, the program counter's own reset configuration.
- StateMachine.Fsm.Step: a taken jump reaches pc through the program counter's jump input on the following edge. This is the one-edge delay the benches observe at tests/fsm.cpp:47-50.
- TxFifo.FifoNext: push and pop together on a full FIFO accept only the pop, because full is judged on the state before the edge. No bench exercises this case.
- TxFifo.PushAndPopAtSameTime: states the outputs as the second pushed word counted up k times in 32-bit arithmetic, `Counted(2, k)`, rather than as the integer k + 2. The two agree for the bench's 30 edges.
- InstructionRegfile.Regfile.Read: instr_out is the stored word at read_addr. Whether the read is registered or combinational cannot be told apart from the benches, because every read follows the writes it observes.
- tests/output_arbitrator.cpp:59-60 assigns fsm_output[0][0] twice and never sets its drive. The model follows the code as written: machine 0 of core 0 drives nothing, which no pin selects anyway.
