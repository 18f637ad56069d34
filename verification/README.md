# 3dmoo: a verified model of the emulator's core

3dmoo emulates the ARM11 application core of a handheld console, its memory, its loader, its thread scheduler and the
debugger stub around them. Each of these parts presents a simple machine through a faster, segmented or shared
implementation. This project models both sides and proves that they agree.

| file | models | proved about it |
|---|---|---|
| `Words.dfy`, `Shifter.dfy`, `LongMultiply.dfy` | 32-bit words and C operators on integers, the barrel shifter, 64-bit products | closed forms of shifts and rotations defined bit by bit; products from 16-bit halves are exact |
| `Architecture.dfy` | the programmer's model of ARM DDI 0100I: ARM and Thumb data processing, multiplications, branches, the status register | instruction addresses stay aligned; the status register holds its parts |
| `ArmLaws.dfy` | ARM data processing, multiplications and branches, from their encodings to numbers and bits | results bit by bit or as sums; comparisons order the operands; chains with carry compute with two words; branches reach what is encoded |
| `ThumbDecoder.dfy` | the translation of Thumb into ARM instructions | it preserves meaning on every state, with one exception, which is characterised |
| `Runs.dfy`, `Cpu.dfy` | the interpreter: flags, shifter operands, pipeline, branches, whole runs | it implements the programmer's model over any run; the two halves of BL act as one call |
| `SingleTransfer.dfy` | LDR and STR of words, bytes and halfwords, and their Thumb forms | every form has the manual's effect on the flat memory; the translation keeps every field; loads read back stores |
| `SingleLaws.dfy` | the addressing modes of LDR and STR and their encodings, in terms of registers and bytes | which address each mode uses and what it leaves in the base; a word pushed by a store and popped by a load; every form is the meaning of its encoding |
| `Tables.dfy`, `BlockTransfer.dfy`, `Banks.dfy` | the emulator's tables, LDM and STM, banked registers | popping restores what was pushed; mode changes are invisible in the register file |
| `Machine.dfy` | initialization, and the interpreter and the memory together: fetching, loads, stores and block transfers between other instructions | whole runs on registers and memory follow the manual, with two exceptions, which are characterised |
| `Memory.dfy` | the mappings and their search, transfers across mappings, reordering | every sequence of accesses answers as one flat byte map |
| `Decompress.dfy`, `Relocate.dfy` | the code decompressor and the relocation of 3DSX programs | packed files decompress to what was packed, for all token lists; every word is relocated once |
| `Threads.dfy`, `SystemCalls.dfy` | context saving, switching, waiting with handles that change when asked, removal of stopped threads; stopping, arbitration, priorities and creation | these act on the table of threads as each would see itself alone; arbitration releases exactly the foremost waiters |
| `Processors.dfy`, `Traps.dfy`, `Multitasking.dfy` | threads as processors, SWI, rounds of slices in which the shared emulator runs instructions and the system calls that they make | threads that share one emulator run as processors that share one memory, from the initialization on |
| `Fairness.dfy`, `CallEffects.dfy` | rounds, turns and slices told step by step; system calls from the bytes of the SWI to registers, threads and memory | every thread has its turn, in order, also new ones; what each call does, and a lock of several threads |
| `Packets.dfy`, `RegisterDump.dfy`, `Breakpoints.dfy` | debugger packets, register dumps of running and saved threads, breakpoint lists over a pool | framed streams are read as their payloads; dumps restore threads, with one exception, which is characterised; the lists behave as lists |
| `GpuCommands.dfy` | the GPU command stream | executing a stream writes what its commands stand for |

Objects that the C code changes in place are classes or arrays here (`State`, `Segments`, `Registry`, `Live`,
`Scheduler`, `PacketReader`, `Stub`; `Emulator` and `System` hold them together), and their methods are proved against
specification functions; what these functions mean is proved as lemmas that do without them: `ArmLaws`, `SingleLaws`,
`Fairness` and `CallEffects` consist of such lemmas, and the other modules have their own.

Conventions:

- 32-bit words are integers below 2^32 with explicit wrap-around (`Words.Wrap`). Bit fields of instructions are narrow
  bit vectors. Fields that the C code joins with `|` without overlap are sometimes written as sums, and masks of low
  bits as remainders.
- The meaning of instructions (`Architecture`) is written from ARM DDI 0100I: additions and subtractions on unbounded
  integers (`AddWith`, `SubWith`), shifts as repetitions of single-bit steps (`Shifter.ShiftBy`), logic bit by bit
  (`Words.Bitwise`). It gives no meaning (`None`) to instructions outside the modelled classes and to results that
  the manual calls UNPREDICTABLE; the interpreter's methods ask for a meaning to exist.
- Transfers to and from memory are given a meaning by `BlockStep` and `SingleStep`, in the code's own order where that
  matters. Where the manual leaves the result UNPREDICTABLE (such as write-back of a base that is in the list of LDM,
  that is in the list of STM but not its lowest register, or that is also the data register of LDR or STR; the PC as
  the data of LDRT, or loaded from an unaligned address), `Machine.Unpredictable` takes the meaning away on the
  manual's side.
- The program that the interpreter runs on its own (`Code`), and what handles answer and become when they are asked
  (`World`), are parameters. The system calls that act on threads are modelled as instructions of the program, SWI
  included (`Serve`); what others do to threads, handles and memory is a parameter (`Call`, `Store`). The script of a
  slice says which of these happen, and in which order; where a slice ends is up to the script.
- The status register is part of the programmer's view. The code keeps a copy of it (`Cpsr`, here `psr`) that only a
  branch with exchange brings up to date; the model keeps that copy on both sides. Its mode is always supervisor mode,
  since none of the modelled instructions changes the mode field, which is not saved for threads.
- The saved context and the interpreter's state are two uses of one C structure: `Live` holds the interpreter's `State`
  and the fields around it. The words that the pipeline has prefetched are saved and restored, but the interpreter
  fetches every instruction again; the view of a thread as a processor leaves them out. Everything else that is saved is
  part of it.
- The unused entries of the table of threads are part of the state: a new thread starts with whatever its entry held
  before, and removing threads leaves copies of entries behind.
- `Registry`, with its banks, is kept apart from `State`: the instructions of a run do not change the mode.
- In a full table the removal loop reads the entry behind the table; `Scheduler.behind` stands for what is there.
- `pc`, which the interpreter keeps in a local variable while it runs and in the state between calls, is one field.
- The Thumb operation ADD PC, Rm differs from the manual at addresses that are not multiples of four. The model follows
  the code, and `ThumbDecoder.TranslationPreservesMeaning` states that this is exactly when it differs.
- The Thumb operation STMIA with its base in the list does not write the base back, which the manual asks for; the
  model follows the code, and `Machine.MachineFollowsManual` states that these two are the only departures among runs
  to which the manual gives a meaning.
- The segmented memory is proved for mappings that end below 2^32 and are added without enclosing an existing one, and
  for accesses that do not run past the end of the address space. `OverlapsExactly` and `ContainsExactly` say exactly
  what the tests of the code do otherwise.
- Buffers that the C code only reads (packed files, input bytes, the command stream) are sequences.

## Model

| member | source | states |
|---|---|---|
| ThumbDecoder.DecodeFields | src/arm11/thumbemu.c:60-344 | every rewritten Thumb instruction becomes an ARM word with exactly the fields that its format calls for |
| ThumbDecoder.TranslationPreservesMeaning | src/arm11/thumbemu.c:60-344 | for every Thumb instruction of formats 1 to 5, 12 and 13 and every state, the ARM translation has the effect that section A7.1 gives the Thumb instruction, if and only if it is not ADD PC, Rm at an address with remainder 2 modulo 4 |
| Runs.EmulatedMeansStep | src/arm11/thumbemu.c:60-557 | one turn of the interpreter, ARM or Thumb, has the manual's effect if and only if the instruction is not that one |
| Runs.SomeDeviate | src/arm11/thumbemu.c:198-208 | ADD PC, r0 (0x4487) at address 2 is such an instruction: it has a meaning and is executed differently |
| Runs.DeviationExists | src/arm11/thumbemu.c:198-208 | there are a program and a core to which this applies |
| Runs.RunFollowsManual | src/arm11/armemu.c:432-603 | a whole run agrees with the manual after every instruction exactly when it never executes that instruction |
| Runs.CallIsOneBranch | src/arm11/thumbemu.c:523-557 | the two halves of BL, run one after the other, are one branch to pc+4 plus the signed offset with r14 = (pc+4)+1 |
| Cpu.State.constructor | src/arm11/wrap.c:268-285 | after initialization all registers and flags are zero, the status word is 0xD3 and its interrupt bits are taken from it, the pipeline is to be filled, and the invariant that runs keep holds |
| Cpu.State.SetPcSp | src/arm11/wrap.c:403-408 | r13, r15 and the PC are set; when the pipeline is to be filled and the address is aligned, that invariant is kept, and the next instruction is the one at the PC |
| Cpu.State.NegZero | src/arm11/armsupp.c:409-422 | N and Z become the sign and zeroness of the result |
| Cpu.State.AddCarry | src/arm11/armsupp.c:444-449 | the sign test computes the carry of the exact sum, for either carry in |
| Cpu.State.AddOverflow | src/arm11/armsupp.c:426-457 | the sign test tells that the exact signed sum does not fit |
| Cpu.State.SubCarry | src/arm11/armsupp.c:469-474 | the sign test computes the absence of a borrow |
| Cpu.State.SubOverflow | src/arm11/armsupp.c:435-482 | the sign test tells that the exact signed difference does not fit |
| Cpu.State.AddFlags | src/arm11/armemu.c:1548-1563 | the short-cut for small operands gives the N, Z, C and V of unbounded addition |
| Cpu.State.SubFlags | src/arm11/armemu.c:1654-1665 | the short-cut for subtraction gives the C and V of unbounded subtraction |
| Cpu.State.IncPc | src/arm11/armemu.h:319-326 | r15 runs one instruction further ahead and the next fetch will not repeat that |
| Cpu.State.GetDPRegRHS | src/arm11/armemu.c:4428-4512 | the value of every register operand is that of section A5.1, C untouched |
| Cpu.State.GetDPSRegRHS | src/arm11/armemu.c:4517-4635 | value and shifter carry of every register operand are those of section A5.1, for all amounts 0 to 255 |
| Cpu.State.RegisterLsl | src/arm11/armemu.c:4535-4547 | LSL by a register amount is that many single-bit steps, value and carry |
| Cpu.State.RegisterLsr | src/arm11/armemu.c:4548-4560 | LSR by a register amount likewise |
| Cpu.State.RegisterAsr | src/arm11/armemu.c:4561-4573 | ASR by a register amount likewise |
| Cpu.State.RegisterRor | src/arm11/armemu.c:4574-4590 | ROR by a register amount likewise, also for multiples of 32 |
| Cpu.State.ConstantZero | src/arm11/armemu.c:4598-4631 | a constant amount of zero means a shift by 32, or RRX for ROR |
| Cpu.State.Immediate | src/arm11/armemu.h:364-368 | the table entry is the rotated byte, and C changes exactly if it was rotated |
| Cpu.State.WriteR15 | src/arm11/armemu.c:4639-4661 | the target is aligned for the instruction set and the pipeline is refilled |
| Cpu.State.WriteDest | src/arm11/armemu.h:419-427 | the result goes to the destination, a result for r15 to the next instruction address |
| Cpu.State.Alu | src/arm11/armemu.c:1263-2780 | each operation's result and flags are those of section A3.4, shifter carry for logic, exact sums for arithmetic |
| ArmLaws.AluActs | src/arm11/armemu.c:1263-2780 | an encoded operation on two registers puts its result into rd unless it compares; AND, EOR, ORR, BIC and MVN are told bit by bit, sums and differences up to 2^32; N and Z are sign and zeroness; flags change only with S |
| ArmLaws.ComputesLogic | src/arm11/armemu.c:1263-2780 | logical operations take C from the shifter and leave V alone |
| ArmLaws.Comparisons | src/arm11/armemu.c:1034-1190 | after CMP, EQ to LE order the operands as unsigned or as signed numbers, and VS tells an overflow |
| ArmLaws.SignConditions | src/arm11/armemu.c:1034-1190 | after a comparison with zero, MI and PL tell its sign |
| ArmLaws.AddsPairs | src/arm11/armemu.c:1533-1612 | ADDS and ADCS add numbers of two words, with the carry and the signed overflow of the whole |
| ArmLaws.SubtractsPairs | src/arm11/armemu.c:1449-1665 | SUBS and SBCS subtract numbers of two words, with the borrow and the signed overflow of the whole |
| ArmLaws.SubtractsPairsReversed | src/arm11/armemu.c:1483-1710 | RSBS and RSCS subtract them the other way round |
| Cpu.State.ExecuteDataProcessing | src/arm11/armemu.c:1263-2780 | every data-processing instruction has the effect of the programmer's model on registers, flags and PC |
| Cpu.State.ExecuteMultiply | src/arm11/armemu.c:1282-1412 | MUL and MLA have the effect of the programmer's model; `ArmLaws.MulActs` says what that is |
| ArmLaws.MulActs | src/arm11/armemu.c:1282-1412 | encoded MUL and MLA leave the product of two registers, plus a third for MLA, modulo 2^32 in the destination, and with S its N and Z |
| LongMultiply.Add32 | src/arm11/armemu.c:5596-5610 | sum and carry together are the exact sum of two words |
| LongMultiply.Product | src/arm11/armemu.c:5654-5667 | four 16-bit products with two carries give the exact 64-bit product |
| LongMultiply.Negate64 | src/arm11/armemu.c:5669-5678 | complement and carry negate modulo 2^64 |
| LongMultiply.FullProduct | src/arm11/armemu.c:5640-5678 | signed and unsigned products are exact for all operands, also 0x80000000 and a zero product of differing signs |
| LongMultiply.SummaryMeans | src/arm11/armemu.c:5685-5688 | the word that sets N and Z has the sign and zeroness of the 64-bit value |
| Cpu.State.Multiply64 | src/arm11/armemu.c:5615-5688 | RdHi:RdLo is the exact product with N and Z of the whole; with operands that are not accepted no register changes and the flags are those of zero |
| Cpu.State.MultiplyAdd64 | src/arm11/armemu.c:5711-5732 | RdHi:RdLo is the old value plus the product modulo 2^64; with operands that are not accepted, the old value plus itself |
| ArmLaws.LongActs | src/arm11/armemu.c:5615-5732 | encoded UMULL, SMULL, UMLAL and SMLAL leave the exact product, signed or not, in RdHi:RdLo, or add it to what they hold, modulo 2^64 |
| Cpu.State.WriteR15Branch | src/arm11/armemu.c:4702-4718 | bit 0 of any target selects the instruction set, execution goes on at the target rounded down to an address of that set, and the copy of the status register becomes the status register of the new state |
| Cpu.State.CpsrAltered | src/arm11/armsupp.c:204-253 | the flags become those of the status word; E and A keep their values |
| Architecture.StatusReadsBack | src/arm11/armemu.h:177-184 | the status register that is put together from the flags has every one of them in its place: each can be read back, and the mode is supervisor mode |
| Architecture.StatusBits | src/arm11/armemu.h:177-184 | N, Z, C, V, Q and T alone are bits 31, 30, 29, 28, 27 and 5 of the status register |
| Cpu.State.ExecuteBranchRegister | src/arm11/armemu.c:1825-1894 | BX and BLX exchange, BLX with the return address marked by the instruction set |
| ArmLaws.Exchanges | src/arm11/armemu.c:1825-1894 | encoded BX and BLX enter Thumb code at an odd target and ARM code at a multiple of four; BLX leaves the address after it in r14 |
| ArmLaws.CallReturns | src/arm11/armemu.c:1825-1894 | with the return address of a call in r14, BX r14 goes on after the call |
| Cpu.State.ExecuteBranch | src/arm11/armemu.c:3710-3797 | B and BL branch by the signed word offset, BL with the return address |
| ArmLaws.BranchReaches | src/arm11/armemu.c:3710-3797 | encoded B and BL reach the second instruction after them plus the signed number of words, BL with the address after it in r14 |
| ArmLaws.BranchesToItself | src/arm11/armemu.c:3710-3797 | 0xEAFFFFFE and 0xEBFFFFFE branch to themselves |
| Cpu.State.ConditionMeans | src/arm11/thumbemu.c:434-490 | each condition code holds when section A3.2 says so |
| Cpu.State.ExecuteArm | src/arm11/armemu.c:1028-1190 | an ARM instruction of the modelled classes, taken or skipped, has the effect of the programmer's model |
| ArmLaws.Skips | src/arm11/armemu.c:1028-1190 | an instruction whose condition fails changes nothing but the PC |
| Cpu.State.BranchRelative | src/arm11/thumbemu.c:490-507 | sign-extended halfword offsets reach PC plus the signed distance |
| ArmLaws.ThumbBranchReaches | src/arm11/thumbemu.c:490-507 | encoded B in Thumb state reaches the second instruction after it plus the signed number of halfwords |
| ArmLaws.ThumbConditionReaches | src/arm11/thumbemu.c:434-489 | conditional ones likewise if the condition holds, and go on otherwise |
| Cpu.State.BranchLinkHigh | src/arm11/thumbemu.c:523-541 | the first half of BL puts PC plus the signed upper offset into r14 |
| Cpu.State.BranchLinkLow | src/arm11/thumbemu.c:542-557 | the second half of BL branches and leaves the return address |
| Cpu.State.BranchLinkExchange | src/arm11/thumbemu.c:508-522 | the second half of BLX branches to ARM code and leaves the return address |
| Cpu.State.ExecuteThumbBranch | src/arm11/thumbemu.c:414-557 | the Thumb branches have the effect of the programmer's model |
| Cpu.State.Advance | src/arm11/armemu.c:476-591 | however the last instruction ended, the pipeline moves to the next one with r15 two instructions ahead of it |
| Cpu.State.Step | src/arm11/armemu.c:432-603 | one turn keeps the pipeline invariant and has the effect of one emulated instruction |
| Cpu.State.Run | src/arm11/armemu.c:426-603 | n turns, from any state between instructions, have the effect of n emulated instructions and re-establish the invariant |
| Tables.InitImmediates | src/arm11/arminit.c:87-89 | every entry is its byte rotated right by twice the rotation field |
| Tables.InitBitList | src/arm11/arminit.c:91-98 | every entry is four times the number of bits set in its index |
| Tables.ListBytes | src/arm11/armemu.h:393-394 | two table entries together are four bytes for each register of a list |
| BlockTransfer.StoreRegisters | src/arm11/armemu.c:5425-5477 | the loop stores each listed register in its slot, the lowest register lowest |
| BlockTransfer.LoadRegisters | src/arm11/armemu.c:5197-5230 | the loop loads each listed register from its slot |
| BlockTransfer.StoreMult | src/arm11/armemu.c:5404-5489 | STM has the effect of section A5.4 on memory, base and next instruction |
| BlockTransfer.LoadMult | src/arm11/armemu.c:5181-5274 | LDM likewise, with a loaded PC selecting the instruction set |
| BlockTransfer.ExecuteBlock | src/arm11/armemu.c:3563-3707 | the sixteen addressing forms start and write back where section A5.4 says |
| BlockTransfer.StoreListFrame | src/arm11/armemu.c:5404-5489 | STM changes no byte outside its block of four bytes a register |
| BlockTransfer.StoreListSlots | src/arm11/armemu.c:5404-5489 | after STM the slot of every listed register holds that register |
| BlockTransfer.LoadListSlots | src/arm11/armemu.c:5181-5274 | LDM changes exactly the listed registers |
| BlockTransfer.PushMeans | src/arm11/armemu.c:3645-3648 | STMDB rb!, list lowers the base by the block's size and fills exactly the block below it |
| BlockTransfer.PushThenPop | src/arm11/armemu.c:3614-3617 | LDMIA rb!, list afterwards restores every listed register and the base, whatever happened to the other registers and the rest of memory in between |
| BlockTransfer.PopUndoesPush | src/arm11/armemu.c:3614-3648 | a push followed by a pop of the same list changes no register but the PC |
| BlockTransfer.FourStacks | src/arm11/armemu.c:3563-3707 | for full and empty stacks in both directions, the opposite form of LDM pops the block that STM has pushed and restores the base; forms that move the base first leave it at a word of the block, the others start at the base |
| SingleTransfer.OffsetNow | src/arm11/armemu.c:4724-4778 | the offset of a load or store is the constant or the shifted register of sections A5.2 and A5.3 |
| SingleTransfer.LoadValue | src/arm11/armemu.c:4798-4885 | words, bytes and halfwords at any alignment are the little-endian bytes at the address, signed ones extended |
| SingleTransfer.StoreValue | src/arm11/armemu.c:5089-5174 | the low bytes of the register go to the address, at any alignment |
| SingleTransfer.ExecuteSingle | src/arm11/armemu.c:2785-3556 | every form of LDR and STR of words and bytes, and of the halfword and signed forms at lines 95 to 298, has its effect on registers, memory and next instruction; a base that is also the destination of a load keeps the loaded value; the addresses are told by `SingleLaws` |
| SingleTransfer.StoreThenLoad | src/arm11/armemu.c:4798-5175 | what a store has written, a load of as many bytes with the same base and offset reads back |
| SingleTransfer.DecodesSingle | src/arm11/thumbemu.c:240-316 | the loads and stores of formats 6 to 11 become unconditional ARM loads and stores with exactly the fields that section A7.1 calls for |
| SingleLaws.LoadsPreIndexed | src/arm11/armemu.c:2785-3556 | a plain or pre-indexed load takes its value from the base plus or minus the offset; the base becomes that address if the instruction says so; no other register and no byte changes |
| SingleLaws.LoadsPostIndexed | src/arm11/armemu.c:2785-3556 | a post-indexed load takes its value from the old base, which then is moved by the offset |
| SingleLaws.LoadsLiteral | src/arm11/armemu.c:2785-3556 | a load relative to the PC takes it from the word address of the second instruction after it, plus or minus the offset |
| SingleLaws.LoadsPc | src/arm11/armemu.c:4840-4885 | a word loaded into the PC selects the instruction set by its bit 0 |
| SingleLaws.Stores | src/arm11/armemu.c:2785-3556 | a store puts the low bytes of the register at the moved base, or at the old one if it is post-indexed, and changes no other byte and no register but a written-back base |
| SingleLaws.SignedLoads | src/arm11/armemu.c:4798-4885 | signed bytes and halfwords keep their low bits and get their signed value; others stay |
| SingleLaws.PopOneUndoesPushOne | src/arm11/armemu.c:2785-3556 | STR rd, [rn, #-4]! and then LDR rd, [rn], #4 restore both registers; the word lies in the four bytes below the base, and no other byte changes |
| SingleLaws.EncodedIsDecoded | src/arm11/armemu.c:2785-3556 | every LDR and STR that has an encoding, of words, bytes, halfwords and signed values, is the meaning of its word |
| SingleLaws.RunsSingle | src/arm11/armemu.c:2785-3556 | the interpreter, fetching the word from memory, gives each of them its meaning |
| SingleLaws.SkipsTransfer | src/arm11/armemu.c:1034-1190 | a load, store or block transfer whose condition fails changes nothing but the PC |
| SingleLaws.PushPopWord | src/arm11/armemu.c:2785-3556 | as a program in memory, STR rd, [rn, #-4]! and LDR rd, [rn], #4 change no register but the PC and no byte outside the word below the base |
| Machine.DecodesFormat14 | src/arm11/thumbemu.c:349-358 | PUSH and POP become STMDB and LDMIA of r13 with write-back, with r14 or the PC added to the list if the instruction says so |
| Machine.DecodesFormat15 | src/arm11/thumbemu.c:386-413 | STMIA and LDMIA become their ARM counterparts; only STMIA with its base in the list loses the write-back that section A7.1 asks for |
| Machine.TransferMeansManual | src/arm11/thumbemu.c:240-413 | a Thumb load, store or block transfer has the manual's effect on registers and memory if and only if it is not that STMIA |
| Machine.TurnMeansManual | src/arm11/armemu.c:432-603 | one instruction, fetched from memory, has the manual's effect if and only if it is neither ADD PC, Rm at an unaligned address nor STMIA with its base in the list |
| Machine.MachineFollowsManual | src/arm11/armemu.c:432-603 | a run on registers and memory to which the manual gives a meaning agrees with it after every instruction exactly when it never executes one of those two |
| Machine.SomeDepart | src/arm11/thumbemu.c:386-413 | STMIA r0!, {r0} (0xC001) is one of them, in every state in which r0 is word-aligned: it has a meaning and is executed differently |
| Machine.DepartureExists | src/arm11/thumbemu.c:386-413 | there are a core and a memory to which this applies |
| Machine.RunsKeepStatus | src/arm11/armemu.c:4702-4718 | over any run Q, GE, E, A, I and F stay as they are; the copy of the status register is the one from before the run, or holds these bits and supervisor mode, also for a thread that was created in another mode |
| Machine.TurnsJoin | src/arm11/armemu.c:426-603 | a run may be interrupted after any instruction and taken up again |
| Machine.Emulator.FetchInstruction | src/arm11/wrap.c:54-62 | the instruction is the halfword or word of the flat memory at pc |
| Machine.Emulator.ExecuteTransfer | src/arm11/armemu.c:2785-3707 | loads, stores, LDM and STM, taken or skipped, in ARM or Thumb state, have their effect on registers and memory |
| Machine.Emulator.Turn | src/arm11/armemu.c:432-603 | fetching, translating and executing one instruction acts on registers and memory as one emulated turn and keeps the pipeline and memory invariants |
| Machine.Emulator.Run | src/arm11/armemu.c:426-603 | the same for n instructions |
| Machine.Init | src/arm11/wrap.c:268-285 | the tables are filled as the interpreter needs them, and the emulator is ready |
| Machine.Boot | src/arm11/wrap.c:268-408 | initialization and the setting of PC and stack pointer leave an emulator that is ready to run from the PC, with zeroed registers |
| Machine.RunProgram | src/arm11/wrap.c:268-408 | from initialization on, n instructions of a program have the effect of n emulated instructions on zeroed registers and the memory |
| Machine.PushPopProgram | src/arm11/armemu.c:3614-3648 | a program that pushes and pops a list changes no register but the PC and no byte outside its block |
| Banks.Registry.constructor | src/arm11/arminit.c:106-247 | initially the mode is supervisor mode and every register of every bank is zero |
| Banks.Registry.SwitchMode | src/arm11/armsupp.c:284-360 | a change between modes keeps every register of the banked file of section A2.4 |
| Banks.Registry.Replay | src/arm11/armsupp.c:284-382 | any sequence of mode changes and register writes acts on that file, and the current registers are those the mode sees |
| Banks.UpdateIsVisible | src/arm11/armsupp.c:284-382 | r0-r7 and the PC are shared by all banks, r8-r12 by all but FIQ, r13 and r14 by none |
| Banks.ModeWriteIsVisible | src/arm11/armsupp.c:268-382 | what a mode writes, exactly the modes see that share the register: user and system mode share all, FIQ mode has r8 to r14, IRQ, supervisor, abort and undefined mode have r13 and r14 of their own |
| Banks.OtherModes | src/arm11/armsupp.c:268-283 | 26-bit modes use the banks of their 32-bit counterparts; numbers that are no modes have the dummy bank |
| Banks.Registry.StoreSMult | src/arm11/armemu.c:5496-5590 | STM^ stores user-mode values and leaves the file as it was, up to the current mode's written-back base |
| Banks.Registry.LoadSMult | src/arm11/armemu.c:5281-5397 | LDM^ without the PC loads user-mode registers; a written-back base goes to the user bank, and reaches the current mode's base exactly if that register is shared with user mode |
| Banks.UserLoadChangesOnlyListed | src/arm11/armemu.c:5281-5397 | only listed registers change, and only where a mode shares them with user mode |
| Banks.WriteBackReachesBase | src/arm11/armemu.c:5339-5376 | on the file, what a mode finds in the base after LDM^ with write-back: the new base if the register is shared with user mode, and what it was otherwise |
| Banks.StackPointerIsLost | src/arm11/armemu.c:5339-5376 | in supervisor mode a written-back r13 is lost, whatever is loaded |
| Memory.OverlapsExactly | src/mem.c:83-90 | the overlap test is right exactly unless the new range starts below the old one and reaches or passes its end |
| Memory.EnclosingIsMissed | src/mem.c:83-90 | the test misses that 0 to 0x3FFF overlaps an existing mapping from 0x1000 to 0x1FFF |
| Memory.ContainsExactly | src/mem.c:92-95 | the containment test is right exactly unless the end of the range wraps to or below the end of the mapping |
| Memory.EndIsMisjudged | src/mem.c:92-95 | for an access of up to four bytes that reaches the end of the address space the test accepts every mapping that starts at or below it and does not end below 4, although none holds it |
| Memory.Segments.constructor | src/mem.c:52-55 | no mapping, no address mapped |
| Memory.Segments.AddMapping | src/mem.c:97-141 | empty, too many and overlapping mappings are reported; otherwise exactly the new range is added, as zeros |
| Memory.Segments.Find | src/mem.c:242-263 | the linear search finds a mapping exactly when all bytes of the access have one home |
| Memory.Segments.Write8 | src/mem.c:219-240 | the byte is stored in the flat memory, or failure is reported |
| Memory.Segments.Read8 | src/mem.c:242-263 | the byte of the flat memory, or zero |
| Memory.Segments.Write16 | src/mem.c:265-295 | both the aligned and the unaligned path store the halfword in the flat memory, or failure is reported |
| Memory.Segments.Read16 | src/mem.c:297-327 | the halfword of the flat memory, or zero |
| Memory.Segments.Write32 | src/mem.c:329-361 | both paths store the word; failure is not reported |
| Memory.Segments.Read32 | src/mem.c:375-426 | the word of the flat memory, rotated up by the misalignment, or zero |
| Memory.AlignUndoesRotation | src/arm11/armsupp.c:951-962 | the rotation of an unaligned load is undone by the one that LDR applies |
| Memory.Segments.Write | src/mem.c:428-471 | a transfer across any number of mappings ends and equals the write on the flat memory |
| Memory.Segments.Read | src/mem.c:473-516 | a transfer out of any number of mappings ends and delivers the bytes of the flat memory |
| Memory.Parts | src/mem.c:452-460 | the split sizes add up, the first part fills its mapping and neither part is empty |
| Memory.Segments.SortByAccesses | src/mem.c:547-563 | the selection sort leaves a permutation by falling access count, and the memory as it was |
| Memory.Segments.Reorder | src/mem.c:546-568 | the counters are zeroed after sorting and no address changes its byte |
| Memory.Segments.Replay | src/mem.c:219-568 | any sequence of byte, halfword and word accesses and reorderings answers and acts as one flat byte map |
| Memory.ReadBack | src/mem.c:219-426 | on the flat map, a store is read back by a load of its width |
| Memory.ReadElsewhere | src/mem.c:219-426 | on the flat map, a store does not affect loads from elsewhere |
| Decompress.CopyMatch | src/loader.c:114-124 | each byte of a match equals the byte that is its distance (the stored one and three) above it in the finished output, also where that is its own output; it fails at the end of the buffer |
| Decompress.DecodeToken | src/loader.c:96-131 | one token is read as the decoder reads it, with its failures |
| Decompress.DecodeGroup | src/loader.c:86-133 | the tokens under one control byte, up to where the input or the output ends |
| Decompress.Decompress | src/loader.c:70-139 | for every input with a footer in range, the loop ends inside its buffers, and the output is what the decoder wrote above the untouched initial copy; what it writes for packed tokens is told by `ExpansionMeans` |
| Decompress.ControlShifts | src/loader.c:96-132 | shifting the control byte presents each token's bit in turn |
| Decompress.PackedDecodes | src/loader.c:85-134 | groups of eight tokens are decoded to what the tokens stand for |
| Decompress.DecompressesPackedFile | src/loader.c:70-139 | kept bytes and packed tokens decompress to the kept bytes followed by the expansion, for all token lists |
| Decompress.FooterGivesSize | src/loader.c:62-68 | the footer gives the size of the output exactly if its second word is the difference of the sizes |
| Decompress.ExpansionMeans | src/loader.c:96-131 | what a list of tokens stands for holds, from the end on, each literal as its byte and for each match bytes that equal those a distance (the stored one and three) above them |
| Decompress.PackedFileIsPacked | src/loader.c:62-139 | the file of kept bytes, groups of eight tokens and a footer is one to which the theorem applies |
| Decompress.DecompressSection | src/loader.c:551-571 | a buffer of the size that the footer promises, filled from a packed section with the right sizes, holds the kept bytes followed by the expansion: every literal and every match has its bytes there |
| Relocate.TranslationIsUniform | src/loader.c:147-154 | the piecewise translation adds the base modulo 2^32 |
| Relocate.PatchWords | src/loader.c:258-272 | the patches of one entry, up to the end of the segment |
| Relocate.PatchChunk | src/loader.c:255-273 | the entries of one chunk |
| Relocate.RelocateTable | src/loader.c:242-274 | reading a table in chunks of 512 equals one pass over it |
| Relocate.PassSplit | src/loader.c:248-274 | a pass over a table may be split anywhere |
| Relocate.HitsAhead | src/loader.c:255-273 | patched positions lie in the segment and behind the entries before them |
| Relocate.HitsMarked | src/loader.c:255-273 | a table that is told as one mark for each word, skipped or patched, hits exactly the marked words of the segment |
| Relocate.PassWord | src/loader.c:242-274 | a pass patches each word it hits once, from its original value, and no other |
| Relocate.RelocateSegment | src/loader.c:233-275 | the absolute and the relative table of a segment are applied in this order, further ones ignored |
| Relocate.Relocate | src/loader.c:232-276 | the relocation of the three segments, word by word |
| Relocate.RelocatedWord | src/loader.c:232-276 | for any number of tables a segment has: a word is moved by the base if the first hits it, then moved and made relative to its place if the second hits it; further tables have no effect |
| Threads.Live.constructor | src/arm11/wrap.c:268-285 | what the CPU would save right after initialization |
| Threads.Live.Save | src/arm11/wrap.c:409-443 | what is saved is the state of the CPU, field by field |
| Threads.Live.Load | src/arm11/wrap.c:444-482 | after loading, the CPU would save what was loaded |
| Threads.Scheduler.SetBuffers | src/loader.c:326-332 | every entry, used or not, gets its own page below 0xFFFF0000 as its service buffer |
| Threads.BuffersArePages | src/loader.c:326-332 | these buffers are disjoint pages, in the order of the entries |
| Threads.Scheduler.New | src/arm11/threads.c:47-64 | the next entry becomes a running thread; the views of the others stay |
| Threads.Scheduler.Switch | src/arm11/threads.c:178-200 | switching leaves the view of every thread unchanged |
| Threads.Scheduler.SaveContextCurrentThread | src/arm11/threads.c:446-454 | saving leaves every view unchanged and takes the thread off the CPU if there are others |
| Threads.Scheduler.IsThreadActive | src/arm11/threads.c:66-148 | a thread may run exactly if its state or the answers of its handles say so; handles change as asking changes them; a wake-up writes r1 of that thread's view and of no other |
| Threads.Scheduler.AskAll | src/arm11/threads.c:85-107 | the search of a wait for all asks in order, each handle as the ones before left it: over when none is waiting, cut short by a handle that cannot be asked |
| Threads.Scheduler.AskAny | src/arm11/threads.c:118-143 | the search of a wait for any asks every handle, also after one was ready, and finds the first that is |
| Threads.Scheduler.WaitForAll | src/arm11/threads.c:82-117 | a wait that is over wakes the thread with the number of its handles in r1; one that was cut short lets it run unchanged |
| Threads.Scheduler.WaitForAny | src/arm11/threads.c:118-143 | a wait that is over wakes the thread with the index of the first ready handle in r1 |
| Threads.Scheduler.NextStopped | src/arm11/threads.c:150-159 | finds a stopped thread if there is one |
| Threads.Scheduler.RemoveZombies | src/arm11/threads.c:161-176 | ends, counts the stopped threads and leaves the others in order, also when the table is full and the loop reads the entry behind it |
| Threads.Scheduler.EndRound | src/arm11/threads.c:344-345 | the threads that have not stopped keep their views |
| SystemCalls.FindIdByHandle | src/arm11/threads.c:401-413 | the current thread for its pseudo-handle, else the first thread with the handle, or -1 if there is none |
| SystemCalls.StopThread | src/arm11/threads.c:379-382 | the thread stops; no other view changes |
| SystemCalls.CloseHandle | src/arm11/threads.c:597-606 | exactly the thread that the handle stands for stops, or -1 is returned |
| SystemCalls.SetCurrentThreadWaitList | src/arm11/threads.c:458-469 | the current thread waits for the list; no other view changes |
| SystemCalls.SetCurrentThreadArbitrationSuspend | src/arm11/threads.c:472-485 | the current thread waits at the address of the arbiter; no other view changes |
| SystemCalls.ResumeArbitratedThread | src/arm11/threads.c:487-493 | the thread runs again; no other view changes |
| SystemCalls.ArbitrateHighestPrioThread | src/arm11/threads.c:496-517 | finds a waiting thread of the smallest priority number, the last of equals, or none if none waits with a number up to 0x80 |
| SystemCalls.ReleasesForemost | src/syscalls/arb.c:68-73 | releasing n threads one after the other releases exactly the first n in the order of priority, and all that can be released if they are fewer |
| SystemCalls.ReleasesAll | src/syscalls/arb.c:59-75 | a release of at least as many threads as wait is the release of all of them that a negative value asks for |
| SystemCalls.AllReleasedUnless | src/syscalls/arb.c:61-66 | a release of all leaves no thread waiting if and only if none that waits has a priority number above 0x80 |
| SystemCalls.ArbitrateAddress | src/syscalls/arb.c:32-118 | each of the five kinds of arbitration and the three errors, on threads, memory and result code; a thread is suspended exactly if its value is not below the signed word, decremented before for two of the kinds; the kinds one by one are told by `CallEffects` |
| SystemCalls.SetPriority | src/arm11/threads.c:539-552 | exactly the thread that the handle stands for gets the priority, as a signed number |
| SystemCalls.GetPriority | src/arm11/threads.c:521-537 | r1 of the current thread becomes the priority of the thread that the handle stands for, or zero |
| SystemCalls.CreateThread | src/arm11/threads.c:566-593 | the first unused entry becomes a thread with the given start, argument, stack and priority, its other registers and flags being what the entry held; the caller gets the handle in r1; no other view changes |
| CallEffects.SwiTraps | src/svc.c:143-267 | 0xDF00 + n in Thumb state and 0xEF000000 + n in ARM state make the call with number n |
| CallEffects.ExitStops | src/svc.c:171-176 | SWI 9 stops its caller, with zero in r0 |
| CallEffects.CloseStops | src/arm11/threads.c:597-606 | SWI 0x23 stops exactly the thread whose handle is in r0, and tells in r0 whether there is one |
| CallEffects.SetsPriority | src/arm11/threads.c:539-552 | SWI 0xC gives the thread whose handle is in r0 the signed priority in r1, and does nothing if there is none |
| CallEffects.GetsPriority | src/arm11/threads.c:521-537 | SWI 0xB puts the priority of the thread whose handle is in r1 into r1, or zero if there is none |
| CallEffects.WaitSuspends | src/arm11/threads.c:458-469 | SWI 0x24, 0x25 and 0x32 make the caller wait for handles, with the result in r0 |
| CallEffects.ArbitrationFails | src/syscalls/arb.c:45-54 | SWI 0x22 with an unaligned address, a handle that is no arbiter's or an unknown kind gives its result code and changes nothing else |
| CallEffects.ReleasesEveryone | src/syscalls/arb.c:61-66 | kind 0 with a negative value releases every thread that waits at the address for the arbiter with a priority number up to 0x80, and changes no other thread and no memory |
| CallEffects.ReleasesSome | src/syscalls/arb.c:68-75 | with a value that is not negative it releases so many, one after the other |
| CallEffects.ReleasesInOrder | src/arm11/threads.c:496-517 | the released threads have smaller priority numbers than those that still wait, or the same and a later place in the table |
| CallEffects.Acquires | src/syscalls/arb.c:77-91 | kinds 1 and 3 write nothing; the caller goes on if the value is below the signed word, and waits at the address for the arbiter otherwise; no other thread changes |
| CallEffects.Decrements | src/syscalls/arb.c:93-113 | kinds 2 and 4 lower the word by one modulo 2^32, change no other byte, and then compare likewise |
| CallEffects.Lock | src/syscalls/arb.c:93-113 | over a run: with w in the word, the first w - 1 threads that call kind 2 with value 0 go on, the next one waits, and the word counts them |
| CallEffects.CreationAdds | src/arm11/threads.c:566-593 | SWI 8 makes the first unused entry a thread: priority, entry, argument and stack pointer from r0 to r3 of the caller, Thumb state for an odd entry, its other registers and flags those of the entry; the caller gets the handle in r1 |
| Processors.WakeCommutes | src/arm11/threads.c:66-148 | waking a thread up is writing r1 of its processor, and it can be resumed afterwards |
| Traps.PassesNumber | src/arm11/thumbemu.c:414-434 | the number of a Thumb SWI reaches the system calls if and only if it is neither 0x18 nor 0xFE |
| Traps.SignalIsLost | src/arm11/thumbemu.c:414-434 | SWI 0x18 (0xDF18), which asks for SignalEvent (src/svc.c:203), is one that does not |
| Multitasking.System.RunInstructions | src/arm11/wrap.c:306-314 | running the interpreter on the thread on the CPU runs that thread's processor on the shared memory and touches no other |
| Multitasking.System.ServeThread | src/svc.c:143-267 | an SWI of the thread on the CPU is fetched, translated and served: the processors, the memory and the unused entries become what the call makes of them, with the results in the caller's registers and the caller after the SWI |
| Multitasking.System.TakeTurn | src/arm11/threads.c:312-332 | asking, switching, sorting the mappings and the slice act as one turn of the thread's processor |
| Multitasking.System.Execute | src/arm11/threads.c:288-346 | a round over a table that may grow during it is a turn for each thread, in order (`Fairness.RoundIsFair`), and then the stopped ones are gone |
| Fairness.RoundIsFair | src/arm11/threads.c:288-346 | a completed round is a sequence of states in which each thread, the first one first, takes one turn, up to the number of threads that there are in the end, and then the stopped ones are removed |
| Fairness.FairIsRound | src/arm11/threads.c:288-346 | the other way round: every such sequence is the round |
| Fairness.EveryoneRuns | src/arm11/threads.c:288-346 | in a round of threads that run, each processor runs its own number of instructions on the memory that the one before it has left, and nothing else happens |
| Fairness.TurnByState | src/arm11/threads.c:66-148 | a running thread has its slice; a stopped one, or one that waits for an arbitration, has nothing |
| Fairness.TurnOfAny | src/arm11/threads.c:118-143 | a wait for any handle ends with the index of the first ready one in r1, or the turn only asks |
| Fairness.TurnOfAll | src/arm11/threads.c:82-117 | a wait for all handles ends with their number in r1 when none is waiting; one that cannot be waited for lets the thread run and wait on |
| Fairness.RepliesInOrder | src/arm11/threads.c:82-143 | handles are asked in the order of the list, each as those before it left things; only a wait for all ends early, at the first handle that cannot be waited for |
| Fairness.ActsInOrder | src/arm11/threads.c:312-332 | what happens in a slice happens in its order |
| Multitasking.System.Run | src/arm11/threads.c:288-346 | over any number of rounds, threads that share one emulator run as processors that share one memory |
| Fairness.RoundsInOrder | src/arm11/threads.c:288-346 | rounds follow one another in their order |
| Multitasking.Start | src/main.c:152-172 | initialization, the first thread, the service buffers (src/loader.c:326-332) and the setting of PC and stack pointer give one running processor with zeroed registers, and 31 unused entries |
| Multitasking.RunProgram | src/main.c:152-176 | the same over any number of rounds, from initialization on |
| Multitasking.SlicesJoin | src/arm11/threads.c:288-346 | a program that is alone runs the same however it is cut into slices |
| Multitasking.SoloFollowsManual | src/arm11/threads.c:288-346 | such a program follows the manual if it never executes a departing instruction |
| Multitasking.OwnBuffersFirst | src/loader.c:326-332 | at the start no two entries of the table share a service buffer |
| Multitasking.RemovalSharesBuffers | src/arm11/threads.c:161-176 | removal keeps the service buffers of a table that is not full apart if and only if no thread has stopped |
| Multitasking.NewThreadsShareBuffer | src/arm11/threads.c:161-176 | after a removal, the next two threads that are created share a service buffer |
| Breakpoints.Stub.constructor | src/gdb/gdbstub.c:1934-1944 | the whole pool is one free list and the active lists are empty |
| Breakpoints.Stub.Add | src/gdb/gdbstub.c:1189-1209 | Z inserts at the front of its list and fails exactly when the pool is used up |
| Breakpoints.Stub.Remove | src/gdb/gdbstub.c:1162-1188 | z takes out exactly the first breakpoint with the address and frees its descriptor |
| Breakpoints.Stub.Serve | src/gdb/gdbstub.c:1110-1226 | any sequence of commands acts on the lists as plain lists; five disjoint acyclic chains hold the pool throughout |
| Breakpoints.InsertedAndDeleted | src/gdb/gdbstub.c:1162-1209 | an insertion is refused exactly if a hundred breakpoints are active; deleting at its address what was just inserted restores all lists |
| Breakpoints.OtherListsStay | src/gdb/gdbstub.c:1110-1226 | a command changes no list but its own |
| Breakpoints.InOneList | src/gdb/gdbstub.c:1110-1226 | every descriptor is in one list, once |
| Breakpoints.AddKeepsLinked | src/gdb/gdbstub.c:1192-1203 | the relinking of Z keeps the five chains |
| Breakpoints.UnlinkingKeeps | src/gdb/gdbstub.c:1168-1177 | unlinking from the head or from the middle takes out exactly one descriptor |
| Breakpoints.FreeingKeepsLinked | src/gdb/gdbstub.c:1178-1179 | pushing it onto the free list restores the five chains |
| Packets.PacketReader.Accept | src/gdb/gdbstub.c:387-437 | one byte moves the reader as its state machine says, the index stays in the buffer and completed text is terminated |
| Packets.PacketReader.ReadPacket | src/gdb/gdbstub.c:379-450 | reading consumes the input up to the first event |
| Packets.PutPacket | src/gdb/gdbstub.c:474-499 | the buffer holds the framed payload, terminated, and its length is returned |
| Packets.PacketIsRead | src/gdb/gdbstub.c:379-450 | a packet after junk is read as its payload, and is said to match exactly if its two digits stand for the checksum |
| Packets.SumIsTotal | src/gdb/gdbstub.c:474-499 | the checksum is the sum of the bytes modulo 256 |
| Packets.OkFrame | src/gdb/gdbstub.c:474-499 | the frame of "OK" is "$OK#9a" |
| Packets.BreakIsRead | src/gdb/gdbstub.c:397-404 | the byte 3 between packets is a request to stop, whatever follows |
| Packets.LongPacketIsDropped | src/gdb/gdbstub.c:413-416 | a packet whose text would not fit is given up |
| Packets.FrameIsRead | src/gdb/gdbstub.c:379-499 | a frame after junk is read as its payload with a matching checksum, whatever follows |
| Packets.StreamIsRead | src/gdb/gdbstub.c:379-499 | a stream of frames with junk between them is read as the sequence of payloads |
| RegisterDump.DumpRegisters | src/gdb/gdbstub.c:1295-1355 | the text of the dump: sixteen words lowest byte first, padding and the status word |
| RegisterDump.LoadDump | src/gdb/gdbstub.c:1231-1258 | a register text is read back word by word |
| RegisterDump.DumpIsParsed | src/gdb/gdbstub.c:1231-1355 | loading inverts dumping for all values |
| RegisterDump.DumpShows | src/gdb/gdbstub.c:1295-1355 | each register is shown in its place by eight digits, lowest byte first and each byte by its higher digit first; 200 zeros and the status register follow |
| RegisterDump.WriteBackRestores | src/gdb/gdbstubchelper.c:131-196 | writing the dump of a thread back to it restores it exactly, unless the thread is on the CPU in sequential execution |
| RegisterDump.WriteBackLater | src/gdb/gdbstubchelper.c:131-196 | whatever happened since, a thread gets its dumped registers back; its status word only if it is not on the CPU, since arm11_SetR refuses that index |
| RegisterDump.SomeMove | src/gdb/gdbstubchelper.c:147-149 | a thread on the CPU with r15 at 0x100008 in sequential execution has it at 0x100004 after its dump is written back |
| RegisterDump.ReadRegister | src/gdb/gdbstubchelper.c:131-171 | each of the seventeen values, on the CPU or saved, and zero for other numbers |
| RegisterDump.ShowsThread | src/gdb/gdbstubchelper.c:131-171 | the debugger is shown the thread's own r0 to r14, and for a thread on the CPU in ARM state its next instruction as the PC, exactly unless the last instruction has moved the pipeline by itself |
| RegisterDump.WriteRegister | src/gdb/gdbstubchelper.c:172-196 | one register of one thread changes; index 16 has no effect on the CPU (src/arm11/wrap.c:325-333) |
| RegisterDump.DumpThread | src/gdb/gdbstub.c:1295-1355 | the text of a thread's registers |
| RegisterDump.RestoreThread | src/gdb/gdbstub.c:1231-1258 | the text is written to the thread's registers, one after the other, and to no other thread's |
| GpuCommands.ExecuteCommands | src/gpu/commands.c:4-51 | the register writes of a stream are those of its commands, in order; commands start at multiples of eight bytes |
| GpuCommands.Gather | src/gpu/commands.c:14-30 | the values of a command are collected, never more than the field buffer holds |
| GpuCommands.Emit | src/gpu/commands.c:36-48 | nothing if masked out, consecutive registers if grouped, one call otherwise |
| GpuCommands.PlainWrites | src/gpu/commands.c:44-48 | a command that is not grouped writes all its values to one register in one call; one that is masked out writes nothing |
| GpuCommands.GroupedWrites | src/gpu/commands.c:36-43 | executing a grouped command is executing one single command for each of its values, with consecutive registers |
| GpuCommands.MergedLanes | src/gpu/gpu.c:95-103 | a write takes the bytes that the mask selects from the value and leaves the others |
| GpuCommands.UpdateRegister | src/gpu/gpu.c:95-103 | the register is merged with the value, byte by byte, as the mask says |
| GpuCommands.WriteRegisters | src/gpu/gpu.c:1339-1341 | writes to ordinary registers are made one after the other, each with the first of its values |
| GpuCommands.GroupedSetsRegisters | src/gpu/commands.c:36-43 | after a grouped command the register of its number plus j, modulo 2^16, holds value j in the selected bytes, and no other register has changed |
| GpuCommands.ThreeRegisters | src/gpu/commands.c:4-51 | the words 10, 0x802F0200, 20 and 30 write 10, 20 and 30 to the registers 0x200, 0x201 and 0x202 |
| GpuCommands.ReadsCommands | src/gpu/commands.c:7-35 | every list of commands is read back from its encoding |
| GpuCommands.SetCommandList | src/services/gsp_gpu.c:80-97 | a list of commands whose encoding lies in the memory of the program, across any mappings, is executed as what the commands write, in order |

## Left out

- Exceptions, interrupts, aborts, coprocessors, VFP, ARMv6 media and exclusive instructions, LDRD, STRD, SWP and PLD; SWI is part of the model of threads only; an access to an unmapped address loads zero or stores nothing, on both sides.
- Cpu.State.ExecuteDataProcessing: not for r15 as the destination together with the flags, and for TST, TEQ, CMP and CMN without flags, which access the status register.
- Cpu.State.GetDPRegRHS: not for register-shifted operands that involve r15, which the manual leaves UNPREDICTABLE.
- Cpu.State.GetDPSRegRHS: likewise.
- Cpu.State.ExecuteMultiply: not for r15 as an operand or destination.
- Cpu.State.ExecuteArm: for data processing, multiplication and branches.
- Cpu.State.BranchLinkLow: not for an odd r14; the code branches to an odd address.
- Cpu.State.ExecuteThumbBranch: without SWI and undefined encodings.
- Cpu.State.Step: for instructions of the modelled classes, as ExecuteArm and ExecuteThumbBranch.
- Cpu.State.Run: likewise; `Machine.Emulator.Run` adds loads, stores and block transfers, and `Multitasking.System.Run` system calls.
- Runs.EmulatedMeansStep: CMP of two registers with r15 as the first in Thumb state is taken as UNPREDICTABLE.
- Cpu.State.ExecuteBranchRegister: not for a target with remainder 2 modulo 4, or BLX of r15, which the manual leaves UNPREDICTABLE; `Cpu.State.WriteR15Branch` says that the code rounds such a target down.
- BlockTransfer.StoreRegisters: for nonempty lists and blocks that stay below 2^32.
- BlockTransfer.LoadRegisters: likewise.
- BlockTransfer.StoreMult: for word-aligned bases other than r15, nonempty lists and blocks that stay below 2^32.
- BlockTransfer.LoadMult: likewise, and not for a loaded PC with remainder 2 modulo 4.
- BlockTransfer.ExecuteBlock: as StoreMult and LoadMult.
- Machine.Emulator.FetchInstruction: for instructions whose words end below 2^32.
- Machine.Emulator.ExecuteTransfer: for the transfers that ExecuteBlock and ExecuteSingle have.
- Machine.Emulator.Turn: for the instructions that have a meaning here.
- Machine.Emulator.Run: access to the status register, mode changes and the S-bit forms of LDM and STM are not among the instructions of a run.
- Machine.Boot: for a start in ARM state at a multiple of four, as programs are loaded.
- Machine.RunProgram: as Boot and Emulator.Run.
- SingleTransfer.LoadValue: for accesses that end below 2^32.
- SingleTransfer.StoreValue: likewise.
- SingleTransfer.ExecuteSingle: not for write-back of r15, accesses that reach the end of the address space, and a loaded PC with remainder 2 modulo 4; the privilege of LDRT and STRT makes no difference here.
- SingleTransfer.StoreThenLoad: for the forms without write-back whose address does not involve the PC, so that the load has the address of the store.
- SingleLaws.LoadsPreIndexed: r15 as the base or the destination is the subject of LoadsLiteral and LoadsPc.
- Banks.Registry.SwitchMode: only between mode numbers of the architecture; unassigned numbers clear registers.
- Banks.Registry.Replay: likewise.
- Banks.Registry.StoreSMult: for bases other than r15, nonempty lists and blocks that stay below 2^32.
- Banks.Registry.LoadSMult: likewise, and without the PC in the list, where the code also restores the status register.
- Memory.Segments.AddMapping: for ranges that end below 2^32 and do not enclose an existing mapping; does not model failure of the allocation; shared mappings, whose bytes belong to the caller, are not modelled.
- Memory.Segments.Write: for ranges that are mapped, with a spare entry in the table; the exit on an unmapped range is not modelled.
- Memory.Segments.Read: for ranges that are mapped; the code indexes far outside the table otherwise.
- Memory.Segments.Find: for accesses that end below 2^32; `Memory.EndIsMisjudged` says what the test does at the end.
- Memory.Segments.Write8: as Find, and so are Write16, Write32, Read8, Read16 and Read32.
- Memory.Segments.SortByAccesses: needs a mapping; on an empty table the loop bound wraps around.
- Memory.Segments.Reorder: likewise.
- Memory.Segments.Replay: likewise, and for accesses as Find.
- Decompress.CopyMatch: outputs within 4097 bytes of 4 GiB, where the address of a match would wrap, are excluded.
- Decompress.DecodeToken: likewise.
- Decompress.DecodeGroup: likewise.
- Decompress.Decompress: likewise, and footers that point outside the input.
- Relocate.Relocate: reading the file, and the placement of the relocation headers in the image, are not modelled.
- Multitasking.System.Run: the screen and GPU interrupts between slices, the debugger's stalls, and the scheduling by priority that is compiled only with PROPER_THREADING.
- Multitasking.System.Execute: needs at least one memory mapping, since sorting an empty table runs out of it.
- Multitasking.System.ServeThread: for SWI whose condition holds; what a thread waits for and whether a handle is an arbiter's are found out by the handles, which are a parameter.
- CallEffects.SwiTraps: unconditional SWI; ServeThread covers those with a condition.
- CallEffects.CreationAdds: entries that are odd or multiples of four; a thread that is created at another one cannot be resumed in the model.
- Threads.Scheduler.New: only while the table has room; the program ends otherwise.
- SystemCalls.CreateThread: likewise.
- Threads.Scheduler.AskAny: handles without a wait function are asked by the code and crash it; here they count as not ready.
- Threads.Scheduler.WaitForAny: likewise.
- Threads.Scheduler.IsThreadActive: likewise.
- RegisterDump.LoadDump: for texts of a full dump; a shorter one is read beyond its end.
- RegisterDump.RestoreThread: likewise.
- GpuCommands.ExecuteCommands: for streams that end with a command; the code reads beyond the end otherwise.
- GpuCommands.WriteRegisters: registers without effects of their own; the one with number 0xFFFF, which lies behind the array of the code, counts as one of them.
- Packets.PutPacket: sending and waiting for the acknowledgement.
- Breakpoints.Stub.Serve: parsing the addresses and lengths of the commands; descriptors are linked by their place in the pool instead of by pointers.
- Cycle counts, logging, tracing, screen, sound, file systems, services and the GPU beyond its command stream.
