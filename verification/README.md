# A verified model of the Linux 0.11 user-mode emulator

This project models the core of a Linux 0.11 emulator (an i386 interpreter, a cooperative kernel, a
copy-on-write file layer over a Minix v1 parser) and proves what its parts promise. It is written in the
form of the original: classes with fields that are updated in place where the original has them, pure
functions where it has those. Each class method is tied to a function on values, and the properties are
proved about those functions.

`dafny verify dfyconfig.toml` checks everything.

## The modules

| module | models |
|---|---|
| Words, Memory | machine words; the two-region address space, its stores, its growth and its table of decoded instructions (x86mem.py) |
| Decoder, DecoderLocality | the executor's decoder; decoding depends on the bytes of the instruction only (cpu86.py) |
| Disassembler, Operations, DecoderAgreement | the second decoder with its mnemonics, and its agreement with the first on operation, operands and length (cpu_disasm.py) |
| Flags, Handlers, FlagLaws | EFLAGS and the instruction handlers, and what the flags say of the operands (cpu86.py) |
| Meanings, MeaningsOfMoves, MeaningsOfBits, MeaningsOfStack | what executing an instruction does, by the name the disassembler shows (cpu86.py, cpu_disasm.py) |
| Shifting, InstructionLaws, MultiLimb, LimbPrograms, StringBlock | what the handlers mean: bit by bit, as comparisons, divisions, calls and searches, on numbers of many words and for the code that computes with them, and for the block forms of rep movs and rep stos |
| Coherence, Interpreter | what every handler keeps; the cached interpreter refines the plain one (cpu86.py, x86mem.py) |
| ProgramLoader, StackBuilder, LoaderLaws | interpreter scripts, a.out files, the initial stack, and what they make of given bytes (kexec.py, x86mem.py) |
| Signals | signal frames and the return without a system call (kernel.py) |
| Pipes, Descriptors, Scheduler | pipe buffers, shared open files with their counts, the run queue (kvfs.py, kernel.py) |
| Kernel, KernelProofs, KernelSleep, KernelRounds | the whole kernel as a transition system: invariants over all runs, blocking calls, what a step does to a sleeper, bounded waiting (kernel.py) |
| KernelCalls, KernelResults, KernelSettings | what each system call, signal and exit does, seen from outside (kernel.py) |
| KernelFates, KernelEnds | how sleeps end over whole runs, and the way through signal handlers back to the call (kernel.py) |
| PlainStore, FileLaws, LinkCounts, Tree, Overlay | an in-memory file store as reference, where paths lead and what each call leaves, exact link counts, which operations keep the directories a tree, and the copy-on-write layer that refines the store (kvfs.py) |
| MinixMap, MinixLayout, MinixWalk, MinixCheck | block mapping, reading, which bytes and bits mean what, the tree walk and the consistency check (minixfs.py) |

## Main results

1. A run that uses the table of decoded instructions reaches the same registers, memory, flags, outcome and
   instruction count as one that decodes every instruction afresh, self-modifying code included
   (`Interpreter.RunTransparent`), provided no instruction that is executed is longer than 16 bytes. The
   prefix loop has no length limit, and a 17-byte instruction does go stale (`LongInstructionGoesStale`).
2. The two decoders agree on operation, direction, length, operand, operand size, register, immediate and jump
   target wherever the executor knows the instruction (`DecoderAgreement.DecodersAgree`), so a listing follows the
   executor. Only the operand size differs, exactly for a call or jump through an operand with the prefix 66
   (`DecoderAgreement.PrefixedCall`). Executing an instruction does what its name says: result, flags and memory
   operands, for every named operation (`Meanings.AluMeaning`, `Meanings.ShownAluMeaning` and the laws beside them).
3. In every reachable kernel state all descriptor counts are exact, the run queue is sound, every sleeping
   process stands at its trap with its call intact, and no pipe loses or invents a byte
   (`KernelSleep.ReachableStates`). A blocking call is invisible to a kernel that blocks atomically exactly
   if its trap is two bytes long (`KernelSleep.BlockingStutters`): behind a prefix the rewind by two lands
   inside the instruction.
4. Every sleep that ends in a run ends in exactly one of five ways: awake at the call, in a handler, behind the
   call with EINTR, stopped, or dead (`KernelEnds.SleepEnds`). Awake at the call, the process makes that very
   call when it next runs (`KernelEnds.CallsAgain`). From a handler, however deep the signals that arrive in it
   nest, it comes back to the call, and makes the identical one if and only if the handlers kept ebx, which the
   frame does not save (`KernelEnds.HandlerReturns`, `KernelEnds.HandledCallsAgain`).
5. Signals of any depth unwind exactly (`Signals.SignalsUnwind`). A child forked inside a handler with a
   saved mask does not (`Signals.ForkedReturn`, `Signals.ForkedInHandler`).
6. The overlay gives the replies and the view of a plain store for every sequence of operations
   (`Overlay.OverlayFS.DoAll`), provided that in the image's listings the first and the last entry of a name hold
   the same inode; exactly then does copying a directory up change no lookup (`Overlay.CopyUnnoticed`). Link
   counts are exact, all cases of rename included (`LinkCounts.CountsExact`), except for entries made in a removed
   directory (`LinkCounts.RemovedParentMiscounts`).
7. The directories stay a tree through any sequence of operations without a rename of a directory into itself or
   below itself (`Tree.TreeKept`); such a rename is not refused and cuts off exactly that directory and all
   below it (`Tree.RenameConnected`, `Tree.RenameBelowItself`).
8. Every system call leaves the state its contract names and no other, waiting, failing and faulting cases included:
   fork, exit, waitpid, execve, read, write, kill, the signal calls and the descriptor calls (`KernelCalls.ForkExact`,
   `KernelResults.WaitExact`, `KernelCalls.KillExact` and the laws beside them).
9. The file system check reports nothing exactly when the image is consistent (`MinixCheck.CheckFs`).

## Where documentation and code differ

The model follows the code.

- The comment at x86mem.py:114-119 gives 15 bytes as the longest instruction; the decoder has no limit.
- Re-executing a blocked call rests on eip - 2 being the trap (kernel.py:1225-1231); with a prefix before
  `int 0x80` it is not (`KernelSleep.PrefixedTrapMoves`).
- The signal return relies on `sigframes` (kernel.py:1283-1302), which a forked child starts without.
- waitpid is polled for any dead child (kernel.py:1318-1321), not for the children it asked for: a sleeper
  whose children have all left the group it waits for is not woken.

- `signal` returns the old handler only (kernel.py:1394-1400), so handing it in again restores the old disposition
  just for one-shot, unmasked ones (`KernelEnds.SignalRestores`).
- rename (kvfs.py:433-456) has no test for a new path below the old one.

## Hypotheses

Each is stated in the contracts that need it.

- Cache transparency needs executed instructions of at most 16 bytes; the architecture's limit is 15.
- The two memory regions stay apart only for `set_brk` requests at or below the stack's lower end
  (`Memory.BrkKeepsRegionsApart` says exactly which, `Memory.BrkCanOverlapTheStack` shows one that is not).
- In the listings of the image the first and the last entry of a name hold the same inode;
  `Overlay.DuplicatesCanShow` shows what happens otherwise.
- Starting a shell succeeds, so that a process that runs is in the queue.
- Nested signals use the built-in return address; a handler installed with its own restorer never pops
  `sigframes`.
- On the way from a delivery to the end of its handler, programs are considerate (`KernelEnds.Considerate`): they
  leave older frames alone, return where they were entered, take signals at or below their frame, and do not
  replace themselves. Nothing is asked of other processes.
- Link counts speak of operations that make and take entries in directories that have not been removed
  (`LinkCounts.InLive`); the refinement of the view (`Overlay.OverlayFS.DoAll`) asks only that the working and root
  directories exist.
- The bitmaps of a Minix image are long enough for the inodes and zones the superblock declares.

## Model

| member | source | states |
|---|---|---|
| Words.NumOfBytes | x86mem.py:189-211 | storing a number and loading it gives it back modulo the operand size |
| Words.BytesOfNum | x86mem.py:163-175 | loading bytes and storing the number gives the same bytes |
| Memory.WriteMappedExact | x86mem.py:138-152 | a store into mapped memory changes exactly its own bytes and keeps the layout |
| Memory.GrowStackExact | x86mem.py:84-99 | growth keeps every mapped byte, adds zeros only, and keeps the regions apart |
| Memory.WriteExact | x86mem.py:138-152 | a store succeeds exactly if it lies in the low region or between it and the top; then it changes its bytes only, possibly growing the stack once; a failing store changes no mapped byte |
| Memory.LoadAfterStore | x86mem.py:154-211 | a load after a store of the same size gives the stored value, truncated |
| Memory.LoadIsBytes | x86mem.py:154-175 | sized loads are the little-endian reading of the byte view |
| Memory.BrkKeepsRegionsApart | x86mem.py:75-82 | `set_brk` keeps the regions apart if and only if the request is at or below the stack or refused; bytes already there stay |
| Memory.BrkCanOverlapTheStack | x86mem.py:75-82 | a request the guard accepts can make the regions overlap |
| Memory.Image.GrowStack | x86mem.py:84-99 | growth happens exactly for addresses in the hole, covers the address in one step and prepends zeros |
| Memory.FlushSlots | x86mem.py:114-126 | exactly the slots from 15 before the store to its end are cleared |
| Memory.AddressSpace.LoadProgram | x86mem.py:66-73 | the low region becomes text, data and zeros, the table empty, the stack untouched |
| Memory.AddressSpace.SetBrk | x86mem.py:75-82 | the object follows the value-level `SetBrk` and returns the new break |
| Memory.AddressSpace.GrowStack | x86mem.py:84-99 | the object follows the value-level growth, and reports whether it happened |
| Memory.AddressSpace.Clone | x86mem.py:101-112 | a fresh, equal address space with an equal table |
| Memory.AddressSpace.FlushIcache | x86mem.py:114-126 | the slice assignment clears the window `FlushSlots` names |
| Memory.AddressSpace.Read | x86mem.py:130-136 | reads the byte view, or fails |
| Memory.AddressSpace.Write | x86mem.py:138-152 | memory and table after a bulk store, its own recursion bounded by one growth |
| Memory.AddressSpace.ReadSized | x86mem.py:154-175 | the sized reads are the loads of the byte view |
| Memory.AddressSpace.WriteSized | x86mem.py:177-211 | the sized writes are truncating stores, with the same flush |
| Memory.AddressSpace.ReadCStr | x86mem.py:215-222 | reads up to the first NUL within the limit, or fails |
| LoaderLaws.FreshExact | x86mem.py:51-62 | a new address space: 64 MB, the topmost 512 KB zero, nothing below |
| LoaderLaws.ReadsExact | x86mem.py:130-136 | which ranges can be read, and what bytes they give |
| LoaderLaws.LoadExact | x86mem.py:154-175 | the numbers read, byte by byte |
| LoaderLaws.BrkExact | x86mem.py:75-82 | the break moves exactly to addresses from the end of text to 16 KB below the start of the stack; memory grows with zeros and never shrinks |
| LoaderLaws.GrowthExact | x86mem.py:84-99 | the stack grows by 64 KB or to the address asked for, rounded up to a page, but not into the program |
| LoaderLaws.CStringExact | x86mem.py:215-222 | which string is read: all bytes before the NUL, if it is among the first `limit` and all are readable |
| Decoder.Decode | cpu86.py:1798-1823 | every decoded instruction has positive length and ends inside the address space; which operation it is, `Operations.NamesMatch` and `DecoderAgreement.DecodersAgree` say |
| DecoderLocality.DecodeLocal | cpu86.py:1798-1823 | two memories with the same bytes over an instruction decode it alike |
| DecoderLocality.UnboundedLength | cpu86.py:1808-1815 | any number of prefixes before a nop is one instruction: there is no length limit |
| DecoderLocality.Trap80Bytes | cpu86.py:1316-1322 | an instruction that traps with vector 80h ends in the bytes CD 80 |
| DecoderLocality.BytesAreTrap | cpu86.py:1316-1322 | the bytes CD 80 decode to that trap, two bytes long |
| DecoderAgreement.ModRMsAgree | cpu_disasm.py:103-152 | both ModRM readers find the same register field and operand and stop at the same byte |
| DecoderAgreement.TablesMatch | cpu_disasm.py:233-476 | for each one-byte opcode and operand size the two classifications describe the same encoding, sizes, registers and immediates included |
| DecoderAgreement.TablesMatch0F | cpu_disasm.py:479-512 | the same for the two-byte opcodes |
| Operations.NamesMatch | cpu_disasm.py:233-476 | each one-byte opcode is executed as the operation, and in the direction, that its mnemonic names |
| Operations.NamesMatch0F | cpu_disasm.py:479-512 | the same for the two-byte opcodes |
| DecoderAgreement.PrefixLoopsAgree | cpu_disasm.py:200-219 | both prefix loops end at the same opcode with the same size and repeat prefix |
| DecoderAgreement.DecodersAgree | cpu_disasm.py:155-169 | where the executor finds a known instruction, the disassembler shows the same length, operation, direction, operand, operand size, register, immediate (as the handler means it) and jump target; the size differs exactly for an indirect call or jump with prefix 66 |
| DecoderAgreement.PrefixedCall | cpu_disasm.py:465-469 | the bytes 66 FF D0: 32 bits executed, 16 shown |
| DecoderAgreement.ListingFollowsExecutor | cpu_disasm.py:172-180 | a listing visits exactly the addresses that iterating the executor's lengths gives |
| Disassembler.DisasmRange | cpu_disasm.py:172-180 | the loop yields the requested number of lines, each where the one before ends |
| Flags.SaveRestore | cpu86.py:1508-1515 | well-formed flags survive being saved as a word and restored |
| Flags.BuildBits | cpu86.py:336-365 | a built flag image has carry, overflow, zero, sign and parity as computed and keeps the direction flag |
| FlagLaws.AddFlagsExact | cpu86.py:342-351 | CF, OF and AF tell whether the unsigned sum, the signed one and that of the low halves fit; ZF, SF and PF speak of the result; DF stays |
| FlagLaws.SubFlagsExact | cpu86.py:354-363 | the same for a difference with borrow |
| FlagLaws.LogicFlagsExact | cpu86.py:336-339 | logic clears CF, OF and AF |
| FlagLaws.CountFlagsExact | cpu86.py:380-393 | inc and dec keep CF; OF tells whether the signed value leaves its range |
| FlagLaws.ParityIsOnes | cpu86.py:336-339 | PF counts the ones of the low byte |
| FlagLaws.FlagPlaces | cpu86.py:1508-1515 | which bit of a saved word is which flag |
| FlagLaws.SahfExact | cpu86.py:734-736 | sahf takes five flags from AH and keeps DF and OF |
| Shifting.BitwiseExact | cpu86.py:366-377 | and, or and xor, bit by bit |
| Meanings.AddressExact | cpu86.py:271-282 | the address of a memory operand is base plus factor times index plus displacement of the operand the disassembler shows, modulo 2^32 |
| Meanings.RegisterBits | cpu86.py:289-295 | which bits of the 32-bit register a sized register is |
| Meanings.AluMeaning | cpu86.py:494-505 | add, or, adc, sbb, and, sub, xor and cmp, by name: result and flags of the operands in the order named, left in the first operand except for cmp; nothing changes if the operand cannot be read |
| Meanings.ShownAluMeaning | cpu_disasm.py:233-240 | the same from the bytes: what executing them does is what the shown line says, operand by operand |
| Meanings.AddBytes | cpu86.py:1073-1088 | the bytes 01 D8 add ebx to eax |
| MeaningsOfMoves.TestMeaning | cpu86.py:507-510 | test sets the flags of the conjunction and nothing else |
| MeaningsOfMoves.UnaryMeaning | cpu86.py:520-527 | inc, dec, not and neg, by name: value and flags |
| MeaningsOfMoves.MovMeaning | cpu86.py:511-516 | every form of mov puts the second operand shown into the first |
| MeaningsOfMoves.MovxMeaning | cpu86.py:482-487 | movzx and movsx put the unsigned or signed value into the register |
| MeaningsOfMoves.LeaMeaning | cpu86.py:466-468 | lea gives the address of the operand shown |
| MeaningsOfMoves.XlatMeaning | cpu86.py:743-744 | xlat reads the byte AL places behind EBX |
| MeaningsOfMoves.AccumulatorSwaps | cpu86.py:701-705 | the exchange with the accumulator |
| MeaningsOfMoves.JumpMeaning | cpu86.py:767-781 | conditional jumps, jmp, loop, loope, loopne and jecxz: when they jump, where to, and what happens to ECX |
| MeaningsOfMoves.ConditionNamed | cpu86.py:435-446 | each condition code is the condition its suffix names |
| MeaningsOfMoves.IndirectMeaning | cpu86.py:469-478 | jmp and call through an operand |
| MeaningsOfMoves.CallMeaning | cpu86.py:654-659 | call pushes the return address and goes on at the target |
| MeaningsOfMoves.SetMeaning | cpu86.py:479-481 | setcc puts 1 or 0 into a byte |
| MeaningsOfMoves.StopMeaning | cpu86.py:584-597 | int, hlt and nop |
| MeaningsOfMoves.CarryMeaning | cpu86.py:784-789 | clc and stc change CF only |
| MeaningsOfMoves.DirectionMeaning | cpu86.py:792-797 | cld and std change DF only |
| MeaningsOfMoves.SahfMeaning | cpu86.py:734-736 | sahf takes its five flags from AH |
| MeaningsOfMoves.LahfMeaning | cpu86.py:739-740 | lahf puts the low byte of a saved word into AH |
| MeaningsOfBits.MulDivMeaning | cpu86.py:835-847 | mul, imul, div and idiv work on the operand shown and change the accumulator, EDX and flags only |
| MeaningsOfBits.ImulMeaning | cpu86.py:813-832 | imul with two or three operands: the signed product, and CF and OF exactly if it does not fit |
| MeaningsOfBits.ShiftMeaning | cpu86.py:488-493 | shifts and rotations by name: which bit goes where, CF, OF and the other flags; a count of zero does nothing |
| MeaningsOfBits.DoubleMeaning | cpu86.py:910-941 | shld and shrd, with their refused counts |
| MeaningsOfBits.BitMeaning | cpu86.py:861-895 | bt, bts, btr and btc: which bit, in a register or past the address, goes to CF and what becomes of it |
| MeaningsOfBits.ScanMeaning | cpu86.py:898-907 | bsf and bsr: the lowest and the highest bit that is on; ZF for zero |
| MeaningsOfStack.PushMeaning | cpu86.py:608-639 | what each push pushes, and how wide |
| MeaningsOfStack.PushExact | cpu86.py:1539-1554 | a push stores below the stack pointer and moves it there, or faults and leaves it |
| MeaningsOfStack.PopMeaning | cpu86.py:850-854 | pop, with the address of its operand computed before |
| MeaningsOfStack.RetMeaning | cpu86.py:666-677 | ret and ret n |
| MeaningsOfStack.EnterMeaning | cpu86.py:686-698 | enter with any level: both pointers afterwards |
| MeaningsOfStack.EnterStores | cpu86.py:686-698 | the old frame pointer, the display and the new frame pointer as they stand in memory |
| MeaningsOfStack.StringMeaning | cpu86.py:1966-2027 | movs, stos, lods, cmps and scas: one element, of the size named, in the direction of DF |
| MeaningsOfStack.RepeatMeaning | cpu86.py:1966-2036 | with a repeat prefix, backwards or for lods: element by element, ECX counting down |
| Coherence.ExecuteSane | cpu86.py:584-948 | every handler keeps the memory valid, the flags well formed, and logs each change of a text byte |
| Coherence.ExecuteKeepsFlags | cpu86.py:336-431 | after any instruction the flags still equal what saving and restoring them gives |
| Coherence.LoopSane | cpu86.py:1966-2036 | the same for any number of string elements |
| Shifting.ShiftExact | cpu86.py:396-431 | shl, shr, sar, rol and ror by 1 to 31 at every size: each bit of the result, and the carry, is the operand's bit the 80386 manual names (section 17.2.2.11) |
| Shifting.RotationsUndo | cpu86.py:396-431 | rotating left and right by the same count are inverse, for counts beyond the operand size too |
| Shifting.DoublingOverflows | cpu86.py:396-431 | shl by one sets OF exactly if doubling the signed operand overflows |
| Shifting.DoubleShiftExact | cpu86.py:910-941 | shld and shrd: every bit comes from the right place of the right operand, CF is the last bit out |
| Shifting.SetBitExact | cpu86.py:861-886 | setting or clearing a bit changes that bit only |
| Shifting.BitOperation | cpu86.py:861-886 | bts, btr and btc set, clear and flip the selected bit and no other |
| Shifting.LowestBitExact | cpu86.py:898-907 | bsf finds a bit that is on and none below |
| Shifting.HighestBitExact | cpu86.py:898-907 | bsr finds a bit that is on and none above |
| InstructionLaws.RegisterExact | cpu86.py:1480-1500 | a sized register gives back what was put in, and no byte outside it changes |
| InstructionLaws.OperandExact | cpu86.py:1573-1601 | an operand gives back what was written, in a register or in memory |
| InstructionLaws.ExchangeSwaps | cpu86.py:517-519 | xchg leaves each operand with the other's old value |
| InstructionLaws.ComparisonExact | cpu86.py:354-364 | after a comparison twelve of the condition codes tell equal, less, below, overflow and their opposites of the operands, signed and unsigned |
| InstructionLaws.ConditionsPair | cpu86.py:435-446 | each of the sixteen codes having an expression of its own: of a conditional jump and the one with the opposite condition, exactly one jumps |
| InstructionLaws.ExtensionExact | cpu86.py:1445-1457 | movzx keeps the unsigned, movsx the signed value |
| InstructionLaws.WideningExact | cpu86.py:708-720 | cbw, cwde, cwd and cdq keep the signed value in the wider place |
| InstructionLaws.MultiplicationExact | cpu86.py:1836-1887 | mul and imul leave the whole product in the double accumulator; CF and OF tell whether it needs the upper half |
| InstructionLaws.DivisionExact | cpu86.py:1889-1912 | div faults exactly on zero or a quotient too large, else leaves quotient and remainder |
| InstructionLaws.TruncatedIsDivision | cpu86.py:1944-1949 | the truncating quotient and its remainder are the only pair with a remainder smaller than the divisor and signed like the dividend |
| InstructionLaws.SignedDivisionExact | cpu86.py:1914-1941 | idiv faults exactly if no quotient in range exists, else leaves that quotient and remainder |
| InstructionLaws.PushPops | cpu86.py:1539-1560 | a later pop that finds the stack as a push left it gets value and stack pointer back |
| InstructionLaws.CallReturns | cpu86.py:654-677 | ret and ret n resume behind the call, with the stack pointer restored, whatever ran in between kept that slot |
| InstructionLaws.EnterLeaves | cpu86.py:680-698 | leave undoes enter at level 0 whatever was pushed since |
| InstructionLaws.FlagsSaved | cpu86.py:723-732 | popf restores what pushf saved |
| InstructionLaws.SearchExact | cpu86.py:1966-2036 | repne and repe scas and cmps stop right behind the first element sought or after ECX elements, in either direction and any size, with the registers and ZF that position gives |
| LimbPrograms.CarryKept | cpu86.py:380-393 | inc, dec, loop, moves, pushes and every other instruction outside the arithmetic group keep the carry when executed, faulting or not |
| LimbPrograms.AddingCode | cpu86.py:342-353 | executing add on the lowest limb and adc on the others, with any operands and any such instructions in between, leaves the exact sum of what the operands held, with the carry out; OF exactly on signed overflow |
| LimbPrograms.SubtractingCode | cpu86.py:354-364 | likewise sub and sbb; CF decides unsigned and SF != OF signed less-than |
| MultiLimb.AdditionExact | cpu86.py:342-353 | an add/adc chain of any number of limbs, the carry kept in between, is exact addition with the carry out; OF exactly on signed overflow |
| MultiLimb.SubtractionExact | cpu86.py:354-364 | a sub/sbb chain is exact subtraction; CF decides unsigned and SF != OF signed less-than |
| MultiLimb.ShiftMultiplies | cpu86.py:910-941 | an shld chain closed by shl multiplies by 2^k modulo 2^(32n), the rest leaving at the top |
| StringBlock.BlockEqualsLoop | cpu86.py:1966-2036 | the block form of rep movs and rep stos has the effect of the element loop, cleared table slots included |
| StringBlock.SameEffectSameCache | x86mem.py:114-126 | equal effects clear the same slots |
| StringBlock.FaultingBlock | cpu86.py:1966-2036 | when the block form faults it agrees with the loop if and only if the loop's first element faults |
| StringBlock.RunString | cpu86.py:1966-2036 | the string operation as it runs, with its loop, computes the specified effect |
| Interpreter.WindowCoversExactly | x86mem.py:114-126 | the flush window catches every store into an instruction if and only if the instruction has at most 16 bytes |
| Interpreter.FlushKeepsCoherence | x86mem.py:114-126 | after any instruction's stores the remaining slots still hold what decoding gives |
| Interpreter.StepTransparent | cpu86.py:1680-1727 | one step through the table equals one plain step and keeps the table coherent |
| Interpreter.RunTransparent | cpu86.py:1680-1727 | the same for runs of any length, with stops, faults and instruction counts |
| Interpreter.SlicesCompose | cpu86.py:1680-1727 | running a then b instructions is running a + b, so single steps compose to a run |
| Interpreter.StepExact | cpu86.py:1774-1796 | one step: the magic addresses, unreadable instructions, and why an instruction ends the run |
| Interpreter.RunExact | cpu86.py:1680-1727 | a run of one instruction is one step; it counts if it was completed or halted |
| Interpreter.LongInstructionGoesStale | x86mem.py:114-126 | a 17-byte instruction whose last byte is overwritten keeps its old slot |
| Interpreter.CPU.DecodeAt | cpu86.py:1798-1823 | the decoder as it moves eip: the entry, and eip past the instruction or at the faulting byte |
| Interpreter.CPU.Push32 | cpu86.py:1539-1542 | memory, ESP and cleared slots of a push, and whether it faulted |
| Interpreter.CPU.Pop32 | cpu86.py:1544-1548 | the word on the stack and ESP past it, or a fault with nothing changed |
| Interpreter.CPU.StepOnce | cpu86.py:1774-1796 | the object makes one cached step |
| Interpreter.CPU.RunLoop | cpu86.py:1680-1727 | the loop over the table makes the cached run and counts its instructions |
| ProgramLoader.ShebangWords | kexec.py:66-78 | interpreter and option are words without surrounding white space |
| ProgramLoader.BrokenExactly | kexec.py:66-78 | parsing fails exactly on a nonempty line of characters that only str.split takes for white space |
| ProgramLoader.BrokenLine | kexec.py:66-78 | a line of one byte 85h is one |
| ProgramLoader.ResolveExact | kexec.py:148-171 | what is loaded is a regular file and no script; its arguments end in the script's path and the original ones but the first |
| ProgramLoader.GivesUpExactly | kexec.py:148-171 | the loader refuses with ENOEXEC exactly after five scripts in a row |
| ProgramLoader.EndlessScriptsRefused | kexec.py:148-171 | so it refuses every script of a set of scripts whose interpreters are in the set: loops, and whatever files there are besides |
| LoaderLaws.ScriptExact | kexec.py:148-170 | a script with a program as interpreter: that program, with its name, the option, the script's path and the arguments behind the first |
| LoaderLaws.ShebangExact | kexec.py:66-78 | which part of a script's first line is the interpreter and which the option |
| LoaderLaws.DepthExact | kexec.py:155-156 | the fifth script in a row is refused |
| LoaderLaws.RefusedExact | kexec.py:155-159 | why a path is refused at once |
| LoaderLaws.HeadExact | kexec.py:160-161 | only the first 128 bytes decide |
| LoaderLaws.HeaderExact | kexec.py:37-58 | where the eight words of the header stand |
| LoaderLaws.AcceptedExact | kexec.py:43-58 | which headers are accepted, with the numbers of the format |
| LoaderLaws.BodyExact | kexec.py:81-93 | memory holds text and data as they stand in the file from byte 1024, and zeros behind them |
| ProgramLoader.LoadAout | kexec.py:81-93 | a file is accepted exactly if it passes the header checks; the image is then its bytes followed by zeros, at most 48 MB |
| ProgramLoader.BuildImage | kernel.py:751-760 | loading and stack building together: succeeds exactly for loadable files with strings that fit, and then image and stack are in place |
| StackBuilder.CopyStrings | kexec.py:110-123 | strings go down from the top in order, each with its NUL, and nothing else changes |
| StackBuilder.WriteVector | kexec.py:137-142 | a pointer array with its NULL, and nothing else changes |
| StackBuilder.SetupStack | kexec.py:96-145 | too many bytes change nothing; otherwise no store faults and the whole stack is in place at the computed esp |
| StackBuilder.LayoutFits | kexec.py:96-145 | strings within ARG_AREA leave esp above any accepted program, and the areas do not overlap |
| LoaderLaws.AreaExact | kexec.py:105-107 | strings of up to 128 KB are taken |
| LoaderLaws.SpExact | kexec.py:125-145 | the stack pointer: strings, alignment, two arrays with their NULLs, three words |
| StackBuilder.StackRoundTrip | kexec.py:96-145 | reading argc at esp and following both pointer arrays gives argv and envp back |
| Signals.FrameExact | kernel.py:1359-1392 | each word of the frame at its place above the new stack pointer |
| Signals.DeliverExact | kernel.py:1359-1392 | the handler is entered: eip is the handler, the return address (or the built-in one) and the signal number stand at the stack pointer, the mask gains the action's bit by bit, exactly one-shot actions are reset; the frame is below the old stack pointer with every word at its place, and nothing at or above it changes |
| Signals.ReturnExact | kernel.py:1283-1302 | returning over an intact frame restores eax, ecx, edx, ESP, flags, eip and, if saved, the mask, and pops one record |
| Signals.ReturnRestores | kernel.py:1283-1302 | a return in a nested run restores what the interrupted level had |
| Signals.ReturnSucceeds | kernel.py:1283-1302 | with the stack pointer back at its frame the return cannot fail |
| Signals.RunNested | kernel.py:1359-1392 | in every run all frames stay stacked, in order and intact |
| Signals.SignalsUnwind | kernel.py:1283-1302 | whatever is delivered and returned in between, when the depth is back the interrupted state is restored |
| Signals.ForkedReturn | kernel.py:777-803 | a child forked inside a handler, whose record list is empty, returns correctly if and only if the frame has no mask |
| Signals.ForkedInHandler | kernel.py:777-803 | after any delivery with a saved mask a child forked in the handler comes back at the address its flags spell |
| Signals.Process.BuildSignalFrame | kernel.py:1359-1392 | the pushes of the object make the specified delivery, whose effect `DeliverExact` and `FrameExact` state |
| Signals.Process.PopSignalFrame | kernel.py:1283-1302 | the pops of the object make the specified return |
| Pipes.PipesConserve | kvfs.py:127-160 | over any interleaving the bytes read followed by the buffer are the bytes written; the buffer never exceeds 4095 |
| Pipes.PipeOutcomes | kernel.py:676-719 | which of data, block, end of file and EPIPE a transfer gives, each exactly when; partial transfers are prefixes |
| Pipes.Pipe.Read | kvfs.py:139-147 | the object reads as specified |
| Pipes.Pipe.Write | kvfs.py:149-160 | the object writes as specified |
| Descriptors.InstallExact | kernel.py:863-871 | one more descriptor for an open file keeps all counts exact |
| Descriptors.ClearExact | kernel.py:873-884 | one descriptor less keeps all counts exact |
| Descriptors.NewExact | kernel.py:579-604 | a new open file in a free slot keeps all counts exact |
| Descriptors.ClampsNeverAct | kernel.py:873-884 | with exact counts no `max(..., 0)` ever clips |
| Descriptors.ErrorsExact | kernel.py:114-123 | which errors the descriptor calls give, in numbers, with nothing changed; 20 slots |
| Descriptors.CloseExact | kernel.py:625-629 | close keeps the marks and every open file's position and status |
| Descriptors.DupExact | kernel.py:631-657 | so do dup and F_DUPFD |
| Descriptors.Dup2Exact | kernel.py:638-649 | so does dup2, but for the target's mark |
| Descriptors.OpenExact | kernel.py:597-605 | the new open file has the object, access and status asked for, at position 0, with one descriptor |
| Descriptors.StatusExact | kernel.py:668-671 | F_SETFL changes the two status bits of that open file only |
| Descriptors.FreePair | kernel.py:888-898 | the two lowest free descriptors, or none |
| Descriptors.NoEndNoSlot | kernel.py:863-884 | a pipe has no writer (reader) left exactly when no descriptor of any process can write (read) it |
| Descriptors.FreeFrom | kernel.py:114-118 | the lowest free descriptor from a start, or none |
| Descriptors.Close | kernel.py:625-629 | result and table of close; counts stay exact |
| Descriptors.DupFrom | kernel.py:651-674 | dup and F_DUPFD share the open file in the lowest free slot, or fail with EBADF or EMFILE; counts stay exact |
| Descriptors.Dup2Result | kernel.py:638-649 | dup2 makes the target slot share the source's file, closing what was there, also when both are one |
| Descriptors.PipeMade | kernel.py:888-904 | pipe makes one pipe, two open files and two slots, with one reader and one writer |
| Descriptors.MakePipe | kernel.py:888-904 | pipe fails with nothing changed unless two slots are free; counts stay exact |
| Descriptors.OpenObject | kernel.py:579-604 | open takes the lowest slot and raises the open count of its inode by one, or fails with nothing changed |
| Descriptors.ForkResult | kernel.py:777-803 | the child's table equals the parent's, marks included; counts stay exact |
| Descriptors.ExitResult | kernel.py:840-847 | exit empties the table and touches no other |
| Descriptors.ExecResult | kernel.py:764-767 | exec closes exactly the marked descriptors |
| Descriptors.Files.AllocFd | kernel.py:114-118 | the search loop finds the lowest free slot |
| Descriptors.Files.Acquire | kernel.py:863-871 | the object's count updates are those of the model |
| Descriptors.Files.Release | kernel.py:873-884 | likewise, clamps included |
| Descriptors.Files.SysClose | kernel.py:625-629 | the object closes as specified |
| Descriptors.Files.SysDup | kernel.py:631-636 | the object duplicates as specified |
| Descriptors.Files.SysDup2 | kernel.py:638-649 | the object replaces as specified |
| Descriptors.Files.SysPipe | kernel.py:888-904 | the object makes a pipe as specified, undoing the first slot when the second is missing |
| Descriptors.Files.SysFork | kernel.py:777-803 | the copy loop shares every open slot |
| Descriptors.Files.CloseAll | kernel.py:840-847 | the loop over the table closes all, or the marked ones |
| Scheduler.OpKeepsSound | kernel.py:840-939 | forks, sleeps, wakes, stops, exits and reaps keep the queue free of duplicates and holding exactly the runnable |
| Scheduler.PickExact | kernel.py:1150-1161 | pick returns the first runnable process of the queue and rotates past it, or nothing if none is runnable |
| Scheduler.HistorySound | kernel.py:1150-1242 | the queue is sound in every state of every history |
| Scheduler.OpKeepsPlace | kernel.py:840-939 | no operation moves a process that stays runnable back |
| Scheduler.PickAdvances | kernel.py:1150-1161 | a pick of another process moves a runnable one forward |
| Scheduler.BoundedWaiting | kernel.py:1150-1161 | a process that stays runnable at index k is picked within k + 1 picks |
| Scheduler.RunQueue.PickNext | kernel.py:1150-1161 | the loop over the queue picks as specified |
| Scheduler.RunQueue.Wake | kernel.py:924-939 | the object wakes as specified |
| Scheduler.RunQueue.ExitProcess | kernel.py:840-861 | the object removes the dead from the queue and hands its children to init |
| Scheduler.RunQueue.Run | kernel.py:1163-1242 | the main loop ends, within a bound on its rounds, and leaves the queue sound |
| Kernel.FirstZombie | kernel.py:805-833 | waitpid takes the first zombie child that is wanted |
| KernelProofs.StepKeepsInv | kernel.py:245-260 | every step of the kernel keeps the whole invariant |
| KernelProofs.CallKeeps | kernel.py:245-260 | every system call does, blocked, failing and replacing ones included |
| KernelProofs.ReadFine | kernel.py:676-698 | read: returning keeps the invariant, blocking leaves a channel that fits the call |
| KernelProofs.WriteFine | kernel.py:700-719 | the same for write |
| KernelProofs.ForkFine | kernel.py:777-803 | fork keeps the invariant (what parent and child see: `KernelCalls.ForkExact`) |
| KernelProofs.ExecFine | kernel.py:751-775 | exec keeps the invariant |
| KernelProofs.WaitFine | kernel.py:805-833 | waitpid keeps the invariant |
| KernelProofs.KillFine | kernel.py:941-959 | kill keeps the invariant, for one process, a group or all |
| KernelProofs.ExitKeeps | kernel.py:840-861 | exit keeps it: descriptors closed, children adopted, parent told |
| KernelProofs.PostKeeps | kernel.py:908-922 | posting a signal keeps it |
| KernelProofs.TakeKeeps | kernel.py:1339-1357 | taking a signal keeps it, by default action, handler or death |
| KernelProofs.SleepKeeps | kernel.py:1225-1231 | going to sleep with eip two bytes back keeps it |
| KernelProofs.SpawnKeeps | kernel.py:1033-1063 | starting a shell keeps it |
| KernelCalls.ForkExact | kernel.py:777-803 | the child: new number, runnable, child of the caller, nothing pending, no frames, the caller's state past the trap but eax 0, its descriptors shared; the caller: the child's number in eax and nothing else changed |
| KernelCalls.ExitExact | kernel.py:840-861 | a process that ends: dead with its status, off the queue, descriptors closed, children init's, SIGCHLD for the parent, which wakes from waitpid; nothing else |
| KernelCalls.ExitCallExact | kernel.py:835-861 | exit: the low byte of the argument becomes the second byte of the status |
| KernelCalls.TakenExact | kernel.py:1339-1357 | which signals are ignored, stop or end a process by default, and what a handler changes |
| KernelCalls.TurnExact | kernel.py:1327-1337 | the lowest pending signal that is not blocked is taken, if the process is not dead |
| KernelCalls.PostExact | kernel.py:908-939 | posting makes the signal pending, and ends a sleep with EINTR exactly if it is not blocked and would do something |
| KernelCalls.KillExact | kernel.py:941-959 | who receives a kill: one, the group, all but init, or a named group; ESRCH without anybody; signal 0 only asks |
| KernelResults.ReadExact | kernel.py:676-698 | read: what is answered, where the bytes go, what becomes of position and pipe, when it blocks |
| KernelResults.WriteExact | kernel.py:700-719 | write: likewise, with EPIPE, EFAULT and appending |
| KernelResults.ExecExact | kernel.py:751-775 | execve: the program's machine, no frames, handlers reset, marked descriptors closed; mask and pending signals stay |
| KernelResults.WaitExact | kernel.py:805-833 | waitpid: the first dead child asked for, its status stored and the child gone; ECHILD, EFAULT, 0 or sleep otherwise |
| KernelSettings.SignalExact | kernel.py:1394-1400 | signal: the disposition it sets and the handler it answers |
| KernelSettings.SigactionExact | kernel.py:1402-1413 | sigaction: word by word what it stores and takes over, and when it fails |
| KernelSettings.MasksExact | kernel.py:961-967 | sgetmask and ssetmask: every bit but SIGKILL's |
| KernelSettings.GroupsExact | kernel.py:972-985 | setpgid and setsid |
| KernelSettings.SeekExact | kernel.py:721-739 | lseek: the three origins and the errors |
| KernelSettings.PauseExact | kernel.py:969-970 | pause sleeps |
| KernelSettings.PauseUnpolled | kernel.py:1304-1325 | and no poll ends it |
| KernelSettings.DescriptorsExact | kernel.py:625-649 | close, dup and dup2 change the tables as their own laws say, and nothing else |
| KernelSettings.FcntlExact | kernel.py:651-672 | fcntl, command by command |
| KernelSettings.OpenCallExact | kernel.py:579-623 | open and creat, once the object is found: access, appending, position |
| KernelSettings.PipeExact | kernel.py:888-904 | pipe: the two numbers in memory, or EFAULT, or EMFILE with nothing changed |
| KernelSettings.SpawnExact | kernel.py:1033-1063 | a shell: child of init in its own group, nothing blocked or pending, its descriptors |
| KernelSleep.BlockingStutters | kernel.py:1225-1231 | a call that blocks changes no pipe, descriptor or memory, only the caller's state; it is invisible to an atomically blocking kernel exactly if its trap is two bytes long |
| KernelSleep.PrefixedTrapMoves | kernel.py:1225-1231 | pause behind a segment prefix is not: the sleeper stands one byte on |
| KernelSleep.PrefixedBoots | kernel.py:994-1031 | such a program can be the first process |
| KernelSleep.PollingStutters | kernel.py:1304-1325 | a poll is invisible to it |
| KernelSleep.PickingStutters | kernel.py:1150-1161 | so is a pick |
| KernelSleep.SilentStretch | kernel.py:1163-1242 | over any stretch of a run made of polls, picks and calls that block at two-byte traps, an atomically blocking kernel has not moved |
| KernelSleep.SleeperFate | kernel.py:1304-1375 | one step leaves a sleeper asleep, wakes it at its call, gives it a handler frame that returns to its call, fails the call with EINTR two bytes on, stops it or ends it |
| KernelSleep.SameCallAgain | kernel.py:1225-1231 | a woken process finds its call, number and arguments as it left them |
| KernelSleep.PipePollExact | kernel.py:1304-1325 | a pipe sleeper is found ready exactly when its call would not block again |
| KernelSleep.TtyPollExact | kernel.py:1304-1325 | the same for the terminal if and only if poll and read agree on whether input is there |
| KernelSleep.WaitPollExact | kernel.py:1304-1325 | when the poll for waitpid wakes in vain, and when it leaves a sleeper whose call would return: exactly the cases in which dead, wanted and living children differ |
| KernelSleep.EndOfFile | kernel.py:676-698 | read gives end of file exactly when all accepted bytes are delivered and no descriptor anywhere can write |
| KernelSleep.BrokenPipe | kernel.py:700-719 | write gives EPIPE exactly when no descriptor anywhere can read |
| KernelSleep.BootInv | kernel.py:994-1031 | the first state satisfies the invariant |
| KernelSleep.RunsKeepInv | kernel.py:1163-1242 | so does every state of every run, with dispositions set by signal and sigaction and handlers running |
| KernelSleep.ReachableStates | kernel.py:1163-1242 | hence exact counts, a sound queue, conserved pipes and sleepers at their calls in every reachable state |
| KernelProofs.SignalFine | kernel.py:1394-1400 | signal keeps the invariant |
| KernelProofs.SigactionFine | kernel.py:1402-1413 | sigaction keeps it |
| KernelProofs.SeekFine | kernel.py:721-739 | lseek keeps it |
| KernelFates.AwakeKept | kernel.py:1163-1242 | no step but its own and a signal delivered to it changes the user state of a process that does not sleep |
| KernelFates.OwnDelivery | kernel.py:1339-1357 | a delivery leaves it as it is, stops or ends it, or enters one handler |
| KernelFates.RunsKeepProper | kernel.py:1163-1242 | in every run all processes keep valid memory, flags that can be saved and an eip of 32 bits |
| KernelEnds.EndsOnce | kernel.py:924-939 | the five ends of a sleep exclude each other |
| KernelEnds.SleepEnds | kernel.py:1304-1375 | in every run a sleep that ends, ends in exactly one of them, with the call and its arguments untouched until then |
| KernelEnds.CallsAgain | kernel.py:1225-1231 | a process awake at its call makes that very call when it next runs: same place, number and arguments |
| KernelEnds.NestedLife | kernel.py:1359-1392 | in every run the frames of a considerate process stay stacked, in order and intact |
| KernelEnds.HandlerReturns | kernel.py:1283-1302 | back from a handler, whatever signals came in between, registers, flags, place and mask are as at the delivery; the call is the same if and only if the handlers kept ebx |
| KernelEnds.HandledCallsAgain | kernel.py:1283-1302 | a sleeper ended by a handler makes a call when it next runs after it, the one it slept in if and only if the handlers kept ebx |
| KernelEnds.ActionRoundTrip | kernel.py:1402-1413 | a disposition stored is the disposition loaded |
| KernelEnds.SigactionRestores | kernel.py:1402-1413 | the old disposition sigaction hands out, handed in later, is in force again |
| KernelEnds.SignalRestores | kernel.py:1394-1400 | the old handler signal hands out restores the old disposition if and only if that was one-shot, unmasked and had the restorer now passed |
| KernelRounds.StepNotBack | kernel.py:1163-1242 | no step of the kernel other than a pick moves a process that stays runnable back in the queue |
| KernelRounds.KernelBoundedWaiting | kernel.py:1150-1161 | a process that stays runnable is picked within its index plus one picks, whatever else the kernel does |
| KernelRounds.PollAllResult | kernel.py:1304-1325 | polling all wakes exactly the sleepers that are due and changes nothing else |
| KernelRounds.KernelObject.WakeWaiters | kernel.py:1304-1325 | the loop over all processes does that |
| KernelRounds.KernelObject.DeliverPending | kernel.py:1327-1337 | the delivery loop keeps the invariant |
| PlainStore.ReadAfterWrite | kvfs.py:315-323 | after a write every byte is the new one, the old one, or zero in the gap |
| FileLaws.WalkSplits | kvfs.py:260-280 | walking s + t is walking t from where s leads |
| FileLaws.WalkOne | kvfs.py:260-280 | one name: nothing and `.` stay, `..` stays at the caller's root, any other name is an entry |
| FileLaws.UpIsParent | kvfs.py:270-280 | `..` from a directory below leads to the directory that names it |
| FileLaws.DownAndUp | kvfs.py:270-280 | so a path that goes down a name and back up ends where it was |
| FileLaws.ParentExact | kvfs.py:282-303 | the directory and the name of a path's last part, trailing slashes, long names and refusals included |
| FileLaws.CreateExact | kvfs.py:361-381 | create and mknod: the new inode, its entry and count, and the errors |
| FileLaws.MkdirExact | kvfs.py:383-398 | mkdir: the new directory with its two entries and all counts |
| FileLaws.UnlinkExact | kvfs.py:415-422 | unlink: the entry goes, and the inode if nothing holds it |
| FileLaws.RmdirExact | kvfs.py:400-413 | rmdir: only an empty directory goes |
| FileLaws.LinkExact | kvfs.py:424-431 | link: one more entry and count, no directories |
| FileLaws.RenameExact | kvfs.py:433-456 | rename: what both names lead to afterwards, what is replaced, and the errors |
| FileLaws.ReadExact | kvfs.py:305-313 | which bytes a read gives |
| FileLaws.WriteExact | kvfs.py:315-323 | which bytes a write leaves, and its size |
| FileLaws.TruncateExact | kvfs.py:325-335 | a byte below the new size is the old one, or zero past the old end |
| FileLaws.PerformExact | kvfs.py:341-456 | which operation each request of a sequence is |
| FileLaws.OpenCloseExact | kernel.py:600-602 | opening and closing count on the inode and change nothing else |
| LinkCounts.CreateLinked | kvfs.py:361-381 | create and mknod keep link counts exact |
| LinkCounts.MkdirLinked | kvfs.py:383-398 | mkdir does |
| LinkCounts.RmdirLinked | kvfs.py:400-413 | rmdir does |
| LinkCounts.UnlinkLinked | kvfs.py:415-422 | unlink does |
| LinkCounts.HardLinkLinked | kvfs.py:424-431 | link does |
| LinkCounts.RenameLinked | kvfs.py:433-456 | rename does, in all cases, the failing ones included |
| LinkCounts.MoveFileLinked | kvfs.py:433-456 | moving a file keeps its own count |
| LinkCounts.MoveDirLinked | kvfs.py:433-456 | moving a directory across parents fixes `..` and both parents' counts |
| LinkCounts.ParentLive | kvfs.py:282-303 | a path that starts in a directory that has not been removed leads to such a directory |
| LinkCounts.CountsExact | kvfs.py:341-456 | any sequence of operations, opening and closing among them, keeps every count equal to the entries that name the inode, if entries are made and taken in directories that have not been removed |
| LinkCounts.NamedCounts | kvfs.py:347-359 | a named inode has at least one link, so no clamp acts |
| LinkCounts.RemovedParentMiscounts | kvfs.py:361-369 | a file created in a directory counts right if and only if that directory has not been removed |
| LinkCounts.MadeInRemoved | kvfs.py:361-369 | a file made in a removed working directory: one link, no name |
| Tree.OnePath | kvfs.py:433-456 | in a well-shaped store there is at most one path of ordinary entries from the root to a directory |
| Tree.MoveConnected | kvfs.py:450-456 | a directory moved into or below itself is lost with exactly what is below it; any other move keeps all directories reachable from the root |
| Tree.RenameConnected | kvfs.py:433-456 | the same for rename as a whole, in all its cases: every directory stays reachable if and only if the new parent is neither the directory moved nor below it |
| Tree.PerformConnected | kvfs.py:341-456 | one operation keeps every directory reachable if and only if it is not such a rename |
| Tree.TreeKept | kvfs.py:341-456 | without such renames the directories stay a tree through any sequence of operations |
| Tree.RenameBelowItself | kvfs.py:433-456 | rename("/a", "/a/b/c") succeeds and loses a and b, every count being exact |
| Overlay.SearchIsDict | kvfs.py:247-258 | the search of a listing finds what the dictionary holds if and only if the first and the last entry of that name hold the same inode |
| Overlay.CopyUnnoticed | kvfs.py:213-225 | copying a directory changes no lookup in it if and only if this holds for all its names |
| Overlay.DuplicatesCanShow | kvfs.py:213-225 | a listing whose duplicates show and one whose duplicates do not |
| Overlay.CopiesInvisible | kvfs.py:204-225 | copying a file's or directory's contents up does not change what is seen |
| Overlay.OverlayFS.constructor | kvfs.py:166-177 | at first the view is the base image |
| Overlay.FirstView | kvfs.py:166-225 | that view: each inode of the image with its attributes, contents and names, none open or removed |
| Overlay.OverlayFS.Get | kvfs.py:179-188 | finds exactly the inodes of the view and changes nothing |
| Overlay.OverlayFS.CowFile | kvfs.py:204-211 | gives the contents seen and keeps the view |
| Overlay.OverlayFS.CowDir | kvfs.py:213-225 | gives the entries seen and keeps the view |
| Overlay.OverlayFS.ReadDict | kvfs.py:219-220 | the loop builds the dictionary of a listing |
| Overlay.OverlayFS.Lookup | kvfs.py:247-258 | result and error of the plain store, the view kept |
| Overlay.OverlayFS.Walk | kvfs.py:260-280 | leads where the plain store's walk leads (see `FileLaws.WalkSplits`), or fails as it does, the view kept |
| Overlay.OverlayFS.WalkParent | kvfs.py:282-303 | likewise for a parent and last name |
| Overlay.OverlayFS.Read | kvfs.py:305-313 | the bytes the plain store has |
| Overlay.OverlayFS.Write | kvfs.py:315-323 | result and new view of the plain store |
| Overlay.OverlayFS.Truncate | kvfs.py:325-335 | result and new view of the plain store |
| Overlay.OverlayFS.UnlinkEntry | kvfs.py:347-359 | the view loses the entry, and the inode when nothing holds it |
| Overlay.OverlayFS.Create | kvfs.py:361-369 | result, error and new view of the plain store |
| Overlay.OverlayFS.Mkdir | kvfs.py:383-398 | result, error and new view of the plain store |
| Overlay.OverlayFS.Rmdir | kvfs.py:400-413 | result, error and new view of the plain store |
| Overlay.OverlayFS.Unlink | kvfs.py:415-422 | result, error and new view of the plain store |
| Overlay.OverlayFS.Link | kvfs.py:424-431 | result, error and new view of the plain store |
| Overlay.OverlayFS.Rename | kvfs.py:433-456 | result, error and new view of the plain store, all target cases |
| Overlay.OverlayFS.Do | kvfs.py:341-456 | any one operation: reply and new view are those of the plain store |
| Overlay.OverlayFS.DoAll | kvfs.py:341-456 | any sequence of operations gives the replies and the view of the plain store; link counts end exact if they were and no entry was made or taken in a removed directory |
| MinixMap.EnumerationIsMap | minixfs.py:463-501 | with indirect blocks in range the enumeration lists, in order, exactly the blocks the forward map does not call holes |
| MinixMap.MappedMembers | minixfs.py:300-321 | what that listing contains, in terms of the forward map |
| MinixMap.MappedIncreasing | minixfs.py:463-501 | its block numbers increase strictly |
| MinixMap.CollectZones | minixfs.py:463-501 | the enumeration as it runs, data and indirect blocks |
| MinixMap.ReadFile | minixfs.py:328-347 | a read gives each byte of the range, up to the end of the file, through the forward map (`MinixLayout.ZoneExact`), zeros in holes; it fails exactly for other kinds of file and beyond the format's limit |
| MinixMap.ReadIsSlice | minixfs.py:328-347 | so a read of a range is that slice of the whole contents |
| MinixLayout.ZoneExact | minixfs.py:300-321 | an indirect block with the little-endian number z at position j makes block 7 + j zone z; the same through both levels of the double indirect block |
| MinixLayout.ByteExact | minixfs.py:328-347 | which byte of which block a byte of a file is; holes read as zeros |
| MinixLayout.SlotExact | minixfs.py:351-364 | a directory slot holding a number and a name is that entry |
| MinixLayout.DirectoryRoundTrip | minixfs.py:351-364 | a directory written as slots reads back as its entries |
| MinixLayout.MarksExact | minixfs.py:290-298 | which bit of which byte marks an inode or a zone |
| MinixLayout.UsesExact | minixfs.py:463-501 | which zones an inode uses |
| MinixLayout.HealthExact | minixfs.py:507-546 | what makes an inode healthy, in numbers |
| MinixLayout.ListsExact | minixfs.py:351-392 | which entries of a directory count as naming an inode |
| MinixLayout.ReferencesExact | minixfs.py:366-392 | the search for references lists the directory and name of every entry that holds the number, dots included |
| MinixMap.ReadDir | minixfs.py:351-364 | the entries are the used slots in order, names cut at the first NUL |
| MinixWalk.ReachableInside | minixfs.py:372-392 | reachability is the least set with the root closed under children |
| MinixWalk.FindReferences | minixfs.py:372-392 | each reachable directory is read once, cycles or not, and the result is exactly the entries naming the target |
| MinixCheck.CountIsMapping | minixfs.py:533-541 | with indirect blocks in range the count test passes if and only if exactly blocks 0 .. ceil(size/1024)-1 are mapped |
| MinixCheck.CheckZones | minixfs.py:513-530 | one inode's zones add a problem exactly if one is out of range, free or met before |
| MinixCheck.CheckInode | minixfs.py:507-546 | the same with the count and directory-size tests; devices and fifos pass |
| MinixCheck.CheckOne | minixfs.py:554-559 | checking one inode keeps track of everything checked, marks and kinds included |
| MinixCheck.ScanEntries | minixfs.py:560-583 | one directory's entries: noted, range-checked, files checked on first sight, unchecked directories stacked |
| MinixCheck.WalkTree | minixfs.py:548-583 | the walk ends, fails exactly if a reachable directory cannot be read, and otherwise checks exactly what is reachable, each inode once |
| MinixCheck.WalkVerdict | minixfs.py:436-583 | the walk found nothing if and only if all visited inodes are healthy, share no zone, and all entries are in range |
| MinixCheck.CheckFs | minixfs.py:436-608 | no problems if and only if the image is consistent; every orphan and lost zone is reported; the counted sets are the visited inodes and the used zones |

## Left out

- Disassembly text: names, lengths, operands, sizes, registers, immediates and jump targets are modelled, not their spelling or layout; the nesting level of `enter` is read but not compared.
- The mutable cursor of the disassembler's reader: its position is threaded through functions.
- x87 and other instructions the executor refuses: an entry that stops the run.
- Handler text generation and lazy compilation: the resulting handlers are modelled, not the strings; they are functions on a machine value, and the CPU object commits their result, so the order of writes inside one handler shows only where it faults.
- The profiler, the trace buffers, and fault callbacks that return.
- A 16-bit shld by more than 16 raises a Python error in the source; it is modelled as an instruction that cannot be executed.
- A push that faults while a signal frame is built leaves the scheduler loop in the source; the model has no step for it.
- Memory released at exit: the model keeps the last machine state of a dead process.
- Terminal input, path lookup, program images and calls that only fill in user structures enter the kernel model as values supplied from outside.
- `_spawn` is assumed to succeed.
- open with O_NONBLOCK: only F_GETFL could show it, and the model's new files have the bit off.
- The bytes of a pipe read that ends in EFAULT count as delivered: the source has taken them out of the pipe by then.
- Interpreter.RunTransparent: its system call callback does not replace the program (`Interpreter.Polite`); execve is a step of the kernel model instead.
- `sys_read` and `sys_write` do not check the access mode, and the model does not either.
- A stopped or killed process's other resources, alarms, process accounting, uid and gid calls, uname, limits.
- Timestamps and the table of remembered names in the overlay; the raw bytes of a copied directory.
- Export and import of overlay changes: metadata-only changes to base inodes are skipped by the source, so a full round trip is not what it does.
- `mknod` with a directory mode.
- Paths and wording in `find_references` and `check_fs`: a reference is a directory and a name, a problem a kind and an inode.
- Superblock, inode and partition-table unpacking: an image is given as inodes and blocks.
- ktty.py, pager.py, minix_shell.py, kmonitor.py, emulator.py, ksyscall.py: host terminals, formatting, command parsing and a dispatch table.
