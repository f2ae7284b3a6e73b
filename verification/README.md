# Synacor Challenge emulator, modelled in Dafny

This project models the interpreter core of a Synacor Challenge virtual machine
written in C#: the `Emulator` class. It has a 32768-cell memory of 16-bit
words, eight registers, an unbounded stack, an instruction pointer IP and a
status of Okay, Halt or Error. `LoadMemory` turns a little-endian byte image
into memory words. `Step` executes the one instruction at IP, dispatching over
22 opcodes. Any exception that happens during a step becomes the Error status.

The model has three layers:

- `words.dfy` (module `Words`): `ushort` and `byte` as subset types, and the
  word arithmetic with C#'s semantics written out. This covers `AddWords`
  modulo 32768, and `mult` as C# evaluates it: an unchecked 32-bit `int`
  product, a `%` that truncates toward zero, then the `(ushort)` cast. It also
  covers bitwise and, or and the 15-bit not, defined bit by bit.
- `machine.dfy` (module `Vm`): the emulator's fields as one `Machine` value,
  and one step as the function `Step`. This is the specification.
  - Faults are a `Fault` datatype: stack underflow, unknown opcode, a register
    operand of 32776 or more, a memory index of 32768 or more, and divide by
    zero.
  - The Error status carries the fault.
  - A fault keeps whatever was changed before the exception. pop has already
    popped, call has already pushed, and in has already consumed its key.
- `emulator.dfy` (module `Synacor`): the class `Emulator`. Its `Memory` and
  `Registers` are arrays, and `Stack`, `IP`, `Status` and the two delegates
  are fields. `Step`, `LoadMemory`, `WriteOperand` and `Advance` update them
  in place, in the order the C# code does. Each is proved to leave the object
  in the state the `Vm` function gives, `State() == Vm.Step(old(State()))`.
  `ExampleSession` replays the test image from `Program.cs` on the class.
- `properties.dfy` (module `MachineProperties`): lemmas about `Vm.Step`. They
  cover IP movement, what each kind of instruction stores, stack discipline,
  the halt/error state machine, the I/O ports, and the example program.

The I/O delegates are values, not calls:

- `Output` is `None` for a null delegate. Otherwise it is the sequence of
  character codes handed to the delegate so far; `out` appends to it.
- `Input` is `None` for a null delegate. Otherwise it is a `Source`: a function
  from call number to the code returned, plus how many calls were made; `in`
  takes the next one.
- With a null delegate, `out` and `in` do nothing but still advance IP by 2.

Some behaviour of the code is easy to miss, and the model keeps it as written:

- `LoadMemory` reads `Data[dataPointer + 1]` for every pair it copies (line
  33), outside the try/catch. An image of odd length that fits in memory,
  that is one of at most 65535 bytes, therefore throws out of `LoadMemory`
  when it reads `Data[Data.Length]`, one past the last byte, instead of
  ignoring that byte; every full byte pair before it has already been written
  to memory by then. A longer odd image loads cut off at
  32768 words, since the loop stops at the end of memory first (line 31).
  The model accepts even images and odd images longer than 65536 bytes.
- A jump, call or ret to an address of 32768 or more does not fault itself. It
  sets IP, and the fault happens at the next step's opcode fetch
  (`IpOutsideMemoryFaults`).
- An unknown opcode's error names the opcode but not IP.
- The status is reset to Okay at the start of every step, as written at line
  77. Stepping after Halt or Error runs the instruction at IP again
  (`StepIgnoresStatus`, `StuckStepRepeats`).
- `mult` of operands above 32767 can store a value of 32768 or more. For
  example, 65535 times 65535 stores 32769, not 1 (`Words.MultOverflowExample`).
  Such operands can only come from raw memory words or from the input port.
  For 15-bit operands the result is the product modulo 32768.

## Model

| member | source | states |
|---|---|---|
| Words.AddWords | Synacor/Emulator.cs:50-53 | the result is below 32768 and congruent to a + b modulo 32768; it is a + b itself when the sum does not wrap |
| Words.Mult | Synacor/Emulator.cs:173-176 | with the C# int32 wrap, truncating `%` and ushort cast modelled, two 15-bit operands give their product modulo 32768 |
| Words.MultOverflowExample | Synacor/Emulator.cs:174 | 65535 × 65535 is 1 modulo 32768, yet the wrapped 32-bit product makes mult store 32769 |
| Words.BitAnd | Synacor/Emulator.cs:187-190 | bit k of the result, for each of the 16 bits, is 1 exactly when bit k of both operands is 1; the result is no larger than either operand |
| Words.BitOr | Synacor/Emulator.cs:194-197 | bit k of the result, for each of the 16 bits, is 1 exactly when bit k of either operand is 1; the result is at least each operand, and a 15-bit word when both are |
| Words.AndBitsBit | Synacor/Emulator.cs:189 | bit k of the bit-by-bit and of width w, for k < w, is the and of the operands' bits k |
| Words.OrBitsBit | Synacor/Emulator.cs:196 | bit k of the bit-by-bit or of width w, for k < w, is the or of the operands' bits k |
| Words.Not15 | Synacor/Emulator.cs:201-204 | `~b & 0x7FFF` is a 15-bit word equal to 32767 − (b mod 32768), so not 0 is 32767 |
| Words.NotBits | Synacor/Emulator.cs:203 | the complement of the low `width` bits of b is 2^width − 1 − (b mod 2^width) |
| Vm.Fresh | Synacor/Emulator.cs:18-25 | a new emulator has 32768 memory cells and 8 registers, every one zero, an empty stack, IP 0, status Okay and no delegates |
| Vm.Load | Synacor/Emulator.cs:27-34 | for an even image, or an odd one longer than memory, cell i becomes byte 2i + 256 × byte 2i+1 for every i below min(len/2, 32768); every other cell keeps its value; memory keeps its size |
| Vm.DecodeOperand | Synacor/Emulator.cs:39-43 | an operand below 32768 is its own value, 32768..32775 the named register's value, and 32776 or more is a register-index fault |
| Vm.WriteOperand | Synacor/Emulator.cs:45-48 | a literal destination changes no register, a register destination changes exactly that register to the value, and 32776 or more faults |
| Vm.OperandAt | Synacor/Emulator.cs:55-68 | the operand k cells after IP is the cell IP + k, or IP + k − 32768 when that passes the end of memory |
| Vm.Advance | Synacor/Emulator.cs:70-73 | IP becomes a word below 32768 congruent to IP + distance modulo 32768, and nothing else changes |
| Vm.Throw | Synacor/Emulator.cs:262-266 | the catch block sets the Error status with the fault and changes nothing else |
| Vm.Store | Synacor/Emulator.cs:93-96 | `WriteOperand(Op0, value); Advance(width)`: a literal <a> only advances, a register <a> gets the value and IP advances, and a faulting value or an <a> of 32776 or more changes only the status; no register but <a> changes |
| Vm.Apply | Synacor/Emulator.cs:122-197 | only mod can fault, exactly when the divisor is 0, with a divide-by-zero; every result on two 15-bit words is a 15-bit word |
| Vm.Binary | Synacor/Emulator.cs:122-197 | eq, gt, add, mult, mod, and and or leave memory, stack and ports alone and write no register but <a>; an invalid <b> faults, else an invalid <c>, else a zero divisor of mod, else an invalid <a>, each with only the status changed; otherwise IP advances by 4 |
| Vm.ConditionalJump | Synacor/Emulator.cs:148-162 | jt and jf change no memory, register, stack or port; a fault leaves IP where it was |
| Vm.Step | Synacor/Emulator.cs:75-267 | a step keeps memory at 32768 cells and the register file at 8; its effect per opcode, valid operands and faulting ones alike, is stated by the opcode lemmas below (SetStores to InStoresKey, with the three OperandFaults lemmas) |
| Vm.Execute | Synacor/Emulator.cs:83-260 | memory changes only under wmem, the stack only under push, pop, call and ret, the output only under out, the input only under in, and a register only when it is the <a> of set, pop, eq, gt, add, mult, mod, and, or, not, rmem or in; a fault leaves IP, memory, registers and output as they were; Halt comes only from halt or ret |
| Vm.StackInstruction | Synacor/Emulator.cs:100-117 | push, pop, call and ret leave memory and ports alone, only pop writes a register, and only ret can halt |
| Vm.MemoryInstruction | Synacor/Emulator.cs:208-218 | rmem and wmem leave the stack and ports alone, only wmem writes memory and only rmem a register; rmem faults on an invalid <b>, then an address of 32768 or more, then an invalid <a>; wmem on an invalid <a>, then an invalid <b>, then an address of 32768 or more; each fault changes only the status |
| Vm.PortInstruction | Synacor/Emulator.cs:238-248 | out and in leave memory and the stack alone; out changes neither input nor registers, in does not touch the output |
| Synacor.Emulator.constructor | Synacor/Emulator.cs:18-25 | the new object's state is `Vm.Fresh()`, with newly allocated arrays |
| Synacor.Emulator.LoadMemory | Synacor/Emulator.cs:27-34 | the loop leaves memory equal to `Vm.Load` of the old memory and the image; nothing else changes |
| Synacor.Emulator.DecodeOperand | Synacor/Emulator.cs:39-43 | decoding against the register array gives what `Vm.DecodeOperand` gives for its contents |
| Synacor.Emulator.WriteOperand | Synacor/Emulator.cs:45-48 | the registers become those `Vm.WriteOperand` gives, or on a fault stay as they were and the fault is returned |
| Synacor.Emulator.Op0 | Synacor/Emulator.cs:55-58 | the word one cell after IP, as `Vm.OperandAt` reads it |
| Synacor.Emulator.Op1 | Synacor/Emulator.cs:60-63 | the word two cells after IP, as `Vm.OperandAt` reads it |
| Synacor.Emulator.Op2 | Synacor/Emulator.cs:65-68 | the word three cells after IP, as `Vm.OperandAt` reads it |
| Synacor.Emulator.Advance | Synacor/Emulator.cs:70-73 | only IP changes, to (IP + distance) mod 32768 |
| Synacor.Emulator.StoreOp0 | Synacor/Emulator.cs:93-96 | `WriteOperand(Op0, value); Advance(width)` yields `Vm.Store`, a fault in either leaving only the status changed |
| Synacor.Emulator.ExecuteBinary | Synacor/Emulator.cs:122-197 | eq, gt, add, mult, mod, and and or update the object as `Vm.Binary` says |
| Synacor.Emulator.ExecuteConditionalJump | Synacor/Emulator.cs:148-162 | jt and jf update the object as `Vm.ConditionalJump` says |
| Synacor.Emulator.ExecuteStack | Synacor/Emulator.cs:100-117 | push, pop, call and ret update the object as `Vm.StackInstruction` says, pop removing the top before writing it |
| Synacor.Emulator.ExecuteMemory | Synacor/Emulator.cs:208-218 | rmem and wmem update the object as `Vm.MemoryInstruction` says |
| Synacor.Emulator.ExecutePorts | Synacor/Emulator.cs:238-248 | out and in update the object as `Vm.PortInstruction` says, in consuming its code before writing it |
| Synacor.Emulator.Step | Synacor/Emulator.cs:75-267 | the in-place step leaves the object in exactly the state `Vm.Step` gives from the old state |
| Synacor.ExampleSession | Synacor/Program.cs:13-19 | loading the commented-out image, attaching Output and stepping three times gives r0 = 4, output [4], IP 6 and Halt |
| MachineProperties.WriteThenDecode | Synacor/Emulator.cs:39-48 | after a write through a register operand, decoding that operand gives the value and every other operand decodes as before |
| MachineProperties.WriteLiteralIsIgnored | Synacor/Emulator.cs:45-48 | writing through a literal operand leaves the registers unchanged |
| MachineProperties.OperandsWrapAround | Synacor/Emulator.cs:55-73 | from IP 32767 the operands are cells 0, 1 and 2, and Advance(3) gives IP 2 |
| MachineProperties.NonJumpAdvancesByWidth | Synacor/Emulator.cs:93-254 | a completed non-jumping instruction moves IP by 1 plus its operand count modulo 32768: noop 1; push, pop, out and in 2; set, not, rmem and wmem 3; eq, gt, add, mult, mod, and and or 4 |
| MachineProperties.BinaryOperandFaults | Synacor/Emulator.cs:122-197 | eq, gt, add, mult, mod, and and or fault on an invalid <b>; with a valid <b> on an invalid <c>; with both valid and a defined value on an invalid <a>; each time with only the status changed |
| MachineProperties.BinaryFaultsOnOperands | Synacor/Emulator.cs:122-197 | the same faults stated on `Vm.Binary` for a running machine |
| MachineProperties.SetAndNotOperandFaults | Synacor/Emulator.cs:93-204 | set and not fault on an invalid <b>, and with a valid <b> on an invalid <a>, with only the status changed |
| MachineProperties.MemoryOperandFaults | Synacor/Emulator.cs:208-218 | rmem faults on an invalid <b>, and on an invalid <a> once the address is in memory; wmem faults on an invalid <a>, and with a valid <a> on an invalid <b>; each with only the status changed |
| MachineProperties.SetStores | Synacor/Emulator.cs:93-96 | set with a valid <a> writes the value of <b> through <a> and advances by 3, or faults on an invalid <b> with only the status changed |
| MachineProperties.JmpJumps | Synacor/Emulator.cs:142-144 | jmp sets IP to the value of <a>, unreduced, and changes nothing else; an invalid <a> faults with only the status changed |
| MachineProperties.ConditionalJumpTarget | Synacor/Emulator.cs:148-162 | jt jumps to <b> when <a> is nonzero and jf when it is zero, and otherwise advance by 3 without decoding <b>, so an invalid <b> faults only when the jump is taken; an invalid <a> faults |
| MachineProperties.ComparisonStoresBit | Synacor/Emulator.cs:122-138 | eq and gt store only 0 or 1, and 1 exactly when b = c (eq) or b > c (gt) |
| MachineProperties.AddStoresSum | Synacor/Emulator.cs:166-169 | add stores a 15-bit word congruent to b + c modulo 32768 |
| MachineProperties.MultStoresProduct | Synacor/Emulator.cs:173-176 | mult of two 15-bit operands stores (b × c) mod 32768 |
| MachineProperties.ModResult | Synacor/Emulator.cs:180-183 | mod by zero faults with only the status changed, whatever <a> is; otherwise it stores b mod c |
| MachineProperties.AndStores | Synacor/Emulator.cs:187-190 | and writes BitAnd of <b> and <c> through <a> and advances by 4, nothing else changing |
| MachineProperties.OrStores | Synacor/Emulator.cs:194-197 | or writes BitOr of <b> and <c> through <a> and advances by 4, nothing else changing |
| MachineProperties.BinaryStores | Synacor/Emulator.cs:122-197 | a three-operand instruction with valid operands and a defined value writes it through <a> and advances by 4 |
| MachineProperties.NotStoresComplement | Synacor/Emulator.cs:201-204 | for any valid <a> and <b>, including a literal <a>, the whole new state: status Okay, 32767 − (b mod 32768) written through <a> (a literal discards it), IP advanced by 3 |
| MachineProperties.RmemReads | Synacor/Emulator.cs:208-211 | rmem writes the cell at address <b> through <a> and advances by 3; an address of 32768 or more faults with only the status changed |
| MachineProperties.WmemWrites | Synacor/Emulator.cs:215-218 | wmem sets the cell at address <a> to <b>, no other cell, and advances by 3; an address of 32768 or more faults with only the status changed |
| MachineProperties.NoopAdvances | Synacor/Emulator.cs:252-254 | noop only advances IP by 1 |
| MachineProperties.PushPushes | Synacor/Emulator.cs:100-103 | push puts the value of <a> on top of the stack and advances by 2; an invalid <a> faults with nothing pushed |
| MachineProperties.PopStores | Synacor/Emulator.cs:107-117 | pop removes the top of a non-empty stack, writes it through <a> and advances by 2 |
| MachineProperties.PopEmptyFaults | Synacor/Emulator.cs:107-112 | pop on an empty stack faults with a stack underflow; IP, stack and registers are unchanged |
| MachineProperties.PopIntoBadOperandLosesTop | Synacor/Emulator.cs:113-116 | pop into an operand of 32776 or more faults after the top has already been removed |
| MachineProperties.PushThenPop | Synacor/Emulator.cs:100-117 | push a then pop into a register moves a's value there, IP moves by 4 and the stack is as before |
| MachineProperties.CallPushesAndJumps | Synacor/Emulator.cs:222-225 | call pushes (IP + 2) mod 32768 and jumps to the value of <a>; an invalid <a> faults with the push already made |
| MachineProperties.RetPops | Synacor/Emulator.cs:229-234 | ret on a non-empty stack jumps to the top and removes it |
| MachineProperties.RetEmptyHalts | Synacor/Emulator.cs:229-231 | ret on an empty stack sets Halt, not Error, with IP and everything else unchanged |
| MachineProperties.CallThenRet | Synacor/Emulator.cs:222-234 | a call to a ret comes back to (IP + 2) mod 32768 with everything else as before the call |
| MachineProperties.MemoryOnlyWmem | Synacor/Emulator.cs:215-218 | a step that changes memory executed wmem |
| MachineProperties.StackOnlyPushPopCallRet | Synacor/Emulator.cs:100-234 | a step that changes the stack executed push, pop, call or ret |
| MachineProperties.RegistersOnlyAtDestination | Synacor/Emulator.cs:83-260 | a step that changes register i executed an instruction that writes <a>, with <a> naming register i |
| MachineProperties.StepIgnoresStatus | Synacor/Emulator.cs:77 | the result of a step does not depend on the status it starts from |
| MachineProperties.HaltKeepsIp | Synacor/Emulator.cs:87-89 | opcode 0 sets Halt and changes nothing else |
| MachineProperties.HaltCases | Synacor/Emulator.cs:87-89 | a step ends in Halt if and only if it fetched halt, or ret with an empty stack |
| MachineProperties.UnknownOpcodeFaults | Synacor/Emulator.cs:256-259 | an opcode above 21 faults naming that opcode, with IP and everything else unchanged |
| MachineProperties.IpOutsideMemoryFaults | Synacor/Emulator.cs:81 | an IP of 32768 or more faults at the opcode fetch and changes nothing else |
| MachineProperties.FaultChangesNoRegisterMemoryOrIp | Synacor/Emulator.cs:262-266 | whenever a step faults, IP, memory, registers and output are as before the step |
| MachineProperties.StuckStepRepeats | Synacor/Emulator.cs:77 | if a step changes only the status, every further step repeats it, so a halted or faulted emulator re-executes the instruction at IP |
| MachineProperties.HaltRepeats | Synacor/Emulator.cs:77-89 | from a halt instruction, any number of steps leaves the emulator halted at the same IP |
| MachineProperties.StepOutput | Synacor/Emulator.cs:238-241 | a step keeps the output port attached or detached; only out changes what was written, by appending the decoded operand |
| MachineProperties.OutAppends | Synacor/Emulator.cs:238-241 | out with an Output delegate and a valid <a> appends the value of <a> and advances by 2; an invalid <a> faults with nothing written |
| MachineProperties.OutputIsAppendOnly | Synacor/Emulator.cs:238-241 | over any number of steps, what was written to the output port stays a prefix of what is written |
| MachineProperties.StepInput | Synacor/Emulator.cs:245-248 | a step takes one code from the input port exactly when it executes in, and never changes the port otherwise |
| MachineProperties.InStoresKey | Synacor/Emulator.cs:245-248 | in with an Input delegate takes its next code and writes it through a valid <a>, advancing by 2; with an invalid <a> the code is consumed and the step faults |
| MachineProperties.BinaryKeepsPorts | Synacor/Emulator.cs:122-197 | the three-operand instructions do not touch the ports |
| MachineProperties.InWithoutDelegateAdvances | Synacor/Emulator.cs:246-247 | in with no Input delegate changes nothing but advancing IP by 2 |
| MachineProperties.OutWithoutDelegateAdvances | Synacor/Emulator.cs:239-240 | out with no Output delegate advances IP by 2 without decoding its operand, even an invalid one |
| MachineProperties.ExampleImageLoads | Synacor/Program.cs:13-19 | the commented-out image loads as the words 9, 32768, 32769, 4, 19, 32768 at cells 0..5, leaving cell 6 as it was |
| MachineProperties.ExampleRun | Synacor/Program.cs:13-19 | run on a fresh emulator with an output port: after step 1 r0 = 4 and IP = 4; after step 2 the output is [4] and IP = 6; step 3 halts at IP 6 |
| MachineProperties.ExampleProgram | Synacor/Program.cs:13-19 | the same three steps for any machine holding that program at address 0 with r1 = 0 |

## Left out

- `Synacor/TestBed.cs` and `Synacor/Program.cs` are not part of this model, apart from the test image. Their content is console I/O (`Console.Write`, `Console.ReadKey`), file reading and register printing. The `RunTest` loop only steps while the status is Okay.
- The real Output and Input delegates are not modelled. The output is the sequence of codes handed over, and the input is a function from call number to code. Blocking while waiting for a key, and a delegate that throws, are not modelled.
- Vm.Load and Synacor.Emulator.LoadMemory: an odd-length image of at most 65535 bytes is excluded by a precondition. The C# code reads one byte past the end of the array there and throws out of `LoadMemory`, since that part is outside any try/catch; the exception itself is not modelled, and neither is the memory it leaves behind, in which every full byte pair before the last byte has already been written.
- The text of `ErrorMessage`, including exception messages and stack traces, is not modelled; the Error status carries an abstract `Fault`. The C# field keeps its last text after the status is reset to Okay; the model keeps no message once the status is no longer Error.
- Which fault is reported when wmem has both a bad register operand and a bad address follows C#'s left-to-right evaluation: both operands are decoded before the store's bounds check. Only the kind of fault depends on this, never the state.
- `Memory` and `Registers` are public fields in C# and could be replaced by outside code. Here they are `const` arrays, changed only through the class's methods.
