/** What `Step` promises, instruction by instruction and over several steps. */
module MachineProperties {
  import opened Words
  import opened Vm

  /** The opcode `Step` would fetch from a machine whose IP is in memory. */
  function OpcodeAt(m: Machine): UShort
    requires m.Valid() && m.ip < MaxValue
  {
    m.memory[m.ip]
  }

  /** The instructions that never set IP themselves. */
  predicate NeverJumps(opcode: UShort) {
    1 <= opcode <= 5 || 9 <= opcode <= 16 || 19 <= opcode <= 21
  }

  /** How many words an instruction occupies: the opcode and its operands. */
  function Width(opcode: UShort): nat
    requires opcode <= 21
  {
    match opcode
    case 0 | 18 | 21 => 1
    case 2 | 3 | 6 | 17 | 19 | 20 => 2
    case 1 | 7 | 8 | 14 | 15 | 16 => 3
    case _ => 4
  }

  /** The registers after `value` is written through a valid <a>: the named
      register changes, and a literal destination changes nothing. */
  function AfterWrite(m: Machine, value: UShort): seq<UShort>
    requires m.Valid() && ValidOperand(m, 1)
  {
    if Operand(m, 1) < MaxValue then m.registers else m.registers[Operand(m, 1) - MaxValue := value]
  }

  /** The fault of an operand that indexes past the registers. */
  function BadOperand(m: Machine, k: UShort): Machine
    requires m.Valid()
  {
    m.(status := Error(BadRegister(Operand(m, k))))
  }

  // ---------------------------------------------------------------- operands

  /** Reading an operand back after writing through it: a register operand
      gives the written value, every other operand what it gave before. */
  lemma WriteThenDecode(registers: seq<UShort>, dest: UShort, value: UShort, src: UShort)
    requires |registers| == RegisterCount
    requires MaxValue <= dest < MaxValue + RegisterCount
    ensures WriteOperand(registers, dest, value).Ok?
    ensures DecodeOperand(WriteOperand(registers, dest, value).value, src)
         == if src == dest then Ok(value) else DecodeOperand(registers, src)
  {
  }

  /** A literal destination is accepted and nothing is written. */
  lemma WriteLiteralIsIgnored(registers: seq<UShort>, dest: UShort, value: UShort)
    requires |registers| == RegisterCount && dest < MaxValue
    ensures WriteOperand(registers, dest, value) == Ok(registers)
  {
  }

  /** Operands are fetched and IP advanced modulo 32768: from the last cell
      the operands are cells 0, 1 and 2, and a width-3 advance lands on 2. */
  lemma OperandsWrapAround(m: Machine)
    requires m.Valid() && m.ip == MaxValue - 1
    ensures Operand(m, 1) == m.memory[0]
    ensures Operand(m, 2) == m.memory[1]
    ensures Operand(m, 3) == m.memory[2]
    ensures Advance(m, 3).ip == 2
  {
  }

  // ------------------------------------------------------------ IP movement

  /** Every instruction that does not jump, when it completes, leaves IP just
      past its last operand. */
  lemma NonJumpAdvancesByWidth(m: Machine)
    requires m.Valid() && m.ip < MaxValue && NeverJumps(OpcodeAt(m))
    requires Step(m).status == Okay
    ensures Step(m).ip == AddWords(m.ip, Width(OpcodeAt(m)))
  {
  }

  function BinaryOpOf(opcode: UShort): BinaryOp
    requires opcode in {4, 5, 9, 10, 11, 12, 13}
  {
    match opcode
    case 4 => Eq
    case 5 => Gt
    case 9 => Add
    case 10 => Mul
    case 11 => Mod
    case 12 => And
    case _ => Or
  }

  /** jt jumps to <b> when <a> is nonzero and jf when it is zero; otherwise
      IP advances by 3 and <b> is never decoded, so even an invalid <b> is
      only a fault when the jump is taken. */
  lemma ConditionalJumpTarget(m: Machine)
    requires m.Valid() && m.ip < MaxValue && (OpcodeAt(m) == 7 || OpcodeAt(m) == 8)
    ensures !ValidOperand(m, 1) ==> Step(m) == BadOperand(m, 1)
    ensures ValidOperand(m, 1) ==>
      var jumps := if OpcodeAt(m) == 7 then Value(m, 1) != 0 else Value(m, 1) == 0;
      Step(m) == if !jumps then m.(status := Okay, ip := AddWords(m.ip, 3))
                 else if ValidOperand(m, 2) then m.(status := Okay, ip := Value(m, 2))
                 else BadOperand(m, 2)
  {
  }

  // -------------------------------------------------------------- results

  /** eq and gt store exactly 1 when the relation holds and 0 otherwise. */
  lemma ComparisonStoresBit(m: Machine)
    requires m.Valid() && m.ip < MaxValue && (OpcodeAt(m) == 4 || OpcodeAt(m) == 5)
    requires MaxValue <= Operand(m, 1) < MaxValue + RegisterCount
    requires Operand(m, 2) < MaxValue + RegisterCount && Operand(m, 3) < MaxValue + RegisterCount
    ensures Step(m).status == Okay
    ensures var r := Step(m).registers[Operand(m, 1) - MaxValue];
            var b := DecodeOperand(m.registers, Operand(m, 2)).value;
            var c := DecodeOperand(m.registers, Operand(m, 3)).value;
            (r == 0 || r == 1) && (r == 1 <==> if OpcodeAt(m) == 4 then b == c else b > c)
  {
  }

  /** add stores the sum modulo 32768. */
  lemma AddStoresSum(m: Machine)
    requires m.Valid() && m.ip < MaxValue && OpcodeAt(m) == 9
    requires MaxValue <= Operand(m, 1) < MaxValue + RegisterCount
    requires Operand(m, 2) < MaxValue + RegisterCount && Operand(m, 3) < MaxValue + RegisterCount
    ensures Step(m).status == Okay
    ensures var b := DecodeOperand(m.registers, Operand(m, 2)).value;
            var c := DecodeOperand(m.registers, Operand(m, 3)).value;
            var r := Step(m).registers[Operand(m, 1) - MaxValue];
            IsWord(r) && (b + c - r) % MaxValue == 0
  {
  }

  /** mult of two 15-bit words stores their product modulo 32768. */
  lemma MultStoresProduct(m: Machine)
    requires m.Valid() && m.ip < MaxValue && OpcodeAt(m) == 10
    requires MaxValue <= Operand(m, 1) < MaxValue + RegisterCount
    requires Operand(m, 2) < MaxValue + RegisterCount && Operand(m, 3) < MaxValue + RegisterCount
    requires IsWord(DecodeOperand(m.registers, Operand(m, 2)).value)
    requires IsWord(DecodeOperand(m.registers, Operand(m, 3)).value)
    ensures Step(m).status == Okay
    ensures Step(m).registers[Operand(m, 1) - MaxValue]
         == (DecodeOperand(m.registers, Operand(m, 2)).value * DecodeOperand(m.registers, Operand(m, 3)).value) % MaxValue
  {
  }

  /** mod by zero faults without touching IP or the registers, whatever <a>
      is, since the division comes before the write; otherwise it stores the
      remainder. */
  lemma ModResult(m: Machine)
    requires m.Valid() && m.ip < MaxValue && OpcodeAt(m) == 11
    requires ValidOperand(m, 2) && ValidOperand(m, 3)
    requires Value(m, 3) != 0 ==> MaxValue <= Operand(m, 1) < MaxValue + RegisterCount
    ensures var b := Value(m, 2);
            var c := Value(m, 3);
            if c == 0 then
              Step(m) == m.(status := Error(DivideByZero))
            else
              Step(m).status == Okay && Step(m).registers[Operand(m, 1) - MaxValue] == b % c
  {
  }

  /** and stores the bitwise and of <b> and <c> in <a>. */
  lemma AndStores(m: Machine)
    requires m.Valid() && m.ip < MaxValue && OpcodeAt(m) == 12
    requires ValidOperand(m, 1) && ValidOperand(m, 2) && ValidOperand(m, 3)
    ensures Step(m) == m.(status := Okay, registers := AfterWrite(m, BitAnd(Value(m, 2), Value(m, 3))), ip := AddWords(m.ip, 4))
  {
    var running := m.(status := Okay);
    assert Step(m) == Binary(running, And);
    BinaryStores(running, And);
  }

  /** or stores the bitwise or of <b> and <c> in <a>. */
  lemma OrStores(m: Machine)
    requires m.Valid() && m.ip < MaxValue && OpcodeAt(m) == 13
    requires ValidOperand(m, 1) && ValidOperand(m, 2) && ValidOperand(m, 3)
    ensures Step(m) == m.(status := Okay, registers := AfterWrite(m, BitOr(Value(m, 2), Value(m, 3))), ip := AddWords(m.ip, 4))
  {
    var running := m.(status := Okay);
    assert Step(m) == Binary(running, Or);
    BinaryStores(running, Or);
  }

  /** A three-operand instruction whose operands are valid and whose value is
      defined writes that value through <a> and advances by 4. */
  lemma BinaryStores(m: Machine, op: BinaryOp)
    requires m.Valid() && ValidOperand(m, 1) && ValidOperand(m, 2) && ValidOperand(m, 3)
    requires Apply(op, Value(m, 2), Value(m, 3)).Ok?
    ensures Binary(m, op) == m.(registers := AfterWrite(m, Apply(op, Value(m, 2), Value(m, 3)).value), ip := AddWords(m.ip, 4))
  {
  }

  /** not stores the 15-bit complement, 32767 - (b mod 32768), through <a>,
      so not 0 is 32767; a literal <a> discards it, and IP advances by 3
      either way. */
  lemma NotStoresComplement(m: Machine)
    requires m.Valid() && m.ip < MaxValue && OpcodeAt(m) == 14
    requires ValidOperand(m, 1) && ValidOperand(m, 2)
    ensures Step(m) == m.(status := Okay, registers := AfterWrite(m, MaxValue - 1 - Value(m, 2) % MaxValue), ip := AddWords(m.ip, 3))
  {
  }

  /** set writes the value of <b> into <a>. */
  lemma SetStores(m: Machine)
    requires m.Valid() && m.ip < MaxValue && OpcodeAt(m) == 1
    requires ValidOperand(m, 1)
    ensures Step(m) == if ValidOperand(m, 2)
      then m.(status := Okay, registers := AfterWrite(m, Value(m, 2)), ip := AddWords(m.ip, 3))
      else BadOperand(m, 2)
  {
  }

  /** jmp sets IP to <a>, with no wrap-around: a target of 32768 or more is
      only refused at the next fetch. */
  lemma JmpJumps(m: Machine)
    requires m.Valid() && m.ip < MaxValue && OpcodeAt(m) == 6
    ensures Step(m) == if ValidOperand(m, 1) then m.(status := Okay, ip := Value(m, 1)) else BadOperand(m, 1)
  {
  }

  /** rmem copies the cell at address <b> into <a>; an address outside memory
      faults before anything is written. */
  lemma RmemReads(m: Machine)
    requires m.Valid() && m.ip < MaxValue && OpcodeAt(m) == 15
    requires ValidOperand(m, 1) && ValidOperand(m, 2)
    ensures Step(m) == if Value(m, 2) >= MaxValue then m.(status := Error(BadAddress(Value(m, 2))))
      else m.(status := Okay, registers := AfterWrite(m, m.memory[Value(m, 2)]), ip := AddWords(m.ip, 3))
  {
  }

  /** wmem writes <b> into the cell at address <a>, and no other cell; an
      address outside memory faults. */
  lemma WmemWrites(m: Machine)
    requires m.Valid() && m.ip < MaxValue && OpcodeAt(m) == 16
    requires ValidOperand(m, 1) && ValidOperand(m, 2)
    ensures Step(m) == if Value(m, 1) >= MaxValue then m.(status := Error(BadAddress(Value(m, 1))))
      else m.(status := Okay, memory := m.memory[Value(m, 1) := Value(m, 2)], ip := AddWords(m.ip, 3))
  {
  }

  /** eq, gt, add, mult, mod, and and or decode <b>, then <c>, then compute,
      then write <a>: the first operand of 32776 or more on that path faults,
      with only the status changed. */
  lemma BinaryOperandFaults(m: Machine)
    requires m.Valid() && m.ip < MaxValue && OpcodeAt(m) in {4, 5, 9, 10, 11, 12, 13}
    ensures !ValidOperand(m, 2) ==> Step(m) == BadOperand(m, 2)
    ensures ValidOperand(m, 2) && !ValidOperand(m, 3) ==> Step(m) == BadOperand(m, 3)
    ensures (ValidOperand(m, 2) && ValidOperand(m, 3) && !ValidOperand(m, 1)
             && Apply(BinaryOpOf(OpcodeAt(m)), Value(m, 2), Value(m, 3)).Ok?) ==> Step(m) == BadOperand(m, 1)
  {
    var running := m.(status := Okay);
    assert Operand(running, 1) == Operand(m, 1) && Operand(running, 2) == Operand(m, 2) && Operand(running, 3) == Operand(m, 3);
    var op := BinaryOpOf(OpcodeAt(m));
    BinaryStep(m);
    BinaryFaultsOnOperands(running, op);
  }

  /** A step of the three-operand group is `Binary` on the running machine. */
  lemma BinaryStep(m: Machine)
    requires m.Valid() && m.ip < MaxValue && OpcodeAt(m) in {4, 5, 9, 10, 11, 12, 13}
    ensures Step(m) == Binary(m.(status := Okay), BinaryOpOf(OpcodeAt(m)))
  {
    var running := m.(status := Okay);
    assert Step(m) == Execute(running, OpcodeAt(m));
    match OpcodeAt(m)
    case 4 => assert Execute(running, 4) == Binary(running, Eq);
    case 5 => assert Execute(running, 5) == Binary(running, Gt);
    case 9 => assert Execute(running, 9) == Binary(running, Add);
    case 10 => assert Execute(running, 10) == Binary(running, Mul);
    case 11 => assert Execute(running, 11) == Binary(running, Mod);
    case 12 => assert Execute(running, 12) == Binary(running, And);
    case 13 => assert Execute(running, 13) == Binary(running, Or);
  }

  lemma BinaryFaultsOnOperands(m: Machine, op: BinaryOp)
    requires m.Valid() && m.status == Okay
    ensures !ValidOperand(m, 2) ==> Binary(m, op) == BadOperand(m, 2)
    ensures ValidOperand(m, 2) && !ValidOperand(m, 3) ==> Binary(m, op) == BadOperand(m, 3)
    ensures (ValidOperand(m, 2) && ValidOperand(m, 3) && !ValidOperand(m, 1)
             && Apply(op, Value(m, 2), Value(m, 3)).Ok?) ==> Binary(m, op) == BadOperand(m, 1)
  {
  }

  /** set and not decode <b> before writing <a>; an invalid one of them
      faults, <b> first, with only the status changed. */
  lemma SetAndNotOperandFaults(m: Machine)
    requires m.Valid() && m.ip < MaxValue && (OpcodeAt(m) == 1 || OpcodeAt(m) == 14)
    ensures !ValidOperand(m, 2) ==> Step(m) == BadOperand(m, 2)
    ensures ValidOperand(m, 2) && !ValidOperand(m, 1) ==> Step(m) == BadOperand(m, 1)
  {
  }

  /** rmem decodes <b>, checks the address and then writes <a>; wmem decodes
      <a> and then <b>. The first invalid operand on that path faults with
      only the status changed. */
  lemma MemoryOperandFaults(m: Machine)
    requires m.Valid() && m.ip < MaxValue && (OpcodeAt(m) == 15 || OpcodeAt(m) == 16)
    ensures OpcodeAt(m) == 15 && !ValidOperand(m, 2) ==> Step(m) == BadOperand(m, 2)
    ensures OpcodeAt(m) == 15 && ValidOperand(m, 2) && Value(m, 2) < MaxValue && !ValidOperand(m, 1) ==>
      Step(m) == BadOperand(m, 1)
    ensures OpcodeAt(m) == 16 && !ValidOperand(m, 1) ==> Step(m) == BadOperand(m, 1)
    ensures OpcodeAt(m) == 16 && ValidOperand(m, 1) && !ValidOperand(m, 2) ==> Step(m) == BadOperand(m, 2)
  {
    assert Step(m) == MemoryInstruction(m.(status := Okay), OpcodeAt(m));
  }

  /** noop only advances IP. */
  lemma NoopAdvances(m: Machine)
    requires m.Valid() && m.ip < MaxValue && OpcodeAt(m) == 21
    ensures Step(m) == m.(status := Okay, ip := AddWords(m.ip, 1))
  {
  }

  // --------------------------------------------------------------- stack

  /** push puts the value of <a> on top of the stack. */
  lemma PushPushes(m: Machine)
    requires m.Valid() && m.ip < MaxValue && OpcodeAt(m) == 2
    ensures Step(m) == if ValidOperand(m, 1)
      then m.(status := Okay, stack := m.stack + [Value(m, 1)], ip := AddWords(m.ip, 2))
      else BadOperand(m, 1)
  {
  }

  /** pop removes the top of a non-empty stack and writes it into <a>. */
  lemma PopStores(m: Machine)
    requires m.Valid() && m.ip < MaxValue && OpcodeAt(m) == 3 && m.stack != [] && ValidOperand(m, 1)
    ensures Step(m) == m.(status := Okay, stack := m.stack[..|m.stack| - 1],
      registers := AfterWrite(m, m.stack[|m.stack| - 1]), ip := AddWords(m.ip, 2))
  {
  }

  /** pop on an empty stack faults and changes nothing else. */
  lemma PopEmptyFaults(m: Machine)
    requires m.Valid() && m.ip < MaxValue && OpcodeAt(m) == 3 && m.stack == []
    ensures Step(m) == m.(status := Error(StackUnderflow))
  {
  }

  /** pop into an invalid register operand has already removed the top of
      the stack when the fault happens. */
  lemma PopIntoBadOperandLosesTop(m: Machine)
    requires m.Valid() && m.ip < MaxValue && OpcodeAt(m) == 3 && m.stack != []
    requires Operand(m, 1) >= MaxValue + RegisterCount
    ensures Step(m) == m.(stack := m.stack[..|m.stack| - 1], status := Error(BadRegister(Operand(m, 1))))
  {
  }

  /** push then pop into a register moves the pushed value there and leaves
      the stack as it was. */
  lemma PushThenPop(m: Machine)
    requires m.Valid() && m.ip < MaxValue - 4 && OpcodeAt(m) == 2 && m.memory[m.ip + 2] == 3
    requires Operand(m, 1) < MaxValue + RegisterCount
    requires MaxValue <= m.memory[m.ip + 3] < MaxValue + RegisterCount
    ensures Steps(m, 2).status == Okay && Steps(m, 2).ip == m.ip + 4 && Steps(m, 2).stack == m.stack
    ensures Steps(m, 2).registers[m.memory[m.ip + 3] - MaxValue] == DecodeOperand(m.registers, Operand(m, 1)).value
  {
    PushPushes(m);
    var pushed := Step(m);
    assert OpcodeAt(pushed) == 3 && Operand(pushed, 1) == m.memory[m.ip + 3];
    PopStores(pushed);
    assert Steps(m, 2) == Step(pushed);
    assert (m.stack + [Value(m, 1)])[..|m.stack|] == m.stack;
  }

  /** ret on an empty stack halts, without a fault and without moving IP. */
  lemma RetEmptyHalts(m: Machine)
    requires m.Valid() && m.ip < MaxValue && OpcodeAt(m) == 18 && m.stack == []
    ensures Step(m) == m.(status := Halt)
  {
  }

  /** call pushes the return address (IP + 2, wrapping) and jumps to <a>; when
      <a> faults the push has already happened. */
  lemma CallPushesAndJumps(m: Machine)
    requires m.Valid() && m.ip < MaxValue && OpcodeAt(m) == 17
    ensures var pushed := m.stack + [AddWords(m.ip, 2)];
      Step(m) == if ValidOperand(m, 1) then m.(status := Okay, stack := pushed, ip := Value(m, 1))
                 else BadOperand(m, 1).(stack := pushed)
  {
  }

  /** ret on a non-empty stack jumps to the top and removes it. */
  lemma RetPops(m: Machine)
    requires m.Valid() && m.ip < MaxValue && OpcodeAt(m) == 18 && m.stack != []
    ensures Step(m) == m.(status := Okay, ip := m.stack[|m.stack| - 1], stack := m.stack[..|m.stack| - 1])
  {
  }

  /** A call whose target is a ret comes back to the address after the call
      with the stack as it was. */
  lemma CallThenRet(m: Machine)
    requires m.Valid() && m.ip < MaxValue && OpcodeAt(m) == 17
    requires ValidOperand(m, 1) && Value(m, 1) < MaxValue && m.memory[Value(m, 1)] == 18
    ensures Steps(m, 2) == m.(status := Okay, ip := AddWords(m.ip, 2))
  {
    CallPushesAndJumps(m);
    var called := Step(m);
    RetPops(called);
    assert Steps(m, 2) == Step(called);
    assert (m.stack + [AddWords(m.ip, 2)])[..|m.stack|] == m.stack;
  }

  // ---------------------------------------------------------------- frames

  /** Only wmem changes memory. */
  lemma MemoryOnlyWmem(m: Machine)
    requires m.Valid()
    ensures Step(m).memory != m.memory ==> m.ip < MaxValue && OpcodeAt(m) == 16
  {
  }

  /** Only push, pop, call and ret change the stack. */
  lemma StackOnlyPushPopCallRet(m: Machine)
    requires m.Valid()
    ensures Step(m).stack != m.stack ==> m.ip < MaxValue && OpcodeAt(m) in {2, 3, 17, 18}
  {
  }

  /** A step changes at most one register, the one <a> names, and only for an
      instruction that writes <a>. */
  lemma RegistersOnlyAtDestination(m: Machine, i: int)
    requires m.Valid() && 0 <= i < RegisterCount
    ensures Step(m).registers[i] != m.registers[i] ==>
      m.ip < MaxValue && Operand(m, 1) == MaxValue + i
      && OpcodeAt(m) in {1, 3, 4, 5, 9, 10, 11, 12, 13, 14, 15, 20}
  {
  }

  // ------------------------------------------------------- status machine

  /** The status `Step` finds is irrelevant: it is reset before anything else. */
  lemma StepIgnoresStatus(m: Machine, s: Status)
    requires m.Valid()
    ensures Step(m.(status := s)) == Step(m)
  {
  }

  /** halt sets Halt and leaves IP where it was. */
  lemma HaltKeepsIp(m: Machine)
    requires m.Valid() && m.ip < MaxValue && OpcodeAt(m) == 0
    ensures Step(m) == m.(status := Halt)
  {
  }

  /** A step ends in Halt exactly for halt, and for ret with an empty stack. */
  lemma HaltCases(m: Machine)
    requires m.Valid()
    ensures Step(m).status == Halt <==>
      m.ip < MaxValue && (OpcodeAt(m) == 0 || (OpcodeAt(m) == 18 && m.stack == []))
  {
  }

  /** An opcode above 21 faults, naming the opcode, and changes nothing else. */
  lemma UnknownOpcodeFaults(m: Machine)
    requires m.Valid() && m.ip < MaxValue && OpcodeAt(m) > 21
    ensures Step(m) == m.(status := Error(UnknownOpcode(OpcodeAt(m))))
  {
  }

  /** An IP outside memory faults when the opcode is fetched. */
  lemma IpOutsideMemoryFaults(m: Machine)
    requires m.Valid() && m.ip >= MaxValue
    ensures Step(m) == m.(status := Error(BadAddress(m.ip)))
  {
  }

  /** No fault moves IP, writes memory or a register, or sends output. */
  lemma FaultChangesNoRegisterMemoryOrIp(m: Machine)
    requires m.Valid() && Step(m).status.Error?
    ensures Step(m).ip == m.ip
    ensures Step(m).memory == m.memory
    ensures Step(m).registers == m.registers
    ensures Step(m).output == m.output
  {
    if m.ip < MaxValue {
      assert Step(m) == Execute(m.(status := Okay), OpcodeAt(m));
    }
  }

  /** A step that changes only the status (halt, an unknown opcode, a fault
      at the fetch or on an empty pop, ret on an empty stack) is repeated by
      every later step: stepping again re-executes the same instruction. */
  lemma {:induction false} StuckStepRepeats(m: Machine, n: nat)
    requires m.Valid() && Step(m) == m.(status := Step(m).status)
    ensures Steps(m, n + 1) == Step(m)
    decreases n
  {
    if n > 0 {
      var next := Step(m);
      StepIgnoresStatus(m, next.status);
      assert Step(next) == next;
      StuckStepRepeats(next, n - 1);
    }
  }

  /** After a halt instruction the emulator keeps halting at the same IP. */
  lemma HaltRepeats(m: Machine, n: nat)
    requires m.Valid() && m.ip < MaxValue && OpcodeAt(m) == 0
    ensures Steps(m, n + 1) == m.(status := Halt)
  {
    StuckStepRepeats(m, n);
  }

  // ----------------------------------------------------------- I/O ports

  /** The output port is append-only and only out appends to it, one code. */
  lemma StepOutput(m: Machine)
    requires m.Valid()
    ensures Step(m).output.Some? <==> m.output.Some?
    ensures Step(m).output != m.output ==>
      m.ip < MaxValue && OpcodeAt(m) == 19 &&
      Step(m).output == Some(m.output.value + [DecodeOperand(m.registers, Operand(m, 1)).value])
  {
  }

  /** out with an Output delegate hands it the value of <a>. */
  lemma OutAppends(m: Machine)
    requires m.Valid() && m.ip < MaxValue && OpcodeAt(m) == 19 && m.output.Some?
    ensures Step(m) == if ValidOperand(m, 1)
      then m.(status := Okay, output := Some(m.output.value + [Value(m, 1)]), ip := AddWords(m.ip, 2))
      else BadOperand(m, 1)
  {
  }

  /** Over any number of steps, what was written stays written. */
  lemma {:induction false} OutputIsAppendOnly(m: Machine, n: nat)
    requires m.Valid() && m.output.Some?
    ensures Steps(m, n).output.Some?
    ensures m.output.value <= Steps(m, n).output.value
    decreases n
  {
    if n > 0 {
      StepOutput(m);
      OutputIsAppendOnly(Step(m), n - 1);
    }
  }

  /** Each step takes at most one code from the input port, and only in does. */
  lemma StepInput(m: Machine)
    requires m.Valid()
    ensures Step(m).input.Some? <==> m.input.Some?
    ensures m.input.Some? ==> Step(m).input.value.keys == m.input.value.keys
    ensures m.input.Some? ==>
      Step(m).input.value.read == m.input.value.read + (if m.ip < MaxValue && OpcodeAt(m) == 20 then 1 else 0)
  {
    if m.ip < MaxValue {
      var running := m.(status := Okay);
      var opcode := OpcodeAt(m);
      assert Step(m) == Execute(running, opcode);
      if opcode in {4, 5, 9, 10, 11, 12, 13} {
        BinaryKeepsPorts(running, BinaryOpOf(opcode));
      }
    }
  }

  /** in with an Input delegate takes its next code and writes it into <a>;
      when <a> faults the code has been consumed all the same. */
  lemma InStoresKey(m: Machine)
    requires m.Valid() && m.ip < MaxValue && OpcodeAt(m) == 20 && m.input.Some?
    ensures var source := m.input.value;
      var consumed := Some(source.(read := source.read + 1));
      var key := source.keys(source.read);
      Step(m) == if ValidOperand(m, 1)
        then m.(status := Okay, input := consumed, registers := AfterWrite(m, key), ip := AddWords(m.ip, 2))
        else BadOperand(m, 1).(input := consumed)
  {
  }

  lemma BinaryKeepsPorts(m: Machine, op: BinaryOp)
    requires m.Valid()
    ensures Binary(m, op).input == m.input && Binary(m, op).output == m.output
  {
  }

  /** in without an Input delegate skips the instruction but still advances. */
  lemma InWithoutDelegateAdvances(m: Machine)
    requires m.Valid() && m.ip < MaxValue && OpcodeAt(m) == 20 && m.input.None?
    ensures Step(m) == m.(ip := AddWords(m.ip, 2), status := Okay)
  {
  }

  /** out without an Output delegate skips the operand, even an invalid one. */
  lemma OutWithoutDelegateAdvances(m: Machine)
    requires m.Valid() && m.ip < MaxValue && OpcodeAt(m) == 19 && m.output.None?
    ensures Step(m) == m.(ip := AddWords(m.ip, 2), status := Okay)
  {
  }

  // ------------------------------------------------------------- loading

  /** `add r0, r1, 4; out r0` as a little-endian byte image. */
  const ExampleImage: seq<Byte> := [0x09, 0x00, 0x00, 0x80, 0x01, 0x80, 0x04, 0x00, 0x13, 0x00, 0x00, 0x80]

  /** Loading the image puts the six words at 0..5 and leaves cell 6 alone. */
  lemma ExampleImageLoads(memory: seq<UShort>)
    requires |memory| == MaxValue
    ensures var loaded := Load(memory, ExampleImage);
      && loaded[0] == 9 && loaded[1] == 32768 && loaded[2] == 32769
      && loaded[3] == 4 && loaded[4] == 19 && loaded[5] == 32768
      && loaded[6] == memory[6]
  {
    var image := ExampleImage;
    LoadedCell(memory, image, 0);
    LoadedCell(memory, image, 1);
    LoadedCell(memory, image, 2);
    LoadedCell(memory, image, 3);
    LoadedCell(memory, image, 4);
    LoadedCell(memory, image, 5);
    LoadedCell(memory, image, 6);
  }

  /** One cell of a loaded memory. */
  lemma LoadedCell(memory: seq<UShort>, data: seq<Byte>, i: nat)
    requires (|data| % 2 == 0 || |data| > 2 * |memory|) && i < |memory|
    ensures Load(memory, data)[i] == if i < |data| / 2 then LittleEndian(data[2 * i], data[2 * i + 1]) else memory[i]
  {
  }

  /** The image loaded into a fresh emulator with an output port attached. */
  function ExampleMachine(): (m: Machine)
    ensures m.Valid()
  {
    Fresh().(memory := Load(Fresh().memory, ExampleImage), output := Some([]))
  }

  /** Running the image: r0 becomes 4 and IP 4, then 4 is written out and IP
      is 6, then the zero at 6 halts. */
  lemma {:induction false} ExampleRun()
    ensures var m := ExampleMachine();
      && Steps(m, 1).registers[0] == 4 && Steps(m, 1).ip == 4 && Steps(m, 1).status == Okay
      && Steps(m, 2).output == Some([4]) && Steps(m, 2).ip == 6 && Steps(m, 2).status == Okay
      && Steps(m, 3).status == Halt && Steps(m, 3).ip == 6
      && Steps(m, 3).registers[0] == 4 && Steps(m, 3).output == Some([4])
  {
    var m := ExampleMachine();
    var initial := Fresh();
    ExampleImageLoads(initial.memory);
    assert initial.memory[6] == 0;
    assert m.registers[1] == 0;
    ExampleProgram(m);
  }

  /** The three steps on any machine holding the program at IP 0. */
  lemma {:induction false} ExampleProgram(m: Machine)
    requires m.Valid() && m.ip == 0 && m.registers[1] == 0 && m.output == Some([])
    requires m.memory[0] == 9 && m.memory[1] == 32768 && m.memory[2] == 32769 && m.memory[3] == 4
    requires m.memory[4] == 19 && m.memory[5] == 32768 && m.memory[6] == 0
    ensures Steps(m, 1).registers[0] == 4 && Steps(m, 1).ip == 4 && Steps(m, 1).status == Okay
    ensures Steps(m, 2).output == Some([4]) && Steps(m, 2).ip == 6 && Steps(m, 2).status == Okay
    ensures Steps(m, 3).status == Halt && Steps(m, 3).ip == 6
    ensures Steps(m, 3).registers[0] == 4 && Steps(m, 3).output == Some([4])
  {
    var s1 := Step(m);
    ExampleAdd(m);
    var s2 := Step(s1);
    assert s1.memory[4] == 19 && s1.memory[5] == 32768;
    ExampleOut(s1);
    assert s1.output.value + [s1.registers[0]] == [4];
    assert s2.memory[6] == 0;
    var s3 := Step(s2);
    assert s3 == s2.(status := Halt);
    assert Steps(m, 1) == s1;
    assert Steps(m, 2) == Steps(s1, 1) == s2;
    assert Steps(m, 3) == Steps(s1, 2) == Steps(s2, 1) == s3;
  }

  /** `add r0, r1, 4` at address 0 with r1 = 0. */
  lemma ExampleAdd(m: Machine)
    requires m.Valid() && m.ip == 0 && m.registers[1] == 0
    requires m.memory[0] == 9 && m.memory[1] == 32768 && m.memory[2] == 32769 && m.memory[3] == 4
    ensures Step(m) == m.(ip := 4, status := Okay, registers := m.registers[0 := 4])
  {
  }

  /** `out r0` at address 4 with an output port attached. */
  lemma ExampleOut(m: Machine)
    requires m.Valid() && m.ip == 4 && m.output.Some?
    requires m.memory[4] == 19 && m.memory[5] == 32768
    ensures Step(m) == m.(ip := 6, status := Okay, output := Some(m.output.value + [m.registers[0]]))
  {
  }
}
