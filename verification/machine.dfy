/** The emulator's state as a value and one instruction's effect on it as a
    function. This is the specification the `Emulator` class is proved against,
    and the module the properties in `MachineProperties` are stated over. */
module Vm {
  import opened Words

  /** Number of general-purpose registers. */
  const RegisterCount: int := 8

  datatype Option<T> = None | Some(value: T)

  /** What goes wrong inside `Step`: the exceptions C# raises there, and the two
      faults `Step` reports itself. */
  datatype Fault =
    | StackUnderflow               // pop with an empty stack
    | UnknownOpcode(opcode: UShort)  // an opcode above 21
    | BadRegister(operand: UShort)   // a register operand of 32776 or more indexes past Registers
    | BadAddress(address: UShort)    // a memory index of 32768 or more
    | DivideByZero                   // mod with a zero divisor

  /** A value, or the fault that replaced it. */
  datatype Result<T> = Ok(value: T) | Err(fault: Fault)

  /** StatusCode; an Error carries the fault in place of ErrorMessage's text. */
  datatype Status = Okay | Halt | Error(fault: Fault)

  /** What an `Input` delegate will return: the `read`-th call yields `keys(read)`. */
  datatype Source = Source(keys: nat -> UShort, read: nat)

  /** All the emulator's fields. The stack's top is its last element. `output`
      is None when no Output delegate is attached and otherwise the character
      codes it has been given, oldest first; `input` is None when no Input
      delegate is attached. */
  datatype Machine = Machine(
    memory: seq<UShort>,
    registers: seq<UShort>,
    stack: seq<UShort>,
    ip: UShort,
    status: Status,
    output: Option<seq<UShort>>,
    input: Option<Source>)
  {
    /** Memory and Registers have their fixed sizes. */
    ghost predicate Valid() {
      |memory| == MaxValue && |registers| == RegisterCount
    }
  }

  /** A freshly constructed emulator: everything zero, no delegates attached. */
  function Fresh(): (m: Machine)
    ensures m.Valid()
    ensures forall i :: 0 <= i < |m.memory| ==> m.memory[i] == 0
    ensures forall i :: 0 <= i < |m.registers| ==> m.registers[i] == 0
    ensures m.stack == [] && m.ip == 0 && m.status == Okay
    ensures m.output == None && m.input == None
  {
    Machine(seq(MaxValue, _ => 0), seq(RegisterCount, _ => 0), [], 0, Okay, None, None)
  }

  /** The word stored little-endian in two bytes. */
  function LittleEndian(low: Byte, high: Byte): UShort {
    low + high * 256
  }

  /** LoadMemory: successive byte pairs of `data` become successive words of
      memory from cell 0 on, until the data or the memory runs out. An odd
      trailing byte is only reached when the image fits in memory. */
  function Load(memory: seq<UShort>, data: seq<Byte>): (r: seq<UShort>)
    requires |data| % 2 == 0 || |data| > 2 * |memory|
    ensures |r| == |memory|
    ensures forall i :: 0 <= i < |memory| ==>
      r[i] == if i < |data| / 2 then LittleEndian(data[2 * i], data[2 * i + 1]) else memory[i]
  {
    if data == [] || memory == [] then memory
    else [LittleEndian(data[0], data[1])] + Load(memory[1..], data[2..])
  }

  /** DecodeOperand: a literal stands for itself, 32768..32775 for the
      register it names; anything larger indexes past the register file. */
  function DecodeOperand(registers: seq<UShort>, operand: UShort): (r: Result<UShort>)
    requires |registers| == RegisterCount
    ensures r.Ok? <==> operand < MaxValue + RegisterCount
    ensures r.Ok? && operand < MaxValue ==> r.value == operand
    ensures r.Ok? && MaxValue <= operand ==> r.value == registers[operand - MaxValue]
    ensures r.Err? ==> r.fault == BadRegister(operand)
  {
    if operand >= MaxValue then
      if operand - MaxValue < RegisterCount then Ok(registers[operand - MaxValue])
      else Err(BadRegister(operand))
    else Ok(operand)
  }

  /** WriteOperand: the registers after writing `value` through `operand`. A
      literal destination is accepted and the value discarded. */
  function WriteOperand(registers: seq<UShort>, operand: UShort, value: UShort): (r: Result<seq<UShort>>)
    requires |registers| == RegisterCount
    ensures r.Ok? <==> operand < MaxValue + RegisterCount
    ensures r.Ok? ==> |r.value| == RegisterCount
    ensures r.Ok? ==> forall i :: 0 <= i < RegisterCount && i != operand - MaxValue ==> r.value[i] == registers[i]
    ensures r.Ok? && MaxValue <= operand ==> r.value[operand - MaxValue] == value
    ensures r.Err? ==> r.fault == BadRegister(operand)
  {
    if operand >= MaxValue then
      if operand - MaxValue < RegisterCount then Ok(registers[operand - MaxValue := value])
      else Err(BadRegister(operand))
    else Ok(registers)
  }

  /** Op0, Op1, Op2: the word `k` cells after `ip` in `memory`, the address
      wrapping around. */
  function OperandAt(memory: seq<UShort>, ip: UShort, k: UShort): (r: UShort)
    requires |memory| == MaxValue
    ensures ip + k < MaxValue ==> r == memory[ip + k]
    ensures MaxValue <= ip + k < 2 * MaxValue ==> r == memory[ip + k - MaxValue]
  {
    memory[AddWords(ip, k)]
  }

  /** The operand `k` cells after the machine's IP. */
  function Operand(m: Machine, k: UShort): UShort
    requires m.Valid()
  {
    OperandAt(m.memory, m.ip, k)
  }

  /** Operand `k` names a literal or one of the eight registers. */
  predicate ValidOperand(m: Machine, k: UShort)
    requires m.Valid()
  {
    Operand(m, k) < MaxValue + RegisterCount
  }

  /** What a valid operand `k` decodes to. */
  function Value(m: Machine, k: UShort): UShort
    requires m.Valid() && ValidOperand(m, k)
  {
    DecodeOperand(m.registers, Operand(m, k)).value
  }

  /** Advance: IP moves on by `distance`, wrapping around. */
  function Advance(m: Machine, distance: UShort): (r: Machine)
    ensures IsWord(r.ip) && (m.ip + distance - r.ip) % MaxValue == 0
    ensures r == m.(ip := r.ip)
  {
    m.(ip := AddWords(m.ip, distance))
  }

  /** The catch block: the fault becomes the status; whatever was changed
      before the exception stays changed. */
  function Throw(m: Machine, fault: Fault): (r: Machine)
    ensures r.status == Error(fault)
    ensures r.(status := m.status) == m
  {
    m.(status := Error(fault))
  }

  /** Every register that differs between `m` and `r` is the one <a> names. */
  ghost predicate OnlyDestinationWritten(m: Machine, r: Machine)
    requires m.Valid() && r.Valid()
  {
    forall i :: 0 <= i < RegisterCount && r.registers[i] != m.registers[i] ==> Operand(m, 1) == MaxValue + i
  }

  /** A step from `m` to `r` that raised a fault left IP, memory, the
      registers and the output as they were. */
  ghost predicate FaultLeavesState(m: Machine, r: Machine) {
    r.status.Error? && r.status != m.status ==>
      r.ip == m.ip && r.memory == m.memory && r.registers == m.registers && r.output == m.output
  }

  /** `WriteOperand(Op0, value); Advance(width);` where computing `value` may
      itself have faulted. */
  function Store(m: Machine, value: Result<UShort>, width: UShort): (r: Machine)
    requires m.Valid()
    ensures value.Err? ==> r == m.(status := Error(value.fault))
    ensures value.Ok? && Operand(m, 1) < MaxValue ==> r == m.(ip := AddWords(m.ip, width))
    ensures value.Ok? && MaxValue <= Operand(m, 1) < MaxValue + RegisterCount ==>
      r == m.(registers := m.registers[Operand(m, 1) - MaxValue := value.value], ip := AddWords(m.ip, width))
    ensures value.Ok? && Operand(m, 1) >= MaxValue + RegisterCount ==>
      r == m.(status := Error(BadRegister(Operand(m, 1))))
    ensures r.Valid() && OnlyDestinationWritten(m, r)
  {
    match value
    case Err(f) => Throw(m, f)
    case Ok(v) =>
      match WriteOperand(m.registers, Operand(m, 1), v)
      case Err(f) => Throw(m, f)
      case Ok(registers) => Advance(m.(registers := registers), width)
  }

  /** The instructions `<op> a b c` that store a function of <b> and <c> in <a>. */
  datatype BinaryOp = Eq | Gt | Add | Mul | Mod | And | Or

  /** The value an instruction of the group computes. Only mod can fault, and
      only by zero; every result of two 15-bit words is a 15-bit word. */
  function Apply(op: BinaryOp, b: UShort, c: UShort): (r: Result<UShort>)
    ensures r.Err? <==> op == Mod && c == 0
    ensures r.Err? ==> r.fault == DivideByZero
    ensures IsWord(b) && IsWord(c) && r.Ok? ==> IsWord(r.value)
  {
    match op
    case Eq => Ok(if b == c then 1 else 0)
    case Gt => Ok(if b > c then 1 else 0)
    case Add => Ok(AddWords(b, c))
    case Mul => Ok(Mult(b, c))
    case Mod => if c == 0 then Err(DivideByZero) else Ok(b % c)
    case And => Ok(BitAnd(b, c))
    case Or => Ok(BitOr(b, c))
  }

  /** eq, gt, add, mult, mod, and, or: <b> is decoded, then <c>, then the
      result is written to <a> and IP advances by 4. */
  function Binary(m: Machine, op: BinaryOp): (r: Machine)
    requires m.Valid()
    ensures r.memory == m.memory && r.stack == m.stack && r.output == m.output && r.input == m.input
    ensures || (r.status.Error? && r.ip == m.ip && r.registers == m.registers)
            || (r.status == m.status && r.ip == AddWords(m.ip, 4))
    ensures r.Valid() && OnlyDestinationWritten(m, r)
    ensures !ValidOperand(m, 2) ==> r == Throw(m, BadRegister(Operand(m, 2)))
    ensures ValidOperand(m, 2) && !ValidOperand(m, 3) ==> r == Throw(m, BadRegister(Operand(m, 3)))
    ensures ValidOperand(m, 2) && ValidOperand(m, 3) && Apply(op, Value(m, 2), Value(m, 3)).Err? ==>
      r == Throw(m, DivideByZero)
    ensures ValidOperand(m, 2) && ValidOperand(m, 3) && Apply(op, Value(m, 2), Value(m, 3)).Ok? && !ValidOperand(m, 1) ==>
      r == Throw(m, BadRegister(Operand(m, 1)))
  {
    match DecodeOperand(m.registers, Operand(m, 2))
    case Err(f) => Throw(m, f)
    case Ok(b) =>
      match DecodeOperand(m.registers, Operand(m, 3))
      case Err(f) => Throw(m, f)
      case Ok(c) => Store(m, Apply(op, b, c), 4)
  }

  /** jt (when `ifZero` is false) and jf (when it is true): jump to <b> when
      <a> is nonzero (respectively zero), otherwise advance by 3. */
  function ConditionalJump(m: Machine, ifZero: bool): (r: Machine)
    requires m.Valid()
    ensures r.memory == m.memory && r.registers == m.registers && r.stack == m.stack
    ensures r.output == m.output && r.input == m.input
    ensures (r.status.Error? && r.ip == m.ip) || r.status == m.status
  {
    match DecodeOperand(m.registers, Operand(m, 1))
    case Err(f) => Throw(m, f)
    case Ok(a) =>
      if (a == 0) == ifZero then
        match DecodeOperand(m.registers, Operand(m, 2))
        case Err(f) => Throw(m, f)
        case Ok(target) => m.(ip := target)
      else Advance(m, 3)
  }

  /** Step: the status is reset to Okay, the opcode at IP is fetched and the
      instruction it names is executed. */
  function Step(m: Machine): (r: Machine)
    requires m.Valid()
    ensures r.Valid()
  {
    var running := m.(status := Okay);
    if running.ip >= MaxValue then Throw(running, BadAddress(running.ip))
    else Execute(running, running.memory[running.ip])
  }

  /** The 22-way switch of `Step`, for the instruction `opcode` at IP. Memory
      changes only under wmem, the stack only under push, pop, call and ret,
      the ports only under out and in, and a register only when it is the <a>
      of an instruction that writes <a>. */
  function Execute(m: Machine, opcode: UShort): (r: Machine)
    requires m.Valid()
    ensures r.Valid()
    ensures r.memory != m.memory ==> opcode == 16
    ensures r.stack != m.stack ==> opcode in {2, 3, 17, 18}
    ensures r.output != m.output ==> opcode == 19
    ensures r.input != m.input ==> opcode == 20
    ensures r.registers != m.registers ==> opcode in {1, 3, 4, 5, 9, 10, 11, 12, 13, 14, 15, 20}
    ensures OnlyDestinationWritten(m, r)
    ensures r.status == m.status || r.status.Error? || (r.status == Halt && opcode in {0, 18})
    ensures FaultLeavesState(m, r)
  {
    match opcode
    // halt: stop execution
    case 0 => m.(status := Halt)
    // set a b: set register <a> to the value of <b>
    case 1 => Store(m, DecodeOperand(m.registers, Operand(m, 2)), 3)
    case 2 | 3 | 17 | 18 => StackInstruction(m, opcode)
    case 4 => Binary(m, Eq)
    case 5 => Binary(m, Gt)
    // jmp a: jump to <a>
    case 6 =>
      (match DecodeOperand(m.registers, Operand(m, 1))
       case Err(f) => Throw(m, f)
       case Ok(target) => m.(ip := target))
    case 7 => ConditionalJump(m, false)
    case 8 => ConditionalJump(m, true)
    case 9 => Binary(m, Add)
    case 10 => Binary(m, Mul)
    case 11 => Binary(m, Mod)
    case 12 => Binary(m, And)
    case 13 => Binary(m, Or)
    // not a b: store the 15-bit inverse of <b> in <a>
    case 14 =>
      (match DecodeOperand(m.registers, Operand(m, 2))
       case Err(f) => Throw(m, f)
       case Ok(b) => Store(m, Ok(Not15(b)), 3))
    case 15 | 16 => MemoryInstruction(m, opcode)
    case 19 | 20 => PortInstruction(m, opcode)
    // noop
    case 21 => Advance(m, 1)
    case _ => Throw(m, UnknownOpcode(opcode))
  }

  /** push, pop, call and ret: memory and the ports stay as they were, and
      only pop writes a register. */
  function StackInstruction(m: Machine, opcode: UShort): (r: Machine)
    requires m.Valid() && opcode in {2, 3, 17, 18}
    ensures r.Valid() && r.memory == m.memory && r.output == m.output && r.input == m.input
    ensures opcode != 3 ==> r.registers == m.registers
    ensures OnlyDestinationWritten(m, r)
    ensures r.status == m.status || r.status.Error? || (r.status == Halt && opcode == 18)
    ensures FaultLeavesState(m, r)
  {
    match opcode
    // push a: push <a> onto the stack
    case 2 =>
      (match DecodeOperand(m.registers, Operand(m, 1))
       case Err(f) => Throw(m, f)
       case Ok(a) => Advance(m.(stack := m.stack + [a]), 2))
    // pop a: remove the top of the stack and write it to <a>; empty stack = error
    case 3 =>
      if |m.stack| == 0 then Throw(m, StackUnderflow)
      else
        var popped := m.(stack := m.stack[..|m.stack| - 1]);
        (match WriteOperand(m.registers, Operand(m, 1), m.stack[|m.stack| - 1])
         case Err(f) => Throw(popped, f)
         case Ok(registers) => Advance(popped.(registers := registers), 2))
    // call a: push the address of the next instruction and jump to <a>
    case 17 =>
      var pushed := m.(stack := m.stack + [AddWords(m.ip, 2)]);
      (match DecodeOperand(m.registers, Operand(m, 1))
       case Err(f) => Throw(pushed, f)
       case Ok(target) => pushed.(ip := target))
    // ret: pop the top of the stack and jump to it; empty stack = halt
    case _ =>
      if |m.stack| == 0 then m.(status := Halt)
      else m.(ip := m.stack[|m.stack| - 1], stack := m.stack[..|m.stack| - 1])
  }

  /** rmem and wmem: the stack and the ports stay as they were; only wmem
      writes memory and only rmem a register. */
  function MemoryInstruction(m: Machine, opcode: UShort): (r: Machine)
    requires m.Valid() && (opcode == 15 || opcode == 16)
    ensures r.Valid() && r.stack == m.stack && r.output == m.output && r.input == m.input
    ensures opcode == 15 ==> r.memory == m.memory
    ensures opcode == 16 ==> r.registers == m.registers
    ensures OnlyDestinationWritten(m, r)
    ensures r.status == m.status || r.status.Error?
    ensures FaultLeavesState(m, r)
    ensures opcode == 15 && !ValidOperand(m, 2) ==> r == Throw(m, BadRegister(Operand(m, 2)))
    ensures opcode == 15 && ValidOperand(m, 2) && Value(m, 2) >= MaxValue ==> r == Throw(m, BadAddress(Value(m, 2)))
    ensures opcode == 15 && ValidOperand(m, 2) && Value(m, 2) < MaxValue && !ValidOperand(m, 1) ==>
      r == Throw(m, BadRegister(Operand(m, 1)))
    ensures opcode == 16 && !ValidOperand(m, 1) ==> r == Throw(m, BadRegister(Operand(m, 1)))
    ensures opcode == 16 && ValidOperand(m, 1) && !ValidOperand(m, 2) ==> r == Throw(m, BadRegister(Operand(m, 2)))
    ensures opcode == 16 && ValidOperand(m, 1) && ValidOperand(m, 2) && Value(m, 1) >= MaxValue ==>
      r == Throw(m, BadAddress(Value(m, 1)))
  {
    if opcode == 15 then
      // rmem a b: read memory at address <b> and write it to <a>
      match DecodeOperand(m.registers, Operand(m, 2))
      case Err(f) => Throw(m, f)
      case Ok(address) =>
        if address >= MaxValue then Throw(m, BadAddress(address))
        else Store(m, Ok(m.memory[address]), 3)
    else
      // wmem a b: write the value of <b> into memory at address <a>
      match DecodeOperand(m.registers, Operand(m, 1))
      case Err(f) => Throw(m, f)
      case Ok(address) =>
        match DecodeOperand(m.registers, Operand(m, 2))
        case Err(f) => Throw(m, f)
        case Ok(value) =>
          if address >= MaxValue then Throw(m, BadAddress(address))
          else Advance(m.(memory := m.memory[address := value]), 3)
  }

  /** out and in: memory and the stack stay as they were; out only appends to
      the output, in only takes from the input and writes <a>. */
  function PortInstruction(m: Machine, opcode: UShort): (r: Machine)
    requires m.Valid() && (opcode == 19 || opcode == 20)
    ensures r.Valid() && r.memory == m.memory && r.stack == m.stack
    ensures opcode == 19 ==> r.input == m.input && r.registers == m.registers
    ensures opcode == 20 ==> r.output == m.output
    ensures OnlyDestinationWritten(m, r)
    ensures r.status == m.status || r.status.Error?
    ensures FaultLeavesState(m, r)
  {
    if opcode == 19 then
      // out a: hand the character code <a> to the Output delegate, if any
      match m.output
      case None => Advance(m, 2)
      case Some(written) =>
        match DecodeOperand(m.registers, Operand(m, 1))
        case Err(f) => Throw(m, f)
        case Ok(c) => Advance(m.(output := Some(written + [c])), 2)
    else
      // in a: write the next code from the Input delegate, if any, to <a>
      match m.input
      case None => Advance(m, 2)
      case Some(source) =>
        var consumed := m.(input := Some(source.(read := source.read + 1)));
        match WriteOperand(m.registers, Operand(m, 1), source.keys(source.read))
        case Err(f) => Throw(consumed, f)
        case Ok(registers) => Advance(consumed.(registers := registers), 2)
  }

  /** `n` calls of Step, one after another. */
  function Steps(m: Machine, n: nat): (r: Machine)
    requires m.Valid()
    ensures r.Valid()
    decreases n
  {
    if n == 0 then m else Steps(Step(m), n - 1)
  }
}
