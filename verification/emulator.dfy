/** The interpreter object: its fields are updated in place by `Step`, and
    every method is proved to have the effect the `Vm` functions describe. */
module Synacor {
  import opened Words
  import opened Vm
  import MachineProperties

  class Emulator {
    var Status: Vm.Status
    var Stack: seq<UShort>
    const Registers: array<UShort>
    const Memory: array<UShort>
    var IP: UShort
    /** The Output delegate: None when null, else what it has been handed. */
    var Output: Option<seq<UShort>>
    /** The Input delegate: None when null, else what it will return. */
    var Input: Option<Source>

    ghost predicate Valid()
      reads this
    {
      Memory.Length == MaxValue && Registers.Length == RegisterCount
    }

    /** The fields as one value. */
    ghost function State(): Machine
      reads this, Memory, Registers
      requires Valid()
    {
      Machine(Memory[..], Registers[..], Stack, IP, Status, Output, Input)
    }

    constructor ()
      ensures Valid() && State() == Vm.Fresh()
      ensures fresh(Memory) && fresh(Registers)
    {
      Status := Okay;
      Stack := [];
      Registers := new UShort[RegisterCount](_ => 0);
      Memory := new UShort[MaxValue](_ => 0);
      IP := 0;
      Output := None;
      Input := None;
      new;
      assert Memory[..] == seq(MaxValue, _ => 0);
      assert Registers[..] == seq(RegisterCount, _ => 0);
    }

    /** Copies the image into memory word by word; cells beyond it keep their
        contents and a too long image is cut off at the end of memory. */
    method LoadMemory(data: seq<Byte>)
      requires Valid() && (|data| % 2 == 0 || |data| > 2 * Memory.Length)
      modifies Memory
      ensures Valid() && State() == old(State()).(memory := Load(old(Memory[..]), data))
    {
      var memoryPointer := 0;
      var dataPointer := 0;
      while dataPointer < |data| && memoryPointer < Memory.Length
        invariant dataPointer == 2 * memoryPointer <= |data|
        invariant memoryPointer <= Memory.Length
        invariant forall i :: 0 <= i < Memory.Length ==>
          Memory[i] == if i < memoryPointer then LittleEndian(data[2 * i], data[2 * i + 1]) else old(Memory[i])
      {
        Memory[memoryPointer] := data[dataPointer] as int + data[dataPointer + 1] as int * 256;
        dataPointer, memoryPointer := dataPointer + 2, memoryPointer + 1;
      }
      assert Memory[..] == Load(old(Memory[..]), data);
    }

    /** A literal is its own value and a register operand indexes Registers,
        faulting past its end. */
    function DecodeOperand(operand: UShort): (r: Result<UShort>)
      reads this, Registers
      requires Valid()
      ensures r == Vm.DecodeOperand(Registers[..], operand)
    {
      if operand >= MaxValue then
        if operand - MaxValue < Registers.Length then Ok(Registers[operand - MaxValue])
        else Err(BadRegister(operand))
      else Ok(operand)
    }

    /** Writes `value` into the register `operand` names; a literal operand
        leaves everything as it was. */
    method WriteOperand(operand: UShort, value: UShort) returns (thrown: Option<Fault>)
      requires Valid()
      modifies Registers
      ensures Valid()
      ensures match Vm.WriteOperand(old(Registers[..]), operand, value)
        case Ok(registers) => thrown == None && Registers[..] == registers
        case Err(f) => thrown == Some(f) && Registers[..] == old(Registers[..])
    {
      if operand >= MaxValue {
        if operand - MaxValue < Registers.Length {
          Registers[operand - MaxValue] := value;
        } else {
          return Some(BadRegister(operand));
        }
      }
      return None;
    }

    /** The word 1 cell after IP, as `Vm.Operand` reads it. */
    function Op0(): (r: UShort)
      reads this, Memory
      requires Valid()
      ensures r == Vm.OperandAt(Memory[..], IP, 1)
    {
      Memory[AddWords(IP, 1)]
    }

    /** The word 2 cells after IP, as `Vm.Operand` reads it. */
    function Op1(): (r: UShort)
      reads this, Memory
      requires Valid()
      ensures r == Vm.OperandAt(Memory[..], IP, 2)
    {
      Memory[AddWords(IP, 2)]
    }

    /** The word 3 cells after IP, as `Vm.Operand` reads it. */
    function Op2(): (r: UShort)
      reads this, Memory
      requires Valid()
      ensures r == Vm.OperandAt(Memory[..], IP, 3)
    {
      Memory[AddWords(IP, 3)]
    }

    method Advance(distance: UShort)
      requires Valid()
      modifies this
      ensures Valid() && State() == Vm.Advance(old(State()), distance)
    {
      IP := AddWords(IP, distance);
    }

    /** `WriteOperand(Op0, value); Advance(width);`, or the fault. */
    method StoreOp0(value: Result<UShort>, width: UShort)
      requires Valid()
      modifies this, Registers
      ensures Valid() && State() == Vm.Store(old(State()), value, width)
    {
      if value.Err? {
        Status := Error(value.fault);
        return;
      }
      var thrown := WriteOperand(Op0(), value.value);
      if thrown.Some? {
        Status := Error(thrown.value);
        return;
      }
      Advance(width);
    }

    /** The three-operand arithmetic, comparison and bitwise instructions. */
    method ExecuteBinary(op: BinaryOp)
      requires Valid()
      modifies this, Registers
      ensures Valid() && State() == Vm.Binary(old(State()), op)
    {
      var b := DecodeOperand(Op1());
      if b.Err? {
        Status := Error(b.fault);
        return;
      }
      var c := DecodeOperand(Op2());
      if c.Err? {
        Status := Error(c.fault);
        return;
      }
      StoreOp0(Apply(op, b.value, c.value), 4);
    }

    /** jt and jf. */
    method ExecuteConditionalJump(ifZero: bool)
      requires Valid()
      modifies this
      ensures Valid() && State() == Vm.ConditionalJump(old(State()), ifZero)
    {
      var a := DecodeOperand(Op0());
      if a.Err? {
        Status := Error(a.fault);
        return;
      }
      if (a.value == 0) == ifZero {
        var target := DecodeOperand(Op1());
        if target.Err? {
          Status := Error(target.fault);
          return;
        }
        IP := target.value;
      } else {
        Advance(3);
      }
    }

    /** push, pop, call and ret. */
    method ExecuteStack(opcode: UShort)
      requires Valid() && opcode in {2, 3, 17, 18}
      modifies this, Registers
      ensures Valid() && State() == Vm.StackInstruction(old(State()), opcode)
    {
      match opcode {
        case 2 =>
          var a := DecodeOperand(Op0());
          if a.Err? {
            Status := Error(a.fault);
            return;
          }
          Stack := Stack + [a.value];
          Advance(2);
        case 3 =>
          if |Stack| == 0 {
            Status := Error(StackUnderflow);
          } else {
            var top := Stack[|Stack| - 1];
            Stack := Stack[..|Stack| - 1];
            var thrown := WriteOperand(Op0(), top);
            if thrown.Some? {
              Status := Error(thrown.value);
              return;
            }
            Advance(2);
          }
        case 17 =>
          Stack := Stack + [AddWords(IP, 2)];
          var target := DecodeOperand(Op0());
          if target.Err? {
            Status := Error(target.fault);
            return;
          }
          IP := target.value;
        case 18 =>
          if |Stack| == 0 {
            Status := Halt;
          } else {
            IP := Stack[|Stack| - 1];
            Stack := Stack[..|Stack| - 1];
          }
      }
    }

    /** rmem and wmem. */
    method ExecuteMemory(opcode: UShort)
      requires Valid() && (opcode == 15 || opcode == 16)
      modifies this, Memory, Registers
      ensures Valid() && State() == Vm.MemoryInstruction(old(State()), opcode)
    {
      if opcode == 15 {
        var address := DecodeOperand(Op1());
        if address.Err? {
          Status := Error(address.fault);
          return;
        }
        if address.value >= Memory.Length {
          Status := Error(BadAddress(address.value));
          return;
        }
        StoreOp0(Ok(Memory[address.value]), 3);
      } else {
        var address := DecodeOperand(Op0());
        if address.Err? {
          Status := Error(address.fault);
          return;
        }
        var value := DecodeOperand(Op1());
        if value.Err? {
          Status := Error(value.fault);
          return;
        }
        if address.value >= Memory.Length {
          Status := Error(BadAddress(address.value));
          return;
        }
        Memory[address.value] := value.value;
        Advance(3);
      }
    }

    /** out and in, each skipped when its delegate is null. */
    method ExecutePorts(opcode: UShort)
      requires Valid() && (opcode == 19 || opcode == 20)
      modifies this, Registers
      ensures Valid() && State() == Vm.PortInstruction(old(State()), opcode)
    {
      if opcode == 19 {
        if Output.Some? {
          var c := DecodeOperand(Op0());
          if c.Err? {
            Status := Error(c.fault);
            return;
          }
          Output := Some(Output.value + [c.value]);
        }
      } else if Input.Some? {
        var source := Input.value;
        var key := source.keys(source.read);
        Input := Some(source.(read := source.read + 1));
        var thrown := WriteOperand(Op0(), key);
        if thrown.Some? {
          Status := Error(thrown.value);
          return;
        }
      }
      Advance(2);
    }

    /** Executes the instruction at IP; an exception on the way ends the
        step with the Error status, keeping what was done before it. */
    method Step()
      requires Valid()
      modifies this, Memory, Registers
      ensures Valid() && State() == Vm.Step(old(State()))
    {
      Status := Okay;
      if IP >= MaxValue {
        Status := Error(BadAddress(IP));
        return;
      }
      var instruction := Memory[IP];
      assert Vm.Step(old(State())) == Vm.Execute(State(), instruction);
      match instruction {
        case 0 =>
          Status := Halt;
        case 1 =>
          StoreOp0(DecodeOperand(Op1()), 3);
        case 2 => ExecuteStack(2);
        case 3 => ExecuteStack(3);
        case 4 => ExecuteBinary(Eq);
        case 5 => ExecuteBinary(Gt);
        case 6 =>
          var target := DecodeOperand(Op0());
          if target.Err? {
            Status := Error(target.fault);
            return;
          }
          IP := target.value;
        case 7 => ExecuteConditionalJump(false);
        case 8 => ExecuteConditionalJump(true);
        case 9 => ExecuteBinary(Add);
        case 10 => ExecuteBinary(Mul);
        case 11 => ExecuteBinary(Mod);
        case 12 => ExecuteBinary(And);
        case 13 => ExecuteBinary(Or);
        case 14 =>
          var b := DecodeOperand(Op1());
          if b.Err? {
            Status := Error(b.fault);
            return;
          }
          StoreOp0(Ok(Not15(b.value)), 3);
        case 15 => ExecuteMemory(15);
        case 16 => ExecuteMemory(16);
        case 17 => ExecuteStack(17);
        case 18 => ExecuteStack(18);
        case 19 => ExecutePorts(19);
        case 20 => ExecutePorts(20);
        case 21 =>
          Advance(1);
        case _ =>
          Status := Error(UnknownOpcode(instruction));
      }
    }
  }

  /** The session the commented-out image in Program.cs sets up: the image is
      loaded, an Output delegate attached, and three steps give r0 = 4, the
      character code 4 on the output and then Halt. */
  method ExampleSession() returns (e: Emulator)
    ensures e.Valid() && e.Registers[0] == 4 && e.Output == Some([4])
    ensures e.Status == Halt && e.IP == 6
  {
    e := new Emulator();
    e.LoadMemory(MachineProperties.ExampleImage);
    e.Output := Some([]);
    ghost var start := e.State();
    assert start == MachineProperties.ExampleMachine();
    e.Step();
    assert e.State() == Steps(start, 1);
    e.Step();
    assert e.State() == Steps(start, 2);
    e.Step();
    assert e.State() == Steps(start, 3);
    MachineProperties.ExampleRun();
    assert e.Registers[0] == e.State().registers[0];
  }
}
