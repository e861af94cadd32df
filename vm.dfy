// The bytecode virtual machine: eight 32-bit registers, a program counter,
// a flags word, 256 words of memory, a 32-entry call stack, and a 32-slot
// handler table that is shuffled every 100 instructions.
//
// The first half of this module is the machine as values (VmMachine, Handle,
// Step, Loop); the second half is the engine as objects over arrays, whose
// methods are proved to follow the value semantics.
module Vm {
  import opened W = Word
  import Primitives
  import Bits
  import opened Options

  // ---------------------------------------------------------------------
  // Instructions and handler tags
  // ---------------------------------------------------------------------

  datatype Opcode =
    | Add | Sub | Mul | Div | Xor | And | Or | Not | Shl | Shr
    | Load | Store | LoadImm | Jump | JumpIfZero | JumpIfNotZero
    | Call | Ret | MangleKey | JunkOp | Nop

  /** The enumerator value of an opcode (VMOpcode is a uint8_t enum counting from 0). */
  function Code(op: Opcode): (r: nat)
    ensures r < 21
  {
    match op
    case Add => 0 case Sub => 1 case Mul => 2 case Div => 3 case Xor => 4
    case And => 5 case Or => 6 case Not => 7 case Shl => 8 case Shr => 9
    case Load => 10 case Store => 11 case LoadImm => 12 case Jump => 13
    case JumpIfZero => 14 case JumpIfNotZero => 15 case Call => 16
    case Ret => 17 case MangleKey => 18 case JunkOp => 19 case Nop => 20
  }

  /** The opcode an enumerator value names. */
  function OpcodeOf(k: nat): (op: Opcode)
    requires k < 21
    ensures Code(op) == k
  {
    [Add, Sub, Mul, Div, Xor, And, Or, Not, Shl, Shr, Load, Store, LoadImm,
     Jump, JumpIfZero, JumpIfNotZero, Call, Ret, MangleKey, JunkOp, Nop][k]
  }

  /** VMInstruction: the opcode byte as stored, three register bytes and an immediate. */
  datatype Instruction = Instruction(opcode: Byte, dest: Byte, src1: Byte, src2: Byte, immediate: Word)

  /** A handler-table slot: empty, or holding the handler registered for some opcode. */
  datatype Slot = Empty | Handler(op: Opcode)

  const TableSize: nat := 32

  /** The table after initialize_handlers: slot k holds opcode k's handler, slots 21-31 are empty. */
  function InitialTable(): (t: seq<Slot>)
    ensures |t| == TableSize
    ensures forall k :: 0 <= k < 21 ==> t[k] == Handler(OpcodeOf(k))
    ensures forall k :: 21 <= k < TableSize ==> t[k] == Empty
  {
    seq(TableSize, k requires 0 <= k < TableSize => if k < 21 then Handler(OpcodeOf(k)) else Empty)
  }

  // ---------------------------------------------------------------------
  // The machine state as a value
  // ---------------------------------------------------------------------

  /** VMState as a value; `seed` is the current bit pattern of the referenced global seed. */
  datatype VmMachine = VmMachine(
    regs: seq<Word>, pc: Word, flags: Word, memory: seq<Word>,
    stack: seq<Word>, sp: Word, seed: Word)

  ghost predicate WellFormed(m: VmMachine)
  {
    |m.regs| == 8 && |m.memory| == 256 && |m.stack| == 32 && m.sp <= 32
  }

  /** The VMState constructor: everything zero. */
  function InitialMachine(seed: Word): (m: VmMachine)
    ensures WellFormed(m) && m.pc == 0 && m.flags == 0 && m.sp == 0 && m.seed == seed
    ensures forall k :: 0 <= k < 8 ==> m.regs[k] == 0
    ensures forall k :: 0 <= k < 256 ==> m.memory[k] == 0
  {
    VmMachine(seq(8, _ => 0), 0, 0, seq(256, _ => 0), seq(32, _ => 0), 0, seed)
  }

  predicate ValidRegister(r: Byte) { r < 8 }

  predicate ValidMemory(a: Word) { a < 256 }

  /** Write an arithmetic result and set flags to 1 exactly when it is zero. */
  function SetResult(m: VmMachine, d: Byte, v: Word): (r: VmMachine)
    requires WellFormed(m) && ValidRegister(d)
    ensures WellFormed(r) && r.seed == m.seed
  {
    m.(regs := m.regs[d := v], flags := if v == 0 then 1 else 0)
  }

  /** The binary operations whose handlers always write a result. */
  predicate IsPlainBinary(h: Opcode)
  {
    h == Add || h == Sub || h == Mul || h == Xor || h == And || h == Or
  }

  function BinaryOp(h: Opcode, a: Word, b: Word): Word
    requires IsPlainBinary(h)
  {
    match h
    case Add => W.Add(a, b)
    case Sub => W.Sub(a, b)
    case Mul => W.Mul(a, b)
    case Xor => BitXor(a, b)
    case And => BitAnd(a, b)
    case Or => BitOr(a, b)
  }

  predicate IsArithmetic(h: Opcode)
  {
    IsPlainBinary(h) || h == Div || h == Not || h == Shl || h == Shr
  }

  predicate ThreeValid(i: Instruction)
  {
    ValidRegister(i.dest) && ValidRegister(i.src1) && ValidRegister(i.src2)
  }

  /** The arithmetic handlers; None stands for a shift by 32 or more, which C++ leaves undefined. */
  function HandleArithmetic(h: Opcode, m: VmMachine, i: Instruction): (r: Option<VmMachine>)
    requires WellFormed(m) && IsArithmetic(h)
    ensures r.Some? ==> WellFormed(r.value) && r.value.seed == m.seed
    ensures r.None? <==> (h == Shl || h == Shr) && ThreeValid(i) && m.regs[i.src2] >= 32
  {
    match h
    case Add | Sub | Mul | Xor | And | Or =>
      if ThreeValid(i) then Some(SetResult(m, i.dest, BinaryOp(h, m.regs[i.src1], m.regs[i.src2]))) else Some(m)
    case Div =>
      if ThreeValid(i) && m.regs[i.src2] != 0 then Some(SetResult(m, i.dest, m.regs[i.src1] / m.regs[i.src2]))
      else Some(m)
    case Not =>
      if ValidRegister(i.dest) && ValidRegister(i.src1) then Some(SetResult(m, i.dest, BitNot(m.regs[i.src1])))
      else Some(m)
    case Shl => Shift(h, m, i)
    case Shr => Shift(h, m, i)
  }

  /** SHL and SHR: a count of 32 or more is undefined in C++ and stops the model. */
  function Shift(h: Opcode, m: VmMachine, i: Instruction): (r: Option<VmMachine>)
    requires WellFormed(m) && (h == Shl || h == Shr)
    ensures r.Some? ==> WellFormed(r.value) && r.value.seed == m.seed
    ensures r.None? <==> ThreeValid(i) && m.regs[i.src2] >= 32
  {
    if !ThreeValid(i) then Some(m)
    else
      var count := m.regs[i.src2];
      if count >= 32 then None
      else
        var v := if h == Shl then W.Shl(m.regs[i.src1], count) else W.Shr(m.regs[i.src1], count);
        Some(SetResult(m, i.dest, v))
  }

  /** LOAD, STORE, LOAD_IMM and MANGLE_KEY: register and memory moves without flags. */
  function HandleData(h: Opcode, m: VmMachine, i: Instruction): (r: VmMachine)
    requires WellFormed(m) && (h == Load || h == Store || h == LoadImm || h == MangleKey)
    ensures WellFormed(r) && r.seed == m.seed
  {
    var two := ValidRegister(i.dest) && ValidRegister(i.src1);
    match h
    case Load =>
      if two && ValidMemory(m.regs[i.src1]) then m.(regs := m.regs[i.dest := m.memory[m.regs[i.src1]]]) else m
    case Store =>
      if two && ValidMemory(m.regs[i.dest]) then m.(memory := m.memory[m.regs[i.dest] := m.regs[i.src1]]) else m
    case LoadImm =>
      if ValidRegister(i.dest) then m.(regs := m.regs[i.dest := i.immediate]) else m
    case MangleKey =>
      if two then m.(regs := m.regs[i.dest := Primitives.MixSeed(m.regs[i.src1], m.seed)]) else m
  }

  predicate IsTransfer(h: Opcode)
  {
    h == Jump || h == JumpIfZero || h == JumpIfNotZero || h == Call || h == Ret
  }

  /** JUMP, JUMP_IF_ZERO, JUMP_IF_NOT_ZERO, CALL and RET. */
  function HandleTransfer(h: Opcode, m: VmMachine, i: Instruction): (r: VmMachine)
    requires WellFormed(m) && IsTransfer(h)
    ensures WellFormed(r) && r.seed == m.seed
  {
    match h
    case Jump =>
      m.(pc := i.immediate)
    case JumpIfZero =>
      if !ValidRegister(i.src1) then m
      else if m.regs[i.src1] == 0 then m.(pc := i.immediate)
      else m.(pc := W.Add(m.pc, 1))
    case JumpIfNotZero =>
      if !ValidRegister(i.src1) then m
      else if m.regs[i.src1] != 0 then m.(pc := i.immediate)
      else m.(pc := W.Add(m.pc, 1))
    case Call =>
      if m.sp < 32 then m.(stack := m.stack[m.sp := W.Add(m.pc, 1)], sp := m.sp + 1, pc := i.immediate) else m
    case Ret =>
      if m.sp > 0 then m.(sp := m.sp - 1, pc := m.stack[m.sp - 1]) else m
  }

  /** The handler registered for `h`, run on machine `m`; JUNK_OP and NOP change nothing. */
  function Handle(h: Opcode, m: VmMachine, i: Instruction): (r: Option<VmMachine>)
    requires WellFormed(m)
    ensures r.Some? ==> WellFormed(r.value) && r.value.seed == m.seed
    ensures r.None? <==> (h == Shl || h == Shr) && ThreeValid(i) && m.regs[i.src2] >= 32
  {
    if IsArithmetic(h) then HandleArithmetic(h, m, i)
    else if IsTransfer(h) then Some(HandleTransfer(h, m, i))
    else if h == JunkOp || h == Nop then Some(m)
    else Some(HandleData(h, m, i))
  }

  // ---------------------------------------------------------------------
  // The engine as a value: the machine, the handler table, the counter
  // ---------------------------------------------------------------------

  datatype Engine = Engine(m: VmMachine, table: seq<Slot>, counter: Word)

  ghost predicate EngineWellFormed(e: Engine)
  {
    WellFormed(e.m) && |e.table| == TableSize
  }

  /** Why execute stopped. */
  datatype Status =
    | Completed        // pc ran off the end of the bytecode
    | InvalidBytecode  // null or empty bytecode (VM_EXECUTION_ERROR)
    | InvalidRegister  // a register index of 8 or more (VM_INVALID_REGISTER)
    | InvalidOpcode    // an opcode of 32 or more, or an empty slot (VM_INVALID_OPCODE)
    | UndefinedShift   // SHL or SHR by 32 or more
    | OutOfFuel        // the step bound of the model was reached

  /** Opcodes after which execute does not advance pc. */
  predicate IsControl(opcode: Byte)
  {
    opcode == Code(Jump) || opcode == Code(JumpIfZero) || opcode == Code(JumpIfNotZero)
    || opcode == Code(Call) || opcode == Code(Ret)
  }

  /** One LCG step of mutate_handlers, in 32 bits. */
  function LcgStep(s: Word): Word
  {
    W.Add(W.Mul(s, 1103515245), 12345)
  }

  /** A table index drawn from an LCG state: (seed >> 16) % 32. */
  function SlotIndex(s: Word): (r: nat)
    ensures r < TableSize
  {
    W.Shr(s, 16) % TableSize
  }

  /** Swap two slots when both hold a handler. */
  function SwapIfOccupied(t: seq<Slot>, i: nat, j: nat): (r: seq<Slot>)
    requires i < |t| && j < |t|
    ensures |r| == |t|
  {
    if t[i].Handler? && t[j].Handler? then t[i := t[j]][j := t[i]] else t
  }

  /** The table after `rounds` rounds of mutate_handlers' loop, starting from LCG state `s`. */
  function MutateRounds(t: seq<Slot>, s: Word, rounds: nat): (r: seq<Slot>)
    requires |t| == TableSize
    ensures |r| == TableSize
    decreases rounds
  {
    if rounds == 0 then t
    else
      var s1 := LcgStep(s);
      var s2 := LcgStep(s1);
      MutateRounds(SwapIfOccupied(t, SlotIndex(s1), SlotIndex(s2)), s2, rounds - 1)
  }

  lemma MutateRoundsUnfold(t: seq<Slot>, s: Word, rounds: nat)
    requires |t| == TableSize && rounds > 0
    ensures MutateRounds(t, s, rounds) ==
      MutateRounds(SwapIfOccupied(t, SlotIndex(LcgStep(s)), SlotIndex(LcgStep(LcgStep(s)))), LcgStep(LcgStep(s)), rounds - 1)
  {
  }

  /** The LCG state after `rounds` rounds. */
  function MutateSeed(s: Word, rounds: nat): Word
    decreases rounds
  {
    if rounds == 0 then s else MutateSeed(LcgStep(LcgStep(s)), rounds - 1)
  }

  /** One step of execute's loop on instruction `inst`. */
  datatype StepResult = Continue(next: Engine) | Halt(status: Status)

  function Step(e: Engine, inst: Instruction): (r: StepResult)
    requires EngineWellFormed(e)
    ensures r.Continue? ==> EngineWellFormed(r.next)
  {
    if !ThreeValid(inst) then Halt(InvalidRegister)
    else if inst.opcode >= TableSize || e.table[inst.opcode].Empty? then Halt(InvalidOpcode)
    else
      match Handle(e.table[inst.opcode].op, e.m, inst)
      case None => Halt(UndefinedShift)
      case Some(m1) =>
        var m2 := if IsControl(inst.opcode) then m1 else m1.(pc := W.Add(m1.pc, 1));
        var c := W.Add(e.counter, 1);
        if c % 100 == 0 then
          Continue(Engine(m2.(seed := Primitives.SeedToggle(m2.seed)), MutateRounds(e.table, m2.seed, 5), c))
        else
          Continue(Engine(m2, e.table, c))
  }

  /**
   * The part of Step after a handler gave m: pc advances unless the opcode
   * transfers control, the counter goes up, and every 100th iteration
   * mutates the table and toggles the seed.
   */
  function Advanced(e: Engine, control: bool): (r: Engine)
    requires EngineWellFormed(e)
    ensures EngineWellFormed(r)
  {
    var m2 := if control then e.m else e.m.(pc := W.Add(e.m.pc, 1));
    var c := W.Add(e.counter, 1);
    if c % 100 == 0 then Engine(m2.(seed := Primitives.SeedToggle(m2.seed)), MutateRounds(e.table, m2.seed, 5), c)
    else Engine(m2, e.table, c)
  }

  lemma StepContinues(e: Engine, inst: Instruction, m1: VmMachine)
    requires EngineWellFormed(e) && ThreeValid(inst) && inst.opcode < TableSize && e.table[inst.opcode].Handler?
    requires Handle(e.table[inst.opcode].op, e.m, inst) == Some(m1)
    ensures WellFormed(m1)
    ensures Step(e, inst) == Continue(Advanced(Engine(m1, e.table, e.counter), IsControl(inst.opcode)))
  {
  }

  /** execute's while loop, cut after `fuel` iterations. */
  function Loop(e: Engine, code: seq<Instruction>, fuel: nat): (r: (Engine, Status))
    requires EngineWellFormed(e)
    ensures EngineWellFormed(r.0)
    decreases fuel, 2
  {
    if e.m.pc >= |code| then (e, Completed)
    else if fuel == 0 then (e, OutOfFuel)
    else Iterate(e, code, fuel)
  }

  /** One iteration of the loop on the instruction at pc, followed by the rest of the loop. */
  function Iterate(e: Engine, code: seq<Instruction>, fuel: nat): (r: (Engine, Status))
    requires EngineWellFormed(e) && e.m.pc < |code| && fuel > 0
    ensures EngineWellFormed(r.0)
    decreases fuel, 1
  {
    Proceed(e, code, fuel, code[e.m.pc])
  }

  /** The dispatch part of an iteration: halt with the engine as it was, or go on with the next engine. */
  function Proceed(e: Engine, code: seq<Instruction>, fuel: nat, inst: Instruction): (r: (Engine, Status))
    requires EngineWellFormed(e) && fuel > 0
    ensures EngineWellFormed(r.0)
    decreases fuel, 0
  {
    match Step(e, inst)
    case Halt(s) => (e, s)
    case Continue(e2) => Loop(e2, code, fuel - 1)
  }

  /** The loop stops without a step once pc is past the end or the fuel is spent. */
  lemma LoopStops(e: Engine, code: seq<Instruction>, fuel: nat)
    requires EngineWellFormed(e) && (e.m.pc >= |code| || fuel == 0)
    ensures Loop(e, code, fuel) == (e, if e.m.pc >= |code| then Completed else OutOfFuel)
  {
  }

  /** execute(bytecode, length), with null or empty bytecode both the empty sequence. */
  function Executed(e: Engine, code: seq<Instruction>, fuel: nat): (r: (Engine, Status))
    requires EngineWellFormed(e)
    ensures EngineWellFormed(r.0)
  {
    if |code| == 0 then (e, InvalidBytecode)
    else Loop(e.(m := e.m.(pc := 0)), code, fuel)
  }

  // ---------------------------------------------------------------------
  // Properties of the value semantics
  // ---------------------------------------------------------------------

  /** Every register other than `d` keeps its value. */
  ghost predicate OthersKept(m: VmMachine, r: VmMachine, d: Byte)
    requires WellFormed(m) && WellFormed(r)
  {
    forall k :: 0 <= k < 8 && k != d ==> r.regs[k] == m.regs[k]
  }

  /** Memory, stack, stack pointer, pc and seed are as they were. */
  ghost predicate RestKept(m: VmMachine, r: VmMachine)
  {
    r.memory == m.memory && r.stack == m.stack && r.sp == m.sp && r.pc == m.pc && r.seed == m.seed
  }

  /**
   * ADD, SUB, MUL, XOR, AND and OR with valid registers write the operation
   * modulo 2^32 into dest and set flags to 1 exactly when it is zero; nothing
   * else changes.
   */
  lemma ArithmeticEffect(h: Opcode, m: VmMachine, i: Instruction)
    requires WellFormed(m) && IsPlainBinary(h) && ThreeValid(i)
    ensures Handle(h, m, i).Some?
    ensures var r := Handle(h, m, i).value;
      var a: int, b: int := m.regs[i.src1], m.regs[i.src2];
      && (h == Add ==> r.regs[i.dest] == (a + b) % 0x1_0000_0000)
      && (h == Sub ==> r.regs[i.dest] == (a - b) % 0x1_0000_0000)
      && (h == Mul ==> r.regs[i.dest] == (a * b) % 0x1_0000_0000)
      && (h == Xor ==> r.regs[i.dest] == BitXor(a, b))
      && (h == And ==> r.regs[i.dest] == BitAnd(a, b))
      && (h == Or ==> r.regs[i.dest] == BitOr(a, b))
      && r.flags == (if r.regs[i.dest] == 0 then 1 else 0)
      && OthersKept(m, r, i.dest) && RestKept(m, r)
  {
  }

  /** NOT writes the complement of src1 into dest and sets flags; src2 is not checked. */
  lemma NotEffect(m: VmMachine, i: Instruction)
    requires WellFormed(m) && ValidRegister(i.dest) && ValidRegister(i.src1)
    ensures Handle(Not, m, i).Some?
    ensures var r := Handle(Not, m, i).value;
      && r.regs[i.dest] == 0xFFFF_FFFF - m.regs[i.src1]
      && r.flags == (if r.regs[i.dest] == 0 then 1 else 0)
      && OthersKept(m, r, i.dest) && RestKept(m, r)
  {
    BitNotValue(m.regs[i.src1]);
  }

  /** DIV writes the unsigned quotient; a zero divisor leaves the whole machine as it was. */
  lemma DivEffect(m: VmMachine, i: Instruction)
    requires WellFormed(m) && ThreeValid(i)
    ensures Handle(Div, m, i).Some?
    ensures m.regs[i.src2] == 0 ==> Handle(Div, m, i).value == m
    ensures m.regs[i.src2] != 0 ==>
      var r := Handle(Div, m, i).value;
      && r.regs[i.dest] == m.regs[i.src1] / m.regs[i.src2]
      && r.flags == (if r.regs[i.dest] == 0 then 1 else 0)
      && OthersKept(m, r, i.dest) && RestKept(m, r)
  {
  }

  /** SHL and SHR by less than 32 shift modulo 2^32; by 32 or more the model has no result. */
  lemma ShiftEffect(h: Opcode, m: VmMachine, i: Instruction)
    requires WellFormed(m) && (h == Shl || h == Shr) && ThreeValid(i)
    ensures Handle(h, m, i).Some? <==> m.regs[i.src2] < 32
    ensures m.regs[i.src2] < 32 ==>
      var r := Handle(h, m, i).value;
      var a, b := m.regs[i.src1], m.regs[i.src2];
      && r.regs[i.dest] == (if h == Shl then (a * Bits.Pow2(b)) % 0x1_0000_0000 else a / Bits.Pow2(b))
      && r.flags == (if r.regs[i.dest] == 0 then 1 else 0)
      && OthersKept(m, r, i.dest) && RestKept(m, r)
  {
  }

  /**
   * LOAD and STORE: an address of 256 or more changes nothing; otherwise LOAD
   * changes only reg[dest] and STORE only memory[reg[dest]], and neither
   * touches flags.
   */
  lemma LoadStoreEffect(m: VmMachine, i: Instruction)
    requires WellFormed(m) && ValidRegister(i.dest) && ValidRegister(i.src1)
    ensures !ValidMemory(m.regs[i.src1]) ==> HandleData(Load, m, i) == m
    ensures !ValidMemory(m.regs[i.dest]) ==> HandleData(Store, m, i) == m
    ensures ValidMemory(m.regs[i.src1]) ==>
      HandleData(Load, m, i) == m.(regs := m.regs[i.dest := m.memory[m.regs[i.src1]]])
    ensures ValidMemory(m.regs[i.dest]) ==>
      HandleData(Store, m, i) == m.(memory := m.memory[m.regs[i.dest] := m.regs[i.src1]])
  {
  }

  /** A LOAD through the address a STORE used reads back the stored word. */
  lemma StoreThenLoad(m: VmMachine, st: Instruction, ld: Instruction)
    requires WellFormed(m) && ValidRegister(st.dest) && ValidRegister(st.src1)
    requires ValidRegister(ld.dest) && ld.src1 == st.dest && ValidMemory(m.regs[st.dest])
    ensures HandleData(Load, HandleData(Store, m, st), ld).regs[ld.dest] == m.regs[st.src1]
  {
  }

  /** JZ and JNZ go to the immediate or to pc+1 according to reg[src1]. */
  lemma ConditionalJumpEffect(m: VmMachine, i: Instruction)
    requires WellFormed(m) && ValidRegister(i.src1)
    ensures HandleTransfer(JumpIfZero, m, i) ==
      m.(pc := if m.regs[i.src1] == 0 then i.immediate else W.Add(m.pc, 1))
    ensures HandleTransfer(JumpIfNotZero, m, i) ==
      m.(pc := if m.regs[i.src1] != 0 then i.immediate else W.Add(m.pc, 1))
  {
  }

  /** CALL followed by RET resumes at the CALL's pc+1 with the stack as before. */
  lemma CallThenRet(m: VmMachine, call: Instruction, ret: Instruction)
    requires WellFormed(m) && m.sp < 32
    ensures var r := HandleTransfer(Ret, HandleTransfer(Call, m, call), ret);
      && r.pc == W.Add(m.pc, 1) && r.sp == m.sp
      && r.stack[..m.sp] == m.stack[..m.sp]
      && r.regs == m.regs && r.memory == m.memory && r.flags == m.flags
  {
  }

  /** CALL on a full stack and RET on an empty one change nothing, pc included. */
  lemma StackLimits(m: VmMachine, i: Instruction)
    requires WellFormed(m)
    ensures m.sp == 32 ==> HandleTransfer(Call, m, i) == m
    ensures m.sp == 0 ==> HandleTransfer(Ret, m, i) == m
  {
  }

  /**
   * An instruction whose opcode is not a control transfer and whose slot holds
   * a handler other than JUMP/JZ/JNZ/CALL/RET advances pc by exactly 1; a
   * control opcode whose handler does not change pc re-fetches itself.
   */
  lemma StepPc(e: Engine, inst: Instruction)
    requires EngineWellFormed(e) && Step(e, inst).Continue?
    ensures inst.opcode < TableSize && e.table[inst.opcode].Handler?
    ensures var h := e.table[inst.opcode].op;
      !IsTransfer(h) ==>
        Step(e, inst).next.m.pc == if IsControl(inst.opcode) then e.m.pc else W.Add(e.m.pc, 1)
  {
    var h := e.table[inst.opcode].op;
    if !IsTransfer(h) {
      assert Handle(h, e.m, inst).value.pc == e.m.pc;
    }
  }

  /** The defect that makes execute stop at `inst` with status `st`, stated without running the step. */
  ghost predicate Faulty(e: Engine, inst: Instruction, st: Status)
    requires EngineWellFormed(e)
  {
    match st
    case InvalidRegister => !ThreeValid(inst)
    case InvalidOpcode => ThreeValid(inst) && (inst.opcode >= TableSize || e.table[inst.opcode].Empty?)
    case UndefinedShift =>
      && ThreeValid(inst) && inst.opcode < TableSize && e.table[inst.opcode].Handler?
      && (e.table[inst.opcode].op == Shl || e.table[inst.opcode].op == Shr)
      && e.m.regs[inst.src2] >= 32
    case _ => false
  }

  /** A step halts with a status exactly when the instruction has that status's defect. */
  lemma StepHalts(e: Engine, inst: Instruction, st: Status)
    requires EngineWellFormed(e)
    ensures Step(e, inst) == Halt(st) <==> Faulty(e, inst, st)
  {
  }

  /** Both slots keep whether they are occupied, and the multiset of tags is unchanged. */
  ghost predicate SameOccupancy(t: seq<Slot>, u: seq<Slot>)
  {
    |t| == |u| && forall k :: 0 <= k < |t| ==> (t[k].Handler? <==> u[k].Handler?)
  }

  ghost predicate Shuffled(t: seq<Slot>, u: seq<Slot>)
  {
    SameOccupancy(t, u) && multiset(t) == multiset(u)
  }

  lemma ShuffledTrans(t: seq<Slot>, u: seq<Slot>, v: seq<Slot>)
    requires Shuffled(t, u) && Shuffled(u, v)
    ensures Shuffled(t, v)
  {
  }

  lemma SwapShuffles(t: seq<Slot>, i: nat, j: nat)
    requires i < |t| && j < |t|
    ensures Shuffled(t, SwapIfOccupied(t, i, j))
  {
    if t[i].Handler? && t[j].Handler? {
      var u := t[i := t[j]][j := t[i]];
      assert multiset(u) == multiset(t);
    }
  }

  /** mutate_handlers permutes the tags and keeps the set of occupied slots. */
  lemma {:induction false} MutateShuffles(t: seq<Slot>, s: Word, rounds: nat)
    requires |t| == TableSize
    ensures Shuffled(t, MutateRounds(t, s, rounds))
    decreases rounds
  {
    if rounds > 0 {
      var s1 := LcgStep(s);
      var s2 := LcgStep(s1);
      var u := SwapIfOccupied(t, SlotIndex(s1), SlotIndex(s2));
      SwapShuffles(t, SlotIndex(s1), SlotIndex(s2));
      MutateShuffles(u, s2, rounds - 1);
      ShuffledTrans(t, u, MutateRounds(t, s, rounds));
    }
  }

  /**
   * A step counts one instruction; it mutates the table and toggles the seed
   * exactly when the new count is a multiple of 100.
   */
  lemma StepCounts(e: Engine, inst: Instruction)
    requires EngineWellFormed(e) && Step(e, inst).Continue?
    ensures var n := Step(e, inst).next;
      && n.counter == W.Add(e.counter, 1)
      && (n.counter % 100 == 0 ==>
            n.table == MutateRounds(e.table, e.m.seed, 5) && n.m.seed == Primitives.SeedToggle(e.m.seed))
      && (n.counter % 100 != 0 ==> n.table == e.table && n.m.seed == e.m.seed)
  {
  }

  /** The table after a step is a shuffle of the table before it. */
  lemma StepShuffles(e: Engine, inst: Instruction)
    requires EngineWellFormed(e) && Step(e, inst).Continue?
    ensures Shuffled(e.table, Step(e, inst).next.table)
  {
    StepCounts(e, inst);
    if Step(e, inst).next.counter % 100 == 0 {
      MutateShuffles(e.table, e.m.seed, 5);
    }
  }

  /**
   * One iteration of the loop: either it halts on a faulty instruction and
   * the engine is the one reached before it, or the loop goes on from the
   * next engine, whose table is a shuffle of the current one.
   */
  lemma LoopUnfold(e: Engine, code: seq<Instruction>, fuel: nat) returns (next: Option<Engine>)
    requires EngineWellFormed(e) && e.m.pc < |code| && fuel > 0
    ensures next.None? ==> Loop(e, code, fuel).0 == e && Faulty(e, code[e.m.pc], Loop(e, code, fuel).1)
    ensures next.Some? ==>
      && EngineWellFormed(next.value) && Shuffled(e.table, next.value.table)
      && Loop(e, code, fuel) == Loop(next.value, code, fuel - 1)
  {
    var inst := code[e.m.pc];
    assert Loop(e, code, fuel) == Proceed(e, code, fuel, inst);
    match Step(e, inst)
    case Halt(st) =>
      next := None;
      StepHalts(e, inst, st);
    case Continue(e2) =>
      next := Some(e2);
      StepShuffles(e, inst);
  }

  /**
   * Where the loop stops: Completed exactly when pc is past the end of the
   * bytecode, and a halting status at an instruction with that status's
   * defect, the engine being the one reached before it.
   */
  lemma {:induction false} LoopOutcome(e: Engine, code: seq<Instruction>, fuel: nat)
    requires EngineWellFormed(e)
    ensures var (f, st) := Loop(e, code, fuel);
      && (st == Completed <==> f.m.pc >= |code|)
      && (st == OutOfFuel ==> f.m.pc < |code|)
      && (st in {InvalidRegister, InvalidOpcode, UndefinedShift} ==> f.m.pc < |code| && Faulty(f, code[f.m.pc], st))
      && st != InvalidBytecode
    decreases fuel
  {
    if e.m.pc < |code| && fuel > 0 {
      var next := LoopUnfold(e, code, fuel);
      if next.Some? {
        LoopOutcome(next.value, code, fuel - 1);
      }
    }
  }

  /** The handler table the loop leaves is a shuffle of the one it started with. */
  lemma {:induction false} LoopShuffles(e: Engine, code: seq<Instruction>, fuel: nat)
    requires EngineWellFormed(e)
    ensures Shuffled(e.table, Loop(e, code, fuel).0.table)
    decreases fuel
  {
    if e.m.pc < |code| && fuel > 0 {
      var next := LoopUnfold(e, code, fuel);
      if next.Some? {
        LoopShuffles(next.value, code, fuel - 1);
        ShuffledTrans(e.table, next.value.table, Loop(e, code, fuel).0.table);
      }
    }
  }

  /** Null or empty bytecode is reported and nothing else happens; otherwise the loop starts at pc 0. */
  lemma ExecutedOutcome(e: Engine, code: seq<Instruction>, fuel: nat)
    requires EngineWellFormed(e)
    ensures Executed(e, code, fuel).1 == InvalidBytecode <==> |code| == 0
    ensures |code| == 0 ==> Executed(e, code, fuel).0 == e
    ensures Shuffled(e.table, Executed(e, code, fuel).0.table)
  {
    if |code| > 0 {
      LoopOutcome(e.(m := e.m.(pc := 0)), code, fuel);
      LoopShuffles(e.(m := e.m.(pc := 0)), code, fuel);
    }
  }

  /**
   * An ordinary iteration: valid registers, an occupied slot, a handler that
   * gives a result, an opcode that is not a control transfer and a count that
   * is no multiple of 100. The loop goes on with pc advanced by 1 and the
   * table unchanged.
   */
  ghost predicate Ordinary(e: Engine, code: seq<Instruction>, h: Opcode, m1: VmMachine)
  {
    EngineWellFormed(e) && e.m.pc < |code| &&
    ThreeValid(code[e.m.pc]) && code[e.m.pc].opcode < TableSize && !IsControl(code[e.m.pc].opcode) &&
    e.table[code[e.m.pc].opcode] == Handler(h) && Handle(h, e.m, code[e.m.pc]) == Some(m1) &&
    W.Add(e.counter, 1) % 100 != 0
  }

  lemma LoopOrdinary(e: Engine, code: seq<Instruction>, fuel: nat, h: Opcode, m1: VmMachine)
    requires Ordinary(e, code, h, m1) && fuel > 0
    ensures EngineWellFormed(Engine(m1.(pc := W.Add(m1.pc, 1)), e.table, W.Add(e.counter, 1)))
    ensures Loop(e, code, fuel) == Loop(Engine(m1.(pc := W.Add(m1.pc, 1)), e.table, W.Add(e.counter, 1)), code, fuel - 1)
  {
    assert Loop(e, code, fuel) == Proceed(e, code, fuel, code[e.m.pc]);
  }

  /** The cleanup program of execute_epilogue, which loads x = 0x12345678 into r0. */
  function CleanupCode(x: Word): seq<Instruction>
  {
    [ Instruction(Code(LoadImm), 0, 0, 0, x),
      Instruction(Code(Not), 1, 0, 0, 0),
      Instruction(Code(Xor), 2, 0, 1, 0),
      Instruction(Code(JunkOp), 0, 0, 0, 0),
      Instruction(Code(MangleKey), 3, 2, 0, 0) ]
  }

  /** The engine after the first k instructions of the cleanup program. */
  ghost predicate CleanupAt(e: Engine, seed: Word, x: Word, k: nat)
  {
    && EngineWellFormed(e) && e.table == InitialTable() && e.counter == k && e.m.pc == k && e.m.seed == seed
    && (k >= 1 ==> e.m.regs[0] == x)
    && (k >= 2 ==> e.m.regs[1] == BitNot(x))
    && (k >= 3 ==> e.m.regs[2] == 0xFFFF_FFFF)
    && (k >= 5 ==> e.m.regs[3] == Primitives.MixSeed(0xFFFF_FFFF, seed))
  }

  /** Instruction 0 of the cleanup program, LOAD_IMM r0, x: an ordinary iteration. */
  lemma Ready0(e: Engine, seed: Word, x: Word) returns (m1: VmMachine)
    requires CleanupAt(e, seed, x, 0)
    ensures Ordinary(e, CleanupCode(x), LoadImm, m1)
    ensures W.Add(m1.pc, 1) == 1 && W.Add(e.counter, 1) == 1
    ensures CleanupAt(Engine(m1.(pc := 1), e.table, 1), seed, x, 1)
  {
    m1 := e.m.(regs := e.m.regs[0 := x]);
    WrapWord(1);
  }

  lemma Cleanup0(e: Engine, seed: Word, x: Word) returns (e2: Engine)
    requires CleanupAt(e, seed, x, 0)
    ensures CleanupAt(e2, seed, x, 1)
    ensures Loop(e, CleanupCode(x), 5) == Loop(e2, CleanupCode(x), 4)
  {
    var m1 := Ready0(e, seed, x);
    LoopOrdinary(e, CleanupCode(x), 5, LoadImm, m1);
    e2 := Engine(m1.(pc := 1), e.table, 1);
  }

  /** Instruction 1 of the cleanup program, NOT r1, r0: an ordinary iteration. */
  lemma Ready1(e: Engine, seed: Word, x: Word) returns (m1: VmMachine)
    requires CleanupAt(e, seed, x, 1)
    ensures Ordinary(e, CleanupCode(x), Not, m1)
    ensures W.Add(m1.pc, 1) == 2 && W.Add(e.counter, 1) == 2
    ensures CleanupAt(Engine(m1.(pc := 2), e.table, 2), seed, x, 2)
  {
    var inst := CleanupCode(x)[1];
    m1 := SetResult(e.m, 1, BitNot(e.m.regs[0]));
    assert Handle(Not, e.m, inst) == Some(m1);
    WrapWord(2);
  }

  lemma Cleanup1(e: Engine, seed: Word, x: Word) returns (e2: Engine)
    requires CleanupAt(e, seed, x, 1)
    ensures CleanupAt(e2, seed, x, 2)
    ensures Loop(e, CleanupCode(x), 4) == Loop(e2, CleanupCode(x), 3)
  {
    var m1 := Ready1(e, seed, x);
    LoopOrdinary(e, CleanupCode(x), 4, Not, m1);
    e2 := Engine(m1.(pc := 2), e.table, 2);
  }

  /** Instruction 2 of the cleanup program, XOR r2, r0, r1: an ordinary iteration. */
  lemma Ready2(e: Engine, seed: Word, x: Word) returns (m1: VmMachine)
    requires CleanupAt(e, seed, x, 2)
    ensures Ordinary(e, CleanupCode(x), Xor, m1)
    ensures W.Add(m1.pc, 1) == 3 && W.Add(e.counter, 1) == 3
    ensures CleanupAt(Engine(m1.(pc := 3), e.table, 3), seed, x, 3)
  {
    BitXorNot(x);
    var inst := CleanupCode(x)[2];
    assert Handle(Xor, e.m, inst) == Some(SetResult(e.m, 2, BinaryOp(Xor, x, BitNot(x))));
    m1 := SetResult(e.m, 2, 0xFFFF_FFFF);
    WrapWord(3);
  }

  lemma Cleanup2(e: Engine, seed: Word, x: Word) returns (e2: Engine)
    requires CleanupAt(e, seed, x, 2)
    ensures CleanupAt(e2, seed, x, 3)
    ensures Loop(e, CleanupCode(x), 3) == Loop(e2, CleanupCode(x), 2)
  {
    var m1 := Ready2(e, seed, x);
    LoopOrdinary(e, CleanupCode(x), 3, Xor, m1);
    e2 := Engine(m1.(pc := 3), e.table, 3);
  }

  /** Instruction 3 of the cleanup program, JUNK_OP: an ordinary iteration. */
  lemma Ready3(e: Engine, seed: Word, x: Word) returns (m1: VmMachine)
    requires CleanupAt(e, seed, x, 3)
    ensures Ordinary(e, CleanupCode(x), JunkOp, m1)
    ensures W.Add(m1.pc, 1) == 4 && W.Add(e.counter, 1) == 4
    ensures CleanupAt(Engine(m1.(pc := 4), e.table, 4), seed, x, 4)
  {
    var inst := CleanupCode(x)[3];
    assert inst.opcode == 19 && ThreeValid(inst);
    assert Handle(JunkOp, e.m, inst) == Some(e.m);
    m1 := e.m;
    WrapWord(4);
  }

  lemma Cleanup3(e: Engine, seed: Word, x: Word) returns (e2: Engine)
    requires CleanupAt(e, seed, x, 3)
    ensures CleanupAt(e2, seed, x, 4)
    ensures Loop(e, CleanupCode(x), 2) == Loop(e2, CleanupCode(x), 1)
  {
    var m1 := Ready3(e, seed, x);
    LoopOrdinary(e, CleanupCode(x), 2, JunkOp, m1);
    e2 := Engine(m1.(pc := 4), e.table, 4);
  }

  /** Instruction 4 of the cleanup program, MANGLE_KEY r3, r2: an ordinary iteration. */
  lemma Ready4(e: Engine, seed: Word, x: Word) returns (m1: VmMachine)
    requires CleanupAt(e, seed, x, 4)
    ensures Ordinary(e, CleanupCode(x), MangleKey, m1)
    ensures W.Add(m1.pc, 1) == 5 && W.Add(e.counter, 1) == 5
    ensures CleanupAt(Engine(m1.(pc := 5), e.table, 5), seed, x, 5)
  {
    var inst := CleanupCode(x)[4];
    m1 := e.m.(regs := e.m.regs[3 := Primitives.MixSeed(e.m.regs[2], e.m.seed)]);
    assert HandleData(MangleKey, e.m, inst) == m1;
    assert Handle(MangleKey, e.m, inst) == Some(m1);
    WrapWord(5);
  }

  lemma Cleanup4(e: Engine, seed: Word, x: Word) returns (e2: Engine)
    requires CleanupAt(e, seed, x, 4)
    ensures CleanupAt(e2, seed, x, 5)
    ensures Loop(e, CleanupCode(x), 1) == Loop(e2, CleanupCode(x), 0)
  {
    var m1 := Ready4(e, seed, x);
    LoopOrdinary(e, CleanupCode(x), 1, MangleKey, m1);
    e2 := Engine(m1.(pc := 5), e.table, 5);
  }

  /**
   * On a fresh engine the cleanup program runs to the end whatever word it
   * loads: r1 is the complement of r0, so r2 = r0 ^ r1 has every bit set, and
   * r3 is r2 mixed with the global seed; the table is untouched.
   */
  lemma CleanupProgram(seed: Word, x: Word)
    ensures var (f, st) := Executed(Engine(InitialMachine(seed), InitialTable(), 0), CleanupCode(x), 5);
      && st == Completed && f.m.pc == 5 && f.table == InitialTable()
      && f.m.regs[0] == x && f.m.regs[1] == BitNot(x) && f.m.regs[2] == 0xFFFF_FFFF
      && f.m.regs[3] == Primitives.MixSeed(0xFFFF_FFFF, seed)
  {
    var e := Engine(InitialMachine(seed), InitialTable(), 0);
    assert e.(m := e.m.(pc := 0)) == e;
    var e1 := Cleanup0(e, seed, x);
    var e2 := Cleanup1(e1, seed, x);
    var e3 := Cleanup2(e2, seed, x);
    var e4 := Cleanup3(e3, seed, x);
    var e5 := Cleanup4(e4, seed, x);
    LoopStops(e5, CleanupCode(x), 0);
  }

  // ---------------------------------------------------------------------
  // VMState and VMEngine as objects
  // ---------------------------------------------------------------------

  class VMState {
    const registers: array<Word>
    var pc: Word
    var flags: Word
    /** The referenced global seed. */
    const globalSeed: Primitives.SeedCell
    const memory: array<Word>
    const callStack: array<Word>
    var stackPtr: Word

    ghost predicate Valid()
      reads this
    {
      registers.Length == 8 && memory.Length == 256 && callStack.Length == 32 && stackPtr <= 32
      && registers != memory && registers != callStack && memory != callStack
    }

    /** The state as a value. */
    function Snapshot(): VmMachine
      reads this, registers, memory, callStack, globalSeed
    {
      VmMachine(registers[..], pc, flags, memory[..], callStack[..], stackPtr, globalSeed.value)
    }

    constructor (seed: Primitives.SeedCell)
      ensures Valid() && globalSeed == seed
      ensures fresh(registers) && fresh(memory) && fresh(callStack)
      ensures Snapshot() == InitialMachine(seed.value)
    {
      registers := new Word[8](_ => 0);
      pc := 0;
      flags := 0;
      globalSeed := seed;
      memory := new Word[256](_ => 0);
      callStack := new Word[32](_ => 0);
      stackPtr := 0;
      new;
      assert registers[..] == seq(8, _ => 0);
      assert memory[..] == seq(256, _ => 0);
      assert callStack[..] == seq(32, _ => 0);
    }

    /** Calls the handler the table holds for `h`; false for an undefined shift. */
    method RunHandler(h: Opcode, i: Instruction) returns (defined: bool)
      requires Valid()
      modifies this, registers, memory, callStack
      ensures Valid()
      ensures defined == Handle(h, old(Snapshot()), i).Some?
      ensures defined ==> Snapshot() == Handle(h, old(Snapshot()), i).value
      ensures !defined ==> Snapshot() == old(Snapshot())
    {
      if IsArithmetic(h) {
        defined := RunArithmetic(h, i);
      } else if IsTransfer(h) {
        RunTransfer(h, i);
        defined := true;
      } else if h == JunkOp || h == Nop {
        defined := true;
      } else {
        RunData(h, i);
        defined := true;
      }
    }

    /** The ADD ... SHR handlers. */
    method RunArithmetic(h: Opcode, i: Instruction) returns (defined: bool)
      requires Valid() && IsArithmetic(h)
      modifies this, registers
      ensures Valid()
      ensures defined == HandleArithmetic(h, old(Snapshot()), i).Some?
      ensures defined ==> Snapshot() == HandleArithmetic(h, old(Snapshot()), i).value
      ensures !defined ==> Snapshot() == old(Snapshot())
    {
      defined := true;
      if h == Not {
        RunNot(i);
      } else if IsPlainBinary(h) {
        RunBinary(h, i);
      } else if h == Div {
        RunDiv(i);
      } else {
        defined := RunShift(h, i);
      }
    }

    /** NOT: dest and src1 must be valid registers. */
    method RunNot(i: Instruction)
      requires Valid()
      modifies this, registers
      ensures Valid()
      ensures Snapshot() == HandleArithmetic(Not, old(Snapshot()), i).value
    {
      if ValidRegister(i.dest) && ValidRegister(i.src1) {
        WriteResult(i.dest, BitNot(registers[i.src1]));
      }
    }

    /** ADD, SUB, MUL, XOR, AND and OR. */
    method RunBinary(h: Opcode, i: Instruction)
      requires Valid() && IsPlainBinary(h)
      modifies this, registers
      ensures Valid()
      ensures Snapshot() == HandleArithmetic(h, old(Snapshot()), i).value
    {
      if ThreeValid(i) {
        WriteResult(i.dest, BinaryOp(h, registers[i.src1], registers[i.src2]));
      }
    }

    /** DIV: a zero divisor leaves everything as it was. */
    method RunDiv(i: Instruction)
      requires Valid()
      modifies this, registers
      ensures Valid()
      ensures Snapshot() == HandleArithmetic(Div, old(Snapshot()), i).value
    {
      if ThreeValid(i) && registers[i.src2] != 0 {
        WriteResult(i.dest, registers[i.src1] / registers[i.src2]);
      }
    }

    /** SHL and SHR; false when the shift count is 32 or more. */
    method RunShift(h: Opcode, i: Instruction) returns (defined: bool)
      requires Valid() && (h == Shl || h == Shr)
      modifies this, registers
      ensures Valid()
      ensures defined == HandleArithmetic(h, old(Snapshot()), i).Some?
      ensures defined ==> Snapshot() == HandleArithmetic(h, old(Snapshot()), i).value
      ensures !defined ==> Snapshot() == old(Snapshot())
    {
      defined := true;
      if ThreeValid(i) {
        var a, b := registers[i.src1], registers[i.src2];
        if b < 32 {
          WriteResult(i.dest, if h == Shl then W.Shl(a, b) else W.Shr(a, b));
        } else {
          defined := false;
        }
      }
    }

    /** registers[d] = v; flags = (registers[d] == 0) ? 1 : 0. */
    method WriteResult(d: Byte, v: Word)
      requires Valid() && ValidRegister(d)
      modifies this, registers
      ensures Valid()
      ensures Snapshot() == SetResult(old(Snapshot()), d, v)
    {
      registers[d] := v;
      flags := if registers[d] == 0 then 1 else 0;
    }

    /** The LOAD, STORE, LOAD_IMM and MANGLE_KEY handlers. */
    method RunData(h: Opcode, i: Instruction)
      requires Valid() && (h == Load || h == Store || h == LoadImm || h == MangleKey)
      modifies registers, memory
      ensures Valid()
      ensures Snapshot() == HandleData(h, old(Snapshot()), i)
    {
      var two := ValidRegister(i.dest) && ValidRegister(i.src1);
      if h == Load {
        if two {
          var addr := registers[i.src1];
          if ValidMemory(addr) {
            registers[i.dest] := memory[addr];
          }
        }
      } else if h == Store {
        if two {
          var addr := registers[i.dest];
          if ValidMemory(addr) {
            memory[addr] := registers[i.src1];
          }
        }
      } else if h == LoadImm {
        if ValidRegister(i.dest) {
          registers[i.dest] := i.immediate;
        }
      } else {
        if two {
          registers[i.dest] := Primitives.MixSeed(registers[i.src1], globalSeed.value);
        }
      }
    }

    /** The JUMP, JUMP_IF_ZERO, JUMP_IF_NOT_ZERO, CALL and RET handlers. */
    method RunTransfer(h: Opcode, i: Instruction)
      requires Valid() && IsTransfer(h)
      modifies this, callStack
      ensures Valid()
      ensures Snapshot() == HandleTransfer(h, old(Snapshot()), i)
    {
      if h == Jump {
        pc := i.immediate;
      } else if h == JumpIfZero || h == JumpIfNotZero {
        if ValidRegister(i.src1) {
          if (registers[i.src1] == 0) == (h == JumpIfZero) {
            pc := i.immediate;
          } else {
            pc := W.Add(pc, 1);
          }
        }
      } else if h == Call {
        if stackPtr < 32 {
          callStack[stackPtr] := W.Add(pc, 1);
          stackPtr := stackPtr + 1;
          pc := i.immediate;
        }
      } else {
        if stackPtr > 0 {
          stackPtr := stackPtr - 1;
          pc := callStack[stackPtr];
        }
      }
    }
  }

  class VMEngine {
    const state: VMState
    const handlerTable: array<Slot>
    var mutationCounter: Word

    ghost predicate Valid()
      reads this, state
    {
      state.Valid() && handlerTable.Length == TableSize
    }

    /** The engine as a value. */
    function Snapshot(): Engine
      reads this, state, state.registers, state.memory, state.callStack, state.globalSeed, handlerTable
    {
      Engine(state.Snapshot(), handlerTable[..], mutationCounter)
    }

    /** The VMEngine constructor: a zeroed state, the registered handlers, a zero counter. */
    constructor (seedRef: Primitives.SeedCell)
      ensures Valid() && state.globalSeed == seedRef
      ensures fresh(state) && fresh(state.registers) && fresh(state.memory) && fresh(state.callStack)
      ensures fresh(handlerTable)
      ensures Snapshot() == Engine(InitialMachine(seedRef.value), InitialTable(), 0)
    {
      state := new VMState(seedRef);
      handlerTable := new Slot[TableSize](_ => Empty);
      mutationCounter := 0;
      new;
      InitializeHandlers();
    }

    /** initialize_handlers: each opcode's handler goes into the slot of its enumerator value. */
    method InitializeHandlers()
      requires handlerTable.Length == TableSize
      requires forall k :: 0 <= k < TableSize ==> handlerTable[k] == Empty
      modifies handlerTable
      ensures handlerTable[..] == InitialTable()
    {
      for k := 0 to 21
        invariant forall j :: 0 <= j < k ==> handlerTable[j] == Handler(OpcodeOf(j))
        invariant forall j :: k <= j < TableSize ==> handlerTable[j] == Empty
      {
        RegisterHandler(OpcodeOf(k), OpcodeOf(k));
      }
    }

    /** register_handler(op, handler): puts the handler into slot op when that slot exists. */
    method RegisterHandler(op: Opcode, handler: Opcode)
      requires handlerTable.Length == TableSize
      modifies handlerTable
      ensures handlerTable[..] == old(handlerTable[..])[Code(op) := Handler(handler)]
    {
      var index := Code(op);
      if index < handlerTable.Length {
        handlerTable[index] := Handler(handler);
      }
    }

    /** mutate_handlers: five LCG-chosen swaps of occupied slots, then one seed toggle. */
    method MutateHandlers()
      requires Valid()
      modifies handlerTable, state.globalSeed
      ensures handlerTable[..] == MutateRounds(old(handlerTable[..]), old(state.globalSeed.value), 5)
      ensures state.globalSeed.value == Primitives.SeedToggle(old(state.globalSeed.value))
    {
      var seed := state.globalSeed.value;
      ghost var target := MutateRounds(handlerTable[..], seed, 5);
      for i := 0 to 5
        modifies handlerTable
        invariant MutateRounds(handlerTable[..], seed, 5 - i) == target
      {
        ghost var t, s := handlerTable[..], seed;
        seed := MutateRound(seed);
        MutateRoundsUnfold(t, s, 5 - i);
      }
      Primitives.VolatileSeedUpdate(state.globalSeed);
    }

    /** One round of mutate_handlers' loop: two LCG steps, each choosing a slot, and a swap. */
    method MutateRound(seed: Word) returns (next: Word)
      requires handlerTable.Length == TableSize
      modifies handlerTable
      ensures next == LcgStep(LcgStep(seed))
      ensures handlerTable[..] == SwapIfOccupied(old(handlerTable[..]), SlotIndex(LcgStep(seed)), SlotIndex(next))
    {
      var s1 := LcgStep(seed);
      var idx1 := SlotIndex(s1);
      next := LcgStep(s1);
      var idx2 := SlotIndex(next);
      SwapSlots(idx1, idx2);
    }

    /** The swap in mutate_handlers' loop, done only when both slots hold a handler. */
    method SwapSlots(idx1: nat, idx2: nat)
      requires idx1 < handlerTable.Length && idx2 < handlerTable.Length
      modifies handlerTable
      ensures handlerTable[..] == SwapIfOccupied(old(handlerTable[..]), idx1, idx2)
    {
      if handlerTable[idx1].Handler? && handlerTable[idx2].Handler? {
        handlerTable[idx1], handlerTable[idx2] := handlerTable[idx2], handlerTable[idx1];
      }
    }

    /**
     * One iteration of execute's loop: validate, dispatch, advance pc unless
     * the opcode transfers control, count, and mutate every 100 instructions.
     */
    method ExecuteStep(code: seq<Instruction>, ghost fuel: nat) returns (halted: bool, status: Status)
      requires Valid() && state.pc < |code| && fuel > 0
      modifies this, state, state.registers, state.memory, state.callStack, state.globalSeed, handlerTable
      ensures Valid()
      ensures halted ==> Iterate(old(Snapshot()), code, fuel) == (Snapshot(), status)
      ensures !halted ==> Iterate(old(Snapshot()), code, fuel) == Loop(Snapshot(), code, fuel - 1)
    {
      var inst := code[state.pc];
      ghost var e := Snapshot();
      assert Iterate(e, code, fuel) == Proceed(e, code, fuel, inst);
      halted, status := Dispatch(inst);
    }

    /** The body of an iteration for one instruction: the engine's Step. */
    method Dispatch(inst: Instruction) returns (halted: bool, status: Status)
      requires Valid()
      modifies this, state, state.registers, state.memory, state.callStack, state.globalSeed, handlerTable
      ensures Valid()
      ensures halted ==> Step(old(Snapshot()), inst) == Halt(status) && Snapshot() == old(Snapshot())
      ensures !halted ==> Step(old(Snapshot()), inst) == Continue(Snapshot())
    {
      if !ThreeValid(inst) {
        return true, InvalidRegister;
      }
      var index := inst.opcode;
      if index >= handlerTable.Length || handlerTable[index].Empty? {
        return true, InvalidOpcode;
      }
      ghost var e := Snapshot();
      var defined := state.RunHandler(handlerTable[index].op, inst);
      if !defined {
        return true, UndefinedShift;
      }
      StepContinues(e, inst, state.Snapshot());
      Advance(IsControl(inst.opcode));
      return false, Completed;
    }

    /** What an iteration does after a handler ran: pc, the counter and the mutation. */
    method Advance(control: bool)
      requires Valid()
      modifies this, state, state.globalSeed, handlerTable
      ensures Valid()
      ensures Snapshot() == Advanced(old(Snapshot()), control)
    {
      ghost var e := Snapshot();
      ghost var m2 := if control then e.m else e.m.(pc := W.Add(e.m.pc, 1));
      if !control {
        state.pc := W.Add(state.pc, 1);
      }
      assert state.Snapshot() == m2;
      mutationCounter := W.Add(mutationCounter, 1);
      if mutationCounter % 100 == 0 {
        MutateHandlers();
        assert state.Snapshot() == m2.(seed := Primitives.SeedToggle(m2.seed));
      }
    }

    /** execute(bytecode, length), cut after `fuel` iterations of its loop. */
    method Execute(code: seq<Instruction>, fuel: nat) returns (status: Status)
      requires Valid()
      modifies this, state, state.registers, state.memory, state.callStack, state.globalSeed, handlerTable
      ensures Valid()
      ensures (Snapshot(), status) == Executed(old(Snapshot()), code, fuel)
    {
      if |code| == 0 {
        return InvalidBytecode;
      }
      state.pc := 0;
      status := RunLoop(code, fuel);
    }

    /** execute's while loop from the current pc. */
    method RunLoop(code: seq<Instruction>, fuel: nat) returns (status: Status)
      requires Valid()
      modifies this, state, state.registers, state.memory, state.callStack, state.globalSeed, handlerTable
      ensures Valid()
      ensures (Snapshot(), status) == Loop(old(Snapshot()), code, fuel)
    {
      var remaining := fuel;
      ghost var target := Loop(Snapshot(), code, fuel);
      while state.pc < |code| && remaining > 0
        invariant Valid()
        invariant Loop(Snapshot(), code, remaining) == target
        decreases remaining
      {
        ghost var e := Snapshot();
        assert Loop(e, code, remaining) == Iterate(e, code, remaining);
        var halted, s := ExecuteStep(code, remaining);
        if halted {
          return s;
        }
        remaining := remaining - 1;
      }
      status := if state.pc >= |code| then Completed else OutOfFuel;
      LoopStops(Snapshot(), code, remaining);
    }
  }
}
