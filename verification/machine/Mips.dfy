/**
 One step of the simulated MIPS R2000/R3000 (machine/mipssim.cc, machine/machine.cc): decoding,
 execution with branch and load delay, and traps to the kernel that can be restarted.
 */
module Mips {
  import opened Words
  import opened Translation
  import opened Mult

  type Reg = r: int | 0 <= r < 32

  const HI_REG := 32
  const LO_REG := 33
  const PC_REG := 34
  const NEXT_PC_REG := 35
  const PREV_PC_REG := 36
  const LOAD_REG := 37
  const LOAD_VALUE_REG := 38
  const BAD_VADDR_REG := 39

  type Regs = r: seq<Word> | |r| == 40 witness seq(40, _ => 0)

  // ---------------------------------------------------------------- decoding

  datatype Op =
    | Add | AddI | AddIU | AddU | And | AndI | Beq | Bgez | Bgezal | Bgtz | Blez | Bltz | Bltzal | Bne
    | Div | DivU | J | Jal | Jalr | Jr | Lb | Lbu | Lh | Lhu | Lui | Lw | Lwl | Lwr | Mfhi | Mflo | Mthi | Mtlo
    | Mult | MultU | Nor | Or | OrI | Sb | Sh | Sll | Sllv | Slt | SltI | SltIU | SltU | Sra | Srav | Srl | Srlv
    | Sub | SubU | Sw | Swl | Swr | Xor | XorI | Syscall | Unimp | Res

  datatype Instruction = Instruction(op: Op, rs: Reg, rt: Reg, rd: Reg, extra: Word)

  /** opTable for the opcodes other than SPECIAL (0) and BCOND (1). */
  function OpTable(code: nat): Op {
    match code
    case 2 => J case 3 => Jal case 4 => Beq case 5 => Bne case 6 => Blez case 7 => Bgtz
    case 8 => AddI case 9 => AddIU case 10 => SltI case 11 => SltIU case 12 => AndI case 13 => OrI case 14 => XorI case 15 => Lui
    case 32 => Lb case 33 => Lh case 34 => Lwl case 35 => Lw case 36 => Lbu case 37 => Lhu case 38 => Lwr
    case 40 => Sb case 41 => Sh case 42 => Swl case 43 => Sw case 46 => Swr
    case _ => if 16 <= code <= 19 || 48 <= code <= 51 || 56 <= code <= 59 then Unimp else Res
  }

  function SpecialTable(code: nat): Op {
    match code
    case 0 => Sll case 2 => Srl case 3 => Sra case 4 => Sllv case 6 => Srlv case 7 => Srav
    case 8 => Jr case 9 => Jalr case 12 => Syscall case 13 => Unimp
    case 16 => Mfhi case 17 => Mthi case 18 => Mflo case 19 => Mtlo
    case 24 => Mult case 25 => MultU case 26 => Div case 27 => DivU
    case 32 => Add case 33 => AddU case 34 => Sub case 35 => SubU case 36 => And case 37 => Or case 38 => Xor case 39 => Nor
    case 42 => Slt case 43 => SltU
    case _ => Res
  }

  function BranchTable(code: nat): Op {
    match code
    case 0 => Bltz case 1 => Bgez case 16 => Bltzal case 17 => Bgezal
    case _ => Unimp
  }

  function Decode(raw: Word): Instruction {
    var v := U(raw);
    var code := v / 0x400_0000;
    var rs, rt, rd := v / 0x20_0000 % 32, v / 0x1_0000 % 32, v / 0x800 % 32;
    var immediate := if v % 0x1_0000 >= 0x8000 then v % 0x1_0000 - 0x1_0000 else v % 0x1_0000;
    if code == 0 then Instruction(SpecialTable(v % 64), rs, rt, rd, v / 64 % 32)
    else if code == 1 then Instruction(BranchTable(rt), rs, rt, rd, immediate)
    else if code == 2 || code == 3 then Instruction(OpTable(code), rs, rt, rd, v % 0x400_0000)
    else Instruction(OpTable(code), rs, rt, rd, immediate)
  }

  // ---------------------------------------------------------------- what an instruction computes

  /** The registers an instruction looks at; what it does not look at is given as 0. */
  datatype Operands = Operands(s: Word, t: Word, hi: Word, lo: Word, next: Word)

  predicate ReadsS(op: Op) {
    !(op.J? || op.Jal? || op.Lui? || op.Mfhi? || op.Mflo? || op.Sll? || op.Sra? || op.Srl? || op.Syscall? || op.Unimp? || op.Res?)
  }

  predicate ReadsT(op: Op) {
    op in {Add, AddU, And, Beq, Bne, Div, DivU, Op.Mult, MultU, Nor, Sb, Sh, Sll, Sllv, Slt, SltU, Sra, Srav, Srl, Srlv, Sub, SubU, Sw, Swl, Swr, Xor}
  }

  /** The general register an instruction writes at once, 0 if none. */
  function Dest(i: Instruction): Reg {
    match i.op
    case Add | AddU | And | Jalr | Mfhi | Mflo | Nor | Or | Sll | Sllv | Slt | SltU | Sra | Srav | Srl | Srlv | Sub | SubU | Xor => i.rd
    case AddI | AddIU | AndI | Lui | OrI | SltI | SltIU | XorI => i.rt
    case Bgezal | Bltzal | Jal => 31
    case _ => 0
  }

  /** The linking jumps write the return address before they read rs. */
  predicate Links(op: Op) {
    op.Jalr? || op.Bgezal? || op.Bltzal?
  }

  function Plus4(pc: int): Word { Wrap(pc + 4) }

  function OperandsOf(i: Instruction, r: Regs): Operands {
    var link := Plus4(r[NEXT_PC_REG]);
    var s := if !ReadsS(i.op) then 0 else if Links(i.op) && i.rs == Dest(i) then link else r[i.rs];
    Operands(s, if ReadsT(i.op) then r[i.rt] else 0, r[HI_REG], r[LO_REG], r[NEXT_PC_REG])
  }

  datatype LoadKind = SignedByte | UnsignedByte | SignedHalf | UnsignedHalf | FullWord | LeftPart | RightPart

  datatype StoreKind = Plain | LeftStore | RightStore

  datatype Effect =
    | Raise(exception: ExceptionType, badVAddr: Word)
    | Abort  // an ASSERT of the simulator fails
    | Next(value: Word, hi: Word, lo: Word, pc: Word)
    | Load(addr: Word, size: nat, load: LoadKind)
    | Store(addr: Word, size: nat, value: Word, store: StoreKind)

  /** Two numbers combined bit by bit; `both` and `one` are what two ones and a single one give. */
  function Bitwise(both: Word, one: Word, x: nat, y: nat): int
    decreases x + y
  {
    if x == 0 && y == 0 then 0
    else 2 * Bitwise(both, one, x / 2, y / 2) + (if x % 2 == y % 2 == 1 then both else if x % 2 != y % 2 then one else 0)
  }

  function BitAnd(a: Word, b: Word): Word { Wrap(Bitwise(1, 0, U(a), U(b))) }

  function BitOr(a: Word, b: Word): Word { Wrap(Bitwise(1, 1, U(a), U(b))) }

  function BitXor(a: Word, b: Word): Word { Wrap(Bitwise(0, 1, U(a), U(b))) }

  function ShiftLeft(a: Word, n: nat): Word { Wrap(a * PowerOfTwo(n)) }

  /** >> on an int, which keeps the sign: the simulator uses it for SRL and SRLV too. */
  function ShiftRight(a: Word, n: nat): Word { Wrap(a / PowerOfTwo(n)) }

  /** C's division truncates toward zero. */
  function Quotient(a: Word, b: Word): int
    requires b != 0
  {
    if (a < 0) == (b < 0) then Abs(a) / Abs(b) else 0 - Abs(a) / Abs(b)
  }

  function Remainder(a: Word, b: Word): int
    requires b != 0
  {
    if a < 0 then 0 - Abs(a) % Abs(b) else Abs(a) % Abs(b)
  }

  function Abs(a: int): nat { if a < 0 then 0 - a else a }

  /** (a & SIGN_BIT) != (b & SIGN_BIT). */
  predicate SignsDiffer(a: Word, b: Word) { (a < 0) != (b < 0) }

  function Half(w: Word): Word { U(w) % 0x1_0000 }

  function Flag(b: bool): Word { if b then 1 else 0 }

  function UpperWord(p: int): Word { Wrap(p / TWO_TO_32) }

  function LowerWord(p: int): Word { Wrap(p) }

  function Execute(i: Instruction, o: Operands): Effect {
    var addr := Wrap(o.s + i.extra);
    match i.op
    case Lb | Lbu | Lh | Lhu | Lw | Lwl | Lwr => LoadOf(i.op, addr)
    case Sb | Sh | Sw | Swl | Swr => StoreOf(i.op, addr, o.t)
    case _ => Compute(i, o)
  }

  /** The instructions that do not go to memory. */
  function Compute(i: Instruction, o: Operands): (e: Effect)
    ensures !e.Load? && !e.Store?
  {
    var after := Plus4(o.next);
    var branch := Wrap(o.next + 4 * i.extra);
    var jump := Wrap(U(after) / 0x1000_0000 * 0x1000_0000 + 4 * i.extra);
    var sum, sumI, diff := Wrap(o.s + o.t), Wrap(o.s + i.extra), Wrap(o.s - o.t);
    match i.op
    case Add => if !SignsDiffer(o.s, o.t) && SignsDiffer(o.s, sum) then Raise(OverflowException, 0) else Alu(o, sum)
    case AddI => if !SignsDiffer(o.s, i.extra) && SignsDiffer(i.extra, sumI) then Raise(OverflowException, 0) else Alu(o, sumI)
    case AddIU => Alu(o, sumI)
    case AddU => Alu(o, sum)
    case And => Alu(o, BitAnd(o.s, o.t))
    case AndI => Alu(o, BitAnd(o.s, Half(i.extra)))
    case Beq | Bgez | Bgtz | Blez | Bltz | Bne => Next(0, o.hi, o.lo, if Branches(i.op, o.s, o.t) then branch else after)
    case Bgezal | Bltzal => Next(after, o.hi, o.lo, if Branches(i.op, o.s, o.t) then branch else after)
    case Div => if o.t == 0 then Next(0, 0, 0, after) else Next(0, Wrap(Remainder(o.s, o.t)), Wrap(Quotient(o.s, o.t)), after)
    case DivU => if o.t == 0 then Next(0, 0, 0, after) else Next(0, Wrap(U(o.s) % U(o.t)), Wrap(U(o.s) / U(o.t)), after)
    case Jal => Next(after, o.hi, o.lo, jump)
    case J => Next(0, o.hi, o.lo, jump)
    case Jalr => Next(after, o.hi, o.lo, o.s)
    case Jr => Next(0, o.hi, o.lo, o.s)
    case Lui => Alu(o, Wrap(i.extra * 0x1_0000))
    case Mfhi => Alu(o, o.hi)
    case Mflo => Alu(o, o.lo)
    case Mthi => Next(0, o.s, o.lo, after)
    case Mtlo => Next(0, o.hi, o.s, after)
    case Mult => Next(0, UpperWord(Product(o.s, o.t, true)), LowerWord(Product(o.s, o.t, true)), after)
    case MultU => Next(0, UpperWord(Product(o.s, o.t, false)), LowerWord(Product(o.s, o.t, false)), after)
    case Nor => Alu(o, -1 - BitOr(o.s, o.t))
    case Or => Alu(o, BitOr(o.s, o.s))
    case OrI => Alu(o, BitOr(o.s, Half(i.extra)))
    case Sll => Alu(o, ShiftLeft(o.t, U(i.extra)))
    case Sllv => Alu(o, ShiftLeft(o.t, U(o.s) % 32))
    case Slt => Alu(o, Flag(o.s < o.t))
    case SltI => Alu(o, Flag(o.s < i.extra))
    case SltIU => Alu(o, Flag(U(o.s) < U(i.extra)))
    case SltU => Alu(o, Flag(U(o.s) < U(o.t)))
    case Sra | Srl => Alu(o, ShiftRight(o.t, U(i.extra)))
    case Srav | Srlv => Alu(o, ShiftRight(o.t, U(o.s) % 32))
    case Sub => if SignsDiffer(o.s, o.t) && SignsDiffer(o.s, diff) then Raise(OverflowException, 0) else Alu(o, diff)
    case SubU => Alu(o, diff)
    case Xor => Alu(o, BitXor(o.s, o.t))
    case XorI => Alu(o, BitXor(o.s, Half(i.extra)))
    case Syscall => Raise(SyscallException, 0)
    case _ => Raise(IllegalInstrException, 0)
  }

  predicate Branches(op: Op, s: Word, t: Word) {
    match op
    case Beq => s == t
    case Bne => s != t
    case Bgez | Bgezal => s >= 0
    case Bgtz => s > 0
    case Blez => s <= 0
    case _ => s < 0
  }

  function LoadOf(op: Op, addr: Word): Effect {
    match op
    case Lb => Load(addr, 1, SignedByte)
    case Lbu => Load(addr, 1, UnsignedByte)
    case Lh => if addr % 2 != 0 then Raise(AddressErrorException, addr) else Load(addr, 2, SignedHalf)
    case Lhu => if addr % 2 != 0 then Raise(AddressErrorException, addr) else Load(addr, 2, UnsignedHalf)
    case Lwl => if addr % 4 != 0 then Abort else Load(addr, 4, LeftPart)
    case Lwr => if addr % 4 != 0 then Abort else Load(addr, 4, RightPart)
    case _ => if addr % 4 != 0 then Raise(AddressErrorException, addr) else Load(addr, 4, FullWord)
  }

  function StoreOf(op: Op, addr: Word, value: Word): Effect {
    if (op == Swl || op == Swr) && addr % 4 != 0 then Abort else Store(addr, SizeOf(op), value, KindOf(op))
  }

  function SizeOf(op: Op): nat {
    if op == Sb then 1 else if op == Sh then 2 else 4
  }

  function KindOf(op: Op): StoreKind {
    if op == Swl then LeftStore else if op == Swr then RightStore else Plain
  }

  function Alu(o: Operands, value: Word): Effect {
    Next(value, o.hi, o.lo, Plus4(o.next))
  }

  /** What a load makes of the word ReadMem returned; `prior` is the target's value, pending load included. */
  function Loaded(load: LoadKind, value: Word, prior: Word): Word {
    match load
    case SignedByte => if U(value) % 256 >= 128 then U(value) % 256 - 256 else U(value) % 256
    case UnsignedByte => U(value) % 256
    case SignedHalf => if U(value) % 0x1_0000 >= 0x8000 then U(value) % 0x1_0000 - 0x1_0000 else U(value) % 0x1_0000
    case UnsignedHalf => U(value) % 0x1_0000
    case FullWord => value
    case LeftPart => value
    case RightPart => Wrap(U(prior) / 256 * 256 + U(value) / 0x100_0000)
  }

  /** What a store writes; `there` is the word already in memory. */
  function Stored(store: StoreKind, value: Word, there: Word): Word {
    match store
    case Plain => value
    case LeftStore => value
    case RightStore => Wrap(U(there) % 0x100_0000 + 0x100_0000 * value)
  }

  // ---------------------------------------------------------------- one step of the machine

  /** r0 is zero, and a pending load has a general register for its target. */
  predicate RegsOk(r: Regs) {
    r[0] == 0 && 0 <= r[LOAD_REG] < 32
  }

  function DelayedLoad(r: Regs, nextReg: Reg, nextValue: Word): (r': Regs)
    requires RegsOk(r)
    ensures RegsOk(r')
  {
    r[r[LOAD_REG] := r[LOAD_VALUE_REG]][LOAD_REG := nextReg][LOAD_VALUE_REG := nextValue][0 := 0]
  }

  /** RaiseException up to the call of the kernel's handler. */
  function Trap(r: Regs, badVAddr: Word): (r': Regs)
    requires RegsOk(r)
    ensures RegsOk(r')
  {
    DelayedLoad(r[BAD_VADDR_REG := badVAddr], 0, 0)
  }

  /** The end of an instruction: the pending load, then the program counters. */
  function Finish(r: Regs, nextReg: Reg, nextValue: Word, pcAfter: Word): (r': Regs)
    requires RegsOk(r)
    ensures RegsOk(r')
  {
    var r1 := DelayedLoad(r, nextReg, nextValue);
    r1[PREV_PC_REG := r1[PC_REG]][PC_REG := r1[NEXT_PC_REG]][NEXT_PC_REG := pcAfter]
  }

  /** The value LWL and LWR merge with: a load still pending for the same register counts as done. */
  function Forwarded(r: Regs, t: Reg): Word {
    if r[LOAD_REG] == t then r[LOAD_VALUE_REG] else r[t]
  }

  datatype Cpu = Cpu(regs: Regs, memory: Memory)

  ghost predicate CpuOk(c: Cpu) {
    RegsOk(c.regs) && WellFormed(c.memory)
  }

  datatype StepResult = Stepped(cpu: Cpu) | Trapped(cpu: Cpu, exception: ExceptionType) | Aborted

  function Complete(c: Cpu, i: Instruction, e: Effect): StepResult
    requires CpuOk(c)
  {
    var after := Plus4(c.regs[NEXT_PC_REG]);
    match e
    case Raise(exception, badVAddr) => Trapped(c.(regs := Trap(c.regs, badVAddr)), exception)
    case Abort => Aborted
    case Next(value, hi, lo, pc) =>
      Stepped(c.(regs := Finish(c.regs[Dest(i) := value][HI_REG := hi][LO_REG := lo][0 := 0], 0, 0, pc)))
    case Load(addr, size, load) =>
      if !AccessSize(size) then Aborted
      else
        var m := ReadMem(c.memory, addr, size);
        if m.exception != NoException then Trapped(Cpu(Trap(c.regs, addr), m.memory), m.exception)
        else Stepped(Cpu(Finish(c.regs, i.rt, Loaded(load, m.value, Forwarded(c.regs, i.rt)), after), m.memory))
    case Store(addr, size, value, store) =>
      if !AccessSize(size) then Aborted
      else
        var before := if store == Plain then Outcome(NoException, 0, c.memory) else ReadMem(c.memory, addr, 4);
        if before.exception != NoException then Trapped(Cpu(Trap(c.regs, addr), before.memory), before.exception)
        else
          var m := WriteMem(before.memory, addr, size, Stored(store, value, before.value));
          if m.exception != NoException then Trapped(Cpu(Trap(c.regs, addr), m.memory), m.exception)
          else Stepped(Cpu(Finish(c.regs, 0, 0, after), m.memory))
  }

  /** Machine::OneInstruction, up to the kernel's handler if there is an exception. */
  function OneInstruction(c: Cpu): StepResult
    requires CpuOk(c)
  {
    var fetch := ReadMem(c.memory, c.regs[PC_REG], 4);
    if fetch.exception != NoException then Trapped(Cpu(Trap(c.regs, c.regs[PC_REG]), fetch.memory), fetch.exception)
    else
      var i := Decode(fetch.value);
      Complete(c.(memory := fetch.memory), i, Execute(i, OperandsOf(i, c.regs)))
  }

  // ---------------------------------------------------------------- traps are precise

  /** The registers a trap may change: the target of the pending load, the two that describe it, and BadVAddr. */
  predicate TouchedByTrap(r: Regs, k: nat) {
    k == r[LOAD_REG] || k == LOAD_REG || k == LOAD_VALUE_REG || k == BAD_VADDR_REG
  }

  /** Memory a trap leaves: the same bytes and the same mapping, use bits apart. */
  ghost predicate SameMemory(m: Memory, m': Memory) {
    m.kind == m'.kind && m.bytes == m'.bytes && SameMapping(m.table, m'.table)
  }

  lemma SameMemoryTransitive(a: Memory, b: Memory, c: Memory)
    requires SameMemory(a, b) && SameMemory(b, c)
    ensures SameMemory(a, c)
  {
  }

  lemma CompleteTrapsPrecisely(c: Cpu, i: Instruction, e: Effect)
    requires CpuOk(c) && Complete(c, i, e).Trapped?
    ensures SameMemory(c.memory, Complete(c, i, e).cpu.memory)
    ensures exists bad: Word :: Complete(c, i, e).cpu.regs == Trap(c.regs, bad)
  {
  }

  /**
   A trap finishes the pending load and records the address; every other register (PC, NextPC, HI,
   LO and the rest of the general registers) and all of memory are as before the instruction.
   */
  lemma TrapsArePrecise(c: Cpu)
    requires CpuOk(c) && OneInstruction(c).Trapped?
    ensures var c' := OneInstruction(c).cpu;
      && CpuOk(c')
      && SameMemory(c.memory, c'.memory)
      && (forall k :: 0 <= k < 40 && !TouchedByTrap(c.regs, k) ==> c'.regs[k] == c.regs[k])
      && (c.regs[LOAD_REG] != 0 ==> c'.regs[c.regs[LOAD_REG]] == c.regs[LOAD_VALUE_REG])
      && c'.regs[LOAD_REG] == 0 && c'.regs[LOAD_VALUE_REG] == 0
  {
    var fetch := ReadMem(c.memory, c.regs[PC_REG], 4);
    TranslateKeepsMapping(c.memory, c.regs[PC_REG], 4, false);
    if fetch.exception == NoException {
      var i := Decode(fetch.value);
      var c1 := c.(memory := fetch.memory);
      CompleteTrapsPrecisely(c1, i, Execute(i, OperandsOf(i, c.regs)));
      SameMemoryTransitive(c.memory, fetch.memory, OneInstruction(c).cpu.memory);
    }
  }

  // ---------------------------------------------------------------- traps can be restarted

  /** Whether the instruction depends on, or is overridden by, a load still pending for register `t`. */
  predicate Touches(i: Instruction, t: Reg) {
    if t == 0 then i.op == Lwr && i.rt == 0
    else (ReadsS(i.op) && i.rs == t) || (ReadsT(i.op) && i.rt == t) || Dest(i) == t
  }

  predicate SameButBadVAddr(a: Regs, b: Regs) {
    a[BAD_VADDR_REG := 0] == b[BAD_VADDR_REG := 0]
  }

  ghost predicate SameResult(a: StepResult, b: StepResult) {
    match a
    case Aborted => b.Aborted?
    case Stepped(c) => b.Stepped? && c.memory == b.cpu.memory && SameButBadVAddr(c.regs, b.cpu.regs)
    case Trapped(c, e) => b.Trapped? && e == b.exception && c.memory == b.cpu.memory && SameButBadVAddr(c.regs, b.cpu.regs)
  }

  lemma SameOperands(r: Regs, i: Instruction, bad: Word)
    requires RegsOk(r) && !Touches(i, r[LOAD_REG])
    ensures OperandsOf(i, Trap(r, bad)) == OperandsOf(i, r)
    ensures i.op == Lwr ==> Forwarded(Trap(r, bad), i.rt) == Forwarded(r, i.rt)
  {
  }

  lemma SameFinish(r: Regs, bad: Word, nextReg: Reg, nextValue: Word, pc: Word)
    requires RegsOk(r)
    ensures SameButBadVAddr(Finish(Trap(r, bad), nextReg, nextValue, pc), Finish(r, nextReg, nextValue, pc))
  {
  }

  lemma SameTrap(r: Regs, bad: Word, bad': Word)
    requires RegsOk(r)
    ensures Trap(Trap(r, bad), bad') == Trap(r, bad')
  {
  }

  /** Writing a result and finishing the pending load commute unless they meet in one register. */
  lemma SameWrites(r: Regs, bad: Word, dest: Reg, value: Word, hi: Word, lo: Word, pc: Word)
    requires RegsOk(r) && (dest != r[LOAD_REG] || dest == 0)
    ensures SameButBadVAddr(Finish(Trap(r, bad)[dest := value][HI_REG := hi][LO_REG := lo][0 := 0], 0, 0, pc),
                            Finish(r[dest := value][HI_REG := hi][LO_REG := lo][0 := 0], 0, 0, pc))
  {
  }

  lemma OnlyLwrMerges(i: Instruction, o: Operands)
    ensures Execute(i, o).Load? && Execute(i, o).load == RightPart ==> i.op == Lwr
  {
  }

  /**
   The machine after a trap, with memory and mapping repaired by the kernel in whatever way, takes
   the same step as the machine before the trap would take there, BadVAddr aside, provided the
   instruction does not touch the target of the load that was pending.
   */
  lemma RestartIsExact(c: Cpu, repaired: Memory)
    requires CpuOk(c) && OneInstruction(c).Trapped? && WellFormed(repaired)
    requires var fetch := ReadMem(repaired, c.regs[PC_REG], 4);
      fetch.exception == NoException ==> !Touches(Decode(fetch.value), c.regs[LOAD_REG])
    ensures CpuOk(OneInstruction(c).cpu)
    ensures SameResult(OneInstruction(OneInstruction(c).cpu.(memory := repaired)), OneInstruction(c.(memory := repaired)))
  {
    TrapsArePrecise(c);
    var bad := TrapRegs(c);
    FlushIsInvisible(c.regs, repaired, bad);
  }

  lemma TrapRegs(c: Cpu) returns (bad: Word)
    requires CpuOk(c) && OneInstruction(c).Trapped?
    ensures OneInstruction(c).cpu.regs == Trap(c.regs, bad)
  {
    var fetch := ReadMem(c.memory, c.regs[PC_REG], 4);
    if fetch.exception != NoException {
      return c.regs[PC_REG];
    }
    var i := Decode(fetch.value);
    var c1 := c.(memory := fetch.memory);
    CompleteTrapsPrecisely(c1, i, Execute(i, OperandsOf(i, c.regs)));
    bad :| Complete(c1, i, Execute(i, OperandsOf(i, c.regs))).cpu.regs == Trap(c.regs, bad);
  }

  /** Finishing the pending load early is invisible to an instruction that does not touch its target. */
  lemma FlushIsInvisible(r: Regs, m: Memory, bad: Word)
    requires RegsOk(r) && WellFormed(m)
    requires var fetch := ReadMem(m, r[PC_REG], 4); fetch.exception == NoException ==> !Touches(Decode(fetch.value), r[LOAD_REG])
    ensures SameResult(OneInstruction(Cpu(Trap(r, bad), m)), OneInstruction(Cpu(r, m)))
  {
    var fetch := ReadMem(m, r[PC_REG], 4);
    assert Trap(r, bad)[PC_REG] == r[PC_REG];
    if fetch.exception != NoException {
      SameTrap(r, bad, r[PC_REG]);
    } else {
      var i := Decode(fetch.value);
      SameOperands(r, i, bad);
      OnlyLwrMerges(i, OperandsOf(i, r));
      SameCompletion(r, fetch.memory, bad, i, Execute(i, OperandsOf(i, r)));
    }
  }

  lemma SameCompletion(r: Regs, m: Memory, bad: Word, i: Instruction, e: Effect)
    requires RegsOk(r) && WellFormed(m) && (Dest(i) != r[LOAD_REG] || Dest(i) == 0)
    requires e.Load? && e.load == RightPart ==> Forwarded(Trap(r, bad), i.rt) == Forwarded(r, i.rt)
    ensures SameResult(Complete(Cpu(Trap(r, bad), m), i, e), Complete(Cpu(r, m), i, e))
  {
    var after := Plus4(r[NEXT_PC_REG]);
    match e
    case Raise(_, bad') => SameTrap(r, bad, bad');
    case Abort =>
    case Next(value, hi, lo, pc) => SameWrites(r, bad, Dest(i), value, hi, lo, pc);
    case Load(addr, size, load) =>
      SameTrap(r, bad, addr);
      if AccessSize(size) {
        var value := ReadMem(m, addr, size).value;
        SameFinish(r, bad, i.rt, Loaded(load, value, Forwarded(r, i.rt)), after);
      }
    case Store(addr, size, value, store) =>
      SameTrap(r, bad, addr);
      SameFinish(r, bad, 0, 0, after);
  }

  /** Two values agree in the part of rt that a store puts into memory: the byte, the half word, or all of it. */
  predicate SamePart(op: Op, a: Word, b: Word) {
    match op
    case Sb | Swr => (a - b) % 256 == 0
    case Sh => (a - b) % 0x1_0000 == 0
    case _ => a == b
  }

  /** Two stores to one place leave the same memory exactly if they store the same bytes. */
  lemma StoresAlikeIff(m: Memory, addr: Word, size: nat, a: Word, b: Word)
    requires WellFormed(m) && AccessSize(size) && WriteMem(m, addr, size, a).exception == NoException
    ensures WriteMem(m, addr, size, a).memory == WriteMem(m, addr, size, b).memory <==>
            U(a) % Power256(size) == U(b) % Power256(size)
  {
    var t := Translate(m, addr, size, true);
    StaysInPage(m, addr, size, true);
    FetchDeposited(m.bytes, t.physAddr, size, U(a));
    FetchDeposited(m.bytes, t.physAddr, size, U(b));
    if U(a) % Power256(size) == U(b) % Power256(size) {
      DepositModulo(m.bytes, t.physAddr, size, U(a), U(b));
    }
  }

  lemma SameLowPart(a: Word, b: Word, m: nat, k: nat)
    requires m >= 1 && m * k == TWO_TO_32
    ensures U(a) % m == U(b) % m <==> (a - b) % m == 0
  {
    LowPart(a, m, k);
    LowPart(b, m, k);
    SameResidue(a, b, U(a) % m, U(b) % m, m);
  }

  lemma SameResidue(a: int, b: int, x: nat, y: nat, m: nat)
    requires x < m && y < m && (x - a) % m == 0 && (y - b) % m == 0
    ensures x == y <==> (a - b) % m == 0
  {
    var p, q, t := (x - a) / m, (y - b) / m, (a - b) / m;
    assert x - a == m * p && y - b == m * q;
    assert m * (q - p) == m * q - m * p;
    if x == y {
      ModUnique(a - b, m, q - p, 0);
    }
    if (a - b) % m == 0 {
      assert a - b == m * t && x - y == m * (t + p - q);
      SmallMultiple(t + p - q, m);
    }
  }

  lemma SmallMultiple(z: int, m: int)
    requires m >= 1 && 0 - m < m * z < m
    ensures z == 0
  {
    if z != 0 {
      MultipleIsLarge(if z > 0 then z else 0 - z, m);
      assert false;
    }
  }

  lemma MultipleIsLarge(z: int, m: int)
    requires m >= 1 && z >= 1
    ensures m * z >= m && m * (0 - z) <= 0 - m
  {
  }

  /** The word SWR puts together has the low byte of rt on top. */
  lemma SameTopByte(there: Word, a: Word, b: Word)
    ensures U(Stored(RightStore, a, there)) == U(Stored(RightStore, b, there)) <==> (a - b) % 256 == 0
  {
    var low: int := U(there) % 0x100_0000;
    TopByte(low, a);
    TopByte(low, b);
    SameLowPart(a, b, 256, 0x100_0000);
  }

  lemma TopByte(low: nat, a: Word)
    requires low < 0x100_0000
    ensures U(Wrap(low + 0x100_0000 * a)) == low + 0x100_0000 * (U(a) % 256)
  {
    var q := if a < 0 then U(a) / 256 - 0x100_0000 else U(a) / 256;
    assert a == 256 * q + U(a) % 256;
    assert low + 0x100_0000 * a == q * TWO_TO_32 + (low + 0x100_0000 * (U(a) % 256));
    ModUnique(low + 0x100_0000 * a, TWO_TO_32, q, low + 0x100_0000 * (U(a) % 256));
  }

  lemma EarlyStoreIff(r: Regs, m: Memory, bad: Word, i: Instruction, addr: Word, size: nat, early: Word, late: Word, store: StoreKind)
    requires RegsOk(r) && WellFormed(m) && AccessSize(size) && (store != Plain ==> size == 4)
    requires Complete(Cpu(r, m), i, Store(addr, size, late, store)).Stepped?
    ensures var there := if store == Plain then 0 else ReadMem(m, addr, 4).value;
      SameResult(Complete(Cpu(Trap(r, bad), m), i, Store(addr, size, early, store)),
                 Complete(Cpu(r, m), i, Store(addr, size, late, store)))
      <==> U(Stored(store, early, there)) % Power256(size) == U(Stored(store, late, there)) % Power256(size)
  {
    var before := if store == Plain then Outcome(NoException, 0, m) else ReadMem(m, addr, 4);
    StoresAlikeIff(before.memory, addr, size, Stored(store, late, before.value), Stored(store, early, before.value));
    SameFinish(r, bad, 0, 0, Plus4(r[NEXT_PC_REG]));
  }

  /**
   The other way round: a store of the pending load's target is restarted exactly if and only if the
   load leaves the part of the register that it stores as it was.
   */
  lemma StoreOfTargetRestartsIff(r: Regs, m: Memory, bad: Word, i: Instruction)
    requires RegsOk(r) && WellFormed(m)
    requires i.op in {Sb, Sh, Sw, Swl, Swr} && r[LOAD_REG] == i.rt != 0 && i.rs != i.rt
    requires Complete(Cpu(r, m), i, Execute(i, OperandsOf(i, r))).Stepped?
    ensures SameResult(Complete(Cpu(Trap(r, bad), m), i, Execute(i, OperandsOf(i, Trap(r, bad)))),
                       Complete(Cpu(r, m), i, Execute(i, OperandsOf(i, r))))
            <==> SamePart(i.op, r[LOAD_VALUE_REG], r[i.rt])
  {
    TargetOperands(r, bad, i);
    var late, early := OperandsOf(i, r), OperandsOf(i, Trap(r, bad));
    OperandsRestartIff(r, m, bad, i, late, early, Execute(i, late), Execute(i, early));
  }

  lemma TargetOperands(r: Regs, bad: Word, i: Instruction)
    requires RegsOk(r) && i.op in {Sb, Sh, Sw, Swl, Swr} && r[LOAD_REG] == i.rt != 0 && i.rs != i.rt
    ensures OperandsOf(i, Trap(r, bad)).s == OperandsOf(i, r).s
    ensures OperandsOf(i, r).t == r[i.rt] && OperandsOf(i, Trap(r, bad)).t == r[LOAD_VALUE_REG]
  {
  }

  lemma OperandsRestartIff(r: Regs, m: Memory, bad: Word, i: Instruction, late: Operands, early: Operands, l: Effect, e: Effect)
    requires RegsOk(r) && WellFormed(m) && i.op in {Sb, Sh, Sw, Swl, Swr} && early.s == late.s
    requires l == Execute(i, late) && e == Execute(i, early) && Complete(Cpu(r, m), i, l).Stepped?
    ensures SameResult(Complete(Cpu(Trap(r, bad), m), i, e), Complete(Cpu(r, m), i, l)) <==> SamePart(i.op, early.t, late.t)
  {
    StoreEffect(i, late);
    StoreEffect(i, early);
    ValuesRestartIff(r, m, bad, i, Wrap(late.s + i.extra), late.t, early.t);
  }

  lemma ValuesRestartIff(r: Regs, m: Memory, bad: Word, i: Instruction, addr: Word, late: Word, early: Word)
    requires RegsOk(r) && WellFormed(m) && i.op in {Sb, Sh, Sw, Swl, Swr}
    requires Complete(Cpu(r, m), i, StoreOf(i.op, addr, late)).Stepped?
    ensures SameResult(Complete(Cpu(Trap(r, bad), m), i, StoreOf(i.op, addr, early)), Complete(Cpu(r, m), i, StoreOf(i.op, addr, late)))
            <==> SamePart(i.op, early, late)
  {
    StoreRestartsIff(r, m, bad, i, StoreOf(i.op, addr, late), StoreOf(i.op, addr, early));
  }

  lemma StoreEffect(i: Instruction, o: Operands)
    requires i.op in {Sb, Sh, Sw, Swl, Swr}
    ensures Execute(i, o) == StoreOf(i.op, Wrap(o.s + i.extra), o.t)
  {
    match i.op
    case Sb => case Sh => case Sw => case Swl => case Swr =>
  }

  lemma StoreRestartsIff(r: Regs, m: Memory, bad: Word, i: Instruction, late: Effect, early: Effect)
    requires RegsOk(r) && WellFormed(m) && i.op in {Sb, Sh, Sw, Swl, Swr}
    requires late.Store? && late.size == SizeOf(i.op) && late.store == KindOf(i.op)
    requires early.Store? && early == Store(late.addr, late.size, early.value, late.store)
    requires Complete(Cpu(r, m), i, late).Stepped?
    ensures SameResult(Complete(Cpu(Trap(r, bad), m), i, early), Complete(Cpu(r, m), i, late))
            <==> SamePart(i.op, early.value, late.value)
  {
    EarlyStoreIff(r, m, bad, i, late.addr, late.size, early.value, late.value, late.store);
    StoredAlike(i.op, if late.store == Plain then 0 else ReadMem(m, late.addr, 4).value, early.value, late.value);
  }

  lemma StoredAlike(op: Op, there: Word, a: Word, b: Word)
    requires op in {Sb, Sh, Sw, Swl, Swr}
    ensures U(Stored(KindOf(op), a, there)) % Power256(SizeOf(op)) == U(Stored(KindOf(op), b, there)) % Power256(SizeOf(op))
            <==> SamePart(op, a, b)
  {
    if op == Swr {
      TopByteAlike(there, a, b);
    } else {
      LowBytesAlike(op, a, b);
    }
  }

  lemma LowBytesAlike(op: Op, a: Word, b: Word)
    requires op in {Sb, Sh, Sw, Swl}
    ensures U(a) % Power256(SizeOf(op)) == U(b) % Power256(SizeOf(op)) <==> SamePart(op, a, b)
  {
    Powers();
    if op == Sb {
      SameLowPart(a, b, 256, 0x100_0000);
    } else if op == Sh {
      SameLowPart(a, b, 0x1_0000, 0x1_0000);
    }
  }

  lemma TopByteAlike(there: Word, a: Word, b: Word)
    ensures U(Stored(RightStore, a, there)) % Power256(4) == U(Stored(RightStore, b, there)) % Power256(4) <==> (a - b) % 256 == 0
  {
    Powers();
    SameTopByte(there, a, b);
  }

  // ---------------------------------------------------------------- what the instructions mean

  /** The sign tests of ADD, ADDI and SUB are exactly the tests for a result that does not fit a word. */
  lemma OverflowIff(i: Instruction, o: Operands)
    requires i.op in {Add, AddI, Sub}
    ensures var exact := match i.op case Add => o.s + o.t case AddI => o.s + i.extra case _ => o.s - o.t;
      && (Execute(i, o) == Raise(OverflowException, 0) <==> !(-TWO_TO_31 <= exact < TWO_TO_31))
      && (Execute(i, o).Next? ==> Execute(i, o).value == exact)
  {
    if i.op == Add {
      SumOverflows(o.s, o.t);
    } else if i.op == AddI {
      SumOverflows(o.s, i.extra);
    } else {
      DifferenceOverflows(o.s, o.t);
    }
  }

  lemma SumOverflows(a: Word, b: Word)
    ensures !SignsDiffer(a, b) && SignsDiffer(b, Wrap(a + b)) <==> !(-TWO_TO_31 <= a + b < TWO_TO_31)
    ensures !SignsDiffer(a, b) ==> SignsDiffer(a, Wrap(a + b)) == SignsDiffer(b, Wrap(a + b))
  {
  }

  lemma DifferenceOverflows(a: Word, b: Word)
    ensures SignsDiffer(a, b) && SignsDiffer(a, Wrap(a - b)) <==> !(-TWO_TO_31 <= a - b < TWO_TO_31)
  {
  }

  /** HI and LO together hold the exact product. */
  lemma MultiplyIsExact(i: Instruction, o: Operands)
    requires i.op in {Op.Mult, MultU}
    ensures var e := Execute(i, o);
      e.Next? && DoubleWord(e.hi, e.lo, i.op == Op.Mult) == (if i.op == Op.Mult then o.s * o.t else U(o.s) * U(o.t))
  {
    var signedArith := i.op == Op.Mult;
    var p := Product(o.s, o.t, signedArith);
    ProductBounds(o.s, o.t);
    HalvesMakeWhole(p, signedArith);
  }

  lemma ProductBounds(a: Word, b: Word)
    ensures -TWO_TO_31 * TWO_TO_31 <= a * b <= TWO_TO_31 * TWO_TO_31
    ensures 0 <= U(a) * U(b) < TWO_TO_32 * TWO_TO_32
  {
    Bounds(Abs(a), Abs(b), TWO_TO_31);
    Bounds(U(a), U(b), TWO_TO_32 - 1);
    assert Abs(a) * Abs(b) == if (a < 0) == (b < 0) then a * b else 0 - a * b;
  }

  lemma HalvesMakeWhole(p: int, signedArith: bool)
    requires signedArith ==> -TWO_TO_31 * TWO_TO_31 <= p <= TWO_TO_31 * TWO_TO_31
    requires !signedArith ==> 0 <= p < TWO_TO_32 * TWO_TO_32
    ensures DoubleWord(UpperWord(p), LowerWord(p), signedArith) == p
  {
  }

  /** DIV leaves the quotient in LO and the remainder in HI; only the most negative word over -1 does not fit. */
  lemma DivideIsExact(i: Instruction, o: Operands)
    requires i.op == Div && o.t != 0
    ensures var e := Execute(i, o);
      && e.Next? && Abs(e.hi) < Abs(o.t) && (e.hi != 0 ==> (e.hi < 0) == (o.s < 0))
      && (o.s == o.t * e.lo + e.hi <==> !(o.s == -0x8000_0000 && o.t == -1))
  {
    DivideMagnitudes(o.s, o.t);
    QuotientFits(o.s, o.t);
    var q, r := Quotient(o.s, o.t), Remainder(o.s, o.t);
    assert -TWO_TO_31 <= r < TWO_TO_31;
  }

  lemma DivideMagnitudes(s: Word, t: Word)
    requires t != 0
    ensures s == t * Quotient(s, t) + Remainder(s, t)
    ensures Abs(Remainder(s, t)) < Abs(t)
  {
    var m: int, n: int := Abs(s), Abs(t);
    var q: int := m / n;
    assert m == n * q + m % n;
    assert t * Quotient(s, t) == if s < 0 then 0 - n * q else n * q;
  }

  lemma QuotientFits(s: Word, t: Word)
    requires t != 0
    ensures Quotient(s, t) == (if s == -0x8000_0000 && t == -1 then TWO_TO_31 else Wrap(Quotient(s, t)))
  {
    SmallQuotient(Abs(s), Abs(t));
    SignedFits(s, t, Abs(s) / Abs(t));
  }

  lemma SignedFits(s: Word, t: Word, q: int)
    requires 0 <= q <= TWO_TO_31 && (q == TWO_TO_31 ==> Abs(s) == TWO_TO_31 && Abs(t) == 1)
    requires s == -0x8000_0000 && t == -1 ==> q == TWO_TO_31
    ensures var quotient := if (s < 0) == (t < 0) then q else 0 - q;
      quotient == if s == -0x8000_0000 && t == -1 then TWO_TO_31 else Wrap(quotient)
  {
  }

  lemma SmallQuotient(m: nat, n: nat)
    requires m <= TWO_TO_31 && n >= 1
    ensures m / n <= m && (n >= 2 ==> m / n < TWO_TO_31) && (n == 1 ==> m / n == m)
  {
    var q := m / n;
    assert m == n * q + m % n;
    AtLeast(n, q);
  }

  lemma AtLeast(n: nat, q: nat)
    requires n >= 1
    ensures n * q >= q && (n >= 2 ==> n * q >= 2 * q)
  {
  }

  lemma StepKeepsCpuOk(c: Cpu)
    requires CpuOk(c)
    ensures OneInstruction(c).Stepped? ==> CpuOk(OneInstruction(c).cpu)
    ensures OneInstruction(c).Trapped? ==> CpuOk(OneInstruction(c).cpu)
  {
  }
}
