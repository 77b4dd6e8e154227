/**
 The simulated instruction set as a program sees it: which registers, program counters and bytes of
 memory every instruction leaves, in exact numbers and bits, and when it traps.  Mips says how the
 simulator arrives there; here it is said where it arrives.
 */
module InstructionSet {
  import opened Words
  import opened Translation
  import opened Mult
  import opened Mips
  import opened Bits

  // ---------------------------------------------------------------- what the instructions compute

  /** Four bytes further on. */
  function FourOn(pc: int): Word {
    Wrap(pc + 4)
  }

  /** What reading rs gives: the linking jumps have written the return address by then. */
  function SourceOf(i: Instruction, r: Regs): Word {
    if (i.op == Jalr && i.rs == i.rd) || ((i.op == Bgezal || i.op == Bltzal) && i.rs == 31) then FourOn(r[NEXT_PC_REG])
    else r[i.rs]
  }

  predicate IsSum(op: Op) {
    op.Add? || op.AddI? || op.Sub? || op.AddU? || op.AddIU? || op.SubU? || op.Slt? || op.SltI? || op.SltU? || op.SltIU?
  }

  /** Sums and differences: exact, or modulo 2^32 for the instructions that do not trap. */
  predicate Sums(i: Instruction, s: Word, t: Word, d: Reg, v: Word) {
    match i.op
    case Add => d == i.rd && v == s + t
    case AddI => d == i.rt && v == s + i.extra
    case Sub => d == i.rd && v == s - t
    case AddU => d == i.rd && (s + t - v) % TWO_TO_32 == 0
    case AddIU => d == i.rt && (s + i.extra - v) % TWO_TO_32 == 0
    case SubU => d == i.rd && (s - t - v) % TWO_TO_32 == 0
    case Slt => d == i.rd && v == if s < t then 1 else 0
    case SltI => d == i.rt && v == if s < i.extra then 1 else 0
    case SltU => d == i.rd && v == if U(s) < U(t) then 1 else 0
    case SltIU => d == i.rt && v == if U(s) < U(i.extra) then 1 else 0
    case _ => false
  }

  predicate IsLogical(op: Op) {
    op.And? || op.AndI? || op.Or? || op.OrI? || op.Xor? || op.XorI? || op.Nor? || op.Lui?
  }

  /** Bit k of a logical instruction; an immediate operand has no bits from 16 up.  OR is rs or rs. */
  predicate LogicAt(i: Instruction, s: Word, t: Word, v: Word, k: nat)
    requires k < 32
  {
    match i.op
    case And => Bit(v, k) <==> Bit(s, k) && Bit(t, k)
    case AndI => Bit(v, k) <==> Bit(s, k) && k < 16 && Bit(i.extra, k)
    case Or => Bit(v, k) <==> Bit(s, k)
    case OrI => Bit(v, k) <==> Bit(s, k) || (k < 16 && Bit(i.extra, k))
    case Xor => Bit(v, k) <==> Bit(s, k) != Bit(t, k)
    case XorI => Bit(v, k) <==> Bit(s, k) != (k < 16 && Bit(i.extra, k))
    case Nor => Bit(v, k) <==> !Bit(s, k) && !Bit(t, k)
    case _ => Bit(v, k) <==> k >= 16 && Bit(i.extra, k - 16)
  }

  ghost predicate Logic(i: Instruction, s: Word, t: Word, d: Reg, v: Word) {
    && IsLogical(i.op)
    && d == (if i.op.AndI? || i.op.OrI? || i.op.XorI? || i.op.Lui? then i.rt else i.rd)
    && forall k: nat :: k < 32 ==> LogicAt(i, s, t, v, k)
  }

  predicate IsShift(op: Op) {
    op.Sll? || op.Sllv? || op.Srl? || op.Srlv? || op.Sra? || op.Srav?
  }

  /** Bit k of a shift by n.  Every shift to the right copies the sign down. */
  predicate ShiftAt(op: Op, n: nat, t: Word, v: Word, k: nat)
    requires k < 32
  {
    if op.Sll? || op.Sllv? then Bit(v, k) <==> k >= n && Bit(t, k - n)
    else Bit(v, k) <==> Bit(t, if n + k < 32 then n + k else 31)
  }

  ghost predicate Shifts(i: Instruction, s: Word, t: Word, d: Reg, v: Word) {
    var n := if i.op.Sllv? || i.op.Srlv? || i.op.Srav? then U(s) % 32 else U(i.extra);
    IsShift(i.op) && d == i.rd && forall k: nat :: k < 32 ==> ShiftAt(i.op, n, t, v, k)
  }

  /** HI and LO.  The product is exact, and so is the quotient but for the most negative word over -1. */
  predicate Halves(i: Instruction, s: Word, t: Word, r: Regs, d: Reg, v: Word, hi: Word, lo: Word) {
    match i.op
    case Mfhi => d == i.rd && v == r[HI_REG] && hi == r[HI_REG] && lo == r[LO_REG]
    case Mflo => d == i.rd && v == r[LO_REG] && hi == r[HI_REG] && lo == r[LO_REG]
    case Mthi => d == 0 && hi == s && lo == r[LO_REG]
    case Mtlo => d == 0 && hi == r[HI_REG] && lo == s
    case Mult => d == 0 && hi * TWO_TO_32 + U(lo) == s * t
    case MultU => d == 0 && U(hi) * TWO_TO_32 + U(lo) == U(s) * U(t)
    case Div =>
      d == 0 && if t == 0 then hi == lo == 0
                else if s == -0x8000_0000 && t == -1 then lo == s && hi == 0
                else s == t * lo + hi && Abs(hi) < Abs(t) && (hi != 0 ==> (hi < 0) == (s < 0))
    case DivU => d == 0 && if t == 0 then hi == lo == 0 else U(s) == U(t) * U(lo) + U(hi) && U(hi) < U(t)
    case _ => false
  }

  /** Branches and jumps: the condition, the register that gets the return address, and where they go. */
  predicate Jumps(i: Instruction, s: Word, t: Word, next: Word, d: Reg, v: Word, pc: Word) {
    var after, there := FourOn(next), Wrap(next + 4 * i.extra);
    match i.op
    case Beq => d == 0 && pc == if s == t then there else after
    case Bne => d == 0 && pc == if s == t then after else there
    case Bgez => d == 0 && pc == if s < 0 then after else there
    case Bgtz => d == 0 && pc == if s <= 0 then after else there
    case Blez => d == 0 && pc == if s <= 0 then there else after
    case Bltz => d == 0 && pc == if s < 0 then there else after
    case Bgezal => d == 31 && v == after && pc == if s < 0 then after else there
    case Bltzal => d == 31 && v == after && pc == if s < 0 then there else after
    case J => d == 0 && U(pc) % 0x1000_0000 == 4 * i.extra && U(pc) / 0x1000_0000 == U(after) / 0x1000_0000
    case Jal => d == 31 && v == after && U(pc) % 0x1000_0000 == 4 * i.extra && U(pc) / 0x1000_0000 == U(after) / 0x1000_0000
    case Jalr => d == i.rd && v == after && pc == s
    case Jr => d == 0 && pc == s
    case _ => false
  }

  /** The instruction gives register d the value v, leaves hi and lo, and goes on at pc after the next one. */
  ghost predicate Computes(i: Instruction, r: Regs, d: Reg, v: Word, hi: Word, lo: Word, pc: Word) {
    var s, t := SourceOf(i, r), r[i.rt];
    var sameHalves, straight := hi == r[HI_REG] && lo == r[LO_REG], pc == FourOn(r[NEXT_PC_REG]);
    || (Sums(i, s, t, d, v) && sameHalves && straight)
    || (Logic(i, s, t, d, v) && sameHalves && straight)
    || (Shifts(i, s, t, d, v) && sameHalves && straight)
    || (Halves(i, s, t, r, d, v, hi, lo) && straight)
    || (Jumps(i, s, t, r[NEXT_PC_REG], d, v, pc) && sameHalves)
  }

  predicate IsLoad(op: Op) {
    op.Lb? || op.Lbu? || op.Lh? || op.Lhu? || op.Lw? || op.Lwl? || op.Lwr?
  }

  predicate IsStore(op: Op) {
    op.Sb? || op.Sh? || op.Sw? || op.Swl? || op.Swr?
  }

  /** The ranges Decode leaves `extra` in. */
  predicate InRange(i: Instruction) {
    && (i.op.Sll? || i.op.Srl? || i.op.Sra? ==> 0 <= i.extra < 32)
    && (i.op.J? || i.op.Jal? ==> 0 <= i.extra < 0x400_0000)
  }

  lemma DecodedInRange(raw: Word)
    ensures InRange(Decode(raw))
  {
  }

  /** Where a computation that only gives a register a value goes on. */
  predicate Plain(r: Regs, e: Effect) {
    e.Next? && e.hi == r[HI_REG] && e.lo == r[LO_REG] && e.pc == FourOn(r[NEXT_PC_REG])
  }

  lemma SumsRight(i: Instruction, r: Regs, o: Operands, e: Effect)
    requires o == OperandsOf(i, r) && e == Execute(i, o) && e.Next? && IsSum(i.op)
    ensures Plain(r, e) && Sums(i, r[i.rs], r[i.rt], Dest(i), e.value)
  {
    if i.op.Add? || i.op.AddI? || i.op.Sub? {
      OverflowIff(i, o);
      CheckedSums(i, r, o, e);
    } else {
      UncheckedSums(i, r, o, e);
    }
  }

  lemma CheckedSums(i: Instruction, r: Regs, o: Operands, e: Effect)
    requires o == OperandsOf(i, r) && e == Execute(i, o) && e.Next? && (i.op.Add? || i.op.AddI? || i.op.Sub?)
    requires e.value == match i.op case Add => o.s + o.t case AddI => o.s + i.extra case _ => o.s - o.t
    ensures Plain(r, e) && Sums(i, r[i.rs], r[i.rt], Dest(i), e.value)
  {
  }

  lemma UncheckedSums(i: Instruction, r: Regs, o: Operands, e: Effect)
    requires o == OperandsOf(i, r) && e == Execute(i, o)
    requires IsSum(i.op) && !i.op.Add? && !i.op.AddI? && !i.op.Sub?
    ensures Plain(r, e) && Sums(i, r[i.rs], r[i.rt], Dest(i), e.value)
  {
  }

  lemma LogicRight(i: Instruction, r: Regs, o: Operands, e: Effect)
    requires o == OperandsOf(i, r) && e == Execute(i, o) && IsLogical(i.op)
    ensures Plain(r, e) && Logic(i, r[i.rs], r[i.rt], Dest(i), e.value)
  {
    LogicIsPlain(i, r, o, e);
    LogicValue(i, r[i.rs], r[i.rt], o, e);
    forall k: nat | k < 32 ensures LogicAt(i, r[i.rs], r[i.rt], e.value, k) {
      LogicBit(i, r[i.rs], r[i.rt], k);
    }
  }

  lemma LogicIsPlain(i: Instruction, r: Regs, o: Operands, e: Effect)
    requires o == OperandsOf(i, r) && e == Execute(i, o) && IsLogical(i.op)
    ensures Plain(r, e)
    ensures (i.op != Lui ==> o.s == r[i.rs]) && (i.op.And? || i.op.Xor? || i.op.Nor? ==> o.t == r[i.rt])
  {
  }

  /** The values the simulator takes for these bits. */
  function LogicOf(i: Instruction, s: Word, t: Word): Word {
    match i.op
    case And => BitAnd(s, t)
    case AndI => BitAnd(s, Half(i.extra))
    case Or => BitOr(s, s)
    case OrI => BitOr(s, Half(i.extra))
    case Xor => BitXor(s, t)
    case XorI => BitXor(s, Half(i.extra))
    case Nor => -1 - BitOr(s, t)
    case _ => Wrap(i.extra * 0x1_0000)
  }

  lemma LogicValue(i: Instruction, s: Word, t: Word, o: Operands, e: Effect)
    requires e == Execute(i, o) && IsLogical(i.op)
    requires (i.op != Lui ==> o.s == s) && (i.op.And? || i.op.Xor? || i.op.Nor? ==> o.t == t)
    ensures e.Next? && e.value == LogicOf(i, s, t)
  {
  }

  lemma LogicBit(i: Instruction, s: Word, t: Word, k: nat)
    requires IsLogical(i.op) && k < 32
    ensures LogicAt(i, s, t, LogicOf(i, s, t), k)
  {
    match i.op
    case And => LogicalBits(s, t, k);
    case Xor => LogicalBits(s, t, k);
    case Or => OrOfSame(s);
    case Nor =>
      LogicalBits(s, t, k);
      ComplementBits(BitOr(s, t), k);
    case Lui => UpperHalfBits(i.extra, k);
    case _ =>
      LogicalBits(s, Half(i.extra), k);
      HalfBits(i.extra, k);
  }

  lemma ShiftsRight(i: Instruction, r: Regs, o: Operands, e: Effect)
    requires o == OperandsOf(i, r) && e == Execute(i, o) && IsShift(i.op)
    ensures Plain(r, e) && Shifts(i, r[i.rs], r[i.rt], Dest(i), e.value)
  {
    var n := if i.op.Sllv? || i.op.Srlv? || i.op.Srav? then U(r[i.rs]) % 32 else U(i.extra);
    ShiftedBy(i, r, o, e, n);
    forall k: nat | k < 32 ensures ShiftAt(i.op, n, r[i.rt], e.value, k) {
      LeftShiftBits(r[i.rt], n, k);
      RightShiftBits(r[i.rt], n, k);
    }
  }

  lemma ShiftedBy(i: Instruction, r: Regs, o: Operands, e: Effect, n: nat)
    requires o == OperandsOf(i, r) && e == Execute(i, o) && IsShift(i.op)
    requires n == if i.op.Sllv? || i.op.Srlv? || i.op.Srav? then U(r[i.rs]) % 32 else U(i.extra)
    ensures Plain(r, e) && e.value == if i.op.Sll? || i.op.Sllv? then Mips.ShiftLeft(r[i.rt], n) else Mips.ShiftRight(r[i.rt], n)
  {
  }

  predicate IsForHalves(op: Op) {
    op.Mfhi? || op.Mflo? || op.Mthi? || op.Mtlo? || op.Mult? || op.MultU? || op.Div? || op.DivU?
  }

  lemma HalvesRight(i: Instruction, r: Regs, o: Operands, e: Effect)
    requires o == OperandsOf(i, r) && e == Execute(i, o) && IsForHalves(i.op)
    ensures e.Next? && e.pc == FourOn(r[NEXT_PC_REG])
    ensures Halves(i, r[i.rs], r[i.rt], r, Dest(i), e.value, e.hi, e.lo)
  {
    match i.op
    case Mult => MultiplyIsExact(i, o);
    case MultU => MultiplyIsExact(i, o);
    case Div =>
      if o.t != 0 {
        DivideIsExact(i, o);
        DivideOverflow(o.s, o.t);
      }
    case DivU => DivideUnsigned(U(o.s), U(o.t));
    case _ =>
  }

  /** The one division that does not fit. */
  lemma DivideOverflow(s: Word, t: Word)
    requires t != 0
    ensures s == -0x8000_0000 && t == -1 ==> Wrap(Quotient(s, t)) == s && Wrap(Remainder(s, t)) == 0
  {
  }

  lemma DivideUnsigned(s: Unsigned, t: Unsigned)
    ensures t != 0 ==> 0 <= s / t < TWO_TO_32 && 0 <= s % t < t && s == t * (s / t) + s % t
    ensures t != 0 ==> U(Wrap(s / t)) == s / t && U(Wrap(s % t)) == s % t
  {
    if t != 0 {
      Bits.Divided(s, t);
      QuotientAtMost(s, t);
      UnsignedOf(s / t);
      UnsignedOf(s % t);
    }
  }

  lemma QuotientAtMost(s: nat, t: nat)
    requires t >= 1
    ensures s / t <= s && s == t * (s / t) + s % t
  {
    AtLeast(t, s / t);
  }

  predicate IsTransfer(op: Op) {
    op.Beq? || op.Bne? || op.Bgez? || op.Bgtz? || op.Blez? || op.Bltz? || op.Bgezal? || op.Bltzal?
    || op.J? || op.Jal? || op.Jalr? || op.Jr?
  }

  lemma JumpsRight(i: Instruction, r: Regs, o: Operands, e: Effect)
    requires o == OperandsOf(i, r) && e == Execute(i, o) && IsTransfer(i.op) && InRange(i)
    ensures e.Next? && e.hi == r[HI_REG] && e.lo == r[LO_REG]
    ensures Jumps(i, SourceOf(i, r), r[i.rt], r[NEXT_PC_REG], Dest(i), e.value, e.pc)
  {
    if i.op.J? || i.op.Jal? {
      FarJumpsRight(i, r, o, e);
    } else if i.op.Jr? || i.op.Jalr? {
      RegisterJumpsRight(i, r, o, e);
    } else {
      BranchesRight(i, r, o, e);
    }
  }

  lemma FarJumpsRight(i: Instruction, r: Regs, o: Operands, e: Effect)
    requires o == OperandsOf(i, r) && e == Execute(i, o) && (i.op.J? || i.op.Jal?) && InRange(i)
    ensures e.Next? && e.hi == r[HI_REG] && e.lo == r[LO_REG]
    ensures Jumps(i, SourceOf(i, r), r[i.rt], r[NEXT_PC_REG], Dest(i), e.value, e.pc)
  {
    var after := FourOn(r[NEXT_PC_REG]);
    FarJump(i, r, o, e);
    JumpTarget(U(after), 4 * i.extra);
  }

  lemma FarJump(i: Instruction, r: Regs, o: Operands, e: Effect)
    requires o == OperandsOf(i, r) && e == Execute(i, o) && (i.op.J? || i.op.Jal?)
    ensures e.Next? && e.hi == r[HI_REG] && e.lo == r[LO_REG] && (i.op.Jal? ==> e.value == FourOn(r[NEXT_PC_REG]))
    ensures e.pc == Wrap(U(FourOn(r[NEXT_PC_REG])) / 0x1000_0000 * 0x1000_0000 + 4 * i.extra)
  {
  }

  lemma RegisterJumpsRight(i: Instruction, r: Regs, o: Operands, e: Effect)
    requires o == OperandsOf(i, r) && e == Execute(i, o) && (i.op.Jr? || i.op.Jalr?)
    ensures e.Next? && e.hi == r[HI_REG] && e.lo == r[LO_REG]
    ensures Jumps(i, SourceOf(i, r), r[i.rt], r[NEXT_PC_REG], Dest(i), e.value, e.pc)
  {
  }

  lemma BranchesRight(i: Instruction, r: Regs, o: Operands, e: Effect)
    requires o == OperandsOf(i, r) && e == Execute(i, o) && IsTransfer(i.op)
    requires !i.op.J? && !i.op.Jal? && !i.op.Jr? && !i.op.Jalr?
    ensures e.Next? && e.hi == r[HI_REG] && e.lo == r[LO_REG]
    ensures Jumps(i, SourceOf(i, r), r[i.rt], r[NEXT_PC_REG], Dest(i), e.value, e.pc)
  {
    if i.op.Bgezal? || i.op.Bltzal? {
      assert o.s == SourceOf(i, r);
    } else {
      assert o.s == r[i.rs] == SourceOf(i, r);
    }
  }

  lemma JumpTarget(after: Unsigned, to: nat)
    requires to < 0x1000_0000
    ensures var pc := U(Wrap(after / 0x1000_0000 * 0x1000_0000 + to)); pc % 0x1000_0000 == to && pc / 0x1000_0000 == after / 0x1000_0000
  {
    UnsignedOf(after / 0x1000_0000 * 0x1000_0000 + to);
  }

  lemma ComputesRight(i: Instruction, r: Regs, o: Operands, e: Effect)
    requires o == OperandsOf(i, r) && e == Execute(i, o) && e.Next? && InRange(i)
    ensures Computes(i, r, Dest(i), e.value, e.hi, e.lo, e.pc)
  {
    if IsSum(i.op) {
      SumsRight(i, r, o, e);
      assert SourceOf(i, r) == r[i.rs];
    } else if IsLogical(i.op) {
      LogicRight(i, r, o, e);
      assert SourceOf(i, r) == r[i.rs];
    } else if IsShift(i.op) {
      ShiftsRight(i, r, o, e);
      assert SourceOf(i, r) == r[i.rs];
    } else if IsForHalves(i.op) {
      HalvesRight(i, r, o, e);
      assert SourceOf(i, r) == r[i.rs];
    } else {
      OnlyTransfers(i, o, e);
      JumpsRight(i, r, o, e);
    }
  }

  lemma OnlyTransfers(i: Instruction, o: Operands, e: Effect)
    requires e == Execute(i, o) && e.Next? && !IsSum(i.op) && !IsLogical(i.op) && !IsShift(i.op) && !IsForHalves(i.op)
    ensures IsTransfer(i.op)
  {
  }

  // ---------------------------------------------------------------- what a step leaves

  /** The instruction at the program counter. */
  function Fetched(c: Cpu): Instruction
    requires CpuOk(c)
  {
    Decode(ReadMem(c.memory, c.regs[PC_REG], 4).value)
  }

  /**
   Register d has got the value v and then the pending load's target its value; every other general
   register is as it was.  The program counters have moved on, and a load into `loading` is pending.
   */
  ghost predicate Leaves(r: Regs, r': Regs, d: Reg, v: Word, hi: Word, lo: Word, pc: Word, loading: Reg) {
    && r'[0] == 0
    && (forall k :: 1 <= k < 32 ==> r'[k] == if k == r[LOAD_REG] then r[LOAD_VALUE_REG] else if k == d then v else r[k])
    && r'[HI_REG] == hi && r'[LO_REG] == lo
    && r'[PREV_PC_REG] == r[PC_REG] && r'[PC_REG] == r[NEXT_PC_REG] && r'[NEXT_PC_REG] == pc
    && r'[LOAD_REG] == loading && r'[BAD_VADDR_REG] == r[BAD_VADDR_REG]
  }

  /** The same with nothing computed. */
  ghost predicate LeavesAll(r: Regs, r': Regs, loading: Reg) {
    Leaves(r, r', 0, 0, r[HI_REG], r[LO_REG], FourOn(r[NEXT_PC_REG]), loading)
  }

  lemma FinishLeaves(r: Regs, d: Reg, v: Word, hi: Word, lo: Word, pc: Word)
    requires RegsOk(r)
    ensures Leaves(r, Finish(r[d := v][HI_REG := hi][LO_REG := lo][0 := 0], 0, 0, pc), d, v, hi, lo, pc, 0)
  {
  }

  lemma FinishLeavesAll(r: Regs, reg: Reg, value: Word)
    requires RegsOk(r)
    ensures LeavesAll(r, Finish(r, reg, value, FourOn(r[NEXT_PC_REG])), reg)
    ensures Finish(r, reg, value, FourOn(r[NEXT_PC_REG]))[LOAD_VALUE_REG] == value
  {
  }

  /** Every instruction but loads and stores: it computes what Computes says, and that is all it does. */
  lemma ComputationTakesEffect(c: Cpu) returns (d: Reg, v: Word, hi: Word, lo: Word, pc: Word)
    requires CpuOk(c) && OneInstruction(c).Stepped? && !IsLoad(Fetched(c).op) && !IsStore(Fetched(c).op)
    ensures Computes(Fetched(c), c.regs, d, v, hi, lo, pc)
    ensures Leaves(c.regs, OneInstruction(c).cpu.regs, d, v, hi, lo, pc, 0)
    ensures SameMemory(c.memory, OneInstruction(c).cpu.memory)
  {
    var fetch, i := ReadMem(c.memory, c.regs[PC_REG], 4), Fetched(c);
    var o := OperandsOf(i, c.regs);
    var e := Execute(i, o);
    TranslateKeepsMapping(c.memory, c.regs[PC_REG], 4, false);
    DecodedInRange(fetch.value);
    OnlyNextSteps(c.(memory := fetch.memory), i, o, e);
    ComputesRight(i, c.regs, o, e);
    FinishLeaves(c.regs, Dest(i), e.value, e.hi, e.lo, e.pc);
    d, v, hi, lo, pc := Dest(i), e.value, e.hi, e.lo, e.pc;
  }

  lemma OnlyNextSteps(c: Cpu, i: Instruction, o: Operands, e: Effect)
    requires CpuOk(c) && e == Execute(i, o) && Complete(c, i, e).Stepped? && !IsLoad(i.op) && !IsStore(i.op)
    ensures e.Next?
    ensures Complete(c, i, e) == Stepped(c.(regs := Finish(c.regs[Dest(i) := e.value][HI_REG := e.hi][LO_REG := e.lo][0 := 0], 0, 0, e.pc)))
  {
  }

  // ---------------------------------------------------------------- loads

  function WidthOf(op: Op): nat {
    if op.Lb? || op.Lbu? || op.Sb? then 1 else if op.Lh? || op.Lhu? || op.Sh? then 2 else 4
  }

  /** The address of a load or store. */
  function AddressOf(i: Instruction, r: Regs): Word {
    Wrap(r[i.rs] + i.extra)
  }

  /** Where in physical memory an access goes. */
  function PhysicalPlace(m: Memory, addr: Word, size: nat, writing: bool): int {
    Translate(m, addr, size, writing).physAddr
  }

  /** What a load makes of the number `b` in memory; LWR replaces the low byte of what the register would have had. */
  predicate LoadedFrom(op: Op, b: nat, prior: Word, v: Word) {
    match op
    case Lb => v == if b < 128 then b else b - 256
    case Lbu => v == b
    case Lh => v == if b < 0x8000 then b else b - 0x1_0000
    case Lhu => v == b
    case Lwr => U(v) / 256 == U(prior) / 256 && U(v) % 256 == b / 0x100_0000
    case _ => U(v) == b
  }

  /** The value register t has once the pending load is done. */
  function Settled(r: Regs, t: Reg): Word {
    if r[LOAD_REG] == t then r[LOAD_VALUE_REG] else r[t]
  }

  /** A load: nothing is changed but that the value in memory is on its way to rt. */
  lemma LoadTakesEffect(c: Cpu)
    requires CpuOk(c) && OneInstruction(c).Stepped? && IsLoad(Fetched(c).op)
    ensures var i, c' := Fetched(c), OneInstruction(c).cpu;
      var addr, size := AddressOf(i, c.regs), WidthOf(i.op);
      var at := PhysicalPlace(c.memory, addr, size, false);
      && Translate(c.memory, addr, size, false).exception == NoException && 0 <= at && at + size <= MEMORY_SIZE
      && LoadedFrom(i.op, Fetch(c.memory.bytes, at, size), Settled(c.regs, i.rt), c'.regs[LOAD_VALUE_REG])
      && LeavesAll(c.regs, c'.regs, i.rt) && SameMemory(c.memory, c'.memory)
  {
    var fetch, i := ReadMem(c.memory, c.regs[PC_REG], 4), Fetched(c);
    var m, addr, size := fetch.memory, AddressOf(i, c.regs), WidthOf(i.op);
    TranslateKeepsMapping(c.memory, c.regs[PC_REG], 4, false);
    TranslatesAlike(c.memory, m, addr, size, false);
    TranslateKeepsMapping(m, addr, size, false);
    LoadEffect(i, OperandsOf(i, c.regs), c.regs);
    CompletedLoad(Cpu(c.regs, m), i, Execute(i, OperandsOf(i, c.regs)), addr, size);
    FinishLeavesAll(c.regs, i.rt, OneInstruction(c).cpu.regs[LOAD_VALUE_REG]);
    SameMemoryTransitive(c.memory, m, OneInstruction(c).cpu.memory);
  }

  lemma LoadEffect(i: Instruction, o: Operands, r: Regs)
    requires IsLoad(i.op) && o == OperandsOf(i, r)
    ensures Execute(i, o).Load? ==> Execute(i, o).addr == AddressOf(i, r) && Execute(i, o).size == WidthOf(i.op)
    ensures Execute(i, o).Load? ==> Execute(i, o).load == LoadKindOf(i.op)
    ensures Execute(i, o).Load? || Execute(i, o).Raise? || Execute(i, o).Abort?
  {
  }

  function LoadKindOf(op: Op): LoadKind {
    match op
    case Lb => SignedByte
    case Lbu => UnsignedByte
    case Lh => SignedHalf
    case Lhu => UnsignedHalf
    case Lwl => LeftPart
    case Lwr => RightPart
    case _ => FullWord
  }

  lemma CompletedLoad(c: Cpu, i: Instruction, e: Effect, addr: Word, size: nat)
    requires CpuOk(c) && IsLoad(i.op) && Complete(c, i, e).Stepped?
    requires e.Load? || e.Raise? || e.Abort?
    requires e.Load? ==> e.addr == addr && e.size == size == WidthOf(i.op) && e.load == LoadKindOf(i.op)
    ensures var m, at, c' := ReadMem(c.memory, addr, size), PhysicalPlace(c.memory, addr, size, false), Complete(c, i, e).cpu;
      && m.exception == NoException && 0 <= at && at + size <= MEMORY_SIZE && c'.memory == m.memory
      && LoadedFrom(i.op, Fetch(c.memory.bytes, at, size), Settled(c.regs, i.rt), c'.regs[LOAD_VALUE_REG])
      && c'.regs == Finish(c.regs, i.rt, c'.regs[LOAD_VALUE_REG], FourOn(c.regs[NEXT_PC_REG]))
  {
    StaysInPage(c.memory, addr, size, false);
    var at := PhysicalPlace(c.memory, addr, size, false);
    var b := Fetch(c.memory.bytes, at, size);
    FetchBelow(c.memory.bytes, at, size);
    Powers();
    LoadedValue(i.op, b, size, Settled(c.regs, i.rt));
  }

  lemma {:induction false} FetchBelow(bytes: seq<Byte>, at: nat, size: nat)
    requires at + size <= |bytes|
    ensures Fetch(bytes, at, size) < Power256(size)
    decreases size
  {
    if size > 0 {
      FetchBelow(bytes, at + 1, size - 1);
    }
  }

  lemma LoadedValue(op: Op, b: nat, size: nat, prior: Word)
    requires IsLoad(op) && size == WidthOf(op)
    requires b < (if size == 1 then 256 else if size == 2 then 0x1_0000 else TWO_TO_32)
    ensures LoadedFrom(op, b, prior, Loaded(LoadKindOf(op), Widen(b, size), prior))
  {
    if op.Lwr? {
      LoadedByte(b, prior);
    } else if size == 4 {
      UnsignedOf(b);
    } else if size == 2 {
      LoadedHalf(b);
    }
  }

  lemma LoadedHalf(b: nat)
    requires b < 0x1_0000
    ensures Widen(b, 2) == b && U(Widen(b, 2)) % 0x1_0000 == b
  {
  }

  lemma LoadedByte(b: nat, prior: Word)
    requires b < TWO_TO_32
    ensures LoadedFrom(Lwr, b, prior, Loaded(RightPart, Widen(b, 4), prior))
  {
    UnsignedOf(b);
    MergedByte(U(prior) / 256, b / 0x100_0000);
  }

  lemma MergedByte(upper: nat, low: nat)
    requires upper < 0x100_0000 && low < 256
    ensures U(Wrap(upper * 256 + low)) / 256 == upper && U(Wrap(upper * 256 + low)) % 256 == low
  {
    UnsignedOf(upper * 256 + low);
  }

  /** Whatever the next instruction is, and whether or not it traps, it finds the pending load done. */
  lemma PendingArrives(c: Cpu)
    requires CpuOk(c) && !OneInstruction(c).Aborted? && c.regs[LOAD_REG] != 0
    ensures OneInstruction(c).cpu.regs[c.regs[LOAD_REG]] == c.regs[LOAD_VALUE_REG]
  {
    if OneInstruction(c).Trapped? {
      TrapsArePrecise(c);
    } else {
      StepSettles(c.(memory := ReadMem(c.memory, c.regs[PC_REG], 4).memory), Fetched(c), Execute(Fetched(c), OperandsOf(Fetched(c), c.regs)));
    }
  }

  lemma StepSettles(c: Cpu, i: Instruction, e: Effect)
    requires CpuOk(c) && Complete(c, i, e).Stepped? && c.regs[LOAD_REG] != 0
    ensures Complete(c, i, e).cpu.regs[c.regs[LOAD_REG]] == c.regs[LOAD_VALUE_REG]
  {
  }

  /** A load and any step after it: register rt holds what was in memory at rs + extra, extended as the instruction says. */
  lemma LoadArrives(c: Cpu)
    requires CpuOk(c) && OneInstruction(c).Stepped? && IsLoad(Fetched(c).op) && Fetched(c).rt != 0
    ensures CpuOk(OneInstruction(c).cpu)
    ensures var i, after := Fetched(c), OneInstruction(OneInstruction(c).cpu);
      var at, size := PhysicalPlace(c.memory, AddressOf(i, c.regs), WidthOf(i.op), false), WidthOf(i.op);
      && 0 <= at && at + size <= MEMORY_SIZE
      && (!after.Aborted? ==> LoadedFrom(i.op, Fetch(c.memory.bytes, at, size), Settled(c.regs, i.rt), after.cpu.regs[i.rt]))
  {
    StepKeepsCpuOk(c);
    LoadTakesEffect(c);
    var c' := OneInstruction(c).cpu;
    if !OneInstruction(c').Aborted? {
      PendingArrives(c');
    }
  }

  // ---------------------------------------------------------------- stores

  /** The number a store leaves where `b` was: the low bytes of rt; SWR writes one byte, the last. */
  function StoredOver(op: Op, b: nat, t: Word): nat {
    match op
    case Sb => U(t) % 256
    case Sh => U(t) % 0x1_0000
    case Swr => b % 0x100_0000 + 0x100_0000 * (U(t) % 256)
    case _ => U(t)
  }

  /** The number in memory where a store would go. */
  ghost function There(m: Memory, addr: Word, size: nat): nat {
    var at := PhysicalPlace(m, addr, size, true);
    if 0 <= at && at + size <= |m.bytes| then Fetch(m.bytes, at, size) else 0
  }

  /** The store goes through, and memory is the same but for the bytes at addr, which now hold the number v. */
  ghost predicate Written(m: Memory, m': Memory, addr: Word, size: nat, v: nat) {
    var at := PhysicalPlace(m, addr, size, true);
    && |m.bytes| == |m'.bytes| == MEMORY_SIZE && m'.kind == m.kind && SameMapping(m.table, m'.table)
    && Translate(m, addr, size, true).exception == NoException && 0 <= at && at + size <= MEMORY_SIZE
    && (forall p :: 0 <= p < MEMORY_SIZE && !(at <= p < at + size) ==> m'.bytes[p] == m.bytes[p])
    && Fetch(m'.bytes, at, size) == v
  }

  /** One memory is the other after a store of register value t at addr. */
  ghost predicate StoredInto(op: Op, m: Memory, m': Memory, addr: Word, t: Word) {
    Written(m, m', addr, WidthOf(op), StoredOver(op, There(m, addr, WidthOf(op)), t))
  }

  /** A store: the bytes at rs + extra are those of rt, and no other byte and no register is changed. */
  lemma StoreTakesEffect(c: Cpu)
    requires CpuOk(c) && OneInstruction(c).Stepped? && IsStore(Fetched(c).op)
    ensures var i, c' := Fetched(c), OneInstruction(c).cpu;
      && StoredInto(i.op, c.memory, c'.memory, AddressOf(i, c.regs), c.regs[i.rt])
      && LeavesAll(c.regs, c'.regs, 0)
  {
    var fetch, i := ReadMem(c.memory, c.regs[PC_REG], 4), Fetched(c);
    var m, addr := fetch.memory, AddressOf(i, c.regs);
    TranslateKeepsMapping(c.memory, c.regs[PC_REG], 4, false);
    StoreEffectOf(i, OperandsOf(i, c.regs), c.regs);
    CompletedStore(Cpu(c.regs, m), i, addr, c.regs[i.rt]);
    StoredBefore(i.op, c.memory, m, OneInstruction(c).cpu.memory, addr, c.regs[i.rt]);
    FinishLeavesAll(c.regs, 0, 0);
  }

  lemma StoreEffectOf(i: Instruction, o: Operands, r: Regs)
    requires IsStore(i.op) && o == OperandsOf(i, r)
    ensures Execute(i, o) == StoreOf(i.op, AddressOf(i, r), r[i.rt])
  {
    assert o.s == r[i.rs] && o.t == r[i.rt];
    StoreEffect(i, o);
  }

  /** Use bits make no difference. */
  lemma StoredBefore(op: Op, m0: Memory, m: Memory, m': Memory, addr: Word, t: Word)
    requires IsStore(op) && SameMemory(m0, m) && StoredInto(op, m, m', addr, t)
    ensures StoredInto(op, m0, m', addr, t)
  {
    TranslatesAlike(m0, m, addr, WidthOf(op), true);
  }

  lemma CompletedStore(c: Cpu, i: Instruction, addr: Word, t: Word)
    requires CpuOk(c) && IsStore(i.op) && Complete(c, i, StoreOf(i.op, addr, t)).Stepped?
    ensures StoredInto(i.op, c.memory, Complete(c, i, StoreOf(i.op, addr, t)).cpu.memory, addr, t)
    ensures Complete(c, i, StoreOf(i.op, addr, t)).cpu.regs == Finish(c.regs, 0, 0, FourOn(c.regs[NEXT_PC_REG]))
  {
    if i.op.Swl? || i.op.Swr? {
      var m := ReadMem(c.memory, addr, 4);
      TranslateKeepsMapping(c.memory, addr, 4, false);
      PartialStore(i.op, c.memory, m.memory, addr, m.value, t, Stored(KindOf(i.op), t, m.value));
      StoredBefore(i.op, c.memory, m.memory, WriteMem(m.memory, addr, 4, Stored(KindOf(i.op), t, m.value)).memory, addr, t);
    } else {
      PlainStore(i.op, c.memory, addr, t);
    }
  }

  lemma WriteOverwrites(m: Memory, addr: Word, size: nat, v: Word)
    requires WellFormed(m) && AccessSize(size) && WriteMem(m, addr, size, v).exception == NoException
    ensures Written(m, WriteMem(m, addr, size, v).memory, addr, size, U(v) % Power256(size))
  {
    TranslateKeepsMapping(m, addr, size, true);
    StaysInPage(m, addr, size, true);
    FetchDeposited(m.bytes, PhysicalPlace(m, addr, size, true), size, U(v));
  }

  lemma PlainStore(op: Op, m: Memory, addr: Word, t: Word)
    requires WellFormed(m) && (op.Sb? || op.Sh? || op.Sw?) && WriteMem(m, addr, WidthOf(op), t).exception == NoException
    ensures StoredInto(op, m, WriteMem(m, addr, WidthOf(op), t).memory, addr, t)
  {
    WriteOverwrites(m, addr, WidthOf(op), t);
    PlainValue(op, There(m, addr, WidthOf(op)), t);
  }

  lemma PlainValue(op: Op, b: nat, t: Word)
    requires op.Sb? || op.Sh? || op.Sw? || op.Swl?
    ensures StoredOver(op, b, t) == U(t) % Power256(WidthOf(op))
  {
    Powers();
  }

  lemma PartialStore(op: Op, m0: Memory, m: Memory, addr: Word, there: Word, t: Word, v: Word)
    requires WellFormed(m0) && SameMemory(m0, m) && (op.Swl? || op.Swr?) && v == Stored(KindOf(op), t, there)
    requires ReadMem(m0, addr, 4).exception == NoException && there == ReadMem(m0, addr, 4).value
    requires WriteMem(m, addr, 4, v).exception == NoException
    ensures StoredInto(op, m, WriteMem(m, addr, 4, v).memory, addr, t)
  {
    WriteOverwrites(m, addr, 4, v);
    WordThere(m0, m, addr);
    PartialValue(op, there, t, v);
    NumberStored(op, m, WriteMem(m, addr, 4, v).memory, addr, t, U(v) % Power256(4));
  }

  lemma NumberStored(op: Op, m: Memory, m': Memory, addr: Word, t: Word, n: nat)
    requires (op.Swl? || op.Swr?) && Written(m, m', addr, 4, n) && n == StoredOver(op, There(m, addr, 4), t)
    ensures StoredInto(op, m, m', addr, t)
  {
  }

  lemma PartialValue(op: Op, there: Word, t: Word, v: Word)
    requires (op.Swl? || op.Swr?) && v == Stored(KindOf(op), t, there)
    ensures StoredOver(op, U(there), t) == U(v) % Power256(4)
  {
    Powers();
    if op.Swr? {
      TopByte(U(there) % 0x100_0000, t);
    }
  }

  lemma WordThere(m0: Memory, m: Memory, addr: Word)
    requires WellFormed(m0) && SameMemory(m0, m)
    requires ReadMem(m0, addr, 4).exception == NoException && Translate(m, addr, 4, true).exception == NoException
    ensures U(ReadMem(m0, addr, 4).value) == There(m, addr, 4)
  {
    TranslatesAlike(m0, m, addr, 4, true);
    LoadTrapsOnlyIfStoreDoes(m0, addr, 4);
    StaysInPage(m0, addr, 4, false);
    var at := PhysicalPlace(m0, addr, 4, false);
    FetchBelow(m0.bytes, at, 4);
    Powers();
    UnsignedOf(Fetch(m0.bytes, at, 4));
  }

  // ---------------------------------------------------------------- traps

  /** The step ends in the kernel with this exception, BadVAddr saying where. */
  ghost predicate TrapsWith(r: StepResult, exception: ExceptionType, badVAddr: Word) {
    r.Trapped? && r.exception == exception && r.cpu.regs[BAD_VADDR_REG] == badVAddr
  }

  predicate FitsWord(x: int) {
    -TWO_TO_31 <= x < TWO_TO_31
  }

  /** The exact result of an instruction that checks for overflow. */
  function ExactSum(i: Instruction, r: Regs): int {
    var s: int, t: int := r[i.rs], r[i.rt];
    if i.op.Add? then s + t else if i.op.AddI? then s + i.extra else s - t
  }

  /** LWL, LWR, SWL and SWR assert that their address is a multiple of four. */
  predicate Asserts(op: Op) {
    op.Lwl? || op.Lwr? || op.Swl? || op.Swr?
  }

  /** A half word or word load off its boundary is an address error before memory is asked. */
  predicate OffBoundary(op: Op, addr: Word) {
    ((op.Lh? || op.Lhu?) && addr % 2 != 0) || (op.Lw? && addr % 4 != 0)
  }

  /** The exception memory has in store for a load or store; SWL and SWR read before they write. */
  function MemoryException(op: Op, m: Memory, addr: Word): ExceptionType {
    if IsLoad(op) then Translate(m, addr, WidthOf(op), false).exception
    else if (op.Swl? || op.Swr?) && Translate(m, addr, 4, false).exception != NoException then Translate(m, addr, 4, false).exception
    else Translate(m, addr, WidthOf(op), true).exception
  }

  /** Exactly when an instruction traps, with which exception and what in BadVAddr, and when the simulator aborts. */
  lemma TrapsExactly(c: Cpu)
    requires CpuOk(c)
    ensures var fetch, i, r := Translate(c.memory, c.regs[PC_REG], 4, false).exception, Fetched(c), OneInstruction(c);
      var addr := AddressOf(i, c.regs);
      if fetch != NoException then TrapsWith(r, fetch, c.regs[PC_REG])
      else if i.op.Syscall? then TrapsWith(r, SyscallException, 0)
      else if i.op.Unimp? || i.op.Res? then TrapsWith(r, IllegalInstrException, 0)
      else if (i.op.Add? || i.op.AddI? || i.op.Sub?) && !FitsWord(ExactSum(i, c.regs)) then TrapsWith(r, OverflowException, 0)
      else if IsLoad(i.op) || IsStore(i.op) then
        if Asserts(i.op) && addr % 4 != 0 then r.Aborted?
        else if OffBoundary(i.op, addr) then TrapsWith(r, AddressErrorException, addr)
        else if MemoryException(i.op, c.memory, addr) != NoException then TrapsWith(r, MemoryException(i.op, c.memory, addr), addr)
        else r.Stepped?
      else r.Stepped?
  {
    var fetch, i := ReadMem(c.memory, c.regs[PC_REG], 4), Fetched(c);
    var m, o := fetch.memory, OperandsOf(i, c.regs);
    var e, addr := Execute(i, o), AddressOf(i, c.regs);
    if fetch.exception == NoException {
      TranslateKeepsMapping(c.memory, c.regs[PC_REG], 4, false);
      SameExceptions(i.op, c.memory, m, addr);
      if IsLoad(i.op) {
        LoadTraps(Cpu(c.regs, m), i, o, e);
      } else if IsStore(i.op) {
        StoreEffectOf(i, o, c.regs);
        StoreTraps(Cpu(c.regs, m), i, addr, c.regs[i.rt]);
      } else {
        ComputationTraps(Cpu(c.regs, m), i, o, e);
      }
    }
  }

  lemma SameExceptions(op: Op, m: Memory, m': Memory, addr: Word)
    requires SameMemory(m, m')
    ensures MemoryException(op, m, addr) == MemoryException(op, m', addr)
  {
    TranslatesAlike(m, m', addr, WidthOf(op), false);
    TranslatesAlike(m, m', addr, WidthOf(op), true);
    TranslatesAlike(m, m', addr, 4, false);
  }

  lemma TrapReports(r: Regs, badVAddr: Word)
    requires RegsOk(r)
    ensures Trap(r, badVAddr)[BAD_VADDR_REG] == badVAddr
  {
  }

  lemma ComputationTraps(c: Cpu, i: Instruction, o: Operands, e: Effect)
    requires CpuOk(c) && o == OperandsOf(i, c.regs) && e == Execute(i, o) && !IsLoad(i.op) && !IsStore(i.op)
    ensures var r := Complete(c, i, e);
      if i.op.Syscall? then TrapsWith(r, SyscallException, 0)
      else if i.op.Unimp? || i.op.Res? then TrapsWith(r, IllegalInstrException, 0)
      else if (i.op.Add? || i.op.AddI? || i.op.Sub?) && !FitsWord(ExactSum(i, c.regs)) then TrapsWith(r, OverflowException, 0)
      else r.Stepped?
  {
    TrapReports(c.regs, 0);
    if i.op.Add? || i.op.AddI? || i.op.Sub? {
      OverflowIff(i, o);
      SumOrOverflow(i, o, e);
    } else {
      NeverOverflows(i, o, e);
    }
  }

  lemma SumOrOverflow(i: Instruction, o: Operands, e: Effect)
    requires e == Execute(i, o) && (i.op.Add? || i.op.AddI? || i.op.Sub?)
    ensures e.Next? || e == Raise(OverflowException, 0)
  {
  }

  lemma NeverOverflows(i: Instruction, o: Operands, e: Effect)
    requires e == Execute(i, o) && !IsLoad(i.op) && !IsStore(i.op) && !i.op.Add? && !i.op.AddI? && !i.op.Sub?
    ensures if i.op.Syscall? then e == Raise(SyscallException, 0)
            else if i.op.Unimp? || i.op.Res? then e == Raise(IllegalInstrException, 0)
            else e.Next?
  {
  }

  lemma LoadTraps(c: Cpu, i: Instruction, o: Operands, e: Effect)
    requires CpuOk(c) && o == OperandsOf(i, c.regs) && e == Execute(i, o) && IsLoad(i.op)
    ensures var r, addr := Complete(c, i, e), AddressOf(i, c.regs);
      if Asserts(i.op) && addr % 4 != 0 then r.Aborted?
      else if OffBoundary(i.op, addr) then TrapsWith(r, AddressErrorException, addr)
      else if MemoryException(i.op, c.memory, addr) != NoException then TrapsWith(r, MemoryException(i.op, c.memory, addr), addr)
      else r.Stepped?
  {
    LoadEffect(i, o, c.regs);
    LoadRefused(i, o, e, c.regs);
    TrapReports(c.regs, AddressOf(i, c.regs));
  }

  lemma LoadRefused(i: Instruction, o: Operands, e: Effect, r: Regs)
    requires o == OperandsOf(i, r) && e == Execute(i, o) && IsLoad(i.op)
    ensures var addr := AddressOf(i, r);
      if Asserts(i.op) && addr % 4 != 0 then e.Abort?
      else if OffBoundary(i.op, addr) then e == Raise(AddressErrorException, addr)
      else e.Load?
  {
  }

  lemma StoreTraps(c: Cpu, i: Instruction, addr: Word, t: Word)
    requires CpuOk(c) && IsStore(i.op)
    ensures var r := Complete(c, i, StoreOf(i.op, addr, t));
      if Asserts(i.op) && addr % 4 != 0 then r.Aborted?
      else if MemoryException(i.op, c.memory, addr) != NoException then TrapsWith(r, MemoryException(i.op, c.memory, addr), addr)
      else r.Stepped?
  {
    TrapReports(c.regs, addr);
    if i.op.Swl? || i.op.Swr? {
      TranslateKeepsMapping(c.memory, addr, 4, false);
      TranslatesAlike(c.memory, ReadMem(c.memory, addr, 4).memory, addr, 4, true);
    }
  }
}
