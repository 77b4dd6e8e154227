/** How instructions are laid out in words (machine/mipssim.h), and that Decode reads them off. */
module Encoding {
  import opened Words
  import opened Mips

  /** The manual's R, I and J formats; the branches on a sign are I with the condition in place of rt. */
  datatype Format = Register | BranchOnSign | Jump | Immediate | Illegal

  function FormatOf(op: Op): Format {
    match op
    case Sll | Srl | Sra | Sllv | Srlv | Srav | Jr | Jalr | Syscall | Mfhi | Mthi | Mflo | Mtlo => Register
    case Mult | MultU | Div | DivU | Add | AddU | Sub | SubU | And | Or | Xor | Nor | Slt | SltU => Register
    case Bltz | Bgez | Bltzal | Bgezal => BranchOnSign
    case J | Jal => Jump
    case Unimp | Res => Illegal
    case _ => Immediate
  }

  /** Bits 5:0 of the R format, bits 20:16 of a branch on a sign, and bits 31:26 otherwise. */
  function CodeOf(op: Op): nat {
    match op
    case Sll => 0 case Srl => 2 case Sra => 3 case Sllv => 4 case Srlv => 6 case Srav => 7
    case Jr => 8 case Jalr => 9 case Syscall => 12 case Mfhi => 16 case Mthi => 17 case Mflo => 18 case Mtlo => 19
    case Mult => 24 case MultU => 25 case Div => 26 case DivU => 27
    case Add => 32 case AddU => 33 case Sub => 34 case SubU => 35
    case And => 36 case Or => 37 case Xor => 38 case Nor => 39 case Slt => 42 case SltU => 43
    case Bltz => 0 case Bgez => 1 case Bltzal => 16 case Bgezal => 17
    case J => 2 case Jal => 3 case Beq => 4 case Bne => 5 case Blez => 6 case Bgtz => 7
    case AddI => 8 case AddIU => 9 case SltI => 10 case SltIU => 11 case AndI => 12 case OrI => 13 case XorI => 14 case Lui => 15
    case Lb => 32 case Lh => 33 case Lwl => 34 case Lw => 35 case Lbu => 36 case Lhu => 37 case Lwr => 38
    case Sb => 40 case Sh => 41 case Swl => 42 case Sw => 43 case Swr => 46
    case _ => 0
  }

  /** The numbers `extra` can be in an instruction of the format. */
  predicate HasRoom(f: Format, extra: int) {
    match f
    case Register => 0 <= extra < 32
    case Jump => 0 <= extra < 0x400_0000
    case Illegal => false
    case _ => -0x8000 <= extra < 0x8000
  }

  /** The lower half of a word with this immediate operand. */
  function LowHalf(extra: int): int {
    if extra < 0 then extra + 0x1_0000 else extra
  }

  function Layout(f: Format, code: nat, i: Instruction): int {
    match f
    case Register => i.rs * 0x20_0000 + i.rt * 0x1_0000 + i.rd * 0x800 + i.extra * 64 + code
    case BranchOnSign => 0x400_0000 + i.rs * 0x20_0000 + code * 0x1_0000 + LowHalf(i.extra)
    case Jump => code * 0x400_0000 + i.extra
    case _ => code * 0x400_0000 + i.rs * 0x20_0000 + i.rt * 0x1_0000 + LowHalf(i.extra)
  }

  predicate Encodable(i: Instruction) {
    HasRoom(FormatOf(i.op), i.extra)
  }

  /** The word an assembler makes of an instruction. */
  function Assembled(i: Instruction): int {
    Layout(FormatOf(i.op), CodeOf(i.op), i)
  }

  /** The two agree in what an instruction of the format has. */
  predicate SameParts(f: Format, i: Instruction, j: Instruction) {
    && i.extra == j.extra
    && (f != Jump ==> i.rs == j.rs)
    && (f == Immediate || f == Register ==> i.rt == j.rt)
    && (f == Register ==> i.rd == j.rd)
  }

  lemma MajorCodes(code: nat)
    ensures FormatOf(OpTable(code)) in {Jump, Immediate, Illegal}
    ensures FormatOf(OpTable(code)) != Illegal ==> CodeOf(OpTable(code)) == code
    ensures FormatOf(OpTable(code)) == Jump <==> code == 2 || code == 3
  {
  }

  lemma FunctionCodes(code: nat)
    ensures FormatOf(SpecialTable(code)) in {Register, Illegal}
    ensures FormatOf(SpecialTable(code)) != Illegal ==> CodeOf(SpecialTable(code)) == code
  {
  }

  lemma BranchCodes(code: nat)
    ensures FormatOf(BranchTable(code)) in {BranchOnSign, Illegal}
    ensures FormatOf(BranchTable(code)) != Illegal ==> CodeOf(BranchTable(code)) == code
  {
  }

  /** The three tables give each code back to its instruction. */
  lemma TableOf(op: Op)
    ensures match FormatOf(op)
            case Register => SpecialTable(CodeOf(op)) == op && CodeOf(op) < 64
            case BranchOnSign => BranchTable(CodeOf(op)) == op && CodeOf(op) < 32
            case Jump => OpTable(CodeOf(op)) == op && 2 <= CodeOf(op) < 4
            case Immediate => OpTable(CodeOf(op)) == op && 4 <= CodeOf(op) < 64
            case Illegal => true
  {
    match FormatOf(op)
    case Register => RegisterTable(op);
    case Immediate => ImmediateTable(op);
    case _ =>
  }

  lemma RegisterTable(op: Op)
    requires FormatOf(op) == Register
    ensures SpecialTable(CodeOf(op)) == op && CodeOf(op) < 64
  {
  }

  lemma ImmediateTable(op: Op)
    requires FormatOf(op) == Immediate
    ensures OpTable(CodeOf(op)) == op && 4 <= CodeOf(op) < 64
  {
    match op
    case Beq => case Bne => case Blez => case Bgtz =>
    case AddI => case AddIU => case SltI => case SltIU => case AndI => case OrI => case XorI => case Lui =>
    case Lb => case Lh => case Lwl => case Lw => case Lbu => case Lhu => case Lwr =>
    case Sb => case Sh => case Swl => case Sw => case _ =>
  }

  /** The parts Decode cuts a word into make up the word. */
  lemma Parts(v: nat)
    requires v < TWO_TO_32
    ensures v == v / 0x400_0000 * 0x400_0000 + v / 0x20_0000 % 32 * 0x20_0000 + v / 0x1_0000 % 32 * 0x1_0000 + v % 0x1_0000
    ensures v % 0x1_0000 == v / 0x800 % 32 * 0x800 + v / 64 % 32 * 64 + v % 64
    ensures v == v / 0x400_0000 * 0x400_0000 + v % 0x400_0000
  {
    assert v / 0x20_0000 == v / 0x1_0000 / 32 && v / 0x400_0000 == v / 0x20_0000 / 32;
    assert v / 0x800 == v / 64 / 32 && v / 0x1_0000 == v / 0x800 / 32;
  }

  /** What Decode does with a word, by its first six bits. */
  lemma DecodesTo(raw: Word, i: Instruction)
    requires i == Decode(raw)
    ensures var v, code := U(raw), U(raw) / 0x400_0000;
      && i.rs == v / 0x20_0000 % 32 && i.rt == v / 0x1_0000 % 32 && i.rd == v / 0x800 % 32
      && i.op == (if code == 0 then SpecialTable(v % 64) else if code == 1 then BranchTable(i.rt) else OpTable(code))
      && (code == 0 ==> i.extra == v / 64 % 32)
      && (code == 2 || code == 3 ==> i.extra == v % 0x400_0000)
      && (code == 1 || code > 3 ==> -0x8000 <= i.extra < 0x8000 && LowHalf(i.extra) == v % 0x1_0000)
  {
  }

  /** Every word that is an instruction at all is what an assembler makes of that instruction. */
  lemma AssembledDecoded(raw: Word)
    requires FormatOf(Decode(raw).op) != Illegal
    ensures Encodable(Decode(raw)) && Assembled(Decode(raw)) == U(raw)
  {
    var i := Decode(raw);
    DecodesTo(raw, i);
    Reassembled(U(raw), i, FormatOf(i.op), CodeOf(i.op));
  }

  lemma Reassembled(v: nat, i: Instruction, f: Format, code: nat)
    requires v < TWO_TO_32 && f == FormatOf(i.op) != Illegal && code == CodeOf(i.op)
    requires i.rs == v / 0x20_0000 % 32 && i.rt == v / 0x1_0000 % 32 && i.rd == v / 0x800 % 32
    requires var major := v / 0x400_0000;
      && i.op == (if major == 0 then SpecialTable(v % 64) else if major == 1 then BranchTable(i.rt) else OpTable(major))
      && (major == 0 ==> i.extra == v / 64 % 32)
      && (major == 2 || major == 3 ==> i.extra == v % 0x400_0000)
      && (major == 1 || major > 3 ==> -0x8000 <= i.extra < 0x8000 && LowHalf(i.extra) == v % 0x1_0000)
    ensures HasRoom(f, i.extra) && Layout(f, code, i) == v
  {
    var major := v / 0x400_0000;
    Parts(v);
    if major == 0 {
      FunctionCodes(v % 64);
    } else if major == 1 {
      BranchCodes(i.rt);
    } else {
      MajorCodes(major);
    }
  }

  /** Every instruction has a word that decodes to it. */
  lemma DecodedAssembled(i: Instruction)
    requires Encodable(i)
    ensures 0 <= Assembled(i) < TWO_TO_32
    ensures var j := Decode(Wrap(Assembled(i))); j.op == i.op && SameParts(FormatOf(i.op), i, j)
  {
    var f, code := FormatOf(i.op), CodeOf(i.op);
    TableOf(i.op);
    LaidOut(f, code, i);
    UnsignedOf(Layout(f, code, i));
    DecodesTo(Wrap(Layout(f, code, i)), Decode(Wrap(Layout(f, code, i))));
  }

  /** The parts of a word laid out. */
  lemma LaidOut(f: Format, code: nat, i: Instruction)
    requires HasRoom(f, i.extra) && code < (if f == BranchOnSign then 32 else 64)
    ensures var v := Layout(f, code, i);
      && 0 <= v < TWO_TO_32
      && v / 0x400_0000 == (match f case Register => 0 case BranchOnSign => 1 case _ => code)
      && (f != Jump ==> v / 0x20_0000 % 32 == i.rs)
      && (f == Register || f == Immediate ==> v / 0x1_0000 % 32 == i.rt)
      && (f == BranchOnSign ==> v / 0x1_0000 % 32 == code)
      && (f == Register ==> v / 0x800 % 32 == i.rd && v / 64 % 32 == i.extra && v % 64 == code)
      && (f == Jump ==> v % 0x400_0000 == i.extra)
      && (f == BranchOnSign || f == Immediate ==> v % 0x1_0000 == LowHalf(i.extra))
  {
    match f
    case Register =>
      CutLow(i.rd, i.extra, code);
      Cut(0, i.rs, i.rt, i.rd * 0x800 + i.extra * 64 + code);
    case BranchOnSign => Cut(1, i.rs, code, LowHalf(i.extra));
    case Immediate => Cut(code, i.rs, i.rt, LowHalf(i.extra));
    case _ =>
  }

  lemma Cut(code: nat, rs: Reg, rt: nat, low: nat)
    requires code < 64 && rt < 32 && low < 0x1_0000
    ensures var v := code * 0x400_0000 + rs * 0x20_0000 + rt * 0x1_0000 + low;
      && v < TWO_TO_32 && v / 0x400_0000 == code && v / 0x20_0000 % 32 == rs && v / 0x1_0000 % 32 == rt && v % 0x1_0000 == low
      && v / 0x800 % 32 == low / 0x800 && v / 64 % 32 == low / 64 % 32 && v % 64 == low % 64
  {
    var v := code * 0x400_0000 + rs * 0x20_0000 + rt * 0x1_0000 + low;
    assert v / 0x1_0000 == code * 0x400 + rs * 32 + rt;
    assert v / 0x20_0000 == code * 32 + rs;
    assert v / 0x800 == (code * 0x400 + rs * 32 + rt) * 32 + low / 0x800;
    assert v / 64 == (code * 0x400 + rs * 32 + rt) * 0x400 + low / 64;
  }

  lemma CutLow(rd: Reg, shift: int, code: nat)
    requires 0 <= shift < 32 && code < 64
    ensures var low := rd * 0x800 + shift * 64 + code; 0 <= low < 0x1_0000 && low / 0x800 == rd && low / 64 % 32 == shift && low % 64 == code
  {
  }

  /** A word is illegal or unimplemented exactly if no instruction assembles to it. */
  lemma IllegalIff(raw: Word)
    ensures Decode(raw).op in {Unimp, Res} <==> !exists i: Instruction :: Encodable(i) && Assembled(i) == U(raw)
  {
    if FormatOf(Decode(raw).op) != Illegal {
      AssembledDecoded(raw);
    }
    forall i: Instruction | Encodable(i) && Assembled(i) == U(raw) ensures FormatOf(Decode(raw).op) != Illegal {
      DecodedAssembled(i);
      WrapOfUnsigned(raw);
    }
  }
}
