/**
 The machine updated in place (machine/machine.cc, machine/mipssim.cc, machine/translate.cc): the
 register array, the bytes of memory and the translation table in force.  Every method is tied to
 the function of the same name on values, about which Translation and Mips prove their theorems.
 */
module MachineObject {
  import opened Words
  import opened Translation
  import opened Mips
  import Mult

  class Machine {
    const registers: array<Word>
    const mainMemory: array<Byte>
    const kind: Kind
    var table: array<TranslationEntry>

    ghost predicate Valid()
      reads this
    {
      && registers.Length == 40 && mainMemory.Length == MEMORY_SIZE
      && registers as object != mainMemory && registers as object != table && mainMemory as object != table
    }

    ghost function View(): Cpu
      requires Valid()
      reads this, registers, mainMemory, table
    {
      Cpu(registers[..], Memory(kind, table[..], mainMemory[..]))
    }

    constructor (kind: Kind, table: array<TranslationEntry>)
      ensures Valid() && fresh(registers) && fresh(mainMemory) && this.table == table
      ensures View() == Cpu(seq(40, _ => 0), Memory(kind, table[..], seq(4096, _ => 0)))
      ensures CpuOk(View())
    {
      registers := new Word[40](_ => 0);
      mainMemory := new Byte[4096](_ => 0);
      this.kind := kind;
      this.table := table;
      new;
      assert registers[..] == seq(40, _ => 0);
      assert mainMemory[..] == seq(4096, _ => 0);
    }

    /** The search through the TLB. */
    method SearchEntries(vpn: nat) returns (i: int)
      ensures i == SearchTlb(table[..], vpn, 0)
    {
      i := 0;
      while i < table.Length
        invariant 0 <= i <= table.Length
        invariant SearchTlb(table[..], vpn, 0) == SearchTlb(table[..], vpn, i)
      {
        if table[i].valid && table[i].virtualPage == vpn {
          return;
        }
        i := i + 1;
      }
      i := -1;
    }

    method TranslateAddress(virtAddr: Word, size: nat, writing: bool) returns (exception: ExceptionType, physAddr: int)
      requires Valid()
      modifies table
      ensures Valid()
      ensures Translated(exception, physAddr, table[..]) == Translate(old(View()).memory, virtAddr, size, writing)
    {
      physAddr := 0;
      if (size == 4 && virtAddr % 4 != 0) || (size == 2 && virtAddr % 2 != 0) {
        return AddressErrorException, physAddr;
      }
      var vpn, offset := Vpn(virtAddr), PageOffset(virtAddr);
      var i: int := vpn;
      if kind == PageTable {
        if vpn >= table.Length {
          return AddressErrorException, physAddr;
        } else if !table[vpn].valid {
          return PageFaultException, physAddr;
        }
      } else {
        i := SearchEntries(vpn);
        if i < 0 {
          return PageFaultException, physAddr;
        }
      }
      var entry := table[i];
      if entry.readOnly && writing {
        return ReadOnlyException, physAddr;
      }
      var pageFrame := entry.physicalPage;
      if pageFrame < 0 || pageFrame >= NUM_PHYS_PAGES {
        return BusErrorException, physAddr;
      }
      table[i] := entry.(use := true, dirty := entry.dirty || writing);
      return NoException, pageFrame * PAGE_SIZE + offset;
    }

    method FetchBytes(at: nat, size: nat) returns (v: nat)
      requires at + size <= mainMemory.Length
      ensures v == Fetch(mainMemory[..], at, size)
    {
      v := 0;
      var k := size;
      while k > 0
        invariant 0 <= k <= size
        invariant v == Fetch(mainMemory[..], at + k, size - k)
      {
        k := k - 1;
        v := mainMemory[at + k] + 256 * v;
      }
    }

    method DepositBytes(at: nat, size: nat, value: nat)
      requires at + size <= mainMemory.Length
      modifies mainMemory
      ensures mainMemory[..] == Deposit(old(mainMemory[..]), at, size, value)
    {
      var v := value;
      for k := 0 to size
        invariant Deposit(old(mainMemory[..]), at, size, value) == Deposit(mainMemory[..], at + k, size - k, v)
      {
        ghost var before := mainMemory[..];
        mainMemory[at + k] := v % 256;
        assert mainMemory[..] == before[at + k := v % 256];
        v := v / 256;
      }
    }

    /** Finish a pending load, modifying the register it is for. */
    method DoDelayedLoad(nextReg: Reg, nextValue: Word)
      requires Valid() && RegsOk(registers[..])
      modifies registers
      ensures registers[..] == DelayedLoad(old(registers[..]), nextReg, nextValue)
    {
      registers[registers[LOAD_REG]] := registers[LOAD_VALUE_REG];
      registers[LOAD_REG] := nextReg;
      registers[LOAD_VALUE_REG] := nextValue;
      registers[0] := 0;
    }

    method RaiseException(badVAddr: Word)
      requires Valid() && RegsOk(registers[..])
      modifies registers
      ensures registers[..] == Trap(old(registers[..]), badVAddr)
    {
      registers[BAD_VADDR_REG] := badVAddr;
      DoDelayedLoad(0, 0);
    }

    /** A failed translation raises its exception here. */
    method ReadMemory(addr: Word, size: nat) returns (exception: ExceptionType, value: Word)
      requires Valid() && CpuOk(View()) && AccessSize(size)
      modifies table, registers
      ensures Valid() && CpuOk(View())
      ensures var m := ReadMem(old(View()).memory, addr, size);
        && exception == m.exception && View().memory == m.memory
        && View().regs == (if exception == NoException then old(View()).regs else Trap(old(View()).regs, addr))
        && (exception == NoException ==> value == m.value)
    {
      value := 0;
      StaysInPageIfAny(View().memory, addr, size, false);
      var physAddr;
      exception, physAddr := TranslateAddress(addr, size, false);
      if exception != NoException {
        RaiseException(addr);
      } else {
        var data := FetchBytes(physAddr, size);
        value := Widen(data, size);
      }
    }

    method WriteMemory(addr: Word, size: nat, value: Word) returns (exception: ExceptionType)
      requires Valid() && CpuOk(View()) && AccessSize(size)
      modifies table, registers, mainMemory
      ensures Valid() && CpuOk(View())
      ensures var m := WriteMem(old(View()).memory, addr, size, value);
        && exception == m.exception && View().memory == m.memory
        && View().regs == (if exception == NoException then old(View()).regs else Trap(old(View()).regs, addr))
    {
      StaysInPageIfAny(View().memory, addr, size, true);
      var physAddr;
      exception, physAddr := TranslateAddress(addr, size, true);
      if exception != NoException {
        RaiseException(addr);
      } else {
        DepositBytes(physAddr, size, U(value));
      }
    }

    /** The common end of every instruction that did not trap. */
    method Advance(nextReg: Reg, nextValue: Word, pcAfter: Word)
      requires Valid() && RegsOk(registers[..])
      modifies registers
      ensures registers[..] == Finish(old(registers[..]), nextReg, nextValue, pcAfter)
    {
      DoDelayedLoad(nextReg, nextValue);
      registers[PREV_PC_REG] := registers[PC_REG];
      registers[PC_REG] := registers[NEXT_PC_REG];
      registers[NEXT_PC_REG] := pcAfter;
    }

    /** Machine::OneInstruction; `aborted` if an ASSERT of the simulator fails. */
    method Step() returns (exception: ExceptionType, aborted: bool)
      requires Valid() && CpuOk(View())
      modifies table, registers, mainMemory
      ensures Valid()
      ensures var r := OneInstruction(old(View()));
        && (aborted <==> r.Aborted?)
        && (!aborted ==> View() == r.cpu && exception == (if r.Trapped? then r.exception else NoException))
    {
      aborted := false;
      var raw;
      exception, raw := ReadMemory(registers[PC_REG], 4);
      if exception != NoException {
        return;
      }
      var i := Decode(raw);
      var e := Perform(i);
      exception, aborted := CarryOut(i, e);
    }

    /** What the instruction does to its operands; a multiplication goes through the loop of Mult. */
    method Perform(i: Instruction) returns (e: Effect)
      requires Valid() && CpuOk(View())
      ensures e == Execute(i, OperandsOf(i, registers[..]))
    {
      var o := OperandsOf(i, registers[..]);
      if i.op == Op.Mult || i.op == MultU {
        var hi, lo := Mult.Mult(o.s, o.t, i.op == Op.Mult);
        WordsOfDouble(Mult.Product(o.s, o.t, i.op == Op.Mult), i.op == Op.Mult, hi, lo);
        e := Next(0, hi, lo, Plus4(o.next));
      } else {
        e := Execute(i, o);
      }
    }

    /** Carries out what Execute found the instruction to do. */
    method CarryOut(i: Instruction, e: Effect) returns (exception: ExceptionType, aborted: bool)
      requires Valid() && CpuOk(View())
      modifies table, registers, mainMemory
      ensures Valid()
      ensures var r := Complete(old(View()), i, e);
        && (aborted <==> r.Aborted?)
        && (!aborted ==> View() == r.cpu && exception == (if r.Trapped? then r.exception else NoException))
    {
      exception, aborted := NoException, false;
      var after := Plus4(registers[NEXT_PC_REG]);
      match e
      case Raise(which, badVAddr) =>
        RaiseException(badVAddr);
        exception := which;
      case Abort => aborted := true;
      case Next(value, hi, lo, pc) =>
        registers[Dest(i)] := value;
        registers[HI_REG] := hi;
        registers[LO_REG] := lo;
        registers[0] := 0;
        Advance(0, 0, pc);
      case Load(addr, size, load) =>
        if !AccessSize(size) {
          aborted := true;
        } else {
          var value;
          exception, value := ReadMemory(addr, size);
          if exception == NoException {
            Advance(i.rt, Loaded(load, value, Forwarded(registers[..], i.rt)), after);
          }
        }
      case Store(addr, size, value, store) =>
        exception, aborted := CarryOutStore(addr, size, value, store, i);
    }

    method CarryOutStore(addr: Word, size: nat, value: Word, store: StoreKind, ghost i: Instruction)
      returns (exception: ExceptionType, aborted: bool)
      requires Valid() && CpuOk(View())
      modifies table, registers, mainMemory
      ensures Valid()
      ensures var r := Complete(old(View()), i, Store(addr, size, value, store));
        && (aborted <==> r.Aborted?)
        && (!aborted ==> View() == r.cpu && exception == (if r.Trapped? then r.exception else NoException))
    {
      exception, aborted := NoException, false;
      var after := Plus4(registers[NEXT_PC_REG]);
      if !AccessSize(size) {
        aborted := true;
        return;
      }
      var there: Word := 0;
      if store != Plain {
        exception, there := ReadMemory(addr, 4);
        if exception != NoException {
          return;
        }
      }
      exception := WriteMemory(addr, size, Stored(store, value, there));
      if exception == NoException {
        Advance(0, 0, after);
      }
    }
  }

  lemma StaysInPageIfAny(m: Memory, addr: Word, size: nat, writing: bool)
    requires AccessSize(size)
    ensures Translate(m, addr, size, writing).exception == NoException ==>
              0 <= Translate(m, addr, size, writing).physAddr && Translate(m, addr, size, writing).physAddr + size <= MEMORY_SIZE
  {
    if Translate(m, addr, size, writing).exception == NoException {
      StaysInPage(m, addr, size, writing);
    }
  }

  /** A double word determines its two words, so the loop in Mult computes what Execute says of MULT and MULTU. */
  lemma WordsOfDouble(p: int, signedArith: bool, hi: Word, lo: Word)
    requires Mult.DoubleWord(hi, lo, signedArith) == p
    ensures hi == UpperWord(p) && lo == LowerWord(p)
  {
    var upper: int := if signedArith then hi else U(hi);
    var lower: int := U(lo);
    assert p == upper * TWO_TO_32 + lower && 0 <= lower < TWO_TO_32;
    assert p / TWO_TO_32 == upper && p % TWO_TO_32 == lower;
    WrapOfUnsigned(lo);
    WrapOfUnsigned(hi);
  }
}
