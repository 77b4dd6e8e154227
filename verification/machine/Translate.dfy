/**
 Address translation and user memory (machine/translate.cc): a linear page table or a
 software-loaded TLB, 128-byte pages, 32 frames, little-endian words.
 */
module Translation {
  import opened Words

  const PAGE_SIZE := 128
  const NUM_PHYS_PAGES := 32
  const MEMORY_SIZE := 4096

  datatype ExceptionType =
    | NoException | SyscallException | PageFaultException | ReadOnlyException | BusErrorException
    | AddressErrorException | OverflowException | IllegalInstrException

  datatype TranslationEntry = TranslationEntry(
    virtualPage: int, physicalPage: int, valid: bool, readOnly: bool, use: bool, dirty: bool)

  /** Which of the two tables the machine was built with. */
  datatype Kind = PageTable | Tlb

  /** The table in force and the bytes of physical memory. */
  datatype Memory = Memory(kind: Kind, table: seq<TranslationEntry>, bytes: seq<Byte>)

  ghost predicate WellFormed(m: Memory) {
    |m.bytes| == MEMORY_SIZE
  }

  /** The sizes ReadMem and WriteMem are called with. */
  predicate AccessSize(size: nat) {
    size == 1 || size == 2 || size == 4
  }

  function Vpn(addr: Word): nat { U(addr) / PAGE_SIZE }

  function PageOffset(addr: Word): nat { U(addr) % PAGE_SIZE }

  /** The first valid TLB entry at or after `from` for the page, or -1. */
  function SearchTlb(table: seq<TranslationEntry>, vpn: nat, from: nat): (i: int)
    requires from <= |table|
    ensures -1 <= i < |table|
    decreases |table| - from
  {
    if from == |table| then -1
    else if table[from].valid && table[from].virtualPage == vpn then from
    else SearchTlb(table, vpn, from + 1)
  }

  /** The index of the entry to use, or the exception for want of one. */
  function FindEntry(m: Memory, vpn: nat): (r: (int, ExceptionType))
    ensures r.1 == NoException ==> 0 <= r.0 < |m.table|
  {
    match m.kind
    case PageTable =>
      if vpn >= |m.table| then (-1, AddressErrorException)
      else if !m.table[vpn].valid then (-1, PageFaultException)
      else (vpn, NoException)
    case Tlb =>
      var i := SearchTlb(m.table, vpn, 0);
      if i < 0 then (-1, PageFaultException) else (i, NoException)
  }

  /** Machine::Translate: the physical address or an exception, and the table with its use and dirty bits. */
  datatype Translated = Translated(exception: ExceptionType, physAddr: int, table: seq<TranslationEntry>)

  function Translate(m: Memory, addr: Word, size: nat, writing: bool): Translated {
    if (size == 4 && addr % 4 != 0) || (size == 2 && addr % 2 != 0) then Translated(AddressErrorException, 0, m.table)
    else
      var (i, exception) := FindEntry(m, Vpn(addr));
      if exception != NoException then Translated(exception, 0, m.table)
      else
        var entry := m.table[i];
        if entry.readOnly && writing then Translated(ReadOnlyException, 0, m.table)
        // physicalPage is compared as an unsigned number
        else if entry.physicalPage < 0 || entry.physicalPage >= NUM_PHYS_PAGES then Translated(BusErrorException, 0, m.table)
        else Translated(NoException, entry.physicalPage * PAGE_SIZE + PageOffset(addr),
                        m.table[i := entry.(use := true, dirty := entry.dirty || writing)])
  }

  /**
   Entry i is the one for the page: in a page table the one numbered so, in a TLB the first valid one
   with that virtual page.
   */
  ghost predicate Maps(m: Memory, vpn: nat, i: int) {
    && 0 <= i < |m.table| && m.table[i].valid
    && match m.kind
       case PageTable => i == vpn
       case Tlb => m.table[i].virtualPage == vpn && forall j :: 0 <= j < i && m.table[j].valid ==> m.table[j].virtualPage != vpn
  }

  lemma {:induction false} SearchFinds(table: seq<TranslationEntry>, vpn: nat, from: nat)
    requires from <= |table|
    ensures var i := SearchTlb(table, vpn, from);
      && (i >= 0 ==> from <= i && table[i].valid && table[i].virtualPage == vpn)
      && forall j :: from <= j < (if i < 0 then |table| else i) && table[j].valid ==> table[j].virtualPage != vpn
    decreases |table| - from
  {
    if from < |table| && !(table[from].valid && table[from].virtualPage == vpn) {
      SearchFinds(table, vpn, from + 1);
    }
  }

  /** An aligned access to a page with an entry: the two ways it can still fail, and otherwise frame, offset and bits. */
  lemma MappedTranslates(m: Memory, addr: Word, size: nat, writing: bool, i: nat)
    requires AccessSize(size) && addr % size == 0 && Maps(m, U(addr) / 128, i)
    ensures var t, entry := Translate(m, addr, size, writing), m.table[i];
      if writing && entry.readOnly then t.exception == ReadOnlyException && t.table == m.table
      else if !(0 <= entry.physicalPage < 32) then t.exception == BusErrorException && t.table == m.table
      else
        && t.exception == NoException && t.physAddr == 128 * entry.physicalPage + U(addr) % 128
        && |t.table| == |m.table| && (forall j :: 0 <= j < |m.table| && j != i ==> t.table[j] == m.table[j])
        && t.table[i] == TranslationEntry(entry.virtualPage, entry.physicalPage, true, entry.readOnly, true, entry.dirty || writing)
  {
    SearchFinds(m.table, U(addr) / 128, 0);
  }

  /** Every other access: what is wrong with it, and no bit is touched. */
  lemma UnmappedTraps(m: Memory, addr: Word, size: nat, writing: bool)
    requires AccessSize(size) && (addr % size != 0 || forall i: int :: !Maps(m, U(addr) / 128, i))
    ensures var t := Translate(m, addr, size, writing);
      && t.table == m.table
      && t.exception == if addr % size != 0 || (m.kind == PageTable && U(addr) / 128 >= |m.table|) then AddressErrorException
                        else PageFaultException
  {
    var vpn := U(addr) / 128;
    SearchFinds(m.table, vpn, 0);
    assert addr % size == 0 ==> !Maps(m, vpn, vpn) && !Maps(m, vpn, SearchTlb(m.table, vpn, 0));
  }

  /** The assertion at the end of Translate: an aligned access never leaves its page, let alone memory. */
  lemma StaysInPage(m: Memory, addr: Word, size: nat, writing: bool)
    requires AccessSize(size) && Translate(m, addr, size, writing).exception == NoException
    ensures var a := Translate(m, addr, size, writing).physAddr;
      0 <= a && a + size <= MEMORY_SIZE && a / PAGE_SIZE == (a + size - 1) / PAGE_SIZE
  {
    AlignedOffset(addr, size);
    var (i, _) := FindEntry(m, Vpn(addr));
    InFrame(m.table[i].physicalPage, PageOffset(addr), size);
  }

  lemma AlignedOffset(addr: Word, size: nat)
    requires size == 1 || (size == 2 && addr % 2 == 0) || (size == 4 && addr % 4 == 0)
    ensures PageOffset(addr) + size <= PAGE_SIZE
  {
    var u: int := U(addr);
    if size == 4 {
      assert u % 4 == 0;
      ModUnique(u, 128, u / 4 / 32, 4 * (u / 4 % 32));
    } else if size == 2 {
      assert u % 2 == 0;
      ModUnique(u, 128, u / 2 / 64, 2 * (u / 2 % 64));
    }
  }

  lemma InFrame(frame: nat, offset: nat, size: nat)
    requires frame < NUM_PHYS_PAGES && offset + size <= PAGE_SIZE && size >= 1
    ensures var a := frame * PAGE_SIZE + offset; a + size <= MEMORY_SIZE && a / PAGE_SIZE == frame == (a + size - 1) / PAGE_SIZE
  {
  }

  // ---------------------------------------------------------------- bytes

  /** The little-endian number in `size` bytes from `at`. */
  function Fetch(bytes: seq<Byte>, at: nat, size: nat): (v: nat)
    requires at + size <= |bytes|
    decreases size
  {
    if size == 0 then 0 else bytes[at] + 256 * Fetch(bytes, at + 1, size - 1)
  }

  /** The bytes with the low `size` bytes of `value` stored little-endian from `at`. */
  function Deposit(bytes: seq<Byte>, at: nat, size: nat, value: nat): (r: seq<Byte>)
    requires at + size <= |bytes|
    ensures |r| == |bytes|
    ensures forall i :: 0 <= i < |bytes| && (i < at || at + size <= i) ==> r[i] == bytes[i]
    decreases size
  {
    if size == 0 then bytes else Deposit(bytes[at := value % 256], at + 1, size - 1, value / 256)
  }

  function Number(b0: int, b1: int, b2: int, b3: int): int {
    b0 + 0x100 * b1 + 0x1_0000 * b2 + 0x100_0000 * b3
  }

  /** The first byte of a number is its lowest. */
  lemma FetchIsLittleEndian(bytes: seq<Byte>, at: nat)
    requires at < |bytes|
    ensures Fetch(bytes, at, 1) == bytes[at]
    ensures at + 2 <= |bytes| ==> Fetch(bytes, at, 2) == Number(bytes[at], bytes[at + 1], 0, 0)
    ensures at + 4 <= |bytes| ==> Fetch(bytes, at, 4) == Number(bytes[at], bytes[at + 1], bytes[at + 2], bytes[at + 3])
  {
    if at + 4 <= |bytes| {
      assert Fetch(bytes, at + 3, 1) == bytes[at + 3];
      assert Fetch(bytes, at + 2, 2) == Number(bytes[at + 2], bytes[at + 3], 0, 0);
    }
  }

  function Power256(n: nat): (p: nat)
    ensures p >= 1
  {
    if n == 0 then 1 else 256 * Power256(n - 1)
  }

  lemma Powers()
    ensures Power256(0) == 1 && Power256(1) == 256 && Power256(2) == 0x1_0000 && Power256(4) == TWO_TO_32
  {
    assert Power256(3) == 0x100_0000;
  }

  /** What was deposited is fetched again, modulo the size of the access. */
  lemma {:induction false} FetchDeposited(bytes: seq<Byte>, at: nat, size: nat, value: nat)
    requires at + size <= |bytes|
    ensures Fetch(Deposit(bytes, at, size, value), at, size) == value % Power256(size)
    decreases size
  {
    if size > 0 {
      var bytes' := bytes[at := value % 256];
      FetchDeposited(bytes', at + 1, size - 1, value / 256);
      ModStep(value, Power256(size - 1));
    }
  }

  lemma ModStep(v: nat, p: nat)
    requires p >= 1
    ensures v % 256 + 256 * (v / 256 % p) == v % (256 * p)
  {
    var q, r := v / 256 / p, v / 256 % p;
    assert v / 256 == q * p + r;
    assert v == 256 * (v / 256) + v % 256;
    var low := v % 256 + 256 * r;
    assert 256 * (q * p + r) == q * (256 * p) + 256 * r;
    assert v == q * (256 * p) + low;
    assert 0 <= low < 256 * p;
    ModUnique(v, 256 * p, q, low);
  }

  lemma ModUnique(v: int, m: nat, q: int, r: nat)
    requires m >= 1 && v == q * m + r && r < m
    ensures v % m == r
  {
    var q', r' := v / m, v % m;
    assert v == q' * m + r';
    if q < q' { MultiplesApart(q, q', m); }
    if q' < q { MultiplesApart(q', q, m); }
  }

  lemma MultiplesApart(a: int, b: int, m: nat)
    requires a < b
    ensures a * m + m <= b * m
  {
    assert b * m == (a + 1) * m + (b - a - 1) * m;
  }

  /** Only the low `size` bytes of a value are deposited. */
  lemma {:induction false} DepositModulo(bytes: seq<Byte>, at: nat, size: nat, a: nat, b: nat)
    requires at + size <= |bytes| && a % Power256(size) == b % Power256(size)
    ensures Deposit(bytes, at, size, a) == Deposit(bytes, at, size, b)
    decreases size
  {
    if size > 0 {
      LowDigit(a, b, Power256(size - 1));
      DepositModulo(bytes[at := a % 256], at + 1, size - 1, a / 256, b / 256);
    }
  }

  lemma LowDigit(a: nat, b: nat, p: nat)
    requires p >= 1 && a % (256 * p) == b % (256 * p)
    ensures a % 256 == b % 256 && a / 256 % p == b / 256 % p
  {
    ModStep(a, p);
    ModStep(b, p);
  }

  // ---------------------------------------------------------------- ReadMem and WriteMem

  /** The int that ReadMem makes of the bytes: a byte is a signed char, a half word is unsigned. */
  function Widen(v: nat, size: nat): Word {
    if size == 1 && v >= 128 then Wrap(v - 256) else Wrap(v)
  }

  datatype Outcome = Outcome(exception: ExceptionType, value: Word, memory: Memory)

  function ReadMem(m: Memory, addr: Word, size: nat): Outcome
    requires WellFormed(m) && AccessSize(size)
  {
    var t := Translate(m, addr, size, false);
    if t.exception != NoException then Outcome(t.exception, 0, m)
    else
      StaysInPage(m, addr, size, false);
      Outcome(NoException, Widen(Fetch(m.bytes, t.physAddr, size), size), m.(table := t.table))
  }

  function WriteMem(m: Memory, addr: Word, size: nat, value: Word): (r: Outcome)
    requires WellFormed(m) && AccessSize(size)
    ensures WellFormed(r.memory)
  {
    var t := Translate(m, addr, size, true);
    if t.exception != NoException then Outcome(t.exception, 0, m)
    else
      StaysInPage(m, addr, size, true);
      Outcome(NoException, value, Memory(m.kind, t.table, Deposit(m.bytes, t.physAddr, size, U(value))))
  }

  /** Two tables that translate alike: they differ at most in their use and dirty bits. */
  ghost predicate SameMapping(a: seq<TranslationEntry>, b: seq<TranslationEntry>) {
    |a| == |b| && forall i :: 0 <= i < |a| ==> a[i] == b[i].(use := a[i].use, dirty := a[i].dirty)
  }

  lemma {:induction false} SearchAlike(a: seq<TranslationEntry>, b: seq<TranslationEntry>, vpn: nat, from: nat)
    requires SameMapping(a, b) && from <= |a|
    ensures SearchTlb(a, vpn, from) == SearchTlb(b, vpn, from)
    decreases |a| - from
  {
    if from < |a| {
      SearchAlike(a, b, vpn, from + 1);
    }
  }

  /** The use and dirty bits, and the contents of memory, play no part in translation. */
  lemma TranslatesAlike(m: Memory, m': Memory, addr: Word, size: nat, writing: bool)
    requires m.kind == m'.kind && SameMapping(m.table, m'.table)
    ensures Translate(m, addr, size, writing).exception == Translate(m', addr, size, writing).exception
    ensures Translate(m, addr, size, writing).physAddr == Translate(m', addr, size, writing).physAddr
  {
    SearchAlike(m.table, m'.table, Vpn(addr), 0);
  }

  lemma TranslateKeepsMapping(m: Memory, addr: Word, size: nat, writing: bool)
    ensures SameMapping(m.table, Translate(m, addr, size, writing).table)
  {
  }

  /** Where a store is translated, so is a load, to the same place. */
  lemma LoadTrapsOnlyIfStoreDoes(m: Memory, addr: Word, size: nat)
    ensures Translate(m, addr, size, true).exception == NoException ==>
              Translate(m, addr, size, false).exception == NoException
              && Translate(m, addr, size, false).physAddr == Translate(m, addr, size, true).physAddr
  {
  }

  /** After a store that does not trap, the same load does not trap and yields the value modulo its size. */
  lemma StoreThenLoad(m: Memory, addr: Word, size: nat, value: Word)
    requires WellFormed(m) && AccessSize(size) && WriteMem(m, addr, size, value).exception == NoException
    ensures var r := ReadMem(WriteMem(m, addr, size, value).memory, addr, size);
      r.exception == NoException && (r.value - value) % Power256(size) == 0
    ensures size == 4 ==> ReadMem(WriteMem(m, addr, size, value).memory, addr, size).value == value
    ensures size == 2 ==> 0 <= ReadMem(WriteMem(m, addr, size, value).memory, addr, size).value < 0x1_0000
    ensures size == 1 ==> -128 <= ReadMem(WriteMem(m, addr, size, value).memory, addr, size).value < 128
  {
    var t := Translate(m, addr, size, true);
    var m' := WriteMem(m, addr, size, value).memory;
    StaysInPage(m, addr, size, true);
    TranslateKeepsMapping(m, addr, size, true);
    LoadTrapsOnlyIfStoreDoes(m, addr, size);
    TranslatesAlike(m, m', addr, size, false);
    FetchDeposited(m.bytes, t.physAddr, size, U(value));
    Powers();
    assert ReadMem(m', addr, size).value == Widen(U(value) % Power256(size), size);
    WidenedModulo(value, size);
  }

  lemma WidenedModulo(value: Word, size: nat)
    requires AccessSize(size)
    ensures (Widen(U(value) % Power256(size), size) - value) % Power256(size) == 0
    ensures size == 4 ==> Widen(U(value) % Power256(size), size) == value
    ensures size == 2 ==> 0 <= Widen(U(value) % Power256(size), size) < 0x1_0000
    ensures size == 1 ==> -128 <= Widen(U(value) % Power256(size), size) < 128
  {
    Powers();
    if size == 4 {
      WrapOfUnsigned(value);
    } else if size == 2 {
      LowPart(value, 0x1_0000, 0x1_0000);
    } else {
      LowPart(value, 256, 0x100_0000);
    }
  }

  lemma LowPart(value: Word, m: nat, k: nat)
    requires m >= 1 && m * k == TWO_TO_32
    ensures (U(value) % m - value) % m == 0 && (U(value) % m - m - value) % m == 0
  {
    var u: int := U(value);
    var q, b := u / m, u % m;
    assert u == q * m + b;
    var e := if value < 0 then k - q else 0 - q;
    MultipleOfDifference(k, q, m);
    MultipleOfDifference(0, q, m);
    MultipleOfDifference(e, 1, m);
    assert b - value == e * m && b - m - value == (e - 1) * m;
    ModUnique(e * m, m, e, 0);
    ModUnique((e - 1) * m, m, e - 1, 0);
  }

  lemma MultipleOfDifference(k: int, q: int, m: int)
    ensures (k - q) * m == k * m - q * m
  {
  }
}
