/**
 Address spaces (userprog/addrspace.cc) over the frame map and machine/translate.cc: creation from
 an executable's sizes, destruction, and user loads and stores through the linear page table.
 */
module AddressSpaces {
  import opened Words
  import opened Translation
  import opened BitMaps
  import OpenFiles

  const USER_STACK_SIZE: nat := 1024

  /** The page tables AddrSpace builds: page i is entry i, every entry valid and writable, no frame used twice. */
  ghost predicate TableOk(table: seq<TranslationEntry>) {
    && (forall i :: 0 <= i < |table| ==>
          && table[i].valid && !table[i].readOnly && table[i].virtualPage == i
          && 0 <= table[i].physicalPage < NUM_PHYS_PAGES)
    && (forall i, j :: 0 <= i < j < |table| ==> table[i].physicalPage != table[j].physicalPage)
  }

  ghost function FramesOf(table: seq<TranslationEntry>): set<int> {
    set i | 0 <= i < |table| :: table[i].physicalPage
  }

  function Linear(table: seq<TranslationEntry>, bytes: seq<Byte>): Memory {
    Memory(PageTable, table, bytes)
  }

  // ---------------------------------------------------------------- an address space is flat memory

  /** Where byte j of the space is in physical memory. */
  function Place(table: seq<TranslationEntry>, j: nat): int
    requires j / PAGE_SIZE < |table|
  {
    table[j / PAGE_SIZE].physicalPage * PAGE_SIZE + j % PAGE_SIZE
  }

  lemma PlaceInMemory(table: seq<TranslationEntry>, j: nat)
    requires TableOk(table) && j < |table| * PAGE_SIZE
    ensures j / PAGE_SIZE < |table| && 0 <= Place(table, j) < MEMORY_SIZE
    ensures Place(table, j) / PAGE_SIZE == table[j / PAGE_SIZE].physicalPage && Place(table, j) % PAGE_SIZE == j % PAGE_SIZE
  {
  }

  lemma PlaceInjective(table: seq<TranslationEntry>, j: nat, k: nat)
    requires TableOk(table) && j < |table| * PAGE_SIZE && k < |table| * PAGE_SIZE && j != k
    ensures j / PAGE_SIZE < |table| && k / PAGE_SIZE < |table| && Place(table, j) != Place(table, k)
  {
    PlaceInMemory(table, j);
    PlaceInMemory(table, k);
    if j / PAGE_SIZE == k / PAGE_SIZE {
      assert j % PAGE_SIZE != k % PAGE_SIZE;
    }
  }

  /** The bytes a program sees, from virtual address 0 up. */
  ghost function Virtual(table: seq<TranslationEntry>, bytes: seq<Byte>): (v: seq<Byte>)
    requires TableOk(table) && |bytes| == MEMORY_SIZE
    ensures |v| == |table| * PAGE_SIZE
    ensures forall j :: 0 <= j < |v| ==> j / PAGE_SIZE < |table| && 0 <= Place(table, j) < MEMORY_SIZE && v[j] == bytes[Place(table, j)]
  {
    seq(|table| * PAGE_SIZE, j requires 0 <= j < |table| * PAGE_SIZE => PlaceInMemory(table, j); bytes[Place(table, j)])
  }

  /** An access that does not trap stays within one page. */
  predicate InPage(table: seq<TranslationEntry>, j: nat, size: nat) {
    j % PAGE_SIZE + size <= PAGE_SIZE && j / PAGE_SIZE < |table|
  }

  lemma NextPlace(table: seq<TranslationEntry>, j: nat, size: nat)
    requires InPage(table, j, size) && size >= 1
    ensures j < |table| * PAGE_SIZE
    ensures size > 1 ==> (j + 1) / PAGE_SIZE == j / PAGE_SIZE && InPage(table, j + 1, size - 1) && Place(table, j + 1) == Place(table, j) + 1
  {
  }

  lemma {:induction false} FetchVirtual(table: seq<TranslationEntry>, bytes: seq<Byte>, j: nat, size: nat)
    requires TableOk(table) && |bytes| == MEMORY_SIZE && InPage(table, j, size) && size >= 1
    ensures 0 <= Place(table, j) && Place(table, j) + size <= MEMORY_SIZE && j + size <= |table| * PAGE_SIZE
    ensures Fetch(bytes, Place(table, j), size) == Fetch(Virtual(table, bytes), j, size)
    decreases size
  {
    NextPlace(table, j, size);
    PlaceInMemory(table, j);
    var v := Virtual(table, bytes);
    assert v[j] == bytes[Place(table, j)];
    if size > 1 {
      FetchVirtual(table, bytes, j + 1, size - 1);
    }
  }

  lemma UpdateVirtual(table: seq<TranslationEntry>, bytes: seq<Byte>, j: nat, b: Byte)
    requires TableOk(table) && |bytes| == MEMORY_SIZE && j < |table| * PAGE_SIZE
    ensures j / PAGE_SIZE < |table| && 0 <= Place(table, j) < MEMORY_SIZE
    ensures Virtual(table, bytes[Place(table, j) := b]) == Virtual(table, bytes)[j := b]
  {
    PlaceInMemory(table, j);
    var p := Place(table, j);
    var v, v' := Virtual(table, bytes), Virtual(table, bytes[p := b]);
    forall k | 0 <= k < |v| ensures v'[k] == v[j := b][k] {
      PlaceInMemory(table, k);
      if k != j {
        PlaceInjective(table, j, k);
      }
    }
  }

  lemma {:induction false} DepositVirtual(table: seq<TranslationEntry>, bytes: seq<Byte>, j: nat, size: nat, value: nat)
    requires TableOk(table) && |bytes| == MEMORY_SIZE && InPage(table, j, size) && size >= 1
    ensures 0 <= Place(table, j) && Place(table, j) + size <= MEMORY_SIZE && j + size <= |table| * PAGE_SIZE
    ensures Virtual(table, Deposit(bytes, Place(table, j), size, value)) == Deposit(Virtual(table, bytes), j, size, value)
    decreases size
  {
    NextPlace(table, j, size);
    PlaceInMemory(table, j);
    UpdateVirtual(table, bytes, j, value % 256);
    if size > 1 {
      DepositVirtual(table, bytes[Place(table, j) := value % 256], j + 1, size - 1, value / 256);
    }
  }

  /** An access traps exactly if it is misaligned or off the end of the space, and then as an address error. */
  lemma TranslateVirtual(table: seq<TranslationEntry>, bytes: seq<Byte>, addr: Word, size: nat, writing: bool)
    requires TableOk(table) && AccessSize(size)
    ensures var t := Translate(Linear(table, bytes), addr, size, writing);
      && (t.exception == NoException <==> addr % size == 0 && U(addr) < |table| * PAGE_SIZE)
      && (t.exception != NoException ==> t.exception == AddressErrorException)
      && (t.exception == NoException ==> InPage(table, U(addr), size) && t.physAddr == Place(table, U(addr)) && TableOk(t.table)
                                          && |t.table| == |table| && FramesOf(t.table) == FramesOf(table))
  {
    var t := Translate(Linear(table, bytes), addr, size, writing);
    if addr % size == 0 {
      AlignedOffset(addr, size);
    }
    if t.exception == NoException {
      assert forall i :: 0 <= i < |table| ==> t.table[i].physicalPage == table[i].physicalPage;
    }
  }

  // ---------------------------------------------------------------- many address spaces

  /** The frame map, the page tables of the live spaces, and physical memory. */
  datatype System = System(frames: set<int>, spaces: map<nat, seq<TranslationEntry>>, bytes: seq<Byte>)

  /** Live spaces own pairwise disjoint frames, and together exactly the frames marked. */
  ghost predicate Inv(s: System) {
    && |s.bytes| == MEMORY_SIZE
    && (forall a :: a in s.spaces ==> TableOk(s.spaces[a]))
    && (forall a, b :: a in s.spaces && b in s.spaces && a != b ==> FramesOf(s.spaces[a]) !! FramesOf(s.spaces[b]))
    && (forall a :: a in s.spaces ==> FramesOf(s.spaces[a]) <= s.frames)
    && (forall f :: f in s.frames ==> exists a :: a in s.spaces && f in FramesOf(s.spaces[a]))
  }

  ghost function Space(s: System, a: nat): seq<Byte>
    requires Inv(s) && a in s.spaces
  {
    Virtual(s.spaces[a], s.bytes)
  }

  function Store(s: System, a: nat, addr: Word, size: nat, value: Word): System
    requires Inv(s) && a in s.spaces && AccessSize(size)
  {
    var m := WriteMem(Linear(s.spaces[a], s.bytes), addr, size, value).memory;
    s.(spaces := s.spaces[a := m.table], bytes := m.bytes)
  }

  function Load(s: System, a: nat, addr: Word, size: nat): Outcome
    requires Inv(s) && a in s.spaces && AccessSize(size)
  {
    ReadMem(Linear(s.spaces[a], s.bytes), addr, size)
  }

  /** A load takes its value from the flat memory of its space. */
  lemma LoadIsFetch(s: System, a: nat, addr: Word, size: nat)
    requires Inv(s) && a in s.spaces && AccessSize(size)
    ensures Load(s, a, addr, size).exception == NoException <==> addr % size == 0 && U(addr) < |Space(s, a)|
    ensures Load(s, a, addr, size).exception == NoException ==>
              U(addr) + size <= |Space(s, a)| && Load(s, a, addr, size).value == Widen(Fetch(Space(s, a), U(addr), size), size)
  {
    TranslateVirtual(s.spaces[a], s.bytes, addr, size, false);
    if Load(s, a, addr, size).exception == NoException {
      FetchVirtual(s.spaces[a], s.bytes, U(addr), size);
    }
  }

  /** A deposit elsewhere in physical memory leaves the flat memory of a space alone. */
  lemma DepositElsewhere(table: seq<TranslationEntry>, bytes: seq<Byte>, at: nat, size: nat, value: nat)
    requires TableOk(table) && |bytes| == MEMORY_SIZE && at + size <= MEMORY_SIZE && size >= 1
    requires at / PAGE_SIZE !in FramesOf(table) && at / PAGE_SIZE == (at + size - 1) / PAGE_SIZE
    ensures Virtual(table, Deposit(bytes, at, size, value)) == Virtual(table, bytes)
  {
    var v, v' := Virtual(table, bytes), Virtual(table, Deposit(bytes, at, size, value));
    forall j | 0 <= j < |v| ensures v'[j] == v[j] {
      PlaceInMemory(table, j);
      assert table[j / PAGE_SIZE].physicalPage in FramesOf(table);
      SamePage(at, size, Place(table, j));
    }
  }

  lemma SamePage(at: nat, size: nat, p: nat)
    requires size >= 1 && at / PAGE_SIZE == (at + size - 1) / PAGE_SIZE && p / PAGE_SIZE != at / PAGE_SIZE
    ensures p < at || at + size <= p
  {
  }

  lemma SamePlaces(table: seq<TranslationEntry>, table': seq<TranslationEntry>, bytes: seq<Byte>)
    requires TableOk(table) && TableOk(table') && |bytes| == MEMORY_SIZE && SameMapping(table, table')
    ensures Virtual(table, bytes) == Virtual(table', bytes)
  {
  }

  /** A store through a page table overwrites bytes of its flat memory or, if it traps, changes nothing. */
  lemma WriteVirtual(table: seq<TranslationEntry>, bytes: seq<Byte>, addr: Word, size: nat, value: Word)
    requires TableOk(table) && |bytes| == MEMORY_SIZE && AccessSize(size)
    ensures var m := WriteMem(Linear(table, bytes), addr, size, value).memory;
      && TableOk(m.table) && |m.bytes| == MEMORY_SIZE && FramesOf(m.table) == FramesOf(table)
      && (if addr % size == 0 && U(addr) < |table| * PAGE_SIZE
          then U(addr) + size <= |table| * PAGE_SIZE
               && Virtual(m.table, m.bytes) == Deposit(Virtual(table, bytes), U(addr), size, U(value))
          else m == Linear(table, bytes))
  {
    var t := Translate(Linear(table, bytes), addr, size, true);
    TranslateVirtual(table, bytes, addr, size, true);
    if t.exception == NoException {
      TranslateKeepsMapping(Linear(table, bytes), addr, size, true);
      DepositVirtual(table, bytes, U(addr), size, U(value));
      SamePlaces(table, t.table, Deposit(bytes, t.physAddr, size, U(value)));
    }
  }

  /** A store through one page table changes nothing that a table with other frames sees. */
  lemma WriteElsewhere(table: seq<TranslationEntry>, bytes: seq<Byte>, addr: Word, size: nat, value: Word, other: seq<TranslationEntry>)
    requires TableOk(table) && |bytes| == MEMORY_SIZE && AccessSize(size)
    requires TableOk(other) && FramesOf(other) !! FramesOf(table)
    ensures var m := WriteMem(Linear(table, bytes), addr, size, value).memory;
      |m.bytes| == MEMORY_SIZE && Virtual(other, m.bytes) == Virtual(other, bytes)
  {
    var t := Translate(Linear(table, bytes), addr, size, true);
    TranslateVirtual(table, bytes, addr, size, true);
    if t.exception == NoException {
      StaysInPage(Linear(table, bytes), addr, size, true);
      PlaceInMemory(table, U(addr));
      assert table[U(addr) / PAGE_SIZE].physicalPage in FramesOf(table);
      DepositElsewhere(other, bytes, t.physAddr, size, U(value));
    }
  }

  /**
   A store through one space either traps and changes nothing, or overwrites its bytes of that
   space's flat memory; the memory of every other space stays as it is.
   */
  lemma StoreIsIsolated(s: System, a: nat, addr: Word, size: nat, value: Word)
    requires Inv(s) && a in s.spaces && AccessSize(size)
    ensures Inv(Store(s, a, addr, size, value))
    ensures var s' := Store(s, a, addr, size, value);
      && s'.spaces.Keys == s.spaces.Keys && s'.frames == s.frames
      && (forall b :: b in s.spaces && b != a ==> Space(s', b) == Space(s, b))
      && (if addr % size == 0 && U(addr) < |Space(s, a)|
          then U(addr) + size <= |Space(s, a)| && Space(s', a) == Deposit(Space(s, a), U(addr), size, U(value))
          else s' == s)
  {
    var m := WriteMem(Linear(s.spaces[a], s.bytes), addr, size, value).memory;
    WriteVirtual(s.spaces[a], s.bytes, addr, size, value);
    StoreKeepsInv(s, a, m.table, m.bytes);
    assert s.spaces[a := s.spaces[a]] == s.spaces;
    forall b | b in s.spaces && b != a ensures Virtual(s.spaces[b], m.bytes) == Virtual(s.spaces[b], s.bytes) {
      WriteElsewhere(s.spaces[a], s.bytes, addr, size, value, s.spaces[b]);
    }
  }

  lemma StoreKeepsInv(s: System, a: nat, table: seq<TranslationEntry>, bytes: seq<Byte>)
    requires Inv(s) && a in s.spaces && TableOk(table) && FramesOf(table) == FramesOf(s.spaces[a]) && |bytes| == MEMORY_SIZE
    ensures Inv(s.(spaces := s.spaces[a := table], bytes := bytes))
  {
    var s' := s.(spaces := s.spaces[a := table], bytes := bytes);
    forall f | f in s'.frames ensures exists b :: b in s'.spaces && f in FramesOf(s'.spaces[b]) {
      var b :| b in s.spaces && f in FramesOf(s.spaces[b]);
      assert f in FramesOf(s'.spaces[b]);
    }
  }

  /** Storing through one space and loading through another gives what the load gave before. */
  lemma LoadsDoNotSeeForeignStores(s: System, a: nat, b: nat, addr: Word, size: nat, value: Word, addr': Word, size': nat)
    requires Inv(s) && a in s.spaces && b in s.spaces && a != b && AccessSize(size) && AccessSize(size')
    ensures Inv(Store(s, a, addr, size, value))
    ensures Load(Store(s, a, addr, size, value), b, addr', size').exception == Load(s, b, addr', size').exception
    ensures Load(s, b, addr', size').exception == NoException ==>
              Load(Store(s, a, addr, size, value), b, addr', size').value == Load(s, b, addr', size').value
  {
    StoreIsIsolated(s, a, addr, size, value);
    LoadIsFetch(s, b, addr', size');
    LoadIsFetch(Store(s, a, addr, size, value), b, addr', size');
  }

  // ---------------------------------------------------------------- loading an executable

  datatype Segment = Segment(inFileAddr: nat, size: nat)

  /** The header of a NOFF file, as far as the constructor looks at it. */
  datatype NoffHeader = NoffHeader(code: Segment, initData: Segment, uninitData: Segment)

  function PagesOf(s: Segment): nat {
    DivRoundUp(s.size, PAGE_SIZE)
  }

  function NumPages(h: NoffHeader): nat {
    DivRoundUp(h.code.size + h.initData.size + h.uninitData.size + USER_STACK_SIZE, PAGE_SIZE)
  }

  /** The bytes a program needs: its segments and a stack of 1024. */
  function SizeOf(h: NoffHeader): nat {
    h.code.size + h.initData.size + h.uninitData.size + 1024
  }

  /** A space has pages of 128 bytes for everything its program needs, and none to spare. */
  lemma RoomForProgram(h: NoffHeader)
    ensures SizeOf(h) <= 128 * NumPages(h) < SizeOf(h) + 128
  {
  }

  lemma SegmentsFit(h: NoffHeader)
    ensures PagesOf(h.code) <= NumPages(h) && PagesOf(h.initData) <= NumPages(h)
  {
  }

  /** Memory is the same outside the frames of `table`. */
  ghost predicate SameOutside(table: seq<TranslationEntry>, bytes: seq<Byte>, bytes': seq<Byte>) {
    && |bytes| == |bytes'|
    && forall p :: 0 <= p < |bytes| && p / PAGE_SIZE !in FramesOf(table) ==> bytes'[p] == bytes[p]
  }

  /** Memory after executable->ReadAt into a frame, from `at` on in the file and no further than its end. */
  function LoadPage(bytes: seq<Byte>, frame: int, file: seq<Byte>, at: nat): (r: seq<Byte>)
    requires |bytes| == MEMORY_SIZE
    ensures |r| == MEMORY_SIZE
  {
    seq(MEMORY_SIZE, p requires 0 <= p < MEMORY_SIZE => PageByte(bytes, frame, file, at, p))
  }

  function PageByte(bytes: seq<Byte>, frame: int, file: seq<Byte>, at: nat, p: nat): Byte
    requires |bytes| == MEMORY_SIZE && p < MEMORY_SIZE
  {
    if p / PAGE_SIZE == frame && at + p % PAGE_SIZE < |file| then file[at + p % PAGE_SIZE] else bytes[p]
  }

  /** Pages `start` to `end` - 1 read from the file, page k from `base` + k * PAGE_SIZE on. */
  function LoadPages(table: seq<TranslationEntry>, bytes: seq<Byte>, file: seq<Byte>, base: nat, start: nat, end: nat): (r: seq<Byte>)
    requires TableOk(table) && |bytes| == MEMORY_SIZE && start <= end <= |table|
    ensures |r| == MEMORY_SIZE
    decreases end - start
  {
    if start == end then bytes
    else LoadPage(LoadPages(table, bytes, file, base, start, end - 1), table[end - 1].physicalPage, file, PAGE_SIZE * (end - 1) + base)
  }

  /** The code segment's pages, and then those of the data segment past them. */
  function LoadSegments(table: seq<TranslationEntry>, bytes: seq<Byte>, file: seq<Byte>, h: NoffHeader): (r: seq<Byte>)
    requires TableOk(table) && |bytes| == MEMORY_SIZE && |table| == NumPages(h)
    ensures |r| == MEMORY_SIZE
  {
    SegmentsFit(h);
    var code, data := PagesOf(h.code), PagesOf(h.initData);
    var bytes1 := LoadPages(table, bytes, file, h.code.inFileAddr, 0, code);
    if code < data then LoadPages(table, bytes1, file, h.initData.inFileAddr, code, data) else bytes1
  }

  lemma OneMoreRead(table: seq<TranslationEntry>, bytes: seq<Byte>, file: seq<Byte>, base: nat, start: nat, end: nat)
    requires TableOk(table) && |bytes| == MEMORY_SIZE && start <= end < |table|
    ensures LoadPages(table, bytes, file, base, start, end + 1) ==
            LoadPage(LoadPages(table, bytes, file, base, start, end), table[end].physicalPage, file, PAGE_SIZE * end + base)
  {
  }

  lemma LoadPageAt(bytes: seq<Byte>, frame: int, file: seq<Byte>, at: nat, f: int, o: nat)
    requires |bytes| == MEMORY_SIZE && 0 <= frame < NUM_PHYS_PAGES && 0 <= f < NUM_PHYS_PAGES && o < PAGE_SIZE
    ensures 0 <= f * PAGE_SIZE + o < MEMORY_SIZE
    ensures LoadPage(bytes, frame, file, at)[f * PAGE_SIZE + o] ==
            if f == frame && at + o < |file| then file[at + o] else bytes[f * PAGE_SIZE + o]
  {
    var p := f * PAGE_SIZE + o;
    assert p / PAGE_SIZE == f && p % PAGE_SIZE == o;
    assert LoadPage(bytes, frame, file, at)[p] == PageByte(bytes, frame, file, at, p);
  }

  /** Byte `o` of a page is the file's exactly if the page is among those read and the file is long enough. */
  lemma {:induction false} LoadPagesAt(table: seq<TranslationEntry>, bytes: seq<Byte>, file: seq<Byte>, base: nat, start: nat, end: nat,
                                       page: nat, o: nat)
    requires TableOk(table) && |bytes| == MEMORY_SIZE && start <= end <= |table| && page < |table| && o < PAGE_SIZE
    ensures var p, at := table[page].physicalPage * PAGE_SIZE + o, PAGE_SIZE * page + base + o;
      && 0 <= p < MEMORY_SIZE
      && LoadPages(table, bytes, file, base, start, end)[p] == if start <= page && page < end && at < |file| then file[at] else bytes[p]
    decreases end - start
  {
    if start < end {
      var bytes1 := LoadPages(table, bytes, file, base, start, end - 1);
      LoadPagesAt(table, bytes, file, base, start, end - 1, page, o);
      LoadPageAt(bytes1, table[end - 1].physicalPage, file, PAGE_SIZE * (end - 1) + base, table[page].physicalPage, o);
      assert page != end - 1 ==> table[page].physicalPage != table[end - 1].physicalPage;
    }
  }

  lemma {:induction false} LoadPagesOutside(table: seq<TranslationEntry>, bytes: seq<Byte>, file: seq<Byte>, base: nat, start: nat, end: nat)
    requires TableOk(table) && |bytes| == MEMORY_SIZE && start <= end <= |table|
    ensures SameOutside(table, bytes, LoadPages(table, bytes, file, base, start, end))
    decreases end - start
  {
    if start < end {
      LoadPagesOutside(table, bytes, file, base, start, end - 1);
      LoadPageOutside(table, LoadPages(table, bytes, file, base, start, end - 1), file, end - 1, PAGE_SIZE * (end - 1) + base);
    }
  }

  lemma LoadPageOutside(table: seq<TranslationEntry>, bytes: seq<Byte>, file: seq<Byte>, page: nat, at: nat)
    requires TableOk(table) && |bytes| == MEMORY_SIZE && page < |table|
    ensures SameOutside(table, bytes, LoadPage(bytes, table[page].physicalPage, file, at))
  {
    var after := LoadPage(bytes, table[page].physicalPage, file, at);
    forall p | 0 <= p < MEMORY_SIZE && p / PAGE_SIZE !in FramesOf(table) ensures after[p] == bytes[p] {
      assert table[page].physicalPage in FramesOf(table);
      LoadPageAt(bytes, table[page].physicalPage, file, at, p / PAGE_SIZE, p % PAGE_SIZE);
    }
  }

  /**
   Where the bytes of an executable end up.  The code is in place from virtual address 0 on.  The
   data segment is read only into those of its first pages that lie past the code, and from that much
   further on in the file.
   */
  lemma SegmentsAreWhere(table: seq<TranslationEntry>, bytes: seq<Byte>, file: seq<Byte>, h: NoffHeader, page: nat, o: nat)
    requires TableOk(table) && |bytes| == MEMORY_SIZE && |table| == NumPages(h) && page < |table| && o < PAGE_SIZE
    ensures var j := PAGE_SIZE * page + o;
      var codeAt, dataAt := h.code.inFileAddr + j, h.initData.inFileAddr + j;
      && j < |table| * PAGE_SIZE
      && Virtual(table, LoadSegments(table, bytes, file, h))[j] ==
         if page < PagesOf(h.code) then if codeAt < |file| then file[codeAt] else Virtual(table, bytes)[j]
         else if page < PagesOf(h.initData) && dataAt < |file| then file[dataAt] else Virtual(table, bytes)[j]
  {
    SegmentsFit(h);
    SegmentsAt(table, bytes, file, h, page, o);
    VirtualAt(table, bytes, page, o);
    VirtualAt(table, LoadSegments(table, bytes, file, h), page, o);
  }

  lemma VirtualAt(table: seq<TranslationEntry>, bytes: seq<Byte>, page: nat, o: nat)
    requires TableOk(table) && |bytes| == MEMORY_SIZE && page < |table| && o < PAGE_SIZE
    ensures PAGE_SIZE * page + o < |table| * PAGE_SIZE && 0 <= table[page].physicalPage * PAGE_SIZE + o < MEMORY_SIZE
    ensures Virtual(table, bytes)[PAGE_SIZE * page + o] == bytes[table[page].physicalPage * PAGE_SIZE + o]
  {
    var j := PAGE_SIZE * page + o;
    assert j / PAGE_SIZE == page && j % PAGE_SIZE == o;
  }

  lemma SegmentsAt(table: seq<TranslationEntry>, bytes: seq<Byte>, file: seq<Byte>, h: NoffHeader, page: nat, o: nat)
    requires TableOk(table) && |bytes| == MEMORY_SIZE && |table| == NumPages(h) && page < |table| && o < PAGE_SIZE
    ensures var p := table[page].physicalPage * PAGE_SIZE + o;
      var codeAt, dataAt := PAGE_SIZE * page + h.code.inFileAddr + o, PAGE_SIZE * page + h.initData.inFileAddr + o;
      && 0 <= p < MEMORY_SIZE
      && LoadSegments(table, bytes, file, h)[p] ==
         if page < PagesOf(h.code) then if codeAt < |file| then file[codeAt] else bytes[p]
         else if page < PagesOf(h.initData) && dataAt < |file| then file[dataAt] else bytes[p]
  {
    SegmentsFit(h);
    var code, data := PagesOf(h.code), PagesOf(h.initData);
    var bytes1 := LoadPages(table, bytes, file, h.code.inFileAddr, 0, code);
    var p := table[page].physicalPage * PAGE_SIZE + o;
    LoadPagesAt(table, bytes, file, h.code.inFileAddr, 0, code, page, o);
    if code < data {
      LoadPagesAt(table, bytes1, file, h.initData.inFileAddr, code, data, page, o);
      assert LoadSegments(table, bytes, file, h) == LoadPages(table, bytes1, file, h.initData.inFileAddr, code, data);
    } else {
      assert LoadSegments(table, bytes, file, h) == bytes1;
    }
  }

  /** Loading writes in the space's own frames only. */
  lemma LoadSegmentsOutside(table: seq<TranslationEntry>, bytes: seq<Byte>, file: seq<Byte>, h: NoffHeader)
    requires TableOk(table) && |bytes| == MEMORY_SIZE && |table| == NumPages(h)
    ensures SameOutside(table, bytes, LoadSegments(table, bytes, file, h))
  {
    SegmentsFit(h);
    var code, data := PagesOf(h.code), PagesOf(h.initData);
    var bytes1 := LoadPages(table, bytes, file, h.code.inFileAddr, 0, code);
    LoadPagesOutside(table, bytes, file, h.code.inFileAddr, 0, code);
    if code < data {
      LoadPagesOutside(table, bytes1, file, h.initData.inFileAddr, code, data);
    }
  }

  // ---------------------------------------------------------------- creation and destruction

  /** No page has been used or written to. */
  ghost predicate Untouched(table: seq<TranslationEntry>) {
    forall i :: 0 <= i < |table| ==> !table[i].use && !table[i].dirty
  }

  /** What the constructor's loop has done after filling `table`: its pages are distinct frames that were clear. */
  ghost predicate Filled(before: set<int>, marked: set<int>, table: seq<TranslationEntry>) {
    && TableOk(table) && Untouched(table)
    && FramesOf(table) !! before
    && marked == before + FramesOf(table)
    && |marked| == |before| + |table|
  }

  lemma OneMorePage(table: seq<TranslationEntry>, frame: nat)
    requires TableOk(table) && frame < NUM_PHYS_PAGES && frame !in FramesOf(table)
    ensures TableOk(table + [TranslationEntry(|table|, frame, true, false, false, false)])
  {
    forall i | 0 <= i < |table| ensures table[i].physicalPage != frame {
      assert table[i].physicalPage in FramesOf(table);
    }
  }

  lemma OneMoreFrame(before: set<int>, marked: set<int>, frames: set<int>, frame: int)
    requires marked == before + frames && frames !! before && frame !in marked
    ensures marked + {frame} == before + (frames + {frame}) && (frames + {frame}) !! before
    ensures |marked + {frame}| == |marked| + 1
  {
  }

  lemma FillOne(before: set<int>, marked: set<int>, table: seq<TranslationEntry>, frame: nat)
    requires Filled(before, marked, table) && frame < NUM_PHYS_PAGES && frame !in marked
    ensures Filled(before, marked + {frame}, table + [TranslationEntry(|table|, frame, true, false, false, false)])
  {
    OneMorePage(table, frame);
    OneMoreFrame(before, marked, FramesOf(table), frame);
    FramesAppend(table, TranslationEntry(|table|, frame, true, false, false, false));
  }

  lemma FilledFromEmpty(before: set<int>)
    ensures Filled(before, before, [])
  {
  }

  lemma FilledFits(before: set<int>, marked: set<int>, table: seq<TranslationEntry>)
    requires Filled(before, marked, table)
    ensures |marked| == |before| + |table|
  {
  }

  lemma FramesAppend(table: seq<TranslationEntry>, e: TranslationEntry)
    ensures FramesOf(table + [e]) == FramesOf(table) + {e.physicalPage}
  {
    assert (table + [e])[|table|] == e;
    forall f | f in FramesOf(table) ensures f in FramesOf(table + [e]) {
      var i :| 0 <= i < |table| && table[i].physicalPage == f;
      assert (table + [e])[i].physicalPage == f;
    }
  }

  /** memoryMap->Find() while a frame is free. */
  method TakeFrame(memoryMap: BitMap) returns (frame: nat)
    requires memoryMap.Valid() && memoryMap.numBits == NUM_PHYS_PAGES && |memoryMap.Marked()| < NUM_PHYS_PAGES
    modifies memoryMap.words
    ensures frame < NUM_PHYS_PAGES && frame !in old(memoryMap.Marked())
    ensures memoryMap.Marked() == old(memoryMap.Marked()) + {frame}
  {
    BelowSize(NUM_PHYS_PAGES);
    var found := memoryMap.Find();
    frame := found;
  }

  class AddrSpace {
    const pageTable: array<TranslationEntry>
    const numPages: nat

    ghost predicate Valid()
      reads pageTable
    {
      pageTable.Length == numPages && TableOk(pageTable[..])
    }

    ghost function Frames(): set<int>
      reads pageTable
    {
      FramesOf(pageTable[..])
    }

    /** `executable` is the contents of the file; the ASSERT is that the pages fit the free frames. */
    constructor (memoryMap: BitMap, mainMemory: array<Byte>, executable: seq<Byte>, noffH: NoffHeader)
      requires memoryMap.Valid() && memoryMap.numBits == NUM_PHYS_PAGES && mainMemory.Length == MEMORY_SIZE
      requires memoryMap.words as object != mainMemory
      requires NumPages(noffH) + |memoryMap.Marked()| <= NUM_PHYS_PAGES
      modifies memoryMap.words, mainMemory
      ensures Valid() && fresh(pageTable) && Untouched(pageTable[..])
      ensures numPages == NumPages(noffH) && SizeOf(noffH) <= 128 * numPages < SizeOf(noffH) + 128
      ensures Frames() !! old(memoryMap.Marked())
      ensures memoryMap.Marked() == old(memoryMap.Marked()) + Frames()
      ensures mainMemory[..] == LoadSegments(pageTable[..], old(mainMemory[..]), executable, noffH)
    {
      var pages := NumPages(noffH);
      RoomForProgram(noffH);
      numPages := pages;
      pageTable := new TranslationEntry[pages](_ => TranslationEntry(0, 0, false, false, false, false));
      new;
      ghost var before := memoryMap.Marked();
      FillTable(memoryMap);
      ghost var table, marked := pageTable[..], memoryMap.Marked();
      assert Filled(before, marked, table);
      Load(mainMemory, executable, noffH);
    }

    /** The code segment and the data segment, page by page. */
    method Load(mainMemory: array<Byte>, executable: seq<Byte>, noffH: NoffHeader)
      requires Valid() && numPages == NumPages(noffH) && mainMemory.Length == MEMORY_SIZE && mainMemory as object != pageTable
      modifies mainMemory
      ensures Valid() && pageTable[..] == old(pageTable[..])
      ensures mainMemory[..] == LoadSegments(pageTable[..], old(mainMemory[..]), executable, noffH)
    {
      SegmentsFit(noffH);
      var codeSegmentPages, dataSegmentPages := DivRoundUp(noffH.code.size, PAGE_SIZE), DivRoundUp(noffH.initData.size, PAGE_SIZE);
      if noffH.code.size > 0 {
        LoadRange(mainMemory, executable, noffH.code.inFileAddr, 0, codeSegmentPages);
      }
      if noffH.initData.size > 0 && codeSegmentPages < dataSegmentPages {
        LoadRange(mainMemory, executable, noffH.initData.inFileAddr, codeSegmentPages, dataSegmentPages);
      }
    }

    method LoadRange(mainMemory: array<Byte>, executable: seq<Byte>, inFileAddr: nat, start: nat, end: nat)
      requires Valid() && start <= end <= numPages && mainMemory.Length == MEMORY_SIZE && mainMemory as object != pageTable
      modifies mainMemory
      ensures Valid() && pageTable[..] == old(pageTable[..])
      ensures mainMemory[..] == LoadPages(pageTable[..], old(mainMemory[..]), executable, inFileAddr, start, end)
    {
      ghost var table, bytes := pageTable[..], mainMemory[..];
      ghost var loaded := bytes;
      for offset := start to end
        invariant pageTable[..] == table && mainMemory[..] == loaded
        invariant loaded == LoadPages(table, bytes, executable, inFileAddr, start, offset)
      {
        var at := PAGE_SIZE * offset + inFileAddr;
        OneMoreRead(table, bytes, executable, inFileAddr, start, offset);
        ReadPage(mainMemory, pageTable[offset].physicalPage, executable, at);
        loaded := LoadPage(loaded, table[offset].physicalPage, executable, at);
      }
    }

    static method ReadPage(mainMemory: array<Byte>, frame: int, executable: seq<Byte>, at: nat)
      requires mainMemory.Length == MEMORY_SIZE && 0 <= frame < NUM_PHYS_PAGES
      modifies mainMemory
      ensures mainMemory[..] == LoadPage(old(mainMemory[..]), frame, executable, at)
    {
      ghost var before, place := mainMemory[..], frame * PAGE_SIZE;
      var count := OpenFiles.Clip(|executable|, PAGE_SIZE, at);
      for j := 0 to count
        invariant forall p :: place <= p < place + j ==> mainMemory[p] == executable[at + (p - place)]
        invariant forall p :: 0 <= p < MEMORY_SIZE && !(place <= p < place + j) ==> mainMemory[p] == before[p]
      {
        mainMemory[frame * PAGE_SIZE + j] := executable[at + j];
      }
      ghost var after := LoadPage(before, frame, executable, at);
      forall p | 0 <= p < MEMORY_SIZE ensures mainMemory[p] == after[p] {
        InPlace(p, frame);
        LoadPageAt(before, frame, executable, at, p / PAGE_SIZE, p % PAGE_SIZE);
      }
    }

    /** One round of the constructor's loop. */
    method FillPage(memoryMap: BitMap, i: nat, ghost before: set<int>, ghost table: seq<TranslationEntry>)
      requires i < pageTable.Length && memoryMap.words as object != pageTable && |table| == i
      requires memoryMap.Valid() && memoryMap.numBits == NUM_PHYS_PAGES && |before| + i < NUM_PHYS_PAGES
      requires Filled(before, memoryMap.Marked(), table)
      modifies memoryMap.words, pageTable
      ensures Filled(before, memoryMap.Marked(), table + [pageTable[i]])
      ensures pageTable[..i] == old(pageTable[..i])
    {
      ghost var marked := memoryMap.Marked();
      FilledFits(before, marked, table);
      var frame := TakeFrame(memoryMap);
      FillOne(before, marked, table, frame);
      pageTable[i] := TranslationEntry(i, frame, true, false, false, false);
    }

    /** The loop of the constructor. */
    method FillTable(memoryMap: BitMap)
      requires pageTable.Length == numPages && memoryMap.words as object != pageTable
      requires memoryMap.Valid() && memoryMap.numBits == NUM_PHYS_PAGES && numPages + |memoryMap.Marked()| <= NUM_PHYS_PAGES
      modifies memoryMap.words, pageTable
      ensures Filled(old(memoryMap.Marked()), memoryMap.Marked(), pageTable[..])
    {
      ghost var before := memoryMap.Marked();
      ghost var table := [];
      FilledFromEmpty(before);
      for i := 0 to numPages
        invariant |table| == i && pageTable[..i] == table
        invariant Filled(before, memoryMap.Marked(), table)
      {
        FillPage(memoryMap, i, before, table);
        table := table + [pageTable[i]];
      }
      assert pageTable[..numPages] == pageTable[..];
    }

    /** ~AddrSpace. */
    method Destroy(memoryMap: BitMap)
      requires Valid() && memoryMap.Valid() && memoryMap.numBits == NUM_PHYS_PAGES && memoryMap.words as object != pageTable
      modifies memoryMap.words
      ensures Valid() && Frames() == old(Frames())
      ensures memoryMap.Marked() == old(memoryMap.Marked()) - Frames()
    {
      ghost var table, before: set<int> := pageTable[..], memoryMap.Marked();
      for page := 0 to numPages
        invariant pageTable[..] == table
        invariant memoryMap.Marked() == before - FramesOf(table[..page])
      {
        memoryMap.Clear(pageTable[page].physicalPage);
        assert table[..page + 1] == table[..page] + [table[page]];
        FramesAppend(table[..page], table[page]);
      }
      assert table[..numPages] == table;
    }
  }

  // ---------------------------------------------------------------- runs

  /**
   What happens to the system.  A new space gets the frames its constructor found clear, and loading
   its segments writes in those frames only.
   */
  datatype Op =
    | Create(space: nat, table: seq<TranslationEntry>, bytes: seq<Byte>)
    | Destroy(space: nat)
    | LoadOp(space: nat, addr: Word, size: nat)
    | StoreOp(space: nat, addr: Word, size: nat, value: Word)

  ghost predicate Enabled(s: System, op: Op) {
    match op
    case Create(a, table, bytes) =>
      a !in s.spaces && TableOk(table) && FramesOf(table) !! s.frames && SameOutside(table, s.bytes, bytes)
    case Destroy(a) => a in s.spaces
    case LoadOp(a, _, size) => a in s.spaces && AccessSize(size)
    case StoreOp(a, _, size, _) => a in s.spaces && AccessSize(size)
  }

  ghost function Apply(s: System, op: Op): System
    requires Inv(s) && Enabled(s, op)
  {
    match op
    case Create(a, table, bytes) => System(s.frames + FramesOf(table), s.spaces[a := table], bytes)
    case Destroy(a) => System(s.frames - FramesOf(s.spaces[a]), s.spaces - {a}, s.bytes)
    case LoadOp(a, addr, size) => s.(spaces := s.spaces[a := Load(s, a, addr, size).memory.table])
    case StoreOp(a, addr, size, value) => Store(s, a, addr, size, value)
  }

  lemma CreateKeepsInv(s: System, op: Op)
    requires Inv(s) && Enabled(s, op) && op.Create?
    ensures Inv(Apply(s, op))
  {
    var s' := Apply(s, op);
    forall f | f in s'.frames ensures exists b :: b in s'.spaces && f in FramesOf(s'.spaces[b]) {
      if f in s.frames {
        var b :| b in s.spaces && f in FramesOf(s.spaces[b]);
        assert f in FramesOf(s'.spaces[b]);
      } else {
        assert f in FramesOf(s'.spaces[op.space]);
      }
    }
    forall b | b in s.spaces ensures FramesOf(s.spaces[b]) !! FramesOf(op.table) {
    }
  }

  lemma DestroyKeepsInv(s: System, op: Op)
    requires Inv(s) && Enabled(s, op) && op.Destroy?
    ensures Inv(Apply(s, op))
  {
    var s' := Apply(s, op);
    forall f | f in s'.frames ensures exists b :: b in s'.spaces && f in FramesOf(s'.spaces[b]) {
      var b :| b in s.spaces && f in FramesOf(s.spaces[b]);
      assert b in s'.spaces;
    }
    forall b | b in s'.spaces ensures FramesOf(s'.spaces[b]) <= s'.frames {
      assert FramesOf(s.spaces[b]) !! FramesOf(s.spaces[op.space]);
    }
  }

  /** A load changes use bits only. */
  lemma LoadChangesNothing(s: System, a: nat, addr: Word, size: nat)
    requires Inv(s) && a in s.spaces && AccessSize(size)
    ensures var table := Load(s, a, addr, size).memory.table;
      && TableOk(table) && FramesOf(table) == FramesOf(s.spaces[a])
      && Virtual(table, s.bytes) == Virtual(s.spaces[a], s.bytes)
  {
    TranslateVirtual(s.spaces[a], s.bytes, addr, size, false);
    var t := Translate(Linear(s.spaces[a], s.bytes), addr, size, false);
    if t.exception == NoException {
      TranslateKeepsMapping(Linear(s.spaces[a], s.bytes), addr, size, false);
      SamePlaces(s.spaces[a], t.table, s.bytes);
    }
  }

  lemma ApplyKeepsInv(s: System, op: Op)
    requires Inv(s) && Enabled(s, op)
    ensures Inv(Apply(s, op))
  {
    match op
    case Create(_, _, _) => CreateKeepsInv(s, op);
    case Destroy(_) => DestroyKeepsInv(s, op);
    case LoadOp(a, addr, size) =>
      LoadChangesNothing(s, a, addr, size);
      StoreKeepsInv(s, a, Load(s, a, addr, size).memory.table, s.bytes);
    case StoreOp(a, addr, size, value) => StoreIsIsolated(s, a, addr, size, value);
  }

  /** No operation on one space changes the memory of another. */
  lemma ApplyIsIsolated(s: System, op: Op, b: nat)
    requires Inv(s) && Enabled(s, op) && b in s.spaces && b != op.space
    ensures Inv(Apply(s, op)) && b in Apply(s, op).spaces && Space(Apply(s, op), b) == Space(s, b)
  {
    ApplyKeepsInv(s, op);
    match op
    case Create(_, table, bytes) =>
      var other := s.spaces[b];
      forall j | 0 <= j < |other| * PAGE_SIZE
        ensures j / PAGE_SIZE < |other| && 0 <= Place(other, j) < MEMORY_SIZE && bytes[Place(other, j)] == s.bytes[Place(other, j)]
      {
        PlaceInMemory(other, j);
        assert other[j / PAGE_SIZE].physicalPage in FramesOf(other);
      }
      assert Virtual(other, bytes) == Virtual(other, s.bytes);
    case StoreOp(a, addr, size, value) => StoreIsIsolated(s, a, addr, size, value);
    case _ =>
  }

  ghost predicate Runs(s: System, ops: seq<Op>, s': System)
    decreases |ops|
  {
    if ops == [] then s' == s
    else Inv(s) && Enabled(s, ops[0]) && Runs(Apply(s, ops[0]), ops[1..], s')
  }

  /** The system before any space exists. */
  ghost function Boot(bytes: seq<Byte>): System {
    System({}, map[], bytes)
  }

  /**
   In every run, the live spaces own pairwise disjoint frames and the frames marked are exactly theirs.
   */
  lemma {:induction false} RunKeepsInv(s: System, ops: seq<Op>, s': System)
    requires Inv(s) && Runs(s, ops, s')
    ensures Inv(s')
    decreases |ops|
  {
    if ops != [] {
      ApplyKeepsInv(s, ops[0]);
      RunKeepsInv(Apply(s, ops[0]), ops[1..], s');
    }
  }

  lemma FramesAreOwned(bytes: seq<Byte>, ops: seq<Op>, s: System)
    requires |bytes| == MEMORY_SIZE && Runs(Boot(bytes), ops, s)
    ensures forall a, b :: a in s.spaces && b in s.spaces && a != b ==> FramesOf(s.spaces[a]) !! FramesOf(s.spaces[b])
    ensures forall f :: f in s.frames <==> exists a :: a in s.spaces && f in FramesOf(s.spaces[a])
  {
    RunKeepsInv(Boot(bytes), ops, s);
  }

  /** While other spaces come, go, load and store, a space keeps its memory. */
  lemma {:induction false} RunIsIsolated(s: System, ops: seq<Op>, s': System, b: nat)
    requires Inv(s) && Runs(s, ops, s') && b in s.spaces && forall i :: 0 <= i < |ops| ==> ops[i].space != b
    ensures Inv(s') && b in s'.spaces && Space(s', b) == Space(s, b)
    decreases |ops|
  {
    if ops != [] {
      assert ops[0].space != b;
      ApplyIsIsolated(s, ops[0], b);
      RunIsIsolated(Apply(s, ops[0]), ops[1..], s', b);
    }
  }

  // ---------------------------------------------------------------- the objects are the system

  lemma InPlace(p: nat, frame: nat)
    ensures p / PAGE_SIZE == frame <==> frame * PAGE_SIZE <= p < frame * PAGE_SIZE + PAGE_SIZE
    ensures p / PAGE_SIZE == frame ==> p == frame * PAGE_SIZE + p % PAGE_SIZE
  {
  }

  /** What the constructor does is a Create of the system, so FramesAreOwned and RunIsIsolated speak of its allocation. */
  method NewSpace(memoryMap: BitMap, mainMemory: array<Byte>, executable: seq<Byte>, noffH: NoffHeader, ghost s: System, ghost a: nat)
    returns (space: AddrSpace)
    requires memoryMap.Valid() && memoryMap.numBits == NUM_PHYS_PAGES && memoryMap.words as object != mainMemory
    requires Inv(s) && s.frames == memoryMap.Marked() && s.bytes == mainMemory[..] && a !in s.spaces
    requires NumPages(noffH) + |memoryMap.Marked()| <= NUM_PHYS_PAGES
    modifies memoryMap.words, mainMemory
    ensures fresh(space) && fresh(space.pageTable) && space.Valid()
    ensures var op := Create(a, space.pageTable[..], mainMemory[..]);
      && Enabled(s, op) && Inv(Apply(s, op))
      && Apply(s, op).frames == memoryMap.Marked() && Apply(s, op).bytes == mainMemory[..]
      && Apply(s, op).spaces == s.spaces[a := space.pageTable[..]]
  {
    space := new AddrSpace(memoryMap, mainMemory, executable, noffH);
    ghost var table := space.pageTable[..];
    LoadSegmentsOutside(table, s.bytes, executable, noffH);
    ApplyKeepsInv(s, Create(a, table, mainMemory[..]));
  }

  /** And what the destructor does is a Destroy. */
  method DeleteSpace(memoryMap: BitMap, space: AddrSpace, ghost s: System, ghost a: nat)
    requires memoryMap.Valid() && memoryMap.numBits == NUM_PHYS_PAGES && memoryMap.words as object != space.pageTable
    requires Inv(s) && s.frames == memoryMap.Marked() && space.Valid() && a in s.spaces && s.spaces[a] == space.pageTable[..]
    modifies memoryMap.words
    ensures Inv(Apply(s, Op.Destroy(a))) && Apply(s, Op.Destroy(a)).frames == memoryMap.Marked()
  {
    space.Destroy(memoryMap);
    ApplyKeepsInv(s, Op.Destroy(a));
  }
}
