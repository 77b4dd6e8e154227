/**
 The file system (filesys/filesys.cc): the free map and the directory are files on the disk they
 describe.  Every operation is shown to do to the bytes on the disk what Volumes says it does.
 */
module FileSystems {
  import opened Options
  import opened Words
  import opened BitMaps
  import opened Storage
  import opened FileHeaders
  import opened OpenFiles
  import FreeMaps
  import opened Directories
  import opened Volumes

  const FREE_MAP_SECTOR: nat := 0
  const DIRECTORY_SECTOR: nat := 1
  const FREE_MAP_FILE_SIZE: nat := 128
  const DIRECTORY_FILE_SIZE: nat := 200

  // ---------------------------------------------------------------- reading a volume off a disk

  /** The header of a system file says where its data is. */
  ghost predicate SystemFile(h: Header, size: nat, data: seq<int>) {
    HeaderOk(h) && h.numBytes == size && DataOf(h) == data
  }

  ghost predicate SystemFilesOk(d: Sectors) {
    && SystemFile(Decode(d[FREE_MAP_SECTOR]), FREE_MAP_FILE_SIZE, [2])
    && SystemFile(Decode(d[DIRECTORY_SECTOR]), DIRECTORY_FILE_SIZE, [3, 4])
  }

  ghost function UsedOn(d: Sectors): set<int>
    requires SystemFilesOk(d)
  {
    FreeMaps.UsedBy(Contents(d, Decode(d[FREE_MAP_SECTOR])))
  }

  ghost function TableOn(d: Sectors): (table: seq<DirectoryEntry>)
    requires SystemFilesOk(d)
    ensures |table| == NUM_DIR_ENTRIES
  {
    DecodeTable(Contents(d, Decode(d[DIRECTORY_SECTOR])))
  }

  /** An entry in use has a proper name and leads to a proper header. */
  ghost predicate EntryOk(d: Sectors, e: DirectoryEntry) {
    e.inUse ==> ZeroPadded(e.name[..FILE_NAME_MAX_LEN]) && 0 <= e.sector < NUM_SECTORS && HeaderOk(Decode(d[e.sector]))
  }

  ghost predicate EntriesOk(d: Sectors, table: seq<DirectoryEntry>) {
    forall i :: 0 <= i < |table| ==> EntryOk(d, table[i])
  }

  ghost function SlotFor(d: Sectors, e: DirectoryEntry): Option<File>
    requires EntryOk(d, e)
  {
    if e.inUse then
      var h := Decode(d[e.sector]);
      Some(File(e.name[..FILE_NAME_MAX_LEN], e.sector, h.numBytes, DataOf(h)))
    else None
  }

  ghost function SlotsFor(d: Sectors, table: seq<DirectoryEntry>): (slots: Slots)
    requires EntriesOk(d, table)
    ensures |slots| == |table|
  {
    seq(|table|, i requires 0 <= i < |table| => SlotFor(d, table[i]))
  }

  ghost predicate Readable(d: Sectors) {
    SystemFilesOk(d) && EntriesOk(d, TableOn(d))
  }

  ghost function VolumeOf(d: Sectors): Volume
    requires Readable(d)
  {
    Volume(UsedOn(d), SlotsFor(d, TableOn(d)))
  }

  /** A disk in order. */
  ghost predicate Sound(d: Sectors) {
    Readable(d) && Inv(VolumeOf(d))
  }

  /** The bytes of a file. */
  ghost function FileBytes(d: Sectors, f: File): seq<Byte>
    requires 0 <= f.sector < NUM_SECTORS && HeaderOk(Decode(d[f.sector]))
  {
    Contents(d, Decode(d[f.sector]))
  }

  /** A file reads the same on both disks. */
  ghost predicate SameFile(d: Sectors, d': Sectors, f: File) {
    && 0 <= f.sector < NUM_SECTORS && d'[f.sector] == d[f.sector] && HeaderOk(Decode(d[f.sector]))
    && FileBytes(d', f) == FileBytes(d, f)
  }

  // ---------------------------------------------------------------- what is kept when sectors are written

  ghost predicate SameOutside(changed: set<int>, d: Sectors, d': Sectors) {
    forall s :: 0 <= s < NUM_SECTORS && s !in changed ==> d'[s] == d[s]
  }

  lemma SlotIs(d: Sectors, i: nat)
    requires Readable(d) && i < NUM_DIR_ENTRIES && VolumeOf(d).slots[i].Some?
    ensures var f, e := VolumeOf(d).slots[i].value, TableOn(d)[i];
      && e.inUse && EntryOk(d, e) && f.sector == e.sector && f.key == e.name[..FILE_NAME_MAX_LEN]
      && f.size == Decode(d[f.sector]).numBytes && f.data == DataOf(Decode(d[f.sector]))
  {
    assert VolumeOf(d).slots[i] == SlotFor(d, TableOn(d)[i]);
    assert EntryOk(d, TableOn(d)[i]);
  }

  /** A file none of whose sectors is written reads the same. */
  lemma FileKept(d: Sectors, d': Sectors, changed: set<int>, i: nat)
    requires Readable(d) && SameOutside(changed, d, d') && i < NUM_DIR_ENTRIES && VolumeOf(d).slots[i].Some?
    requires Owned(VolumeOf(d).slots[i].value) !! changed
    ensures SameFile(d, d', VolumeOf(d).slots[i].value)
  {
    var f := VolumeOf(d).slots[i].value;
    SlotIs(d, i);
    assert f.sector in Owned(f);
    forall s | 0 <= s < NUM_SECTORS && s in f.data ensures d'[s] == d[s] {
      assert s in Owned(f);
    }
    ContentsDependOnData(d, d', Decode(d[f.sector]));
  }

  /** These files read the same on both disks. */
  ghost predicate SameFiles(d: Sectors, d': Sectors, slots: Slots) {
    forall i :: 0 <= i < |slots| && slots[i].Some? ==> SameFile(d, d', slots[i].value)
  }

  /** None of these files owns one of these sectors. */
  ghost predicate Avoid(slots: Slots, changed: set<int>) {
    forall i :: 0 <= i < |slots| && slots[i].Some? ==> Owned(slots[i].value) !! changed
  }

  /** Some of the files of the disk, in their slots. */
  ghost predicate Among(slots: Slots, all: Slots) {
    |slots| == |all| && forall i :: 0 <= i < |slots| && slots[i].Some? ==> slots[i] == all[i]
  }

  lemma FilesKept(d: Sectors, d': Sectors, changed: set<int>, slots: Slots)
    requires Readable(d) && SameOutside(changed, d, d') && Among(slots, VolumeOf(d).slots) && Avoid(slots, changed)
    ensures SameFiles(d, d', slots)
  {
    forall i | 0 <= i < |slots| && slots[i].Some? ensures SameFile(d, d', slots[i].value) {
      assert slots[i] == VolumeOf(d).slots[i];
      FileKept(d, d', changed, i);
    }
  }

  /** Writing a sector that is not the system's. */
  lemma SystemKept(d: Sectors, d': Sectors, changed: set<int>)
    requires SystemFilesOk(d) && SameOutside(changed, d, d') && changed !! SYSTEM_SECTORS
    ensures SystemFilesOk(d') && UsedOn(d') == UsedOn(d) && TableOn(d') == TableOn(d)
  {
    ContentsDependOnData(d, d', Decode(d[FREE_MAP_SECTOR]));
    ContentsDependOnData(d, d', Decode(d[DIRECTORY_SECTOR]));
  }

  /** Only these sectors were written, and now the map and the directory say this. */
  ghost predicate Wrote(d: Sectors, d': Sectors, changed: set<int>, used: set<int>, table: seq<DirectoryEntry>) {
    SystemFilesOk(d') && UsedOn(d') == used && TableOn(d') == table && SameOutside(changed, d, d')
  }

  lemma DirectoryWritten(d: Sectors, d': Sectors, table: seq<DirectoryEntry>)
    requires SystemFilesOk(d) && SameBut([3, 4], d, d')
    requires DecodeTable(Contents(d', Decode(d[DIRECTORY_SECTOR]))) == table
    ensures Wrote(d, d', {3, 4}, UsedOn(d), table)
  {
    ContentsDependOnData(d, d', Decode(d[FREE_MAP_SECTOR]));
  }

  lemma MapWritten(d: Sectors, d': Sectors, used: set<int>)
    requires SystemFilesOk(d) && SameBut([2], d, d')
    requires FreeMaps.UsedBy(Contents(d', Decode(d[FREE_MAP_SECTOR]))) == used
    ensures Wrote(d, d', {2}, used, TableOn(d))
  {
    ContentsDependOnData(d, d', Decode(d[DIRECTORY_SECTOR]));
  }

  lemma SlotsKept(d: Sectors, d': Sectors, table: seq<DirectoryEntry>)
    requires EntriesOk(d, table)
    requires forall i :: 0 <= i < |table| && table[i].inUse ==> d'[table[i].sector] == d[table[i].sector]
    ensures EntriesOk(d', table) && SlotsFor(d', table) == SlotsFor(d, table)
  {
    forall i | 0 <= i < |table| ensures EntryOk(d', table[i]) && SlotFor(d', table[i]) == SlotFor(d, table[i]) {
      assert EntryOk(d, table[i]);
    }
  }

  ghost predicate HeadersAvoid(slots: Slots, changed: set<int>) {
    forall i :: 0 <= i < |slots| && slots[i].Some? ==> slots[i].value.sector !in changed
  }

  lemma AvoidHeaders(slots: Slots, changed: set<int>)
    requires Avoid(slots, changed)
    ensures HeadersAvoid(slots, changed)
  {
    forall i | 0 <= i < |slots| && slots[i].Some? ensures slots[i].value.sector !in changed {
      assert slots[i].value.sector in Owned(slots[i].value);
    }
  }

  lemma HeadersKept(d: Sectors, d': Sectors, changed: set<int>)
    requires Sound(d) && SameOutside(changed, d, d') && HeadersAvoid(VolumeOf(d).slots, changed)
    ensures EntriesOk(d', TableOn(d)) && SlotsFor(d', TableOn(d)) == VolumeOf(d).slots
  {
    var table := TableOn(d);
    forall i | 0 <= i < |table| && table[i].inUse ensures d'[table[i].sector] == d[table[i].sector] {
      assert EntryOk(d, table[i]);
      assert VolumeOf(d).slots[i] == SlotFor(d, table[i]);
    }
    SlotsKept(d, d', table);
  }

  // ---------------------------------------------------------------- the searches agree

  lemma SameSlot(d: Sectors, table: seq<DirectoryEntry>, key: seq<Byte>)
    requires EntriesOk(d, table)
    ensures IndexOf(table, key, 0) == SlotOf(SlotsFor(d, table), key, 0)
    ensures Unused(table, 0) == FreeSlot(SlotsFor(d, table), 0)
  {
    forall i | 0 <= i < |table| ensures
      && (SlotsFor(d, table)[i].Some? <==> table[i].inUse)
      && (HasKey(SlotsFor(d, table)[i], key) <==> Has(table[i], key))
    {
      assert EntryOk(d, table[i]);
    }
    SameSearch(table, SlotsFor(d, table), key, 0);
  }

  lemma {:induction false} SameSearch(table: seq<DirectoryEntry>, slots: Slots, key: seq<Byte>, from: nat)
    requires |table| == |slots| && from <= |table|
    requires forall i :: 0 <= i < |table| ==>
               (slots[i].Some? <==> table[i].inUse) && (HasKey(slots[i], key) <==> Has(table[i], key))
    ensures IndexOf(table, key, from) == SlotOf(slots, key, from) && Unused(table, from) == FreeSlot(slots, from)
    decreases |table| - from
  {
    if from < |table| {
      SameSearch(table, slots, key, from + 1);
    }
  }

  // ---------------------------------------------------------------- Create on the disk

  /** The new file's header, the directory and the map have been written, and nothing else. */
  ghost predicate Committed(d: Sectors, d': Sectors, sector: int, h: Header, table: seq<DirectoryEntry>, used: set<int>) {
    && SystemFilesOk(d') && TableOn(d') == table && UsedOn(d') == used
    && 0 <= sector < NUM_SECTORS && Decode(d'[sector]) == h
    && SameOutside({2, 3, 4, sector}, d, d')
  }

  /** The sectors of files are neither the system's nor free. */
  lemma FilesAvoidFree(v: Volume, sector: int)
    requires Inv(v) && sector !in v.used
    ensures Avoid(v.slots, {2, 3, 4, sector})
  {
    forall i | 0 <= i < |v.slots| && v.slots[i].Some? ensures Owned(v.slots[i].value) !! {2, 3, 4, sector} {
      OwnedIsUsed(v, i);
      assert FileOk(v.slots[i].value);
    }
  }

  lemma OneSlot(d: Sectors, table: seq<DirectoryEntry>, p: nat, e: DirectoryEntry)
    requires EntriesOk(d, table) && p < |table| && EntryOk(d, e)
    ensures EntriesOk(d, table[p := e]) && SlotsFor(d, table[p := e]) == SlotsFor(d, table)[p := SlotFor(d, e)]
  {
    var table' := table[p := e];
    forall i | 0 <= i < |table| ensures EntryOk(d, table'[i]) {
      assert EntryOk(d, table[i]);
    }
    var slots, slots' := SlotsFor(d, table), SlotsFor(d, table');
    forall i | 0 <= i < |table| ensures slots'[i] == if i == p then SlotFor(d, e) else slots[i] {
      assert EntryOk(d, table[i]);
    }
  }

  lemma EntryWritten(d: Sectors, d': Sectors, h: Header, used: set<int>, p: nat, e: DirectoryEntry)
    requires Sound(d) && p < NUM_DIR_ENTRIES && Committed(d, d', e.sector, h, TableOn(d)[p := e], used)
    requires e.sector !in UsedOn(d) && HeaderOk(h)
    requires e.inUse && ZeroPadded(e.name[..FILE_NAME_MAX_LEN])
    ensures Readable(d')
    ensures VolumeOf(d') == Volume(used, VolumeOf(d).slots[p := Some(File(e.name[..FILE_NAME_MAX_LEN], e.sector, h.numBytes, DataOf(h)))])
  {
    FilesAvoidFree(VolumeOf(d), e.sector);
    AvoidHeaders(VolumeOf(d).slots, {2, 3, 4, e.sector});
    HeadersKept(d, d', {2, 3, 4, e.sector});
    OneSlot(d', TableOn(d), p, e);
  }

  /** The disk is in order and holds this volume. */
  ghost predicate HoldsVolume(d: Sectors, v: Volume) {
    Readable(d) && VolumeOf(d) == v && Inv(v)
  }

  /** The entry and the header that a Create of this file puts on the disk. */
  ghost predicate Entered(f: File, h: Header, e: DirectoryEntry) {
    HeaderOk(h) && h.numBytes == f.size && DataOf(h) == f.data && e.inUse && e.sector == f.sector && e.name[..FILE_NAME_MAX_LEN] == f.key
  }

  /** The write-backs of a successful Create have its effect on the volume, and keep every other file's bytes. */
  lemma CreateOnDisk(d: Sectors, d': Sectors, name: CString, size: nat, h: Header, e: DirectoryEntry)
    requires Sound(d) && size <= MAX_FILE_SIZE
    requires !Exists(VolumeOf(d), Key(name)) && Fits(VolumeOf(d), size)
    requires Entered(NewFile(VolumeOf(d), Key(name), size), h, e)
    requires Unused(TableOn(d), 0) < NUM_DIR_ENTRIES
    requires Committed(d, d', e.sector, h, TableOn(d)[Unused(TableOn(d), 0) := e],
                       UsedOn(d) + Owned(NewFile(VolumeOf(d), Key(name), size)))
    ensures HoldsVolume(d', Volumes.Create(VolumeOf(d), Key(name), size))
    ensures SameFiles(d, d', VolumeOf(d).slots)
  {
    var v, p := VolumeOf(d), Unused(TableOn(d), 0);
    var f := NewFile(v, Key(name), size);
    SameSlot(d, TableOn(d), Key(name));
    KeyIsZeroPadded(name);
    NewFileIsFree(v, Key(name), size);
    NotUsed(v.used, f);
    EntryWritten(d, d', h, v.used + Owned(f), p, e);
    CreateKeepsInv(v, Key(name), size);
    FilesAvoidFree(v, e.sector);
    FilesKept(d, d', {2, 3, 4, e.sector}, v.slots);
  }

  lemma NotUsed(used: set<int>, f: File)
    requires Owned(f) !! used
    ensures f.sector !in used
  {
    assert f.sector in Owned(f);
  }

  // ---------------------------------------------------------------- Remove on the disk


  lemma FilesAvoidSystem(v: Volume)
    requires Inv(v)
    ensures Avoid(v.slots, {2, 3, 4})
  {
    forall i | 0 <= i < |v.slots| && v.slots[i].Some? ensures Owned(v.slots[i].value) !! {2, 3, 4} {
      assert FileOk(v.slots[i].value);
    }
  }

  lemma EntryCleared(d: Sectors, d': Sectors, used: set<int>, p: nat)
    requires Sound(d) && p < NUM_DIR_ENTRIES
    requires Wrote(d, d', {2, 3, 4}, used, TableOn(d)[p := TableOn(d)[p].(inUse := false)])
    ensures Readable(d') && VolumeOf(d') == Volume(used, VolumeOf(d).slots[p := None])
  {
    FilesAvoidSystem(VolumeOf(d));
    AvoidHeaders(VolumeOf(d).slots, {2, 3, 4});
    HeadersKept(d, d', {2, 3, 4});
    OneSlot(d', TableOn(d), p, TableOn(d)[p].(inUse := false));
  }

  lemma RemoveOnDisk(d: Sectors, d': Sectors, name: CString, p: nat)
    requires Sound(d) && p < NUM_DIR_ENTRIES && p == IndexOf(TableOn(d), Key(name), 0) && VolumeOf(d).slots[p].Some?
    requires Wrote(d, d', {2, 3, 4}, UsedOn(d) - Owned(VolumeOf(d).slots[p].value), TableOn(d)[p := TableOn(d)[p].(inUse := false)])
    ensures HoldsVolume(d', Volumes.Remove(VolumeOf(d), Key(name)))
    ensures SameFiles(d, d', Volumes.Remove(VolumeOf(d), Key(name)).slots)
  {
    SameSlot(d, TableOn(d), Key(name));
    RemoveKeepsInv(VolumeOf(d), Key(name));
    EntryCleared(d, d', UsedOn(d) - Owned(VolumeOf(d).slots[p].value), p);
    OthersUntouched(d, d', p);
  }

  lemma OthersUntouched(d: Sectors, d': Sectors, p: nat)
    requires Sound(d) && p < NUM_DIR_ENTRIES && SameOutside({2, 3, 4}, d, d')
    ensures SameFiles(d, d', VolumeOf(d).slots[p := None])
  {
    FilesAvoidSystem(VolumeOf(d));
    FilesKept(d, d', {2, 3, 4}, VolumeOf(d).slots[p := None]);
  }

  // ---------------------------------------------------------------- writing to files

  lemma OthersAvoid(v: Volume, p: nat)
    requires Inv(v) && p < NUM_DIR_ENTRIES && v.slots[p].Some?
    ensures Avoid(v.slots[p := None], ToSet(v.slots[p].value.data))
  {
    var f, slots := v.slots[p].value, v.slots[p := None];
    forall i | 0 <= i < |slots| && slots[i].Some? ensures Owned(slots[i].value) !! ToSet(f.data) {
      assert slots[i] == v.slots[i];
      assert Owned(v.slots[i].value) !! Owned(f);
    }
  }

  lemma HeadersApart(v: Volume, p: nat)
    requires Inv(v) && p < NUM_DIR_ENTRIES && v.slots[p].Some?
    ensures HeadersAvoid(v.slots, ToSet(v.slots[p].value.data))
    ensures ToSet(v.slots[p].value.data) !! SYSTEM_SECTORS
  {
    var f, slots := v.slots[p].value, v.slots[p := None];
    assert FileOk(f);
    OthersAvoid(v, p);
    AvoidHeaders(slots, ToSet(f.data));
    forall i | 0 <= i < |v.slots| && v.slots[i].Some? ensures v.slots[i].value.sector !in ToSet(f.data) {
      assert i != p ==> slots[i] == v.slots[i];
    }
  }

  /** Writing data sectors of one file changes neither the volume nor any other file. */
  lemma WritesAreIsolated(d: Sectors, d': Sectors, p: nat)
    requires Sound(d) && p < NUM_DIR_ENTRIES && VolumeOf(d).slots[p].Some?
    requires SameBut(VolumeOf(d).slots[p].value.data, d, d')
    ensures HoldsVolume(d', VolumeOf(d))
    ensures SameFiles(d, d', VolumeOf(d).slots[p := None])
  {
    var v := VolumeOf(d);
    var data := ToSet(v.slots[p].value.data);
    OthersAvoid(v, p);
    HeadersApart(v, p);
    SameButIs(v.slots[p].value.data, d, d');
    VolumeKept(d, d', data);
    SomeFilesKept(d, d', data, p);
  }

  lemma SomeFilesKept(d: Sectors, d': Sectors, data: set<int>, p: nat)
    requires Readable(d) && p < NUM_DIR_ENTRIES && SameOutside(data, d, d') && Avoid(VolumeOf(d).slots[p := None], data)
    ensures SameFiles(d, d', VolumeOf(d).slots[p := None])
  {
    FilesKept(d, d', data, VolumeOf(d).slots[p := None]);
  }

  lemma SameButIs(data: seq<int>, d: Sectors, d': Sectors)
    requires SameBut(data, d, d')
    ensures SameOutside(ToSet(data), d, d')
  {
  }

  lemma VolumeKept(d: Sectors, d': Sectors, data: set<int>)
    requires Sound(d) && SameOutside(data, d, d') && data !! SYSTEM_SECTORS && HeadersAvoid(VolumeOf(d).slots, data)
    ensures HoldsVolume(d', VolumeOf(d))
  {
    SystemKept(d, d', data);
    HeadersKept(d, d', data);
  }

  // ---------------------------------------------------------------- the write-backs

  lemma HeaderFirst(d: Sectors, d1: Sectors, sector: nat, h: Header)
    requires SystemFilesOk(d) && sector < NUM_SECTORS && sector !in SYSTEM_SECTORS && |h.dataSectors| == NUM_DIRECT
    requires d1 == d[sector := Encode(h)]
    ensures SystemFilesOk(d1) && d1[FREE_MAP_SECTOR] == d[FREE_MAP_SECTOR] && d1[DIRECTORY_SECTOR] == d[DIRECTORY_SECTOR]
    ensures Decode(d1[sector]) == h && SameOutside({sector}, d, d1)
  {
    HeaderRoundTrip(h);
    SystemKept(d, d1, {sector});
  }

  lemma HeaderStays(d: Sectors, d1: Sectors, d2: Sectors, sector: nat, h: Header, table: seq<DirectoryEntry>, used: set<int>)
    requires sector < NUM_SECTORS && sector !in SYSTEM_SECTORS && Decode(d1[sector]) == h && SameOutside({sector}, d, d1)
    requires Wrote(d1, d2, {2, 3, 4}, used, table)
    ensures Committed(d, d2, sector, h, table, used)
  {
  }

  /** The headers in memory are those on the disk. */
  ghost predicate OpenedOn(d: Sectors, mapHdr: Header, dirHdr: Header) {
    mapHdr == Decode(d[FREE_MAP_SECTOR]) && dirHdr == Decode(d[DIRECTORY_SECTOR]) && SystemFilesOk(d)
  }

  lemma StaysOpened(d: Sectors, d': Sectors, mapHdr: Header, dirHdr: Header)
    requires OpenedOn(d, mapHdr, dirHdr) && d'[FREE_MAP_SECTOR] == d[FREE_MAP_SECTOR] && d'[DIRECTORY_SECTOR] == d[DIRECTORY_SECTOR]
    ensures OpenedOn(d', mapHdr, dirHdr)
  {
  }

  class FileSystem {
    const disk: SectorStore
    const freeMapFile: OpenFile
    const directoryFile: OpenFile

    /** The two files kept open. */
    ghost predicate Opened()
      reads disk, freeMapFile.hdr, freeMapFile.hdr.dataSectors, directoryFile.hdr, directoryFile.hdr.dataSectors
    {
      && freeMapFile.disk == disk && directoryFile.disk == disk && freeMapFile.Valid() && directoryFile.Valid()
      && OpenedOn(disk.sectors, freeMapFile.hdr.View(), directoryFile.hdr.View())
    }

    ghost predicate Valid()
      reads disk, freeMapFile.hdr, freeMapFile.hdr.dataSectors, directoryFile.hdr, directoryFile.hdr.dataSectors
    {
      Opened() && Sound(disk.sectors)
    }

    ghost function View(): Volume
      requires Valid()
      reads disk, freeMapFile.hdr, freeMapFile.hdr.dataSectors, directoryFile.hdr, directoryFile.hdr.dataSectors
    {
      VolumeOf(disk.sectors)
    }

    /** The disk, once `d`, is in order and holds this volume, and these files read as before. */
    ghost predicate Did(d: Sectors, v: Volume, kept: Slots)
      reads disk, freeMapFile.hdr, freeMapFile.hdr.dataSectors, directoryFile.hdr, directoryFile.hdr.dataSectors
    {
      Opened() && HoldsVolume(disk.sectors, v) && SameFiles(d, disk.sectors, kept)
    }

    /** FileSystem(false): the disk has been formatted before. */
    constructor Mount(disk: SectorStore)
      requires Sound(disk.sectors)
      ensures Valid() && this.disk == disk && fresh(freeMapFile) && fresh(directoryFile)
    {
      this.disk := disk;
      freeMapFile := new OpenFile(disk, FREE_MAP_SECTOR);
      directoryFile := new OpenFile(disk, DIRECTORY_SECTOR);
    }

    /** FileSystem(true): an empty directory and a map with the system's sectors marked. */
    constructor Format(disk: SectorStore)
      modifies disk
      ensures Valid() && this.disk == disk && View() == Formatted()
    {
      this.disk := disk;
      var freeMap := FormatHeaders(disk);
      freeMapFile := new OpenFile(disk, FREE_MAP_SECTOR);
      directoryFile := new OpenFile(disk, DIRECTORY_SECTOR);
      new;
      WriteInitial(freeMap);
    }

    /** The map and an empty directory. */
    method WriteInitial(freeMap: BitMap)
      requires Opened() && freeMap.Valid() && freeMap.numBits == NUM_SECTORS && freeMap.Marked() == SYSTEM_SECTORS
      modifies disk
      ensures Valid() && View() == Formatted()
    {
      var directory := new Directory(NUM_DIR_ENTRIES);
      ghost var table := directory.table[..];
      FlushRemove(directory, freeMap);
      EmptyVolume(disk.sectors, table);
    }

    /** Allocates and writes the headers of the two system files; both ASSERTs on Allocate hold. */
    static method FormatHeaders(disk: SectorStore) returns (freeMap: BitMap)
      modifies disk
      ensures fresh(freeMap) && fresh(freeMap.words) && freeMap.Valid() && freeMap.numBits == NUM_SECTORS
      ensures freeMap.Marked() == SYSTEM_SECTORS && SystemFilesOk(disk.sectors)
    {
      freeMap := new BitMap(NUM_SECTORS);
      MarkHeaders(freeMap);
      LowestSystemSectors();
      var mapHdr := AllocateSystemFile(freeMap, FREE_MAP_FILE_SIZE, {0, 1}, [2]);
      var dirHdr := AllocateSystemFile(freeMap, DIRECTORY_FILE_SIZE, {0, 1, 2}, [3, 4]);
      ghost var d, h0, h1 := disk.sectors, mapHdr.View(), dirHdr.View();
      mapHdr.WriteBack(disk, FREE_MAP_SECTOR);
      dirHdr.WriteBack(disk, DIRECTORY_SECTOR);
      HeadersInPlace(d, h0, h1);
    }

    static method MarkHeaders(freeMap: BitMap)
      requires freeMap.Valid() && freeMap.numBits == NUM_SECTORS && freeMap.Marked() == {}
      modifies freeMap.words
      ensures freeMap.Marked() == {0, 1}
    {
      freeMap.Mark(FREE_MAP_SECTOR);
      freeMap.Mark(DIRECTORY_SECTOR);
    }

    /** ASSERT(hdr->Allocate(freeMap, size)). */
    static method AllocateSystemFile(freeMap: BitMap, size: nat, ghost used: set<int>, ghost data: seq<int>) returns (hdr: FileHeader)
      requires freeMap.Valid() && freeMap.numBits == NUM_SECTORS && size <= MAX_FILE_SIZE && |data| == DivRoundUp(size, SECTOR_SIZE)
      requires freeMap.Marked() == used && |used| + |data| <= NUM_SECTORS && LowestClears(used, |data|) == data
      modifies freeMap.words
      ensures fresh(hdr) && fresh(hdr.dataSectors) && hdr.Valid() && SystemFile(hdr.View(), size, data)
      ensures freeMap.Marked() == used + ToSet(data)
    {
      hdr := new FileHeader();
      var ok := hdr.Allocate(freeMap, size);
      assert ok;
      AllocatedHeader(hdr.View(), used, size);
    }

    method FetchDirectory() returns (directory: Directory)
      requires Opened() && Sound(disk.sectors)
      ensures fresh(directory) && fresh(directory.table) && directory.Valid() && directory.table[..] == TableOn(disk.sectors)
    {
      directory := new Directory(NUM_DIR_ENTRIES);
      directory.FetchFrom(directoryFile);
      EntriesAreNamed(disk.sectors);
    }

    method FetchMap() returns (freeMap: BitMap)
      requires Opened()
      ensures fresh(freeMap) && fresh(freeMap.words) && freeMap.Valid() && freeMap.numBits == NUM_SECTORS
      ensures freeMap.Marked() == UsedOn(disk.sectors)
    {
      freeMap := new BitMap(NUM_SECTORS);
      FreeMaps.FetchFrom(freeMap, freeMapFile);
    }

    /** The write-backs of Create. */
    method FlushCreate(hdr: FileHeader, sector: nat, directory: Directory, freeMap: BitMap)
      requires Opened() && hdr.Valid() && sector < NUM_SECTORS && sector !in SYSTEM_SECTORS
      requires directory.table.Length == NUM_DIR_ENTRIES && freeMap.Valid() && freeMap.numBits == NUM_SECTORS
      modifies disk
      ensures Opened()
      ensures Committed(old(disk.sectors), disk.sectors, sector, hdr.View(), directory.table[..], freeMap.Marked())
    {
      ghost var d := disk.sectors;
      FlushHeader(hdr, sector);
      ghost var d1 := disk.sectors;
      FlushDirectoryAndMap(directory, freeMap);
      HeaderStays(d, d1, disk.sectors, sector, hdr.View(), directory.table[..], freeMap.Marked());
    }

    method FlushHeader(hdr: FileHeader, sector: nat)
      requires Opened() && hdr.Valid() && sector < NUM_SECTORS && sector !in SYSTEM_SECTORS
      modifies disk
      ensures Opened() && Decode(disk.sectors[sector]) == hdr.View() && SameOutside({sector}, old(disk.sectors), disk.sectors)
    {
      ghost var d, h := disk.sectors, hdr.View();
      hdr.WriteBack(disk, sector);
      HeaderFirst(d, disk.sectors, sector, h);
      StaysOpened(d, disk.sectors, freeMapFile.hdr.View(), directoryFile.hdr.View());
    }

    method FlushDirectoryAndMap(directory: Directory, freeMap: BitMap)
      requires Opened() && directory.table.Length == NUM_DIR_ENTRIES && freeMap.Valid() && freeMap.numBits == NUM_SECTORS
      modifies disk
      ensures Flushed(old(disk.sectors), {2, 3, 4}, freeMap.Marked(), directory.table[..])
    {
      FlushDirectory(directory);
      FlushMap(freeMap);
    }

    /** Since `d` only these sectors were written, and now the system files say this. */
    ghost predicate Flushed(d: Sectors, changed: set<int>, used: set<int>, table: seq<DirectoryEntry>)
      reads disk, freeMapFile.hdr, freeMapFile.hdr.dataSectors, directoryFile.hdr, directoryFile.hdr.dataSectors
    {
      Opened() && Wrote(d, disk.sectors, changed, used, table)
    }

    method FlushMap(freeMap: BitMap)
      requires Opened() && freeMap.Valid() && freeMap.numBits == NUM_SECTORS
      modifies disk
      ensures Flushed(old(disk.sectors), {2}, freeMap.Marked(), TableOn(old(disk.sectors)))
    {
      ghost var d := disk.sectors;
      FreeMaps.WriteBack(freeMap, freeMapFile);
      MapWritten(d, disk.sectors, freeMap.Marked());
      StaysOpened(d, disk.sectors, freeMapFile.hdr.View(), directoryFile.hdr.View());
    }

    method FlushDirectory(directory: Directory)
      requires Opened() && directory.table.Length == NUM_DIR_ENTRIES
      modifies disk
      ensures Flushed(old(disk.sectors), {3, 4}, UsedOn(old(disk.sectors)), directory.table[..])
    {
      ghost var d := disk.sectors;
      directory.WriteBack(directoryFile);
      DirectoryWritten(d, disk.sectors, directory.table[..]);
      StaysOpened(d, disk.sectors, freeMapFile.hdr.View(), directoryFile.hdr.View());
    }

    /** The write-backs of Remove. */
    method FlushRemove(directory: Directory, freeMap: BitMap)
      requires Opened() && directory.table.Length == NUM_DIR_ENTRIES && freeMap.Valid() && freeMap.numBits == NUM_SECTORS
      modifies disk
      ensures Flushed(old(disk.sectors), {2, 3, 4}, freeMap.Marked(), directory.table[..])
    {
      FlushMap(freeMap);
      FlushDirectory(directory);
    }

    /** The directory, and the sector it gives for the name, or -1. */
    method FindFile(name: CString) returns (directory: Directory, sector: int)
      requires Valid()
      ensures fresh(directory) && fresh(directory.table) && directory.Valid() && directory.table[..] == TableOn(disk.sectors)
      ensures sector == -1 <==> !Exists(View(), Key(name))
      ensures sector == -1 <==> IndexOf(TableOn(disk.sectors), Key(name), 0) == NUM_DIR_ENTRIES
      ensures sector != -1 ==> IsFile(disk.sectors, SlotOf(View().slots, Key(name), 0), sector)
    {
      ghost var d := disk.sectors;
      SameSlot(d, TableOn(d), Key(name));
      directory := FetchDirectory();
      sector := directory.Find(name);
      ghost var p := IndexOf(TableOn(d), Key(name), 0);
      if p < NUM_DIR_ENTRIES {
        assert VolumeOf(d).slots[p].Some?;
        SlotIs(d, p);
      }
    }

    /** Create's header sector and directory entry. */
    method ClaimEntry(name: CString, directory: Directory, freeMap: BitMap) returns (ok: bool, sector: int, ghost e: DirectoryEntry)
      requires directory.Valid() && freeMap.Valid() && freeMap.numBits == NUM_SECTORS
      requires IndexOf(directory.table[..], Key(name), 0) == NUM_DIR_ENTRIES
      modifies directory.table, freeMap.words
      ensures ok <==> Unused(old(directory.table[..]), 0) < NUM_DIR_ENTRIES && |old(freeMap.Marked())| < NUM_SECTORS
      ensures ok ==>
                && 0 <= sector < NUM_SECTORS && sector == LowestClear(old(freeMap.Marked()))
                && e.inUse && e.sector == sector && e.name[..FILE_NAME_MAX_LEN] == Key(name)
                && directory.table[..] == old(directory.table[..])[Unused(old(directory.table[..]), 0) := e]
                && freeMap.Marked() == old(freeMap.Marked()) + {sector}
                && |freeMap.Marked()| == |old(freeMap.Marked())| + 1
    {
      ghost var table, used: set<int> := directory.table[..], freeMap.Marked();
      e := DirectoryEntry(true, 0, seq(10, _ => 0));
      MapSize(used);
      sector := freeMap.Find();
      if sector == -1 {
        return false, sector, e;
      }
      LowestFound(used, sector);
      ok := directory.Add(name, sector);
      if ok {
        ghost var p := Unused(table, 0);
        e := DirectoryEntry(true, sector, CopiedName(table[p].name, name));
      }
    }

    /** The part of Create that works in memory: a header sector, a directory entry, data sectors. */
    method Claim(name: CString, initialSize: nat, directory: Directory)
      returns (ok: bool, sector: int, hdr: FileHeader, freeMap: BitMap, ghost e: DirectoryEntry)
      requires Opened() && directory.Valid() && initialSize <= MAX_FILE_SIZE
      requires IndexOf(directory.table[..], Key(name), 0) == NUM_DIR_ENTRIES
      modifies directory.table
      ensures fresh(hdr) && fresh(hdr.dataSectors) && hdr.Valid()
      ensures fresh(freeMap) && fresh(freeMap.words) && freeMap.Valid() && freeMap.numBits == NUM_SECTORS
      ensures ok <==> Unused(old(directory.table[..]), 0) < NUM_DIR_ENTRIES
                      && |UsedOn(disk.sectors)| + 1 + DivRoundUp(initialSize, SECTOR_SIZE) <= NUM_SECTORS
      ensures ok ==> 0 <= sector < NUM_SECTORS && sector == e.sector
      ensures ok ==> directory.table[..] == old(directory.table[..])[Unused(old(directory.table[..]), 0) := e]
      ensures ok ==> Claimed(UsedOn(disk.sectors), Key(name), initialSize, e, hdr.View(), freeMap.Marked())
    {
      hdr := new FileHeader();
      freeMap := FetchMap();
      ghost var used: set<int> := freeMap.Marked();
      ok, sector, e := ClaimEntry(name, directory, freeMap);
      if ok {
        ok := ClaimSectors(hdr, freeMap, initialSize, used, Key(name), e);
      }
    }

    /** Create's data sectors. */
    static method ClaimSectors(hdr: FileHeader, freeMap: BitMap, initialSize: nat, ghost used: set<int>, ghost key: seq<Byte>, ghost e: DirectoryEntry)
      returns (ok: bool)
      requires hdr.Valid() && freeMap.Valid() && freeMap.numBits == NUM_SECTORS && freeMap.words as object != hdr.dataSectors
      requires initialSize <= MAX_FILE_SIZE && e.inUse && e.sector == LowestClear(used) && e.name[..FILE_NAME_MAX_LEN] == key
      requires freeMap.Marked() == used + {e.sector} && |freeMap.Marked()| == |used| + 1
      modifies hdr, hdr.dataSectors, freeMap.words
      ensures ok <==> |used| + 1 + DivRoundUp(initialSize, SECTOR_SIZE) <= NUM_SECTORS
      ensures ok ==> Claimed(used, key, initialSize, e, hdr.View(), freeMap.Marked())
    {
      ghost var used1: set<int> := freeMap.Marked();
      ok := hdr.Allocate(freeMap, initialSize);
      if ok {
        ghost var h, used' := hdr.View(), freeMap.Marked();
        AllocatedHeader(h, used1, initialSize);
        ClaimAdds(used, key, initialSize, e, h, used');
      }
    }

    /** All or nothing: a Create that fails leaves every byte of the disk alone. */
    method Create(name: CString, initialSize: nat) returns (success: bool)
      requires Valid() && initialSize <= MAX_FILE_SIZE
      modifies disk
      ensures Did(old(disk.sectors), Volumes.Create(old(View()), Key(name), initialSize), old(View()).slots)
      ensures success <==> !Exists(old(View()), Key(name)) && Fits(old(View()), initialSize)
      ensures !success ==> disk.sectors == old(disk.sectors)
    {
      var directory, found := FindFile(name);
      if found != -1 {
        CreateFails(disk.sectors, Key(name), initialSize);
        return false;
      }
      success := CreateNew(name, initialSize, directory);
    }

    /** Create once the name is known to be new. */
    method CreateNew(name: CString, initialSize: nat, directory: Directory) returns (success: bool)
      requires Valid() && initialSize <= MAX_FILE_SIZE && !Exists(View(), Key(name))
      requires directory.Valid() && directory.table[..] == TableOn(disk.sectors)
      requires IndexOf(TableOn(disk.sectors), Key(name), 0) == NUM_DIR_ENTRIES
      modifies disk, directory.table
      ensures Did(old(disk.sectors), Volumes.Create(old(View()), Key(name), initialSize), old(View()).slots)
      ensures success <==> Fits(old(View()), initialSize)
      ensures !success ==> disk.sectors == old(disk.sectors)
    {
      var sector, hdr, freeMap;
      ghost var e;
      success, sector, hdr, freeMap, e := ClaimNew(name, initialSize, directory);
      if success {
        CommitNew(name, initialSize, sector, hdr, directory, freeMap, e);
      } else {
        CreateFails(disk.sectors, Key(name), initialSize);
      }
    }

    method ClaimNew(name: CString, initialSize: nat, directory: Directory)
      returns (ok: bool, sector: int, hdr: FileHeader, freeMap: BitMap, ghost e: DirectoryEntry)
      requires Valid() && initialSize <= MAX_FILE_SIZE && !Exists(View(), Key(name))
      requires directory.Valid() && directory.table[..] == TableOn(disk.sectors)
      requires IndexOf(TableOn(disk.sectors), Key(name), 0) == NUM_DIR_ENTRIES
      modifies directory.table
      ensures fresh(hdr) && fresh(hdr.dataSectors) && hdr.Valid()
      ensures fresh(freeMap) && fresh(freeMap.words) && freeMap.Valid() && freeMap.numBits == NUM_SECTORS
      ensures Valid() && (ok <==> Fits(View(), initialSize))
      ensures ok ==>
                && 0 <= sector < NUM_SECTORS && sector == e.sector
                && Prepared(disk.sectors, Key(name), initialSize, e, hdr.View(), directory.table[..], freeMap.Marked())
    {
      ok, sector, hdr, freeMap, e := Claim(name, initialSize, directory);
      ghost var h, table, used := hdr.View(), directory.table[..], freeMap.Marked();
      RoomFor(disk.sectors, Key(name), initialSize);
      if ok {
        ClaimPrepares(disk.sectors, Key(name), initialSize, e, h, table, used);
      }
    }

    /** Create once everything has succeeded in memory. */
    method CommitNew(name: CString, ghost initialSize: nat, sector: nat, hdr: FileHeader, directory: Directory, freeMap: BitMap,
                     ghost e: DirectoryEntry)
      requires Valid() && hdr.Valid() && directory.table.Length == NUM_DIR_ENTRIES && freeMap.Valid() && freeMap.numBits == NUM_SECTORS
      requires sector < NUM_SECTORS && sector == e.sector
      requires Prepared(disk.sectors, Key(name), initialSize, e, hdr.View(), directory.table[..], freeMap.Marked())
      modifies disk
      ensures Did(old(disk.sectors), Volumes.Create(old(View()), Key(name), initialSize), old(View()).slots)
    {
      ghost var d, h, table, used := disk.sectors, hdr.View(), directory.table[..], freeMap.Marked();
      ClaimIsFree(d, Key(name), initialSize, e, h, table, used);
      FlushCreate(hdr, sector, directory, freeMap);
      ClaimOnDisk(d, disk.sectors, name, initialSize, e, h, table, used);
    }

    method Open(name: CString) returns (file: Option<OpenFile>)
      requires Valid()
      ensures file.Some? <==> Exists(View(), Key(name))
      ensures file.Some? ==>
                var f := View().slots[SlotOf(View().slots, Key(name), 0)].value;
                && fresh(file.value) && file.value.disk == disk && file.value.Valid() && file.value.seekPosition == 0
                && DataOf(file.value.hdr.View()) == f.data && file.value.hdr.numBytes == f.size
                && 0 <= f.sector < NUM_SECTORS && HeaderOk(Decode(disk.sectors[f.sector]))
                && file.value.Bytes() == FileBytes(disk.sectors, f)
    {
      var directory, sector := FindFile(name);
      if sector >= 0 {
        var openFile := new OpenFile(disk, sector);
        return Some(openFile);
      }
      return None;
    }

    method Remove(name: CString) returns (success: bool)
      requires Valid()
      modifies disk
      ensures Did(old(disk.sectors), Volumes.Remove(old(View()), Key(name)), Volumes.Remove(old(View()), Key(name)).slots)
      ensures success <==> Exists(old(View()), Key(name))
      ensures !success ==> disk.sectors == old(disk.sectors)
    {
      ghost var d := disk.sectors;
      NothingWritten(d);
      var directory, sector := FindFile(name);
      if sector == -1 {
        return false;
      }
      SameSlot(d, TableOn(d), Key(name));
      RemoveFound(name, sector, directory, IndexOf(TableOn(d), Key(name), 0));
      success := true;
    }

    /** Remove once the file is found. */
    method RemoveFound(name: CString, sector: nat, directory: Directory, ghost p: nat)
      requires Valid() && IsFile(disk.sectors, p, sector)
      requires directory.Valid() && directory.table[..] == TableOn(disk.sectors)
      requires IndexOf(TableOn(disk.sectors), Key(name), 0) == p
      modifies disk, directory.table
      ensures Did(old(disk.sectors), Volumes.Remove(old(View()), Key(name)), Volumes.Remove(old(View()), Key(name)).slots)
    {
      ghost var d := disk.sectors;
      ghost var f := VolumeOf(d).slots[p].value;
      OwnedIsUsed(VolumeOf(d), p);
      var freeMap := Release(sector, f);
      var _ := directory.Remove(name);
      CommitRemove(name, directory, freeMap, p);
    }

    /** Remove once the map and the directory are changed in memory. */
    method CommitRemove(ghost name: CString, directory: Directory, freeMap: BitMap, ghost p: nat)
      requires Valid() && p < NUM_DIR_ENTRIES && p == IndexOf(TableOn(disk.sectors), Key(name), 0) && View().slots[p].Some?
      requires directory.table.Length == NUM_DIR_ENTRIES && freeMap.Valid() && freeMap.numBits == NUM_SECTORS
      requires directory.table[..] == TableOn(disk.sectors)[p := TableOn(disk.sectors)[p].(inUse := false)]
      requires freeMap.Marked() == UsedOn(disk.sectors) - Owned(View().slots[p].value)
      modifies disk
      ensures Did(old(disk.sectors), Volumes.Remove(old(View()), Key(name)), Volumes.Remove(old(View()), Key(name)).slots)
    {
      ghost var d := disk.sectors;
      FlushRemove(directory, freeMap);
      RemoveOnDisk(d, disk.sectors, name, p);
    }

    /** The map without the file. */
    method Release(sector: nat, ghost f: File) returns (freeMap: BitMap)
      requires Opened() && HasFile(disk.sectors, f) && f.sector == sector && Owned(f) <= UsedOn(disk.sectors)
      ensures fresh(freeMap) && fresh(freeMap.words) && freeMap.Valid() && freeMap.numBits == NUM_SECTORS
      ensures freeMap.Marked() == UsedOn(disk.sectors) - Owned(f)
    {
      var fileHdr := FetchHeader(sector);
      freeMap := FetchMap();
      ReleaseFile(fileHdr, sector, freeMap, f);
    }

    method FetchHeader(sector: nat) returns (fileHdr: FileHeader)
      requires sector < NUM_SECTORS
      ensures fresh(fileHdr) && fresh(fileHdr.dataSectors) && fileHdr.Valid() && fileHdr.View() == Decode(disk.sectors[sector])
    {
      fileHdr := new FileHeader();
      fileHdr.FetchFrom(disk, sector);
    }

    /** One command. */
    method Carry(c: Command) returns (success: bool)
      requires Valid() && (c.CreateFile? ==> c.size <= MAX_FILE_SIZE)
      modifies disk
      ensures Valid() && View() == Apply(old(View()), c)
    {
      match c
      case CreateFile(name, size) => success := Create(name, size);
      case RemoveFile(name) => success := Remove(name);
    }

    /** Any run of commands, on the bytes of the disk. */
    method RunCommands(cs: seq<Command>)
      requires Valid() && SizesOk(cs)
      modifies disk
      ensures Valid() && View() == Run(old(View()), cs)
    {
      ghost var start := View();
      for i := 0 to |cs|
        invariant Valid() && Run(View(), cs[i..]) == Run(start, cs)
      {
        assert cs[i..][0] == cs[i] && cs[i..][1..] == cs[i + 1..];
        var _ := Carry(cs[i]);
      }
    }

    /** The whole life of a disk: formatting, then any run of commands. */
    static method FormatAndRun(disk: SectorStore, cs: seq<Command>) returns (fs: FileSystem)
      requires SizesOk(cs)
      modifies disk
      ensures fresh(fs) && fs.disk == disk && fs.Valid() && fs.View() == Run(Formatted(), cs)
    {
      fs := new FileSystem.Format(disk);
      fs.RunCommands(cs);
    }

    /** Remove's changes to the map: the assertion in Deallocate holds. */
    method ReleaseFile(fileHdr: FileHeader, sector: nat, freeMap: BitMap, ghost f: File)
      requires fileHdr.Valid() && HeaderOk(fileHdr.View()) && freeMap.Valid() && freeMap.numBits == NUM_SECTORS
      requires freeMap.words as object != fileHdr.dataSectors && Owned(f) <= freeMap.Marked()
      requires sector == f.sector && DataOf(fileHdr.View()) == f.data
      modifies freeMap.words
      ensures freeMap.Marked() == old(freeMap.Marked()) - Owned(f)
    {
      assert f.sector in Owned(f) && ToSet(f.data) <= Owned(f);
      fileHdr.Deallocate(freeMap);
      freeMap.Clear(sector);
    }
  }

  /** The file's header is where it says, and says the same. */
  ghost predicate HasFile(d: Sectors, f: File) {
    && 0 <= f.sector < NUM_SECTORS && HeaderOk(Decode(d[f.sector]))
    && f.size == Decode(d[f.sector]).numBytes && f.data == DataOf(Decode(d[f.sector]))
  }

  /** The slot is that of a file with its header in this sector. */
  ghost predicate IsFile(d: Sectors, p: nat, sector: int)
    requires Readable(d)
  {
    && p < NUM_DIR_ENTRIES && VolumeOf(d).slots[p].Some?
    && VolumeOf(d).slots[p].value.sector == sector && HasFile(d, VolumeOf(d).slots[p].value)
  }

  /** What Claim leaves in memory: the entry, the header and the map of the new file. */
  ghost predicate Claimed(used: set<int>, key: seq<Byte>, size: nat, e: DirectoryEntry, h: Header, used': set<int>) {
    var f := File(key, e.sector, size, LowestClears(used + {e.sector}, DivRoundUp(size, SECTOR_SIZE)));
    e.sector == LowestClear(used) && Entered(f, h, e) && used' == used + Owned(f)
  }

  lemma ClaimAdds(used: set<int>, key: seq<Byte>, size: nat, e: DirectoryEntry, h: Header, used': set<int>)
    requires e.inUse && e.sector == LowestClear(used) && e.name[..FILE_NAME_MAX_LEN] == key
    requires HeaderOk(h) && h.numBytes == size && DataOf(h) == LowestClears(used + {e.sector}, DivRoundUp(size, SECTOR_SIZE))
    requires used' == (used + {e.sector}) + ToSet(DataOf(h))
    ensures Claimed(used, key, size, e, h, used')
  {
  }

  lemma IsTheLowest(used: set<int>, r: nat)
    requires IsLowestClear(used, r) && r < NUM_SECTORS
    ensures LowestClear(used) == r
  {
  }

  /** After the two headers come the map and the directory. */
  lemma LowestSystemSectors()
    ensures LowestClears({0, 1}, 1) == [2] && LowestClears({0, 1, 2}, 2) == [3, 4]
    ensures {0, 1} + ToSet([2]) == {0, 1, 2} && {0, 1, 2} + ToSet([3, 4]) == SYSTEM_SECTORS
    ensures |{0, 1}| == 2 && |{0, 1, 2}| == 3
  {
    MapSector();
    DirectorySectors();
    SetsOfSectors();
  }

  lemma MapSector()
    ensures LowestClears({0, 1}, 1) == [2]
  {
    LowestAppend({0, 1}, [], 2);
  }

  lemma DirectorySectors()
    ensures LowestClears({0, 1, 2}, 2) == [3, 4]
  {
    LowestAppend({0, 1, 2}, [], 3);
    LowestAppend({0, 1, 2}, [3], 4);
  }

  lemma SetsOfSectors()
    ensures {0, 1} + ToSet([2]) == {0, 1, 2} && {0, 1, 2} + ToSet([3, 4]) == SYSTEM_SECTORS
    ensures |{0, 1}| == 2 && |{0, 1, 2}| == 3
  {
  }

  lemma LowestAppend(used: set<int>, data: seq<int>, r: nat)
    requires LowestClears(used, |data|) == data && IsLowestClear(used + ToSet(data), r) && r < NUM_SECTORS
    ensures LowestClears(used, |data| + 1) == data + [r]
  {
    IsTheLowest(used + ToSet(data), r);
  }

  lemma HeadersInPlace(d: Sectors, h0: Header, h1: Header)
    requires SystemFile(h0, FREE_MAP_FILE_SIZE, [2]) && SystemFile(h1, DIRECTORY_FILE_SIZE, [3, 4])
    ensures SystemFilesOk(d[FREE_MAP_SECTOR := Encode(h0)][DIRECTORY_SECTOR := Encode(h1)])
  {
    HeaderRoundTrip(h0);
    HeaderRoundTrip(h1);
  }

  lemma EmptyVolume(d: Sectors, table: seq<DirectoryEntry>)
    requires SystemFilesOk(d) && TableOn(d) == table && UsedOn(d) == SYSTEM_SECTORS
    requires forall i :: 0 <= i < |table| ==> !table[i].inUse
    ensures Sound(d) && VolumeOf(d) == Formatted()
  {
    FormattedInv();
    assert VolumeOf(d).slots == Formatted().slots;
  }

  lemma EntriesAreNamed(d: Sectors)
    requires Sound(d)
    ensures TableOk(TableOn(d))
  {
    forall i | 0 <= i < |TableOn(d)| && TableOn(d)[i].inUse ensures ZeroPadded(TableOn(d)[i].name[..FILE_NAME_MAX_LEN]) {
      assert EntryOk(d, TableOn(d)[i]);
    }
  }

  lemma LowestFound(used: set<int>, sector: nat)
    requires sector < NUM_SECTORS && sector !in used && Below(sector) <= used
    ensures LowestClear(used) == sector
  {
    assert forall j: nat :: j < sector ==> j in Below(sector);
  }

  lemma AllocatedHeader(h: Header, used: set<int>, size: nat)
    requires |h.dataSectors| == NUM_DIRECT && size <= MAX_FILE_SIZE && h.numBytes == size && h.numSectors == DivRoundUp(size, SECTOR_SIZE)
    requires used <= Below(NUM_SECTORS) && |used| + h.numSectors <= NUM_SECTORS
    requires h.dataSectors[..h.numSectors] == LowestClears(used, h.numSectors)
    ensures HeaderOk(h)
  {
    ClearsAreFree(used, h.numSectors);
    forall i | 0 <= i < h.numSectors ensures 0 <= h.dataSectors[i] < NUM_SECTORS {
      assert LowestClears(used, h.numSectors)[i] in ToSet(LowestClears(used, h.numSectors));
    }
  }

  lemma MapSize(used: set<int>)
    requires used <= Below(NUM_SECTORS)
    ensures used == Below(NUM_SECTORS) <==> |used| == NUM_SECTORS
    ensures |used| <= NUM_SECTORS
  {
    BelowSize(NUM_SECTORS);
    CountAll(used, NUM_SECTORS);
    if |used| == NUM_SECTORS {
      assert Below(NUM_SECTORS) - used == {};
      assert Below(NUM_SECTORS) <= used;
    }
  }

  lemma NothingWritten(d: Sectors)
    requires Sound(d)
    ensures SameFiles(d, d, VolumeOf(d).slots)
  {
    FilesKept(d, d, {}, VolumeOf(d).slots);
  }

  /** Everything for a Create is in memory. */
  ghost predicate Prepared(d: Sectors, key: seq<Byte>, size: nat, e: DirectoryEntry, h: Header, table: seq<DirectoryEntry>, used: set<int>) {
    && Sound(d) && size <= MAX_FILE_SIZE && !Exists(VolumeOf(d), key) && Fits(VolumeOf(d), size)
    && Unused(TableOn(d), 0) < NUM_DIR_ENTRIES && table == TableOn(d)[Unused(TableOn(d), 0) := e]
    && Claimed(UsedOn(d), key, size, e, h, used)
  }

  /** Room in the volume is room in the table and the map. */
  lemma RoomFor(d: Sectors, key: seq<Byte>, size: nat)
    requires Sound(d)
    ensures Fits(VolumeOf(d), size) <==>
              Unused(TableOn(d), 0) < NUM_DIR_ENTRIES && |UsedOn(d)| + 1 + DivRoundUp(size, SECTOR_SIZE) <= NUM_SECTORS
  {
    SameSlot(d, TableOn(d), key);
  }

  lemma ClaimPrepares(d: Sectors, key: seq<Byte>, size: nat, e: DirectoryEntry, h: Header, table: seq<DirectoryEntry>, used: set<int>)
    requires Sound(d) && size <= MAX_FILE_SIZE && !Exists(VolumeOf(d), key) && Fits(VolumeOf(d), size)
    requires Unused(TableOn(d), 0) < NUM_DIR_ENTRIES
    requires table == TableOn(d)[Unused(TableOn(d), 0) := e] && Claimed(UsedOn(d), key, size, e, h, used)
    ensures Prepared(d, key, size, e, h, table, used)
  {
  }

  lemma ClaimIsFree(d: Sectors, key: seq<Byte>, size: nat, e: DirectoryEntry, h: Header, table: seq<DirectoryEntry>, used: set<int>)
    requires Prepared(d, key, size, e, h, table, used)
    ensures e.sector !in SYSTEM_SECTORS
  {
    NewFileIsFree(VolumeOf(d), key, size);
    NotUsed(VolumeOf(d).used, NewFile(VolumeOf(d), key, size));
    SystemIsUsed(VolumeOf(d));
  }

  lemma ClaimOnDisk(d: Sectors, d': Sectors, name: CString, size: nat, e: DirectoryEntry, h: Header, table: seq<DirectoryEntry>, used: set<int>)
    requires Prepared(d, Key(name), size, e, h, table, used) && Committed(d, d', e.sector, h, table, used)
    ensures HoldsVolume(d', Volumes.Create(VolumeOf(d), Key(name), size))
    ensures SameFiles(d, d', VolumeOf(d).slots)
  {
    CreateOnDisk(d, d', name, size, h, e);
  }

  lemma CreateFails(d: Sectors, key: seq<Byte>, size: nat)
    requires Sound(d) && (Exists(VolumeOf(d), key) || !Fits(VolumeOf(d), size))
    ensures HoldsVolume(d, Volumes.Create(VolumeOf(d), key, size)) && SameFiles(d, d, VolumeOf(d).slots)
  {
    NothingWritten(d);
  }
}
