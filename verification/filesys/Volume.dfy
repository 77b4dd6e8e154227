/**
 What a formatted disk holds, apart from file contents: the sectors in use and the files, by directory
 slot.  Create and Remove (filesys/filesys.cc) as functions on it, and what every run of them keeps.
 */
module Volumes {
  import opened Options
  import opened Sequences
  import opened Words
  import opened BitMaps
  import opened Storage
  import opened FileHeaders
  import opened Directories

  /** A file's name key, the sector of its header, its length and the sectors of its data. */
  datatype File = File(key: seq<Byte>, sector: int, size: int, data: seq<int>)

  type Slots = seq<Option<File>>

  datatype Volume = Volume(used: set<int>, slots: Slots)

  /** The two headers, the sector of the map and the two of the directory. */
  const SYSTEM_SECTORS: set<int> := {0, 1, 2, 3, 4}

  // ---------------------------------------------------------------- the operations

  ghost predicate HasKey(slot: Option<File>, key: seq<Byte>) {
    slot.Some? && slot.value.key == key
  }

  /** The first slot with the name, or |slots|. */
  ghost function SlotOf(slots: Slots, key: seq<Byte>, from: nat): (i: nat)
    requires from <= |slots|
    ensures from <= i <= |slots| && (i < |slots| ==> HasKey(slots[i], key))
    ensures forall j :: from <= j < i ==> !HasKey(slots[j], key)
    decreases |slots| - from
  {
    if from == |slots| || HasKey(slots[from], key) then from else SlotOf(slots, key, from + 1)
  }

  /** The first free slot, or |slots|. */
  ghost function FreeSlot(slots: Slots, from: nat): (i: nat)
    requires from <= |slots|
    ensures from <= i <= |slots| && (i < |slots| ==> slots[i].None?)
    ensures forall j :: from <= j < i ==> slots[j].Some?
    decreases |slots| - from
  {
    if from == |slots| || slots[from].None? then from else FreeSlot(slots, from + 1)
  }

  ghost predicate Exists(v: Volume, key: seq<Byte>) {
    SlotOf(v.slots, key, 0) < |v.slots|
  }

  /** Room for the name, the header and the data. */
  ghost predicate Fits(v: Volume, size: nat) {
    && FreeSlot(v.slots, 0) < |v.slots|
    && |v.used| + 1 + DivRoundUp(size, SECTOR_SIZE) <= NUM_SECTORS
  }

  /** The file Create makes: its header in the lowest free sector, its data in the next lowest. */
  ghost function NewFile(v: Volume, key: seq<Byte>, size: nat): File {
    var sector := LowestClear(v.used);
    File(key, sector, size, LowestClears(v.used + {sector}, DivRoundUp(size, SECTOR_SIZE)))
  }

  ghost function Owned(f: File): set<int> {
    {f.sector} + ToSet(f.data)
  }

  ghost function Created(v: Volume, f: File): Volume
    requires FreeSlot(v.slots, 0) < |v.slots|
  {
    Volume(v.used + Owned(f), v.slots[FreeSlot(v.slots, 0) := Some(f)])
  }

  ghost function Create(v: Volume, key: seq<Byte>, size: nat): Volume {
    if Exists(v, key) || !Fits(v, size) then v else Created(v, NewFile(v, key, size))
  }

  ghost function Remove(v: Volume, key: seq<Byte>): Volume {
    if Exists(v, key) then
      var i := SlotOf(v.slots, key, 0);
      Volume(v.used - Owned(v.slots[i].value), v.slots[i := None])
    else v
  }

  // ---------------------------------------------------------------- the invariant

  ghost predicate FileOk(f: File) {
    && 0 <= f.size <= MAX_FILE_SIZE && |f.data| == DivRoundUp(f.size, SECTOR_SIZE)
    && NoDuplicates(f.data) && f.sector !in f.data
    && Owned(f) <= Below(NUM_SECTORS) && Owned(f) !! SYSTEM_SECTORS
  }

  ghost predicate FilesOk(slots: Slots) {
    forall i :: 0 <= i < |slots| && slots[i].Some? ==> FileOk(slots[i].value)
  }

  /** No two files share a sector or a name. */
  ghost predicate Apart(slots: Slots) {
    forall i, j :: 0 <= i < j < |slots| && slots[i].Some? && slots[j].Some? ==>
      Owned(slots[i].value) !! Owned(slots[j].value) && slots[i].value.key != slots[j].value.key
  }

  ghost predicate OwnedBySome(slots: Slots, s: int) {
    exists i :: 0 <= i < |slots| && slots[i].Some? && s in Owned(slots[i].value)
  }

  /** The sectors in use are exactly those of the system and of the files. */
  ghost predicate Accounted(v: Volume) {
    forall s :: s in v.used <==> s in SYSTEM_SECTORS || OwnedBySome(v.slots, s)
  }

  ghost predicate Inv(v: Volume) {
    |v.slots| == NUM_DIR_ENTRIES && v.used <= Below(NUM_SECTORS) && FilesOk(v.slots) && Apart(v.slots) && Accounted(v)
  }

  // ---------------------------------------------------------------- formatting

  /** The volume after formatting. */
  ghost function Formatted(): Volume {
    Volume(SYSTEM_SECTORS, seq(NUM_DIR_ENTRIES, _ => None))
  }

  lemma FormattedInv()
    ensures Inv(Formatted())
  {
  }

  // ---------------------------------------------------------------- Create

  lemma {:induction false} NewFileIsFree(v: Volume, key: seq<Byte>, size: nat)
    requires Inv(v) && Fits(v, size) && size <= MAX_FILE_SIZE
    ensures FileOk(NewFile(v, key, size)) && Owned(NewFile(v, key, size)) !! v.used
  {
    var f := NewFile(v, key, size);
    SystemIsUsed(v);
    SomeClear(v.used);
    assert |v.used + {f.sector}| == |v.used| + 1;
    ClearsAreFree(v.used + {f.sector}, DivRoundUp(size, SECTOR_SIZE));
    FreshFileOk(v.used, f);
  }

  lemma SystemIsUsed(v: Volume)
    requires Inv(v)
    ensures SYSTEM_SECTORS <= v.used <= Below(NUM_SECTORS)
  {
  }

  lemma FreshFileOk(used: set<int>, f: File)
    requires SYSTEM_SECTORS <= used && 0 <= f.size <= MAX_FILE_SIZE && |f.data| == DivRoundUp(f.size, SECTOR_SIZE)
    requires f.sector in Below(NUM_SECTORS) - used
    requires NoDuplicates(f.data) && ToSet(f.data) !! used + {f.sector} && ToSet(f.data) <= Below(NUM_SECTORS)
    ensures FileOk(f) && Owned(f) !! used
  {
    assert f.sector !in ToSet(f.data);
  }

  lemma CreatedKeepsInv(v: Volume, f: File)
    requires Inv(v) && FileOk(f) && Owned(f) !! v.used && !Exists(v, f.key) && FreeSlot(v.slots, 0) < |v.slots|
    ensures Inv(Created(v, f))
  {
    var v' := Created(v, f);
    var p := FreeSlot(v.slots, 0);
    forall s ensures OwnedBySome(v'.slots, s) <==> s in Owned(f) || OwnedBySome(v.slots, s) {
      if s in Owned(f) {
        assert v'.slots[p].Some?;
      }
      if OwnedBySome(v.slots, s) {
        var i :| 0 <= i < |v.slots| && v.slots[i].Some? && s in Owned(v.slots[i].value);
        assert v'.slots[i] == v.slots[i];
      }
    }
    forall i | 0 <= i < |v.slots| && v.slots[i].Some? ensures Owned(v.slots[i].value) !! Owned(f) && v.slots[i].value.key != f.key {
      OwnedIsUsed(v, i);
      assert !HasKey(v.slots[i], f.key);
    }
  }

  lemma OwnedIsUsed(v: Volume, i: nat)
    requires Inv(v) && i < |v.slots| && v.slots[i].Some?
    ensures Owned(v.slots[i].value) <= v.used
  {
    forall s | s in Owned(v.slots[i].value) ensures s in v.used {
      assert OwnedBySome(v.slots, s);
    }
  }

  lemma CreateKeepsInv(v: Volume, key: seq<Byte>, size: nat)
    requires Inv(v) && size <= MAX_FILE_SIZE
    ensures Inv(Create(v, key, size))
  {
    if !Exists(v, key) && Fits(v, size) {
      NewFileIsFree(v, key, size);
      CreatedKeepsInv(v, NewFile(v, key, size));
    }
  }

  // ---------------------------------------------------------------- Remove

  lemma {:induction false} RemoveKeepsInv(v: Volume, key: seq<Byte>)
    requires Inv(v)
    ensures Inv(Remove(v, key))
  {
    if Exists(v, key) {
      var p := SlotOf(v.slots, key, 0);
      var v' := Remove(v, key);
      forall s ensures s in v'.used <==> s in SYSTEM_SECTORS || OwnedBySome(v'.slots, s) {
        RemovedAccounts(v, p, s);
      }
    }
  }

  lemma RemovedAccounts(v: Volume, p: nat, s: int)
    requires Inv(v) && p < |v.slots| && v.slots[p].Some?
    ensures s in v.used - Owned(v.slots[p].value) <==> s in SYSTEM_SECTORS || OwnedBySome(v.slots[p := None], s)
  {
    assert FileOk(v.slots[p].value);
    OwnersWithout(v.slots, p, s);
  }

  lemma OwnersWithout(slots: Slots, p: nat, s: int)
    requires Apart(slots) && p < |slots| && slots[p].Some?
    ensures OwnedBySome(slots[p := None], s) <==> OwnedBySome(slots, s) && s !in Owned(slots[p].value)
  {
    var slots' := slots[p := None];
    if OwnedBySome(slots', s) {
      var i :| 0 <= i < |slots'| && slots'[i].Some? && s in Owned(slots'[i].value);
      assert slots[i] == slots'[i];
      assert Owned(slots[i].value) !! Owned(slots[p].value);
    }
    if OwnedBySome(slots, s) && s !in Owned(slots[p].value) {
      var i :| 0 <= i < |slots| && slots[i].Some? && s in Owned(slots[i].value);
      assert slots'[i] == slots[i];
    }
  }

  // ---------------------------------------------------------------- runs

  datatype Command = CreateFile(name: CString, size: nat) | RemoveFile(name: CString)

  ghost function Apply(v: Volume, c: Command): Volume {
    match c
    case CreateFile(name, size) => Create(v, Key(name), size)
    case RemoveFile(name) => Remove(v, Key(name))
  }

  ghost function Run(v: Volume, cs: seq<Command>): Volume
    decreases |cs|
  {
    if cs == [] then v else Run(Apply(v, cs[0]), cs[1..])
  }

  ghost predicate SizesOk(cs: seq<Command>) {
    forall i :: 0 <= i < |cs| && cs[i].CreateFile? ==> cs[i].size <= MAX_FILE_SIZE
  }

  lemma {:induction false} RunKeepsInv(v: Volume, cs: seq<Command>)
    requires Inv(v) && SizesOk(cs)
    ensures Inv(Run(v, cs))
    decreases |cs|
  {
    if cs != [] {
      match cs[0] {
        case CreateFile(name, size) => CreateKeepsInv(v, Key(name), size);
        case RemoveFile(name) => RemoveKeepsInv(v, Key(name));
      }
      RunKeepsInv(Apply(v, cs[0]), cs[1..]);
    }
  }

  /**
   After formatting and any run of Create and Remove the map marks exactly the system's sectors and
   each file's header and data sectors, and no sector has two owners.
   */
  lemma MapIsExact(cs: seq<Command>)
    requires SizesOk(cs)
    ensures var v := Run(Formatted(), cs);
      && (forall s :: s in v.used <==> s in SYSTEM_SECTORS || OwnedBySome(v.slots, s))
      && (forall i, j :: 0 <= i < j < |v.slots| && v.slots[i].Some? && v.slots[j].Some? ==>
            Owned(v.slots[i].value) !! Owned(v.slots[j].value))
      && (forall i :: 0 <= i < |v.slots| && v.slots[i].Some? ==>
            Owned(v.slots[i].value) !! SYSTEM_SECTORS && OneAndItsBytes(v.slots[i].value))
  {
    FormattedInv();
    RunKeepsInv(Formatted(), cs);
    var v := Run(Formatted(), cs);
    forall i | 0 <= i < |v.slots| && v.slots[i].Some? ensures Owned(v.slots[i].value) !! SYSTEM_SECTORS && OneAndItsBytes(v.slots[i].value) {
      OwnedSize(v.slots[i].value);
    }
  }

  /** A file takes one sector for its header and enough for its bytes. */
  ghost predicate OneAndItsBytes(f: File) {
    f.size >= 0 && |Owned(f)| == 1 + DivRoundUp(f.size, SECTOR_SIZE)
  }

  lemma OwnedSize(f: File)
    requires FileOk(f)
    ensures OneAndItsBytes(f)
  {
    SizeOfDistinct(f.data);
    assert f.sector !in ToSet(f.data);
  }

  lemma {:induction false} SizeOfDistinct(s: seq<int>)
    requires NoDuplicates(s)
    ensures |ToSet(s)| == |s|
  {
    if s != [] {
      var t, x := s[..|s| - 1], s[|s| - 1];
      assert s == t + [x];
      SizeOfDistinct(t);
      ToSetAppend(t, x);
      assert x !in ToSet(t);
    }
  }

  // ---------------------------------------------------------------- Create and Remove undo each other

  /** A Create that succeeds, followed by Remove of the same name, restores the directory and the map. */
  lemma RemoveUndoesCreate(v: Volume, name: CString, size: nat)
    requires Inv(v) && size <= MAX_FILE_SIZE && !Exists(v, Key(name)) && Fits(v, size)
    ensures Exists(Create(v, Key(name), size), Key(name))
    ensures Remove(Create(v, Key(name), size), Key(name)) == v
  {
    var f := NewFile(v, Key(name), size);
    NewFileIsFree(v, Key(name), size);
    var p := FreeSlot(v.slots, 0);
    var v' := Created(v, f);
    assert HasKey(v'.slots[p], Key(name));
    forall i | 0 <= i < p ensures !HasKey(v'.slots[i], Key(name)) {
    }
    assert SlotOf(v'.slots, Key(name), 0) == p;
    assert v'.slots[p := None] == v.slots;
    assert (v.used + Owned(f)) - Owned(f) == v.used;
  }

  /** Which file a name stands for. */
  ghost function Lookup(v: Volume, name: CString): Option<File> {
    if Exists(v, Key(name)) then v.slots[SlotOf(v.slots, Key(name), 0)] else None
  }

  /** The file has the size asked for in sectors of 128 bytes, none of them in use, the header in the lowest. */
  ghost predicate IsNew(v: Volume, f: File, name: CString, size: nat) {
    && f.key == Key(name) && f.size == size
    && size <= 128 * |f.data| < size + 128 && NoDuplicates(f.data)
    && f.sector !in v.used && (forall s: nat :: s < f.sector ==> s in v.used)
    && f.sector !in f.data && (forall s :: s in f.data ==> 0 <= s < 1024 && s !in v.used)
  }

  /** What Create makes: one new file, in a slot that was free, and its sectors in use; or nothing. */
  lemma CreateMakesFile(v: Volume, name: CString, size: nat)
    requires Inv(v) && size <= MAX_FILE_SIZE
    ensures var v' := Create(v, Key(name), size);
      if Exists(v, Key(name)) || !Fits(v, size) then v' == v
      else
        var i, file := FreeSlot(v.slots, 0), Lookup(v', name);
        && file.Some? && IsNew(v, file.value, name, size)
        && v.slots[i].None? && v'.slots == v.slots[i := file]
        && (forall s :: s in v'.used <==> s in v.used || s == file.value.sector || s in file.value.data)
  {
    if !Exists(v, Key(name)) && Fits(v, size) {
      var f := NewFile(v, Key(name), size);
      NewFileIsFree(v, Key(name), size);
      CreatedIsFound(v, f, name);
      SystemIsUsed(v);
      SomeClear(v.used);
      assert IsLowestClear(v.used, f.sector);
      forall s | s in f.data ensures 0 <= s < 1024 && s !in v.used {
        assert s in Owned(f);
      }
      assert f.sector in Owned(f);
    }
  }

  lemma CreatedIsFound(v: Volume, f: File, name: CString)
    requires !Exists(v, Key(name)) && f.key == Key(name) && FreeSlot(v.slots, 0) < |v.slots|
    ensures Lookup(Created(v, f), name) == Some(f)
  {
    var p, v' := FreeSlot(v.slots, 0), Created(v, f);
    assert HasKey(v'.slots[p], Key(name));
    forall i | 0 <= i < p ensures !HasKey(v'.slots[i], Key(name)) {
    }
    assert SlotOf(v'.slots, Key(name), 0) == p;
  }

  /** What Remove takes: the file of the name, and no more. */
  lemma RemoveTakesFile(v: Volume, name: CString)
    requires Inv(v)
    ensures var v', file := Remove(v, Key(name)), Lookup(v, name);
      if file.None? then v' == v
      else
        var i := SlotOf(v.slots, Key(name), 0);
        && Lookup(v', name) == None && v.slots[i] == file && v'.slots == v.slots[i := None]
        && (forall s :: s in v'.used <==> s in v.used && s != file.value.sector && s !in file.value.data)
  {
    if Exists(v, Key(name)) {
      var i := SlotOf(v.slots, Key(name), 0);
      var v' := Remove(v, Key(name));
      forall j | 0 <= j < |v'.slots| ensures !HasKey(v'.slots[j], Key(name)) {
        assert j != i && v.slots[j].Some? ==> v.slots[j].value.key != v.slots[i].value.key;
      }
    }
  }

  /** Create and Remove concern one name: every name of another key stands for what it did. */
  lemma OthersKeepTheirFiles(v: Volume, c: Command, name: CString)
    requires Key(name) != Key(c.name)
    ensures Lookup(Apply(v, c), name) == Lookup(v, name)
  {
    var key := Key(c.name);
    match c
    case CreateFile(_, size) =>
      if !Exists(v, key) && Fits(v, size) {
        UpdateOther(v.slots, FreeSlot(v.slots, 0), Some(NewFile(v, key, size)), Key(name));
      }
    case RemoveFile(_) =>
      if Exists(v, key) {
        UpdateOther(v.slots, SlotOf(v.slots, key, 0), None, Key(name));
      }
  }

  lemma UpdateOther(slots: Slots, p: nat, slot: Option<File>, key: seq<Byte>)
    requires p < |slots| && !HasKey(slots[p], key) && !HasKey(slot, key)
    ensures var i := SlotOf(slots, key, 0);
      SlotOf(slots[p := slot], key, 0) == i && (i < |slots| ==> slots[p := slot][i] == slots[i])
  {
    var i, i' := SlotOf(slots, key, 0), SlotOf(slots[p := slot], key, 0);
    assert i < |slots| ==> HasKey(slots[p := slot][i], key);
    assert i' < |slots| ==> HasKey(slots[i'], key);
  }
}
