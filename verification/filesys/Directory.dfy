/**
 The directory (filesys/directory.cc): ten entries of 20 bytes, each with a name of at most nine
 characters and the sector of the file's header.
 */
module Directories {
  import opened Words
  import opened Storage
  import opened FileHeaders
  import opened OpenFiles

  const FILE_NAME_MAX_LEN: nat := 9
  const NUM_DIR_ENTRIES: nat := 10
  const ENTRY_SIZE: nat := 20

  type EntryName = s: seq<Byte> | |s| == 10 witness seq(10, _ => 0)

  datatype DirectoryEntry = DirectoryEntry(inUse: bool, sector: Word, name: EntryName)

  // ---------------------------------------------------------------- names

  /** A C string without its terminator. */
  type CString = s: seq<Byte> | 0 !in s

  function CharAt(s: CString, i: nat): Byte {
    if i < |s| then s[i] else 0
  }

  /** strncmp(stored, name, FILE_NAME_MAX_LEN) == 0, from character i on. */
  predicate SameFrom(stored: EntryName, name: CString, i: nat)
    requires i <= FILE_NAME_MAX_LEN
    decreases FILE_NAME_MAX_LEN - i
  {
    if i == FILE_NAME_MAX_LEN then true
    else if stored[i] != CharAt(name, i) then false
    else if stored[i] == 0 then true
    else SameFrom(stored, name, i + 1)
  }

  /** strncpy(stored, name, FILE_NAME_MAX_LEN): the tenth character stays as it is. */
  function CopiedName(stored: EntryName, name: CString): EntryName {
    Key(name) + [stored[9]]
  }

  /** What of a name counts: its first nine characters, padded with zeros. */
  function Key(name: CString): (key: seq<Byte>)
    ensures |key| == FILE_NAME_MAX_LEN
  {
    seq(FILE_NAME_MAX_LEN, i requires 0 <= i < FILE_NAME_MAX_LEN => CharAt(name, i))
  }

  /** Only zeros after the first zero. */
  ghost predicate ZeroPadded(key: seq<Byte>) {
    forall i, j :: 0 <= i < j < |key| && key[i] == 0 ==> key[j] == 0
  }

  lemma KeyIsZeroPadded(name: CString)
    ensures ZeroPadded(Key(name))
  {
    NoZeros(name);
  }

  lemma NoZeros(s: CString)
    ensures forall i :: 0 <= i < |s| ==> s[i] != 0
  {
    forall i | 0 <= i < |s| ensures s[i] != 0 {
      assert s[i] in s;
    }
  }

  /** Two names are the same file name exactly if they agree in the first nine characters. */
  lemma NamesCollideIff(a: CString, b: CString)
    ensures Key(a) == Key(b) <==> Prefix(a) == Prefix(b)
  {
    if Key(a) == Key(b) {
      SamePrefixLength(a, b);
      SamePrefixLength(b, a);
      forall i | 0 <= i < |Prefix(a)| ensures Prefix(a)[i] == Prefix(b)[i] {
        assert Key(a)[i] == Key(b)[i];
      }
    }
    if Prefix(a) == Prefix(b) {
      forall i | 0 <= i < FILE_NAME_MAX_LEN ensures Key(a)[i] == Key(b)[i] {
        KeyOfPrefix(a, i);
        KeyOfPrefix(b, i);
      }
    }
  }

  lemma KeyOfPrefix(s: CString, i: nat)
    requires i < FILE_NAME_MAX_LEN
    ensures Key(s)[i] == if i < |Prefix(s)| then Prefix(s)[i] else 0
  {
  }

  function Prefix(s: CString): seq<Byte> {
    if |s| <= FILE_NAME_MAX_LEN then s else s[..FILE_NAME_MAX_LEN]
  }

  lemma SamePrefixLength(a: CString, b: CString)
    requires Key(a) == Key(b)
    ensures |Prefix(a)| <= |Prefix(b)|
  {
    NoZeros(a);
    assert |b| < FILE_NAME_MAX_LEN ==> Key(b)[|b|] == 0;
    assert |b| < FILE_NAME_MAX_LEN ==> CharAt(a, |b|) == Key(a)[|b|];
  }

  /** Comparing with strncmp finds exactly the stored name that strncpy of the same key left. */
  lemma {:induction false} ComparesKeys(stored: EntryName, name: CString, i: nat)
    requires ZeroPadded(stored[..FILE_NAME_MAX_LEN]) && i <= FILE_NAME_MAX_LEN
    ensures SameFrom(stored, name, i) <==> stored[i..FILE_NAME_MAX_LEN] == Key(name)[i..]
    decreases FILE_NAME_MAX_LEN - i
  {
    if i < FILE_NAME_MAX_LEN {
      var s, k := stored[i..FILE_NAME_MAX_LEN], Key(name)[i..];
      assert s[0] == stored[i] && k[0] == CharAt(name, i);
      if stored[i] == CharAt(name, i) == 0 {
        KeyIsZeroPadded(name);
        forall j | i <= j < FILE_NAME_MAX_LEN ensures stored[j] == 0 == Key(name)[j] {
          assert stored[..FILE_NAME_MAX_LEN][i] == 0 && Key(name)[i] == 0;
          assert j > i ==> stored[..FILE_NAME_MAX_LEN][j] == 0;
        }
        assert s == k;
      } else {
        ComparesKeys(stored, name, i + 1);
        assert s == [stored[i]] + stored[i + 1..FILE_NAME_MAX_LEN];
        assert k == [CharAt(name, i)] + Key(name)[i + 1..];
      }
    }
  }

  // ---------------------------------------------------------------- the table as bytes of a file

  function EntryBytes(e: DirectoryEntry): (bytes: seq<Byte>)
    ensures |bytes| == ENTRY_SIZE
  {
    [if e.inUse then 1 else 0, 0, 0, 0] + IntBytes(e.sector) + e.name + [0, 0]
  }

  function EntryAt(bytes: seq<Byte>, at: nat): DirectoryEntry
    requires at + ENTRY_SIZE <= |bytes|
  {
    DirectoryEntry(bytes[at] != 0, IntAt(bytes, at + 4), bytes[at + 8..at + 18])
  }

  function EncodeTable(table: seq<DirectoryEntry>): (bytes: seq<Byte>)
    ensures |bytes| == ENTRY_SIZE * |table|
  {
    if table == [] then [] else EntryBytes(table[0]) + EncodeTable(table[1..])
  }

  function DecodeTable(bytes: seq<Byte>): (table: seq<DirectoryEntry>)
    ensures |table| == |bytes| / ENTRY_SIZE
  {
    if |bytes| < ENTRY_SIZE then [] else [EntryAt(bytes, 0)] + DecodeTable(bytes[ENTRY_SIZE..])
  }

  lemma EntryRoundTrip(bytes: seq<Byte>, e: DirectoryEntry)
    requires ENTRY_SIZE <= |bytes| && bytes[0..ENTRY_SIZE] == EntryBytes(e)
    ensures EntryAt(bytes, 0) == e
  {
    var part := bytes[0..ENTRY_SIZE];
    assert bytes[0] == part[0];
    assert bytes[4..4 + 4] == part[4..8] == IntBytes(e.sector);
    IntRoundTrip(bytes, 4, e.sector);
    assert bytes[8..18] == part[8..18] == e.name;
  }

  lemma {:induction false} TableRoundTrip(table: seq<DirectoryEntry>)
    ensures DecodeTable(EncodeTable(table)) == table
  {
    if table != [] {
      var bytes := EncodeTable(table);
      assert bytes[0..ENTRY_SIZE] == EntryBytes(table[0]) && bytes[ENTRY_SIZE..] == EncodeTable(table[1..]);
      EntryRoundTrip(bytes, table[0]);
      TableRoundTrip(table[1..]);
    }
  }

  lemma {:induction false} DecodedEntry(bytes: seq<Byte>, i: nat)
    requires i < |bytes| / ENTRY_SIZE
    ensures DecodeTable(bytes)[i] == EntryAt(bytes, ENTRY_SIZE * i)
  {
    if i > 0 {
      DecodedEntry(bytes[ENTRY_SIZE..], i - 1);
      EntryShifted(bytes, ENTRY_SIZE * i);
    }
  }

  lemma EntryShifted(bytes: seq<Byte>, at: nat)
    requires ENTRY_SIZE <= at && at + ENTRY_SIZE <= |bytes|
    ensures EntryAt(bytes[ENTRY_SIZE..], at - ENTRY_SIZE) == EntryAt(bytes, at)
  {
    var rest, b := bytes[ENTRY_SIZE..], at - ENTRY_SIZE;
    assert rest[b + 8..b + 18] == bytes[at + 8..at + 18];
  }

  lemma {:induction false} EncodedEntry(table: seq<DirectoryEntry>, i: nat)
    requires i < |table|
    ensures EncodeTable(table)[ENTRY_SIZE * i..ENTRY_SIZE * i + ENTRY_SIZE] == EntryBytes(table[i])
  {
    if i > 0 {
      EncodedEntry(table[1..], i - 1);
      var rest := EncodeTable(table[1..]);
      assert EncodeTable(table)[ENTRY_SIZE * i..ENTRY_SIZE * i + ENTRY_SIZE] == rest[ENTRY_SIZE * (i - 1)..ENTRY_SIZE * (i - 1) + ENTRY_SIZE];
    }
  }

  /** In the directory file entry i takes 20 bytes: a flag, the sector as an int, and ten bytes of name. */
  lemma TableLayout(table: seq<DirectoryEntry>, i: nat)
    requires i < |table|
    ensures var bytes, at := EncodeTable(table), 20 * i;
      && at + 20 <= |bytes|
      && (bytes[at] != 0 <==> table[i].inUse)
      && IntAt(bytes, at + 4) == table[i].sector
      && bytes[at + 8..at + 18] == table[i].name
  {
    var bytes := EncodeTable(table);
    TableRoundTrip(table);
    DecodedEntry(bytes, i);
    assert table[i] == EntryAt(bytes, ENTRY_SIZE * i);
  }

  // ---------------------------------------------------------------- the operations on a table

  ghost predicate TableOk(table: seq<DirectoryEntry>) {
    forall i :: 0 <= i < |table| && table[i].inUse ==> ZeroPadded(table[i].name[..FILE_NAME_MAX_LEN])
  }

  ghost predicate Has(e: DirectoryEntry, key: seq<Byte>) {
    e.inUse && e.name[..FILE_NAME_MAX_LEN] == key
  }

  /** The first entry with the name; |table| if there is none. */
  ghost function IndexOf(table: seq<DirectoryEntry>, key: seq<Byte>, from: nat): (i: nat)
    requires from <= |table|
    ensures from <= i <= |table| && (i < |table| ==> Has(table[i], key))
    ensures forall j :: from <= j < i ==> !Has(table[j], key)
    decreases |table| - from
  {
    if from == |table| || Has(table[from], key) then from else IndexOf(table, key, from + 1)
  }

  /** The first entry not in use; |table| if there is none. */
  ghost function Unused(table: seq<DirectoryEntry>, from: nat): (i: nat)
    requires from <= |table|
    ensures from <= i <= |table| && (i < |table| ==> !table[i].inUse)
    ensures forall j :: from <= j < i ==> table[j].inUse
    decreases |table| - from
  {
    if from == |table| || !table[from].inUse then from else Unused(table, from + 1)
  }

  class Directory {
    const table: array<DirectoryEntry>

    ghost predicate Valid()
      reads table
    {
      table.Length == NUM_DIR_ENTRIES && TableOk(table[..])
    }

    /** Sectors and names of the entries are whatever was in memory. */
    constructor (size: nat)
      requires size == NUM_DIR_ENTRIES
      ensures Valid() && fresh(table)
      ensures forall i :: 0 <= i < table.Length ==> !table[i].inUse
    {
      table := new DirectoryEntry[size];
      new;
      for i := 0 to size
        invariant forall k :: 0 <= k < i ==> !table[k].inUse
      {
        table[i] := table[i].(inUse := false);
      }
    }

    method FindIndex(name: CString) returns (index: int)
      requires Valid()
      ensures var i := IndexOf(table[..], Key(name), 0); index == if i == NUM_DIR_ENTRIES then -1 else i
    {
      for i := 0 to table.Length
        invariant forall j :: 0 <= j < i ==> !Has(table[j], Key(name))
      {
        if table[i].inUse {
          assert table[..][i] == table[i];
          ComparesKeys(table[i].name, name, 0);
          if SameFrom(table[i].name, name, 0) {
            return i;
          }
        }
      }
      return -1;
    }

    method Find(name: CString) returns (sector: int)
      requires Valid()
      ensures var i := IndexOf(table[..], Key(name), 0); sector == if i == NUM_DIR_ENTRIES then -1 else table[i].sector
    {
      var i := FindIndex(name);
      if i != -1 {
        return table[i].sector;
      }
      return -1;
    }

    method Add(name: CString, newSector: Word) returns (ok: bool)
      requires Valid()
      modifies table
      ensures Valid()
      ensures ok <==> IndexOf(old(table[..]), Key(name), 0) == NUM_DIR_ENTRIES && Unused(old(table[..]), 0) < NUM_DIR_ENTRIES
      ensures !ok ==> table[..] == old(table[..])
      ensures ok ==>
                var i := Unused(old(table[..]), 0);
                table[..] == old(table[..])[i := DirectoryEntry(true, newSector, CopiedName(old(table[i].name), name))]
    {
      var found := FindIndex(name);
      if found != -1 {
        return false;
      }
      ghost var before := table[..];
      for i := 0 to table.Length
        invariant table[..] == before
        invariant forall j :: 0 <= j < i ==> table[j].inUse
      {
        if !table[i].inUse {
          KeyIsZeroPadded(name);
          var e := DirectoryEntry(true, newSector, CopiedName(table[i].name, name));
          assert e.name[..FILE_NAME_MAX_LEN] == Key(name);
          table[i] := e;
          return true;
        }
      }
      return false;
    }

    method Remove(name: CString) returns (ok: bool)
      requires Valid()
      modifies table
      ensures Valid()
      ensures ok <==> IndexOf(old(table[..]), Key(name), 0) < NUM_DIR_ENTRIES
      ensures !ok ==> table[..] == old(table[..])
      ensures ok ==>
                var i := IndexOf(old(table[..]), Key(name), 0);
                table[..] == old(table[..])[i := old(table[..])[i].(inUse := false)]
    {
      var i := FindIndex(name);
      if i == -1 {
        return false;
      }
      table[i] := table[i].(inUse := false);
      return true;
    }

    method FetchFrom(file: OpenFile)
      requires table.Length == NUM_DIR_ENTRIES && file.Valid() && file.hdr.numBytes == ENTRY_SIZE * NUM_DIR_ENTRIES
      modifies table
      ensures table[..] == DecodeTable(file.Bytes())
    {
      ghost var c := file.Bytes();
      var bytes := new Byte[ENTRY_SIZE * NUM_DIR_ENTRIES];
      var _ := file.ReadAt(bytes, 0, ENTRY_SIZE * NUM_DIR_ENTRIES, 0);
      ghost var got := bytes[..];
      assert got == c;
      LoadEntries(bytes);
    }

    method LoadEntries(bytes: array<Byte>)
      requires bytes.Length == ENTRY_SIZE * table.Length
      modifies table
      ensures table[..] == DecodeTable(bytes[..])
    {
      ghost var decoded := DecodeTable(bytes[..]);
      for i := 0 to table.Length
        invariant forall k :: 0 <= k < i ==> table[k] == decoded[k]
      {
        DecodedEntry(bytes[..], i);
        table[i] := EntryAt(bytes[..], ENTRY_SIZE * i);
      }
    }

    method WriteBack(file: OpenFile)
      requires table.Length == NUM_DIR_ENTRIES && file.Valid() && file.hdr.numBytes == ENTRY_SIZE * NUM_DIR_ENTRIES
      modifies file.disk
      ensures DecodeTable(file.Bytes()) == table[..]
      ensures SameBut(DataOf(file.hdr.View()), old(file.disk.sectors), file.disk.sectors)
    {
      ghost var entries := table[..];
      var bytes := Encoded();
      ghost var out := bytes[..ENTRY_SIZE * NUM_DIR_ENTRIES];
      assert out == EncodeTable(entries);
      WholeOverwrite(file.Bytes(), out);
      TableRoundTrip(entries);
      var _ := file.WriteAt(bytes, ENTRY_SIZE * NUM_DIR_ENTRIES, 0);
    }

    /** The table as it lies in memory. */
    method Encoded() returns (bytes: array<Byte>)
      ensures fresh(bytes) && bytes[..] == EncodeTable(table[..])
    {
      bytes := new Byte[ENTRY_SIZE * table.Length];
      ghost var encoded := EncodeTable(table[..]);
      for i := 0 to table.Length
        invariant bytes[..ENTRY_SIZE * i] == encoded[..ENTRY_SIZE * i]
      {
        EncodedEntry(table[..], i);
        StoreEntry(table[i], bytes, ENTRY_SIZE * i);
        assert encoded[..ENTRY_SIZE * (i + 1)] == encoded[..ENTRY_SIZE * i] + encoded[ENTRY_SIZE * i..ENTRY_SIZE * i + ENTRY_SIZE];
        assert bytes[..ENTRY_SIZE * (i + 1)] == bytes[..ENTRY_SIZE * i] + bytes[ENTRY_SIZE * i..ENTRY_SIZE * i + ENTRY_SIZE];
      }
    }

    method StoreEntry(e: DirectoryEntry, bytes: array<Byte>, at: nat)
      requires at + ENTRY_SIZE <= bytes.Length
      modifies bytes
      ensures bytes[at..at + ENTRY_SIZE] == EntryBytes(e) && bytes[..at] == old(bytes[..at])
    {
      var part := EntryBytes(e);
      for k := 0 to ENTRY_SIZE
        invariant bytes[..at] == old(bytes[..at])
        invariant forall j :: 0 <= j < k ==> bytes[at + j] == part[j]
      {
        bytes[at + k] := part[k];
      }
      assert bytes[at..at + ENTRY_SIZE] == part;
    }
  }
}
