/**
 File headers (filesys/filehdr.cc): the length of a file and the sectors that hold its data, kept in
 one sector as 32 ints.
 */
module FileHeaders {
  import opened Sequences
  import opened Words
  import opened BitMaps
  import opened Storage

  const NUM_DIRECT: nat := 30
  const MAX_FILE_SIZE: nat := 3840

  datatype Header = Header(numBytes: Word, numSectors: Word, dataSectors: seq<Word>)

  // ---------------------------------------------------------------- the header in its sector

  function Encode(h: Header): Sector
    requires |h.dataSectors| == NUM_DIRECT
  {
    EncodeInts([h.numBytes, h.numSectors] + h.dataSectors)
  }

  function Decode(s: Sector): (h: Header)
    ensures |h.dataSectors| == NUM_DIRECT
  {
    var ints := DecodeInts(s);
    Header(ints[0], ints[1], ints[2..])
  }

  lemma HeaderRoundTrip(h: Header)
    requires |h.dataSectors| == NUM_DIRECT
    ensures Decode(Encode(h)) == h
  {
    IntsRoundTrip([h.numBytes, h.numSectors] + h.dataSectors);
  }

  /** In its sector a header is 32 ints: the length, the number of sectors, and the sectors. */
  lemma HeaderLayout(h: Header, k: nat)
    requires |h.dataSectors| == NUM_DIRECT && k < 30
    ensures IntAt(Encode(h), 0) == h.numBytes && IntAt(Encode(h), 4) == h.numSectors
    ensures IntAt(Encode(h), 8 + 4 * k) == h.dataSectors[k]
  {
    HeaderRoundTrip(h);
    DecodedInt(Encode(h), 0);
    DecodedInt(Encode(h), 1);
    DecodedInt(Encode(h), 2 + k);
  }

  // ---------------------------------------------------------------- files as flat bytes

  ghost function ToSet(s: seq<int>): set<int> {
    set x | x in s
  }

  ghost predicate HeaderOk(h: Header) {
    && |h.dataSectors| == NUM_DIRECT
    && 0 <= h.numBytes <= MAX_FILE_SIZE && h.numSectors == DivRoundUp(h.numBytes, SECTOR_SIZE)
    && (forall i :: 0 <= i < h.numSectors ==> 0 <= h.dataSectors[i] < NUM_SECTORS)
    && NoDuplicates(h.dataSectors[..h.numSectors])
  }

  lemma EnoughSectors(h: Header, j: nat)
    requires HeaderOk(h) && j < h.numBytes
    ensures j / SECTOR_SIZE < h.numSectors <= NUM_DIRECT
  {
  }

  /** The sectors of the file's data. */
  ghost function DataOf(h: Header): seq<int>
    requires HeaderOk(h)
  {
    h.dataSectors[..h.numSectors]
  }

  /** The bytes of the file: byte j is byte j % SECTOR_SIZE of the sector ByteToSector finds for it. */
  ghost function Contents(d: Sectors, h: Header): (c: seq<Byte>)
    requires HeaderOk(h)
    ensures |c| == h.numBytes
  {
    seq(h.numBytes, j requires 0 <= j < h.numBytes => ByteAt(d, h, j))
  }

  ghost function ByteAt(d: Sectors, h: Header, j: nat): Byte
    requires HeaderOk(h) && j < h.numBytes
  {
    EnoughSectors(h, j);
    d[h.dataSectors[j / SECTOR_SIZE]][j % SECTOR_SIZE]
  }

  /** Byte j of a file is in the sector its header names at j / 128. */
  lemma ContentsAt(d: Sectors, h: Header, j: nat)
    requires HeaderOk(h) && j < h.numBytes
    ensures j / 128 < 30 && 0 <= h.dataSectors[j / 128] < 1024
    ensures Contents(d, h)[j] == d[h.dataSectors[j / 128]][j % 128]
  {
    EnoughSectors(h, j);
    assert Contents(d, h)[j] == ByteAt(d, h, j);
  }

  /** Sectors that are not the file's do not matter to its contents. */
  lemma ContentsDependOnData(d: Sectors, d': Sectors, h: Header)
    requires HeaderOk(h) && forall s :: 0 <= s < NUM_SECTORS && s in DataOf(h) ==> d'[s] == d[s]
    ensures Contents(d', h) == Contents(d, h)
  {
    forall j | 0 <= j < h.numBytes ensures ByteAt(d', h, j) == ByteAt(d, h, j) {
      EnoughSectors(h, j);
      assert DataOf(h)[j / SECTOR_SIZE] in DataOf(h);
    }
  }

  // ---------------------------------------------------------------- allocation

  ghost predicate IsLowestClear(used: set<int>, r: nat) {
    r !in used && forall j: nat :: j < r ==> j in used
  }

  lemma {:induction false} LowestExists(used: set<int>, s: nat)
    requires s !in used
    ensures exists r: nat :: r <= s && IsLowestClear(used, r)
  {
    if j: nat :| j < s && j !in used {
      LowestExists(used, j);
    } else {
      assert IsLowestClear(used, s);
    }
  }

  /** The lowest sector that is clear, or NUM_SECTORS. */
  ghost function LowestClear(used: set<int>): (r: nat)
    ensures r < NUM_SECTORS ==> IsLowestClear(used, r)
    ensures r >= NUM_SECTORS ==> Below(NUM_SECTORS) <= used && r == NUM_SECTORS
  {
    if s: nat :| s < NUM_SECTORS && s !in used then
      LowestExists(used, s);
      var r: nat :| r <= s && IsLowestClear(used, r);
      r
    else NUM_SECTORS
  }

  /** The n lowest clear bits, taken one after the other. */
  ghost function LowestClears(used: set<int>, n: nat): (s: seq<int>)
    ensures |s| == n
  {
    if n == 0 then []
    else
      var s := LowestClears(used, n - 1);
      s + [LowestClear(used + ToSet(s))]
  }

  /** Different sectors, none of them in use. */
  ghost predicate Free(used: set<int>, s: seq<int>) {
    NoDuplicates(s) && ToSet(s) !! used && ToSet(s) <= Below(NUM_SECTORS) && |used + ToSet(s)| == |used| + |s|
  }

  /** If there are n clear bits, the n lowest are different sectors that were clear. */
  lemma {:induction false} ClearsAreFree(used: set<int>, n: nat)
    requires used <= Below(NUM_SECTORS) && |used| + n <= NUM_SECTORS
    ensures Free(used, LowestClears(used, n))
  {
    if n > 0 {
      var s := LowestClears(used, n - 1);
      assert LowestClears(used, n) == s + [LowestClear(used + ToSet(s))];
      ClearsAreFree(used, n - 1);
      OneMoreClear(used, s);
    } else {
      NoneIsFree(used);
    }
  }

  lemma NoneIsFree(used: set<int>)
    ensures Free(used, [])
  {
    assert used + ToSet([]) == used;
  }

  lemma OneMoreClear(used: set<int>, s: seq<int>)
    requires used <= Below(NUM_SECTORS) && |used| + |s| < NUM_SECTORS && Free(used, s)
    ensures Free(used, s + [LowestClear(used + ToSet(s))])
  {
    var x := LowestClear(used + ToSet(s));
    SomeClear(used + ToSet(s));
    ToSetAppend(s, x);
    assert used + ToSet(s + [x]) == (used + ToSet(s)) + {x};
    forall i | 0 <= i < |s| ensures s[i] != x {
      assert s[i] in ToSet(s);
    }
  }

  /** Where Allocate's loop is after i rounds: `data` are the lowest i clear sectors and now marked too. */
  ghost predicate Taken(used: set<int>, marked: set<int>, data: seq<int>, i: nat) {
    data == LowestClears(used, i) && marked == used + ToSet(data)
  }

  lemma TakeOneMore(used: set<int>, marked: set<int>, data: seq<int>, i: nat)
    requires Taken(used, marked, data, i) && used <= Below(NUM_SECTORS) && |used| + i < NUM_SECTORS
    ensures marked <= Below(NUM_SECTORS) && |marked| < NUM_SECTORS
    ensures Taken(used, marked + {LowestClear(marked)}, data + [LowestClear(marked)], i + 1)
  {
    ClearsAreFree(used, i);
    ToSetAppend(data, LowestClear(marked));
  }

  lemma ToSetAppend(s: seq<int>, x: int)
    ensures ToSet(s + [x]) == ToSet(s) + {x}
  {
  }

  lemma SomeClear(used: set<int>)
    requires used <= Below(NUM_SECTORS) && |used| < NUM_SECTORS
    ensures LowestClear(used) < NUM_SECTORS
  {
    if LowestClear(used) == NUM_SECTORS {
      assert used == Below(NUM_SECTORS);
      BelowSize(NUM_SECTORS);
    }
  }

  class FileHeader {
    var numBytes: Word
    var numSectors: Word
    const dataSectors: array<Word>

    ghost predicate Valid() {
      dataSectors.Length == NUM_DIRECT
    }

    ghost function View(): Header
      reads this, dataSectors
    {
      Header(numBytes, numSectors, dataSectors[..])
    }

    /** A header object starts with whatever was in memory. */
    constructor ()
      ensures Valid() && fresh(dataSectors)
    {
      dataSectors := new Word[NUM_DIRECT];
    }

    /** freeMap->Find() while a sector is free. */
    method TakeSector(freeMap: BitMap) returns (sector: nat)
      requires freeMap.Valid() && freeMap.numBits == NUM_SECTORS && |freeMap.Marked()| < NUM_SECTORS
      modifies freeMap.words
      ensures sector < NUM_SECTORS && sector == LowestClear(old(freeMap.Marked()))
      ensures freeMap.Marked() == old(freeMap.Marked()) + {sector}
    {
      ghost var used: set<int> := freeMap.Marked();
      SomeClear(used);
      var found := freeMap.Find();
      sector := found;
    }

    /** Takes the lowest free sectors; if there are too few, the map stays as it is. */
    method Allocate(freeMap: BitMap, fileSize: nat) returns (ok: bool)
      requires Valid() && freeMap.Valid() && freeMap.numBits == NUM_SECTORS && freeMap.words as object != dataSectors
      requires fileSize <= MAX_FILE_SIZE
      modifies this, dataSectors, freeMap.words
      ensures numBytes == fileSize && numSectors == DivRoundUp(fileSize, SECTOR_SIZE) <= NUM_DIRECT
      ensures ok <==> numSectors + |old(freeMap.Marked())| <= NUM_SECTORS
      ensures !ok ==> freeMap.Marked() == old(freeMap.Marked())
      ensures ok ==> dataSectors[..numSectors] == LowestClears(old(freeMap.Marked()), numSectors)
      ensures ok ==> freeMap.Marked() == old(freeMap.Marked()) + ToSet(dataSectors[..numSectors])
    {
      numBytes := fileSize;
      var n := DivRoundUp(fileSize, SECTOR_SIZE);
      numSectors := n;
      var clear := freeMap.NumClear();
      if clear < n {
        return false;
      }
      FillSectors(freeMap, n);
      return true;
    }

    method FillSectors(freeMap: BitMap, n: nat)
      requires Valid() && freeMap.Valid() && freeMap.numBits == NUM_SECTORS && freeMap.words as object != dataSectors
      requires n <= NUM_DIRECT && n + |freeMap.Marked()| <= NUM_SECTORS
      modifies dataSectors, freeMap.words
      ensures Taken(old(freeMap.Marked()), freeMap.Marked(), dataSectors[..n], n)
    {
      ghost var used: set<int> := freeMap.Marked();
      assert used == used + ToSet([]);
      for i := 0 to n
        invariant Taken(used, freeMap.Marked(), dataSectors[..i], i)
      {
        FillSector(freeMap, i, used);
      }
    }

    /** One round of Allocate's loop. */
    method FillSector(freeMap: BitMap, i: nat, ghost used: set<int>)
      requires Valid() && freeMap.Valid() && freeMap.numBits == NUM_SECTORS && freeMap.words as object != dataSectors
      requires i < NUM_DIRECT && used <= Below(NUM_SECTORS) && |used| + i < NUM_SECTORS
      requires Taken(used, freeMap.Marked(), dataSectors[..i], i)
      modifies dataSectors, freeMap.words
      ensures Taken(used, freeMap.Marked(), dataSectors[..i + 1], i + 1)
    {
      ghost var taken := dataSectors[..i];
      TakeOneMore(used, freeMap.Marked(), taken, i);
      var sector := TakeSector(freeMap);
      dataSectors[i] := sector;
      assert dataSectors[..i + 1] == taken + [sector];
    }

    /** Clears the file's sectors.  The ASSERT that each is marked is the precondition on the map. */
    method Deallocate(freeMap: BitMap)
      requires Valid() && freeMap.Valid() && freeMap.numBits == NUM_SECTORS && freeMap.words as object != dataSectors
      requires HeaderOk(View()) && ToSet(DataOf(View())) <= freeMap.Marked()
      modifies freeMap.words
      ensures freeMap.Marked() == old(freeMap.Marked()) - ToSet(DataOf(View()))
    {
      ghost var used: set<int> := freeMap.Marked();
      ghost var data := DataOf(View());
      for i := 0 to numSectors
        invariant View() == old(View())
        invariant freeMap.Marked() == used - ToSet(data[..i])
      {
        assert dataSectors[i] == data[i] && data[i] in ToSet(data);
        assert data[i] !in data[..i];
        assert freeMap.Test(dataSectors[i]);
        freeMap.Clear(dataSectors[i]);
        ToSetAppend(data[..i], data[i]);
        assert data[..i + 1] == data[..i] + [data[i]];
      }
      assert data[..numSectors] == data;
    }

    method FetchFrom(disk: SectorStore, sector: nat)
      requires Valid() && sector < NUM_SECTORS
      modifies this, dataSectors
      ensures View() == Decode(disk.sectors[sector])
    {
      var s := disk.sectors[sector];
      DecodedInt(s, 0);
      DecodedInt(s, 1);
      numBytes, numSectors := IntAt(s, 0), IntAt(s, 4);
      FetchData(s);
    }

    method FetchData(s: Sector)
      requires Valid()
      modifies dataSectors
      ensures dataSectors[..] == Decode(s).dataSectors
    {
      ghost var ints := DecodeInts(s);
      for i := 0 to NUM_DIRECT
        invariant forall k :: 0 <= k < i ==> dataSectors[k] == ints[k + 2]
      {
        DecodedInt(s, i + 2);
        dataSectors[i] := IntAt(s, 4 * (i + 2));
      }
      assert dataSectors[..] == ints[2..];
    }

    method WriteBack(disk: SectorStore, sector: nat)
      requires Valid() && sector < NUM_SECTORS
      modifies disk
      ensures disk.sectors == old(disk.sectors)[sector := Encode(View())]
    {
      disk.sectors := disk.sectors[sector := Encode(Header(numBytes, numSectors, dataSectors[..]))];
    }

    function ByteToSector(offset: nat): int
      requires Valid() && offset / SECTOR_SIZE < NUM_DIRECT
      reads this, dataSectors
    {
      dataSectors[offset / SECTOR_SIZE]
    }

    function FileLength(): int
      reads this
    {
      numBytes
    }
  }
}
