/**
 Open files (filesys/openfile.cc): reads and writes of any bytes of a file on a disk that transfers
 whole sectors only.
 */
module OpenFiles {
  import opened Words
  import opened Storage
  import opened FileHeaders

  /** The number of bytes a request transfers: none past the end of the file. */
  function Clip(length: int, numBytes: int, position: nat): (n: nat)
    ensures n > 0 ==> position + n <= length && n <= numBytes
  {
    if numBytes <= 0 || position >= length then 0
    else if position + numBytes > length then length - position
    else numBytes
  }

  /** A request transfers as much as there is of what was asked for. */
  lemma ClipIsLargest(length: int, numBytes: int, position: nat, m: nat)
    requires m <= numBytes && position + m <= length
    ensures m <= Clip(length, numBytes, position)
  {
  }

  /** `n` bytes of a flat file from `position` on. */
  function Slice(c: seq<Byte>, position: nat, n: nat): seq<Byte>
    requires n == 0 || position + n <= |c|
  {
    if n == 0 then [] else c[position..position + n]
  }

  /** A flat file after a write. */
  function Overwrite(c: seq<Byte>, position: nat, part: seq<Byte>): seq<Byte>
    requires part == [] || position + |part| <= |c|
  {
    if part == [] then c else Splice(c, position, part)
  }

  /** The sectors that hold bytes position to position + n - 1. */
  predicate Covers(first: nat, count: nat, position: nat, n: nat) {
    n > 0 && first == position / SECTOR_SIZE && first + count - 1 == (position + n - 1) / SECTOR_SIZE
  }

  lemma CoveringSectors(h: Header, first: nat, count: nat, position: nat, n: nat)
    requires HeaderOk(h) && position + n <= h.numBytes && Covers(first, count, position, n)
    ensures count >= 1 && first + count <= h.numSectors
    ensures 0 <= position - first * SECTOR_SIZE && position - first * SECTOR_SIZE + n <= count * SECTOR_SIZE
  {
    EnoughSectors(h, position + n - 1);
    assert position / SECTOR_SIZE <= (position + n - 1) / SECTOR_SIZE;
    RequestFits(first, count, position, n);
  }

  /** Nothing changed on the disk outside these sectors. */
  ghost predicate SameBut(data: seq<int>, d0: Sectors, d: Sectors) {
    forall s :: 0 <= s < NUM_SECTORS && s !in data ==> d[s] == d0[s]
  }

  // ---------------------------------------------------------------- sectors against flat bytes

  /** The buffer holds `count` sectors of the file from sector `first` on. */
  ghost predicate Loaded(buf: seq<Byte>, d: Sectors, h: Header, first: nat, count: nat)
    requires HeaderOk(h) && first + count <= h.numSectors && count * SECTOR_SIZE <= |buf|
  {
    forall k :: 0 <= k < count * SECTOR_SIZE ==> buf[k] == d[h.dataSectors[first + k / SECTOR_SIZE]][k % SECTOR_SIZE]
  }

  lemma LoadOneMore(buf: seq<Byte>, d: Sectors, h: Header, first: nat, count: nat)
    requires HeaderOk(h) && first + count < h.numSectors && (count + 1) * SECTOR_SIZE <= |buf|
    requires Loaded(buf, d, h, first, count)
    ensures Loaded(Splice(buf, count * SECTOR_SIZE, d[h.dataSectors[first + count]]), d, h, first, count + 1)
  {
    var buf' := Splice(buf, count * SECTOR_SIZE, d[h.dataSectors[first + count]]);
    forall k | 0 <= k < (count + 1) * SECTOR_SIZE ensures buf'[k] == d[h.dataSectors[first + k / SECTOR_SIZE]][k % SECTOR_SIZE] {
      if k >= count * SECTOR_SIZE {
        assert k / SECTOR_SIZE == count && k % SECTOR_SIZE == k - count * SECTOR_SIZE;
      }
    }
  }

  /** The wanted part of the sectors is the slice of the flat file. */
  lemma LoadedIsSlice(buf: seq<Byte>, d: Sectors, h: Header, first: nat, count: nat, position: nat, n: nat)
    requires HeaderOk(h) && first + count <= h.numSectors && count * SECTOR_SIZE <= |buf| && Loaded(buf, d, h, first, count)
    requires position + n <= h.numBytes && Covers(first, count, position, n)
    ensures 0 <= position - first * SECTOR_SIZE && position - first * SECTOR_SIZE + n <= |buf|
    ensures buf[position - first * SECTOR_SIZE..position - first * SECTOR_SIZE + n] == Slice(Contents(d, h), position, n)
  {
    var c := Contents(d, h);
    CoveringSectors(h, first, count, position, n);
    forall j | position <= j < position + n ensures buf[j - first * SECTOR_SIZE] == c[j] {
      SectorInRequest(first, count, position, n, j);
      LoadedByte(buf, d, h, first, count, j);
    }
    SameSlice(buf, position - first * SECTOR_SIZE, c, position, n);
  }

  lemma SectorInRequest(first: nat, count: nat, position: nat, n: nat, j: nat)
    requires Covers(first, count, position, n) && position <= j < position + n
    ensures first <= j / SECTOR_SIZE < first + count && first * SECTOR_SIZE <= j
  {
  }

  lemma SameSlice(a: seq<Byte>, i: nat, b: seq<Byte>, j: nat, n: nat)
    requires i + n <= |a| && j + n <= |b| && forall k :: j <= k < j + n ==> a[k - j + i] == b[k]
    ensures a[i..i + n] == b[j..j + n]
  {
    var x, y := a[i..i + n], b[j..j + n];
    forall k | 0 <= k < n ensures x[k] == y[k] {
      assert b[j + k] == a[(j + k) - j + i];
    }
  }

  lemma LoadedByte(buf: seq<Byte>, d: Sectors, h: Header, first: nat, count: nat, j: nat)
    requires HeaderOk(h) && first + count <= h.numSectors && count * SECTOR_SIZE <= |buf| && Loaded(buf, d, h, first, count)
    requires j < h.numBytes && first <= j / SECTOR_SIZE < first + count
    ensures 0 <= j - first * SECTOR_SIZE < |buf| && buf[j - first * SECTOR_SIZE] == Contents(d, h)[j]
  {
    var k := j - first * SECTOR_SIZE;
    assert first + k / SECTOR_SIZE == j / SECTOR_SIZE && k % SECTOR_SIZE == j % SECTOR_SIZE;
    assert Contents(d, h)[j] == ByteAt(d, h, j);
  }

  /** Sectors first to first + count - 1 of the file have been written from the buffer, and nothing else. */
  ghost predicate Stored(d0: Sectors, d: Sectors, buf: seq<Byte>, h: Header, first: nat, count: nat)
    requires HeaderOk(h) && first + count <= h.numSectors && count * SECTOR_SIZE <= |buf|
  {
    && (forall m :: 0 <= m < count ==> d[h.dataSectors[first + m]] == buf[m * SECTOR_SIZE..m * SECTOR_SIZE + SECTOR_SIZE])
    && (forall s :: 0 <= s < NUM_SECTORS && s !in h.dataSectors[first..first + count] ==> d[s] == d0[s])
  }

  lemma StoreOneMore(d0: Sectors, d: Sectors, buf: seq<Byte>, h: Header, first: nat, count: nat)
    requires HeaderOk(h) && first + count < h.numSectors && (count + 1) * SECTOR_SIZE <= |buf|
    requires Stored(d0, d, buf, h, first, count)
    ensures Stored(d0, d[h.dataSectors[first + count] := buf[count * SECTOR_SIZE..count * SECTOR_SIZE + SECTOR_SIZE]], buf, h, first, count + 1)
  {
    var x := h.dataSectors[first + count];
    assert h.dataSectors[first..first + count + 1] == h.dataSectors[first..first + count] + [x];
    OtherSectors(h, first, count, first + count);
  }

  /** What must be in the buffer before it is written back. */
  ghost predicate Ready(buf: seq<Byte>, c: seq<Byte>, first: nat, count: nat)
    requires count * SECTOR_SIZE <= |buf|
  {
    forall k :: 0 <= k < count * SECTOR_SIZE && first * SECTOR_SIZE + k < |c| ==> buf[k] == c[first * SECTOR_SIZE + k]
  }

  /** Slot m of a buffer that starts at sector `first` holds that sector's bytes of the file. */
  ghost predicate Holds(buf: seq<Byte>, c: seq<Byte>, first: nat, m: nat)
    requires (m + 1) * SECTOR_SIZE <= |buf|
  {
    forall k :: m * SECTOR_SIZE <= k < (m + 1) * SECTOR_SIZE && first * SECTOR_SIZE + k < |c| ==> buf[k] == c[first * SECTOR_SIZE + k]
  }

  /** The bytes ReadAt gives for a whole sector from `start` on. */
  function SectorPart(c: seq<Byte>, start: nat): (part: seq<Byte>)
    ensures |part| == if start >= |c| then 0 else if start + SECTOR_SIZE > |c| then |c| - start else SECTOR_SIZE
    ensures forall j :: 0 <= j < |part| ==> part[j] == c[start + j]
  {
    Slice(c, start, Clip(|c|, SECTOR_SIZE, start))
  }

  /** Reading a sector's worth of bytes into a slot fills that slot only. */
  lemma ReadFills(buf: seq<Byte>, c: seq<Byte>, first: nat, m: nat, other: nat)
    requires (m + 1) * SECTOR_SIZE <= |buf| && (other + 1) * SECTOR_SIZE <= |buf|
    ensures var part := SectorPart(c, (first + m) * SECTOR_SIZE);
      && Holds(Overwrite(buf, m * SECTOR_SIZE, part), c, first, m)
      && (other != m && Holds(buf, c, first, other) ==> Holds(Overwrite(buf, m * SECTOR_SIZE, part), c, first, other))
  {
    var at, start := m * SECTOR_SIZE, (first + m) * SECTOR_SIZE;
    var part := SectorPart(c, start);
    var buf' := Overwrite(buf, at, part);
    forall k | at <= k < at + SECTOR_SIZE && first * SECTOR_SIZE + k < |c| ensures buf'[k] == c[first * SECTOR_SIZE + k] {
      assert k - at < |part| && part[k - at] == c[start + (k - at)];
    }
    assert forall k :: 0 <= k < |buf| && !(at <= k < at + SECTOR_SIZE) ==> buf'[k] == buf[k];
  }

  /**
   With the first sector read in unless the write covers its beginning, and the last unless it covers
   its end, copying in the bytes to change makes the buffer ready.
   */
  lemma CopiedIsReady(buf: seq<Byte>, c: seq<Byte>, first: nat, count: nat, position: nat, part: seq<Byte>)
    requires count >= 1 && |buf| == count * SECTOR_SIZE && part != [] && position + |part| <= |c|
    requires Covers(first, count, position, |part|)
    requires position == first * SECTOR_SIZE || Holds(buf, c, first, 0)
    requires position + |part| == (first + count) * SECTOR_SIZE || Holds(buf, c, first, count - 1)
    ensures position - first * SECTOR_SIZE + |part| <= |buf|
    ensures Ready(Splice(buf, position - first * SECTOR_SIZE, part), Splice(c, position, part), first, count)
  {
    RequestFits(first, count, position, |part|);
    var lo := position - first * SECTOR_SIZE;
    var buf', c' := Splice(buf, lo, part), Splice(c, position, part);
    forall k | 0 <= k < count * SECTOR_SIZE && first * SECTOR_SIZE + k < |c| ensures buf'[k] == c'[first * SECTOR_SIZE + k] {
      CopiedByte(buf, c, first, count, position, part, k);
    }
  }

  /** The sectors a request covers hold all of it. */
  lemma RequestFits(first: nat, count: nat, position: nat, n: nat)
    requires count >= 1 && Covers(first, count, position, n)
    ensures 0 <= position - first * SECTOR_SIZE < SECTOR_SIZE
    ensures (count - 1) * SECTOR_SIZE < position - first * SECTOR_SIZE + n <= count * SECTOR_SIZE
  {
  }

  lemma CopiedByte(buf: seq<Byte>, c: seq<Byte>, first: nat, count: nat, position: nat, part: seq<Byte>, k: nat)
    requires count >= 1 && |buf| == count * SECTOR_SIZE && position + |part| <= |c|
    requires Covers(first, count, position, |part|)
    requires position == first * SECTOR_SIZE || Holds(buf, c, first, 0)
    requires position + |part| == (first + count) * SECTOR_SIZE || Holds(buf, c, first, count - 1)
    requires k < count * SECTOR_SIZE && first * SECTOR_SIZE + k < |c|
    ensures position - first * SECTOR_SIZE + |part| <= |buf|
    ensures Splice(buf, position - first * SECTOR_SIZE, part)[k] == Splice(c, position, part)[first * SECTOR_SIZE + k]
  {
    RequestFits(first, count, position, |part|);
    var lo, j := position - first * SECTOR_SIZE, first * SECTOR_SIZE + k;
    if k < lo {
      assert k < SECTOR_SIZE;
      assert buf[k] == c[j];
    } else if k < lo + |part| {
      assert j - position == k - lo;
    } else {
      assert (count - 1) * SECTOR_SIZE <= k;
      assert buf[k] == c[j];
    }
  }

  /** Once the sectors touched by the write are stored from such a buffer, the file reads as overwritten. */
  lemma StoredIsOverwritten(d0: Sectors, d: Sectors, buf: seq<Byte>, h: Header, first: nat, count: nat, position: nat, part: seq<Byte>)
    requires HeaderOk(h) && first + count <= h.numSectors && count * SECTOR_SIZE <= |buf|
    requires Stored(d0, d, buf, h, first, count)
    requires part != [] && position + |part| <= h.numBytes
    requires Covers(first, count, position, |part|)
    requires Ready(buf, Splice(Contents(d0, h), position, part), first, count)
    ensures Contents(d, h) == Splice(Contents(d0, h), position, part)
  {
    var c := Splice(Contents(d0, h), position, part);
    var c' := Contents(d, h);
    forall j | 0 <= j < h.numBytes ensures c'[j] == c[j] {
      if first <= j / SECTOR_SIZE < first + count {
        StoredByte(d0, d, buf, h, first, count, j);
        assert buf[j - first * SECTOR_SIZE] == c[first * SECTOR_SIZE + (j - first * SECTOR_SIZE)];
      } else {
        UnstoredByte(d0, d, buf, h, first, count, j);
      }
    }
  }

  lemma StoredByte(d0: Sectors, d: Sectors, buf: seq<Byte>, h: Header, first: nat, count: nat, j: nat)
    requires HeaderOk(h) && first + count <= h.numSectors && count * SECTOR_SIZE <= |buf|
    requires Stored(d0, d, buf, h, first, count)
    requires j < h.numBytes && first <= j / SECTOR_SIZE < first + count
    ensures 0 <= j - first * SECTOR_SIZE < count * SECTOR_SIZE && Contents(d, h)[j] == buf[j - first * SECTOR_SIZE]
  {
    var m := j / SECTOR_SIZE - first;
    assert d[h.dataSectors[first + m]] == buf[m * SECTOR_SIZE..m * SECTOR_SIZE + SECTOR_SIZE];
    assert m * SECTOR_SIZE + j % SECTOR_SIZE == j - first * SECTOR_SIZE;
    assert Contents(d, h)[j] == ByteAt(d, h, j);
  }

  lemma UnstoredByte(d0: Sectors, d: Sectors, buf: seq<Byte>, h: Header, first: nat, count: nat, j: nat)
    requires HeaderOk(h) && first + count <= h.numSectors && count * SECTOR_SIZE <= |buf|
    requires Stored(d0, d, buf, h, first, count)
    requires j < h.numBytes && !(first <= j / SECTOR_SIZE < first + count)
    ensures Contents(d, h)[j] == Contents(d0, h)[j]
  {
    EnoughSectors(h, j);
    OtherSectors(h, first, count, j / SECTOR_SIZE);
    assert Contents(d, h)[j] == ByteAt(d, h, j) && Contents(d0, h)[j] == ByteAt(d0, h, j);
  }

  lemma OnlyItsSectors(d0: Sectors, d: Sectors, buf: seq<Byte>, h: Header, first: nat, count: nat)
    requires HeaderOk(h) && first + count <= h.numSectors && count * SECTOR_SIZE <= |buf|
    requires Stored(d0, d, buf, h, first, count)
    ensures SameBut(DataOf(h), d0, d)
  {
    forall s | s in h.dataSectors[first..first + count] ensures s in DataOf(h) {
      var i :| first <= i < first + count && h.dataSectors[i] == s;
      assert DataOf(h)[i] == s;
    }
  }

  lemma OtherSectors(h: Header, first: nat, count: nat, m: nat)
    requires HeaderOk(h) && first + count <= h.numSectors && m < h.numSectors && !(first <= m < first + count)
    ensures h.dataSectors[m] !in h.dataSectors[first..first + count]
  {
    forall i | first <= i < first + count ensures h.dataSectors[i] != h.dataSectors[m] {
      assert DataOf(h)[i] != DataOf(h)[m];
    }
  }

  lemma StartOfSector(k: nat)
    ensures k * SECTOR_SIZE / SECTOR_SIZE == k
  {
  }

  /** bcopy. */
  method Copy(from: array<Byte>, fromAt: nat, into: array<Byte>, at: nat, n: nat)
    requires from != into && fromAt + n <= from.Length && at + n <= into.Length
    modifies into
    ensures into[..] == Splice(old(into[..]), at, from[fromAt..fromAt + n])
  {
    for j := 0 to n
      invariant into[..] == Splice(old(into[..]), at, from[fromAt..fromAt + j])
    {
      into[at + j] := from[fromAt + j];
    }
  }

  class OpenFile {
    const disk: SectorStore
    const hdr: FileHeader
    var seekPosition: int

    ghost predicate Valid()
      reads hdr, hdr.dataSectors
    {
      hdr.Valid() && HeaderOk(hdr.View())
    }

    /** The flat file. */
    ghost function Bytes(): seq<Byte>
      requires Valid()
      reads disk, hdr, hdr.dataSectors
    {
      Contents(disk.sectors, hdr.View())
    }

    constructor (disk: SectorStore, sector: nat)
      requires sector < NUM_SECTORS && HeaderOk(Decode(disk.sectors[sector]))
      ensures Valid() && this.disk == disk && fresh(hdr) && fresh(hdr.dataSectors)
      ensures hdr.View() == Decode(disk.sectors[sector]) && seekPosition == 0
    {
      this.disk := disk;
      var header := new FileHeader();
      header.FetchFrom(disk, sector);
      hdr := header;
      seekPosition := 0;
    }

    method ReadAt(into: array<Byte>, at: nat, numBytes: int, position: nat) returns (count: nat)
      requires Valid() && at + Clip(hdr.numBytes, numBytes, position) <= into.Length
      modifies into
      ensures count == Clip(|Bytes()|, numBytes, position)
      ensures into[..] == Overwrite(old(into[..]), at, Slice(Bytes(), position, count))
    {
      var fileLength := hdr.FileLength();
      if numBytes <= 0 || position >= fileLength {
        return 0;
      }
      count := if position + numBytes > fileLength then fileLength - position else numBytes;
      CopyOut(into, at, count, position);
    }

    /** ReadAt once the request is clipped. */
    method CopyOut(into: array<Byte>, at: nat, count: nat, position: nat)
      requires Valid() && count > 0 && position + count <= hdr.numBytes && at + count <= into.Length
      modifies into
      ensures into[..] == Splice(old(into[..]), at, Slice(Bytes(), position, count))
    {
      var buf, from := LoadRequest(count, position);
      Copy(buf, from, into, at, count);
    }

    /** The sectors of a request, with the wanted bytes from `from` on. */
    method LoadRequest(count: nat, position: nat) returns (buf: array<Byte>, from: nat)
      requires Valid() && count > 0 && position + count <= hdr.numBytes
      ensures fresh(buf) && from + count <= buf.Length
      ensures buf[from..from + count] == Slice(Bytes(), position, count)
    {
      var firstSector := position / SECTOR_SIZE;
      var lastSector := (position + count - 1) / SECTOR_SIZE;
      var numSectors := 1 + lastSector - firstSector;
      ghost var h, d := hdr.View(), disk.sectors;
      CoveringSectors(h, firstSector, numSectors, position, count);
      buf := LoadSectors(firstSector, numSectors);
      ghost var loaded := buf[..];
      LoadedIsSlice(loaded, d, h, firstSector, numSectors, position, count);
      from := position - firstSector * SECTOR_SIZE;
      assert buf[from..from + count] == loaded[from..from + count];
    }

    /** ReadAt's loop: all the full and partial sectors of the request. */
    method LoadSectors(firstSector: nat, numSectors: nat) returns (buf: array<Byte>)
      requires Valid() && firstSector + numSectors <= hdr.numSectors
      ensures fresh(buf) && buf.Length == numSectors * SECTOR_SIZE
      ensures Loaded(buf[..], disk.sectors, hdr.View(), firstSector, numSectors)
    {
      buf := new Byte[numSectors * SECTOR_SIZE];
      for i := 0 to numSectors
        invariant Loaded(buf[..], disk.sectors, hdr.View(), firstSector, i)
      {
        LoadSector(buf, firstSector, i);
      }
    }

    method LoadSector(buf: array<Byte>, firstSector: nat, i: nat)
      requires Valid() && firstSector + i < hdr.numSectors && (i + 1) * SECTOR_SIZE <= buf.Length
      requires Loaded(buf[..], disk.sectors, hdr.View(), firstSector, i)
      modifies buf
      ensures Loaded(buf[..], disk.sectors, hdr.View(), firstSector, i + 1)
    {
      ghost var before, d, h := buf[..], disk.sectors, hdr.View();
      LoadOneMore(before, d, h, firstSector, i);
      var sector := hdr.ByteToSector((firstSector + i) * SECTOR_SIZE);
      disk.ReadSector(sector, buf, i * SECTOR_SIZE);
    }

    /** Bytes of the last sector past the end of the file are not kept. */
    method WriteAt(from: array<Byte>, numBytes: int, position: nat) returns (count: nat)
      requires Valid() && Clip(hdr.numBytes, numBytes, position) <= from.Length
      modifies disk
      ensures count == Clip(|old(Bytes())|, numBytes, position)
      ensures Bytes() == Overwrite(old(Bytes()), position, from[..count])
      ensures SameBut(DataOf(hdr.View()), old(disk.sectors), disk.sectors)
    {
      var fileLength := hdr.FileLength();
      if numBytes <= 0 || position >= fileLength {
        return 0;
      }
      count := if position + numBytes > fileLength then fileLength - position else numBytes;
      CopyIn(from, count, position);
    }

    /** WriteAt once the request is clipped. */
    method CopyIn(from: array<Byte>, count: nat, position: nat)
      requires Valid() && 0 < count <= from.Length && position + count <= hdr.numBytes
      modifies disk
      ensures Bytes() == Splice(old(Bytes()), position, from[..count])
      ensures SameBut(DataOf(hdr.View()), old(disk.sectors), disk.sectors)
    {
      var firstSector := position / SECTOR_SIZE;
      var lastSector := (position + count - 1) / SECTOR_SIZE;
      var numSectors := 1 + lastSector - firstSector;
      CoveringSectors(hdr.View(), firstSector, numSectors, position, count);
      var buf := PartialSectors(firstSector, numSectors, position, count);
      ghost var before, part, c := buf[..], from[..count], Bytes();
      CopiedIsReady(before, c, firstSector, numSectors, position, part);
      Copy(from, 0, buf, position - firstSector * SECTOR_SIZE, count);
      assert from[0..0 + count] == part;
      ghost var ready := buf[..];
      assert ready == Splice(before, position - firstSector * SECTOR_SIZE, part);
      StoreSectors(buf, firstSector, numSectors, position, part);
    }

    /** A buffer for the sectors of a write, with the first and last read in if they are to be partially modified. */
    method PartialSectors(firstSector: nat, numSectors: nat, position: nat, count: nat) returns (buf: array<Byte>)
      requires Valid() && numSectors >= 1 && count >= 1
      ensures fresh(buf) && buf.Length == numSectors * SECTOR_SIZE
      ensures position == firstSector * SECTOR_SIZE || Holds(buf[..], Bytes(), firstSector, 0)
      ensures position + count == (firstSector + numSectors) * SECTOR_SIZE || Holds(buf[..], Bytes(), firstSector, numSectors - 1)
    {
      buf := new Byte[numSectors * SECTOR_SIZE];
      var lastSector := firstSector + numSectors - 1;
      var firstAligned := position == firstSector * SECTOR_SIZE;
      var lastAligned := position + count == (lastSector + 1) * SECTOR_SIZE;
      if !firstAligned {
        ReadSlot(buf, firstSector, 0, 0);
      }
      if !lastAligned && (firstSector != lastSector || firstAligned) {
        ReadSlot(buf, firstSector, lastSector - firstSector, 0);
      }
    }

    method ReadSlot(buf: array<Byte>, firstSector: nat, m: nat, ghost other: nat)
      requires Valid() && (m + 1) * SECTOR_SIZE <= buf.Length && (other + 1) * SECTOR_SIZE <= buf.Length
      modifies buf
      ensures Holds(buf[..], Bytes(), firstSector, m)
      ensures other != m && Holds(old(buf[..]), Bytes(), firstSector, other) ==> Holds(buf[..], Bytes(), firstSector, other)
    {
      ghost var before, c := buf[..], Bytes();
      ReadFills(before, c, firstSector, m, other);
      var _ := ReadAt(buf, m * SECTOR_SIZE, SECTOR_SIZE, (firstSector + m) * SECTOR_SIZE);
      assert Bytes() == c;
    }

    /** WriteAt's loop: the modified sectors go back. */
    method StoreSectors(buf: array<Byte>, firstSector: nat, numSectors: nat, ghost position: nat, ghost part: seq<Byte>)
      requires Valid() && firstSector + numSectors <= hdr.numSectors && buf.Length == numSectors * SECTOR_SIZE
      requires part != [] && position + |part| <= hdr.numBytes
      requires Covers(firstSector, numSectors, position, |part|)
      requires Ready(buf[..], Splice(Bytes(), position, part), firstSector, numSectors)
      modifies disk
      ensures Bytes() == Splice(old(Bytes()), position, part)
      ensures SameBut(DataOf(hdr.View()), old(disk.sectors), disk.sectors)
    {
      ghost var before, h, bytes := disk.sectors, hdr.View(), buf[..];
      for i := 0 to numSectors
        invariant hdr.View() == h && buf[..] == bytes
        invariant Stored(before, disk.sectors, bytes, h, firstSector, i)
      {
        StoreSector(buf, firstSector, i, before);
      }
      StoredIsOverwritten(before, disk.sectors, bytes, h, firstSector, numSectors, position, part);
      OnlyItsSectors(before, disk.sectors, bytes, h, firstSector, numSectors);
    }

    method StoreSector(buf: array<Byte>, firstSector: nat, i: nat, ghost before: Sectors)
      requires Valid() && firstSector + i < hdr.numSectors && (i + 1) * SECTOR_SIZE <= buf.Length
      requires Stored(before, disk.sectors, buf[..], hdr.View(), firstSector, i)
      modifies disk
      ensures Stored(before, disk.sectors, buf[..], hdr.View(), firstSector, i + 1)
    {
      var at := i * SECTOR_SIZE;
      ghost var h, d, bytes := hdr.View(), disk.sectors, buf[..];
      StoreOneMore(before, d, bytes, h, firstSector, i);
      StartOfSector(firstSector + i);
      var sector := hdr.ByteToSector((firstSector + i) * SECTOR_SIZE);
      assert sector == h.dataSectors[firstSector + i];
      assert buf[at..at + SECTOR_SIZE] == bytes[at..at + SECTOR_SIZE];
      disk.WriteSector(sector, buf, at);
      ghost var d' := disk.sectors;
      assert Stored(before, d', bytes, h, firstSector, i + 1);
    }

    method Seek(position: int)
      modifies this
      ensures seekPosition == position
    {
      seekPosition := position;
    }

    method Read(into: array<Byte>, numBytes: int) returns (result: nat)
      requires Valid() && seekPosition >= 0 && Clip(hdr.numBytes, numBytes, seekPosition) <= into.Length
      modifies this, into
      ensures result == Clip(|Bytes()|, numBytes, old(seekPosition)) && seekPosition == old(seekPosition) + result
      ensures into[..] == Overwrite(old(into[..]), 0, Slice(Bytes(), old(seekPosition), result))
    {
      result := ReadAt(into, 0, numBytes, seekPosition);
      seekPosition := seekPosition + result;
    }

    method Write(from: array<Byte>, numBytes: int) returns (result: nat)
      requires Valid() && seekPosition >= 0 && Clip(hdr.numBytes, numBytes, seekPosition) <= from.Length
      modifies this, disk
      ensures result == Clip(|old(Bytes())|, numBytes, old(seekPosition)) && seekPosition == old(seekPosition) + result
      ensures Bytes() == Overwrite(old(Bytes()), old(seekPosition), from[..result])
      ensures SameBut(DataOf(hdr.View()), old(disk.sectors), disk.sectors)
    {
      result := WriteAt(from, numBytes, seekPosition);
      seekPosition := seekPosition + result;
    }

    /** Length() */
    function Length(): int
      reads hdr
    {
      hdr.FileLength()
    }
  }

  // ---------------------------------------------------------------- what that means for clients

  lemma WholeOverwrite(c: seq<Byte>, part: seq<Byte>)
    requires |part| == |c|
    ensures Overwrite(c, 0, part) == part
  {
  }

  /** Reading back what was just written gives the bytes written. */
  lemma ReadBack(c: seq<Byte>, position: nat, part: seq<Byte>)
    requires part == [] || position + |part| <= |c|
    ensures |Overwrite(c, position, part)| == |c| && Slice(Overwrite(c, position, part), position, |part|) == part
  {
  }
}
