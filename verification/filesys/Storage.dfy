/**
 The raw disk as the file system sees it: 1024 sectors of 128 bytes, and the layout in them of the
 C++ ints and unsigned words that headers and maps are made of (little-endian).
 */
module Storage {
  import opened Words

  const SECTOR_SIZE: nat := 128
  const NUM_SECTORS: nat := 1024

  type Sector = s: seq<Byte> | |s| == 128 witness seq(128, _ => 0)

  const BLANK_SECTOR: Sector := seq(128, _ => 0)

  type Sectors = d: seq<Sector> | |d| == 1024 witness seq<Sector>(1024, _ => BLANK_SECTOR)

  // ---------------------------------------------------------------- ints in bytes

  function IntBytes(w: Word): (bytes: seq<Byte>)
    ensures |bytes| == 4
  {
    [U(w) % 256, U(w) / 256 % 256, U(w) / 65536 % 256, U(w) / 16777216]
  }

  function IntAt(bytes: seq<Byte>, at: nat): Word
    requires at + 4 <= |bytes|
  {
    FromBytes(bytes[at], bytes[at + 1], bytes[at + 2], bytes[at + 3])
  }

  function FromBytes(b0: int, b1: int, b2: int, b3: int): Word {
    Wrap(b0 + 256 * b1 + 65536 * b2 + 16777216 * b3)
  }

  /** An int lies in memory with its lowest byte first. */
  lemma IntIsLittleEndian(bytes: seq<Byte>, at: nat)
    requires at + 4 <= |bytes|
    ensures var b0: int, b1: int, b2: int, b3: int := bytes[at], bytes[at + 1], bytes[at + 2], bytes[at + 3];
      U(IntAt(bytes, at)) == b0 + 0x100 * b1 + 0x1_0000 * b2 + 0x100_0000 * b3
  {
    var b0: int, b1: int, b2: int, b3: int := bytes[at], bytes[at + 1], bytes[at + 2], bytes[at + 3];
    UnsignedOf(b0 + 0x100 * b1 + 0x1_0000 * b2 + 0x100_0000 * b3);
  }

  lemma IntRoundTrip(bytes: seq<Byte>, at: nat, w: Word)
    requires at + 4 <= |bytes| && bytes[at..at + 4] == IntBytes(w)
    ensures IntAt(bytes, at) == w
  {
    var part := bytes[at..at + 4];
    assert bytes[at] == part[0] && bytes[at + 1] == part[1] && bytes[at + 2] == part[2] && bytes[at + 3] == part[3];
    Digits(U(w));
    WrapOfUnsigned(w);
  }

  lemma Digits(u: nat)
    ensures u == u % 256 + 256 * (u / 256 % 256) + 65536 * (u / 65536 % 256) + 16777216 * (u / 16777216)
  {
    assert u / 65536 == u / 256 / 256 && u / 16777216 == u / 65536 / 256;
  }

  function EncodeInts(ws: seq<Word>): (bytes: seq<Byte>)
    ensures |bytes| == 4 * |ws|
  {
    if ws == [] then [] else IntBytes(ws[0]) + EncodeInts(ws[1..])
  }

  function DecodeInts(bytes: seq<Byte>): (ws: seq<Word>)
    ensures |ws| == |bytes| / 4
  {
    if |bytes| < 4 then [] else [IntAt(bytes, 0)] + DecodeInts(bytes[4..])
  }

  lemma {:induction false} IntsRoundTrip(ws: seq<Word>)
    ensures DecodeInts(EncodeInts(ws)) == ws
  {
    if ws != [] {
      var bytes := EncodeInts(ws);
      assert bytes[0..4] == IntBytes(ws[0]) && bytes[4..] == EncodeInts(ws[1..]);
      IntRoundTrip(bytes, 0, ws[0]);
      IntsRoundTrip(ws[1..]);
    }
  }

  lemma {:induction false} DecodedInt(bytes: seq<Byte>, i: nat)
    requires i < |bytes| / 4
    ensures DecodeInts(bytes)[i] == IntAt(bytes, 4 * i)
  {
    if i > 0 {
      DecodedInt(bytes[4..], i - 1);
      IntShifted(bytes, 4 * i);
    }
  }

  lemma IntShifted(bytes: seq<Byte>, at: nat)
    requires 4 <= at && at + 4 <= |bytes|
    ensures IntAt(bytes[4..], at - 4) == IntAt(bytes, at)
  {
  }

  // ---------------------------------------------------------------- bitmap words in bytes

  function WordBytes(w: bv32): (bytes: seq<Byte>)
    ensures |bytes| == 4
  {
    [(w & 0xff) as bv8 as int, ((w >> 8) & 0xff) as bv8 as int, ((w >> 16) & 0xff) as bv8 as int, (w >> 24) as bv8 as int]
  }

  function Join(b0: bv8, b1: bv8, b2: bv8, b3: bv8): bv32 {
    (b0 as bv32) | ((b1 as bv32) << 8) | ((b2 as bv32) << 16) | ((b3 as bv32) << 24)
  }

  function WordAt(bytes: seq<Byte>, at: nat): bv32
    requires at + 4 <= |bytes|
  {
    Join(bytes[at] as bv8, bytes[at + 1] as bv8, bytes[at + 2] as bv8, bytes[at + 3] as bv8)
  }

  lemma SplitJoin(w: bv32)
    ensures Join((w & 0xff) as bv8, ((w >> 8) & 0xff) as bv8, ((w >> 16) & 0xff) as bv8, (w >> 24) as bv8) == w
  {
  }

  lemma JoinSplit(b0: bv8, b1: bv8, b2: bv8, b3: bv8)
    ensures var w := Join(b0, b1, b2, b3);
      && (w & 0xff) as bv8 == b0 && ((w >> 8) & 0xff) as bv8 == b1
      && ((w >> 16) & 0xff) as bv8 == b2 && ((w >> 24) & 0xff) as bv8 == b3
  {
  }

  /** A word of the map lies in its file with its lowest eight bits first. */
  lemma WordIsLittleEndian(bytes: seq<Byte>, at: nat)
    requires at + 4 <= |bytes|
    ensures var w := WordAt(bytes, at);
      && (w & 0xff) as bv8 == bytes[at] as bv8 && ((w >> 8) & 0xff) as bv8 == bytes[at + 1] as bv8
      && ((w >> 16) & 0xff) as bv8 == bytes[at + 2] as bv8 && ((w >> 24) & 0xff) as bv8 == bytes[at + 3] as bv8
  {
    JoinSplit(bytes[at] as bv8, bytes[at + 1] as bv8, bytes[at + 2] as bv8, bytes[at + 3] as bv8);
  }

  lemma ByteTrip(b: bv8)
    ensures (b as int) as bv8 == b
  {
  }

  lemma WordRoundTrip(bytes: seq<Byte>, at: nat, w: bv32)
    requires at + 4 <= |bytes| && bytes[at..at + 4] == WordBytes(w)
    ensures WordAt(bytes, at) == w
  {
    var part := bytes[at..at + 4];
    assert bytes[at] == part[0] && bytes[at + 1] == part[1] && bytes[at + 2] == part[2] && bytes[at + 3] == part[3];
    ByteTrip((w & 0xff) as bv8);
    ByteTrip(((w >> 8) & 0xff) as bv8);
    ByteTrip(((w >> 16) & 0xff) as bv8);
    ByteTrip((w >> 24) as bv8);
    SplitJoin(w);
  }

  function EncodeWords(ws: seq<bv32>): (bytes: seq<Byte>)
    ensures |bytes| == 4 * |ws|
  {
    if ws == [] then [] else WordBytes(ws[0]) + EncodeWords(ws[1..])
  }

  function DecodeWords(bytes: seq<Byte>): (ws: seq<bv32>)
    ensures |ws| == |bytes| / 4
  {
    if |bytes| < 4 then [] else [WordAt(bytes, 0)] + DecodeWords(bytes[4..])
  }

  lemma {:induction false} WordsRoundTrip(ws: seq<bv32>)
    ensures DecodeWords(EncodeWords(ws)) == ws
  {
    if ws != [] {
      var bytes := EncodeWords(ws);
      assert bytes[0..4] == WordBytes(ws[0]) && bytes[4..] == EncodeWords(ws[1..]);
      WordRoundTrip(bytes, 0, ws[0]);
      WordsRoundTrip(ws[1..]);
    }
  }

  lemma {:induction false} DecodedWord(bytes: seq<Byte>, i: nat)
    requires i < |bytes| / 4
    ensures DecodeWords(bytes)[i] == WordAt(bytes, 4 * i)
  {
    if i > 0 {
      DecodedWord(bytes[4..], i - 1);
      WordShifted(bytes, 4 * i);
    }
  }

  lemma WordShifted(bytes: seq<Byte>, at: nat)
    requires 4 <= at && at + 4 <= |bytes|
    ensures WordAt(bytes[4..], at - 4) == WordAt(bytes, at)
  {
  }

  lemma {:induction false} EncodedWord(ws: seq<bv32>, i: nat)
    requires i < |ws|
    ensures EncodeWords(ws)[4 * i..4 * i + 4] == WordBytes(ws[i])
  {
    if i > 0 {
      EncodedWord(ws[1..], i - 1);
      assert EncodeWords(ws)[4 * i..4 * i + 4] == EncodeWords(ws[1..])[4 * (i - 1)..4 * (i - 1) + 4];
    }
  }

  // ---------------------------------------------------------------- parts of byte sequences

  /** `bytes` with `part` put in at `at`. */
  function Splice(bytes: seq<Byte>, at: nat, part: seq<Byte>): (r: seq<Byte>)
    requires at + |part| <= |bytes|
    ensures |r| == |bytes|
    ensures forall j :: 0 <= j < |r| ==> r[j] == if at <= j < at + |part| then part[j - at] else bytes[j]
  {
    bytes[..at] + part + bytes[at + |part|..]
  }

  /** synchDisk: whole sectors in, whole sectors out. */
  class SectorStore {
    var sectors: Sectors

    constructor (contents: Sectors)
      ensures sectors == contents
    {
      sectors := contents;
    }

    method ReadSector(sector: int, data: array<Byte>, at: nat)
      requires 0 <= sector < NUM_SECTORS && at + SECTOR_SIZE <= data.Length
      modifies data
      ensures data[..] == Splice(old(data[..]), at, sectors[sector])
    {
      for j := 0 to SECTOR_SIZE
        invariant forall k :: 0 <= k < j ==> data[at + k] == sectors[sector][k]
        invariant forall k :: 0 <= k < data.Length && !(at <= k < at + j) ==> data[k] == old(data[k])
      {
        data[at + j] := sectors[sector][j];
      }
      assert data[at..at + SECTOR_SIZE] == sectors[sector];
      assert data[..] == old(data[..at]) + data[at..at + SECTOR_SIZE] + old(data[at + SECTOR_SIZE..]);
    }

    method WriteSector(sector: int, data: array<Byte>, at: nat)
      requires 0 <= sector < NUM_SECTORS && at + SECTOR_SIZE <= data.Length
      modifies this
      ensures sectors == old(sectors)[sector := data[at..at + SECTOR_SIZE]]
    {
      sectors := sectors[sector := data[at..at + SECTOR_SIZE]];
    }
  }
}
