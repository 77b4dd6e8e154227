/** The free map as a file: BitMap::FetchFrom and BitMap::WriteBack (userprog/bitmap.cc). */
module FreeMaps {
  import opened Words
  import opened BitMaps
  import opened Storage
  import opened FileHeaders
  import opened OpenFiles

  /** The map on a disk whose map file has this header. */
  ghost function UsedBy(bytes: seq<Byte>): set<nat>
    requires |bytes| == NUM_SECTORS / 8
  {
    BitsSet(DecodeWords(bytes), NUM_SECTORS)
  }

  method FetchFrom(freeMap: BitMap, file: OpenFile)
    requires freeMap.Valid() && freeMap.numBits == NUM_SECTORS
    requires file.Valid() && file.hdr.numBytes == NUM_SECTORS / 8
    modifies freeMap.words
    ensures freeMap.Marked() == UsedBy(file.Bytes())
  {
    var n := freeMap.words.Length;
    assert n == NUM_SECTORS / 32;
    ghost var c := file.Bytes();
    var bytes := new Byte[4 * n];
    var _ := file.ReadAt(bytes, 0, 4 * n, 0);
    ghost var got := bytes[..];
    assert got == c;
    LoadWords(bytes, freeMap.words);
  }

  method LoadWords(bytes: array<Byte>, words: array<bv32>)
    requires bytes.Length == 4 * words.Length
    modifies words
    ensures words[..] == DecodeWords(bytes[..])
  {
    ghost var decoded := DecodeWords(bytes[..]);
    for i := 0 to words.Length
      invariant forall k :: 0 <= k < i ==> words[k] == decoded[k]
    {
      DecodedWord(bytes[..], i);
      words[i] := WordAt(bytes[..], 4 * i);
    }
  }

  method WriteBack(freeMap: BitMap, file: OpenFile)
    requires freeMap.Valid() && freeMap.numBits == NUM_SECTORS
    requires file.Valid() && file.hdr.numBytes == NUM_SECTORS / 8
    modifies file.disk
    ensures UsedBy(file.Bytes()) == freeMap.Marked()
    ensures SameBut(DataOf(file.hdr.View()), old(file.disk.sectors), file.disk.sectors)
  {
    var n := freeMap.words.Length;
    assert n == NUM_SECTORS / 32;
    ghost var words := freeMap.words[..];
    var bytes := StoreWords(freeMap.words);
    ghost var out := bytes[..4 * n];
    assert out == EncodeWords(words);
    WholeOverwrite(file.Bytes(), out);
    WordsRoundTrip(words);
    var _ := file.WriteAt(bytes, 4 * n, 0);
  }

  method StoreWords(words: array<bv32>) returns (bytes: array<Byte>)
    ensures fresh(bytes) && bytes[..] == EncodeWords(words[..])
  {
    bytes := new Byte[4 * words.Length];
    ghost var encoded := EncodeWords(words[..]);
    for i := 0 to words.Length
      invariant bytes[..4 * i] == encoded[..4 * i]
    {
      EncodedWord(words[..], i);
      StoreWord(words[i], bytes, 4 * i);
      assert encoded[..4 * (i + 1)] == encoded[..4 * i] + encoded[4 * i..4 * i + 4];
      assert bytes[..4 * (i + 1)] == bytes[..4 * i] + bytes[4 * i..4 * i + 4];
    }
  }

  method StoreWord(word: bv32, bytes: array<Byte>, at: nat)
    requires at + 4 <= bytes.Length
    modifies bytes
    ensures bytes[at..at + 4] == WordBytes(word) && bytes[..at] == old(bytes[..at])
  {
    var part := WordBytes(word);
    bytes[at], bytes[at + 1], bytes[at + 2], bytes[at + 3] := part[0], part[1], part[2], part[3];
    assert bytes[at..at + 4] == part;
  }
}
