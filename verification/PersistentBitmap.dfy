/** The free map as a file (NachOS/filesys/pbitmap.cc): its words, low byte first. */
module PersistentBitmaps {
  import opened BitSpec
  import opened Bitmaps
  import opened ByteCodec
  import opened FileHeaders
  import opened Geometry
  import opened OpenFiles

  // Eight bits as a byte, lowest first, and back.
  function Pack(b: seq<bool>): nat {
    if b == [] then 0 else (if b[0] then 1 else 0) + 2 * Pack(b[1..])
  }

  function Unpack(v: nat, n: nat): (b: seq<bool>)
    ensures |b| == n
  {
    if n == 0 then [] else [v % 2 == 1] + Unpack(v / 2, n - 1)
  }

  lemma {:induction false} PackRoundTrip(b: seq<bool>)
    ensures Unpack(Pack(b), |b|) == b
    decreases |b|
  {
    if b != [] {
      assert Pack(b) / 2 == Pack(b[1..]);
      PackRoundTrip(b[1..]);
    }
  }

  lemma {:induction false} PackBelow(b: seq<bool>)
    ensures Pack(b) < Pow2(|b|)
    decreases |b|
  {
    if b != [] {
      PackBelow(b[1..]);
    }
  }

  function PackByte(b: seq<bool>): Byte
    requires |b| == 8
  {
    PackBelow(b);
    Pack(b)
  }

  function WordBytes(w: Word): (b: seq<Byte>)
    ensures |b| == 4
  {
    [PackByte(w[..8]), PackByte(w[8..16]), PackByte(w[16..24]), PackByte(w[24..])]
  }

  function WordOf(b: seq<Byte>): Word
    requires |b| == 4
  {
    Unpack(b[0], 8) + Unpack(b[1], 8) + Unpack(b[2], 8) + Unpack(b[3], 8)
  }

  lemma WordRoundTrip(w: Word)
    ensures WordOf(WordBytes(w)) == w
  {
    PackRoundTrip(w[..8]);
    PackRoundTrip(w[8..16]);
    PackRoundTrip(w[16..24]);
    PackRoundTrip(w[24..]);
  }

  function EncodeWords(ws: seq<Word>): (b: seq<Byte>)
    ensures |b| == 4 * |ws|
  {
    if ws == [] then [] else WordBytes(ws[0]) + EncodeWords(ws[1..])
  }

  function DecodeWords(b: seq<Byte>, n: nat): (ws: seq<Word>)
    requires |b| == 4 * n
    ensures |ws| == n
  {
    if n == 0 then [] else [WordOf(b[..4])] + DecodeWords(b[4..], n - 1)
  }

  lemma {:induction false} WordsRoundTrip(ws: seq<Word>)
    ensures DecodeWords(EncodeWords(ws), |ws|) == ws
    decreases |ws|
  {
    if ws != [] {
      var b := EncodeWords(ws);
      assert b[..4] == WordBytes(ws[0]) && b[4..] == EncodeWords(ws[1..]);
      WordRoundTrip(ws[0]);
      WordsRoundTrip(ws[1..]);
    }
  }

  // The bits that words hold.
  function BitsIn(ws: seq<Word>): (v: Bits)
    ensures |v| == 32 * |ws|
  {
    if ws == [] then [] else ws[0] + BitsIn(ws[1..])
  }

  lemma {:induction false} BitsInAt(ws: seq<Word>, i: nat)
    requires i < 32 * |ws|
    ensures BitsIn(ws)[i] == ws[i / 32][i % 32]
    decreases |ws|
  {
    if i >= 32 {
      BitsInAt(ws[1..], i - 32);
    }
  }

  // The free map a file of 4 * n bytes describes.
  function StoredBits(b: seq<Byte>, n: nat): (v: Bits)
    requires |b| == 4 * n
    ensures |v| == 32 * n
  {
    BitsIn(DecodeWords(b, n))
  }

  lemma ViewIsBitsIn(map0: Bitmap)
    requires map0.Valid() && map0.numBits == 32 * map0.words.Length
    ensures map0.View() == BitsIn(map0.words[..])
  {
    forall i | 0 <= i < map0.numBits ensures map0.View()[i] == BitsIn(map0.words[..])[i] {
      BitsInAt(map0.words[..], i);
    }
  }

  method FetchFrom(freeMap: Bitmap, disk: SynchDisk, file: OpenFile)
    requires freeMap.Valid() && freeMap.numBits == 32 * freeMap.words.Length
    requires file.Valid(disk) && file.tree.bytes == 4 * freeMap.words.Length
    modifies freeMap.words
    ensures freeMap.View() == StoredBits(file.Contents(disk), freeMap.words.Length)
  {
    var n, into := file.ReadAt(disk, 4 * freeMap.words.Length, 0);
    ghost var contents := file.Contents(disk);
    assert into == contents;
    var ws := DecodeWords(into, freeMap.words.Length);
    forall i | 0 <= i < freeMap.words.Length {
      freeMap.words[i] := ws[i];
    }
    assert freeMap.words[..] == ws;
    ViewIsBitsIn(freeMap);
  }

  method WriteBack(freeMap: Bitmap, disk: SynchDisk, file: OpenFile)
    requires freeMap.Valid() && freeMap.numBits == 32 * freeMap.words.Length
    requires file.Valid(disk) && file.tree.bytes == 4 * freeMap.words.Length
    modifies disk
    ensures file.Valid(disk) && StoredBits(file.Contents(disk), freeMap.words.Length) == freeMap.View()
    ensures |file.Contents(disk)| > 0 && Written(old(disk.sectors), disk.sectors, file.tree, 0, file.Contents(disk))
  {
    var bytes := EncodeWords(freeMap.words[..]);
    var n := file.WriteAt(disk, bytes, |bytes|, 0);
    assert bytes[..n] == bytes && file.Contents(disk) == bytes;
    WordsRoundTrip(freeMap.words[..]);
    ViewIsBitsIn(freeMap);
  }
}
