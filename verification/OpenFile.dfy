/** Byte-addressed access to a file stored in whole sectors (NachOS/filesys/openfile.cc). */
module OpenFiles {
  import opened Geometry
  import opened BitSpec
  import opened ByteCodec
  import opened HeaderTree
  import opened HeaderLookup
  import opened FileHeaders
  import opened Sequences

  // ---- a file as a flat array of bytes ------------------------------------------------

  function HeaderBytes(words: seq<int>): seq<Byte> {
    if words == [] then [] else Le32(words[0]) + HeaderBytes(words[1..])
  }

  // The SectorSize bytes that a sector holds.
  function BytesOf(x: Sector): (b: seq<Byte>)
    ensures |b| == SectorSize
    ensures x.Raw? && |x.bytes| == SectorSize ==> b == x.bytes
  {
    var b := match x
             case Raw(b) => b
             case Header(h) => HeaderBytes([h.numBytes, h.numSectors] + h.dataSectors);
    seq<Byte>(SectorSize, i requires 0 <= i < SectorSize => if i < |b| then b[i] else 0)
  }

  // Byte o of the file whose data sectors are secs.
  ghost predicate Stored(disk: Disk, secs: seq<int>) {
    forall s :: s in secs ==> 0 <= s < |disk|
  }

  ghost function ByteAt(disk: Disk, secs: seq<int>, o: nat): Byte
    requires Stored(disk, secs) && Quot(o, SectorSize) < |secs|
  {
    UnitOf(o, SectorSize);
    assert secs[Quot(o, SectorSize)] in secs;
    BytesOf(disk[secs[Quot(o, SectorSize)]])[Rest(o, SectorSize)]
  }

  ghost function Flat(disk: Disk, t: Tree): (b: seq<Byte>)
    requires Shape(t) && Stored(disk, DataOf(t))
    ensures |b| == t.bytes
  {
    DataSize(t);
    seq<Byte>(t.bytes, o requires 0 <= o < t.bytes =>
      QuotBelowCeil(o, t.bytes, SectorSize); ByteAt(disk, DataOf(t), o))
  }

  // A request of n bytes at pos, clipped to the length of the file: as many bytes as are asked
  // for and as there are.
  function Clip(n: int, pos: nat, length: nat): (k: nat)
    ensures n <= 0 || pos >= length ==> k == 0
    ensures n > 0 && pos < length ==> 0 < k <= n && pos + k <= length && (k == n || pos + k == length)
  {
    if n <= 0 || pos >= length then 0
    else if pos + n > length then length - pos
    else n
  }

  // ---- what a write does to the disk --------------------------------------------------

  // What byte o of the written sectors becomes: new data, old data, or, past the end of the
  // file in its last sector, zero.
  ghost function NewByte(was: seq<Byte>, pos: nat, data: seq<Byte>, o: nat): Byte {
    if pos <= o < pos + |data| then data[o - pos]
    else if o < |was| then was[o]
    else 0
  }

  ghost function NewSector(was: seq<Byte>, pos: nat, data: seq<Byte>, i: nat): Sector {
    Raw(seq<Byte>(SectorSize, r requires 0 <= r < SectorSize => NewByte(was, pos, data, Times(i, SectorSize) + r)))
  }

  ghost predicate Holds(disk: Disk, s: int, x: Sector) {
    0 <= s < |disk| && disk[s] == x
  }

  // The disk after data, not empty, has been written at pos: the sectors from the first to
  // the last byte written hold the new bytes, every other sector is as it was.
  ghost predicate Written(d1: Disk, d2: Disk, t: Tree, pos: nat, data: seq<Byte>)
    requires Shape(t) && Stored(d1, DataOf(t)) && 0 < |data| && pos + |data| <= t.bytes
  {
    var first, last := Quot(pos, SectorSize), Quot(pos + |data| - 1, SectorSize);
    var secs := DataOf(t);
    && |d1| == |d2| && first <= last < |secs|
    && (forall i :: first <= i <= last ==> Holds(d2, secs[i], NewSector(Flat(d1, t), pos, data, i)))
    && (forall s :: 0 <= s < |d1| && s !in secs[first..last + 1] ==> d2[s] == d1[s])
  }

  // A file with the write behind it reads as the old file with the data put over it.
  lemma WrittenFlat(d1: Disk, d2: Disk, t: Tree, pos: nat, data: seq<Byte>)
    requires Shape(t) && Stored(d1, DataOf(t)) && Distinct(DataOf(t))
    requires 0 < |data| && pos + |data| <= t.bytes && Written(d1, d2, t, pos, data)
    ensures Flat(d2, t) == Splice(Flat(d1, t), pos, data)
  {
    forall o | 0 <= o < t.bytes ensures Flat(d2, t)[o] == NewByte(Flat(d1, t), pos, data, o) {
      FlatAt(d1, d2, t, pos, data, o);
    }
    NewBytesSplice(Flat(d1, t), Flat(d2, t), pos, data);
  }

  lemma NewBytesSplice(was: seq<Byte>, now: seq<Byte>, pos: nat, data: seq<Byte>)
    requires |now| == |was| && pos + |data| <= |was|
    requires forall o :: 0 <= o < |was| ==> now[o] == NewByte(was, pos, data, o)
    ensures now == Splice(was, pos, data)
  {
  }

  lemma FlatAt(d1: Disk, d2: Disk, t: Tree, pos: nat, data: seq<Byte>, o: nat)
    requires Shape(t) && Stored(d1, DataOf(t)) && Distinct(DataOf(t)) && o < t.bytes
    requires 0 < |data| && pos + |data| <= t.bytes && Written(d1, d2, t, pos, data)
    ensures Flat(d2, t)[o] == NewByte(Flat(d1, t), pos, data, o)
  {
    var secs := DataOf(t);
    var first, last := Quot(pos, SectorSize), Quot(pos + |data| - 1, SectorSize);
    DataSize(t);
    QuotBelowCeil(o, t.bytes, SectorSize);
    var q := Quot(o, SectorSize);
    if first <= q <= last {
      assert Holds(d2, secs[q], NewSector(Flat(d1, t), pos, data, q));
      NewSectorByte(d2, secs, Flat(d1, t), pos, data, o);
    } else {
      OutsideWrite(o, pos, |data|);
      NotInSlice(secs, q, first, last + 1);
      assert secs[q] in secs;
    }
  }

  lemma NewSectorByte(d2: Disk, secs: seq<int>, was: seq<Byte>, pos: nat, data: seq<Byte>, o: nat)
    requires Stored(d2, secs) && Quot(o, SectorSize) < |secs|
    requires Holds(d2, secs[Quot(o, SectorSize)], NewSector(was, pos, data, Quot(o, SectorSize)))
    ensures ByteAt(d2, secs, o) == NewByte(was, pos, data, o)
  {
    UnitOf(o, SectorSize);
    var q, r := Quot(o, SectorSize), Rest(o, SectorSize);
    var x := NewSector(was, pos, data, q);
    assert BytesOf(x) == x.bytes;
    assert x.bytes[r] == NewByte(was, pos, data, Times(q, SectorSize) + r);
  }

  // A byte outside the sectors of a write is outside the write.
  lemma OutsideWrite(o: nat, pos: nat, n: nat)
    requires n > 0
    requires Quot(o, SectorSize) < Quot(pos, SectorSize) || Quot(pos + n - 1, SectorSize) < Quot(o, SectorSize)
    ensures o < pos || pos + n <= o
  {
    if pos <= o {
      QuotMono(pos, o, SectorSize);
    }
    if o <= pos + n - 1 {
      QuotMono(o, pos + n - 1, SectorSize);
    }
  }

  lemma NotInSlice(secs: seq<int>, q: nat, a: nat, b: nat)
    requires Distinct(secs) && q < |secs| && a <= b <= |secs| && (q < a || b <= q)
    ensures secs[q] !in secs[a..b]
  {
    forall i | 0 <= i < b - a ensures secs[a..b][i] != secs[q] {
      assert secs[a..b][i] == secs[a + i];
    }
  }

  // A later read returns what was written, clipped or not, wherever the write fell.
  lemma WriteThenRead(d1: Disk, d2: Disk, t: Tree, pos: nat, data: seq<Byte>)
    requires Shape(t) && Stored(d1, DataOf(t)) && Distinct(DataOf(t))
    requires 0 < |data| && pos + |data| <= t.bytes && Written(d1, d2, t, pos, data)
    ensures Flat(d2, t)[pos..pos + |data|] == data
    ensures Flat(d2, t)[..pos] == Flat(d1, t)[..pos]
    ensures Flat(d2, t)[pos + |data|..] == Flat(d1, t)[pos + |data|..]
  {
    WrittenFlat(d1, d2, t, pos, data);
  }

  // A write leaves alone every file whose sectors it does not share, headers included, and
  // its own header.
  lemma WriteLeavesOthers(d1: Disk, d2: Disk, t: Tree, pos: nat, data: seq<Byte>, h: Hdr, u: Tree)
    requires Shape(t) && Stored(d1, DataOf(t))
    requires 0 < |data| && pos + |data| <= t.bytes && Written(d1, d2, t, pos, data)
    requires Rep(d1, h, u) && Shape(u)
    requires forall s :: s in DataOf(t) ==> s !in IndexOf(u)
    ensures Rep(d2, h, u)
    ensures Stored(d1, DataOf(u)) && Stored(d2, DataOf(u))
    ensures (forall s :: s in DataOf(t) ==> s !in DataOf(u)) ==> Flat(d2, u) == Flat(d1, u)
  {
    var first, last := Quot(pos, SectorSize), Quot(pos + |data| - 1, SectorSize);
    forall s | s in DataOf(t)[first..last + 1] ensures s in DataOf(t) {}
    RepFrame(d1, d2, h, u);
    RepStored(d1, h, u);
    if forall s :: s in DataOf(t) ==> s !in DataOf(u) {
      DataSize(u);
      forall o | 0 <= o < u.bytes ensures Flat(d2, u)[o] == Flat(d1, u)[o] {
        QuotBelowCeil(o, u.bytes, SectorSize);
        assert DataOf(u)[Quot(o, SectorSize)] in DataOf(u);
      }
    }
  }

  lemma {:induction false} RepStored(disk: Disk, h: Hdr, t: Tree)
    requires Rep(disk, h, t)
    ensures Stored(disk, DataOf(t))
    ensures forall s :: s in AllOf(t) ==> 0 <= s < |disk|
    decreases t, 0
  {
    if t.Node? {
      RepAllStored(disk, h.dataSectors, 0, t.kids);
    }
  }

  lemma {:induction false} RepAllStored(disk: Disk, slots: seq<int>, i: nat, f: Forest)
    requires RepAll(disk, slots, i, f)
    ensures Stored(disk, DataOfAll(f))
    ensures forall s :: s in AllOfAll(f) ==> 0 <= s < |disk|
    decreases f, 0
  {
    if f.Cons? {
      RepStored(disk, disk[f.sector].hdr, f.tree);
      RepAllStored(disk, slots, i + 1, f.rest);
    }
  }

  // ---- the class ----------------------------------------------------------------------

  // memcpy: data over buf from position at on.
  function Copy(buf: seq<Byte>, at: nat, data: seq<Byte>): (r: seq<Byte>)
    requires at + |data| <= |buf|
    ensures |r| == |buf|
    ensures forall k :: 0 <= k < |buf| ==> r[k] == if at <= k < at + |data| then data[k - at] else buf[k]
  {
    Splice(buf, at, data)
  }

  // The buffer, whose first byte is byte base of the file, holds byte o of the file;
  ghost predicate HoldsByte(disk: Disk, secs: seq<int>, buf: seq<Byte>, base: nat, o: nat)
    requires Stored(disk, secs)
  {
    base <= o < base + |buf| && Quot(o, SectorSize) < |secs| && buf[o - base] == ByteAt(disk, secs, o)
  }

  // and all bytes from base to upto.
  ghost predicate Holding(disk: Disk, secs: seq<int>, buf: seq<Byte>, base: nat, upto: nat) {
    Stored(disk, secs) && forall o :: base <= o < upto ==> HoldsByte(disk, secs, buf, base, o)
  }

  // Reading the next sector into its place extends what the buffer holds by one sector.
  lemma ReadStep(disk: Disk, secs: seq<int>, buf: seq<Byte>, first: nat, i: nat, at: nat, data: seq<Byte>)
    requires first <= i < |secs| && Stored(disk, secs) && secs[i] in secs
    requires at == Times(i - first, SectorSize) && data == BytesOf(disk[secs[i]])
    requires at + SectorSize <= |buf|
    requires Holding(disk, secs, buf, Times(first, SectorSize), Times(i, SectorSize))
    ensures Holding(disk, secs, Copy(buf, at, data), Times(first, SectorSize), Times(i, SectorSize) + SectorSize)
  {
    hide Times, Quot, Rest, BytesOf, Copy;
    var base := Times(first, SectorSize);
    TimesSub(first, i, SectorSize);
    var r := Copy(buf, at, data);
    forall o | base <= o < Times(i, SectorSize) + SectorSize ensures HoldsByte(disk, secs, r, base, o) {
      if o >= Times(i, SectorSize) {
        UnitOffset(i, o - Times(i, SectorSize), SectorSize);
        assert ByteAt(disk, secs, o) == data[o - Times(i, SectorSize)];
      } else {
        assert HoldsByte(disk, secs, buf, base, o);
      }
    }
  }

  // The sectors that a clipped request touches.
  lemma Range(pos: nat, n: nat, bytes: nat)
    requires 0 < n && pos + n <= bytes
    ensures Quot(pos, SectorSize) <= Quot(pos + n - 1, SectorSize) < Ceil(bytes, SectorSize)
    ensures Times(Quot(pos, SectorSize), SectorSize) <= pos < Times(Quot(pos, SectorSize), SectorSize) + SectorSize
    ensures Times(Quot(pos + n - 1, SectorSize), SectorSize) < pos + n <= Times(Quot(pos + n - 1, SectorSize) + 1, SectorSize)
  {
    QuotMono(pos, pos + n - 1, SectorSize);
    QuotBelowCeil(pos + n - 1, bytes, SectorSize);
    UnitOf(pos, SectorSize);
    UnitOf(pos + n - 1, SectorSize);
  }

  // ---- the steps of a write -----------------------------------------------------------

  // Byte o before the write; past the end of the file, zero.
  ghost function OldByte(was: seq<Byte>, o: nat): Byte {
    if o < |was| then was[o] else 0
  }

  // Every byte of the buffer that the write does not cover is the old one.
  ghost predicate OldAround(buf: seq<Byte>, base: nat, was: seq<Byte>, pos: nat, n: nat) {
    forall o :: base <= o < base + |buf| && !(pos <= o < pos + n) ==> buf[o - base] == OldByte(was, o)
  }

  ghost predicate Zero(buf: seq<Byte>, a: nat, b: nat) {
    b <= |buf| && forall k :: a <= k < b ==> buf[k] == 0
  }

  // Sector k of the file stands in the buffer as it was.
  ghost predicate SectorOld(buf: seq<Byte>, base: nat, was: seq<Byte>, k: nat) {
    && base <= Times(k, SectorSize) && Times(k, SectorSize) - base + SectorSize <= |buf|
    && forall o :: Times(k, SectorSize) <= o < Times(k, SectorSize) + SectorSize ==> buf[o - base] == OldByte(was, o)
  }

  // Reading sector k, clipped to the file, into its zeroed place.
  lemma SectorRead(buf: seq<Byte>, base: nat, was: seq<Byte>, k: nat, at: nat, into: seq<Byte>)
    requires base + at == Times(k, SectorSize) && Zero(buf, at, at + SectorSize)
    requires |into| == Clip(SectorSize, Times(k, SectorSize), |was|)
    requires |into| > 0 ==> into == was[Times(k, SectorSize)..Times(k, SectorSize) + |into|]
    ensures at + |into| <= |buf| && SectorOld(Copy(buf, at, into), base, was, k)
  {
    var r := Copy(buf, at, into);
    forall o | Times(k, SectorSize) <= o < Times(k, SectorSize) + SectorSize ensures r[o - base] == OldByte(was, o) {
      if o - base < at + |into| {
        assert into[o - base - at] == was[o];
      }
    }
  }

  // With the partial first and last sectors in place, so is every byte around the write.
  lemma AroundFromSectors(buf: seq<Byte>, base: nat, was: seq<Byte>, pos: nat, n: nat, first: nat, last: nat)
    requires base == Times(first, SectorSize) && first <= last && |buf| == Times(last + 1, SectorSize) - base
    requires base <= pos < base + SectorSize && Times(last, SectorSize) < pos + n
    requires pos == base || SectorOld(buf, base, was, first)
    requires pos + n == base + |buf| || SectorOld(buf, base, was, last)
    ensures OldAround(buf, base, was, pos, n)
  {
    forall o | base <= o < base + |buf| && !(pos <= o < pos + n) ensures buf[o - base] == OldByte(was, o) {
      if o >= pos {
        assert o >= pos + n > Times(last, SectorSize);
      }
    }
  }

  lemma Changed(buf: seq<Byte>, base: nat, was: seq<Byte>, pos: nat, data: seq<Byte>)
    requires base <= pos && pos - base + |data| <= |buf|
    requires OldAround(buf, base, was, pos, |data|)
    ensures NewAll(Copy(buf, pos - base, data), base, was, pos, data)
  {
    var r := Copy(buf, pos - base, data);
    forall o | base <= o < base + |r| ensures r[o - base] == NewByte(was, pos, data, o) {
      if o < pos || pos + |data| <= o {
        assert OldByte(was, o) == buf[o - base];
      }
    }
  }

  // Every byte of the buffer is the new one.
  ghost predicate NewAll(buf: seq<Byte>, base: nat, was: seq<Byte>, pos: nat, data: seq<Byte>) {
    forall o :: base <= o < base + |buf| ==> buf[o - base] == NewByte(was, pos, data, o)
  }

  // The sectors from first up to i have been written.
  ghost predicate WrittenUpTo(d1: Disk, d2: Disk, secs: seq<int>, first: nat, i: nat, pos: nat, data: seq<Byte>, was: seq<Byte>) {
    && |d1| == |d2| && first <= i && (first < i ==> i <= |secs|)
    && (forall k :: first <= k < i ==> Holds(d2, secs[k], NewSector(was, pos, data, k)))
    && (forall s :: 0 <= s < |d1| && (first < i ==> s !in secs[first..i]) ==> d2[s] == d1[s])
  }

  lemma WrittenNext(d1: Disk, d2: Disk, t: Tree, h: Hdr, first: nat, i: nat, pos: nat, data: seq<Byte>, was: seq<Byte>)
    requires WrittenUpTo(d1, d2, DataOf(t), first, i, pos, data, was) && i < |DataOf(t)|
    requires Rep(d2, h, t) && Shape(t) && Distinct(AllOf(t)) && Stored(d2, DataOf(t))
    ensures 0 <= DataOf(t)[i] < |d2|
    ensures WrittenUpTo(d1, d2[DataOf(t)[i] := NewSector(was, pos, data, i)], DataOf(t), first, i + 1, pos, data, was)
    ensures Rep(d2[DataOf(t)[i] := NewSector(was, pos, data, i)], h, t)
  {
    DataWriteKeepsHeader(d2, h, t, i, NewSector(was, pos, data, i));
    DataIndexApart(t);
    WrittenMore(d1, d2, DataOf(t), first, i, pos, data, was);
  }

  lemma AllWritten(d1: Disk, d2: Disk, t: Tree, pos: nat, data: seq<Byte>)
    requires Shape(t) && Stored(d1, DataOf(t)) && 0 < |data| && pos + |data| <= t.bytes
    requires WrittenUpTo(d1, d2, DataOf(t), Quot(pos, SectorSize), Quot(pos + |data| - 1, SectorSize) + 1, pos, data, Flat(d1, t))
    ensures Written(d1, d2, t, pos, data)
  {
    Range(pos, |data|, t.bytes);
  }

  lemma WrittenMore(d1: Disk, d2: Disk, secs: seq<int>, first: nat, i: nat, pos: nat, data: seq<Byte>, was: seq<Byte>)
    requires WrittenUpTo(d1, d2, secs, first, i, pos, data, was) && i < |secs| && Distinct(secs)
    requires 0 <= secs[i] < |d2|
    ensures WrittenUpTo(d1, d2[secs[i] := NewSector(was, pos, data, i)], secs, first, i + 1, pos, data, was)
  {
    var d3 := d2[secs[i] := NewSector(was, pos, data, i)];
    assert secs[first..i + 1] == secs[first..i] + [secs[i]];
    forall k | first <= k < i + 1 ensures Holds(d3, secs[k], NewSector(was, pos, data, k)) {
      if k < i {
        assert Holds(d2, secs[k], NewSector(was, pos, data, k));
      }
    }
  }

  // The place of sector i in the buffer holds the new sector.
  lemma BufferSector(buf: seq<Byte>, first: nat, i: nat, at: nat, was: seq<Byte>, pos: nat, data: seq<Byte>)
    requires first <= i && at == Times(i - first, SectorSize) && at + SectorSize <= |buf|
    requires NewAll(buf, Times(first, SectorSize), was, pos, data)
    ensures Raw(buf[at..at + SectorSize]) == NewSector(was, pos, data, i)
  {
    TimesSub(first, i, SectorSize);
    var base, x := Times(first, SectorSize), NewSector(was, pos, data, i);
    forall r | 0 <= r < SectorSize ensures buf[at..at + SectorSize][r] == x.bytes[r] {
      assert buf[base + at + r - base] == NewByte(was, pos, data, Times(i, SectorSize) + r);
    }
  }

  // Writing a data sector leaves the header of the file as it was.
  lemma DataWriteKeepsHeader(d: Disk, h: Hdr, t: Tree, i: nat, x: Sector)
    requires Rep(d, h, t) && Shape(t) && Distinct(AllOf(t)) && Stored(d, DataOf(t)) && i < |DataOf(t)|
    ensures 0 <= DataOf(t)[i] < |d|
    ensures Rep(d[DataOf(t)[i] := x], h, t)
  {
    assert DataOf(t)[i] in DataOf(t);
    DataIndexApart(t);
    RepFrame(d, d[DataOf(t)[i] := x], h, t);
  }

  class OpenFile {
    const hdr: FileHeader
    const hdrSector: int
    var seekPosition: nat
    ghost const tree: Tree

    // The header in memory spells out the tree over the disk, and no sector occurs twice.
    ghost predicate Valid(disk: SynchDisk)
      reads this, hdr, hdr.dataSectors, disk
    {
      && hdr.Valid() && Rep(disk.sectors, hdr.View(), tree) && Shape(tree) && Distinct(AllOf(tree))
      && Stored(disk.sectors, DataOf(tree))
    }

    // The file as an array of bytes.
    ghost function Contents(disk: SynchDisk): seq<Byte>
      requires Valid(disk)
      reads this, hdr, hdr.dataSectors, disk
    {
      Flat(disk.sectors, tree)
    }

    constructor (disk: SynchDisk, sector: int, ghost t: Tree)
      requires 0 <= sector < |disk.sectors| && disk.sectors[sector].Header?
      requires Rep(disk.sectors, disk.sectors[sector].hdr, t) && Shape(t) && Distinct(AllOf(t))
      ensures Valid(disk) && tree == t && hdrSector == sector && seekPosition == 0
      ensures fresh(hdr) && fresh(hdr.dataSectors) && hdr.View() == disk.sectors[sector].hdr
    {
      var h := new FileHeader();
      h.FetchFrom(disk, sector);
      hdr, hdrSector, seekPosition, tree := h, sector, 0, t;
      RepStored(disk.sectors, disk.sectors[sector].hdr, t);
    }

    // Read and Write continue where the last transfer left off.
    method Read(disk: SynchDisk, numBytes: int) returns (n: nat, into: seq<Byte>)
      requires Valid(disk)
      modifies this
      ensures Valid(disk) && seekPosition == old(seekPosition) + n
      ensures n == Clip(numBytes, old(seekPosition), |Contents(disk)|) == |into|
      ensures n > 0 ==> into == Contents(disk)[old(seekPosition)..seekPosition]
    {
      n, into := ReadAt(disk, numBytes, seekPosition);
      seekPosition := seekPosition + n;
    }

    method Write(disk: SynchDisk, from: seq<Byte>, numBytes: int) returns (n: nat)
      requires Valid(disk) && numBytes <= |from|
      modifies this, disk
      ensures Valid(disk) && seekPosition == old(seekPosition) + n
      ensures n == Clip(numBytes, old(seekPosition), tree.bytes) <= |from|
      ensures n > 0 ==> seekPosition <= tree.bytes
      ensures Contents(disk) == if n == 0 then old(Contents(disk))
                                else Splice(old(Contents(disk)), old(seekPosition), from[..n])
    {
      n := WriteAt(disk, from, numBytes, seekPosition);
      seekPosition := seekPosition + n;
    }

    method ReadAt(disk: SynchDisk, numBytes: int, position: nat) returns (n: nat, into: seq<Byte>)
      requires Valid(disk)
      ensures n == Clip(numBytes, position, |Contents(disk)|) == |into|
      ensures n > 0 ==> into == Contents(disk)[position..position + n]
    {
      var fileLength := hdr.numBytes;
      if numBytes <= 0 || position >= fileLength {
        return 0, [];
      }
      n := if position + numBytes > fileLength then fileLength - position else numBytes;
      into := ReadClipped(disk, n, position);
    }

    // The request once it is known to lie inside the file.
    method ReadClipped(disk: SynchDisk, numBytes: nat, position: nat) returns (into: seq<Byte>)
      requires Valid(disk) && 0 < numBytes && position + numBytes <= tree.bytes
      ensures into == Contents(disk)[position..position + numBytes]
    {
      var firstSector := DivRoundDown(position, SectorSize);
      var lastSector := DivRoundDown(position + numBytes - 1, SectorSize);
      Range(position, numBytes, tree.bytes);
      var numSectors := 1 + lastSector - firstSector;
      var buf := ReadSectors(disk, firstSector, lastSector, numSectors);
      ghost var base, upto := Times(firstSector, SectorSize), Times(lastSector + 1, SectorSize);
      TimesSub(firstSector, lastSector + 1, SectorSize);
      BufferIsSlice(disk.sectors, tree, buf, base, upto, position, numBytes);
      var at := position - Times(firstSector, SectorSize);
      into := buf[at..at + numBytes];
    }

    // All full and partial sectors of a request, one after the other.
    method ReadSectors(disk: SynchDisk, firstSector: nat, lastSector: nat, numSectors: nat) returns (buf: seq<Byte>)
      requires Valid(disk) && firstSector <= lastSector && numSectors == 1 + lastSector - firstSector
      requires Times(lastSector, SectorSize) < tree.bytes
      ensures |buf| == Times(numSectors, SectorSize)
      ensures Holding(disk.sectors, DataOf(tree), buf, Times(firstSector, SectorSize), Times(lastSector + 1, SectorSize))
    {
      hide Rep, Shape, DataOf, AllOf, IndexOf, Distinct, BytesOf, Copy, Quot;
      buf := seq<Byte>(Times(numSectors, SectorSize), _ => 0);
      var i := firstSector;
      while i <= lastSector
        invariant firstSector <= i <= lastSector + 1
        invariant |buf| == Times(numSectors, SectorSize)
        invariant Holding(disk.sectors, DataOf(tree), buf, Times(firstSector, SectorSize), Times(i, SectorSize))
      {
        var sector := ReadPosition(disk, i, lastSector);
        var data := disk.ReadSector(sector);
        TimesMono(i - firstSector + 1, numSectors, SectorSize);
        var at := Times(i - firstSector, SectorSize);
        assert at + SectorSize == Times(i - firstSector + 1, SectorSize);
        ReadStep(disk.sectors, DataOf(tree), buf, firstSector, i, at, BytesOf(data));
        buf := Copy(buf, at, BytesOf(data));
        i := i + 1;
      }
    }

    // hdr->ByteToSector(i * SectorSize) for a sector of the request.
    method ReadPosition(disk: SynchDisk, i: nat, ghost last: nat) returns (sector: int)
      requires Valid(disk) && i <= last && Times(last, SectorSize) < tree.bytes
      ensures i < |DataOf(tree)| && sector == DataOf(tree)[i]
      ensures sector in DataOf(tree) && 0 <= sector < |disk.sectors|
    {
      TimesMono(i, last, SectorSize);
      UnitOffset(i, 0, SectorSize);
      sector := hdr.ByteToSector(disk, Times(i, SectorSize), tree);
      assert sector in DataOf(tree);
    }

    // Writes what fits; the file is then the old one with that data put over it, and no
    // other sector of the disk changes.
    method WriteAt(disk: SynchDisk, from: seq<Byte>, numBytes: int, position: nat) returns (n: nat)
      requires Valid(disk) && numBytes <= |from|
      modifies disk
      ensures n == Clip(numBytes, position, tree.bytes) <= |from|
      ensures n == 0 ==> disk.sectors == old(disk.sectors)
      ensures n > 0 ==> position + n <= tree.bytes
      ensures n > 0 ==> Written(old(disk.sectors), disk.sectors, tree, position, from[..n])
      ensures Valid(disk)
      ensures Contents(disk) == if n == 0 then old(Contents(disk)) else Splice(old(Contents(disk)), position, from[..n])
    {
      var fileLength := hdr.numBytes;
      if numBytes <= 0 || position >= fileLength {
        return 0;
      }
      n := if position + numBytes > fileLength then fileLength - position else numBytes;
      ghost var before := disk.sectors;
      WriteClipped(disk, from[..n], position);
      DataIndexApart(tree);
      WrittenFlat(before, disk.sectors, tree, position, from[..n]);
    }

    // The request once it is known to lie inside the file.
    method WriteClipped(disk: SynchDisk, from: seq<Byte>, position: nat)
      requires Valid(disk) && 0 < |from| && position + |from| <= tree.bytes
      modifies disk
      ensures Written(old(disk.sectors), disk.sectors, tree, position, from)
      ensures Valid(disk)
    {
      hide Flat, DataOf, AllOf, IndexOf, Shape, Rep, Distinct, Stored, OldAround, Splice;
      var firstSector := DivRoundDown(position, SectorSize);
      var lastSector := DivRoundDown(position + |from| - 1, SectorSize);
      Range(position, |from|, tree.bytes);
      var buf := Prepare(disk, firstSector, lastSector, position, |from|);
      ghost var was := Contents(disk);
      Changed(buf, Times(firstSector, SectorSize), was, position, from);
      buf := Copy(buf, position - Times(firstSector, SectorSize), from);
      ghost var before := disk.sectors;
      WriteSectors(disk, buf, firstSector, lastSector, position, from, was);
      AllWritten(before, disk.sectors, tree, position, from);
    }

    // ReadAt of one sector, clipped to the file, into its zeroed place in the buffer.
    method ReadOld(disk: SynchDisk, buf: seq<Byte>, base: nat, k: nat, at: nat) returns (r: seq<Byte>)
      requires Valid(disk) && base + at == Times(k, SectorSize) && Zero(buf, at, at + SectorSize)
      ensures |r| == |buf| && SectorOld(r, base, Contents(disk), k)
      ensures forall j :: 0 <= j < |buf| && (j < at || at + SectorSize <= j) ==> r[j] == buf[j]
    {
      var n, into := ReadAt(disk, SectorSize, base + at);
      SectorRead(buf, base, Contents(disk), k, at, into);
      r := Copy(buf, at, into);
    }

    // A zeroed buffer with the old bytes of the partially written sectors read into it.
    method Prepare(disk: SynchDisk, firstSector: nat, lastSector: nat, position: nat, numBytes: nat) returns (buf: seq<Byte>)
      requires Valid(disk) && 0 < numBytes && position + numBytes <= tree.bytes
      requires firstSector == Quot(position, SectorSize) && lastSector == Quot(position + numBytes - 1, SectorSize)
      ensures firstSector <= lastSector && |buf| == Times(1 + lastSector - firstSector, SectorSize)
      ensures Times(firstSector, SectorSize) <= position && position - Times(firstSector, SectorSize) + numBytes <= |buf|
      ensures OldAround(buf, Times(firstSector, SectorSize), Contents(disk), position, numBytes)
    {
      Range(position, numBytes, tree.bytes);
      var base, top := Times(firstSector, SectorSize), Times(lastSector, SectorSize);
      TimesSub(firstSector, lastSector, SectorSize);
      TimesSub(firstSector, lastSector + 1, SectorSize);
      ghost var was := Contents(disk);
      buf := seq<Byte>(Times(1 + lastSector - firstSector, SectorSize), _ => 0);
      var firstAligned := position == base;
      var lastAligned := position + numBytes == Times(lastSector + 1, SectorSize);
      if !firstAligned {
        buf := ReadOld(disk, buf, base, firstSector, 0);
      }
      if !lastAligned && (firstSector != lastSector || firstAligned) {
        buf := ReadOld(disk, buf, base, lastSector, top - base);
      }
      AroundFromSectors(buf, base, was, position, numBytes, firstSector, lastSector);
    }

    // One round: sector i of the file gets its new bytes.
    method WriteSector(disk: SynchDisk, buf: seq<Byte>, firstSector: nat, i: nat, lastSector: nat,
                       ghost position: nat, ghost from: seq<Byte>, ghost was: seq<Byte>, ghost before: Disk)
      requires Valid(disk) && firstSector <= i <= lastSector && Times(lastSector, SectorSize) < tree.bytes
      requires |buf| == Times(1 + lastSector - firstSector, SectorSize)
      requires NewAll(buf, Times(firstSector, SectorSize), was, position, from)
      requires WrittenUpTo(before, disk.sectors, DataOf(tree), firstSector, i, position, from, was)
      modifies disk
      ensures Valid(disk) && i + 1 <= |DataOf(tree)|
      ensures WrittenUpTo(before, disk.sectors, DataOf(tree), firstSector, i + 1, position, from, was)
    {
      var sector := ReadPosition(disk, i, lastSector);
      var at := Times(i - firstSector, SectorSize);
      TimesMono(i - firstSector + 1, 1 + lastSector - firstSector, SectorSize);
      BufferSector(buf, firstSector, i, at, was, position, from);
      WrittenNext(before, disk.sectors, tree, hdr.View(), firstSector, i, position, from, was);
      var ok := disk.WriteSector(sector, Raw(buf[at..at + SectorSize]));
    }

    // Write modified sectors back.
    method WriteSectors(disk: SynchDisk, buf: seq<Byte>, firstSector: nat, lastSector: nat,
                        ghost position: nat, ghost from: seq<Byte>, ghost was: seq<Byte>)
      requires Valid(disk) && firstSector <= lastSector && Times(lastSector, SectorSize) < tree.bytes
      requires |buf| == Times(1 + lastSector - firstSector, SectorSize)
      requires NewAll(buf, Times(firstSector, SectorSize), was, position, from)
      modifies disk
      ensures WrittenUpTo(old(disk.sectors), disk.sectors, DataOf(tree), firstSector, lastSector + 1, position, from, was)
      ensures Valid(disk)
    {
      ghost var before := disk.sectors;
      var i := firstSector;
      while i <= lastSector
        invariant firstSector <= i <= lastSector + 1
        invariant Valid(disk)
        invariant i > firstSector ==> i <= |DataOf(tree)|
        invariant WrittenUpTo(before, disk.sectors, DataOf(tree), firstSector, i, position, from, was)
      {
        WriteSector(disk, buf, firstSector, i, lastSector, position, from, was, before);
        i := i + 1;
      }
    }
  }

  lemma BufferIsSlice(disk: Disk, t: Tree, buf: seq<Byte>, base: nat, upto: nat, pos: nat, n: nat)
    requires Shape(t) && Holding(disk, DataOf(t), buf, base, upto) && upto <= base + |buf|
    requires base <= pos && pos + n <= upto && pos + n <= t.bytes
    ensures buf[pos - base..pos - base + n] == Flat(disk, t)[pos..pos + n]
  {
    forall o | pos <= o < pos + n ensures buf[o - base] == Flat(disk, t)[o] {
      DataSize(t);
      QuotBelowCeil(o, t.bytes, SectorSize);
      assert HoldsByte(disk, DataOf(t), buf, base, o);
    }
    SliceEqual(buf, Flat(disk, t), base, pos, n);
  }

  lemma SliceEqual(a: seq<Byte>, b: seq<Byte>, base: nat, pos: nat, n: nat)
    requires base <= pos && pos - base + n <= |a| && pos + n <= |b|
    requires forall o :: pos <= o < pos + n ==> a[o - base] == b[o]
    ensures a[pos - base..pos - base + n] == b[pos..pos + n]
  {
    var x, y := a[pos - base..pos - base + n], b[pos..pos + n];
    forall k | 0 <= k < n ensures x[k] == y[k] {
      assert a[pos + k - base] == b[pos + k];
    }
  }
}
