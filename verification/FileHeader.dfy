/** The class FileHeader of NachOS/filesys/filehdr.cc, over the disk it is stored on. Each
    method is proved against the specification functions of HeaderTree and HeaderLookup. */
module FileHeaders {
  import opened Geometry
  import opened BitSpec
  import opened Bitmaps
  import opened HeaderTree
  import opened HeaderLookup

  // The disk as the rest of the kernel sees it: whole sectors, read and written one at a time.
  class SynchDisk {
    var sectors: Disk

    method ReadSector(sector: int) returns (data: Sector)
      requires 0 <= sector < |sectors|
      ensures data == sectors[sector]
    {
      data := sectors[sector];
    }

    // False stands for the failed assertion of the device on a sector number out of range.
    method WriteSector(sector: int, data: Sector) returns (ok: bool)
      modifies this
      ensures ok <==> 0 <= sector < |old(sectors)|
      ensures sectors == if ok then old(sectors)[sector := data] else old(sectors)
    {
      ok := 0 <= sector < |sectors|;
      if ok {
        sectors := sectors[sector := data];
      }
    }
  }

  // The loop condition lets fileSize go below zero; what is left to allocate does not.
  function Left(size: int): nat {
    if size > 0 then size else 0
  }

  lemma KidsFitIfAny(bytes: nat)
    requires bytes <= MaxBytes
    ensures bytes > Limit2 ==> Ceil(bytes, Span(bytes)) <= NumDirect
  {
    if bytes > Limit2 {
      KidsFit(bytes);
    }
  }

  // The sectors in done are the first |done| of the k lowest clear bits, and are now marked.
  ghost predicate TakingUpTo(bits0: Bits, k: nat, done: seq<int>, bits: Bits) {
    && |done| <= k <= ClearCount(bits0)
    && bits == Mark(bits0, done)
    && k - |done| <= ClearCount(bits)
    && Take(bits0, k) == done + Take(bits, k - |done|)
  }

  lemma TakeOneMore(bits0: Bits, k: nat, done: seq<int>, bits: Bits)
    requires TakingUpTo(bits0, k, done, bits) && |done| < k
    ensures HasClear(bits)
    ensures TakingUpTo(bits0, k, done + [First(bits) as int], bits[First(bits) := true])
  {
    CountMark(bits);
    var s := First(bits);
    var rest := Take(bits[s := true], k - |done| - 1);
    assert Take(bits, k - |done|) == [s as int] + rest;
    assert done + ([s as int] + rest) == (done + [s as int]) + rest;
    assert bits[s := true] == Mark(bits0, done + [s as int]);
  }

  datatype Ending = Finished | BadAccess | PastTable

  datatype Status = Refusal | Success | Abort

  class FileHeader {
    var numBytes: int
    var numSectors: int
    const dataSectors: array<int>

    ghost predicate Valid() {
      dataSectors.Length == NumDirect
    }

    function View(): Hdr
      reads this, dataSectors
    {
      Hdr(numBytes, numSectors, dataSectors[..])
    }

    constructor ()
      ensures Valid() && fresh(dataSectors)
      ensures View() == Hdr(-1, -1, seq(NumDirect, _ => -1))
    {
      numBytes, numSectors := -1, -1;
      dataSectors := new int[NumDirect](_ => -1);
    }

    // Initialise a fresh header for a file of fileSize bytes, taking sectors out of freeMap.
    method Allocate(freeMap: Bitmap, disk: SynchDisk, fileSize: nat) returns (r: Status)
      requires Valid() && freeMap.Valid() && |disk.sectors| == freeMap.numBits
      requires View().dataSectors == seq(NumDirect, _ => -1)
      requires fileSize <= MaxBytes
      modifies this, dataSectors, freeMap.words, disk
      ensures |disk.sectors| == freeMap.numBits
      ensures var o := Alloc(fileSize, old(freeMap.View()), old(disk.sectors));
        match r
        case Refusal => o == Refused(View(), freeMap.View(), disk.sectors)
        case Success => o == Done(View(), freeMap.View(), disk.sectors)
        case Abort => o == Aborted
      decreases fileSize, 0
    {
      numBytes := fileSize;
      numSectors := DivRoundUp(fileSize, SectorSize);
      var clear := freeMap.NumClear();
      if clear < numSectors {
        return Refusal;
      }
      LimitFacts();
      KidsFitIfAny(fileSize);
      if fileSize > Limit4 {
        r := AllocateChildren(freeMap, disk, fileSize, Limit4);
      } else if fileSize > Limit3 {
        r := AllocateChildren(freeMap, disk, fileSize, Limit3);
      } else if fileSize > Limit2 {
        r := AllocateChildren(freeMap, disk, fileSize, Limit2);
      } else {
        AllocateSectors(freeMap, fileSize);
        r := Success;
      }
    }

    // The loop of the three multi-level branches, which differ in the limit alone.
    method AllocateChildren(freeMap: Bitmap, disk: SynchDisk, fileSize: nat, limit: Positive) returns (r: Status)
      requires Valid() && freeMap.Valid() && |disk.sectors| == freeMap.numBits
      requires limit < fileSize <= MaxBytes && Ceil(fileSize, limit) <= NumDirect
      modifies this, dataSectors, freeMap.words, disk
      ensures |disk.sectors| == freeMap.numBits
      ensures var o := AllocAll(old(View()), limit, fileSize, 0, old(freeMap.View()), old(disk.sectors));
        match r
        case Refusal => false
        case Success => o == Done(View(), freeMap.View(), disk.sectors)
        case Abort => o == Aborted
      decreases limit, 2
    {
      ghost var o := AllocAll(View(), limit, fileSize, 0, freeMap.View(), disk.sectors);
      var size, i: nat := fileSize, 0;
      while size > 0
        invariant |disk.sectors| == freeMap.numBits
        invariant i + Ceil(Left(size), limit) <= NumDirect
        invariant AllocAll(View(), limit, Left(size), i, freeMap.View(), disk.sectors) == o
        decreases size
      {
        var ok := AllocateChild(freeMap, disk, size, i, limit);
        if !ok {
          return Abort;
        }
        size := size - limit;
        i := i + 1;
      }
      return Success;
    }

    // The body of that loop: one sector for a child header, the child, and its write-back.
    method AllocateChild(freeMap: Bitmap, disk: SynchDisk, size: nat, i: nat, limit: Positive) returns (ok: bool)
      requires Valid() && freeMap.Valid() && |disk.sectors| == freeMap.numBits
      requires size > 0 && limit < MaxBytes && i + Ceil(size, limit) <= NumDirect
      modifies this, dataSectors, freeMap.words, disk
      ensures |disk.sectors| == freeMap.numBits && i + 1 + Ceil(size - Chunk(size, limit), limit) <= NumDirect
      ensures var o := AllocAll(old(View()), limit, size, i, old(freeMap.View()), old(disk.sectors));
              o == if ok then AllocAll(View(), limit, size - Chunk(size, limit), i + 1, freeMap.View(), disk.sectors)
                   else Aborted
      decreases limit, 1
    {
      ghost var hdr1, bits1, disk1 := View(), freeMap.View(), disk.sectors;
      var s := freeMap.FindAndSet();
      ghost var bits2 := freeMap.View();
      dataSectors[i] := s;
      var subhdr := new FileHeader();
      var sub := subhdr.Allocate(freeMap, disk, if size > limit then limit else size);
      AllocAllRound(hdr1, limit, size, i, bits1, disk1, s, bits2, Alloc(Chunk(size, limit), bits2, disk1));
      if sub == Abort {
        return false;
      }
      ok := subhdr.WriteBack(disk, dataSectors[i]);
      assert View() == hdr1.(dataSectors := hdr1.dataSectors[i := s]);
    }

    // The loop of the one-level branch.
    method AllocateSectors(freeMap: Bitmap, fileSize: nat)
      requires Valid() && freeMap.Valid() && fileSize <= Limit2
      requires numSectors == Ceil(fileSize, SectorSize) <= ClearCount(freeMap.View())
      requires dataSectors[..] == seq(NumDirect, _ => -1)
      modifies dataSectors, freeMap.words
      ensures numSectors <= NumDirect
      ensures dataSectors[..] == Take(old(freeMap.View()), numSectors) + seq(NumDirect - numSectors, _ => -1)
      ensures freeMap.View() == Mark(old(freeMap.View()), Take(old(freeMap.View()), numSectors))
    {
      LeafFits(fileSize);
      ghost var bits0 := freeMap.View();
      assert Mark(bits0, []) == bits0;
      var i := 0;
      while i < numSectors
        invariant 0 <= i <= numSectors
        invariant TakingUpTo(bits0, numSectors, dataSectors[..i], freeMap.View())
        invariant forall j :: i <= j < NumDirect ==> dataSectors[j] == -1
      {
        ghost var done := dataSectors[..i];
        TakeOneMore(bits0, numSectors, done, freeMap.View());
        var s := freeMap.FindAndSet();
        dataSectors[i] := s;
        assert dataSectors[..i + 1] == done + [s];
        i := i + 1;
      }
    }

    // Store this header in one sector.
    method WriteBack(disk: SynchDisk, sector: int) returns (ok: bool)
      modifies disk
      ensures ok <==> 0 <= sector < |old(disk.sectors)|
      ensures disk.sectors == if ok then old(disk.sectors)[sector := Header(View())] else old(disk.sectors)
    {
      ok := disk.WriteSector(sector, Header(View()));
    }

    // Read this header from the sector it is stored in.
    method FetchFrom(disk: SynchDisk, sector: int)
      requires Valid() && 0 <= sector < |disk.sectors| && disk.sectors[sector].Header?
      requires |disk.sectors[sector].hdr.dataSectors| == NumDirect
      modifies this, dataSectors
      ensures View() == disk.sectors[sector].hdr
    {
      var h := disk.sectors[sector].hdr;
      numBytes, numSectors := h.numBytes, h.numSectors;
      forall i | 0 <= i < NumDirect {
        dataSectors[i] := h.dataSectors[i];
      }
      assert dataSectors[..] == h.dataSectors;
    }

    // The disk sector that stores a byte of the file.
    method ByteToSector(disk: SynchDisk, offset: nat, ghost t: Tree) returns (s: int)
      requires Valid() && Rep(disk.sectors, View(), t) && Shape(t) && offset < t.bytes
      ensures Quot(offset, SectorSize) < |DataOf(t)|
      ensures s == DataOf(t)[Quot(offset, SectorSize)]
      decreases t.bytes, 0
    {
      LimitFacts();
      DataSize(t);
      QuotBelowCeil(offset, t.bytes, SectorSize);
      if numBytes > Limit4 {
        s := ByteInChild(disk, offset, Limit4, t);
      } else if numBytes > Limit3 {
        s := ByteInChild(disk, offset, Limit3, t);
      } else if numBytes > Limit2 {
        s := ByteInChild(disk, offset, Limit2, t);
      } else {
        s := dataSectors[DivRoundDown(offset, SectorSize)];
      }
    }

    // The body of the three multi-level branches, which differ in the limit alone.
    method ByteInChild(disk: SynchDisk, offset: nat, limit: Positive, ghost t: Tree) returns (s: int)
      requires Valid() && Rep(disk.sectors, View(), t) && Shape(t) && offset < t.bytes
      requires t.Node? && limit == Span(t.bytes)
      ensures Quot(offset, SectorSize) < |DataOf(t)|
      ensures s == DataOf(t)[Quot(offset, SectorSize)]
      decreases limit, 1
    {
      ghost var kid := ChildAt(disk.sectors, dataSectors[..], 0, t.kids, limit, t.bytes, offset);
      var which := DivRoundDown(offset, limit);
      RestOf(offset, limit);
      var subhdr := new FileHeader();
      subhdr.FetchFrom(disk, dataSectors[which]);
      s := subhdr.ByteToSector(disk, offset - limit * which, kid);
    }

    // Give the sectors of the file back to freeMap.
    method Deallocate(freeMap: Bitmap, disk: SynchDisk, ghost t: Tree) returns (r: Ending)
      requires Valid() && freeMap.Valid() && |disk.sectors| == freeMap.numBits
      requires Rep(disk.sectors, View(), t) && Shape(t)
      modifies freeMap.words
      ensures var o := Dealloc(disk.sectors, View(), t, old(freeMap.View()));
        match r
        case Finished => o == Freed(freeMap.View())
        case BadAccess => o == BadSector
        case PastTable => o == Overrun
      decreases t, 0
    {
      if numBytes > Limit2 {
        r := DeallocateChildren(freeMap, disk, t);
      } else {
        r := DeallocateSectors(freeMap, t.sectors);
      }
    }

    // The loop of the one-level branch: each data sector has to be marked, and is cleared.
    method DeallocateSectors(freeMap: Bitmap, ghost secs: seq<int>) returns (r: Ending)
      requires Valid() && freeMap.Valid()
      requires numSectors == |secs| <= NumDirect && dataSectors[..|secs|] == secs
      requires forall x :: x in secs ==> 0 <= x < freeMap.numBits
      modifies freeMap.words
      ensures var o := DeallocSectors(secs, old(freeMap.View()));
        match r
        case Finished => o == Freed(freeMap.View())
        case BadAccess => o == BadSector
        case PastTable => false
    {
      ghost var o := DeallocSectors(secs, freeMap.View());
      var i := 0;
      while i < numSectors
        invariant 0 <= i <= numSectors
        invariant forall x :: x in secs[i..] ==> x in secs
        invariant DeallocSectors(secs[i..], freeMap.View()) == o
      {
        assert dataSectors[i] == dataSectors[..|secs|][i] == secs[i] && secs[i] in secs;
        assert secs[i..][1..] == secs[i + 1..];
        var marked := freeMap.Test(dataSectors[i]);
        if !marked {
          return BadAccess;
        }
        freeMap.Clear(dataSectors[i]);
        i := i + 1;
      }
      r := Finished;
    }

    // The loop of the three multi-level branches.
    method DeallocateChildren(freeMap: Bitmap, disk: SynchDisk, ghost t: Tree) returns (r: Ending)
      requires Valid() && freeMap.Valid() && |disk.sectors| == freeMap.numBits
      requires Rep(disk.sectors, View(), t) && Shape(t) && t.Node?
      modifies freeMap.words
      ensures var o := Dealloc(disk.sectors, View(), t, old(freeMap.View()));
        match r
        case Finished => o == Freed(freeMap.View())
        case BadAccess => o == BadSector
        case PastTable => o == Overrun
      decreases t, -1
    {
      ghost var f := t.kids;
      ghost var o := Dealloc(disk.sectors, View(), t, freeMap.View());
      ShapesAll(f, Span(t.bytes), t.bytes);
      var i: nat := 0;
      while i < DivRoundUp(numSectors, NumDirect)
        invariant RepAll(disk.sectors, dataSectors[..], i, f) && ShapesOf(f) && (f < t || f == t.kids)
        invariant DeallocAll(disk.sectors, View(), i, f, freeMap.View()) == o
      {
        if i >= NumDirect {
          return PastTable;
        }
        if dataSectors[i] < 0 {
          return BadAccess;
        }
        var subhdr := new FileHeader();
        subhdr.FetchFrom(disk, dataSectors[i]);
        var sub := subhdr.Deallocate(freeMap, disk, f.tree);
        if sub != Finished {
          return sub;
        }
        f := f.rest;
        i := i + 1;
      }
      r := Finished;
    }
  }
}
