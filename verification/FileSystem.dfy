/** The class FileSystem of NachOS/filesys/filesys.cc. Each operation keeps the invariant of
    Volumes and takes the step of VolumeRuns that its name says. */
module FileSystems {
  import opened BitSpec
  import opened Bitmaps
  import opened ByteCodec
  import opened Directories
  import opened DirectoryTable
  import opened FileHeaders
  import opened Geometry
  import opened HeaderLookup
  import opened HeaderTree
  import opened OpenFiles
  import opened Paths
  import PersistentBitmaps
  import opened Sequences
  import opened VolumeDisk
  import opened VolumeRuns
  import opened Volumes

  // ---- the class ----------------------------------------------------------------------

  // A file opened earlier can be used as long as its header stands where it stood.
  lemma StillValid(file: OpenFile, disk: SynchDisk, s: int, t: Tree)
    requires Opened(file, disk.sectors, s, t) && FileOk(disk.sectors, s, t)
    ensures file.Valid(disk)
  {
    DistinctClaim(s, t);
  }

  lemma WordsOfMap(n: nat)
    ensures DivRoundUp(32 * n, BitsInWord) == n
  {
    CeilAddMultiple(n, 32 * n, 0, BitsInWord);
  }

  // new PersistentBitmap(freeMapFile, NumSectors)
  method LoadFreeMap(disk: SynchDisk, freeMapFile: OpenFile, ghost v: Volume) returns (freeMap: Bitmap)
    requires Inv(disk.sectors, v) && FreeMapSector in v.files
    requires Opened(freeMapFile, disk.sectors, FreeMapSector, v.files[FreeMapSector].tree)
    ensures fresh(freeMap) && fresh(freeMap.words) && IsFreeMap(freeMap) && freeMap.View() == v.bits
  {
    WordsOfMap(NumWords);
    freeMap := new Bitmap(NumSectors);
    StillValid(freeMapFile, disk, FreeMapSector, v.files[FreeMapSector].tree);
    PersistentBitmaps.FetchFrom(freeMap, disk, freeMapFile);
  }

  ghost predicate IsFreeMap(freeMap: Bitmap) {
    freeMap.Valid() && freeMap.numBits == NumSectors && freeMap.words.Length == NumWords
  }

  // directory->WriteBack(file) and freeMap->WriteBack(freeMapFile)
  method FlushBoth(disk: SynchDisk, directory: Directory, file: OpenFile, freeMap: Bitmap, freeMapFile: OpenFile,
                   ghost files: Files, ghost d: int)
    requires Layout(disk.sectors, files) && d in files && files[d].isDir && d != FreeMapSector
    requires Opened(file, disk.sectors, d, files[d].tree) && directory.table.Length == NumDirEntries
    requires Opened(freeMapFile, disk.sectors, FreeMapSector, files[FreeMapSector].tree) && IsFreeMap(freeMap)
    modifies disk
    ensures Flushed(old(disk.sectors), disk.sectors, files, d, directory.View(), freeMap.View())
  {
    hide Rep, Shape, DataOf, Claim, Distinct, Apart, Flat, DecodeTable, PersistentBitmaps.StoredBits, Written, EncodeTable;
    ghost var d1 := disk.sectors;
    StillValid(file, disk, d, files[d].tree);
    directory.WriteBack(disk, file);
    ghost var d2 := disk.sectors;
    Rewrite(d1, d2, files, d, EncodeTable(directory.View()));
    StillValid(freeMapFile, disk, FreeMapSector, files[FreeMapSector].tree);
    PersistentBitmaps.WriteBack(freeMap, disk, freeMapFile);
    FlushedBoth(d1, d2, disk.sectors, files, d, directory.View(), freeMapFile.Contents(disk));
  }

  // The same in the order of Remove: the free map first.
  method FlushMapFirst(disk: SynchDisk, directory: Directory, file: OpenFile, freeMap: Bitmap, freeMapFile: OpenFile,
                       ghost files: Files, ghost d: int)
    requires Layout(disk.sectors, files) && d in files && files[d].isDir && d != FreeMapSector
    requires Opened(file, disk.sectors, d, files[d].tree) && directory.table.Length == NumDirEntries
    requires Opened(freeMapFile, disk.sectors, FreeMapSector, files[FreeMapSector].tree) && IsFreeMap(freeMap)
    modifies disk
    ensures Flushed(old(disk.sectors), disk.sectors, files, d, directory.View(), freeMap.View())
  {
    hide Rep, Shape, DataOf, Claim, Distinct, Apart, Flat, DecodeTable, PersistentBitmaps.StoredBits, Written, EncodeTable;
    ghost var d1 := disk.sectors;
    StillValid(freeMapFile, disk, FreeMapSector, files[FreeMapSector].tree);
    PersistentBitmaps.WriteBack(freeMap, disk, freeMapFile);
    ghost var d2, map0 := disk.sectors, freeMapFile.Contents(disk);
    Rewrite(d1, d2, files, FreeMapSector, map0);
    StillValid(file, disk, d, files[d].tree);
    directory.WriteBack(disk, file);
    TableWritten(d2, disk.sectors, files, d, directory.View());
  }


  // In a sane volume a name is missing exactly when Find answers -1.
  lemma FindMissing(v: Volume, d: int, name: Str)
    requires Sane(v) && d in v.tables
    ensures Find(v.tables[d], name) == -1 <==> Index(v.tables[d], name) == -1
    ensures Find(v.tables[d], name) != -1 ==> Find(v.tables[d], name) in v.files && Find(v.tables[d], name) > DirectorySector
    ensures Index(v.tables[d], name) >= 0 ==>
      Find(v.tables[d], name) in v.files
      && v.files[Find(v.tables[d], name)].isDir == v.tables[d][Index(v.tables[d], name)].isDirectory
  {
    var i := Index(v.tables[d], name);
    if i >= 0 {
      assert Ref(v.tables, d, i);
      assert RefOk(v.files, d, v.tables[d][i]);
    }
  }

  // A refused allocation changes nothing.
  lemma RefusedUnchanged(bytes: nat, bits: Bits, disk: Disk)
    requires |bits| == |disk| && bytes <= MaxBytes && Alloc(bytes, bits, disk).Refused?
    ensures Alloc(bytes, bits, disk).disk == disk && Alloc(bytes, bits, disk).bits == bits && ClearCount(bits) < Ceil(bytes, SectorSize)
  {
    RefusedIff(bytes, bits, disk);
  }

  // freeMap with the two header sectors marked, and nothing else.
  method FreshMap() returns (freeMap: Bitmap)
    ensures fresh(freeMap) && fresh(freeMap.words) && IsFreeMap(freeMap) && freeMap.View() == FreshBits()
  {
    WordsOfMap(NumWords);
    freeMap := new Bitmap(NumSectors);
    freeMap.Mark(FreeMapSector);
    freeMap.Mark(DirectorySector);
    assert freeMap.View() == FreshBits();
  }

  // The body of the formatting branch.
  method FormatDrive(d: SynchDisk) returns (freeMapFile: OpenFile, directoryFile: OpenFile, ghost v: Volume)
    requires |d.sectors| == NumSectors && FreeMapFileSize <= MaxBytes && DirectoryFileSize <= MaxBytes
    requires 2 + Need(FreeMapFileSize) + Need(DirectoryFileSize) <= NumSectors
    modifies d
    ensures fresh(freeMapFile) && fresh(directoryFile) && Inv(d.sectors, v)
    ensures Opened(freeMapFile, d.sectors, FreeMapSector, v.files[FreeMapSector].tree)
    ensures Opened(directoryFile, d.sectors, DirectorySector, v.files[DirectorySector].tree)
    ensures v.files.Keys == {FreeMapSector, DirectorySector} && v.data == map[]
    ensures NoneInUse(v.tables[DirectorySector])
    ensures forall x :: 0 <= x < NumSectors && v.bits[x] ==>
      x in Claim(FreeMapSector, v.files[FreeMapSector].tree) || x in Claim(DirectorySector, v.files[DirectorySector].tree)
  {
    hide Rep, Shape, DataOf, AllOf, Claim, Distinct, Apart, Flat, Alloc, Marked, Inv, Opened, Flushed, PersistentBitmaps.StoredBits;
    ghost var d0 := d.sectors;
    ghost var t0, t1, o0, o1, d3, files := FormatDisk(d0);
    var freeMap := AllocateBoth(d, t0, t1, o0, o1, d3, files);
    var directory := new Directory(NumDirEntries);
    freeMapFile, directoryFile := OpenBoth(d, files);
    FlushMapFirst(d, directory, directoryFile, freeMap, freeMapFile, files, DirectorySector);
    v := FormatDone(d0, t0, t1, o0, o1, d3, d.sectors, files, directory.View());
    assert FreeMapSector in files && DirectorySector in files;
    InvFacts(d.sectors, v);
    StillOpened(freeMapFile, d3, d.sectors, FreeMapSector, files[FreeMapSector].tree);
    StillOpened(directoryFile, d3, d.sectors, DirectorySector, files[DirectorySector].tree);
  }

  lemma StillOpened(file: OpenFile, d1: Disk, d2: Disk, s: int, t: Tree)
    requires Opened(file, d1, s, t) && |d2| == |d1| && d2[s] == d1[s]
    ensures Opened(file, d2, s, t)
  {
  }

  // Space for both files, and their headers on the disk.
  method AllocateBoth(d: SynchDisk, ghost t0: Tree, ghost t1: Tree, ghost o0: Outcome, ghost o1: Outcome,
                      ghost d3: Disk, ghost files: Files) returns (freeMap: Bitmap)
    requires |d.sectors| == NumSectors && FreeMapFileSize <= MaxBytes && DirectoryFileSize <= MaxBytes
    requires Formatted(d.sectors, t0, t1, o0, o1, FreshBits(), d3, files)
    modifies d
    ensures fresh(freeMap) && fresh(freeMap.words) && IsFreeMap(freeMap)
    ensures d.sectors == d3 && freeMap.View() == o1.bits
  {
    hide Alloc, Layout, Marked, FreshBits;
    freeMap := FreshMap();
    var mapHdr := new FileHeader();
    var dirHdr := new FileHeader();
    var r0 := mapHdr.Allocate(freeMap, d, FreeMapFileSize);
    assert r0 == Success;
    var r1 := dirHdr.Allocate(freeMap, d, DirectoryFileSize);
    assert r1 == Success;
    var w0 := mapHdr.WriteBack(d, FreeMapSector);
    var w1 := dirHdr.WriteBack(d, DirectorySector);
  }

  method OpenBoth(d: SynchDisk, ghost files: Files) returns (freeMapFile: OpenFile, directoryFile: OpenFile)
    requires Layout(d.sectors, files)
    ensures fresh(freeMapFile) && fresh(directoryFile) && fresh(freeMapFile.hdr) && fresh(directoryFile.hdr)
    ensures fresh(freeMapFile.hdr.dataSectors) && fresh(directoryFile.hdr.dataSectors)
    ensures Opened(freeMapFile, d.sectors, FreeMapSector, files[FreeMapSector].tree)
    ensures Opened(directoryFile, d.sectors, DirectorySector, files[DirectorySector].tree)
  {
    freeMapFile := OpenAt(d, FreeMapSector, files[FreeMapSector].tree);
    directoryFile := OpenAt(d, DirectorySector, files[DirectorySector].tree);
  }

  lemma InvFacts(disk: Disk, v: Volume)
    requires Inv(disk, v)
    ensures Sane(v) && Stores(disk, v) && Layout(disk, v.files)
    ensures |disk| == NumSectors == |v.bits|
    ensures FreeMapSector in v.files && DirectorySector in v.files && DirectorySector in v.tables
    ensures -1 !in v.tables && -1 !in v.files && FreeMapSector !in v.tables
    ensures forall d :: d in v.tables ==> d in v.files && v.files[d].isDir && |v.tables[d]| == NumDirEntries
  {
  }

  // hdr->Allocate(freeMap, size) for a new file, whose header sector freeMap has marked.
  method AllocateFile(disk: SynchDisk, freeMap: Bitmap, ghost v: Volume, size: nat, ghost isDir: bool, ghost d: int)
    returns (ok: bool, hdr: FileHeader, ghost b: Birth)
    requires Inv(disk.sectors, v) && d in v.files && IsFreeMap(freeMap)
    requires HasClear(v.bits) && freeMap.View() == v.bits[First(v.bits) := true]
    requires size <= MaxBytes && (isDir ==> size == DirectoryFileSize)
    requires ClearCount(v.bits) <= Ceil(size, SectorSize) || ClearCount(v.bits) > Need(size)
    modifies disk, freeMap.words
    ensures fresh(hdr) && fresh(hdr.dataSectors) && hdr.Valid()
    ensures ok <==> ClearCount(v.bits) > Need(size)
    ensures !ok ==> disk.sectors == old(disk.sectors)
    ensures ok ==> NewFile(old(disk.sectors), v, size, isDir, d, b)
    ensures ok ==> Done(hdr.View(), freeMap.View(), disk.sectors) == b.outcome
  {
    hide Inv, Rep, Shape, DataOf, Claim, Apart, Flat, Alloc, Layout, FirstFit;
    InvFacts(disk.sectors, v);
    hdr := new FileHeader();
    CountMark(v.bits);
    NeedCoversData(size);
    if ClearCount(v.bits) > Need(size) {
      b := Grow(disk.sectors, v, size, isDir, d);
    } else {
      b := Birth(0, Leaf(0, []), Aborted, map[]);
      RefusedIff(size, freeMap.View(), disk.sectors);
      RefusedUnchanged(size, freeMap.View(), disk.sectors);
    }
    var r := hdr.Allocate(freeMap, disk, size);
    ok := r != Refusal;
  }

  // A file that was open stays usable when the disk grows by a new file.
  lemma OpenedBorn(file: OpenFile, disk: Disk, v: Volume, size: nat, isDir: bool, d: int, b: Birth, s: int)
    requires NewFile(disk, v, size, isDir, d, b)
    requires s in v.files && Opened(file, disk, s, v.files[s].tree)
    ensures s in b.files && b.files[s] == v.files[s] && Opened(file, BornDisk(b), s, v.files[s].tree)
  {
    hide Inv, Rep, Shape, DataOf, Claim, Apart, Flat, Alloc, Layout, FirstFit;
  }

  // hdr->WriteBack(sector), then the table and the free map: the new file is on the volume.
  method StoreFile(disk: SynchDisk, hdr: FileHeader, sector: int, directory: Directory, file: OpenFile, freeMap: Bitmap,
                   freeMapFile: OpenFile, ghost v: Volume, ghost d0: Disk, ghost size: nat, ghost isDir: bool, ghost d: int,
                   ghost b: Birth)
    requires IsFreeMap(freeMap) && directory.table.Length == NumDirEntries
    requires Done(hdr.View(), freeMap.View(), disk.sectors) == b.outcome && sector == b.sector
    requires NewFile(d0, v, size, isDir, d, b) && v.files[d].isDir && d != FreeMapSector && FreeMapSector in v.files
    requires Opened(file, d0, d, v.files[d].tree) && Opened(freeMapFile, d0, FreeMapSector, v.files[FreeMapSector].tree)
    modifies disk
    ensures Flushed(BornDisk(b), disk.sectors, b.files, d, directory.View(), b.outcome.bits)
  {
    hide Inv, Rep, Shape, DataOf, Claim, Apart, Flat, Alloc, Layout, FirstFit, Opened, Flushed;
    OpenedBorn(file, d0, v, size, isDir, d, b, d);
    OpenedBorn(freeMapFile, d0, v, size, isDir, d, b, FreeMapSector);
    var ok := hdr.WriteBack(disk, sector);
    assert disk.sectors == BornDisk(b);
    FlushBoth(disk, directory, file, freeMap, freeMapFile, b.files, d);
  }

  // The two files that stay open are usable, and the disk stores the volume.
  ghost predicate Ready(freeMapFile: OpenFile, directoryFile: OpenFile, disk: Disk, v: Volume)
    reads freeMapFile, freeMapFile.hdr, freeMapFile.hdr.dataSectors
    reads directoryFile, directoryFile.hdr, directoryFile.hdr.dataSectors
  {
    && Inv(disk, v)
    && Opened(freeMapFile, disk, FreeMapSector, v.files[FreeMapSector].tree)
    && Opened(directoryFile, disk, DirectorySector, v.files[DirectorySector].tree)
  }

  ghost predicate Kept(v: Volume, w: Volume, d0: Disk, d1: Disk, s: int) {
    s in v.files && s in w.files && w.files[s] == v.files[s] && 0 <= s < |d0| && s < |d1| && d1[s] == d0[s]
  }

  lemma ReadyAfter(freeMapFile: OpenFile, directoryFile: OpenFile, d0: Disk, d1: Disk, v: Volume, w: Volume)
    requires Ready(freeMapFile, directoryFile, d0, v) && Inv(d1, w)
    requires Kept(v, w, d0, d1, FreeMapSector) && Kept(v, w, d0, d1, DirectorySector)
    ensures Ready(freeMapFile, directoryFile, d1, w)
  {
    hide Inv;
  }

  // Allocate the new file, or find that there is no room, and flush everything.
  method AllocateAndStore(disk: SynchDisk, directory: Directory, file: OpenFile, freeMap: Bitmap, freeMapFile: OpenFile,
                          ghost v: Volume, size: nat, ghost isDir: bool, ghost d: int, sector: int)
    returns (ok: bool, ghost b: Birth)
    requires IsFreeMap(freeMap) && directory.table.Length == NumDirEntries
    requires Inv(disk.sectors, v) && d in v.tables && d in v.files && v.files[d].isDir && d != FreeMapSector && FreeMapSector in v.files
    requires HasClear(v.bits) && freeMap.View() == v.bits[First(v.bits) := true] && sector == First(v.bits) as int
    requires Opened(file, disk.sectors, d, v.files[d].tree)
    requires Opened(freeMapFile, disk.sectors, FreeMapSector, v.files[FreeMapSector].tree)
    requires size <= MaxBytes && (isDir ==> size == DirectoryFileSize)
    requires ClearCount(v.bits) <= Ceil(size, SectorSize) || ClearCount(v.bits) > Need(size)
    modifies disk, freeMap.words
    ensures ok <==> ClearCount(v.bits) > Need(size)
    ensures ok ==> NewFile(old(disk.sectors), v, size, isDir, d, b) && sector == b.sector && b.outcome.Done?
    ensures ok ==> Flushed(BornDisk(b), disk.sectors, b.files, d, directory.View(), b.outcome.bits)
    ensures !ok ==> disk.sectors == old(disk.sectors)
  {
    hide Inv, Opened, Flushed, NewFile, Layout, ClearCount, Ceil, Need, First, HasClear, BornDisk;
    ghost var d0 := disk.sectors;
    var hdr;
    ok, hdr, b := AllocateFile(disk, freeMap, v, size, isDir, d);
    if ok {
      BirthSector(d0, v, size, isDir, d, b);
      StoreFile(disk, hdr, sector, directory, file, freeMap, freeMapFile, v, d0, size, isDir, d, b);
    }
  }

  // The end of Create.
  method Enter(disk: SynchDisk, directory: Directory, file: OpenFile, freeMap: Bitmap, freeMapFile: OpenFile,
               directoryFile: OpenFile, ghost v: Volume, size: nat, ghost d: int, name: Str, sector: int, ghost was: Table)
    returns (ok: bool, ghost w: Volume)
    requires IsFreeMap(freeMap) && directory.table.Length == NumDirEntries
    requires Ready(freeMapFile, directoryFile, disk.sectors, v) && d in v.tables && d in v.files && was == v.tables[d]
    requires HasClear(v.bits) && freeMap.View() == v.bits[First(v.bits) := true] && sector == First(v.bits) as int
    requires sector < NumSectors && Added(was, directory.View(), name, sector, false, true)
    requires Opened(file, disk.sectors, d, v.files[d].tree)
    requires size <= MaxBytes
    requires ClearCount(v.bits) <= Ceil(size, SectorSize) || ClearCount(v.bits) > Need(size)
    modifies disk, freeMap.words
    ensures Ready(freeMapFile, directoryFile, disk.sectors, w)
    ensures ok <==> ClearCount(v.bits) > Need(size)
    ensures ok ==> exists s, t :: Grown(v, w, d, name, size, false, s, t)
    ensures !ok ==> w == v && disk.sectors == old(disk.sectors)
  {
    hide Inv, Opened, Ready, Flushed, NewFile, Grown, Added, Layout, Sane, Stores, ClearCount, Ceil, Need, First, HasClear, BornDisk;
    ghost var d0 := disk.sectors;
    ReadyFacts(freeMapFile, directoryFile, d0, v);
    InvFacts(d0, v);
    w := v;
    ghost var b;
    ok, b := AllocateAndStore(disk, directory, file, freeMap, freeMapFile, v, size, false, d, sector);
    if ok {
      w := CreateDone(d0, disk.sectors, v, size, d, name, b, directory.View());
      InvFacts(disk.sectors, w);
      ReadyAfter(freeMapFile, directoryFile, d0, disk.sectors, v, w);
    }
  }

  lemma FlushedLayout(d1: Disk, d3: Disk, files: Files, d: int, table: Table, bits: Bits)
    requires Flushed(d1, d3, files, d, table, bits)
    ensures Layout(d3, files)
  {
  }

  lemma BirthSector(disk: Disk, v: Volume, size: nat, isDir: bool, d: int, b: Birth)
    requires NewFile(disk, v, size, isDir, d, b)
    ensures Inv(disk, v) && HasClear(v.bits) && b.sector == First(v.bits) && b.outcome.Done?
    ensures b.sector in b.files && b.files[b.sector].isDir == isDir
  {
    hide Inv, Layout;
  }

  // A directory has been made, and entered under its name if that could be done.
  ghost predicate MadeDirectory(v: Volume, w: Volume, d: int, name: Str, s: int, t: Tree, added: bool) {
    if added then Grown(v, w, d, name, DirectoryFileSize, true, s, t) else Lost(v, w, d, s, t)
  }

  // The end of CreateDirectory: the new directory is stored, then its empty table.
  method EnterDirectory(disk: SynchDisk, directory: Directory, file: OpenFile, freeMap: Bitmap, freeMapFile: OpenFile,
                        directoryFile: OpenFile, ghost v: Volume, ghost d: int, name: Str, sector: int, ghost was: Table,
                        ghost added: bool)
    returns (ghost w: Volume)
    requires IsFreeMap(freeMap) && directory.table.Length == NumDirEntries
    requires Ready(freeMapFile, directoryFile, disk.sectors, v) && d in v.tables && d in v.files && was == v.tables[d]
    requires HasClear(v.bits) && freeMap.View() == v.bits[First(v.bits) := true] && sector == First(v.bits) as int
    requires sector < NumSectors && Added(was, directory.View(), name, sector, true, added)
    requires Opened(file, disk.sectors, d, v.files[d].tree)
    requires DirectoryFileSize <= MaxBytes && ClearCount(v.bits) > Need(DirectoryFileSize)
    modifies disk, freeMap.words
    ensures Ready(freeMapFile, directoryFile, disk.sectors, w)
    ensures exists s, t :: MadeDirectory(v, w, d, name, s, t, added)
  {
    hide Inv, Opened, Ready, Flushed, NewFile, MadeDirectory, Added, Layout, Sane, Stores, ClearCount, Ceil, Need, First, HasClear, BornDisk;
    ghost var d0 := disk.sectors;
    ReadyFacts(freeMapFile, directoryFile, d0, v);
    InvFacts(d0, v);
    var ok;
    ghost var b;
    ok, b := AllocateAndStore(disk, directory, file, freeMap, freeMapFile, v, DirectoryFileSize, true, d, sector);
    BirthSector(d0, v, DirectoryFileSize, true, d, b);
    w := FinishDirectory(disk, sector, v, d0, d, name, b, directory.View(), added);
    InvFacts(disk.sectors, w);
    ReadyAfter(freeMapFile, directoryFile, d0, disk.sectors, v, w);
  }

  method FinishDirectory(disk: SynchDisk, sector: int, ghost v: Volume, ghost d0: Disk, ghost d: int, name: Str, ghost b: Birth,
                         ghost table: Table, ghost added: bool) returns (ghost w: Volume)
    requires d in v.tables && NewFile(d0, v, DirectoryFileSize, true, d, b) && sector == b.sector && b.outcome.Done?
    requires sector < 0x8000_0000 && Added(v.tables[d], table, name, sector, true, added)
    requires Flushed(BornDisk(b), disk.sectors, b.files, d, table, b.outcome.bits)
    modifies disk
    ensures Inv(disk.sectors, w) && MadeDirectory(v, w, d, name, b.sector, b.tree, added)
    ensures forall u :: u in v.files ==> u in w.files && w.files[u] == v.files[u]
    ensures forall u :: u in v.files ==> 0 <= u < |d0| && u < |disk.sectors| && disk.sectors[u] == d0[u]
  {
    NothingAdded(v.tables[d], table, name, sector, added);
    hide Inv, Flushed, NewFile, Grown, Lost, Added, Layout, BornDisk;
    ghost var d3 := disk.sectors;
    BirthSector(d0, v, DirectoryFileSize, true, d, b);
    FlushedLayout(BornDisk(b), d3, b.files, d, table, b.outcome.bits);
    ghost var empty := StoreEmpty(disk, sector, b.files);
    if added {
      w := DirectoryDone(d0, d3, disk.sectors, v, d, name, b, table, empty);
    } else {
      w := LostDone(d0, d3, disk.sectors, v, d, b, empty);
    }
    HeaderSectors(d0, v);
    HeaderSectors(disk.sectors, w);
  }

  lemma NothingAdded(t: Table, t': Table, name: Str, sector: int, added: bool)
    requires -0x8000_0000 <= sector < 0x8000_0000 && Added(t, t', name, sector, true, added)
    ensures !added ==> t' == t
  {
  }

  lemma HeaderSectors(disk: Disk, v: Volume)
    requires Inv(disk, v)
    ensures forall u :: u in v.files ==> 0 <= u < |disk|
  {
  }

  // new OpenFile(sector)
  method OpenAt(disk: SynchDisk, sector: int, ghost t: Tree) returns (file: OpenFile)
    requires FileOk(disk.sectors, sector, t)
    ensures fresh(file) && fresh(file.hdr) && fresh(file.hdr.dataSectors)
    ensures file.Valid(disk) && file.tree == t && Opened(file, disk.sectors, sector, t)
  {
    DistinctClaim(sector, t);
    file := new OpenFile(disk, sector, t);
  }

  // An empty table is written into the new directory.
  method StoreEmpty(disk: SynchDisk, sector: int, ghost files: Files) returns (ghost empty: Table)
    requires Layout(disk.sectors, files) && sector in files && files[sector].isDir
    modifies disk
    ensures NoneInUse(empty) && Layout(disk.sectors, files)
    ensures DecodeTable(Flat(disk.sectors, files[sector].tree), NumDirEntries) == empty
    ensures forall u :: u in files ==> disk.sectors[u] == old(disk.sectors)[u]
    ensures forall u :: u in files && u != sector ==> Flat(disk.sectors, files[u].tree) == Flat(old(disk.sectors), files[u].tree)
  {
    hide Rep, Shape, DataOf, AllOf, IndexOf, Distinct, AllApart, Flat, DecodeTable, EncodeTable, Written;
    ghost var d3 := disk.sectors;
    var file := OpenAt(disk, sector, files[sector].tree);
    var directory := new Directory(NumDirEntries);
    directory.WriteBack(disk, file);
    TableWritten(d3, disk.sectors, files, sector, directory.View());
    empty := directory.View();
  }

  method OpenSector(disk: SynchDisk, sector: int, ghost v: Volume) returns (file: OpenFile)
    requires Inv(disk.sectors, v) && sector in v.files
    ensures fresh(file) && fresh(file.hdr) && fresh(file.hdr.dataSectors)
    ensures file.Valid(disk) && file.tree == v.files[sector].tree && Opened(file, disk.sectors, sector, v.files[sector].tree)
  {
    CanOpen(disk.sectors, v, sector);
    file := OpenAt(disk, sector, v.files[sector].tree);
  }

  // A path that leads anywhere leads to a file.
  lemma WalkToFile(disk: Disk, v: Volume, name: Str)
    requires Inv(disk, v) && WellFormed(name) && ThroughDirectories(v, DirectorySector, Components(name))
    ensures DirectorySector in v.tables
    ensures |name| == 1 ==> Walk(v, DirectorySector, Components(name)) == DirectorySector
    ensures Walk(v, DirectorySector, Components(name)) == -1 || Walk(v, DirectorySector, Components(name)) in v.files
    ensures forall s :: s in v.files ==> s >= 0
  {
    if |name| > 1 {
      SplitLookup(v, name);
      if Parent(v, name) in v.tables {
        FindMissing(v, Parent(v, name), BaseName(name));
      }
    }
  }

  method WriteOpened(disk: SynchDisk, file: OpenFile, freeMapFile: OpenFile, directoryFile: OpenFile, ghost v: Volume,
                     ghost f: int, pos: nat, from: seq<Byte>) returns (n: nat, ghost w: Volume)
    requires Ready(freeMapFile, directoryFile, disk.sectors, v) && f in v.data && f in v.files
    requires file.Valid(disk) && file.tree == v.files[f].tree
    modifies disk
    ensures n == Clip(|from|, pos, |v.data[f]|) <= |from| && (n > 0 ==> pos + n <= |v.data[f]|)
    ensures w == v.(data := v.data[f := if n == 0 then v.data[f] else Splice(v.data[f], pos, from[..n])])
    ensures Ready(freeMapFile, directoryFile, disk.sectors, w)
  {
    hide Ready, Inv, Rep, Shape, DataOf, AllOf, Claim, Distinct, Written, Splice, Sane;
    ghost var d0 := disk.sectors;
    ReadyFacts(freeMapFile, directoryFile, d0, v);
    DataLength(d0, v, f);
    n := file.WriteAt(disk, from, |from|, pos);
    if n > 0 {
      w := v.(data := v.data[f := Splice(v.data[f], pos, from[..n])]);
      WriteDone(d0, disk.sectors, v, w, f, pos, from[..n]);
      ReadyAfter(freeMapFile, directoryFile, d0, disk.sectors, v, w);
    } else {
      w := v;
      assert v.data[f := v.data[f]] == v.data;
    }
  }

  lemma WriteDone(d0: Disk, d1: Disk, v: Volume, w: Volume, f: int, pos: nat, data: seq<Byte>)
    requires Inv(d0, v) && f in v.data && f in v.files && 0 < |data| && pos + |data| <= |v.data[f]|
    requires v.files[f].tree.bytes == |v.data[f]| && FileOk(d0, f, v.files[f].tree) && Written(d0, d1, v.files[f].tree, pos, data)
    requires w == v.(data := v.data[f := Splice(v.data[f], pos, data)])
    ensures Inv(d1, w) && w.files == v.files
    ensures Kept(v, w, d0, d1, FreeMapSector) && Kept(v, w, d0, d1, DirectorySector)
  {
    hide Rep, Shape, DataOf, AllOf, Claim, Distinct, Written, Splice, Linked;
    WriteStores(d0, d1, v, w, f, pos, data);
    WriteSane(d0, v, w, f);
    InvFacts(d1, w);
  }

  lemma DataLength(disk: Disk, v: Volume, f: int)
    requires Inv(disk, v) && f in v.data
    ensures f in v.files && v.files[f].tree.bytes == |v.data[f]| && FileOk(disk, f, v.files[f].tree)
  {
  }

  lemma WriteSane(disk: Disk, v: Volume, w: Volume, f: int)
    requires Inv(disk, v) && f in v.data && f in w.data && w == v.(data := v.data[f := w.data[f]])
    ensures Sane(w)
  {
  }

  // The directory d is in memory, and its file is open.
  ghost predicate InMemory(directory: Directory, file: OpenFile, disk: Disk, v: Volume, d: int)
    reads directory, directory.table, file, file.hdr, file.hdr.dataSectors
  {
    && d in v.tables && d in v.files && directory.table.Length == NumDirEntries && directory.View() == v.tables[d]
    && Opened(file, disk, d, v.files[d].tree)
  }

  lemma RootInMemory(directory: Directory, directoryFile: OpenFile, freeMapFile: OpenFile, disk: Disk, v: Volume)
    requires Ready(freeMapFile, directoryFile, disk, v)
    requires DirectorySector in v.tables && Padded(directory.View(), v.tables[DirectorySector]) && |directory.View()| == NumDirEntries
    ensures InMemory(directory, directoryFile, disk, v, DirectorySector) && Sane(v)
    ensures DirectorySector in v.files && Opened(directoryFile, disk, DirectorySector, v.files[DirectorySector].tree)
  {
    assert |v.tables[DirectorySector]| == NumDirEntries;
    assert directory.View()[..NumDirEntries] == directory.View();
  }

  // A walk down a path: done leads from the root to the directory at, and left is what remains.
  ghost predicate Walking(v: Volume, name: Str, done: seq<Str>, left: seq<Str>, at: int) {
    && WellFormed(name) && |name| > 1 && ThroughDirectories(v, DirectorySector, Components(name))
    && done + left == Components(name) && at == Walk(v, DirectorySector, done) && at in v.tables
    && Walk(v, at, left) == Walk(v, DirectorySector, Components(name)) && ThroughDirectories(v, at, left)
  }

  // The last step of the walk was from directory prevAt.
  ghost predicate Trail(v: Volume, done: seq<Str>, token: Str, prevAt: int) {
    done != [] ==> token == done[|done| - 1] && prevAt == Walk(v, DirectorySector, done[..|done| - 1])
  }

  lemma WalkingStart(v: Volume, name: Str)
    requires WellFormed(name) && |name| > 1 && ThroughDirectories(v, DirectorySector, Components(name))
    requires DirectorySector in v.tables
    ensures Walking(v, name, [], Components(name), DirectorySector) && Rooted(name) == name && Components(name) != []
    ensures Trail(v, [], [], DirectorySector)
  {
  }

  lemma WalkingStep(v: Volume, name: Str, done: seq<Str>, left: seq<Str>, at: int, s: int)
    requires Walking(v, name, done, left, at) && left != [] && s == Descend(v, at, left[0]) && s in v.tables
    ensures Walking(v, name, done + [left[0]], left[1..], s) && Trail(v, done + [left[0]], left[0], at)
  {
    hide Components, WellFormed;
    assert (done + [left[0]]) + left[1..] == done + left;
    assert (done + [left[0]])[..|done|] == done;
    WalkAppend(v, DirectorySector, done, [left[0]]);
  }

  lemma WalkingStuck(v: Volume, name: Str, done: seq<Str>, left: seq<Str>, at: int, s: int)
    requires Walking(v, name, done, left, at) && left != [] && s == Descend(v, at, left[0]) && s !in v.tables
    ensures Walk(v, DirectorySector, Components(name)) == s
    ensures s != -1 ==> at == Parent(v, name) && left[0] == BaseName(name)
  {
    hide Components, WellFormed;
    if s == -1 {
      WalkNowhere(v, left[1..]);
    } else {
      assert ThroughDirectories(v, s, left[1..]);
      assert left == [left[0]] && left[1..] == [];
      WalkNone(v, s);
      LastComponent(name, done, left[0]);
    }
  }

  lemma WalkingEnd(v: Volume, name: Str, done: seq<Str>, token: Str, prevAt: int, at: int)
    requires Walking(v, name, done, [], at)
    requires Trail(v, done, token, prevAt)
    requires prevAt in v.tables
    ensures at == Walk(v, DirectorySector, Components(name))
    ensures prevAt == Parent(v, name) && token == BaseName(name) && at == Find(v.tables[prevAt], token)
  {
    var n := |done| - 1;
    assert done + [] == done;
    SplitComponents(name);
    assert done == done[..n] + [done[n]];
    LastComponent(name, done[..n], token);
    WalkAppend(v, DirectorySector, done[..n], [token]);
  }

  lemma LastComponent(name: Str, front: seq<Str>, last: Str)
    requires WellFormed(name) && |name| > 1 && front + [last] == Components(name)
    ensures front == Components(DirName(name)) && last == BaseName(name)
  {
    SplitComponents(name);
    var a, b := front + [last], Components(DirName(name)) + [BaseName(name)];
    assert a[..|a| - 1] == front && b[..|b| - 1] == Components(DirName(name));
    assert a[|a| - 1] == last && b[|b| - 1] == BaseName(name);
  }

  // fileHdr->Deallocate(freeMap); freeMap->Clear(sector)
  method FreeFile(disk: SynchDisk, freeMap: Bitmap, sector: int, ghost v: Volume)
    requires Inv(disk.sectors, v) && sector in v.files && v.files[sector].tree.bytes <= Limit3
    requires IsFreeMap(freeMap) && freeMap.View() == v.bits
    modifies freeMap.words
    ensures freeMap.View() == Clear(v.bits, [sector] + DataOf(v.files[sector].tree))
  {
    hide Stores, Linked, Flat, DataOf;
    ghost var t := v.files[sector].tree;
    FileIsMarked(disk.sectors, v, sector);
    var fileHdr := new FileHeader();
    fileHdr.FetchFrom(disk, sector);
    DeallocExact(disk.sectors, fileHdr.View(), t, freeMap.View());
    var r := fileHdr.Deallocate(freeMap, disk, t);
    assert r == Finished && freeMap.View() == Clear(v.bits, DataOf(t));
    freeMap.Clear(sector);
    assert freeMap.View() == Clear(v.bits, [sector] + DataOf(t));
  }

  lemma FileIsMarked(disk: Disk, v: Volume, s: int)
    requires Inv(disk, v) && s in v.files
    ensures FileOk(disk, s, v.files[s].tree) && |disk[s].hdr.dataSectors| == NumDirect
    ensures AllMarked(v.bits, DataOf(v.files[s].tree)) && Distinct(DataOf(v.files[s].tree))
    ensures |v.bits| == |disk|
  {
    DistinctClaim(s, v.files[s].tree);
    ClaimMembers(s, v.files[s].tree);
    assert AllMarked(v.bits, Claim(s, v.files[s].tree));
  }

  // The end of Remove.
  method Discard(disk: SynchDisk, directory: Directory, holder: OpenFile, freeMapFile: OpenFile, directoryFile: OpenFile,
                 ghost v: Volume, ghost d: int, token: Str, sector: int) returns (ghost w: Volume)
    requires Ready(freeMapFile, directoryFile, disk.sectors, v) && InMemory(directory, holder, disk.sectors, v, d)
    requires d in v.tables && sector == Find(v.tables[d], token) && sector != -1
    requires sector in v.files && v.files[sector].tree.bytes <= Limit3
    modifies disk, directory.table
    ensures Ready(freeMapFile, directoryFile, disk.sectors, w)
    ensures Shrunk(v, w, d, token, sector)
  {
    hide Inv, Ready, Rep, Shape, DataOf, Flat, DecodeTable, Distinct, Opened, Clear, Flushed, Layout, Linked;
    ghost var d0, was := disk.sectors, v.tables[d];
    ReadyFacts(freeMapFile, directoryFile, d0, v);
    InvFacts(d0, v);
    FindMissing(v, d, token);
    var freeMap := LoadFreeMap(disk, freeMapFile, v);
    FreeFile(disk, freeMap, sector, v);
    var removed := directory.Remove(token);
    assert directory.View() == RemoveEntry(was, token);
    w := Volume(v.files - {sector}, freeMap.View(), v.tables[d := directory.View()] - {sector}, v.data - {sector});
    FlushMapFirst(disk, directory, holder, freeMap, freeMapFile, v.files, d);
    RemoveDone(d0, disk.sectors, v, w, d, token, sector);
    InvFacts(disk.sectors, w);
    ReadyAfter(freeMapFile, directoryFile, d0, disk.sectors, v, w);
  }

  class FileSystem {
    const disk: SynchDisk
    const freeMapFile: OpenFile
    const directoryFile: OpenFile
    ghost var v: Volume

    ghost predicate Valid()
      reads this, disk
      reads freeMapFile, freeMapFile.hdr, freeMapFile.hdr.dataSectors
      reads directoryFile, directoryFile.hdr, directoryFile.hdr.dataSectors
    {
      Ready(freeMapFile, directoryFile, disk.sectors, v)
    }

    // FileSystem(TRUE): an empty root directory, and a free map with both files' sectors taken.
    constructor Format(d: SynchDisk)
      requires |d.sectors| == NumSectors && FreeMapFileSize <= MaxBytes && DirectoryFileSize <= MaxBytes
      requires 2 + Need(FreeMapFileSize) + Need(DirectoryFileSize) <= NumSectors
      modifies d
      ensures disk == d && Valid() && fresh(freeMapFile) && fresh(directoryFile)
      ensures v.files.Keys == {FreeMapSector, DirectorySector} && v.data == map[]
      ensures NoneInUse(v.tables[DirectorySector])
      ensures forall x :: 0 <= x < NumSectors && v.bits[x] ==>
        x in Claim(FreeMapSector, v.files[FreeMapSector].tree) || x in Claim(DirectorySector, v.files[DirectorySector].tree)
    {
      hide Inv, Opened, Layout, Marked, Alloc;
      var fm, df;
      ghost var w;
      fm, df, w := FormatDrive(d);
      disk, freeMapFile, directoryFile, v := d, fm, df, w;
    }

    // The root directory in memory.
    method LoadRoot() returns (root: Directory)
      requires Valid()
      ensures fresh(root) && fresh(root.table) && DirectorySector in v.tables && Padded(root.View(), v.tables[DirectorySector])
      ensures |root.View()| == NumDirEntries
    {
      hide Rep, Shape, DataOf, Claim, Distinct, Apart, Flat, DecodeTable, Linked;
      root := new Directory(NumDirEntries);
      CanOpen(disk.sectors, v, DirectorySector);
      StillValid(directoryFile, disk, DirectorySector, v.files[DirectorySector].tree);
      root.FetchFrom(disk, directoryFile);
    }

    // The first part of Create and CreateDirectory: split the name and find its directory.
    method FindParent(name: Str) returns (direcSector: int, filename: Str)
      requires Valid() && WellFormed(name) && |name| > 1
      requires ThroughDirectories(v, DirectorySector, Components(name))
      ensures direcSector == Parent(v, name) && filename == BaseName(name)
      ensures direcSector == -1 || direcSector in v.tables
    {
      hide Inv, Walk, ThroughDirectories;
      var root := LoadRoot();
      var path;
      path, filename := SplitPath(name);
      SplitComponents(name);
      SplitLookup(v, name);
      assert Walk(v, DirectorySector, []) == DirectorySector by {
        WalkNone(v, DirectorySector);
      }
      direcSector := root.FindPath(disk, path, v, DirectorySector);
    }

    method Create(name: Str, initialSize: nat) returns (success: bool)
      requires Valid() && Admissible(v, Op.Create(name, initialSize))
      modifies this, disk
      ensures Valid()
      ensures success <==> CanCreate(old(v), name, initialSize)
      ensures Step(old(v), Op.Create(name, initialSize), v)
      ensures !success ==> disk.sectors == old(disk.sectors)
    {
      hide Inv, Opened, Ready, Walk, ThroughDirectories, Components, HasSlot, ClearCount, Ceil, Need, Grown, Sane, Stores, WellFormed, DirName, BaseName;
      ReadyFacts(freeMapFile, directoryFile, disk.sectors, v);
      var direcSector, filename := FindParent(name);
      if direcSector == -1 {
        NotADirectory(disk.sectors, v);
        return false;
      }
      var directory, file := Load(disk, v, direcSector, NumDirEntries);
      InvSane(disk.sectors, v);
      FindMissing(v, direcSector, filename);
      var found := directory.Find(filename);
      assert directory.View() == v.tables[direcSector];
      if found != -1 {
        return false;
      }
      success := Place(directory, file, direcSector, filename, initialSize);
    }

    // The rest of Create, once the name is known to be new in the directory.
    method Place(directory: Directory, file: OpenFile, direcSector: int, filename: Str, initialSize: nat) returns (success: bool)
      requires Valid() && direcSector in v.tables && direcSector in v.files && directory.View() == v.tables[direcSector]
      requires Opened(file, disk.sectors, direcSector, v.files[direcSector].tree)
      requires Index(v.tables[direcSector], filename) == -1 && directory.table.Length == NumDirEntries
      requires initialSize <= MaxBytes
      requires ClearCount(v.bits) <= Ceil(initialSize, SectorSize) || ClearCount(v.bits) > Need(initialSize)
      modifies this, disk, directory.table
      ensures Valid()
      ensures success <==> HasSlot(old(v).tables[direcSector]) && ClearCount(old(v).bits) > Need(initialSize)
      ensures success ==> exists s, t :: Grown(old(v), v, direcSector, filename, initialSize, false, s, t)
      ensures !success ==> v == old(v) && disk.sectors == old(disk.sectors)
    {
      hide Inv, Opened, Ready, Added, HasSlot, Grown, Components, ClearCount;
      ReadyFacts(freeMapFile, directoryFile, disk.sectors, v);
      ghost var was := v.tables[direcSector];
      var freeMap := LoadFreeMap(disk, freeMapFile, v);
      CountMark(v.bits);
      var sector := freeMap.FindAndSet();
      if sector == -1 {
        return false;
      }
      var added := directory.Add(filename, sector, false);
      AddedIff(was, directory.View(), filename, sector, false, added);
      if !added {
        return false;
      }
      success, v := Enter(disk, directory, file, freeMap, freeMapFile, directoryFile, v, initialSize, direcSector, filename, sector, was);
    }

    method CreateDirectory(name: Str)
      requires Valid() && Admissible(v, Op.CreateDirectory(name))
      modifies this, disk
      ensures Valid()
      ensures Step(old(v), Op.CreateDirectory(name), v)
    {
      hide Inv, Opened, Ready, Walk, ThroughDirectories, Components, HasSlot, ClearCount, Ceil, Need, Grown, Sane, Stores, WellFormed, DirName, BaseName;
      ReadyFacts(freeMapFile, directoryFile, disk.sectors, v);
      var direcSector, filename := FindParent(name);
      NotADirectory(disk.sectors, v);
      if direcSector == -1 {
        return;
      }
      var directory, file := Load(disk, v, direcSector, NumDirEntries);
      var _ := directory.Find(filename);
      assert directory.View() == v.tables[direcSector];
      PlaceDirectory(directory, file, direcSector, filename);
    }

    // The rest of CreateDirectory.
    method PlaceDirectory(directory: Directory, file: OpenFile, direcSector: int, filename: Str)
      requires Valid() && direcSector in v.tables && direcSector in v.files && directory.View() == v.tables[direcSector]
      requires Opened(file, disk.sectors, direcSector, v.files[direcSector].tree)
      requires directory.table.Length == NumDirEntries
      requires DirectoryFileSize <= MaxBytes && ClearCount(v.bits) > Need(DirectoryFileSize)
      modifies this, disk, directory.table
      ensures Valid()
      ensures exists s, t ::
        MadeDirectory(old(v), v, direcSector, filename, s, t, CanEnter(old(v).tables[direcSector], filename))
    {
      hide Inv, Opened, Ready, Added, HasSlot, MadeDirectory, Components, ClearCount;
      ReadyFacts(freeMapFile, directoryFile, disk.sectors, v);
      ghost var was := v.tables[direcSector];
      var freeMap := LoadFreeMap(disk, freeMapFile, v);
      CountMark(v.bits);
      var sector := freeMap.FindAndSet();
      var added := directory.Add(filename, sector, true);
      AddedIff(was, directory.View(), filename, sector, true, added);
      assert added == CanEnter(old(v).tables[direcSector], filename);
      v := EnterDirectory(disk, directory, file, freeMap, freeMapFile, directoryFile, v, direcSector, filename, sector, was, added);
    }

    // Null when the path leads nowhere.
    method Open(name: Str) returns (openFile: OpenFile?)
      requires Valid() && WellFormed(name) && ThroughDirectories(v, DirectorySector, Components(name))
      ensures Valid() && (openFile == null <==> Walk(v, DirectorySector, Components(name)) == -1)
      ensures openFile != null ==> fresh(openFile) && fresh(openFile.hdr) && fresh(openFile.hdr.dataSectors)
      ensures openFile != null ==> Walk(v, DirectorySector, Components(name)) in v.files
      ensures openFile != null ==>
        openFile.Valid(disk) && openFile.tree == v.files[Walk(v, DirectorySector, Components(name))].tree
    {
      hide Inv, Opened, Ready, Walk, ThroughDirectories, Components, WellFormed;
      ReadyFacts(freeMapFile, directoryFile, disk.sectors, v);
      var directory := LoadRoot();
      WalkToFile(disk.sectors, v, name);
      var sector := directory.FindPath(disk, name, v, DirectorySector);
      openFile := null;
      if sector >= 0 {
        openFile := OpenSector(disk, sector, v);
      }
    }

    // Open, then WriteAt.
    method WriteFile(name: Str, pos: nat, from: seq<Byte>) returns (n: nat)
      requires Valid() && Admissible(v, Op.WriteAt(name, pos, from))
      modifies this, disk
      ensures Valid()
      ensures Step(old(v), Op.WriteAt(name, pos, from), v)
      ensures var f := Walk(old(v), DirectorySector, Components(name));
              n == if f == -1 then 0 else Clip(|from|, pos, |old(v).data[f]|)
    {
      hide Inv, Opened, Ready, Walk, ThroughDirectories, Components, WellFormed, Written, Flat, Splice;
      var file := Open(name);
      if file == null {
        return 0;
      }
      ghost var f := Walk(v, DirectorySector, Components(name));
      n, v := WriteOpened(disk, file, freeMapFile, directoryFile, v, f, pos, from);
    }

    // Open, then ReadAt: the bytes of the file, clipped to its length.
    method ReadFile(name: Str, pos: nat, numBytes: int) returns (n: nat, into: seq<Byte>)
      requires Valid() && WellFormed(name) && ThroughDirectories(v, DirectorySector, Components(name))
      requires Walk(v, DirectorySector, Components(name)) in v.data
      ensures Valid()
      ensures var b := v.data[Walk(v, DirectorySector, Components(name))];
        n == Clip(numBytes, pos, |b|) == |into| && (n > 0 ==> into == b[pos..pos + n])
    {
      hide Opened, Ready, Walk, ThroughDirectories, Components, WellFormed, Written;
      ReadyFacts(freeMapFile, directoryFile, disk.sectors, v);
      var file := Open(name);
      ghost var f := Walk(v, DirectorySector, Components(name));
      assert f in v.files && f != -1;
      n, into := file.ReadAt(disk, numBytes, pos);
      assert file.Contents(disk) == v.data[f];
    }

    // The loop of Remove: walk down the tokens of the name until one is missing or is not a
    // directory, or none is left; then reread the directory that holds the last token.
    method Locate(name: Str) returns (directory: Directory, holder: OpenFile, token: Str, sector: int, ghost d: int)
      requires Valid() && WellFormed(name) && |name| > 1
      requires ThroughDirectories(v, DirectorySector, Components(name))
      ensures Valid() && fresh(directory) && fresh(directory.table)
      ensures sector == Walk(v, DirectorySector, Components(name))
      ensures sector != -1 ==> d == Parent(v, name) && d in v.tables && token == BaseName(name) && sector == Find(v.tables[d], token)
      ensures sector != -1 ==> InMemory(directory, holder, disk.sectors, v, d)
    {
      hide Inv, Opened, Ready, Walk, ThroughDirectories, Components, WellFormed, Rooted, InMemory, Walking, Trail, DirName, BaseName, Sane;
      var root := LoadRoot();
      directory := root;
      ghost var d0, v0 := disk.sectors, v;
      var fileTem, prev := directoryFile, directoryFile;
      ghost var at, prevAt: int, done, left := DirectorySector, DirectorySector, [], Components(name);
      RootInMemory(directory, directoryFile, freeMapFile, disk.sectors, v);
      token := [];
      WalkingStart(v, name);
      var found, next, rest := StrTok(name);
      while found
        invariant directory == root && Valid() && disk.sectors == d0 && v == v0
        invariant at in v.tables && at in v.files && InMemory(directory, fileTem, disk.sectors, v, at)
        invariant prevAt in v.tables && prevAt in v.files && Opened(prev, disk.sectors, prevAt, v.files[prevAt].tree)
        invariant Walking(v, name, done, left, at)
        invariant found <==> left != []
        invariant found ==> [Slash] + next == left[0] && WellFormed(Rooted(rest)) && Components(Rooted(rest)) == left[1..]
        invariant Trail(v, done, token, prevAt)
        decreases if found then |rest| + 1 else 0
      {
        var name1 := [Slash] + next;
        ghost var s := Descend(v, at, name1);
        var stuck;
        ReadyFacts(freeMapFile, directoryFile, disk.sectors, v);
        stuck, sector := Stuck(directory, name1, fileTem, v, at);
        if stuck {
          WalkingStuck(v, name, done, left, at, s);
          holder, token, d := fileTem, name1, at;
          Reread(directory, fileTem, at);
          sector := FindIn(directory, name1, fileTem, v, at);
          return;
        }
        WalkingStep(v, name, done, left, at, s);
        prev, prevAt := fileTem, at;
        fileTem := Down(directory, sector);
        at, done, left := sector, done + [name1], left[1..];
        token := name1;
        found, next, rest := StrTok(rest);
      }
      WalkingEnd(v, name, done, token, prevAt, at);
      holder, d := prev, prevAt;
      Reread(directory, prev, prevAt);
      sector := FindIn(directory, token, prev, v, prevAt);
    }

    method FindIn(directory: Directory, token: Str, ghost file: OpenFile, ghost v: Volume, ghost at: int) returns (sector: int)
      requires InMemory(directory, file, disk.sectors, v, at)
      ensures sector == Find(v.tables[at], token) == Descend(v, at, token)
    {
      sector := directory.Find(token);
    }

    // Whether the walk ends at this token.
    method Stuck(directory: Directory, token: Str, ghost file: OpenFile, ghost v: Volume, ghost at: int) returns (stuck: bool, sector: int)
      requires Inv(disk.sectors, v) && InMemory(directory, file, disk.sectors, v, at)
      ensures sector == Descend(v, at, token) && stuck == (sector !in v.tables)
      ensures at in v.files && Opened(file, disk.sectors, at, v.files[at].tree) && directory.table.Length == NumDirEntries
    {
      hide Inv, Stores, Key, Linked;
      NotADirectory(disk.sectors, v);
      InvSane(disk.sectors, v);
      FindMissing(v, at, token);
      sector := directory.Find(token);
      if sector == -1 {
        return true, sector;
      }
      var isDir := directory.IsDirectory(token);
      stuck := !isDir;
    }

    // file_tem = new OpenFile(sector); directory->FetchFrom(file_tem)
    method Down(directory: Directory, sector: int) returns (file: OpenFile)
      requires Valid() && sector in v.tables && directory.table.Length == NumDirEntries
      modifies directory.table
      ensures Valid() && fresh(file) && fresh(file.hdr) && fresh(file.hdr.dataSectors)
      ensures InMemory(directory, file, disk.sectors, v, sector)
    {
      hide Inv, Rep, Shape, Flat, DecodeTable, Distinct, Opened, Ready;
      ReadyFacts(freeMapFile, directoryFile, disk.sectors, v);
      InvFacts(disk.sectors, v);
      file := OpenSector(disk, sector, v);
      Reread(directory, file, sector);
    }

    method Reread(directory: Directory, file: OpenFile, ghost d: int)
      requires Valid() && d in v.tables && d in v.files && directory.table.Length == NumDirEntries
      requires Opened(file, disk.sectors, d, v.files[d].tree)
      modifies directory.table
      ensures Valid() && InMemory(directory, file, disk.sectors, v, d)
    {
      hide Inv, Rep, Shape, Distinct, DataOf;
      CanOpen(disk.sectors, v, d);
      StillValid(file, disk, d, v.files[d].tree);
      directory.FetchFrom(disk, file);
    }

    method Remove(name: Str) returns (removed: bool)
      requires Valid() && Admissible(v, Op.Remove(name))
      modifies this, disk
      ensures Valid()
      ensures removed <==> Walk(old(v), DirectorySector, Components(name)) != -1
      ensures Step(old(v), Op.Remove(name), v)
      ensures !removed ==> disk.sectors == old(disk.sectors)
    {
      hide Inv, Opened, Ready, Walk, ThroughDirectories, Components, WellFormed, InMemory, Shrunk, DirName, BaseName, Sane;
      var directory, holder, token, sector;
      ghost var d;
      directory, holder, token, sector, d := Locate(name);
      if sector == -1 {
        return false;
      }
      v := Discard(disk, directory, holder, freeMapFile, directoryFile, v, d, token, sector);
      return true;
    }
  }

  lemma AddedIff(t: Table, t': Table, name: Str, sector: int, isDirectory: bool, ok: bool)
    requires -0x8000_0000 <= sector < 0x8000_0000 && Added(t, t', name, sector, isDirectory, ok)
    ensures ok <==> Index(t, name) == -1 && HasSlot(t)
    ensures |t'| == |t|
  {
  }

  lemma ReadyFacts(freeMapFile: OpenFile, directoryFile: OpenFile, disk: Disk, v: Volume)
    requires Ready(freeMapFile, directoryFile, disk, v)
    ensures Inv(disk, v) && |disk| == NumSectors == |v.bits| && FreeMapSector in v.files
    ensures Opened(freeMapFile, disk, FreeMapSector, v.files[FreeMapSector].tree)
  {
  }

  lemma WalkNone(v: Volume, at: int)
    ensures Walk(v, at, []) == at
  {
  }

  lemma InvSane(disk: Disk, v: Volume)
    requires Inv(disk, v)
    ensures Sane(v) && Stores(disk, v)
  {
  }

  lemma NotADirectory(disk: Disk, v: Volume)
    requires Inv(disk, v)
    ensures -1 !in v.tables && -1 !in v.files
  {
  }
}
