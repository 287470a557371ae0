/** How the disk follows the volume through an operation: which writes leave it storing the
    volume that the operation is meant to produce. */
module VolumeDisk {
  import opened BitSpec
  import opened Bitmaps
  import opened ByteCodec
  import opened DirectoryTable
  import opened Geometry
  import opened HeaderLookup
  import opened HeaderTree
  import opened OpenFiles
  import opened Paths
  import PersistentBitmaps
  import opened Sequences
  import opened VolumeRuns
  import opened Volumes

  // ---- what the disk goes through -----------------------------------------------------

  // A new file on its way to the disk: the sector of its header, its tree, what Allocate came
  // to, and all files once it is there.
  datatype Birth = Birth(sector: nat, tree: Tree, outcome: Outcome, files: Files)

  // The disk after Allocate and the write-back of the new header.
  function BornDisk(b: Birth): Disk {
    if b.outcome.Done? && b.sector < |b.outcome.disk| then b.outcome.disk[b.sector := Header(b.outcome.hdr)] else []
  }

  // Everything about a new file that Allocate and the write-back of its header settle.
  ghost predicate NewFile(disk: Disk, v: Volume, size: nat, isDir: bool, d: int, b: Birth) {
    && Inv(disk, v) && d in v.files && size <= MaxBytes
    && HasClear(v.bits) && b.sector == First(v.bits) && b.sector !in v.files && DirectorySector < b.sector < |disk|
    && b.tree.bytes == size && Shape(b.tree) && FirstFit(v.bits[b.sector := true], AllOf(b.tree))
    && |v.bits[b.sector := true]| == |disk| && b.outcome == Alloc(size, v.bits[b.sector := true], disk)
    && b.outcome.Done? && b.outcome.bits == Mark(v.bits, Claim(b.sector, b.tree)) && |b.outcome.disk| == |disk|
    && b.files == v.files[b.sector := FileInfo(b.tree, isDir, v.files[d].depth + 1)]
    && Layout(BornDisk(b), b.files)
    && (forall u :: u in v.files ==> BornDisk(b)[u] == disk[u])
    && (forall u :: u in v.files ==> Flat(BornDisk(b), v.files[u].tree) == Flat(disk, v.files[u].tree))
  }

  lemma Grow(disk: Disk, v: Volume, size: nat, isDir: bool, d: int) returns (b: Birth)
    requires Inv(disk, v) && d in v.files && size <= MaxBytes && ClearCount(v.bits) > Need(size)
    requires isDir ==> size == DirectoryFileSize
    ensures NewFile(disk, v, size, isDir, d, b)
  {
    hide Rep, Shape, DataOf, IndexOf, Flat, Alloc, Need, Linked, Unique, FirstFit, DecodeTable, PersistentBitmaps.StoredBits;
    CountMark(v.bits);
    var s := First(v.bits);
    var bits := v.bits[s := true];
    var t := AllocRoom(size, bits, disk);
    var o := Alloc(size, bits, disk);
    var info := FileInfo(t, isDir, v.files[d].depth + 1);
    b := Birth(s, t, o, v.files[s := info]);
    GrownClaim(v, s, t);
    FreshIsApart(v.files, v.bits, s, t);
    assert o.bits == Mark(v.bits, Claim(s, t)) by {
      MarkCons(v.bits, s, AllOf(t));
    }
    NewFileOk(disk, o, s, t);
    AddLayout(disk, o.disk[s := Header(o.hdr)], v.files, s, info);
  }

  lemma NewFileOk(disk: Disk, o: Outcome, s: nat, t: Tree)
    requires o.Done? && |o.disk| == |disk| && s < |disk| && Rep(o.disk, o.hdr, t) && Shape(t) && Distinct(Claim(s, t))
    requires forall x :: 0 <= x < |disk| && x !in IndexOf(t) ==> o.disk[x] == disk[x]
    ensures FileOk(o.disk[s := Header(o.hdr)], s, t)
    ensures forall x :: 0 <= x < |disk| && x !in Claim(s, t) ==> o.disk[s := Header(o.hdr)][x] == disk[x]
  {
    DistinctClaim(s, t);
    ClaimMembers(s, t);
    RepFrame(o.disk, o.disk[s := Header(o.hdr)], o.hdr, t);
    RepStored(o.disk[s := Header(o.hdr)], o.hdr, t);
  }

  // Writing a whole file.
  lemma Rewrite(d1: Disk, d2: Disk, files: Files, s: int, bytes: seq<Byte>)
    requires Layout(d1, files) && s in files && 0 < |bytes| == files[s].tree.bytes
    requires Written(d1, d2, files[s].tree, 0, bytes)
    ensures Layout(d2, files) && Flat(d2, files[s].tree) == bytes
    ensures forall u :: u in files ==> d2[u] == d1[u]
    ensures forall u :: u in files && u != s ==> Flat(d2, files[u].tree) == Flat(d1, files[u].tree)
  {
    WriteKeeps(d1, d2, files, s, 0, bytes);
    assert Splice(Flat(d1, files[s].tree), 0, bytes) == bytes;
  }

  // The table of directory d and the free map are on the disk; all else is as on d1.
  ghost predicate Flushed(d1: Disk, d3: Disk, files: Files, d: int, table: Table, bits: Bits) {
    && Layout(d1, files) && d in files && files[d].isDir
    && Layout(d3, files)
    && DecodeTable(Flat(d3, files[d].tree), NumDirEntries) == table
    && PersistentBitmaps.StoredBits(Flat(d3, files[FreeMapSector].tree), NumWords) == bits
    && (forall u :: u in files ==> d3[u] == d1[u])
    && forall u :: u in files && u != d && u != FreeMapSector ==> Flat(d3, files[u].tree) == Flat(d1, files[u].tree)
  }

  lemma FlushedBoth(d1: Disk, d2: Disk, d3: Disk, files: Files, d: int, table: Table, map0: seq<Byte>)
    requires Layout(d1, files) && d in files && files[d].isDir && |table| == NumDirEntries
    requires |EncodeTable(table)| == DirectoryFileSize && Written(d1, d2, files[d].tree, 0, EncodeTable(table))
    requires |map0| == FreeMapFileSize && Layout(d2, files) ==> Written(d2, d3, files[FreeMapSector].tree, 0, map0)
    requires |map0| == FreeMapFileSize
    ensures Flushed(d1, d3, files, d, table, PersistentBitmaps.StoredBits(map0, NumWords))
  {
    Rewrite(d1, d2, files, d, EncodeTable(table));
    Rewrite(d2, d3, files, FreeMapSector, map0);
    TableRoundTrip(table, []);
    assert EncodeTable(table) + [] == EncodeTable(table);
  }

  // The volume after a new file and the table that names it have been flushed.
  lemma CreateStores(d0: Disk, d1: Disk, d3: Disk, v: Volume, d: int, s: int, files: Files, table: Table, bits: Bits, w: Volume)
    requires Stores(d0, v) && Layout(d1, files) && d in v.tables && d in files && files[d].isDir
    requires s !in v.files && s > DirectorySector && s in files && !files[s].isDir && files == v.files[s := files[s]]
    requires forall u :: u in v.files ==> Flat(d1, v.files[u].tree) == Flat(d0, v.files[u].tree)
    requires Flushed(d1, d3, files, d, table, bits)
    requires Layout(d3, files) ==> w == Volume(files, bits, v.tables[d := table], v.data[s := Flat(d3, files[s].tree)])
    ensures Stores(d3, w)
  {
    hide Rep, Shape, DataOf, Claim, Distinct, Apart, Flat, DecodeTable, PersistentBitmaps.StoredBits;
    forall e | e in w.tables ensures DecodeTable(Flat(d3, files[e].tree), NumDirEntries) == w.tables[e] {
      if e != d {
        assert Flat(d3, files[e].tree) == Flat(d0, v.files[e].tree);
      }
    }
  }

  lemma CreateDone(d0: Disk, d3: Disk, v: Volume, size: nat, d: int, name: Str, b: Birth, table: Table) returns (w: Volume)
    requires d in v.tables && NewFile(d0, v, size, false, d, b)
    requires Added(v.tables[d], table, name, b.sector, false, true)
    requires Flushed(BornDisk(b), d3, b.files, d, table, b.outcome.bits)
    ensures Inv(d3, w) && Grown(v, w, d, name, size, false, b.sector, b.tree)
    ensures forall u :: u in v.files ==> u in w.files && w.files[u] == v.files[u] && d3[u] == d0[u]
  {
    hide Rep, Shape, DataOf, Claim, Distinct, Apart, Flat, DecodeTable, PersistentBitmaps.StoredBits, Linked, Added;
    w := Volume(b.files, b.outcome.bits, v.tables[d := table], v.data[b.sector := Flat(d3, b.files[b.sector].tree)]);
    CreateStores(d0, BornDisk(b), d3, v, d, b.sector, b.files, table, b.outcome.bits, w);
    GrownSane(v, w, d, name, size, false, b.sector, b.tree);
  }

  // The same for a new directory, whose empty table is written last.
  lemma DirectoryStores(d0: Disk, d1: Disk, d3: Disk, d4: Disk, v: Volume, d: int, s: int, files: Files,
                        table: Table, empty: Table, bits: Bits, w: Volume)
    requires Stores(d0, v) && Layout(d1, files) && d in v.tables && d in files && files[d].isDir
    requires s !in v.files && s > DirectorySector && s in files && files[s].isDir && files == v.files[s := files[s]]
    requires forall u :: u in v.files ==> Flat(d1, v.files[u].tree) == Flat(d0, v.files[u].tree)
    requires Flushed(d1, d3, files, d, table, bits)
    requires Layout(d4, files) && DecodeTable(Flat(d4, files[s].tree), NumDirEntries) == empty
    requires forall u :: u in files && u != s ==> Flat(d4, files[u].tree) == Flat(d3, files[u].tree)
    requires w == Volume(files, bits, v.tables[d := table][s := empty], v.data)
    ensures Stores(d4, w)
  {
    hide Rep, Shape, DataOf, Claim, Distinct, Apart, Flat, DecodeTable, PersistentBitmaps.StoredBits;
    forall e | e in w.tables ensures DecodeTable(Flat(d4, files[e].tree), NumDirEntries) == w.tables[e] {
      if e != d && e != s {
        assert Flat(d4, files[e].tree) == Flat(d0, v.files[e].tree);
      }
    }
  }

  lemma DirectoryDone(d0: Disk, d3: Disk, d4: Disk, v: Volume, d: int, name: Str, b: Birth, table: Table, empty: Table)
    returns (w: Volume)
    requires d in v.tables && NewFile(d0, v, DirectoryFileSize, true, d, b)
    requires Added(v.tables[d], table, name, b.sector, true, true)
    requires Flushed(BornDisk(b), d3, b.files, d, table, b.outcome.bits)
    requires NoneInUse(empty)
    requires Layout(d4, b.files) && DecodeTable(Flat(d4, b.files[b.sector].tree), NumDirEntries) == empty
    requires forall u :: u in b.files && u != b.sector ==> Flat(d4, b.files[u].tree) == Flat(d3, b.files[u].tree)
    requires forall u :: u in b.files ==> d4[u] == d3[u]
    ensures Inv(d4, w) && Grown(v, w, d, name, DirectoryFileSize, true, b.sector, b.tree)
    ensures forall u :: u in v.files ==> u in w.files && w.files[u] == v.files[u] && d4[u] == d0[u]
  {
    hide Rep, Shape, DataOf, Claim, Distinct, Apart, Flat, DecodeTable, PersistentBitmaps.StoredBits, Linked, Added;
    w := Volume(b.files, b.outcome.bits, v.tables[d := table][b.sector := empty], v.data);
    DirectoryStores(d0, BornDisk(b), d3, d4, v, d, b.sector, b.files, table, empty, b.outcome.bits, w);
    GrownSane(v, w, d, name, DirectoryFileSize, true, b.sector, b.tree);
  }

  // And for one whose entry could not be made: the table of its parent is as it was.
  lemma LostDone(d0: Disk, d3: Disk, d4: Disk, v: Volume, d: int, b: Birth, empty: Table) returns (w: Volume)
    requires d in v.tables && NewFile(d0, v, DirectoryFileSize, true, d, b)
    requires Flushed(BornDisk(b), d3, b.files, d, v.tables[d], b.outcome.bits)
    requires NoneInUse(empty)
    requires Layout(d4, b.files) && DecodeTable(Flat(d4, b.files[b.sector].tree), NumDirEntries) == empty
    requires forall u :: u in b.files && u != b.sector ==> Flat(d4, b.files[u].tree) == Flat(d3, b.files[u].tree)
    requires forall u :: u in b.files ==> d4[u] == d3[u]
    ensures Inv(d4, w) && Lost(v, w, d, b.sector, b.tree)
    ensures forall u :: u in v.files ==> u in w.files && w.files[u] == v.files[u] && d4[u] == d0[u]
  {
    hide Rep, Shape, DataOf, Claim, Distinct, Apart, Flat, DecodeTable, PersistentBitmaps.StoredBits, Linked;
    w := Volume(b.files, b.outcome.bits, v.tables[b.sector := empty], v.data);
    assert w.tables == v.tables[d := v.tables[d]][b.sector := empty];
    DirectoryStores(d0, BornDisk(b), d3, d4, v, d, b.sector, b.files, v.tables[d], empty, b.outcome.bits, w);
    LostSane(v, w, d, b.sector, b.tree);
  }

  // The volume after a file is gone.
  lemma RemoveStores(d0: Disk, d3: Disk, v: Volume, w: Volume, d: int, s: int)
    requires Stores(d0, v) && Layout(d3, v.files) && d in v.tables && s in v.files && s > DirectorySector && s != d
    requires w.files == v.files - {s} && d in w.tables && w.tables == v.tables[d := w.tables[d]] - {s} && w.data == v.data - {s}
    requires DecodeTable(Flat(d3, v.files[d].tree), NumDirEntries) == w.tables[d]
    requires PersistentBitmaps.StoredBits(Flat(d3, v.files[FreeMapSector].tree), NumWords) == w.bits
    requires forall u :: u in v.files && u != d && u != FreeMapSector ==> Flat(d3, v.files[u].tree) == Flat(d0, v.files[u].tree)
    ensures Stores(d3, w)
  {
    hide Rep, Shape, DataOf, Claim, Distinct, Apart, Flat, DecodeTable, PersistentBitmaps.StoredBits;
    assert Layout(d3, w.files) by {
      assert AllApart(w.files);
    }
    forall e | e in w.tables ensures DecodeTable(Flat(d3, w.files[e].tree), NumDirEntries) == w.tables[e] {
      if e != d {
        assert Flat(d3, v.files[e].tree) == Flat(d0, v.files[e].tree);
      }
    }
  }

  lemma RemoveDone(d0: Disk, d3: Disk, v: Volume, w: Volume, d: int, name: Str, s: int)
    requires Inv(d0, v) && Shrunk(v, w, d, name, s) && d in v.files && v.files[d].isDir
    requires Flushed(d0, d3, v.files, d, RemoveEntry(v.tables[d], name), w.bits)
    ensures Inv(d3, w) && forall u :: u in w.files ==> u in v.files && w.files[u] == v.files[u] && d3[u] == d0[u]
    ensures DirectorySector in w.files && FreeMapSector in w.files
  {
    hide Rep, Shape, DataOf, Claim, Distinct, Apart, Flat, DecodeTable, PersistentBitmaps.StoredBits;
    ShrunkSane(v, w, d, name, s);
    assert s > DirectorySector by {
      assert Ref(v.tables, d, Index(v.tables[d], name));
      assert RefOk(v.files, d, v.tables[d][Index(v.tables[d], name)]);
    }
    RemoveStores(d0, d3, v, w, d, s);
  }

  // The volume after a write into a regular file.
  lemma WriteStores(d0: Disk, d1: Disk, v: Volume, w: Volume, f: int, pos: nat, data: seq<Byte>)
    requires Stores(d0, v) && f in v.data && 0 < |data| && pos + |data| <= |v.data[f]|
    requires v.files[f].tree.bytes == |v.data[f]| && Written(d0, d1, v.files[f].tree, pos, data)
    requires w == v.(data := v.data[f := Splice(v.data[f], pos, data)])
    ensures Stores(d1, w) && forall u :: u in v.files ==> d1[u] == d0[u]
  {
    hide Rep, Shape, DataOf, Claim, Distinct, Apart, Flat;
    WriteKeeps(d0, d1, v.files, f, pos, data);
  }

  lemma TableWritten(d2: Disk, d3: Disk, files: Files, d: int, table: Table)
    requires Layout(d2, files) && d in files && files[d].isDir && |table| == NumDirEntries
    requires |EncodeTable(table)| == DirectoryFileSize && Written(d2, d3, files[d].tree, 0, EncodeTable(table))
    ensures Layout(d3, files) && DecodeTable(Flat(d3, files[d].tree), NumDirEntries) == table
    ensures forall u :: u in files ==> d3[u] == d2[u]
    ensures forall u :: u in files && u != d ==> Flat(d3, files[u].tree) == Flat(d2, files[u].tree)
  {
    hide Rep, Shape, DataOf, Claim, Distinct, Apart, Flat;
    Rewrite(d2, d3, files, d, EncodeTable(table));
    TableRoundTrip(table, []);
    assert EncodeTable(table) + [] == EncodeTable(table);
  }

  // ---- a fresh disk -------------------------------------------------------------------

  // The free map and the root directory, allocated one after the other.
  ghost predicate Formatted(d0: Disk, t0: Tree, t1: Tree, o0: Outcome, o1: Outcome, b: Bits, d3: Disk, files: Files)
    requires |d0| == NumSectors == |b| && FreeMapFileSize <= MaxBytes && DirectoryFileSize <= MaxBytes
  {
    && o0 == Alloc(FreeMapFileSize, b, d0) && o0.Done? && |o0.bits| == |o0.disk|
    && o1 == Alloc(DirectoryFileSize, o0.bits, o0.disk) && o1.Done?
    && |o1.disk| == NumSectors && d3 == o1.disk[FreeMapSector := Header(o0.hdr)][DirectorySector := Header(o1.hdr)]
    && files == map[FreeMapSector := FileInfo(t0, false, 0), DirectorySector := FileInfo(t1, true, 0)]
    && Layout(d3, files) && Marked(files, o1.bits)
    && |o1.bits| == NumSectors
    && forall x :: 0 <= x < |o1.bits| && o1.bits[x] ==> x in Claim(FreeMapSector, t0) || x in Claim(DirectorySector, t1)
  }

  // The free map of a fresh disk with the two header sectors taken.
  function FreshBits(): (b: Bits)
    ensures |b| == NumSectors
  {
    [true, true] + seq(NumSectors - 2, _ => false)
  }

  lemma FreshCount()
    ensures ClearCount(FreshBits()) == NumSectors - 2
  {
    FreshCountFrom(NumSectors - 2);
  }

  lemma {:induction false} FreshCountFrom(n: nat)
    ensures ClearCount([true, true] + seq(n, _ => false)) == n
    decreases n
  {
    var b := [true, true] + seq(n, _ => false);
    if n == 0 {
      assert ClearSet(b) == {};
    } else {
      FreshCountFrom(n - 1);
      var less := [true, true] + seq(n - 1, _ => false);
      assert b == less + [false];
      CountNext(b, n + 1);
      assert b[..n + 1] == less && b[..n + 2] == b;
    }
  }

  lemma FormatDisk(d0: Disk) returns (t0: Tree, t1: Tree, o0: Outcome, o1: Outcome, d3: Disk, files: Files)
    requires |d0| == NumSectors && FreeMapFileSize <= MaxBytes && DirectoryFileSize <= MaxBytes
    requires 2 + Need(FreeMapFileSize) + Need(DirectoryFileSize) <= NumSectors
    ensures Formatted(d0, t0, t1, o0, o1, FreshBits(), d3, files)
  {
    hide Alloc, Rep, Shape, DataOf, AllOf, IndexOf, FreshBits, ClearCount, Need, Apart;
    var b := FreshBits();
    FreshCount();
    t0 := AllocRoom(FreeMapFileSize, b, d0);
    o0 := Alloc(FreeMapFileSize, b, d0);
    IncreasingIsDistinct(AllOf(t0));
    CountMarkAll(b, AllOf(t0));
    t1 := AllocRoom(DirectoryFileSize, o0.bits, o0.disk);
    o1 := Alloc(DirectoryFileSize, o0.bits, o0.disk);
    IncreasingIsDistinct(AllOf(t1));
    d3 := o1.disk[FreeMapSector := Header(o0.hdr)][DirectorySector := Header(o1.hdr)];
    files := map[FreeMapSector := FileInfo(t0, false, 0), DirectorySector := FileInfo(t1, true, 0)];
    FormatClaims(b, t0, t1, o0.bits, o1.bits);
    FormatFirst(o0, o1, d3, t0, t1);
    FormatSecond(o1, d3, t1);
  }

  lemma FormatClaims(b: Bits, t0: Tree, t1: Tree, b1: Bits, b2: Bits)
    requires b == FreshBits() && AllClear(b, AllOf(t0)) && Distinct(AllOf(t0)) && b1 == Mark(b, AllOf(t0))
    requires AllClear(b1, AllOf(t1)) && Distinct(AllOf(t1)) && b2 == Mark(b1, AllOf(t1))
    ensures Distinct(Claim(FreeMapSector, t0)) && Distinct(Claim(DirectorySector, t1))
    ensures FreeMapSector !in IndexOf(t1)
    ensures Apart(Claim(FreeMapSector, t0), Claim(DirectorySector, t1)) && Apart(Claim(DirectorySector, t1), Claim(FreeMapSector, t0))
    ensures AllMarked(b2, Claim(FreeMapSector, t0)) && AllMarked(b2, Claim(DirectorySector, t1))
    ensures forall x :: 0 <= x < |b2| && b2[x] ==> x in Claim(FreeMapSector, t0) || x in Claim(DirectorySector, t1)
  {
    hide AllOf;
    assert b[FreeMapSector] && b[DirectorySector];
    forall x | x in AllOf(t0) ensures x > DirectorySector && b1[x] {}
    forall x | x in AllOf(t1) ensures x > DirectorySector && x !in AllOf(t0) && b2[x] {
      assert !b1[x];
    }
    Members(t1);
    ConsDistinct(FreeMapSector, AllOf(t0));
    ConsDistinct(DirectorySector, AllOf(t1));
  }

  lemma ConsDistinct(s: int, rest: seq<int>)
    requires Distinct(rest) && s !in rest
    ensures Distinct([s] + rest)
  {
    var c := [s] + rest;
    forall i, j | 0 <= i < j < |c| ensures c[i] != c[j] {
      assert c[j] == rest[j - 1];
    }
  }

  lemma FormatFirst(o0: Outcome, o1: Outcome, d3: Disk, t0: Tree, t1: Tree)
    requires o0.Done? && o1.Done? && |o1.disk| == |o0.disk| == NumSectors
    requires d3 == o1.disk[FreeMapSector := Header(o0.hdr)][DirectorySector := Header(o1.hdr)]
    requires Rep(o0.disk, o0.hdr, t0) && Shape(t0) && Distinct(Claim(FreeMapSector, t0))
    requires forall x :: 0 <= x < |o0.disk| && x !in IndexOf(t1) ==> o1.disk[x] == o0.disk[x]
    requires Apart(Claim(FreeMapSector, t0), Claim(DirectorySector, t1))
    ensures FileOk(d3, FreeMapSector, t0)
  {
    ClaimMembers(FreeMapSector, t0);
    ClaimMembers(DirectorySector, t1);
    DistinctClaim(FreeMapSector, t0);
    RepFrame(o0.disk, d3, o0.hdr, t0);
    RepStored(d3, o0.hdr, t0);
  }

  lemma FormatSecond(o1: Outcome, d3: Disk, t1: Tree)
    requires o1.Done? && |o1.disk| == |d3| == NumSectors
    requires d3[DirectorySector] == Header(o1.hdr) && FreeMapSector !in IndexOf(t1)
    requires forall x :: 1 < x < |d3| ==> d3[x] == o1.disk[x]
    requires Rep(o1.disk, o1.hdr, t1) && Shape(t1) && Distinct(Claim(DirectorySector, t1))
    ensures FileOk(d3, DirectorySector, t1)
  {
    DistinctClaim(DirectorySector, t1);
    RepFrame(o1.disk, d3, o1.hdr, t1);
    RepStored(d3, o1.hdr, t1);
  }

  // The volume of a formatted disk: an empty root directory and nothing else.
  lemma FormatDone(d0: Disk, t0: Tree, t1: Tree, o0: Outcome, o1: Outcome, d3: Disk, d5: Disk, files: Files, empty: Table)
    returns (v: Volume)
    requires |d0| == NumSectors && FreeMapFileSize <= MaxBytes && DirectoryFileSize <= MaxBytes
    requires Formatted(d0, t0, t1, o0, o1, FreshBits(), d3, files)
    requires NoneInUse(empty) && Flushed(d3, d5, files, DirectorySector, empty, o1.bits)
    ensures Inv(d5, v) && v.files == files && v.bits == o1.bits
    ensures v.tables == map[DirectorySector := empty] && v.data == map[]
    ensures forall u :: u in files ==> d5[u] == d3[u]
  {
    hide Rep, Shape, DataOf, Claim, Distinct, Apart, Flat, DecodeTable, PersistentBitmaps.StoredBits;
    v := Volume(files, o1.bits, map[DirectorySector := empty], map[]);
    assert forall d, i :: !Ref(v.tables, d, i);
    assert Linked(v.files, v.tables);
    assert Stores(d5, v);
  }
}
