/** The class Directory of NachOS/filesys/directory.cc: a table of entries, in memory, that is
    read from and written to a file. */
module Directories {
  import opened ByteCodec
  import opened DirectoryTable
  import opened FileHeaders
  import opened Geometry
  import opened HeaderTree
  import opened BitSpec
  import opened OpenFiles
  import opened Paths
  import opened Sequences
  import opened VolumeRuns
  import opened Volumes

  // strncmp(a, b, n) == 0
  method StrNCmp(a: seq<Byte>, b: seq<Byte>, n: nat) returns (equal: bool)
    ensures equal == StrNEq(a, b, 0, n)
  {
    var i := 0;
    while i < n
      invariant 0 <= i <= n
      invariant StrNEq(a, b, 0, n) == StrNEq(a, b, i, n)
    {
      if At(a, i) != At(b, i) {
        return false;
      }
      if At(a, i) == 0 {
        return true;
      }
      i := i + 1;
    }
    return true;
  }

  // Entries that are not in use, behind a table, are never found.
  lemma PaddedIndex(t: Table, pad: Table, name: Str)
    requires forall i :: 0 <= i < |pad| ==> !pad[i].inUse
    ensures Index(t + pad, name) == Index(t, name) && Find(t + pad, name) == Find(t, name)
  {
    assert forall j :: 0 <= j < |t| ==> (t + pad)[j] == t[j];
    assert forall j :: |t| <= j < |t + pad| ==> !Matches((t + pad)[j], name);
  }

  // A table in memory that begins with the table of directory d and has nothing behind it.
  ghost predicate Padded(table: Table, t: Table) {
    && |t| <= |table| && table[..|t|] == t
    && forall i :: |t| <= i < |table| ==> !table[i].inUse
  }

  lemma PaddedFind(table: Table, t: Table, name: Str)
    requires Padded(table, t)
    ensures Index(table, name) == Index(t, name) && Find(table, name) == Find(t, name)
  {
    assert table == t + table[|t|..];
    PaddedIndex(t, table[|t|..], name);
  }

  class Directory {
    const table: array<Entry>

    function View(): Table
      reads table
    {
      table[..]
    }

    constructor (size: nat)
      ensures fresh(table) && |View()| == size
      ensures forall i :: 0 <= i < size ==> View()[i] == EmptyEntry
    {
      table := new Entry[size](_ => EmptyEntry);
    }

    method FindIndex(name: Str) returns (r: int)
      ensures r == Index(View(), name)
    {
      var i := 0;
      while i < table.Length
        invariant 0 <= i <= table.Length
        invariant forall j :: 0 <= j < i ==> !Matches(View()[j], name)
      {
        var equal := StrNCmp(table[i].name, name, FileNameMaxLen);
        ComparesKeys(table[i].name, name, 0);
        if table[i].inUse && equal {
          assert Matches(View()[i], name);
          return i;
        }
        i := i + 1;
      }
      return -1;
    }

    method Find(name: Str) returns (sector: int)
      ensures sector == DirectoryTable.Find(View(), name)
    {
      var i := FindIndex(name);
      if i != -1 {
        return table[i].sector;
      }
      return -1;
    }

    // A name that is not there counts as a directory: the -1 of the source is true.
    method IsDirectory(name: Str) returns (r: bool)
      ensures r == (Index(View(), name) >= 0 ==> View()[Index(View(), name)].isDirectory)
    {
      var i := FindIndex(name);
      if i != -1 {
        return table[i].isDirectory;
      }
      return true;
    }

    method Add(name: Str, newSector: int, isDirectory: bool) returns (ok: bool)
      requires -0x8000_0000 <= newSector < 0x8000_0000
      modifies table
      ensures Added(old(View()), View(), name, newSector, isDirectory, ok)
    {
      var found := FindIndex(name);
      if found != -1 {
        return false;
      }
      var i := 0;
      while i < table.Length
        invariant 0 <= i <= table.Length
        invariant View() == old(View())
        invariant forall j :: 0 <= j < i ==> View()[j].inUse
      {
        if !table[i].inUse {
          assert FirstSlot(View(), i);
          table[i] := Named(table[i], name, newSector, isDirectory);
          assert View() == old(View())[i := Named(old(View())[i], name, newSector, isDirectory)];
          return true;
        }
        i := i + 1;
      }
      return false;
    }

    method Remove(name: Str) returns (ok: bool)
      modifies table
      ensures ok == (Index(old(View()), name) >= 0)
      ensures View() == RemoveEntry(old(View()), name)
    {
      var i := FindIndex(name);
      if i == -1 {
        return false;
      }
      table[i] := table[i].(inUse := false);
      return true;
    }

    // As many bytes of the file as there are go over the front of the table.
    method FetchFrom(disk: SynchDisk, file: OpenFile)
      requires file.Valid(disk) && file.tree.bytes == DirectoryFileSize && NumDirEntries <= table.Length
      modifies table
      ensures View() == DecodeTable(file.Contents(disk), NumDirEntries) + old(View())[NumDirEntries..]
    {
      var n, into := file.ReadAt(disk, 20 * table.Length, 0);
      var was := table[..];
      FetchedTable(was, into, NumDirEntries);
      ghost var contents := file.Contents(disk);
      assert into == contents;
      var t := DecodeTable(Copy(EncodeTable(was), 0, into), table.Length);
      forall i | 0 <= i < table.Length {
        table[i] := t[i];
      }
      assert table[..] == t;
    }

    method WriteBack(disk: SynchDisk, file: OpenFile)
      requires file.Valid(disk) && file.tree.bytes == DirectoryFileSize && table.Length == NumDirEntries
      modifies disk
      ensures file.Valid(disk) && |EncodeTable(View())| == DirectoryFileSize
      ensures Written(old(disk.sectors), disk.sectors, file.tree, 0, EncodeTable(View()))
    {
      var bytes := EncodeTable(table[..]);
      var n := file.WriteAt(disk, bytes, 20 * table.Length, 0);
      assert bytes[..n] == bytes;
    }

    // The loop of FindPath: where the first component ends.
    static method FirstSplit(name: Str) returns (split: nat)
      requires |name| > 1
      ensures 1 <= split <= |name| && (forall k :: 1 <= k < split ==> name[k] != Slash)
      ensures split < |name| ==> name[split] == Slash
    {
      split := 1;
      while split < |name| && name[split] != Slash
        invariant 1 <= split <= |name|
        invariant forall k :: 1 <= k < split ==> name[k] != Slash
      {
        split := split + 1;
      }
    }

    // The sector a path leads to from directory d of the volume, whose table this is.
    method FindPath(disk: SynchDisk, name: Str, ghost v: Volume, ghost d: int) returns (sector: int)
      requires Inv(disk.sectors, v) && d in v.tables && Padded(View(), v.tables[d])
      requires WellFormed(name) && ThroughDirectories(v, d, Components(name))
      ensures sector == if |name| == 1 then DirectorySector else Walk(v, d, Components(name))
      decreases |name|
    {
      if |name| == 1 {
        return 1;
      }
      var split := FirstSplit(name);
      var rootPath, restPath := name[..split], name[split..];
      ComponentsStep(name, split, restPath);
      PaddedFind(View(), v.tables[d], rootPath);
      sector := Find(rootPath);
      if split == |name| {
        WalkLast(v, d, rootPath);
        return;
      }
      NextSlashIs(name, 1, split);
      RestWellFormed(name, split);
      WalkStep(v, d, rootPath, Components(restPath));
      if sector == -1 {
        WalkNowhere(v, Components(restPath));
        return;
      }
      NotLast(v, sector, restPath);
      sector := FindRest(disk, restPath, v, sector);
    }

    // The recursive step: the directory at sector is read into a table with room to spare.
    method FindRest(disk: SynchDisk, restPath: Str, ghost v: Volume, sector: int) returns (r: int)
      requires Inv(disk.sectors, v) && sector in v.tables
      requires WellFormed(restPath) && |restPath| > 1 && ThroughDirectories(v, sector, Components(restPath))
      ensures r == Walk(v, sector, Components(restPath))
      decreases |restPath| + 1
    {
      var directory, _ := Load(disk, v, sector, DirectoryFileSize);
      r := directory.FindPath(disk, restPath, v, sector);
    }
  }

  // new Directory(size), new OpenFile(sector), and FetchFrom.
  method Load(disk: SynchDisk, ghost v: Volume, sector: int, size: nat) returns (directory: Directory, file: OpenFile)
    requires Inv(disk.sectors, v) && sector in v.tables && NumDirEntries <= size
    ensures fresh(directory) && fresh(directory.table) && fresh(file) && fresh(file.hdr) && fresh(file.hdr.dataSectors)
    ensures sector in v.files && Opened(file, disk.sectors, sector, v.files[sector].tree) && file.Valid(disk)
    ensures |v.tables[sector]| == NumDirEntries
    ensures Padded(directory.View(), v.tables[sector]) && |directory.View()| == size
  {
    CanOpen(disk.sectors, v, sector);
    file := new OpenFile(disk, sector, v.files[sector].tree);
    directory := new Directory(size);
    directory.FetchFrom(disk, file);
  }

  // The open file keeps in memory the header that stands at sector s of the disk.
  ghost predicate Opened(file: OpenFile, disk: Disk, s: int, t: Tree)
    reads file, file.hdr, file.hdr.dataSectors
  {
    file.hdr.Valid() && 0 <= s < |disk| && disk[s] == Header(file.hdr.View()) && file.tree == t
  }

  lemma CanOpen(disk: Disk, v: Volume, s: int)
    requires Inv(disk, v) && s in v.files
    ensures FileOk(disk, s, v.files[s].tree) && Distinct(AllOf(v.files[s].tree))
    ensures s in v.tables ==>
      v.files[s].tree.bytes == DirectoryFileSize && |v.tables[s]| == NumDirEntries
      && DecodeTable(Flat(disk, v.files[s].tree), NumDirEntries) == v.tables[s]
  {
    DistinctClaim(s, v.files[s].tree);
  }

  lemma WalkLast(v: Volume, at: int, c: Str)
    ensures Walk(v, at, [c] + []) == Descend(v, at, c)
  {
    assert ([c] + [])[1..] == [];
  }

  lemma WalkStep(v: Volume, at: int, c: Str, rest: seq<Str>)
    ensures Walk(v, at, [c] + rest) == Walk(v, Descend(v, at, c), rest)
    ensures ThroughDirectories(v, at, [c] + rest) ==> ThroughDirectories(v, Descend(v, at, c), rest)
  {
    assert ([c] + rest)[1..] == rest;
  }

  lemma {:induction false} WalkNowhere(v: Volume, rest: seq<Str>)
    requires -1 !in v.tables
    ensures Walk(v, -1, rest) == -1
    decreases |rest|
  {
    if rest != [] {
      WalkNowhere(v, rest[1..]);
    }
  }

  lemma NotLast(v: Volume, at: int, rest: Str)
    requires |rest| > 1 && at != -1 && ThroughDirectories(v, at, Components(rest))
    ensures at in v.tables
  {
  }

  // What FetchFrom makes of the table in memory.
  lemma FetchedTable(was: Table, into: seq<Byte>, n: nat)
    requires n <= |was| && |into| == 20 * n
    ensures DecodeTable(Copy(EncodeTable(was), 0, into), |was|) == DecodeTable(into, n) + was[n..]
  {
    var front, rest := EncodeTable(was[..n]), was[n..];
    EncodeSplit(was, n);
    CopyOverFront(front, EncodeTable(rest), into);
    DecodeOver(into, rest, n, |was|);
  }

  lemma DecodeOver(into: seq<Byte>, rest: Table, n: nat, total: nat)
    requires |into| == 20 * n && total == n + |rest|
    ensures DecodeTable(into + EncodeTable(rest), total) == DecodeTable(into, n) + rest
  {
    var back := EncodeTable(rest);
    DecodeJoin(into, back, n, |rest|);
    TableRoundTrip(rest, []);
    assert back + [] == back;
  }

  lemma CopyOverFront(front: seq<Byte>, back: seq<Byte>, into: seq<Byte>)
    requires |into| == |front|
    ensures Copy(front + back, 0, into) == into + back
  {
  }

  lemma {:induction false} EncodeSplit(t: Table, n: nat)
    requires n <= |t|
    ensures EncodeTable(t) == EncodeTable(t[..n]) + EncodeTable(t[n..])
    decreases n
  {
    if n > 0 {
      EncodeSplit(t[1..], n - 1);
      assert t[..n][1..] == t[1..][..n - 1] && t[1..][n - 1..] == t[n..];
    } else {
      assert t[0..] == t && EncodeTable(t[..0]) == [];
    }
  }
}
