/** The whole volume: which sectors belong to which file, and what the free map and the
    directories on it say. A Volume is the abstract state; Stores ties it to the disk. */
module Volumes {
  import opened BitSpec
  import opened ByteCodec
  import opened DirectoryTable
  import opened Geometry
  import opened HeaderLookup
  import opened HeaderTree
  import opened OpenFiles
  import opened PersistentBitmaps
  import opened Sequences

  // The disk has a whole number of 32-bit words of sectors, and sector numbers fit an int.
  type WordCount = n: nat | 1 <= n && 32 * n < 0x8000_0000 witness 1

  const NumWords: WordCount
  const NumSectors: nat := 32 * NumWords
  const FreeMapSector: nat := 0
  const DirectorySector: nat := 1
  const FreeMapFileSize: nat := 4 * NumWords

  // A file, known by the sector of its header. The depth of a file is one more than that of
  // the directory it was made in.
  datatype FileInfo = FileInfo(tree: Tree, isDir: bool, depth: nat)
  type Files = map<int, FileInfo>

  // Every file on the volume, the free map, the tables of the directories, and the bytes of
  // the regular files.
  datatype Volume = Volume(files: Files, bits: Bits, tables: map<int, Table>, data: map<int, seq<Byte>>)

  // ---- the disk below -----------------------------------------------------------------

  // All sectors of a file: its header and everything the header reaches.
  function Claim(s: int, t: Tree): seq<int> {
    [s] + AllOf(t)
  }

  ghost predicate FileOk(disk: Disk, s: int, t: Tree) {
    && 0 <= s < |disk| && disk[s].Header? && Rep(disk, disk[s].hdr, t) && Shape(t)
    && Stored(disk, DataOf(t)) && Distinct(Claim(s, t))
  }

  ghost predicate Apart(a: seq<int>, b: seq<int>) {
    forall x :: x in a ==> x !in b
  }

  ghost predicate AllApart(files: Files) {
    forall s, u :: s in files && u in files && s != u ==> Apart(Claim(s, files[s].tree), Claim(u, files[u].tree))
  }

  ghost predicate Sizes(files: Files) {
    && FreeMapSector in files && !files[FreeMapSector].isDir && files[FreeMapSector].tree.bytes == FreeMapFileSize
    && DirectorySector in files && files[DirectorySector].isDir
    && forall s :: s in files && files[s].isDir ==> files[s].tree.bytes == DirectoryFileSize
  }

  // Every file is there, whole, and no sector belongs to two of them.
  ghost predicate Layout(disk: Disk, files: Files) {
    && |disk| == NumSectors && Sizes(files) && AllApart(files)
    && forall s :: s in files ==> FileOk(disk, s, files[s].tree)
  }

  // The volume v is what the disk holds.
  ghost predicate Stores(disk: Disk, v: Volume) {
    && Layout(disk, v.files)
    && StoredBits(Flat(disk, v.files[FreeMapSector].tree), NumWords) == v.bits
    && (forall d :: d in v.tables <==> d in v.files && v.files[d].isDir)
    && (forall f :: f in v.data <==> f in v.files && !v.files[f].isDir && f != FreeMapSector)
    && (forall d :: d in v.tables ==> DecodeTable(Flat(disk, v.files[d].tree), NumDirEntries) == v.tables[d])
    && (forall f :: f in v.data ==> Flat(disk, v.files[f].tree) == v.data[f])
  }

  // ---- what is true of every volume ---------------------------------------------------

  ghost predicate Marked(files: Files, bits: Bits) {
    forall s :: s in files ==> AllMarked(bits, Claim(s, files[s].tree))
  }

  // Entry i of directory d is in use.
  ghost predicate Ref(tables: map<int, Table>, d: int, i: int) {
    d in tables && 0 <= i < |tables[d]| && tables[d][i].inUse
  }

  ghost predicate RefOk(files: Files, d: int, e: Entry) {
    && d in files && e.sector in files && e.sector > DirectorySector
    && files[e.sector].isDir == e.isDirectory
    && files[e.sector].depth == files[d].depth + 1
  }

  // Directory entries lead to files of the kind they say, one entry at most to each file,
  // and names are unique within a directory.
  ghost predicate Linked(files: Files, tables: map<int, Table>) {
    && (forall d :: d in tables ==> Unique(tables[d]) && |tables[d]| == NumDirEntries)
    && (forall d, i :: Ref(tables, d, i) ==> RefOk(files, d, tables[d][i]))
    && (forall d, i, e, j :: Ref(tables, d, i) && Ref(tables, e, j) && tables[d][i].sector == tables[e][j].sector
                             ==> d == e && i == j)
  }

  ghost predicate Sane(v: Volume) {
    && |v.bits| == NumSectors && Sizes(v.files) && AllApart(v.files)
    && (forall s :: s in v.files ==> Distinct(Claim(s, v.files[s].tree)))
    && (forall d :: d in v.tables <==> d in v.files && v.files[d].isDir)
    && (forall f :: f in v.data <==> f in v.files && !v.files[f].isDir && f != FreeMapSector)
    && Marked(v.files, v.bits) && Linked(v.files, v.tables)
  }

  // The invariant of the file system.
  ghost predicate Inv(disk: Disk, v: Volume) {
    Stores(disk, v) && Sane(v)
  }

  // ---- frames -------------------------------------------------------------------------

  lemma ClaimMembers(s: int, t: Tree)
    ensures s in Claim(s, t)
    ensures forall x :: x in AllOf(t) ==> x in Claim(s, t)
    ensures forall x :: x in DataOf(t) ==> x in Claim(s, t)
    ensures forall x :: x in IndexOf(t) ==> x in Claim(s, t)
  {
    Members(t);
    assert Claim(s, t)[0] == s;
    forall x | x in AllOf(t) ensures x in Claim(s, t) {}
  }

  lemma DistinctClaim(s: int, t: Tree)
    requires Distinct(Claim(s, t))
    ensures Distinct(AllOf(t)) && s !in AllOf(t) && s !in DataOf(t) && s !in IndexOf(t)
    ensures Distinct(DataOf(t)) && forall x :: x in DataOf(t) ==> x !in IndexOf(t)
  {
    var c := Claim(s, t);
    assert forall i :: 0 <= i < |AllOf(t)| ==> AllOf(t)[i] == c[i + 1];
    assert c[0] == s;
    Members(t);
    DataIndexApart(t);
  }

  // A file none of whose sectors changed is as it was.
  lemma KeepFile(d1: Disk, d2: Disk, s: int, t: Tree)
    requires FileOk(d1, s, t) && Agree(d1, d2, Claim(s, t))
    ensures FileOk(d2, s, t) && d2[s] == d1[s] && Flat(d2, t) == Flat(d1, t)
  {
    ClaimMembers(s, t);
    RepFrame(d1, d2, d1[s].hdr, t);
    SameFlat(d1, d2, t);
  }

  lemma SameFlat(d1: Disk, d2: Disk, t: Tree)
    requires Shape(t) && Stored(d1, DataOf(t)) && Agree(d1, d2, DataOf(t))
    ensures Stored(d2, DataOf(t)) && Flat(d2, t) == Flat(d1, t)
  {
    DataSize(t);
    forall o | 0 <= o < t.bytes ensures Flat(d2, t)[o] == Flat(d1, t)[o] {
      QuotBelowCeil(o, t.bytes, SectorSize);
      assert DataOf(t)[Quot(o, SectorSize)] in DataOf(t);
    }
  }

  // A write into file s changes the bytes of file s as asked, and nothing else.
  lemma WriteKeeps(d1: Disk, d2: Disk, files: Files, s: int, pos: nat, data: seq<Byte>)
    requires Layout(d1, files) && s in files && 0 < |data| && pos + |data| <= files[s].tree.bytes
    requires Written(d1, d2, files[s].tree, pos, data)
    ensures Layout(d2, files)
    ensures forall u :: u in files ==> d2[u] == d1[u]
    ensures Flat(d2, files[s].tree) == Splice(Flat(d1, files[s].tree), pos, data)
    ensures forall u :: u in files && u != s ==> Flat(d2, files[u].tree) == Flat(d1, files[u].tree)
  {
    WriteKeepsFile(d1, d2, s, files[s].tree, pos, data);
    forall u | u in files && u != s
      ensures d2[u] == d1[u] && FileOk(d2, u, files[u].tree) && Flat(d2, files[u].tree) == Flat(d1, files[u].tree)
    {
      WriteKeepsOther(d1, d2, files[s].tree, pos, data, s, u, files[u].tree);
    }
  }

  lemma WriteKeepsFile(d1: Disk, d2: Disk, s: int, t: Tree, pos: nat, data: seq<Byte>)
    requires FileOk(d1, s, t) && 0 < |data| && pos + |data| <= t.bytes && Written(d1, d2, t, pos, data)
    ensures FileOk(d2, s, t) && d2[s] == d1[s] && Flat(d2, t) == Splice(Flat(d1, t), pos, data)
  {
    DistinctClaim(s, t);
    OutsideData(d1, d2, t, pos, data);
    RepFrame(d1, d2, d1[s].hdr, t);
    WrittenFlat(d1, d2, t, pos, data);
  }

  lemma WriteKeepsOther(d1: Disk, d2: Disk, t: Tree, pos: nat, data: seq<Byte>, s: int, u: int, w: Tree)
    requires Shape(t) && Stored(d1, DataOf(t))
    requires 0 < |data| && pos + |data| <= t.bytes && Written(d1, d2, t, pos, data)
    requires FileOk(d1, u, w) && Apart(Claim(s, t), Claim(u, w))
    ensures FileOk(d2, u, w) && d2[u] == d1[u] && Flat(d2, w) == Flat(d1, w)
  {
    ClaimMembers(s, t);
    ClaimMembers(u, w);
    OutsideData(d1, d2, t, pos, data);
    KeepFile(d1, d2, u, w);
  }

  // A write changes data sectors of its file only.
  lemma OutsideData(d1: Disk, d2: Disk, t: Tree, pos: nat, data: seq<Byte>)
    requires Shape(t) && Stored(d1, DataOf(t))
    requires 0 < |data| && pos + |data| <= t.bytes && Written(d1, d2, t, pos, data)
    ensures |d1| == |d2| && forall x :: 0 <= x < |d1| && x !in DataOf(t) ==> d2[x] == d1[x]
  {
    var first, last := Quot(pos, SectorSize), Quot(pos + |data| - 1, SectorSize);
    forall x | 0 <= x < |d1| && x !in DataOf(t) ensures d2[x] == d1[x] {
      assert forall y :: y in DataOf(t)[first..last + 1] ==> y in DataOf(t);
    }
  }

  // ---- adding and removing a file -----------------------------------------------------

  lemma AddLayout(d1: Disk, d2: Disk, files: Files, s: int, info: FileInfo)
    requires Layout(d1, files) && |d2| == |d1| && s !in files
    requires FileOk(d2, s, info.tree) && (info.isDir ==> info.tree.bytes == DirectoryFileSize)
    requires forall u :: u in files ==> Apart(Claim(s, info.tree), Claim(u, files[u].tree))
    requires forall x :: 0 <= x < |d1| && x !in Claim(s, info.tree) ==> d2[x] == d1[x]
    ensures Layout(d2, files[s := info])
    ensures forall u :: u in files ==> d2[u] == d1[u]
    ensures forall u :: u in files ==> Flat(d2, files[u].tree) == Flat(d1, files[u].tree)
  {
    forall u | u in files
      ensures d2[u] == d1[u] && FileOk(d2, u, files[u].tree) && Flat(d2, files[u].tree) == Flat(d1, files[u].tree)
    {
      KeepFile(d1, d2, u, files[u].tree);
    }
    AddApart(files, s, info);
  }

  lemma AddApart(files: Files, s: int, info: FileInfo)
    requires AllApart(files) && s !in files
    requires forall u :: u in files ==> Apart(Claim(s, info.tree), Claim(u, files[u].tree))
    ensures AllApart(files[s := info])
  {
    var more := files[s := info];
    forall a, b | a in more && b in more && a != b ensures Apart(Claim(a, more[a].tree), Claim(b, more[b].tree)) {
      if a == s {
        assert Apart(Claim(s, info.tree), Claim(b, files[b].tree));
      } else if b == s {
        assert Apart(Claim(s, info.tree), Claim(a, files[a].tree));
      }
    }
  }

  // The sectors taken for a new file belong to no file yet.
  lemma FreshIsApart(files: Files, bits: Bits, s: int, t: Tree)
    requires Marked(files, bits) && AllClear(bits, Claim(s, t))
    ensures s !in files
    ensures forall u :: u in files ==> Apart(Claim(s, t), Claim(u, files[u].tree))
  {
    ClaimMembers(s, t);
    forall u | u in files ensures u != s && Apart(Claim(s, t), Claim(u, files[u].tree)) {
      assert AllMarked(bits, Claim(u, files[u].tree));
      ClaimMembers(u, files[u].tree);
    }
  }

  lemma AddMarked(files: Files, bits: Bits, s: int, info: FileInfo)
    requires Marked(files, bits) && AllClear(bits, Claim(s, info.tree))
    ensures Marked(files[s := info], Mark(bits, Claim(s, info.tree)))
  {
    var more, b := files[s := info], Mark(bits, Claim(s, info.tree));
    forall u | u in more ensures AllMarked(b, Claim(u, more[u].tree)) {
      if u != s {
        assert AllMarked(bits, Claim(u, files[u].tree));
      }
    }
  }

  lemma RemoveMarked(files: Files, bits: Bits, s: int, gone: seq<int>)
    requires Marked(files, bits) && AllApart(files) && s in files
    requires forall x :: x in gone ==> x in Claim(s, files[s].tree)
    ensures Marked(files - {s}, Clear(bits, gone))
  {
    forall u | u in files - {s} ensures AllMarked(Clear(bits, gone), Claim(u, files[u].tree)) {
      assert AllMarked(bits, Claim(u, files[u].tree));
      assert Apart(Claim(s, files[s].tree), Claim(u, files[u].tree));
    }
  }

  ghost predicate NoneInUse(t: Table) {
    |t| == NumDirEntries && forall i :: 0 <= i < |t| ==> !t[i].inUse
  }

  // Entry i of directory d comes to name the new file s.
  lemma LinkAdd(files: Files, tables: map<int, Table>, d: int, i: nat, table: Table, s: int, info: FileInfo, tables': map<int, Table>)
    requires Linked(files, tables) && d in tables && d in files && s !in files && s !in tables && s > DirectorySector
    requires i < |tables[d]| == |table| && !tables[d][i].inUse && table == tables[d][i := table[i]]
    requires Unique(table) && table[i].inUse && table[i].sector == s && table[i].isDirectory == info.isDir
    requires info.depth == files[d].depth + 1
    requires forall e :: e in tables' <==> e in tables || (info.isDir && e == s)
    requires forall e :: e in tables ==> tables'[e] == if e == d then table else tables[e]
    requires info.isDir ==> NoneInUse(tables'[s])
    ensures Linked(files[s := info], tables')
  {
    var more := files[s := info];
    forall e, j | Ref(tables', e, j)
      ensures RefOk(more, e, tables'[e][j])
      ensures e in tables && ((e == d && j == i) || (Ref(tables, e, j) && tables'[e][j] == tables[e][j]))
    {
      if !(e == d && j == i) {
        assert Ref(tables, e, j);
        assert RefOk(files, e, tables[e][j]);
      }
    }
    forall e, j, g, k | Ref(tables', e, j) && Ref(tables', g, k) && tables'[e][j].sector == tables'[g][k].sector
      ensures e == g && j == k
    {
      if Ref(tables, e, j) {
        assert RefOk(files, e, tables[e][j]);
      }
      if Ref(tables, g, k) {
        assert RefOk(files, g, tables[g][k]);
      }
    }
  }

  // The entry i of directory d, and the file s it named, go.
  lemma LinkRemove(files: Files, tables: map<int, Table>, d: int, i: nat, s: int, table: Table)
    requires Linked(files, tables) && Ref(tables, d, i) && tables[d][i].sector == s
    requires table == tables[d][i := tables[d][i].(inUse := false)]
    ensures d != s && Unique(table)
    ensures Linked(files - {s}, tables[d := table] - {s})
  {
    assert RefOk(files, d, tables[d][i]);
    var less, tables' := files - {s}, tables[d := table] - {s};
    assert Unique(table) by {
      assert Unique(tables[d]);
    }
    forall e, j | Ref(tables', e, j) ensures Ref(tables, e, j) && tables'[e][j] == tables[e][j] && RefOk(less, e, tables'[e][j]) {
      assert Ref(tables, e, j);
      assert RefOk(files, e, tables[e][j]);
      assert tables[e][j].sector != s;
    }
  }

  // ---- no two files share a sector ----------------------------------------------------

  // The file that a path of entry numbers leads to from the root.
  ghost predicate Leads(v: Volume, path: seq<nat>, s: int)
    decreases |path|
  {
    if path == [] then s == DirectorySector
    else
      var n := |path| - 1;
      exists d :: Leads(v, path[..n], d) && Ref(v.tables, d, path[n]) && v.tables[d][path[n]].sector == s
  }

  lemma {:induction false} LeadsToFile(v: Volume, path: seq<nat>, s: int)
    requires Sane(v) && Leads(v, path, s)
    ensures s in v.files && (path != [] ==> s > DirectorySector)
    decreases |path|
  {
    if path != [] {
      var n := |path| - 1;
      var d :| Leads(v, path[..n], d) && Ref(v.tables, d, path[n]) && v.tables[d][path[n]].sector == s;
      assert RefOk(v.files, d, v.tables[d][path[n]]);
    }
  }

  lemma OneEntry(v: Volume, d: int, i: nat, e: int, j: nat)
    requires Sane(v) && Ref(v.tables, d, i) && Ref(v.tables, e, j) && v.tables[d][i].sector == v.tables[e][j].sector
    ensures d == e && i == j
  {
  }

  // Different paths lead to different files.
  lemma {:induction false} OnePath(v: Volume, p: seq<nat>, q: seq<nat>, s: int)
    requires Sane(v) && Leads(v, p, s) && Leads(v, q, s)
    ensures p == q
    decreases |p|
  {
    hide Sane;
    LeadsToFile(v, p, s);
    LeadsToFile(v, q, s);
    if p != [] && q != [] {
      var m, n := |p| - 1, |q| - 1;
      var d :| Leads(v, p[..m], d) && Ref(v.tables, d, p[m]) && v.tables[d][p[m]].sector == s;
      var e :| Leads(v, q[..n], e) && Ref(v.tables, e, q[n]) && v.tables[e][q[n]].sector == s;
      OneEntry(v, d, p[m], e, q[n]);
      OnePath(v, p[..m], q[..n], d);
      assert p == p[..m] + [p[m]] && q == q[..n] + [q[n]];
    }
  }

  // How a file is reached: the free map by its fixed sector, every other file from the root.
  datatype Route = FreeMapFile | Entries(path: seq<nat>)

  ghost predicate Reaches(v: Volume, r: Route, s: int) {
    match r
    case FreeMapFile => s == FreeMapSector
    case Entries(path) => Leads(v, path, s)
  }

  lemma OneRoute(v: Volume, p: Route, q: Route, s: int)
    requires Sane(v) && Reaches(v, p, s) && Reaches(v, q, s)
    ensures p == q
  {
    if p.Entries? {
      LeadsToFile(v, p.path, s);
    }
    if q.Entries? {
      LeadsToFile(v, q.path, s);
    }
    if p.Entries? && q.Entries? {
      OnePath(v, p.path, q.path, s);
    }
  }

  // What is reached is a file of the volume.
  lemma ReachesFile(v: Volume, r: Route, s: int)
    requires Sane(v) && Reaches(v, r, s)
    ensures s in v.files
  {
    if r.Entries? {
      LeadsToFile(v, r.path, s);
    }
  }

  // What the invariant is for: every sector of every file reachable from sectors 0 and 1 is
  // marked in the free map as the disk holds it, and no sector is reached along two routes,
  // or twice along one.
  lemma NoSharedSector(disk: Disk, v: Volume, p: Route, q: Route, s: int, u: int)
    requires Inv(disk, v) && Reaches(v, p, s) && Reaches(v, q, u)
    ensures s in v.files && u in v.files
    ensures var a, b := Claim(s, v.files[s].tree), Claim(u, v.files[u].tree);
            forall i, j :: 0 <= i < |a| && 0 <= j < |b| && a[i] == b[j] ==> p == q && s == u && i == j
    ensures AllMarked(StoredBits(Flat(disk, v.files[FreeMapSector].tree), NumWords), Claim(s, v.files[s].tree))
  {
    ReachesFile(v, p, s);
    ReachesFile(v, q, u);
    var a, b := Claim(s, v.files[s].tree), Claim(u, v.files[u].tree);
    assert AllMarked(v.bits, a);
    forall i, j | 0 <= i < |a| && 0 <= j < |b| && a[i] == b[j] ensures p == q && s == u && i == j {
      assert a[i] in a && b[j] in b;
      assert s != u ==> Apart(a, b);
      OneRoute(v, p, q, s);
    }
  }
}
