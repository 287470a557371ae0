/** What the operations of the file system do to a volume, and what every run of them keeps
    (NachOS/filesys/filesys.cc). */
module VolumeRuns {
  import opened BitSpec
  import opened ByteCodec
  import opened DirectoryTable
  import opened Geometry
  import opened HeaderLookup
  import opened HeaderTree
  import opened OpenFiles
  import opened Paths
  import opened Sequences
  import opened Volumes

  // ---- names --------------------------------------------------------------------------

  // One step of a lookup: the sector that a directory has for a component, or -1.
  ghost function Descend(v: Volume, at: int, component: Str): int {
    if at in v.tables then Find(v.tables[at], component) else -1
  }

  // The left fold of Find over the components of a path.
  ghost function Walk(v: Volume, at: int, components: seq<Str>): int
    decreases |components|
  {
    if components == [] then at else Walk(v, Descend(v, at, components[0]), components[1..])
  }

  lemma {:induction false} WalkAppend(v: Volume, at: int, a: seq<Str>, b: seq<Str>)
    ensures Walk(v, at, a + b) == Walk(v, Walk(v, at, a), b)
    decreases |a|
  {
    if a == [] {
      assert a + b == b;
    } else {
      assert (a + b)[1..] == a[1..] + b;
      WalkAppend(v, Descend(v, at, a[0]), a[1..], b);
    }
  }

  // No component before the last names a regular file.
  ghost predicate ThroughDirectories(v: Volume, at: int, components: seq<Str>)
    decreases |components|
  {
    components == [] ||
    ((at == -1 || at in v.tables) && ThroughDirectories(v, Descend(v, at, components[0]), components[1..]))
  }

  lemma {:induction false} ThroughPrefix(v: Volume, at: int, a: seq<Str>, last: Str)
    requires ThroughDirectories(v, at, a + [last])
    ensures ThroughDirectories(v, at, a) && (Walk(v, at, a) == -1 || Walk(v, at, a) in v.tables)
    decreases |a|
  {
    if a != [] {
      assert (a + [last])[1..] == a[1..] + [last] && (a + [last])[0] == a[0];
      ThroughPrefix(v, Descend(v, at, a[0]), a[1..], last);
    }
  }

  // Looking up a path is looking up its last component in the directory that SplitPath
  // finds for the rest.
  lemma SplitLookup(v: Volume, path: Str)
    requires WellFormed(path) && |path| > 1
    requires ThroughDirectories(v, DirectorySector, Components(path))
    ensures Walk(v, DirectorySector, Components(path))
         == Descend(v, Walk(v, DirectorySector, Components(DirName(path))), BaseName(path))
    ensures ThroughDirectories(v, DirectorySector, Components(DirName(path)))
    ensures Parent(v, path) == -1 || Parent(v, path) in v.tables
  {
    SplitComponents(path);
    var a := Components(DirName(path));
    ThroughPrefix(v, DirectorySector, a, BaseName(path));
    WalkAppend(v, DirectorySector, a, [BaseName(path)]);
  }

  // The directory that the last component of a path is looked up in.
  ghost function Parent(v: Volume, path: Str): int
    requires WellFormed(path) && |path| > 1
  {
    Walk(v, DirectorySector, Components(DirName(path)))
  }

  // ---- operations ---------------------------------------------------------------------

  // A new file in directory d: its header takes the lowest free sector s, its sectors are
  // the free ones that follow.
  ghost predicate Grown(v: Volume, w: Volume, d: int, name: Str, size: nat, isDir: bool, s: int, t: Tree) {
    && d in v.tables && d in v.files && HasClear(v.bits) && s == First(v.bits) as int && s < 0x8000_0000
    && t.bytes == size && Shape(t) && FirstFit(v.bits[First(v.bits) := true], AllOf(t))
    && w.files == v.files[s := FileInfo(t, isDir, v.files[d].depth + 1)]
    && w.bits == Mark(v.bits, Claim(s, t))
    && (forall e :: e in w.tables <==> e in v.tables || (isDir && e == s))
    && Added(v.tables[d], w.tables[d], name, s, isDir, true)
    && (forall e :: e in v.tables && e != d ==> w.tables[e] == v.tables[e])
    && (isDir ==> NoneInUse(w.tables[s]))
    && (forall f :: f in w.data <==> f in v.data || (!isDir && f == s))
    && (forall f :: f in v.data ==> w.data[f] == v.data[f])
  }

  // A new directory beside directory d that no entry names: CreateDirectory does not look at
  // whether the entry could be made, so its sectors are taken for good.
  ghost predicate Lost(v: Volume, w: Volume, d: int, s: int, t: Tree) {
    && d in v.tables && d in v.files && HasClear(v.bits) && s == First(v.bits) as int
    && t.bytes == DirectoryFileSize && Shape(t) && FirstFit(v.bits[First(v.bits) := true], AllOf(t))
    && w.files == v.files[s := FileInfo(t, true, v.files[d].depth + 1)]
    && w.bits == Mark(v.bits, Claim(s, t))
    && s in w.tables && w.tables == v.tables[s := w.tables[s]] && NoneInUse(w.tables[s])
    && w.data == v.data
  }

  // The file that name stands for in directory d is gone, but its index sectors stay marked.
  ghost predicate Shrunk(v: Volume, w: Volume, d: int, name: Str, s: int) {
    && d in v.tables && Index(v.tables[d], name) >= 0 && s == Find(v.tables[d], name) && s in v.files
    && w.files == v.files - {s}
    && w.bits == Clear(v.bits, [s] + DataOf(v.files[s].tree))
    && w.tables == v.tables[d := RemoveEntry(v.tables[d], name)] - {s}
    && w.data == v.data - {s}
  }

  lemma GrownSane(v: Volume, w: Volume, d: int, name: Str, size: nat, isDir: bool, s: int, t: Tree)
    requires Sane(v) && Grown(v, w, d, name, size, isDir, s, t)
    requires isDir ==> size == DirectoryFileSize
    ensures Sane(w)
  {
    var info := FileInfo(t, isDir, v.files[d].depth + 1);
    GrownClaim(v, s, t);
    FreshIsApart(v.files, v.bits, s, t);
    AddApart(v.files, s, info);
    AddMarked(v.files, v.bits, s, info);
    GrownLinked(v, w, d, name, size, isDir, s, t);
  }

  lemma GrownClaim(v: Volume, s: int, t: Tree)
    requires Sane(v) && HasClear(v.bits) && s == First(v.bits) as int
    requires FirstFit(v.bits[First(v.bits) := true], AllOf(t))
    ensures AllClear(v.bits, Claim(s, t)) && Distinct(Claim(s, t)) && s > DirectorySector
  {
    var c, b := Claim(s, t), v.bits[First(v.bits) := true];
    forall x | x in AllOf(t) ensures 0 <= x < |v.bits| && !v.bits[x] && x != s {
      assert !b[x];
    }
    forall i, j | 0 <= i < j < |c| ensures c[i] != c[j] {
      assert c[j] == AllOf(t)[j - 1] && AllOf(t)[j - 1] in AllOf(t);
    }
    assert AllMarked(v.bits, Claim(FreeMapSector, v.files[FreeMapSector].tree));
    assert AllMarked(v.bits, Claim(DirectorySector, v.files[DirectorySector].tree));
    ClaimMembers(FreeMapSector, v.files[FreeMapSector].tree);
    ClaimMembers(DirectorySector, v.files[DirectorySector].tree);
  }

  lemma LostSane(v: Volume, w: Volume, d: int, s: int, t: Tree)
    requires Sane(v) && Lost(v, w, d, s, t)
    ensures Sane(w) && s !in v.files
  {
    var info := FileInfo(t, true, v.files[d].depth + 1);
    GrownClaim(v, s, t);
    FreshIsApart(v.files, v.bits, s, t);
    AddApart(v.files, s, info);
    AddMarked(v.files, v.bits, s, info);
    LostLinked(v, w, s, info);
  }

  lemma LostLinked(v: Volume, w: Volume, s: int, info: FileInfo)
    requires Linked(v.files, v.tables) && s !in v.files && s !in v.tables && w.files == v.files[s := info]
    requires s in w.tables && w.tables == v.tables[s := w.tables[s]] && NoneInUse(w.tables[s])
    ensures Linked(w.files, w.tables)
    ensures forall d, i :: Ref(w.tables, d, i) ==> w.tables[d][i].sector != s
  {
    forall d, i | Ref(w.tables, d, i)
      ensures Ref(v.tables, d, i) && w.tables[d][i] == v.tables[d][i] && w.tables[d][i].sector != s
      ensures RefOk(w.files, d, w.tables[d][i])
    {
      assert Ref(v.tables, d, i);
      assert RefOk(v.files, d, v.tables[d][i]);
    }
  }

  // No path leads to it.
  lemma LostUnreached(v: Volume, w: Volume, d: int, s: int, t: Tree, r: Route)
    requires Sane(v) && Lost(v, w, d, s, t)
    ensures !Reaches(w, r, s)
  {
    LostSane(v, w, d, s, t);
    GrownClaim(v, s, t);
    LostLinked(v, w, s, FileInfo(t, true, v.files[d].depth + 1));
  }

  lemma GrownLinked(v: Volume, w: Volume, d: int, name: Str, size: nat, isDir: bool, s: int, t: Tree)
    requires Sane(v) && Grown(v, w, d, name, size, isDir, s, t) && s !in v.files && s > DirectorySector
    ensures Linked(w.files, w.tables)
  {
    var table := w.tables[d];
    AddKeepsUnique(v.tables[d], table, name, s, isDir, true);
    var i: nat :| FirstSlot(v.tables[d], i) && table == v.tables[d][i := Named(v.tables[d][i], name, s, isDir)];
    LinkAdd(v.files, v.tables, d, i, table, s, w.files[s], w.tables);
  }

  lemma ShrunkSane(v: Volume, w: Volume, d: int, name: Str, s: int)
    requires Sane(v) && Shrunk(v, w, d, name, s)
    ensures Sane(w) && d != s
  {
    var i := Index(v.tables[d], name);
    assert Ref(v.tables, d, i);
    assert RefOk(v.files, d, v.tables[d][i]);
    LinkRemove(v.files, v.tables, d, i, s, RemoveEntry(v.tables[d], name));
    ClaimMembers(s, v.files[s].tree);
    RemoveMarked(v.files, v.bits, s, [s] + DataOf(v.files[s].tree));
  }

  // ---- runs ---------------------------------------------------------------------------

  datatype Op =
    | Create(path: Str, size: nat)
    | CreateDirectory(path: Str)
    | WriteAt(path: Str, pos: nat, from: seq<Byte>)
    | Remove(path: Str)

  // Paths are well formed and go through directories. A new file either fits with its index
  // sectors or fails the test of the code; for a new directory there is room; only regular
  // files are written to, and only headers of up to two levels are removed.
  ghost predicate Admissible(v: Volume, op: Op) {
    && WellFormed(op.path) && |op.path| > 1
    && ThroughDirectories(v, DirectorySector, Components(op.path))
    && match op
       case Create(path, size) =>
         size <= MaxBytes && (ClearCount(v.bits) <= Ceil(size, SectorSize) || ClearCount(v.bits) > Need(size))
       case CreateDirectory(path) =>
         Parent(v, path) !in v.tables || (DirectoryFileSize <= MaxBytes && ClearCount(v.bits) > Need(DirectoryFileSize))
       case WriteAt(path, pos, from) =>
         var f := Walk(v, DirectorySector, Components(path));
         f == -1 || f in v.data
       case Remove(path) =>
         var s := Walk(v, DirectorySector, Components(path));
         s == -1 || (s in v.files && v.files[s].tree.bytes <= Limit3)
  }

  // A name can be added to a directory: it is new, and an entry is free.
  ghost predicate CanEnter(t: Table, name: Str) {
    Index(t, name) == -1 && HasSlot(t)
  }

  // Create answers TRUE exactly when this holds.
  ghost predicate CanCreate(v: Volume, path: Str, size: nat)
    requires WellFormed(path) && |path| > 1
  {
    && Parent(v, path) in v.tables && CanEnter(v.tables[Parent(v, path)], BaseName(path))
    && ClearCount(v.bits) > Need(size)
  }

  ghost predicate Step(v: Volume, op: Op, w: Volume)
    requires Admissible(v, op)
  {
    match op
    case Create(path, size) =>
      if CanCreate(v, path, size) then
        exists s, t :: Grown(v, w, Parent(v, path), BaseName(path), size, false, s, t)
      else w == v
    case CreateDirectory(path) =>
      if Parent(v, path) !in v.tables then w == v
      else if CanEnter(v.tables[Parent(v, path)], BaseName(path)) then
        exists s, t :: Grown(v, w, Parent(v, path), BaseName(path), DirectoryFileSize, true, s, t)
      else exists s, t :: Lost(v, w, Parent(v, path), s, t)
    case WriteAt(path, pos, from) =>
      var f := Walk(v, DirectorySector, Components(path));
      if f == -1 then w == v
      else
        var n := Clip(|from|, pos, |v.data[f]|);
        w == v.(data := v.data[f := if n == 0 then v.data[f] else Splice(v.data[f], pos, from[..n])])
    case Remove(path) =>
      var s := Walk(v, DirectorySector, Components(path));
      if s == -1 then w == v else Shrunk(v, w, Parent(v, path), BaseName(path), s)
  }

  lemma StepSane(v: Volume, op: Op, w: Volume)
    requires Sane(v) && Admissible(v, op) && Step(v, op, w)
    ensures Sane(w)
  {
    match op
    case Create(path, size) =>
      if CanCreate(v, path, size) {
        var s, t :| Grown(v, w, Parent(v, path), BaseName(path), size, false, s, t);
        GrownSane(v, w, Parent(v, path), BaseName(path), size, false, s, t);
      }
    case CreateDirectory(path) =>
      var d := Parent(v, path);
      if d in v.tables {
        if CanEnter(v.tables[d], BaseName(path)) {
          var s, t :| Grown(v, w, d, BaseName(path), DirectoryFileSize, true, s, t);
          GrownSane(v, w, d, BaseName(path), DirectoryFileSize, true, s, t);
        } else {
          var s, t :| Lost(v, w, d, s, t);
          LostSane(v, w, d, s, t);
        }
      }
    case WriteAt(path, pos, from) =>
    case Remove(path) =>
      var s := Walk(v, DirectorySector, Components(path));
      if s != -1 {
        ShrunkSane(v, w, Parent(v, path), BaseName(path), s);
      }
  }

  // vs is the list of volumes before, between and after the operations.
  ghost predicate Run(vs: seq<Volume>, ops: seq<Op>) {
    && |vs| == |ops| + 1
    && forall k :: 0 <= k < |ops| ==> RunStep(vs, ops, k)
  }

  ghost predicate RunStep(vs: seq<Volume>, ops: seq<Op>, k: nat)
    requires |vs| == |ops| + 1 && k < |ops|
  {
    Admissible(vs[k], ops[k]) && Step(vs[k], ops[k], vs[k + 1])
  }

  // Every run from a sane volume stays sane.
  lemma {:induction false} RunSane(vs: seq<Volume>, ops: seq<Op>, k: nat)
    requires Run(vs, ops) && Sane(vs[0]) && k <= |ops|
    ensures Sane(vs[k])
    decreases k
  {
    if k > 0 {
      RunSane(vs, ops, k - 1);
      assert RunStep(vs, ops, k - 1);
      StepSane(vs[k - 1], ops[k - 1], vs[k]);
    }
  }

  // What the writes of a run, up to the k-th operation, make of the bytes b of file f.
  ghost function Replay(vs: seq<Volume>, ops: seq<Op>, f: int, b: seq<Byte>, k: nat): (r: seq<Byte>)
    requires Run(vs, ops) && k <= |ops|
    ensures |r| == |b|
    decreases k
  {
    if k == 0 then b
    else
      var r := Replay(vs, ops, f, b, k - 1);
      var op := ops[k - 1];
      if op.WriteAt? && Walk(vs[k - 1], DirectorySector, Components(op.path)) == f then
        var n := Clip(|op.from|, op.pos, |r|);
        if n == 0 then r else Splice(r, op.pos, op.from[..n])
      else r
  }

  // Over every run, a file that is not removed holds what was there at first with the
  // writes to that file, and to no other, put over it in order.
  lemma {:induction false} RunContents(vs: seq<Volume>, ops: seq<Op>, f: int, k: nat)
    requires Run(vs, ops) && Sane(vs[0]) && k <= |ops|
    requires forall j :: 0 <= j <= k ==> f in vs[j].data
    ensures vs[k].data[f] == Replay(vs, ops, f, vs[0].data[f], k)
    decreases k
  {
    if k > 0 {
      RunContents(vs, ops, f, k - 1);
      RunSane(vs, ops, k - 1);
      assert RunStep(vs, ops, k - 1);
      StepContents(vs[k - 1], ops[k - 1], vs[k], f);
    }
  }

  lemma StepContents(v: Volume, op: Op, w: Volume, f: int)
    requires Sane(v) && Admissible(v, op) && Step(v, op, w) && f in v.data && f in w.data
    ensures !(op.WriteAt? && Walk(v, DirectorySector, Components(op.path)) == f) ==> w.data[f] == v.data[f]
    ensures op.WriteAt? && Walk(v, DirectorySector, Components(op.path)) == f ==>
      var n := Clip(|op.from|, op.pos, |v.data[f]|);
      w.data[f] == if n == 0 then v.data[f] else Splice(v.data[f], op.pos, op.from[..n])
  {
    match op
    case Create(path, size) =>
      if CanCreate(v, path, size) {
        var s, t :| Grown(v, w, Parent(v, path), BaseName(path), size, false, s, t);
      }
    case CreateDirectory(path) =>
      var d := Parent(v, path);
      if d in v.tables {
        if CanEnter(v.tables[d], BaseName(path)) {
          var s, t :| Grown(v, w, d, BaseName(path), DirectoryFileSize, true, s, t);
        } else {
          var s, t :| Lost(v, w, d, s, t);
        }
      }
    case WriteAt(path, pos, from) =>
      assert AllMarked(v.bits, Claim(f, v.files[f].tree));
      ClaimMembers(f, v.files[f].tree);
      assert f >= 0;
    case Remove(path) =>
  }
}
