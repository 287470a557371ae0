/** What a caller of the file system sees of its operations: which paths lead where afterwards,
    what happens to the free map, and that Remove undoes Create but for the index sectors. */
module VolumeEffects {
  import opened BitSpec
  import opened ByteCodec
  import opened DirectoryTable
  import opened Geometry
  import opened HeaderLookup
  import opened HeaderTree
  import opened OpenFiles
  import opened Paths
  import opened Sequences
  import opened VolumeRuns
  import opened Volumes

  // What a path leads to from the root, or -1.
  ghost function Lookup(v: Volume, path: Str): int {
    Walk(v, DirectorySector, Components(path))
  }

  // The sectors of a file as bits: no other bit differs, and these are as said.
  ghost predicate OnlyIn(a: Bits, b: Bits, secs: seq<int>) {
    |a| == |b| && forall x :: 0 <= x < |a| && x !in secs ==> a[x] == b[x]
  }

  // ---- lookups ------------------------------------------------------------------------

  // What could be found in a directory is found there still.
  ghost predicate KeepsFound(v: Volume, w: Volume) {
    forall e, c: Str :: Descend(v, e, c) != -1 ==> Descend(w, e, c) == Descend(v, e, c)
  }

  lemma {:induction false} WalkKept(v: Volume, w: Volume, at: int, c: seq<Str>)
    requires KeepsFound(v, w) && -1 !in v.tables && Walk(v, at, c) != -1
    ensures Walk(w, at, c) == Walk(v, at, c)
    decreases |c|
  {
    if c != [] {
      if Descend(v, at, c[0]) == -1 {
        Nowhere(v, c[1..]);
      }
      WalkKept(v, w, Descend(v, at, c[0]), c[1..]);
    }
  }

  lemma {:induction false} Nowhere(v: Volume, c: seq<Str>)
    requires -1 !in v.tables
    ensures Walk(v, -1, c) == -1
    decreases |c|
  {
    if c != [] {
      Nowhere(v, c[1..]);
    }
  }

  lemma SaneTables(v: Volume)
    requires Sane(v)
    ensures -1 !in v.tables && -1 !in v.files && DirectorySector in v.tables
    ensures forall d :: d in v.tables ==> d in v.files
    ensures forall d, c: Str :: d in v.tables ==> (Find(v.tables[d], c) == -1 <==> Index(v.tables[d], c) == -1)
  {
    if -1 in v.files {
      assert AllMarked(v.bits, Claim(-1, v.files[-1].tree));
      ClaimMembers(-1, v.files[-1].tree);
    }
    forall d, c: Str | d in v.tables ensures Find(v.tables[d], c) == -1 <==> Index(v.tables[d], c) == -1 {
      var i := Index(v.tables[d], c);
      if i >= 0 {
        assert Ref(v.tables, d, i);
        assert RefOk(v.files, d, v.tables[d][i]);
      }
    }
  }

  // A path whose parent is there leads to what the parent has for its last component.
  lemma LookupLast(w: Volume, path: Str, d: int)
    requires WellFormed(path) && |path| > 1 && Walk(w, DirectorySector, Components(DirName(path))) == d
    ensures Lookup(w, path) == Descend(w, d, BaseName(path))
  {
    SplitComponents(path);
    WalkAppend(w, DirectorySector, Components(DirName(path)), [BaseName(path)]);
  }

  // ---- Create and CreateDirectory -----------------------------------------------------

  // A new file is found under its path and has the size asked for; what was found before is
  // found still; nothing else changes; and the free map loses its sectors only.
  ghost predicate Made(v: Volume, w: Volume, path: Str, size: nat, isDir: bool, s: int, t: Tree) {
    && s !in v.files && s > DirectorySector && Lookup(w, path) == s && t.bytes == size && Shape(t)
    && s in w.files && w.files[s].tree == t && w.files[s].isDir == isDir && w.files == v.files[s := w.files[s]]
    && (forall c: seq<Str> :: Walk(v, DirectorySector, c) != -1 ==> Walk(w, DirectorySector, c) == Walk(v, DirectorySector, c))
    && (forall f :: f in v.data ==> f in w.data && w.data[f] == v.data[f])
    && s !in v.data
    && (if isDir then s in w.tables && NoneInUse(w.tables[s]) && w.data.Keys == v.data.Keys else w.data.Keys == v.data.Keys + {s})
    && Taken(v, w, s, t)
  }

  // Exactly the sectors of the new file, all free before, are taken.
  ghost predicate Taken(v: Volume, w: Volume, s: int, t: Tree) {
    && AllClear(v.bits, Claim(s, t)) && Distinct(Claim(s, t)) && AllMarked(w.bits, Claim(s, t))
    && OnlyIn(v.bits, w.bits, Claim(s, t))
    && ClearCount(w.bits) + 1 + Need(t.bytes) == ClearCount(v.bits)
  }

  lemma GrownTaken(v: Volume, w: Volume, s: int, t: Tree)
    requires Sane(v) && HasClear(v.bits) && s == First(v.bits) as int && Shape(t)
    requires FirstFit(v.bits[First(v.bits) := true], AllOf(t)) && w.bits == Mark(v.bits, Claim(s, t))
    ensures Taken(v, w, s, t)
  {
    GrownClaim(v, s, t);
    CountMarkAll(v.bits, Claim(s, t));
    AllSize(t);
  }

  lemma GrownMade(v: Volume, w: Volume, path: Str, size: nat, isDir: bool, s: int, t: Tree)
    requires Sane(v) && WellFormed(path) && |path| > 1 && Parent(v, path) in v.tables
    requires Grown(v, w, Parent(v, path), BaseName(path), size, isDir, s, t)
    ensures Made(v, w, path, size, isDir, s, t)
  {
    GrownLookups(v, w, path, size, isDir, s, t);
    GrownFields(v, w, Parent(v, path), BaseName(path), size, isDir, s, t);
    hide Grown, Sane, Taken, Shape, Lookup, NoneInUse;
  }

  lemma GrownFields(v: Volume, w: Volume, d: int, name: Str, size: nat, isDir: bool, s: int, t: Tree)
    requires Sane(v) && Grown(v, w, d, name, size, isDir, s, t)
    ensures s !in v.files && s > DirectorySector && s !in v.data && t.bytes == size && Shape(t) && Taken(v, w, s, t)
    ensures s in w.files && w.files[s].tree == t && w.files[s].isDir == isDir && w.files == v.files[s := w.files[s]]
    ensures forall f :: f in v.data ==> f in w.data && w.data[f] == v.data[f]
    ensures if isDir then s in w.tables && NoneInUse(w.tables[s]) && w.data.Keys == v.data.Keys else w.data.Keys == v.data.Keys + {s}
  {
    GrownRoom(v, w, d, name, size, isDir, s, t);
    GrownTaken(v, w, s, t);
    NotTaken(v, s, t);
    SameKeys(v, w, s, isDir);
  }

  lemma SameKeys(v: Volume, w: Volume, s: int, isDir: bool)
    requires forall f :: f in w.data <==> f in v.data || (!isDir && f == s)
    ensures w.data.Keys == if isDir then v.data.Keys else v.data.Keys + {s}
  {
    assert forall f :: f in w.data.Keys <==> f in v.data.Keys || (!isDir && f == s);
  }

  lemma GrownLookups(v: Volume, w: Volume, path: Str, size: nat, isDir: bool, s: int, t: Tree)
    requires Sane(v) && WellFormed(path) && |path| > 1 && Parent(v, path) in v.tables
    requires Grown(v, w, Parent(v, path), BaseName(path), size, isDir, s, t)
    ensures Lookup(w, path) == s
    ensures forall c: seq<Str> :: Walk(v, DirectorySector, c) != -1 ==> Walk(w, DirectorySector, c) == Walk(v, DirectorySector, c)
  {
    var d, name := Parent(v, path), BaseName(path);
    GrownRoom(v, w, d, name, size, isDir, s, t);
    NotTaken(v, s, t);
    SaneTables(v);
    GrownKeepsFound(v, w, d, name, size, isDir, s, t);
    KeptWalks(v, w);
    AddKeepsUnique(v.tables[d], w.tables[d], name, s, isDir, true);
    LookupLast(w, path, Walk(w, DirectorySector, Components(DirName(path))));
  }

  lemma KeptWalks(v: Volume, w: Volume)
    requires KeepsFound(v, w) && -1 !in v.tables
    ensures forall c: seq<Str> :: Walk(v, DirectorySector, c) != -1 ==> Walk(w, DirectorySector, c) == Walk(v, DirectorySector, c)
  {
    forall c: seq<Str> | Walk(v, DirectorySector, c) != -1
      ensures Walk(w, DirectorySector, c) == Walk(v, DirectorySector, c)
    {
      WalkKept(v, w, DirectorySector, c);
    }
  }

  lemma GrownRoom(v: Volume, w: Volume, d: int, name: Str, size: nat, isDir: bool, s: int, t: Tree)
    requires Sane(v) && Grown(v, w, d, name, size, isDir, s, t)
    ensures AllClear(v.bits, Claim(s, t)) && Unique(v.tables[d]) && s > DirectorySector
  {
    GrownClaim(v, s, t);
  }

  lemma NotTaken(v: Volume, s: int, t: Tree)
    requires Sane(v) && AllClear(v.bits, Claim(s, t))
    ensures s !in v.files && s !in v.tables && s !in v.data
  {
    FreshIsApart(v.files, v.bits, s, t);
  }

  lemma GrownKeepsFound(v: Volume, w: Volume, d: int, name: Str, size: nat, isDir: bool, s: int, t: Tree)
    requires Sane(v) && Grown(v, w, d, name, size, isDir, s, t) && s !in v.tables
    ensures KeepsFound(v, w)
  {
    SaneTables(v);
    AddKeepsUnique(v.tables[d], w.tables[d], name, s, isDir, true);
    forall e, c: Str | Descend(v, e, c) != -1 ensures Descend(w, e, c) == Descend(v, e, c) {
      if e == d && Key(c) == Key(name) {
        SameKey(v.tables[d], c, name);
      }
    }
  }

  lemma CreateEffect(v: Volume, path: Str, size: nat, w: Volume) returns (s: int, t: Tree)
    requires Sane(v) && Admissible(v, Create(path, size)) && Step(v, Create(path, size), w) && CanCreate(v, path, size)
    ensures Made(v, w, path, size, false, s, t)
  {
    s, t :| Grown(v, w, Parent(v, path), BaseName(path), size, false, s, t);
    GrownMade(v, w, path, size, false, s, t);
  }

  lemma CreateDirectoryEffect(v: Volume, path: Str, w: Volume) returns (s: int, t: Tree)
    requires Sane(v) && Admissible(v, CreateDirectory(path)) && Step(v, CreateDirectory(path), w) && Parent(v, path) in v.tables
    ensures CanEnter(v.tables[Parent(v, path)], BaseName(path)) ==> Made(v, w, path, DirectoryFileSize, true, s, t)
    ensures !CanEnter(v.tables[Parent(v, path)], BaseName(path)) ==>
      && t.bytes == DirectoryFileSize && Taken(v, w, s, t) && w.data == v.data
      && forall c: seq<Str> :: Walk(w, DirectorySector, c) == Walk(v, DirectorySector, c) != s
  {
    var d := Parent(v, path);
    if CanEnter(v.tables[d], BaseName(path)) {
      s, t :| Grown(v, w, d, BaseName(path), DirectoryFileSize, true, s, t);
      GrownMade(v, w, path, DirectoryFileSize, true, s, t);
    } else {
      s, t :| Lost(v, w, d, s, t);
      GrownTaken(v, w, s, t);
      NotTaken(v, s, t);
      SaneTables(v);
      forall c: seq<Str> ensures Walk(w, DirectorySector, c) == Walk(v, DirectorySector, c) != s {
        WalkAround(v, w, DirectorySector, c, s);
      }
    }
  }

  // A table that no entry leads to is never walked into.
  lemma {:induction false} WalkAround(v: Volume, w: Volume, at: int, c: seq<Str>, s: int)
    requires Sane(v) && s !in v.files && s != -1 && at != s && s in w.tables && w.tables == v.tables[s := w.tables[s]]
    ensures Walk(w, at, c) == Walk(v, at, c) != s
    decreases |c|
  {
    if c != [] {
      FindsFile(v, at, c[0]);
      WalkAround(v, w, Descend(v, at, c[0]), c[1..], s);
    }
  }

  lemma FindsFile(v: Volume, at: int, name: Str)
    requires Sane(v)
    ensures Descend(v, at, name) != -1 ==> Descend(v, at, name) in v.files
  {
    if at in v.tables && Index(v.tables[at], name) >= 0 {
      assert Ref(v.tables, at, Index(v.tables[at], name));
      assert RefOk(v.files, at, v.tables[at][Index(v.tables[at], name)]);
    }
  }

  // ---- Remove -------------------------------------------------------------------------

  // The file is gone, under its path and from the volume; no other name in any directory that
  // is left means anything else; its header and data sectors are free again, its index
  // sectors are not, and no other bit differs.
  ghost predicate Gone(v: Volume, w: Volume, path: Str, s: int, t: Tree)
    requires WellFormed(path) && |path| > 1
  {
    && s in v.files && v.files[s].tree == t && w.files == v.files - {s} && w.data == v.data - {s}
    && Lookup(w, path) == -1
    && (forall c: seq<Str> :: Walk(w, DirectorySector, c) == Walk(v, DirectorySector, c) || Walk(w, DirectorySector, c) == -1)
    && (forall e, c: Str :: e in v.tables && e != s && !(e == Parent(v, path) && Key(c) == Key(BaseName(path))) ==>
          Descend(w, e, c) == Descend(v, e, c))
    && OnlyIn(v.bits, w.bits, Claim(s, t)) && AllClear(w.bits, [s] + DataOf(t)) && AllMarked(w.bits, IndexOf(t))
    && ClearCount(w.bits) == ClearCount(v.bits) + 1 + |DataOf(t)|
  }

  lemma RemoveEffect(v: Volume, path: Str, w: Volume) returns (s: int, t: Tree)
    requires Sane(v) && Admissible(v, Remove(path)) && Step(v, Remove(path), w) && Lookup(v, path) != -1
    ensures s == Lookup(v, path) && Gone(v, w, path, s, t)
  {
    s := Lookup(v, path);
    t := v.files[s].tree;
    ShrunkSane(v, w, Parent(v, path), BaseName(path), s);
    RemovedLookups(v, w, path, s);
    RemovedNames(v, w, Parent(v, path), BaseName(path), s);
    hide Sane, Walk, Components, WellFormed, DirName, BaseName, Find, DataOf, Claim, IndexOf, OnlyIn;
    GivenBack(v, w, s, t);
  }

  lemma RemovedNames(v: Volume, w: Volume, d: int, name: Str, s: int)
    requires Sane(v) && Shrunk(v, w, d, name, s)
    ensures forall e, c: Str :: e in v.tables && e != s && !(e == d && Key(c) == Key(name)) ==> Descend(w, e, c) == Descend(v, e, c)
  {
    RemoveKeepsUnique(v.tables[d], name);
  }

  lemma RemovedLookups(v: Volume, w: Volume, path: Str, s: int)
    requires Sane(v) && WellFormed(path) && |path| > 1 && Shrunk(v, w, Parent(v, path), BaseName(path), s)
    ensures Lookup(w, path) == -1
    ensures forall c: seq<Str> :: Walk(w, DirectorySector, c) == Walk(v, DirectorySector, c) || Walk(w, DirectorySector, c) == -1
  {
    var d, name := Parent(v, path), BaseName(path);
    RemoveKeepsUnique(v.tables[d], name);
    SaneTables(v);
    OnlyEntry(v, d, name, s);
    forall c: seq<Str>
      ensures Walk(w, DirectorySector, c) == Walk(v, DirectorySector, c) || Walk(w, DirectorySector, c) == -1
    {
      WalkLess(v, w, d, name, s, DirectorySector, c);
    }
    LookupLast(w, path, Walk(w, DirectorySector, Components(DirName(path))));
  }

  // No other entry, under a name that is compared as different, leads to the file.
  lemma OnlyEntry(v: Volume, d: int, name: Str, s: int)
    requires Sane(v) && d in v.tables && Index(v.tables[d], name) >= 0 && s == Find(v.tables[d], name)
    ensures s > DirectorySector
    ensures forall e, c: Str :: Descend(v, e, c) == s ==> e == d && Key(c) == Key(name)
  {
    var i := Index(v.tables[d], name);
    assert Ref(v.tables, d, i);
    assert RefOk(v.files, d, v.tables[d][i]);
    forall e, c: Str | Descend(v, e, c) == s ensures e == d && Key(c) == Key(name) {
      var j := Index(v.tables[e], c);
      assert Ref(v.tables, e, j);
    }
  }

  lemma {:induction false} WalkLess(v: Volume, w: Volume, d: int, name: Str, s: int, at: int, c: seq<Str>)
    requires d in v.tables && w.tables == v.tables[d := RemoveEntry(v.tables[d], name)] - {s} && -1 !in v.tables && at != s
    requires Find(RemoveEntry(v.tables[d], name), name) == -1
    requires forall other: Str :: Key(other) != Key(name) ==> Find(RemoveEntry(v.tables[d], name), other) == Find(v.tables[d], other)
    requires forall e, o: Str :: Descend(v, e, o) == s ==> e == d && Key(o) == Key(name)
    ensures Walk(w, at, c) == Walk(v, at, c) || Walk(w, at, c) == -1
    decreases |c|
  {
    if c != [] {
      if at == d && Key(c[0]) == Key(name) {
        SameKey(RemoveEntry(v.tables[d], name), c[0], name);
        Nowhere(w, c[1..]);
      } else {
        WalkLess(v, w, d, name, s, Descend(v, at, c[0]), c[1..]);
      }
    }
  }

  lemma GivenBack(v: Volume, w: Volume, s: int, t: Tree)
    requires Sane(v) && s in v.files && t == v.files[s].tree && w.bits == Clear(v.bits, [s] + DataOf(t))
    ensures OnlyIn(v.bits, w.bits, Claim(s, t)) && AllClear(w.bits, [s] + DataOf(t)) && AllMarked(w.bits, IndexOf(t))
    ensures ClearCount(w.bits) == ClearCount(v.bits) + 1 + |DataOf(t)|
  {
    var back := [s] + DataOf(t);
    ClaimMembers(s, t);
    DistinctClaim(s, t);
    assert AllMarked(v.bits, Claim(s, t));
    assert back[0] == s && forall i :: 0 <= i < |DataOf(t)| ==> back[i + 1] == DataOf(t)[i];
    assert v.bits == Mark(w.bits, back);
    CountMarkAll(w.bits, back);
  }

  // ---- Remove undoes Create -----------------------------------------------------------

  // A file of up to three levels that is created and removed again leaves the volume as it was,
  // but for its index sectors, which stay marked; a file of one level has none.
  lemma CreateThenRemove(v: Volume, path: Str, size: nat, w: Volume, x: Volume) returns (t: Tree)
    requires Sane(v) && Admissible(v, Create(path, size)) && CanCreate(v, path, size) && Step(v, Create(path, size), w)
    requires Admissible(w, Remove(path)) && Step(w, Remove(path), x)
    ensures t.bytes == size && x.bits == Mark(v.bits, IndexOf(t)) && AllClear(v.bits, IndexOf(t))
    ensures ClearCount(x.bits) + |IndexOf(t)| == ClearCount(v.bits)
    ensures size <= Limit2 ==> x.bits == v.bits
    ensures x.files == v.files && x.data == v.data
    ensures forall e, c: Str :: e in v.tables ==> Descend(x, e, c) == Descend(v, e, c)
  {
    hide Sane, Step, Walk, Taken, OnlyIn, Components, DirName, BaseName, CanCreate, Claim, IndexOf, DataOf, Shape;
    var s;
    s, t := CreateEffect(v, path, size, w);
    StepSane(v, Create(path, size), w);
    var s', t' := RemoveEffect(w, path, x);
    assert s' == s && t' == t;
    TakenOff(v.files, w.files, s);
    TakenOff(v.data, w.data, s);
    BackToBefore(v, w, x, s, t);
    SameTables(v, path, size, w, x);
  }

  lemma TakenOff<T>(a: map<int, T>, b: map<int, T>, s: int)
    requires s !in a && b.Keys == a.Keys + {s} && forall k :: k in a ==> b[k] == a[k]
    ensures b - {s} == a
  {
    var less := b - {s};
    assert forall k :: k in less.Keys <==> k in b.Keys && k != s;
    assert less.Keys == a.Keys;
    assert forall k :: k in less ==> less[k] == b[k] == a[k];
  }

  lemma BackToBefore(v: Volume, w: Volume, x: Volume, s: int, t: Tree)
    requires Taken(v, w, s, t) && Shape(t)
    requires OnlyIn(w.bits, x.bits, Claim(s, t)) && AllClear(x.bits, [s] + DataOf(t)) && AllMarked(x.bits, IndexOf(t))
    ensures x.bits == Mark(v.bits, IndexOf(t)) && AllClear(v.bits, IndexOf(t))
    ensures ClearCount(x.bits) + |IndexOf(t)| == ClearCount(v.bits)
    ensures t.bytes <= Limit2 ==> x.bits == v.bits
  {
    ClaimMembers(s, t);
    DistinctClaim(s, t);
    Members(t);
    forall i | 0 <= i < |v.bits| ensures x.bits[i] == (v.bits[i] || i in IndexOf(t)) {
      if i in Claim(s, t) && i !in IndexOf(t) {
        assert i == s || i in AllOf(t);
        assert i in [s] + DataOf(t);
      }
    }
    assert x.bits == Mark(v.bits, IndexOf(t));
    DistinctIndex(t);
    CountMarkAll(v.bits, IndexOf(t));
  }

  lemma DistinctIndex(t: Tree)
    requires Distinct(AllOf(t))
    ensures Distinct(IndexOf(t))
  {
    Partition(t);
    DistinctCounts(AllOf(t));
    forall i, j | 0 <= i < j < |IndexOf(t)| ensures IndexOf(t)[i] != IndexOf(t)[j] {
      assert multiset(IndexOf(t))[IndexOf(t)[i]] <= multiset(AllOf(t))[IndexOf(t)[i]] <= 1;
      if IndexOf(t)[i] == IndexOf(t)[j] {
        TwiceCounts(IndexOf(t), i, j);
      }
    }
  }

  lemma TwiceCounts(s: seq<int>, i: nat, j: nat)
    requires i < j < |s| && s[i] == s[j]
    ensures multiset(s)[s[i]] >= 2
  {
    assert s == s[..j] + s[j..];
    assert s[i] in s[..j] && s[j..][0] == s[j];
    assert s[i] in multiset(s[..j]) && s[i] in multiset(s[j..]);
  }

  lemma SameTables(v: Volume, path: Str, size: nat, w: Volume, x: Volume)
    requires Sane(v) && Admissible(v, Create(path, size)) && CanCreate(v, path, size) && Step(v, Create(path, size), w)
    requires Admissible(w, Remove(path)) && Step(w, Remove(path), x)
    ensures forall e, c: Str :: e in v.tables ==> Descend(x, e, c) == Descend(v, e, c)
  {
    var d, name := Parent(v, path), BaseName(path);
    var s, t :| Grown(v, w, d, name, size, false, s, t);
    GrownMade(v, w, path, size, false, s, t);
    assert Parent(w, path) == d by {
      SaneTables(v);
    }
    assert Shrunk(w, x, d, name, s);
    hide Admissible, Step, Walk, Made, CanCreate;
    UndoneTables(v, w, x, d, name, size, s, t);
  }

  lemma UndoneTables(v: Volume, w: Volume, x: Volume, d: int, name: Str, size: nat, s: int, t: Tree)
    requires Sane(v) && Grown(v, w, d, name, size, false, s, t) && Shrunk(w, x, d, name, s)
    ensures forall e, c: Str :: e in v.tables ==> Descend(x, e, c) == Descend(v, e, c)
  {
    GrownRoom(v, w, d, name, size, false, s, t);
    NotTaken(v, s, t);
    AddThenRemove(v.tables[d], w.tables[d], name, s, false);
  }
}
