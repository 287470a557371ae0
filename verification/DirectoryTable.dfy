/** Directory entries, their names, and their bytes on disk
    (NachOS/filesys/directory.h:32-42, NachOS/filesys/directory.cc:92-165). */
module DirectoryTable {
  import opened ByteCodec
  import opened Geometry

  const FileNameMaxLen: nat := 9
  const EntrySize: nat := 20
  const NumDirEntries: Positive
  const DirectoryFileSize: nat := 20 * NumDirEntries

  // A C string; the terminating zero is not part of the value.
  type Str = seq<Byte>

  // A DirectoryEntry: name is the whole array of FileNameMaxLen + 1 characters.
  datatype RawEntry = Entry(isDirectory: bool, inUse: bool, sector: int, name: seq<Byte>)

  predicate EntryOk(e: RawEntry) {
    -0x8000_0000 <= e.sector < 0x8000_0000 && |e.name| == FileNameMaxLen + 1
  }

  const ZeroName: seq<Byte> := [0, 0, 0, 0, 0, 0, 0, 0, 0, 0]

  type Entry = e: RawEntry | EntryOk(e) witness RawEntry.Entry(false, false, 0, [0, 0, 0, 0, 0, 0, 0, 0, 0, 0])
  type Table = seq<Entry>

  const EmptyEntry: Entry := RawEntry.Entry(false, false, 0, ZeroName)

  // ---- bytes --------------------------------------------------------------------------

  // The record in memory: two flags, two bytes of padding, the sector, the name, padding.
  function EncodeEntry(e: Entry): (b: seq<Byte>)
    ensures |b| == EntrySize
  {
    [if e.isDirectory then 1 else 0, if e.inUse then 1 else 0, 0, 0] + Le32(e.sector) + e.name + [0, 0]
  }

  function DecodeEntry(b: seq<Byte>): Entry
    requires |b| == EntrySize
  {
    RawEntry.Entry(b[0] != 0, b[1] != 0, FromLe32(b[4..8]), b[8..18])
  }

  lemma EntryRoundTrip(e: Entry)
    ensures DecodeEntry(EncodeEntry(e)) == e
  {
    var b := EncodeEntry(e);
    assert b[4..8] == Le32(e.sector) && b[8..18] == e.name;
    Le32RoundTrip(e.sector);
  }

  function EncodeTable(t: Table): (b: seq<Byte>)
    ensures |b| == 20 * |t|
  {
    if t == [] then [] else EncodeEntry(t[0]) + EncodeTable(t[1..])
  }

  // The first n entries.
  function DecodeTable(b: seq<Byte>, n: nat): (t: Table)
    requires 20 * n <= |b|
    ensures |t| == n
  {
    if n == 0 then [] else [DecodeEntry(b[..20])] + DecodeTable(b[20..], n - 1)
  }

  // A table, written to disk and read back, with or without further bytes behind it.
  lemma {:induction false} TableRoundTrip(t: Table, more: seq<Byte>)
    ensures DecodeTable(EncodeTable(t) + more, |t|) == t
    decreases |t|
  {
    if t != [] {
      var b := EncodeTable(t) + more;
      assert b[..20] == EncodeEntry(t[0]);
      assert b[20..] == EncodeTable(t[1..]) + more;
      EntryRoundTrip(t[0]);
      TableRoundTrip(t[1..], more);
    }
  }

  // Decoding more entries than one table has goes on with the bytes behind it.
  lemma {:induction false} DecodeJoin(a: seq<Byte>, b: seq<Byte>, m: nat, n: nat)
    requires |a| == 20 * m && 20 * n <= |b|
    ensures DecodeTable(a + b, m + n) == DecodeTable(a, m) + DecodeTable(b, n)
    decreases m
  {
    if m == 0 {
      assert a + b == b;
    } else {
      var c := a[20..];
      assert (a + b)[..20] == a[..20];
      assert (a + b)[20..] == c + b;
      DecodeJoin(c, b, m - 1, n);
      assert DecodeTable(a + b, m + n) == [DecodeEntry(a[..20])] + DecodeTable(c + b, m - 1 + n);
    }
  }

  // ---- names --------------------------------------------------------------------------

  // strncmp(a, b, n) == 0, where past its end a string goes on with zeros.
  function At(s: seq<Byte>, i: nat): Byte {
    if i < |s| then s[i] else 0
  }

  predicate StrNEq(a: seq<Byte>, b: seq<Byte>, i: nat, n: nat)
    requires i <= n
    decreases n - i
  {
    i == n || (At(a, i) == At(b, i) && (At(a, i) == 0 || StrNEq(a, b, i + 1, n)))
  }

  // What a comparison sees of a name: at most FileNameMaxLen characters, up to a zero.
  function Key(s: seq<Byte>): Str {
    KeyFrom(s, 0)
  }

  function KeyFrom(s: seq<Byte>, i: nat): Str
    requires i <= FileNameMaxLen
    decreases FileNameMaxLen - i
  {
    if i == FileNameMaxLen || At(s, i) == 0 then [] else [s[i]] + KeyFrom(s, i + 1)
  }

  lemma {:induction false} ComparesKeys(a: seq<Byte>, b: seq<Byte>, i: nat)
    requires i <= FileNameMaxLen
    ensures StrNEq(a, b, i, FileNameMaxLen) <==> KeyFrom(a, i) == KeyFrom(b, i)
    decreases FileNameMaxLen - i
  {
    if i < FileNameMaxLen {
      ComparesKeys(a, b, i + 1);
      if At(a, i) != 0 && At(b, i) != 0 {
        var x, y := KeyFrom(a, i), KeyFrom(b, i);
        assert x == [a[i]] + KeyFrom(a, i + 1) && y == [b[i]] + KeyFrom(b, i + 1);
        assert x[1..] == KeyFrom(a, i + 1) && y[1..] == KeyFrom(b, i + 1);
      }
    }
  }

  // strncpy(dst, src, FileNameMaxLen): the last character of the array is left alone.
  function StrNCpy(dst: seq<Byte>, src: Str): (r: seq<Byte>)
    requires |dst| == FileNameMaxLen + 1
    ensures |r| == |dst|
  {
    seq<Byte>(FileNameMaxLen, i requires 0 <= i < FileNameMaxLen => At(src, i)) + [dst[FileNameMaxLen]]
  }

  lemma CopiedKey(dst: seq<Byte>, src: Str)
    requires |dst| == FileNameMaxLen + 1
    ensures Key(StrNCpy(dst, src)) == Key(src)
  {
    CopiedKeyFrom(dst, src, 0);
  }

  lemma {:induction false} CopiedKeyFrom(dst: seq<Byte>, src: Str, i: nat)
    requires |dst| == FileNameMaxLen + 1 && i <= FileNameMaxLen
    ensures KeyFrom(StrNCpy(dst, src), i) == KeyFrom(src, i)
    decreases FileNameMaxLen - i
  {
    if i < FileNameMaxLen {
      CopiedKeyFrom(dst, src, i + 1);
    }
  }

  // The key of a name is its first FileNameMaxLen characters, or the name if it is shorter.
  function Front(s: Str): Str {
    if |s| <= FileNameMaxLen then s else s[..FileNameMaxLen]
  }

  lemma {:induction false} KeyIsFront(s: Str, i: nat)
    requires 0 !in s && i <= |Front(s)|
    ensures KeyFrom(s, i) == Front(s)[i..]
    decreases |s| - i
  {
    if i < |Front(s)| {
      KeyIsFront(s, i + 1);
      assert s[i] in s;
    }
  }

  // So a directory takes two names for one exactly when their fronts are equal, and tells all
  // names of at most FileNameMaxLen characters apart.
  lemma ComparesFronts(a: Str, b: Str)
    requires 0 !in a && 0 !in b
    ensures StrNEq(a, b, 0, FileNameMaxLen) <==> Front(a) == Front(b)
  {
    ComparesKeys(a, b, 0);
    KeyIsFront(a, 0);
    KeyIsFront(b, 0);
  }

  // ---- tables -------------------------------------------------------------------------

  ghost predicate Matches(e: Entry, name: seq<Byte>) {
    e.inUse && Key(e.name) == Key(name)
  }

  // The position of the first entry in use under a name, or -1.
  ghost function Index(t: Table, name: seq<Byte>): (i: int)
    ensures -1 <= i < |t|
    ensures i >= 0 ==> Matches(t[i], name) && forall j :: 0 <= j < i ==> !Matches(t[j], name)
    ensures i == -1 ==> forall j :: 0 <= j < |t| ==> !Matches(t[j], name)
  {
    IndexFrom(t, name, 0)
  }

  ghost function IndexFrom(t: Table, name: seq<Byte>, k: nat): (i: int)
    requires k <= |t| && forall j :: 0 <= j < k ==> !Matches(t[j], name)
    ensures -1 <= i < |t|
    ensures i >= 0 ==> Matches(t[i], name) && forall j :: 0 <= j < i ==> !Matches(t[j], name)
    ensures i == -1 ==> forall j :: 0 <= j < |t| ==> !Matches(t[j], name)
    decreases |t| - k
  {
    if k == |t| then -1 else if Matches(t[k], name) then k else IndexFrom(t, name, k + 1)
  }

  ghost function Find(t: Table, name: seq<Byte>): int {
    if Index(t, name) >= 0 then t[Index(t, name)].sector else -1
  }

  ghost predicate HasSlot(t: Table) {
    exists i :: 0 <= i < |t| && !t[i].inUse
  }

  ghost predicate FirstSlot(t: Table, i: nat) {
    i < |t| && !t[i].inUse && forall j :: 0 <= j < i ==> t[j].inUse
  }

  // The entry Add writes over the free entry e.
  function Named(e: Entry, name: Str, sector: int, isDirectory: bool): Entry
    requires -0x8000_0000 <= sector < 0x8000_0000
  {
    RawEntry.Entry(isDirectory, true, sector, StrNCpy(e.name, name))
  }

  // What Add does: nothing when the name is taken or no entry is free, else entry i is new.
  ghost predicate Added(t: Table, t': Table, name: Str, sector: int, isDirectory: bool, ok: bool)
    requires -0x8000_0000 <= sector < 0x8000_0000
  {
    && (ok <==> Index(t, name) == -1 && HasSlot(t))
    && (!ok ==> t' == t)
    && (ok ==> exists i: nat :: FirstSlot(t, i) && t' == t[i := Named(t[i], name, sector, isDirectory)])
  }

  // The entries in use have different names, as far as names are compared.
  ghost predicate Unique(t: Table) {
    forall i, j :: 0 <= i < j < |t| && t[i].inUse && t[j].inUse ==> Key(t[i].name) != Key(t[j].name)
  }

  // With unique names, the entry in use at i is what its name finds.
  lemma UniqueIndex(t: Table, i: nat, name: seq<Byte>)
    requires Unique(t) && i < |t| && Matches(t[i], name)
    ensures Index(t, name) == i && Find(t, name) == t[i].sector
  {
  }

  lemma AddKeepsUnique(t: Table, t': Table, name: Str, sector: int, isDirectory: bool, ok: bool)
    requires -0x8000_0000 <= sector < 0x8000_0000
    requires Unique(t) && Added(t, t', name, sector, isDirectory, ok)
    ensures Unique(t') && |t'| == |t|
    ensures ok ==> Find(t', name) == sector
    ensures ok ==> forall other: seq<Byte> :: Key(other) != Key(name) ==> Find(t', other) == Find(t, other)
  {
    if ok {
      var i: nat :| FirstSlot(t, i) && t' == t[i := Named(t[i], name, sector, isDirectory)];
      CopiedKey(t[i].name, name);
      forall j | 0 <= j < |t| && j != i && t[j].inUse ensures Key(t[j].name) != Key(name) {
        assert !Matches(t[j], name);
      }
      UniqueIndex(t', i, name);
      forall other: seq<Byte> | Key(other) != Key(name) ensures Find(t', other) == Find(t, other) {
        SameElsewhere(t, t', i, other);
      }
    }
  }

  // A change to entry i that no lookup of a name sees does not change the lookup.
  lemma SameElsewhere(t: Table, t': Table, i: nat, name: seq<Byte>)
    requires i < |t| == |t'| && t' == t[i := t'[i]]
    requires !Matches(t[i], name) && !Matches(t'[i], name)
    ensures Index(t', name) == Index(t, name) && Find(t', name) == Find(t, name)
  {
    forall j | 0 <= j < |t| ensures Matches(t[j], name) <==> Matches(t'[j], name) {}
  }

  // What Remove does.
  ghost function RemoveEntry(t: Table, name: seq<Byte>): Table {
    var i := Index(t, name);
    if i < 0 then t else t[i := t[i].(inUse := false)]
  }

  lemma RemoveKeepsUnique(t: Table, name: seq<Byte>)
    requires Unique(t)
    ensures Unique(RemoveEntry(t, name)) && |RemoveEntry(t, name)| == |t|
    ensures Find(RemoveEntry(t, name), name) == -1
    ensures forall other: seq<Byte> :: Key(other) != Key(name) ==> Find(RemoveEntry(t, name), other) == Find(t, other)
  {
    var t', i := RemoveEntry(t, name), Index(t, name);
    if i >= 0 {
      forall j | 0 <= j < |t| ensures !Matches(t'[j], name) {
        if j != i {
          assert t[j].inUse ==> Key(t[j].name) != Key(t[i].name);
        }
      }
      forall other: seq<Byte> | Key(other) != Key(name) ensures Find(t', other) == Find(t, other) {
        SameElsewhere(t, t', i, other);
      }
    }
  }

  // Remove undoes Add for every later lookup, whatever the table.
  lemma AddThenRemove(t: Table, t': Table, name: Str, sector: int, isDirectory: bool)
    requires -0x8000_0000 <= sector < 0x8000_0000
    requires Unique(t) && Added(t, t', name, sector, isDirectory, true)
    ensures forall other: seq<Byte> :: Find(RemoveEntry(t', name), other) == Find(t, other)
  {
    AddKeepsUnique(t, t', name, sector, isDirectory, true);
    RemoveKeepsUnique(t', name);
    forall other: seq<Byte> ensures Find(RemoveEntry(t', name), other) == Find(t, other) {
      if Key(other) == Key(name) {
        SameKey(t, other, name);
        SameKey(RemoveEntry(t', name), other, name);
      }
    }
  }

  lemma SameKey(t: Table, a: seq<Byte>, b: seq<Byte>)
    requires Key(a) == Key(b)
    ensures Index(t, a) == Index(t, b) && Find(t, a) == Find(t, b)
  {
    forall j | 0 <= j < |t| ensures Matches(t[j], a) <==> Matches(t[j], b) {}
  }
}
