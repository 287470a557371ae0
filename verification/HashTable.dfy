/** The self-expanding hash table of NachOS/lib/hash.cc. A bucket is the list of its items
    (module Lists has the linked cells). */
module HashTables {
  import opened Lists
  import opened Options
  import opened Sequences

  const InitialBuckets: nat := 4
  const ResizeRatio: nat := 3
  const IncreaseSizeBy: nat := 4

  // ---- tables as values ---------------------------------------------------------------

  type Table<T> = seq<seq<T>>

  // HashValue
  function Slot<Key>(hash: Key -> nat, k: Key, n: nat): (b: nat)
    requires n > 0
    ensures b < n
  {
    hash(k) % n
  }

  // The table holds exactly the items of the map, each once, in the bucket of its key.
  ghost predicate Represents<Key, T>(t: Table<T>, m: map<Key, T>, getKey: T -> Key, hash: Key -> nat)
  {
    && |t| > 0
    && (forall b :: 0 <= b < |t| ==> Distinct(t[b]))
    && (forall b, x :: 0 <= b < |t| && x in t[b] ==> Placed(t, m, getKey, hash, b, x))
    && (forall k :: k in m ==> Stored(t, m, getKey, hash, k))
  }

  ghost predicate Placed<Key, T>(t: Table<T>, m: map<Key, T>, getKey: T -> Key, hash: Key -> nat, b: nat, x: T)
    requires |t| > 0
  {
    Slot(hash, getKey(x), |t|) == b && getKey(x) in m && m[getKey(x)] == x
  }

  ghost predicate Stored<Key, T>(t: Table<T>, m: map<Key, T>, getKey: T -> Key, hash: Key -> nat, k: Key)
    requires |t| > 0 && k in m
  {
    getKey(m[k]) == k && m[k] in t[Slot(hash, k, |t|)]
  }

  // The number of items, bucket by bucket.
  function Total<T>(t: Table<T>): nat {
    if t == [] then 0 else Total(t[..|t| - 1]) + |t[|t| - 1]|
  }

  lemma {:induction false} TotalUpdate<T>(t: Table<T>, b: nat, s: seq<T>)
    requires b < |t|
    ensures Total(t[b := s]) + |t[b]| == Total(t) + |s|
    decreases |t|
  {
    var n := |t| - 1;
    if b < n {
      TotalUpdate(t[..n], b, s);
      assert t[b := s][..n] == t[..n][b := s];
    } else {
      assert t[b := s][..n] == t[..n];
    }
  }

  // A new item goes to the end of its bucket.
  lemma AddItem<Key, T>(t: Table<T>, m: map<Key, T>, getKey: T -> Key, hash: Key -> nat, x: T)
    requires Represents(t, m, getKey, hash) && getKey(x) !in m
    ensures var b := Slot(hash, getKey(x), |t|);
            Represents(t[b := t[b] + [x]], m[getKey(x) := x], getKey, hash)
  {
    var b, k := Slot(hash, getKey(x), |t|), getKey(x);
    var t', m' := t[b := t[b] + [x]], m[k := x];
    assert x in t[b] ==> Placed(t, m, getKey, hash, b, x);
    forall c | 0 <= c < |t'| ensures Distinct(t'[c]) {
      assert Distinct(t[c]);
    }
    forall c, y | 0 <= c < |t'| && y in t'[c] ensures Placed(t', m', getKey, hash, c, y) {
      assert y in t[c] ==> Placed(t, m, getKey, hash, c, y);
    }
    forall l | l in m' ensures Stored(t', m', getKey, hash, l) {
      assert l != k ==> Stored(t, m, getKey, hash, l);
      assert t'[b][|t[b]|] == x;
    }
  }

  // An item is taken out of its bucket.
  lemma DropItem<Key, T>(t: Table<T>, m: map<Key, T>, getKey: T -> Key, hash: Key -> nat, b: nat, i: nat)
    requires Represents(t, m, getKey, hash) && b < |t| && i < |t[b]|
    ensures getKey(t[b][i]) in m && m[getKey(t[b][i])] == t[b][i]
    ensures Represents(t[b := t[b][..i] + t[b][i + 1..]], m - {getKey(t[b][i])}, getKey, hash)
  {
    var x := t[b][i];
    var s, k := t[b][..i] + t[b][i + 1..], getKey(x);
    var t', m' := t[b := s], m - {k};
    assert Placed(t, m, getKey, hash, b, x) && Distinct(t[b]);
    DropMembers(t[b], i);
    forall c | 0 <= c < |t'| ensures Distinct(t'[c]) {
      assert Distinct(t[c]);
    }
    forall c, y | 0 <= c < |t'| && y in t'[c] ensures Placed(t', m', getKey, hash, c, y) {
      assert Placed(t, m, getKey, hash, c, y);
    }
    forall l | l in m' ensures Stored(t', m', getKey, hash, l) {
      assert Stored(t, m, getKey, hash, l);
    }
  }

  lemma DropMembers<T>(s: seq<T>, i: nat)
    requires i < |s| && Distinct(s)
    ensures Distinct(s[..i] + s[i + 1..])
    ensures forall y :: y in s[..i] + s[i + 1..] <==> y in s && y != s[i]
  {
    var r := s[..i] + s[i + 1..];
    forall y | y in s && y != s[i] ensures y in r {
      var j :| 0 <= j < |s| && s[j] == y;
      assert r[if j < i then j else j - 1] == y;
    }
    forall y | y in r ensures y in s && y != s[i] {
      var j :| 0 <= j < |r| && r[j] == y;
      assert s[if j < i then j else j + 1] == y;
    }
  }

  // The items one after the other, bucket by bucket.
  function Flatten<T>(t: Table<T>): (s: seq<T>)
    ensures |s| == Total(t)
  {
    if t == [] then [] else Flatten(t[..|t| - 1]) + t[|t| - 1]
  }

  // Where item i of bucket b stands among all.
  lemma {:induction false} FlattenAt<T>(t: Table<T>, b: nat, i: nat)
    requires b < |t| && i < |t[b]|
    ensures Total(t[..b]) + i < Total(t) && Flatten(t)[Total(t[..b]) + i] == t[b][i]
    decreases |t|
  {
    var n := |t| - 1;
    if b < n {
      FlattenAt(t[..n], b, i);
      assert t[..n][..b] == t[..b];
    }
  }

  lemma {:induction false} TotalPrefix<T>(t: Table<T>, b: nat, c: nat)
    requires b <= c <= |t| && forall i :: b <= i < c ==> t[i] == []
    ensures Total(t[..b]) == Total(t[..c])
    decreases c
  {
    if b < c {
      TotalPrefix(t, b, c - 1);
      assert t[..c][..c - 1] == t[..c - 1];
    }
  }

  // ---- the class ----------------------------------------------------------------------

  class HashTable<Key(==), T(==)> {
    const getKey: T -> Key
    const hash: Key -> nat
    var buckets: array<seq<T>>
    var numItems: nat
    ghost var contents: map<Key, T>

    ghost predicate Valid()
      reads this, buckets
    {
      && buckets.Length > 0 && Represents(buckets[..], contents, getKey, hash)
      && numItems == Total(buckets[..]) == |contents|
      && numItems <= ResizeRatio * buckets.Length
    }

    constructor (getKey: T -> Key, hash: Key -> nat)
      ensures Valid() && contents == map[] && fresh(buckets) && buckets.Length == InitialBuckets
    {
      this.getKey, this.hash, numItems, contents := getKey, hash, 0, map[];
      buckets := new seq<T>[InitialBuckets](_ => []);
      new;
      EmptyTotal(buckets[..]);
    }

    method HashValue(key: Key) returns (b: nat)
      requires buckets.Length > 0
      ensures b == Slot(hash, key, buckets.Length) < buckets.Length
    {
      b := hash(key) % buckets.Length;
    }

    // The item of a key, if the table has one.
    method Find(key: Key) returns (found: bool, item: Option<T>)
      requires Valid()
      ensures found <==> key in contents
      ensures item == if found then Some(contents[key]) else None
    {
      var bucket := HashValue(key);
      var i := 0;
      while i < |buckets[bucket]|
        invariant 0 <= i <= |buckets[bucket]|
        invariant forall j :: 0 <= j < i ==> getKey(buckets[bucket][j]) != key
      {
        var x := buckets[bucket][i];
        assert x in buckets[..][bucket];
        assert Placed(buckets[..], contents, getKey, hash, bucket, x);
        if key == getKey(x) {
          return true, Some(x);
        }
        i := i + 1;
      }
      assert key in contents ==> Stored(buckets[..], contents, getKey, hash, key);
      return false, None;
    }

    method Insert(item: T)
      requires Valid() && getKey(item) !in contents
      modifies this, buckets
      ensures Valid() && contents == old(contents)[getKey(item) := item]
      ensures if |old(contents)| == ResizeRatio * old(buckets.Length)
              then fresh(buckets) && buckets.Length == IncreaseSizeBy * old(buckets.Length)
              else buckets == old(buckets)
    {
      var key := getKey(item);
      RatioBound(numItems, buckets.Length);
      if numItems / buckets.Length >= ResizeRatio {
        ReHash();
      }
      AddItem(buckets[..], contents, getKey, hash, item);
      ghost var b := Slot(hash, key, buckets.Length);
      TotalUpdate(buckets[..], b, buckets[b] + [item]);
      AppendTo(item);
      numItems := numItems + 1;
      contents := contents[key := item];
    }

    // A table IncreaseSizeBy times as large, and every item moved into it.
    method ReHash()
      requires Valid()
      modifies this
      ensures Valid() && contents == old(contents) && numItems == old(numItems)
      ensures buckets.Length == IncreaseSizeBy * old(buckets.Length) && fresh(buckets)
    {
      var oldTable, oldSize := buckets[..], buckets.Length;
      buckets := new seq<T>[oldSize * IncreaseSizeBy](_ => []);
      NothingRepresented(buckets[..], getKey, hash);
      StartMoving(oldTable, buckets[..]);
      MoveAll(oldTable);
    }

    lemma StartMoving(oldTable: Table<T>, newTable: Table<T>)
      requires Represents(oldTable, contents, getKey, hash) && Total(oldTable) == |contents|
      requires Represents(newTable, map[], getKey, hash) && Total(newTable) == 0
      ensures Moving(oldTable, newTable, contents, map[], contents)
    {
      hide Represents, Total;
      var none: map<Key, T> := map[];
      assert none + contents == contents;
    }

    // The outer loop: every old bucket in turn.
    method MoveAll(oldBuckets: Table<T>)
      requires buckets.Length > 0 && Moving(oldBuckets, buckets[..], contents, map[], contents)
      modifies buckets
      ensures Represents(buckets[..], contents, getKey, hash) && Total(buckets[..]) == |contents|
    {
      hide Represents, Total, Moving;
      var oldTable := oldBuckets;
      ghost var rest: map<Key, T>, moved: map<Key, T> := contents, map[];
      var i := 0;
      while i < |oldBuckets|
        invariant 0 <= i <= |oldBuckets| == |oldTable|
        invariant Moving(oldTable, buckets[..], rest, moved, contents)
        invariant forall j :: 0 <= j < i ==> oldTable[j] == []
      {
        oldTable, rest, moved := MoveBucket(oldTable, i, rest, moved);
        i := i + 1;
      }
      AllMoved(oldTable, buckets[..], rest, moved, contents);
    }

    // The inner loop: one old bucket is emptied, front first.
    method MoveBucket(oldTable: Table<T>, i: nat, ghost rest: map<Key, T>, ghost moved: map<Key, T>)
      returns (left: Table<T>, ghost rest': map<Key, T>, ghost moved': map<Key, T>)
      requires i < |oldTable| && buckets.Length > 0 && Moving(oldTable, buckets[..], rest, moved, contents)
      modifies buckets
      ensures |left| == |oldTable| && left == oldTable[i := []]
      ensures Moving(left, buckets[..], rest', moved', contents)
    {
      hide Represents, Total, Moving;
      left, rest', moved' := oldTable, rest, moved;
      while left[i] != []
        invariant |left| == |oldTable| && left == oldTable[i := left[i]]
        invariant Moving(left, buckets[..], rest', moved', contents)
        decreases |left[i]|
      {
        var item := left[i][0];
        ghost var was := buckets[..];
        AppendTo(item);
        MoveItem(left, was, rest', moved', contents, i, item, Slot(hash, getKey(item), |was|),
                 left[i := left[i][1..]], buckets[..]);
        left := left[i := left[i][1..]];
        rest', moved' := rest' - {getKey(item)}, moved'[getKey(item) := item];
      }
    }

    // buckets[HashValue(getKey(item))]->Append(item)
    method AppendTo(item: T)
      requires buckets.Length > 0
      modifies buckets
      ensures var b := Slot(hash, getKey(item), buckets.Length);
              buckets[..] == old(buckets[..])[b := old(buckets[b]) + [item]]
    {
      var b := HashValue(getKey(item));
      buckets[b] := buckets[b] + [item];
    }

    // Part of the items are in the new table, the rest is still in the old one.
    ghost predicate Moving(oldTable: Table<T>, newTable: Table<T>, rest: map<Key, T>, moved: map<Key, T>, all: map<Key, T>) {
      && Represents(oldTable, rest, getKey, hash) && Represents(newTable, moved, getKey, hash)
      && rest.Keys !! moved.Keys && moved + rest == all
      && Total(oldTable) + Total(newTable) == |all|
    }

    lemma MoveItem(oldTable: Table<T>, newTable: Table<T>, rest: map<Key, T>, moved: map<Key, T>, all: map<Key, T>, i: nat,
                   x: T, b: nat, ot: Table<T>, nt: Table<T>)
      requires Moving(oldTable, newTable, rest, moved, all) && i < |oldTable| && oldTable[i] != [] && x == oldTable[i][0]
      requires |newTable| > 0 && b == Slot(hash, getKey(x), |newTable|)
      requires ot == oldTable[i := oldTable[i][1..]] && nt == newTable[b := newTable[b] + [x]]
      ensures Moving(ot, nt, rest - {getKey(x)}, moved[getKey(x) := x], all)
    {
      hide Represents, Total, Slot;
      DropItem(oldTable, rest, getKey, hash, i, 0);
      assert oldTable[i][..0] + oldTable[i][1..] == oldTable[i][1..];
      AddItem(newTable, moved, getKey, hash, x);
      TotalUpdate(oldTable, i, oldTable[i][1..]);
      TotalUpdate(newTable, b, newTable[b] + [x]);
      MapMove(moved, rest, all, getKey(x), x);
    }

    lemma AllMoved(oldTable: Table<T>, newTable: Table<T>, rest: map<Key, T>, moved: map<Key, T>, all: map<Key, T>)
      requires Moving(oldTable, newTable, rest, moved, all) && forall j :: 0 <= j < |oldTable| ==> oldTable[j] == []
      ensures Represents(newTable, all, getKey, hash) && Total(newTable) == |all|
    {
      NothingStored(oldTable, rest, getKey, hash);
      assert moved == all;
      EmptyTotal(oldTable);
    }

    method Remove(key: Key) returns (item: T)
      requires Valid() && key in contents
      modifies this, buckets
      ensures Valid() && item == old(contents)[key] && contents == old(contents) - {key}
      ensures buckets == old(buckets)
    {
      var bucket := HashValue(key);
      var found, what := Find(key);
      item := what.value;
      ghost var t := buckets[..];
      assert Stored(t, contents, getKey, hash, key);
      ghost var i := FirstAt(t[bucket], item);
      WithoutAt(t[bucket], item, i);
      DropItem(t, contents, getKey, hash, bucket, i);
      TotalUpdate(t, bucket, Without(t[bucket], item));
      buckets[bucket] := Without(buckets[bucket], item);
      assert buckets[..] == t[bucket := Without(t[bucket], item)];
      numItems := numItems - 1;
      contents := contents - {key};
    }
  }

  lemma MapMove<Key, T>(moved: map<Key, T>, rest: map<Key, T>, all: map<Key, T>, k: Key, x: T)
    requires moved + rest == all && moved.Keys !! rest.Keys && k in rest && rest[k] == x
    ensures moved[k := x] + (rest - {k}) == all && moved[k := x].Keys !! (rest - {k}).Keys
  {
  }

  // Empty buckets hold nothing.
  lemma NothingStored<Key, T>(t: Table<T>, m: map<Key, T>, getKey: T -> Key, hash: Key -> nat)
    requires Represents(t, m, getKey, hash) && forall j :: 0 <= j < |t| ==> t[j] == []
    ensures m == map[]
  {
    forall k | k in m ensures t[Slot(hash, k, |t|)] != [] {
      SlotInUse(t, m, getKey, hash, k);
    }
    assert m.Keys == {};
  }

  lemma SlotInUse<Key, T>(t: Table<T>, m: map<Key, T>, getKey: T -> Key, hash: Key -> nat, k: Key)
    requires Represents(t, m, getKey, hash) && k in m
    ensures t[Slot(hash, k, |t|)] != []
  {
    assert Stored(t, m, getKey, hash, k);
  }

  lemma NothingRepresented<Key, T>(t: Table<T>, getKey: T -> Key, hash: Key -> nat)
    requires |t| > 0 && forall j :: 0 <= j < |t| ==> t[j] == []
    ensures Represents(t, map[], getKey, hash) && Total(t) == 0
  {
    EmptyTotal(t);
  }

  ghost function FirstAt<T>(s: seq<T>, x: T): (i: nat)
    requires x in s
    ensures i < |s| && s[i] == x && forall j :: 0 <= j < i ==> s[j] != x
  {
    if s[0] == x then 0 else 1 + FirstAt(s[1..], x)
  }

  lemma {:induction false} EmptyTotal<T>(t: Table<T>)
    requires forall b :: 0 <= b < |t| ==> t[b] == []
    ensures Total(t) == 0
    decreases |t|
  {
    if t != [] {
      EmptyTotal(t[..|t| - 1]);
    }
  }

  // The load that makes Insert grow the table.
  lemma RatioBound(numItems: nat, n: nat)
    requires 0 < n && numItems <= ResizeRatio * n
    ensures numItems / n >= ResizeRatio <==> numItems == ResizeRatio * n
  {
    if numItems < ResizeRatio * n {
      assert numItems / n < ResizeRatio;
    } else {
      assert numItems / n == ResizeRatio;
    }
  }

  // ---- the iterator -------------------------------------------------------------------

  class HashIterator<Key(==), T(==)> {
    const table: HashTable<Key, T>
    var bucket: nat
    var index: nat

    ghost predicate Valid()
      reads this, table, table.buckets
    {
      && table.Valid() && bucket <= table.buckets.Length
      && if bucket < table.buckets.Length then index < |table.buckets[bucket]| else index == 0
    }

    // How many items have been passed.
    ghost function Position(): nat
      requires Valid()
      reads this, table, table.buckets
    {
      Total(table.buckets[..][..bucket]) + index
    }

    constructor (table: HashTable<Key, T>)
      requires table.Valid()
      ensures Valid() && Position() == 0 && this.table == table
    {
      this.table, bucket, index := table, 0, 0;
      new;
      FindNextFullBucket();
    }

    method IsDone() returns (done: bool)
      requires Valid()
      ensures done <==> bucket == table.buckets.Length
      ensures done <==> Position() == table.numItems
    {
      done := bucket == table.buckets.Length;
      ghost var t := table.buckets[..];
      if done {
        assert t[..bucket] == t;
      } else {
        FlattenAt(t, bucket, index);
      }
    }

    method Item() returns (item: T)
      requires Valid() && bucket < table.buckets.Length
      ensures Position() < table.numItems && item == Flatten(table.buckets[..])[Position()]
    {
      FlattenAt(table.buckets[..], bucket, index);
      item := table.buckets[bucket][index];
    }

    method Next()
      requires Valid() && bucket < table.buckets.Length
      modifies this
      ensures Valid() && Position() == old(Position()) + 1
    {
      hide Represents, Flatten;
      ghost var t := table.buckets[..];
      index := index + 1;
      if index == |table.buckets[bucket]| {
        assert t[..bucket + 1][..bucket] == t[..bucket];
        bucket, index := bucket + 1, 0;
        FindNextFullBucket();
      }
    }

    // The next bucket, from this one on, that has any items in it.
    method FindNextFullBucket()
      requires table.Valid() && bucket <= table.buckets.Length && index == 0
      modifies this
      ensures Valid() && index == 0 && bucket >= old(bucket)
      ensures Total(table.buckets[..][..bucket]) == Total(table.buckets[..][..old(bucket)])
    {
      ghost var start, t := bucket, table.buckets[..];
      while bucket < table.buckets.Length && table.buckets[bucket] == []
        invariant start <= bucket <= table.buckets.Length && index == 0
        invariant forall b :: start <= b < bucket ==> t[b] == []
      {
        bucket := bucket + 1;
      }
      TotalPrefix(t, start, bucket);
    }
  }

  // Stepping through a table visits its items one by one, from the first to the last.
  method Visit<Key, T>(table: HashTable<Key, T>) returns (items: seq<T>)
    requires table.Valid()
    ensures items == Flatten(table.buckets[..]) && |items| == table.numItems
  {
    ghost var all := Flatten(table.buckets[..]);
    var iter := new HashIterator(table);
    items := [];
    var done := iter.IsDone();
    while !done
      invariant Visiting(iter, table, all, items) && fresh(iter)
      invariant done <==> |items| == |all|
      decreases |all| - |items|
    {
      items, done := VisitNext(iter, table, all, items);
    }
  }

  ghost predicate Visiting<Key, T>(iter: HashIterator<Key, T>, table: HashTable<Key, T>, all: seq<T>, items: seq<T>)
    reads iter, iter.table, iter.table.buckets
  {
    iter.Valid() && iter.table == table && all == Flatten(table.buckets[..]) && items <= all && |items| == iter.Position()
  }

  method VisitNext<Key, T>(iter: HashIterator<Key, T>, table: HashTable<Key, T>, ghost all: seq<T>, items: seq<T>)
    returns (more: seq<T>, done: bool)
    requires Visiting(iter, table, all, items) && |items| < |all|
    modifies iter
    ensures Visiting(iter, table, all, more) && |more| == |items| + 1 && (done <==> |more| == |all|)
  {
    hide Represents, Flatten, Total;
    var already := iter.IsDone();
    var item := iter.Item();
    more := items + [item];
    iter.Next();
    done := iter.IsDone();
  }

  // Those are exactly the items of the map, each once.
  lemma {:induction false} VisitsEach<Key, T>(t: Table<T>, m: map<Key, T>, getKey: T -> Key, hash: Key -> nat)
    requires Represents(t, m, getKey, hash)
    ensures Distinct(Flatten(t))
    ensures forall k :: k in m ==> m[k] in Flatten(t)
    ensures forall x :: x in Flatten(t) ==> getKey(x) in m && m[getKey(x)] == x
  {
    FlattenDistinct(t, t, m, getKey, hash);
    forall k | k in m ensures m[k] in Flatten(t) {
      assert Stored(t, m, getKey, hash, k);
      var b := Slot(hash, k, |t|);
      var i :| 0 <= i < |t[b]| && t[b][i] == m[k];
      FlattenAt(t, b, i);
    }
  }

  // The first buckets p of a table t: their items differ, and each is in the map.
  lemma {:induction false} FlattenDistinct<Key, T>(p: Table<T>, t: Table<T>, m: map<Key, T>, getKey: T -> Key, hash: Key -> nat)
    requires Represents(t, m, getKey, hash) && p <= t
    ensures Distinct(Flatten(p))
    ensures forall x :: x in Flatten(p) ==> getKey(x) in m && m[getKey(x)] == x && Slot(hash, getKey(x), |t|) < |p|
    decreases |p|
  {
    if p != [] {
      var n := |p| - 1;
      var front, back := Flatten(p[..n]), t[n];
      FlattenDistinct(p[..n], t, m, getKey, hash);
      assert Distinct(t[n]);
      forall x | x in back ensures Placed(t, m, getKey, hash, n, x) {}
      forall x | x in Flatten(p) ensures x in front || x in back {}
      forall i, j | 0 <= i < j < |front + back| ensures (front + back)[i] != (front + back)[j] {
        if i < |front| <= j {
          assert front[i] in front && back[j - |front|] in back;
        }
      }
    }
  }
}
