/** Finding the sector of a byte, and giving sectors back (NachOS/filesys/filehdr.cc:162-286). */
module HeaderLookup {
  import opened Geometry
  import opened BitSpec
  import opened HeaderTree
  import opened Sequences

  // ---- ByteToSector -------------------------------------------------------------------

  // What a child header must satisfy to serve a byte.
  ghost predicate Serves(disk: Disk, sector: int, t: Tree, span: Positive, inner: nat, data: int) {
    && 0 <= sector < |disk| && disk[sector].Header?
    && Rep(disk, disk[sector].hdr, t) && Shape(t) && t.bytes <= span
    && inner < t.bytes && Quot(inner, SectorSize) < |DataOf(t)| && DataOf(t)[Quot(inner, SectorSize)] == data
  }

  // A child that is not the last reaches a whole number of data sectors.
  lemma FullChild(t: Tree, span: Positive) returns (k: Positive)
    requires span == Limit2 || span == Limit3 || span == Limit4
    requires Shape(t) && t.bytes == span
    ensures k * SectorSize == span && |DataOf(t)| == k
  {
    k := SpanSectors(span);
    DataSize(t);
    CeilAddMultiple(k, span, 0, SectorSize);
  }

  // The data sector of a byte of the first child, and of a later one.
  lemma FirstData(f: Forest, span: Positive, rem: nat, offset: nat)
    requires span == Limit2 || span == Limit3 || span == Limit4
    requires f.Cons? && ShapeAll(f, span, rem) && offset < rem && offset < span
    ensures offset < f.tree.bytes && Quot(offset, SectorSize) < |DataOf(f.tree)|
    ensures Quot(offset, SectorSize) < |DataOfAll(f)|
    ensures DataOfAll(f)[Quot(offset, SectorSize)] == DataOf(f.tree)[Quot(offset, SectorSize)]
  {
    DataSize(f.tree);
    QuotBelowCeil(offset, f.tree.bytes, SectorSize);
  }

  lemma LaterData(f: Forest, span: Positive, rem: nat, offset: nat)
    requires span == Limit2 || span == Limit3 || span == Limit4
    requires f.Cons? && ShapeAll(f, span, rem) && span <= offset < rem
    ensures ShapeAll(f.rest, span, rem - span)
    ensures Quot(offset - span, SectorSize) < |DataOfAll(f.rest)|
    ensures Quot(offset, SectorSize) < |DataOfAll(f)|
    ensures DataOfAll(f)[Quot(offset, SectorSize)] == DataOfAll(f.rest)[Quot(offset - span, SectorSize)]
  {
    var k := FullChild(f.tree, span);
    QuotSubMultiple(k, span, offset, SectorSize);
    DataSizeAll(f.rest, span, rem - span);
    QuotBelowCeil(offset - span, rem - span, SectorSize);
  }

  // The child that a byte offset selects holds that byte where the whole file has it.
  lemma {:induction false} ChildAt(disk: Disk, slots: seq<int>, i: nat, f: Forest, span: Positive, rem: nat, offset: nat)
    returns (t: Tree)
    requires span == Limit2 || span == Limit3 || span == Limit4
    requires RepAll(disk, slots, i, f) && ShapeAll(f, span, rem) && offset < rem
    ensures i + Quot(offset, span) < |slots|
    ensures Quot(offset, SectorSize) < |DataOfAll(f)|
    ensures Serves(disk, slots[i + Quot(offset, span)], t, span, Rest(offset, span), DataOfAll(f)[Quot(offset, SectorSize)])
    decreases f
  {
    hide DataOf, DataOfAll, Rep;
    if offset < span {
      t := f.tree;
      FirstData(f, span, rem, offset);
    } else {
      hide Shape, Serves;
      LaterData(f, span, rem, offset);
      t := ChildAt(disk, slots, i + 1, f.rest, span, rem - span, offset - span);
    }
  }

  // ---- Deallocate ---------------------------------------------------------------------

  // How a call of Deallocate can end: normally, in a failed assertion of the device or of
  // the bitmap, or with a read past the table of NumDirect entries.
  datatype FreeResult = Freed(bits: Bits) | BadSector | Overrun

  // The number of child headers the loop of Deallocate visits.
  function LoopCount(h: Hdr): nat
    requires h.numSectors >= 0
  {
    Ceil(h.numSectors, NumDirect)
  }

  // Nested ceiling division: the loop's count is right for two-level headers, and only then.
  lemma LoopCountExact(disk: Disk, h: Hdr, t: Tree)
    requires Rep(disk, h, t) && Shape(t) && t.Node?
    ensures t.bytes <= Limit3 <==> LoopCount(h) == Ceil(t.bytes, Span(t.bytes))
    ensures t.bytes <= Limit3 <==> LoopCount(h) <= NumDirect
  {
    LimitFacts();
    LimitsAreProducts();
    CeilNested(t.bytes, SectorSize, NumDirect);
    KidsFit(t.bytes);
    if t.bytes > Limit3 {
      TooManyKids(t.bytes);
    }
  }

  lemma TooManyKids(bytes: nat)
    requires bytes > Limit3 && Limit2 >= 1
    ensures Ceil(bytes, Limit2) > NumDirect
  {
    LimitFacts();
    CeilBracket(bytes, Limit2);
    LimitsAreProducts();
    if Ceil(bytes, Limit2) <= NumDirect {
      MulMono(Ceil(bytes, Limit2), NumDirect, Limit2);
    }
  }

  ghost function Dealloc(disk: Disk, h: Hdr, t: Tree, bits: Bits): (r: FreeResult)
    requires Rep(disk, h, t) && Shape(t) && |bits| == |disk|
    ensures r.Freed? ==> |r.bits| == |bits|
    decreases t, 0, 0
  {
    if h.numBytes > Limit2 then
      ShapesAll(t.kids, Span(t.bytes), t.bytes);
      DeallocAll(disk, h, 0, t.kids, bits)
    else DeallocSectors(t.sectors, bits)
  }

  // for i < divRoundUp(numSectors, NumDirect): the child header that entry i names, if any.
  ghost function DeallocAll(disk: Disk, h: Hdr, i: nat, f: Forest, bits: Bits): (r: FreeResult)
    requires |h.dataSectors| == NumDirect && h.numSectors >= 0 && |bits| == |disk|
    requires RepAll(disk, h.dataSectors, i, f) && ShapesOf(f)
    ensures r.Freed? ==> |r.bits| == |bits|
    decreases f, 1, 0
  {
    if i >= LoopCount(h) then Freed(bits)
    else if i >= NumDirect then Overrun
    else
      match f
      case Nil => BadSector
      case Cons(s, t, rest) =>
        var r := Dealloc(disk, disk[s].hdr, t, bits);
        if r.Freed? then DeallocAll(disk, h, i + 1, rest, r.bits) else r
  }

  ghost predicate ShapesOf(f: Forest) {
    match f
    case Nil => true
    case Cons(_, t, rest) => Shape(t) && ShapesOf(rest)
  }

  lemma {:induction false} ShapesAll(f: Forest, span: Positive, rem: nat)
    requires ShapeAll(f, span, rem)
    ensures ShapesOf(f) && Length(f) == Ceil(rem, span)
    decreases f
  {
    if f.Cons? {
      ShapesAll(f.rest, span, rem - f.tree.bytes);
    }
  }

  // Each data sector has to be marked, and is cleared.
  ghost function DeallocSectors(secs: seq<int>, bits: Bits): (r: FreeResult)
    requires forall x :: x in secs ==> 0 <= x < |bits|
    ensures r.Freed? ==> |r.bits| == |bits|
    decreases |secs|
  {
    if secs == [] then Freed(bits)
    else
      assert secs[0] in secs && forall x :: x in secs[1..] ==> x in secs;
      if !bits[secs[0]] then BadSector
      else DeallocSectors(secs[1..], bits[secs[0] := false])
  }

  lemma {:induction false} SectorsCleared(secs: seq<int>, bits: Bits)
    requires AllMarked(bits, secs) && Distinct(secs)
    ensures DeallocSectors(secs, bits) == Freed(Clear(bits, secs))
    decreases |secs|
  {
    if secs == [] {
      assert Clear(bits, secs) == bits;
    } else {
      var i, rest := secs[0], secs[1..];
      assert i in secs;
      forall x | x in rest ensures x in secs && x != i {
        var k :| 0 <= k < |rest| && rest[k] == x;
        assert secs[k + 1] == x;
      }
      SectorsCleared(rest, bits[i := false]);
      assert secs == [i] + rest;
      assert Clear(bits[i := false], rest) == Clear(bits, secs);
    }
  }

  // One- and two-level headers: exactly the data sectors are cleared.
  lemma {:induction false} DeallocTwoLevels(disk: Disk, h: Hdr, t: Tree, bits: Bits)
    requires Rep(disk, h, t) && Shape(t) && |bits| == |disk|
    requires AllMarked(bits, DataOf(t)) && Distinct(DataOf(t))
    requires t.bytes <= Limit3
    ensures Dealloc(disk, h, t, bits) == Freed(Clear(bits, DataOf(t)))
  {
    if t.Leaf? {
      SectorsCleared(t.sectors, bits);
    } else {
      LimitFacts();
      LoopCountExact(disk, h, t);
      ShapesAll(t.kids, Span(t.bytes), t.bytes);
      KidsFit(t.bytes);
      DeallocLeaves(disk, h, 0, t.kids, bits, Span(t.bytes), t.bytes);
    }
  }

  lemma {:induction false} DeallocLeaves(disk: Disk, h: Hdr, i: nat, f: Forest, bits: Bits, span: Positive, rem: nat)
    requires |h.dataSectors| == NumDirect && h.numSectors >= 0 && |bits| == |disk|
    requires RepAll(disk, h.dataSectors, i, f) && ShapesOf(f) && ShapeAll(f, span, rem) && span <= Limit2
    requires LoopCount(h) == i + Length(f) <= NumDirect
    requires AllMarked(bits, DataOfAll(f)) && Distinct(DataOfAll(f))
    ensures DeallocAll(disk, h, i, f, bits) == Freed(Clear(bits, DataOfAll(f)))
    decreases f
  {
    if f.Nil? {
      assert Clear(bits, []) == bits;
    } else {
      var front, back := DataOf(f.tree), DataOfAll(f.rest);
      SplitMarked(bits, front, back);
      SectorsCleared(f.tree.sectors, bits);
      var bits' := Clear(bits, front);
      DeallocLeaves(disk, h, i + 1, f.rest, bits', span, rem - f.tree.bytes);
      assert Clear(bits', back) == Clear(bits, front + back);
    }
  }

  lemma SplitMarked(bits: Bits, front: seq<int>, back: seq<int>)
    requires AllMarked(bits, front + back) && Distinct(front + back)
    ensures AllMarked(bits, front) && Distinct(front)
    ensures AllMarked(Clear(bits, front), back) && Distinct(back)
  {
    var all := front + back;
    forall x | x in front ensures x in all {}
    forall x | x in back ensures x in all && x !in front {
      var j :| 0 <= j < |back| && back[j] == x;
      forall i | 0 <= i < |front| ensures front[i] != x {
        assert all[i] == front[i] && all[|front| + j] == x;
      }
    }
    forall i, j | 0 <= i < j < |back| ensures back[i] != back[j] {
      assert all[|front| + i] == back[i] && all[|front| + j] == back[j];
    }
    forall i, j | 0 <= i < j < |front| ensures front[i] != front[j] {
      assert all[i] == front[i] && all[j] == front[j];
    }
  }

  // Deeper headers: the loop asks for more children than there are, so it never ends well.
  lemma {:induction false} DeallocDeep(disk: Disk, h: Hdr, i: nat, f: Forest, bits: Bits)
    requires |h.dataSectors| == NumDirect && h.numSectors >= 0 && |bits| == |disk|
    requires RepAll(disk, h.dataSectors, i, f) && ShapesOf(f)
    requires i <= NumDirect < LoopCount(h)
    ensures !DeallocAll(disk, h, i, f, bits).Freed?
    decreases f
  {
    if i < NumDirect && f.Cons? {
      var r := Dealloc(disk, disk[f.sector].hdr, f.tree, bits);
      if r.Freed? {
        DeallocDeep(disk, h, i + 1, f.rest, r.bits);
      }
    }
  }

  // Deallocate gives back a file exactly when its header has at most two levels; it then
  // clears the data sectors and nothing else.
  lemma DeallocExact(disk: Disk, h: Hdr, t: Tree, bits: Bits)
    requires Rep(disk, h, t) && Shape(t) && |bits| == |disk|
    requires AllMarked(bits, DataOf(t)) && Distinct(DataOf(t))
    ensures Dealloc(disk, h, t, bits).Freed? <==> t.bytes <= Limit3
    ensures t.bytes <= Limit3 ==> Dealloc(disk, h, t, bits).bits == Clear(bits, DataOf(t))
  {
    LimitFacts();
    if t.bytes <= Limit3 {
      DeallocTwoLevels(disk, h, t, bits);
    } else {
      LoopCountExact(disk, h, t);
      ShapesAll(t.kids, Span(t.bytes), t.bytes);
      DeallocDeep(disk, h, 0, t.kids, bits);
    }
  }

  // Deallocate with the child count of Allocate in place of its own: at every depth it clears
  // exactly the data sectors.
  ghost function DeallocKids(t: Tree, bits: Bits): (r: FreeResult)
    requires forall x :: x in DataOf(t) ==> 0 <= x < |bits|
    ensures r.Freed? ==> |r.bits| == |bits|
    decreases t, 0
  {
    match t
    case Leaf(_, s) => assert DataOf(t) == s; DeallocSectors(s, bits)
    case Node(_, f) => assert DataOf(t) == DataOfAll(f); DeallocForest(f, bits)
  }

  ghost function DeallocForest(f: Forest, bits: Bits): (r: FreeResult)
    requires forall x :: x in DataOfAll(f) ==> 0 <= x < |bits|
    ensures r.Freed? ==> |r.bits| == |bits|
    decreases f, 0
  {
    match f
    case Nil => Freed(bits)
    case Cons(_, t, rest) =>
      assert forall x :: x in DataOf(t) || x in DataOfAll(rest) ==> x in DataOfAll(f);
      var r := DeallocKids(t, bits);
      if r.Freed? then DeallocForest(rest, r.bits) else r
  }

  lemma {:induction false} DeallocKidsExact(t: Tree, bits: Bits)
    requires AllMarked(bits, DataOf(t)) && Distinct(DataOf(t))
    ensures DeallocKids(t, bits) == Freed(Clear(bits, DataOf(t)))
    decreases t, 0
  {
    if t.Leaf? {
      SectorsCleared(t.sectors, bits);
    } else {
      DeallocForestExact(t.kids, bits);
    }
  }

  lemma {:induction false} DeallocForestExact(f: Forest, bits: Bits)
    requires AllMarked(bits, DataOfAll(f)) && Distinct(DataOfAll(f))
    ensures DeallocForest(f, bits) == Freed(Clear(bits, DataOfAll(f)))
    decreases f, 0
  {
    if f.Nil? {
      assert Clear(bits, []) == bits;
    } else {
      var front, back := DataOf(f.tree), DataOfAll(f.rest);
      SplitMarked(bits, front, back);
      DeallocKidsExact(f.tree, bits);
      DeallocForestExact(f.rest, Clear(bits, front));
      assert Clear(Clear(bits, front), back) == Clear(bits, front + back);
    }
  }

  // No sector is both a data sector and an index sector of one header.
  lemma DataIndexApart(t: Tree)
    requires Distinct(AllOf(t))
    ensures forall x :: x in DataOf(t) ==> x !in IndexOf(t)
    ensures Distinct(DataOf(t))
  {
    Partition(t);
    DistinctCounts(AllOf(t));
    forall x | x in DataOf(t) ensures x !in IndexOf(t) {
      assert x in multiset(DataOf(t));
      assert multiset(AllOf(t))[x] == multiset(DataOf(t))[x] + multiset(IndexOf(t))[x];
      assert x !in multiset(IndexOf(t));
    }
    forall x ensures multiset(DataOf(t))[x] <= 1 {
      assert multiset(AllOf(t))[x] == multiset(DataOf(t))[x] + multiset(IndexOf(t))[x];
    }
    CountsDistinct(DataOf(t));
  }

  lemma {:induction false} DistinctCounts(s: seq<int>)
    requires Distinct(s)
    ensures forall x :: multiset(s)[x] <= 1
    decreases |s|
  {
    if s != [] {
      var n := |s| - 1;
      DistinctCounts(s[..n]);
      assert s == s[..n] + [s[n]];
      assert s[n] !in s[..n];
    }
  }

  lemma CountsDistinct(s: seq<int>)
    requires forall x :: multiset(s)[x] <= 1
    ensures Distinct(s)
  {
    forall i, j | 0 <= i < j < |s| ensures s[i] != s[j] {
      var front, back := s[..j], s[j + 1..];
      var x := s[j];
      assert multiset(s)[x] <= 1;
      assert s == front + [x] + back;
      assert multiset(s) == multiset(front) + multiset{x} + multiset(back);
      assert x !in multiset(front);
      assert front[i] in multiset(front);
    }
  }

  // Allocate and then Deallocate: every bit is as before except that the index sectors of
  // the header stay marked.
  lemma AllocDealloc(bytes: nat, bits: Bits, disk: Disk) returns (t: Tree, o: Outcome)
    requires |bits| == |disk| && bytes <= Limit3 && Need(bytes) <= ClearCount(bits)
    ensures bytes <= MaxBytes && o == Alloc(bytes, bits, disk) && o.Done?
    ensures t.bytes == bytes && Shape(t) && Rep(o.disk, o.hdr, t) && FirstFit(bits, AllOf(t))
    ensures Dealloc(o.disk, o.hdr, t, o.bits) == Freed(Mark(bits, IndexOf(t)))
  {
    LimitFacts();
    t := AllocRoom(bytes, bits, disk);
    o := Alloc(bytes, bits, disk);
    IncreasingIsDistinct(AllOf(t));
    DataIndexApart(t);
    Members(t);
    DeallocExact(o.disk, o.hdr, t, o.bits);
    ClearAfterMark(bits, t);
  }

  lemma ClearAfterMark(bits: Bits, t: Tree)
    requires AllClear(bits, AllOf(t)) && Distinct(AllOf(t))
    ensures Clear(Mark(bits, AllOf(t)), DataOf(t)) == Mark(bits, IndexOf(t))
  {
    DataIndexApart(t);
    Members(t);
  }
}
