/** The header of a file as a tree of one to four levels (NachOS/filesys/filehdr.cc).

    A header whose file fits in NumDirect sectors lists its data sectors; a larger one lists
    the sectors of child headers, each of which describes one Span of bytes (the last child
    describes what is left, so siblings may have different depths). */
module HeaderTree {
  import opened Geometry
  import opened BitSpec
  import opened ByteCodec
  import opened Sequences

  // The three fields of the source's FileHeader, as they are stored in one sector.
  datatype Hdr = Hdr(numBytes: int, numSectors: int, dataSectors: seq<int>)

  datatype Sector = Raw(bytes: seq<Byte>) | Header(hdr: Hdr)
  type Disk = seq<Sector>

  // The shape of a header: which sectors it reaches and in what order.
  datatype Tree =
    | Leaf(bytes: nat, sectors: seq<int>)
    | Node(bytes: nat, kids: Forest)
  datatype Forest = Nil | Cons(sector: int, tree: Tree, rest: Forest)

  // How many bytes each child of a header describes.
  function Span(bytes: nat): (s: Positive)
    requires bytes > Limit2
    ensures s < bytes
    ensures s == Limit2 || s == Limit3 || s == Limit4
    ensures bytes <= MaxBytes ==> bytes <= Times(NumDirect, s)
  {
    LimitFacts();
    if bytes > Limit4 then Limit4 else if bytes > Limit3 then Limit3 else Limit2
  }

  function Chunk(rem: nat, span: nat): nat {
    if rem > span then span else rem
  }

  // ---- sectors a header reaches -------------------------------------------------------

  // Data sectors, in file order.
  function DataOf(t: Tree): seq<int> {
    match t
    case Leaf(_, s) => s
    case Node(_, f) => DataOfAll(f)
  }

  function DataOfAll(f: Forest): seq<int> {
    match f
    case Nil => []
    case Cons(_, t, rest) => DataOf(t) + DataOfAll(rest)
  }

  // Sectors that hold child headers.
  function IndexOf(t: Tree): seq<int> {
    match t
    case Leaf(_, _) => []
    case Node(_, f) => IndexOfAll(f)
  }

  function IndexOfAll(f: Forest): seq<int> {
    match f
    case Nil => []
    case Cons(s, t, rest) => [s] + (IndexOf(t) + IndexOfAll(rest))
  }

  // Both kinds, in pre-order: a child header's sector comes before what the child reaches.
  function AllOf(t: Tree): seq<int> {
    match t
    case Leaf(_, s) => s
    case Node(_, f) => AllOfAll(f)
  }

  function AllOfAll(f: Forest): seq<int> {
    match f
    case Nil => []
    case Cons(s, t, rest) => [s] + (AllOf(t) + AllOfAll(rest))
  }

  // How many sectors, data and index together, a file of this size takes.
  function Need(bytes: nat): nat
    decreases bytes, 0, 0
  {
    if bytes <= Limit2 then Ceil(bytes, SectorSize)
    else NeedAll(bytes, Span(bytes))
  }

  function NeedAll(rem: nat, span: Positive): nat
    decreases span, 1, rem
  {
    if rem == 0 then 0
    else 1 + (Need(Chunk(rem, span)) + NeedAll(rem - Chunk(rem, span), span))
  }

  lemma NeedAllStep(rem: nat, span: Positive, c: nat)
    requires rem > 0 && c == Chunk(rem, span)
    ensures NeedAll(rem, span) == 1 + (Need(c) + NeedAll(rem - c, span))
  {
  }

  // ---- well-shaped headers, and the disk that stores them -----------------------------

  ghost predicate Shape(t: Tree) {
    match t
    case Leaf(b, s) => b <= Limit2 && |s| == Ceil(b, SectorSize)
    case Node(b, f) => Limit2 < b <= MaxBytes && ShapeAll(f, Span(b), b)
  }

  ghost predicate ShapeAll(f: Forest, span: Positive, rem: nat) {
    match f
    case Nil => rem == 0
    case Cons(_, t, rest) =>
      rem > 0 && t.bytes == Chunk(rem, span) && Shape(t) && ShapeAll(rest, span, rem - t.bytes)
  }

  // The header h, with the child headers on the disk, spells out the tree t;
  // entries that are not used hold -1.
  ghost predicate Rep(disk: Disk, h: Hdr, t: Tree)
    decreases t
  {
    && h.numBytes == t.bytes
    && h.numSectors == Ceil(t.bytes, SectorSize)
    && |h.dataSectors| == NumDirect
    && match t
       case Leaf(_, s) =>
         && |s| <= NumDirect
         && h.dataSectors == s + seq(NumDirect - |s|, _ => -1)
         && (forall x :: x in s ==> 0 <= x < |disk|)
       case Node(_, f) => RepAll(disk, h.dataSectors, 0, f)
  }

  ghost predicate RepAll(disk: Disk, slots: seq<int>, i: nat, f: Forest)
    decreases f
  {
    match f
    case Nil => forall j :: i <= j < |slots| ==> slots[j] == -1
    case Cons(s, t, rest) =>
      && i < |slots| && slots[i] == s && 0 <= s < |disk|
      && disk[s].Header? && Rep(disk, disk[s].hdr, t)
      && RepAll(disk, slots, i + 1, rest)
  }

  // ---- Allocate, as coded -------------------------------------------------------------

  // What a call of Allocate can come to: FALSE, TRUE, or a failed device assertion
  // (a header written to sector -1).
  datatype Outcome =
    | Refused(hdr: Hdr, bits: Bits, disk: Disk)
    | Done(hdr: Hdr, bits: Bits, disk: Disk)
    | Aborted

  ghost function FindAndSet(bits: Bits): (r: (int, Bits)) {
    if HasClear(bits) then (First(bits) as int, bits[First(bits) := true]) else (-1, bits)
  }

  ghost function Alloc(bytes: nat, bits: Bits, disk: Disk): (o: Outcome)
    requires |bits| == |disk| && bytes <= MaxBytes
    ensures !o.Aborted? ==> |o.bits| == |o.disk| == |disk| && |o.hdr.dataSectors| == NumDirect
    decreases bytes, 0, 0
  {
    var n := Ceil(bytes, SectorSize);
    var empty := Hdr(bytes, n, seq(NumDirect, _ => -1));
    if ClearCount(bits) < n then Refused(empty, bits, disk)
    else if bytes <= Limit2 then
      LeafFits(bytes);
      var secs := Take(bits, n);
      Done(empty.(dataSectors := secs + seq(NumDirect - n, _ => -1)), Mark(bits, secs), disk)
    else
      KidsFit(bytes);
      AllocAll(empty, Span(bytes), bytes, 0, bits, disk)
  }

  ghost function AllocAll(hdr: Hdr, span: Positive, rem: nat, i: nat, bits: Bits, disk: Disk): (o: Outcome)
    requires |bits| == |disk| && |hdr.dataSectors| == NumDirect && span < MaxBytes
    requires i + Ceil(rem, span) <= NumDirect
    ensures !o.Aborted? ==> |o.bits| == |o.disk| == |disk| && |o.hdr.dataSectors| == NumDirect
    decreases span, 1, rem
  {
    if rem == 0 then Done(hdr, bits, disk)
    else
      var c := Chunk(rem, span);
      var (s, b) := FindAndSet(bits);
      var sub := Alloc(c, b, disk);
      if sub.Aborted? || s < 0 then Aborted
      else AllocAll(hdr.(dataSectors := hdr.dataSectors[i := s]), span, rem - c, i + 1,
                    sub.bits, sub.disk[s := Header(sub.hdr)])
  }

  lemma LeafFits(bytes: nat)
    requires bytes <= Limit2
    ensures Ceil(bytes, SectorSize) <= NumDirect
  {
    CeilMono(bytes, NumDirect, SectorSize);
  }

  // The child headers fit the table.
  lemma KidsFit(bytes: nat)
    requires Limit2 < bytes <= MaxBytes
    ensures Ceil(bytes, Span(bytes)) <= NumDirect
  {
    CeilMono(bytes, NumDirect, Span(bytes));
  }

  // ---- frame and membership -----------------------------------------------------------

  ghost predicate Agree(d1: Disk, d2: Disk, secs: seq<int>) {
    |d1| == |d2| && forall s :: s in secs && 0 <= s < |d1| ==> d1[s] == d2[s]
  }

  // A header's tree depends only on the sectors that hold child headers.
  lemma {:induction false} RepFrame(d1: Disk, d2: Disk, h: Hdr, t: Tree)
    requires Rep(d1, h, t) && Agree(d1, d2, IndexOf(t))
    ensures Rep(d2, h, t)
    decreases t, 0
  {
    if t.Node? {
      RepAllFrame(d1, d2, h.dataSectors, 0, t.kids);
    }
  }

  lemma {:induction false} RepAllFrame(d1: Disk, d2: Disk, slots: seq<int>, i: nat, f: Forest)
    requires RepAll(d1, slots, i, f) && Agree(d1, d2, IndexOfAll(f))
    ensures RepAll(d2, slots, i, f)
    decreases f, 0
  {
    if f.Cons? {
      assert f.sector in IndexOfAll(f);
      forall s | s in IndexOf(f.tree) || s in IndexOfAll(f.rest) ensures s in IndexOfAll(f) {}
      RepFrame(d1, d2, d1[f.sector].hdr, f.tree);
      RepAllFrame(d1, d2, slots, i + 1, f.rest);
    }
  }

  // Data and index sectors together are all sectors, with the same multiplicities.
  lemma {:induction false} Partition(t: Tree)
    ensures multiset(AllOf(t)) == multiset(DataOf(t)) + multiset(IndexOf(t))
    decreases t, 0
  {
    if t.Node? {
      PartitionAll(t.kids);
    }
  }

  lemma {:induction false} PartitionAll(f: Forest)
    ensures multiset(AllOfAll(f)) == multiset(DataOfAll(f)) + multiset(IndexOfAll(f))
    decreases f, 0
  {
    if f.Cons? {
      Partition(f.tree);
      PartitionAll(f.rest);
    }
  }

  lemma Members(t: Tree)
    ensures forall x :: x in AllOf(t) <==> x in DataOf(t) || x in IndexOf(t)
  {
    Partition(t);
    forall x ensures x in AllOf(t) <==> x in DataOf(t) || x in IndexOf(t) {
      assert x in AllOf(t) <==> x in multiset(AllOf(t));
      assert x in DataOf(t) <==> x in multiset(DataOf(t));
      assert x in IndexOf(t) <==> x in multiset(IndexOf(t));
    }
  }

  lemma MembersAll(f: Forest)
    ensures forall x :: x in AllOfAll(f) <==> x in DataOfAll(f) || x in IndexOfAll(f)
  {
    var t := Node(0, f);
    Members(t);
    assert AllOf(t) == AllOfAll(f) && DataOf(t) == DataOfAll(f) && IndexOf(t) == IndexOfAll(f);
  }

  // ---- sizes --------------------------------------------------------------------------

  lemma {:induction false} AllSize(t: Tree)
    requires Shape(t)
    ensures |AllOf(t)| == Need(t.bytes)
    decreases t, 0
  {
    if t.Node? {
      AllSizeAll(t.kids, Span(t.bytes), t.bytes);
    }
  }

  lemma {:induction false} AllSizeAll(f: Forest, span: Positive, rem: nat)
    requires ShapeAll(f, span, rem)
    ensures |AllOfAll(f)| == NeedAll(rem, span)
    decreases f, 0
  {
    if f.Cons? {
      AllSize(f.tree);
      AllSizeAll(f.rest, span, rem - f.tree.bytes);
    }
  }

  // Every child span is a whole number of sectors.
  function SpanSectors(span: Positive): (k: Positive)
    requires span == Limit2 || span == Limit3 || span == Limit4
    ensures k * SectorSize == span
  {
    LimitsAreProducts();
    MulPos(NumDirect, NumDirect);
    MulPos(NumDirect * NumDirect, NumDirect);
    if span == Limit2 then NumDirect
    else if span == Limit3 then NumDirect * NumDirect
    else NumDirect * NumDirect * NumDirect
  }

  // A header reaches one data sector for every SectorSize bytes, rounded up.
  lemma {:induction false} DataSize(t: Tree)
    requires Shape(t)
    ensures |DataOf(t)| == Ceil(t.bytes, SectorSize)
    decreases t, 0
  {
    if t.Node? {
      DataSizeAll(t.kids, Span(t.bytes), t.bytes);
    }
  }

  lemma {:induction false} DataSizeAll(f: Forest, span: Positive, rem: nat)
    requires span == Limit2 || span == Limit3 || span == Limit4
    requires ShapeAll(f, span, rem)
    ensures |DataOfAll(f)| == Ceil(rem, SectorSize)
    decreases f, 0
  {
    if f.Cons? {
      DataSize(f.tree);
      DataSizeAll(f.rest, span, rem - f.tree.bytes);
      if rem > span {
        var k := SpanSectors(span);
        CeilAddMultiple(k, span, rem - span, SectorSize);
        CeilAddMultiple(k, span, 0, SectorSize);
      }
    }
  }

  // ---- Allocate succeeds when there is room -------------------------------------------

  // With room for data and index sectors together, Allocate takes exactly the first
  // Need(bytes) clear bits, in pre-order, and leaves on the disk a header that spells out
  // a well-shaped tree over them; no sector but the child headers is written.
  lemma {:induction false} AllocRoom(bytes: nat, bits: Bits, disk: Disk) returns (t: Tree)
    requires |bits| == |disk| && bytes <= MaxBytes
    requires Need(bytes) <= ClearCount(bits)
    ensures t.bytes == bytes && Shape(t)
    ensures |AllOf(t)| == Need(bytes) && FirstFit(bits, AllOf(t))
    ensures Alloc(bytes, bits, disk).Done?
    ensures Alloc(bytes, bits, disk).bits == Mark(bits, AllOf(t))
    ensures Rep(Alloc(bytes, bits, disk).disk, Alloc(bytes, bits, disk).hdr, t)
    ensures forall s :: 0 <= s < |disk| && s !in IndexOf(t) ==> Alloc(bytes, bits, disk).disk[s] == disk[s]
    decreases bytes, 0, 0
  {
    var n := Ceil(bytes, SectorSize);
    NeedCoversData(bytes);
    if bytes <= Limit2 {
      LeafFits(bytes);
      t := Leaf(bytes, Take(bits, n));
      TakeIsFirstFit(bits, n);
    } else {
      KidsFit(bytes);
      var empty := Hdr(bytes, n, seq(NumDirect, _ => -1));
      var f, _ := AllocAllRoom(empty, Span(bytes), bytes, 0, bits, disk);
      t := Node(bytes, f);
      AllSize(t);
    }
  }

  // In other words: the sectors of the header, in pre-order, are the Need(bytes) lowest clear
  // bits, in order, and those are the bits that get marked.
  lemma AllocTakesLowest(bytes: nat, bits: Bits, disk: Disk) returns (t: Tree)
    requires |bits| == |disk| && bytes <= MaxBytes
    requires Need(bytes) <= ClearCount(bits)
    ensures Shape(t) && Alloc(bytes, bits, disk).Done?
    ensures Rep(Alloc(bytes, bits, disk).disk, Alloc(bytes, bits, disk).hdr, t)
    ensures AllOf(t) == Take(bits, Need(bytes))
    ensures Alloc(bytes, bits, disk).bits == Mark(bits, Take(bits, Need(bytes)))
  {
    t := AllocRoom(bytes, bits, disk);
    TakeIsFirstFit(bits, Need(bytes));
    FirstFitUnique(bits, AllOf(t), Take(bits, Need(bytes)));
  }

  lemma {:induction false} NeedCoversData(bytes: nat)
    requires bytes <= MaxBytes
    ensures Need(bytes) >= Ceil(bytes, SectorSize)
    ensures bytes > Limit2 ==> Need(bytes) > Ceil(bytes, SectorSize)
    decreases bytes, 0, 0
  {
    if bytes > Limit2 {
      NeedAllCoversData(bytes, Span(bytes));
    }
  }

  lemma {:induction false} NeedAllCoversData(rem: nat, span: Positive)
    requires span == Limit2 || span == Limit3 || span == Limit4
    requires span <= MaxBytes
    ensures NeedAll(rem, span) >= Ceil(rem, SectorSize)
    ensures rem > 0 ==> NeedAll(rem, span) > Ceil(rem, SectorSize)
    decreases span, 1, rem
  {
    if rem > 0 {
      var c := Chunk(rem, span);
      NeedCoversData(c);
      NeedAllCoversData(rem - c, span);
      if rem > span {
        var k := SpanSectors(span);
        CeilAddMultiple(k, span, rem - span, SectorSize);
        CeilAddMultiple(k, span, 0, SectorSize);
      }
    }
  }

  function Length(f: Forest): nat {
    match f
    case Nil => 0
    case Cons(_, _, rest) => 1 + Length(rest)
  }

  // The loop, from round i on, came to o: it marked the sectors of f and stored f.
  ghost predicate ForestStored(hdr: Hdr, i: nat, bits: Bits, disk: Disk, o: Outcome, f: Forest)
    requires |bits| == |disk| && |hdr.dataSectors| == NumDirect && i <= NumDirect
  {
    && o.Done? && |o.disk| == |disk| && |o.hdr.dataSectors| == NumDirect
    && o.bits == Mark(bits, AllOfAll(f))
    && o.hdr.numBytes == hdr.numBytes && o.hdr.numSectors == hdr.numSectors
    && o.hdr.dataSectors[..i] == hdr.dataSectors[..i]
    && RepAll(o.disk, o.hdr.dataSectors, i, f)
    && (forall s :: 0 <= s < |disk| && s !in IndexOfAll(f) ==> o.disk[s] == disk[s])
  }

  lemma {:induction false} AllocAllRoom(hdr: Hdr, span: Positive, rem: nat, i: nat, bits: Bits, disk: Disk)
    returns (f: Forest, o: Outcome)
    requires |bits| == |disk| && |hdr.dataSectors| == NumDirect && span < MaxBytes
    requires i + Ceil(rem, span) <= NumDirect
    requires NeedAll(rem, span) <= ClearCount(bits)
    requires Unused(hdr, i)
    ensures ShapeAll(f, span, rem)
    ensures FirstFit(bits, AllOfAll(f))
    ensures o == AllocAll(hdr, span, rem, i, bits, disk) && ForestStored(hdr, i, bits, disk, o, f)
    decreases span, 1, rem, 1
  {
    if rem == 0 {
      f, o := Nil, Done(hdr, bits, disk);
      assert Mark(bits, []) == bits;
    } else {
      f, o := AllocSomeRoom(hdr, span, rem, i, bits, disk);
    }
  }

  lemma {:induction false} AllocSomeRoom(hdr: Hdr, span: Positive, rem: nat, i: nat, bits: Bits, disk: Disk)
    returns (f: Forest, o: Outcome)
    requires |bits| == |disk| && |hdr.dataSectors| == NumDirect && span < MaxBytes
    requires 0 < rem && i + Ceil(rem, span) <= NumDirect
    requires NeedAll(rem, span) <= ClearCount(bits)
    requires Unused(hdr, i)
    ensures ShapeAll(f, span, rem)
    ensures FirstFit(bits, AllOfAll(f))
    ensures o == AllocAll(hdr, span, rem, i, bits, disk) && ForestStored(hdr, i, bits, disk, o, f)
    decreases span, 1, rem, 0
  {
    hide Alloc, FirstFit, ShapeAll, Rep, RepAll, ClearCount, Shape;
    var c := Chunk(rem, span);
    NeedAllStep(rem, span, c);
    var s, t, sub, hdr', disk';
    s, t, sub, hdr', disk', o := FirstRound(hdr, span, rem, i, bits, disk);
    var rest, _ := AllocAllRoom(hdr', span, rem - c, i + 1, sub.bits, disk');
    f := Cons(s, t, rest);
    RoundDone(hdr, hdr', span, rem, i, bits, disk, disk', s, t, rest, sub, o);
  }

  ghost predicate Unused(hdr: Hdr, i: nat) {
    forall j :: i <= j < |hdr.dataSectors| ==> hdr.dataSectors[j] == -1
  }

  // The first round of the loop: a child header is allocated and stored.
  lemma {:induction false} FirstRound(hdr: Hdr, span: Positive, rem: nat, i: nat, bits: Bits, disk: Disk)
    returns (s: nat, t: Tree, sub: Outcome, hdr': Hdr, disk': Disk, o: Outcome)
    requires |bits| == |disk| && |hdr.dataSectors| == NumDirect && span < MaxBytes
    requires 0 < rem && i + Ceil(rem, span) <= NumDirect
    requires 1 + (Need(Chunk(rem, span)) + NeedAll(rem - Chunk(rem, span), span)) <= ClearCount(bits)
    ensures ChildDone(Chunk(rem, span), bits, disk, s, t, sub)
    ensures NeedAll(rem - Chunk(rem, span), span) <= ClearCount(sub.bits)
    ensures hdr' == hdr.(dataSectors := hdr.dataSectors[i := s]) && disk' == sub.disk[s := Header(sub.hdr)]
    ensures i + 1 + Ceil(rem - Chunk(rem, span), span) <= NumDirect
    ensures o == AllocAll(hdr', span, rem - Chunk(rem, span), i + 1, sub.bits, disk')
    ensures o == AllocAll(hdr, span, rem, i, bits, disk)
    decreases Chunk(rem, span), 0, 2
  {
    s, t, sub := FirstChild(Chunk(rem, span), NeedAll(rem - Chunk(rem, span), span), bits, disk);
    hdr', disk', o := AllocAllStep(hdr, span, rem, i, bits, disk, s, sub);
  }

  // The first child of a round: its header's sector s and its tree t.
  ghost predicate ChildDone(c: nat, bits: Bits, disk: Disk, s: nat, t: Tree, sub: Outcome)
    requires |bits| == |disk|
  {
    && HasClear(bits) && s == First(bits)
    && t.bytes == c && Shape(t) && FirstFit(bits[s := true], AllOf(t))
    && sub.Done? && |sub.disk| == |disk| == |sub.bits|
    && sub.bits == Mark(bits[s := true], AllOf(t)) && Rep(sub.disk, sub.hdr, t)
    && forall x :: 0 <= x < |disk| && x !in IndexOf(t) ==> sub.disk[x] == disk[x]
  }

  lemma {:induction false} FirstChild(c: nat, r: nat, bits: Bits, disk: Disk) returns (s: nat, t: Tree, sub: Outcome)
    requires |bits| == |disk| && c <= MaxBytes && 1 + (Need(c) + r) <= ClearCount(bits)
    ensures ChildDone(c, bits, disk, s, t, sub) && sub == Alloc(c, bits[s := true], disk)
    ensures r <= ClearCount(sub.bits)
    decreases c, 0, 1
  {
    CountMark(bits);
    s := First(bits);
    t := AllocRoom(c, bits[s := true], disk);
    IncreasingIsDistinct(AllOf(t));
    CountMarkAll(bits[s := true], AllOf(t));
    sub := Alloc(c, bits[s := true], disk);
  }

  // One round, and the rounds after it.
  lemma RoundDone(hdr: Hdr, hdr': Hdr, span: Positive, rem: nat, i: nat, bits: Bits, disk: Disk, disk': Disk,
                  s: nat, t: Tree, rest: Forest, sub: Outcome, o: Outcome)
    requires |bits| == |disk| && |hdr.dataSectors| == NumDirect && i < NumDirect
    requires 0 < rem && ChildDone(Chunk(rem, span), bits, disk, s, t, sub)
    requires hdr' == hdr.(dataSectors := hdr.dataSectors[i := s]) && disk' == sub.disk[s := Header(sub.hdr)]
    requires ShapeAll(rest, span, rem - t.bytes) && FirstFit(sub.bits, AllOfAll(rest))
    requires ForestStored(hdr', i + 1, sub.bits, disk', o, rest)
    ensures ShapeAll(Cons(s, t, rest), span, rem)
    ensures FirstFit(bits, AllOfAll(Cons(s, t, rest)))
    ensures ForestStored(hdr, i, bits, disk, o, Cons(s, t, rest))
  {
    RoundFirstFit(bits, AllOf(t), AllOfAll(rest));
    StoredStep(hdr, i, bits, disk, s, bits[s := true], t, rest, sub, o);
  }

  // A round takes the lowest clear bit, then the child's, then the later rounds'.
  lemma RoundFirstFit(bits: Bits, front: seq<int>, back: seq<int>)
    requires HasClear(bits) && FirstFit(bits[First(bits) := true], front)
    requires FirstFit(Mark(bits[First(bits) := true], front), back)
    ensures FirstFit(bits, [First(bits) as int] + (front + back))
  {
    var s := First(bits);
    FirstFitJoin(bits[s := true], front, back);
    assert Mark(bits, [s]) == bits[s := true];
    FirstFitJoin(bits, [s], front + back);
  }

  // One round of the loop, unrolled.
  lemma AllocAllStep(hdr: Hdr, span: Positive, rem: nat, i: nat, bits: Bits, disk: Disk, s: nat, sub: Outcome)
    returns (hdr': Hdr, disk': Disk, o: Outcome)
    requires |bits| == |disk| && |hdr.dataSectors| == NumDirect && span < MaxBytes
    requires 0 < rem && i + Ceil(rem, span) <= NumDirect
    requires HasClear(bits) && s == First(bits)
    requires sub == Alloc(Chunk(rem, span), bits[s := true], disk) && sub.Done?
    ensures hdr' == hdr.(dataSectors := hdr.dataSectors[i := s]) && disk' == sub.disk[s := Header(sub.hdr)]
    ensures i + 1 + Ceil(rem - Chunk(rem, span), span) <= NumDirect
    ensures o == AllocAll(hdr', span, rem - Chunk(rem, span), i + 1, sub.bits, disk')
    ensures o == AllocAll(hdr, span, rem, i, bits, disk)
  {
    hdr' := hdr.(dataSectors := hdr.dataSectors[i := s]);
    disk' := sub.disk[s := Header(sub.hdr)];
    o := AllocAll(hdr', span, rem - Chunk(rem, span), i + 1, sub.bits, disk');
  }

  // One round of the loop, whatever it comes to.
  lemma AllocAllRound(hdr: Hdr, span: Positive, rem: nat, i: nat, bits: Bits, disk: Disk, s: int, b: Bits, sub: Outcome)
    requires |bits| == |disk| && |hdr.dataSectors| == NumDirect && span < MaxBytes
    requires 0 < rem && i + Ceil(rem, span) <= NumDirect
    requires FindAndSet(bits) == (s, b) && |b| == |disk|
    requires sub == Alloc(Chunk(rem, span), b, disk)
    ensures i + 1 + Ceil(rem - Chunk(rem, span), span) <= NumDirect
    ensures sub.Aborted? || s < 0 ==> AllocAll(hdr, span, rem, i, bits, disk) == Aborted
    ensures !sub.Aborted? && s >= 0 ==>
      && s < |disk| == |sub.disk| == |sub.bits|
      && AllocAll(hdr, span, rem, i, bits, disk)
         == AllocAll(hdr.(dataSectors := hdr.dataSectors[i := s]), span, rem - Chunk(rem, span), i + 1,
                     sub.bits, sub.disk[s := Header(sub.hdr)])
  {
  }

  // What one round stored, in front of what the rounds after it stored.
  lemma StoredStep(hdr: Hdr, i: nat, bits: Bits, disk: Disk, s: nat, b: Bits,
                   t: Tree, rest: Forest, sub: Outcome, o: Outcome)
    requires |bits| == |disk| && |hdr.dataSectors| == NumDirect && i < NumDirect
    requires s < |bits| && b == bits[s := true] && !bits[s]
    requires AllClear(b, AllOf(t)) && AllClear(Mark(b, AllOf(t)), AllOfAll(rest))
    requires sub.Done? && |sub.disk| == |disk| == |sub.bits|
    requires sub.bits == Mark(b, AllOf(t)) && Rep(sub.disk, sub.hdr, t)
    requires forall x :: 0 <= x < |disk| && x !in IndexOf(t) ==> sub.disk[x] == disk[x]
    requires ForestStored(hdr.(dataSectors := hdr.dataSectors[i := s]), i + 1,
                          sub.bits, sub.disk[s := Header(sub.hdr)], o, rest)
    ensures ForestStored(hdr, i, bits, disk, o, Cons(s, t, rest))
  {
    assert o.hdr.dataSectors[i] == o.hdr.dataSectors[..i + 1][i] == s;
    assert o.hdr.dataSectors[..i] == o.hdr.dataSectors[..i + 1][..i] == hdr.dataSectors[..i];
    assert o.bits == Mark(bits, AllOfAll(Cons(s, t, rest))) by {
      MarkTwice(b, AllOf(t), AllOfAll(rest));
      MarkCons(bits, s, AllOf(t) + AllOfAll(rest));
    }
    ChildSurvives(s, b, t, rest, sub, sub.disk[s := Header(sub.hdr)], o);
  }

  // The child written in one round is not overwritten by the rounds after it.
  lemma ChildSurvives(s: nat, b: Bits, t: Tree, rest: Forest, sub: Outcome, disk': Disk, o: Outcome)
    requires s < |b| && b[s] && sub.Done? && |sub.disk| == |b|
    requires AllClear(b, AllOf(t)) && AllClear(Mark(b, AllOf(t)), AllOfAll(rest))
    requires Rep(sub.disk, sub.hdr, t) && disk' == sub.disk[s := Header(sub.hdr)]
    requires o.Done? && |o.disk| == |disk'|
    requires forall x :: 0 <= x < |disk'| && x !in IndexOfAll(rest) ==> o.disk[x] == disk'[x]
    ensures o.disk[s] == Header(sub.hdr) && Rep(o.disk, sub.hdr, t)
  {
    Members(t);
    forall x | x in IndexOfAll(rest) ensures x != s && x !in AllOf(t) {
      MembersAll(rest);
      assert !Mark(b, AllOf(t))[x];
    }
    assert s !in AllOf(t);
    assert Agree(sub.disk, o.disk, IndexOf(t));
    RepFrame(sub.disk, o.disk, sub.hdr, t);
  }

  // ---- exactly when Allocate does its job ---------------------------------------------

  // The call answered TRUE and left a header over fresh sectors, no two the same.
  ghost predicate Sound(bytes: nat, bits: Bits, o: Outcome) {
    && o.Done?
    && exists t :: SoundTree(bytes, bits, o, t)
  }

  ghost predicate SoundTree(bytes: nat, bits: Bits, o: Outcome, t: Tree)
    requires o.Done?
  {
    && t.bytes == bytes && Shape(t) && Rep(o.disk, o.hdr, t)
    && AllClear(bits, AllOf(t)) && Distinct(AllOf(t)) && o.bits == Mark(bits, AllOf(t))
  }

  // The free-space test counts data sectors only: the call is refused exactly when they do
  // not fit, which changes nothing, and sound exactly when data and index sectors fit together.
  lemma AllocSoundIff(bytes: nat, bits: Bits, disk: Disk)
    requires |bits| == |disk| && bytes <= MaxBytes
    ensures Alloc(bytes, bits, disk).Refused? <==> ClearCount(bits) < Ceil(bytes, SectorSize)
    ensures Alloc(bytes, bits, disk).Refused? ==> Alloc(bytes, bits, disk).bits == bits && Alloc(bytes, bits, disk).disk == disk
    ensures Sound(bytes, bits, Alloc(bytes, bits, disk)) <==> ClearCount(bits) >= Need(bytes)
  {
    var o := Alloc(bytes, bits, disk);
    if ClearCount(bits) >= Need(bytes) {
      RoomIsSound(bytes, bits, disk);
    }
    if Sound(bytes, bits, o) {
      var t :| SoundTree(bytes, bits, o, t);
      AllSize(t);
      Pigeonhole(bits, AllOf(t));
    }
    RefusedIff(bytes, bits, disk);
  }

  lemma RoomIsSound(bytes: nat, bits: Bits, disk: Disk)
    requires |bits| == |disk| && bytes <= MaxBytes && ClearCount(bits) >= Need(bytes)
    ensures Sound(bytes, bits, Alloc(bytes, bits, disk))
  {
    var t := AllocRoom(bytes, bits, disk);
    IncreasingIsDistinct(AllOf(t));
    assert SoundTree(bytes, bits, Alloc(bytes, bits, disk), t);
  }

  lemma RefusedIff(bytes: nat, bits: Bits, disk: Disk)
    requires |bits| == |disk| && bytes <= MaxBytes
    ensures Alloc(bytes, bits, disk).Refused? <==> ClearCount(bits) < Ceil(bytes, SectorSize)
  {
    if bytes > Limit2 && ClearCount(bits) >= Ceil(bytes, SectorSize) {
      KidsFit(bytes);
      AllocAllNotRefused(Hdr(bytes, Ceil(bytes, SectorSize), seq(NumDirect, _ => -1)),
                         Span(bytes), bytes, 0, bits, disk);
    }
  }

  lemma {:induction false} AllocAllNotRefused(hdr: Hdr, span: Positive, rem: nat, i: nat, bits: Bits, disk: Disk)
    requires |bits| == |disk| && |hdr.dataSectors| == NumDirect && span < MaxBytes
    requires i + Ceil(rem, span) <= NumDirect
    ensures !AllocAll(hdr, span, rem, i, bits, disk).Refused?
    decreases rem
  {
    if rem > 0 {
      var c := Chunk(rem, span);
      var (s, b) := FindAndSet(bits);
      var sub := Alloc(c, b, disk);
      if !sub.Aborted? && s >= 0 {
        AllocAllNotRefused(hdr.(dataSectors := hdr.dataSectors[i := s]), span, rem - c, i + 1,
                           sub.bits, sub.disk[s := Header(sub.hdr)]);
      }
    }
  }

  // The gap is real: for every file with index sectors some free map passes the test of
  // the code although the file does not fit, and the call then never comes out sound.
  lemma AllocGap(bytes: nat, bits: Bits, disk: Disk)
    requires |bits| == |disk| && Limit2 < bytes <= MaxBytes
    requires ClearCount(bits) == Ceil(bytes, SectorSize)
    ensures !Alloc(bytes, bits, disk).Refused? && !Sound(bytes, bits, Alloc(bytes, bits, disk))
  {
    NeedCoversData(bytes);
    AllocSoundIff(bytes, bits, disk);
  }
}
