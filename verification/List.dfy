/** The singly linked lists of NachOS/lib/list.cc: cells with a next pointer, and first and
    last pointers into them. */
module Lists {

  class ListElement<T> {
    var next: ListElement?<T>
    const item: T

    constructor (item: T)
      ensures this.item == item && next == null
    {
      this.item, next := item, null;
    }
  }

  // What Remove leaves: the sequence without the first occurrence of an item.
  function Without<T(==)>(s: seq<T>, x: T): seq<T> {
    if s == [] then [] else if s[0] == x then s[1..] else [s[0]] + Without(s[1..], x)
  }

  // Where SortedList::Insert puts an item: behind all that do not come after it.
  function SortedInsert<T>(s: seq<T>, x: T, compare: (T, T) -> int): seq<T> {
    if s == [] then [x]
    else if compare(x, s[0]) < 0 then [x] + s
    else [s[0]] + SortedInsert(s[1..], x, compare)
  }

  lemma {:induction false} InsertAt<T>(s: seq<T>, x: T, compare: (T, T) -> int, i: nat)
    requires i <= |s| && (forall j :: 0 <= j < i ==> compare(x, s[j]) >= 0)
    requires i < |s| ==> compare(x, s[i]) < 0
    ensures SortedInsert(s, x, compare) == s[..i] + [x] + s[i..]
    decreases i
  {
    if i > 0 {
      InsertAt(s[1..], x, compare, i - 1);
      assert s == [s[0]] + s[1..];
    }
  }

  lemma {:induction false} WithoutAt<T>(s: seq<T>, x: T, i: nat)
    requires i < |s| && s[i] == x && forall j :: 0 <= j < i ==> s[j] != x
    ensures Without(s, x) == s[..i] + s[i + 1..]
    decreases i
  {
    if i > 0 {
      WithoutAt(s[1..], x, i - 1);
      assert s == [s[0]] + s[1..];
    }
  }

  class List<T(==)> {
    var first: ListElement?<T>
    var last: ListElement?<T>
    var numInList: nat
    ghost var cells: seq<ListElement<T>>

    ghost predicate Valid()
      reads this, cells
    {
      && numInList == |cells|
      && (cells == [] ==> first == null && last == null)
      && (cells != [] ==> first == cells[0] && last == cells[|cells| - 1] && cells[|cells| - 1].next == null)
      && (forall i :: 0 <= i < |cells| - 1 ==> cells[i].next == cells[i + 1])
      && (forall i, j :: 0 <= i < j < |cells| ==> cells[i].item != cells[j].item)
    }

    ghost function Contents(): (s: seq<T>)
      reads this, cells
      ensures |s| == |cells|
    {
      seq(|cells|, i requires 0 <= i < |cells| reads this, cells => cells[i].item)
    }

    constructor ()
      ensures Valid() && Contents() == [] && cells == []
    {
      first, last, numInList, cells := null, null, 0, [];
    }

    method IsInList(item: T) returns (found: bool)
      requires Valid()
      ensures found <==> item in Contents()
    {
      var ptr := first;
      ghost var i := 0;
      while ptr != null
        invariant 0 <= i <= |cells| && ptr == (if i < |cells| then cells[i] else null)
        invariant item !in Contents()[..i]
        decreases |cells| - i
      {
        if item == ptr.item {
          assert Contents()[i] == item;
          return true;
        }
        assert Contents()[..i + 1] == Contents()[..i] + [ptr.item];
        ptr := ptr.next;
        i := i + 1;
      }
      assert Contents()[..i] == Contents();
      return false;
    }

    lemma NotListed(item: T)
      requires item !in Contents()
      ensures forall i :: 0 <= i < |cells| ==> cells[i].item != item
    {
      forall i | 0 <= i < |cells| ensures cells[i].item != item {
        assert Contents()[i] in Contents();
      }
    }

    // The assertions of the source that call IsInList are assertions here.
    method Append(item: T)
      requires Valid() && item !in Contents()
      modifies this, cells
      ensures Valid() && Contents() == old(Contents()) + [item]
      ensures forall c :: c in cells && c !in old(cells) ==> fresh(c)
    {
      var listed := IsInList(item);
      assert !listed;
      NotListed(item);
      var element := new ListElement(item);
      if first == null {
        first, last := element, element;
      } else {
        last.next := element;
        last := element;
      }
      numInList := numInList + 1;
      cells := cells + [element];
      listed := IsInList(item);
      assert Contents()[|cells| - 1] == item;
      assert listed;
    }

    method Prepend(item: T)
      requires Valid() && item !in Contents()
      modifies this, cells
      ensures Valid() && Contents() == [item] + old(Contents())
      ensures forall c :: c in cells && c !in old(cells) ==> fresh(c)
    {
      var listed := IsInList(item);
      assert !listed;
      NotListed(item);
      var element := new ListElement(item);
      if first == null {
        first, last := element, element;
      } else {
        element.next := first;
        first := element;
      }
      numInList := numInList + 1;
      cells := [element] + cells;
      listed := IsInList(item);
      assert Contents()[0] == item;
      assert listed;
    }

    method RemoveFront() returns (thing: T)
      requires Valid() && Contents() != []
      modifies this
      ensures Valid() && thing == old(Contents())[0] && Contents() == old(Contents())[1..] && thing !in Contents()
      ensures cells == old(cells)[1..]
    {
      var element := first;
      thing := first.item;
      if first == last {
        assert |cells| == 1;
        first, last := null, null;
      } else {
        first := element.next;
      }
      numInList := numInList - 1;
      cells := cells[1..];
    }

    method Remove(item: T)
      requires Valid() && item in Contents()
      modifies this, cells
      ensures Valid() && Contents() == Without(old(Contents()), item) && item !in Contents()
      ensures forall c :: c in cells ==> c in old(cells)
    {
      ghost var s := Contents();
      var listed := IsInList(item);
      assert listed;
      if item == first.item {
        WithoutAt(s, item, 0);
        var removed := RemoveFront();
        assert item == removed;
        return;
      }
      var prev, ptr := first, first.next;
      ghost var i := 1;
      while ptr != null && item != ptr.item
        invariant Valid() && cells == old(cells) && Contents() == s
        invariant 1 <= i <= |cells| && prev == cells[i - 1] && ptr == (if i < |cells| then cells[i] else null)
        invariant forall j :: 0 <= j < i ==> s[j] != item
        decreases |cells| - i
      {
        prev, ptr := ptr, ptr.next;
        i := i + 1;
      }
      assert ptr != null;
      WithoutAt(s, item, i);
      Unlink(prev, ptr, i);
      listed := IsInList(item);
      assert !listed;
    }

    // The body of the loop of Remove, at the cell that is found.
    method Unlink(prev: ListElement<T>, ptr: ListElement<T>, ghost i: nat)
      requires Valid() && 1 <= i < |cells| && prev == cells[i - 1] && ptr == cells[i]
      modifies this, cells
      ensures Valid() && Contents() == old(Contents()[..i] + Contents()[i + 1..])
      ensures cells == old(cells)[..i] + old(cells)[i + 1..]
    {
      ghost var n := |cells|;
      assert i < n - 1 ==> ptr.next == cells[i + 1];
      assert i == n - 1 ==> ptr.next == null;
      ghost var less := cells[..i] + cells[i + 1..];
      assert i < n - 1 ==> less[n - 2] == cells[n - 1];
      assert i == n - 1 ==> less[n - 2] == prev;
      prev.next := ptr.next;
      if prev.next == null {
        last := prev;
      }
      numInList := numInList - 1;
      cells := less;
    }

    // SortedList::Insert
    method InsertSorted(item: T, compare: (T, T) -> int)
      requires Valid() && item !in Contents()
      modifies this, cells
      ensures Valid() && Contents() == SortedInsert(old(Contents()), item, compare)
      ensures forall c :: c in cells && c !in old(cells) ==> fresh(c)
    {
      ghost var s := Contents();
      var listed := IsInList(item);
      assert !listed;
      if first == null {
        Append(item);
        return;
      }
      if compare(item, first.item) < 0 {
        Prepend(item);
        return;
      }
      var ptr := first;
      ghost var i := 0;
      while ptr.next != null && compare(item, ptr.next.item) >= 0
        invariant Valid() && cells == old(cells) && Contents() == s
        invariant 0 <= i < |cells| && ptr == cells[i]
        invariant forall j :: 0 <= j <= i ==> compare(item, s[j]) >= 0
        decreases |cells| - i
      {
        ptr := ptr.next;
        i := i + 1;
      }
      InsertAt(s, item, compare, i + 1);
      if ptr.next == null {
        assert i + 1 == |s| && s[..i + 1] == s;
        Append(item);
      } else {
        LinkBehind(item, ptr, i);
      }
    }

    // The body of the loop of Insert, at the cell to put the new one behind.
    method LinkBehind(item: T, ptr: ListElement<T>, ghost i: nat)
      requires Valid() && item !in Contents() && i + 1 < |cells| && ptr == cells[i]
      modifies this, cells
      ensures Valid() && Contents() == old(Contents()[..i + 1] + [item] + Contents()[i + 1..])
      ensures forall c :: c in cells && c !in old(cells) ==> fresh(c)
    {
      NotListed(item);
      var element := new ListElement(item);
      element.next := ptr.next;
      ptr.next := element;
      numInList := numInList + 1;
      cells := cells[..i + 1] + [element] + cells[i + 1..];
    }
  }
}
