/** The abstract value of a bitmap: one Boolean a bit, true when marked.
    First-fit allocation is described by Take, the list of the k lowest clear bits. */
module BitSpec {
  import opened Sequences

  type Bits = seq<bool>

  ghost function ClearSet(bits: Bits): set<int> {
    set i | 0 <= i < |bits| && !bits[i]
  }

  // How many bits are clear.
  ghost function ClearCount(bits: Bits): nat {
    |ClearSet(bits)|
  }

  ghost predicate HasClear(bits: Bits) {
    exists i :: 0 <= i < |bits| && !bits[i]
  }

  // The lowest clear bit.
  ghost function First(bits: Bits): (i: nat)
    requires HasClear(bits)
    ensures i < |bits| && !bits[i]
    ensures forall j :: 0 <= j < i ==> bits[j]
  {
    FirstFrom(bits, 0)
  }

  ghost function FirstFrom(bits: Bits, k: nat): (i: nat)
    requires exists i :: k <= i < |bits| && !bits[i]
    requires forall j :: 0 <= j < k && j < |bits| ==> bits[j]
    ensures k <= i < |bits| && !bits[i]
    ensures forall j :: 0 <= j < i ==> bits[j]
    decreases |bits| - k
  {
    if !bits[k] then k else FirstFrom(bits, k + 1)
  }

  ghost function Mark(bits: Bits, secs: seq<int>): (r: Bits)
    ensures |r| == |bits|
  {
    seq(|bits|, i requires 0 <= i < |bits| => bits[i] || i in secs)
  }

  ghost function Clear(bits: Bits, secs: seq<int>): (r: Bits)
    ensures |r| == |bits|
  {
    seq(|bits|, i requires 0 <= i < |bits| => bits[i] && i !in secs)
  }

  // The k lowest clear bits, in increasing order.
  ghost function Take(bits: Bits, k: nat): (secs: seq<int>)
    requires k <= ClearCount(bits)
    ensures |secs| == k
    decreases k
  {
    if k == 0 then []
    else
      CountMark(bits);
      var i := First(bits);
      [i] + Take(bits[i := true], k - 1)
  }

  // Some bit is clear exactly when the count is positive, and marking the lowest takes one off.
  lemma CountMark(bits: Bits)
    ensures ClearCount(bits) > 0 <==> HasClear(bits)
    ensures HasClear(bits) ==> ClearCount(bits[First(bits) := true]) == ClearCount(bits) - 1
  {
    CountPositive(bits);
    if HasClear(bits) {
      CountMarkAt(bits, First(bits));
    }
  }

  lemma CountPositive(bits: Bits)
    ensures ClearCount(bits) > 0 <==> HasClear(bits)
  {
    if HasClear(bits) {
      var i :| 0 <= i < |bits| && !bits[i];
      assert i in ClearSet(bits);
    } else {
      assert ClearSet(bits) == {};
    }
  }

  lemma CountMarkAt(bits: Bits, i: nat)
    requires i < |bits| && !bits[i]
    ensures ClearCount(bits[i := true]) == ClearCount(bits) - 1
  {
    assert ClearSet(bits[i := true]) == ClearSet(bits) - {i};
  }

  ghost predicate Increasing(s: seq<int>) {
    forall i, j :: 0 <= i < j < |s| ==> s[i] < s[j]
  }

  ghost predicate AllClear(bits: Bits, secs: seq<int>) {
    forall x :: x in secs ==> 0 <= x < |bits| && !bits[x]
  }

  ghost predicate AllMarked(bits: Bits, secs: seq<int>) {
    forall x :: x in secs ==> 0 <= x < |bits| && bits[x]
  }

  // One step of Take, as a rule to apply by hand.
  lemma TakeStep(bits: Bits, k: nat) returns (i: nat, b: Bits, rest: seq<int>)
    requires 0 < k <= ClearCount(bits)
    ensures i < |bits| && !bits[i] && (forall j :: 0 <= j < i ==> bits[j])
    ensures b == bits[i := true] && ClearCount(b) == ClearCount(bits) - 1
    ensures rest == Take(b, k - 1) && Take(bits, k) == [i] + rest
  {
    CountMark(bits);
    i := First(bits);
    b := bits[i := true];
    rest := Take(b, k - 1);
  }

  // Take lists clear bits only, in increasing order.
  lemma {:induction false} TakeClear(bits: Bits, k: nat)
    requires k <= ClearCount(bits)
    ensures AllClear(bits, Take(bits, k)) && Increasing(Take(bits, k))
    decreases k
  {
    if k > 0 {
      var i, b, rest := TakeStep(bits, k);
      TakeClear(b, k - 1);
      forall x | x in rest ensures 0 <= x < |bits| && i < x && !bits[x] {
        assert !b[x];
      }
      ConsIncreasing(i, rest);
    }
  }

  // The list secs is what first fit takes: clear bits, in increasing order, and every
  // clear bit it leaves lies above all it takes.
  ghost predicate FirstFit(bits: Bits, secs: seq<int>) {
    && AllClear(bits, secs)
    && Increasing(secs)
    && forall x, y :: x in secs && 0 <= y < |bits| && !bits[y] && y !in secs ==> x < y
  }

  lemma {:induction false} TakeIsFirstFit(bits: Bits, k: nat)
    requires k <= ClearCount(bits)
    ensures FirstFit(bits, Take(bits, k))
    decreases k
  {
    TakeClear(bits, k);
    if k > 0 {
      var i, b, rest := TakeStep(bits, k);
      TakeIsFirstFit(b, k - 1);
      forall x, y | x in [i] + rest && 0 <= y < |bits| && !bits[y] && y !in [i] + rest ensures x < y {
        assert !b[y] && y !in rest;
      }
    }
  }

  // First fit followed by first fit is first fit.
  lemma FirstFitJoin(bits: Bits, a: seq<int>, b: seq<int>)
    requires FirstFit(bits, a) && FirstFit(Mark(bits, a), b)
    ensures FirstFit(bits, a + b)
  {
    var c := Mark(bits, a);
    forall x | x in b ensures 0 <= x < |bits| && !bits[x] && x !in a {
      assert !c[x];
    }
    forall i, j | 0 <= i < j < |a + b| ensures (a + b)[i] < (a + b)[j] {
      if i < |a| <= j {
        assert a[i] in a && b[j - |a|] in b;
      }
    }
    forall x, y | x in a + b && 0 <= y < |bits| && !bits[y] && y !in a + b ensures x < y {
      assert !c[y];
    }
  }

  // Two first-fit lists of one length are the same list.
  lemma {:induction false} FirstFitUnique(bits: Bits, a: seq<int>, b: seq<int>)
    requires FirstFit(bits, a) && FirstFit(bits, b) && |a| == |b|
    ensures a == b
  {
    forall i | 0 <= i < |a| ensures a[i] == b[i] {
      FirstFitUniqueAt(bits, a, b, i);
    }
  }

  lemma {:induction false} FirstFitUniqueAt(bits: Bits, a: seq<int>, b: seq<int>, i: nat)
    requires FirstFit(bits, a) && FirstFit(bits, b) && i < |a| && i < |b|
    ensures a[i] == b[i]
    decreases i
  {
    forall j | 0 <= j < i ensures a[j] == b[j] {
      FirstFitUniqueAt(bits, a, b, j);
    }
    if a[i] < b[i] {
      NotSkipped(bits, a, b, i);
    } else if b[i] < a[i] {
      NotSkipped(bits, b, a, i);
    }
  }

  lemma NotSkipped(bits: Bits, a: seq<int>, b: seq<int>, i: nat)
    requires FirstFit(bits, a) && FirstFit(bits, b) && i < |a| && i < |b|
    requires forall j :: 0 <= j < i ==> a[j] == b[j]
    ensures a[i] >= b[i]
  {
    assert a[i] in a && b[i] in b;
  }

  // Marking distinct clear bits takes their number off the count.
  lemma {:induction false} CountMarkAll(bits: Bits, secs: seq<int>)
    requires AllClear(bits, secs) && Distinct(secs)
    ensures ClearCount(Mark(bits, secs)) == ClearCount(bits) - |secs|
    decreases |secs|
  {
    if secs == [] {
      assert Mark(bits, secs) == bits;
    } else {
      var i, rest := secs[0], secs[1..];
      assert i in secs;
      CountMarkAt(bits, i);
      TailClear(bits, secs);
      CountMarkAll(bits[i := true], rest);
      assert secs == [i] + rest;
      MarkCons(bits, i, rest);
    }
  }

  lemma TailClear(bits: Bits, secs: seq<int>)
    requires secs != [] && AllClear(bits, secs) && Distinct(secs)
    ensures 0 <= secs[0] < |bits|
    ensures AllClear(bits[secs[0] := true], secs[1..]) && Distinct(secs[1..])
  {
    assert secs[0] in secs;
    var rest := secs[1..];
    forall x | x in rest ensures 0 <= x < |bits| && !bits[secs[0] := true][x] {
      var k :| 0 <= k < |rest| && rest[k] == x;
      assert secs[k + 1] == x && secs[k + 1] in secs && secs[0] != secs[k + 1];
    }
  }

  lemma ConsIncreasing(i: int, rest: seq<int>)
    requires Increasing(rest) && forall x :: x in rest ==> i < x
    ensures Increasing([i] + rest)
  {
    var s := [i] + rest;
    forall a, b | 0 <= a < b < |s| ensures s[a] < s[b] {
      assert s[b] == rest[b - 1] && rest[b - 1] in rest;
    }
  }

  lemma IncreasingIsDistinct(s: seq<int>)
    requires Increasing(s)
    ensures Distinct(s)
  {
  }

  lemma MarkCons(bits: Bits, i: nat, rest: seq<int>)
    requires i < |bits|
    ensures Mark(bits, [i] + rest) == Mark(bits[i := true], rest)
  {
  }

  // No more distinct clear positions exist than the count says.
  lemma Pigeonhole(bits: Bits, secs: seq<int>)
    requires AllClear(bits, secs) && Distinct(secs)
    ensures |secs| <= ClearCount(bits)
  {
    CountMarkAll(bits, secs);
  }

  lemma MarkTwice(bits: Bits, a: seq<int>, b: seq<int>)
    ensures Mark(Mark(bits, a), b) == Mark(bits, a + b)
  {
  }
}
