/** A bitmap over 32-bit words, as NachOS/lib/bitmap.cc keeps it.
    Every operation is proved against the abstract bits of module BitSpec. */
module Bitmaps {
  import opened Geometry
  import opened BitSpec

  const BitsInWord: Positive := 32

  // An unsigned int, as its 32 bits; the operators of the source work bit by bit.
  type Word = w: seq<bool> | |w| == BitsInWord witness seq(BitsInWord, _ => false)

  // 1 << k
  function OneBit(k: nat): Word
    requires k < BitsInWord
  {
    seq(BitsInWord, i => i == k)
  }

  function Or(a: Word, b: Word): Word {
    seq(BitsInWord, i requires 0 <= i < BitsInWord => a[i] || b[i])
  }

  function And(a: Word, b: Word): Word {
    seq(BitsInWord, i requires 0 <= i < BitsInWord => a[i] && b[i])
  }

  function Not(a: Word): Word {
    seq(BitsInWord, i requires 0 <= i < BitsInWord => !a[i])
  }

  predicate Nonzero(a: Word) {
    exists i :: 0 <= i < BitsInWord && a[i]
  }

  lemma WordIndex(i: nat, numBits: nat)
    requires i < numBits
    ensures i / BitsInWord < DivRoundUp(numBits, BitsInWord)
  {
  }

  class Bitmap {
    const numBits: nat
    const words: array<Word>

    ghost predicate Valid() {
      numBits > 0 && words.Length == DivRoundUp(numBits, BitsInWord)
    }

    // The abstract value: one Boolean a bit.
    ghost function View(): (v: Bits)
      requires Valid()
      reads words
      ensures |v| == numBits
    {
      seq(numBits, i requires 0 <= i < numBits reads words =>
        WordIndex(i, numBits); words[i / BitsInWord][i % BitsInWord])
    }

    constructor (numItems: nat)
      requires numItems > 0
      ensures Valid() && numBits == numItems && fresh(words)
      ensures forall i :: 0 <= i < numItems ==> !View()[i]
    {
      numBits := numItems;
      words := new Word[DivRoundUp(numItems, BitsInWord)](_ => seq(BitsInWord, _ => false));
      new;
      var i := 0;
      while i < numItems
        invariant 0 <= i <= numItems
        invariant fresh(words)
        invariant forall j :: 0 <= j < numItems ==> !View()[j]
      {
        Clear(i);
        i := i + 1;
      }
    }

    method Test(which: nat) returns (r: bool)
      requires Valid() && which < numBits
      ensures r == View()[which]
    {
      WordIndex(which, numBits);
      var w := words[which / BitsInWord];
      var one := And(w, OneBit(which % BitsInWord));
      assert one[which % BitsInWord] == w[which % BitsInWord];
      r := Nonzero(one);
    }

    method Mark(which: nat)
      requires Valid() && which < numBits
      modifies words
      ensures View() == old(View())[which := true]
    {
      WordIndex(which, numBits);
      var q, k := which / BitsInWord, which % BitsInWord;
      words[q] := Or(words[q], OneBit(k));
      forall i | 0 <= i < numBits ensures View()[i] == old(View())[which := true][i] {
        WordIndex(i, numBits);
        if i / BitsInWord == q && i % BitsInWord == k {
          assert i == which;
        }
      }
    }

    method Clear(which: nat)
      requires Valid() && which < numBits
      modifies words
      ensures View() == old(View())[which := false]
    {
      WordIndex(which, numBits);
      var q, k := which / BitsInWord, which % BitsInWord;
      words[q] := And(words[q], Not(OneBit(k)));
      forall i | 0 <= i < numBits ensures View()[i] == old(View())[which := false][i] {
        WordIndex(i, numBits);
        if i / BitsInWord == q && i % BitsInWord == k {
          assert i == which;
        }
      }
    }

    // The lowest clear bit, now marked; -1 and no change when every bit is marked.
    method FindAndSet() returns (r: int)
      requires Valid()
      modifies words
      ensures HasClear(old(View())) <==> r >= 0
      ensures r >= 0 ==> r == First(old(View())) && View() == old(View())[r := true]
      ensures r < 0 ==> r == -1 && View() == old(View())
    {
      var i := 0;
      while i < numBits
        invariant 0 <= i <= numBits
        invariant View() == old(View())
        invariant forall j :: 0 <= j < i ==> View()[j]
      {
        var marked := Test(i);
        if !marked {
          Mark(i);
          return i;
        }
        i := i + 1;
      }
      return -1;
    }

    method NumClear() returns (count: nat)
      requires Valid()
      ensures count == ClearCount(View())
    {
      count := 0;
      var i := 0;
      while i < numBits
        invariant 0 <= i <= numBits
        invariant count == ClearCount(View()[..i])
      {
        var marked := Test(i);
        CountNext(View(), i);
        if !marked {
          count := count + 1;
        }
        i := i + 1;
      }
      assert View()[..numBits] == View();
    }
  }

  lemma CountNext(bits: Bits, i: nat)
    requires i < |bits|
    ensures ClearCount(bits[..i + 1]) == ClearCount(bits[..i]) + (if bits[i] then 0 else 1)
  {
    var a, b := bits[..i], bits[..i + 1];
    assert ClearSet(b) == ClearSet(a) + (if bits[i] then {} else {i});
  }
}
