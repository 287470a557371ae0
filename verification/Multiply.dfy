/** The R2000 multiplier of NachOS/machine/mipssim.cc: 32 steps of shift and add over two
    words, on 32-bit ints that wrap around. */
module Multiply {
  import opened Geometry

  const W: nat := 0x1_0000_0000
  const Top: nat := 0x8000_0000

  type Int32 = x: int | -0x8000_0000 <= x < 0x8000_0000
  type UInt32 = x: int | 0 <= x < 0x1_0000_0000

  // The bits of an int, read as unsigned.
  function Unsigned(x: Int32): UInt32 {
    if x < 0 then x + W else x
  }

  // -x on 32-bit ints: the most negative value stays as it is.
  function Negate(x: Int32): (r: Int32)
    ensures Unsigned(r) == if x == 0 then 0 else W - Unsigned(x)
  {
    if x == -0x8000_0000 then x else -x
  }

  // A double word as a signed number.
  function Signed64(hi: UInt32, lo: UInt32): int {
    if hi < Top then hi * W + lo else hi * W + lo - W * W
  }

  lemma PowerOfWord()
    ensures Pow2(32) == W
  {
    assert Pow2(8) == 256;
    assert Pow2(16) == 65536;
    assert Pow2(24) == 16777216;
  }

  // What remains to be done: acc has been added up, r is what is left of the multiplier, of
  // m possible values, and p the multiplicand shifted that far.
  ghost predicate Remaining(acc: nat, r: nat, p: nat, m: nat, x: nat, y: nat) {
    acc + r * p == x * y && r < m && p * m == y * W
  }

  // One step of the loop when the lowest bit is set, and when it is clear.
  lemma AddStep(acc: nat, r: nat, p: nat, m: nat, x: nat, y: nat)
    requires Remaining(acc, r, p, m, x, y) && r % 2 == 1
    ensures acc + p + (r / 2) * (2 * p) == x * y
  {
    assert r == 2 * (r / 2) + 1;
    assert r * p == (2 * (r / 2)) * p + p;
    assert (r / 2) * (2 * p) == (2 * (r / 2)) * p;
  }

  lemma ShiftStep(acc: nat, r: nat, p: nat, m: nat, x: nat, y: nat)
    requires Remaining(acc, r, p, m, x, y) && r % 2 == 0
    ensures acc + (r / 2) * (2 * p) == x * y
  {
    assert r == 2 * (r / 2);
    assert (r / 2) * (2 * p) == (2 * (r / 2)) * p;
  }

  lemma HalfRange(p: nat, m: nat, h: nat, r: nat, y: nat)
    requires m == 2 * h && r < m && p * m == y * W
    ensures r / 2 < h && (2 * p) * h == y * W
  {
  }

  // The running sum never leaves a double word, nor does the shifted multiplicand.
  lemma Fits(acc: nat, r: nat, p: nat, m: nat, x: nat, y: nat)
    requires Remaining(acc, r, p, m, x, y) && x < W && y < W && m >= 1
    ensures x * y < W * W && acc <= x * y && p < W * W
    ensures r >= 1 ==> acc + p <= x * y
    ensures m >= 2 ==> 2 * p < W * W
  {
    ProductBelow(x, y);
    assert p <= p * m;
    if r >= 1 {
      assert p <= r * p;
    }
    if m >= 2 {
      assert 2 * p <= p * m;
    }
  }

  lemma ProductBelow(x: nat, y: nat)
    requires x < W && y < W
    ensures x * y < W * W
  {
    MulMono(x, W - 1, y);
  }

  // The two words of the source, as one number.
  ghost function Pair(hi: int, lo: int): int {
    hi * W + lo
  }

  method AddPair(hi: UInt32, lo: UInt32, bHi: UInt32, bLo: UInt32) returns (hi': UInt32, lo': UInt32)
    requires Pair(hi, lo) + Pair(bHi, bLo) < W * W
    ensures Pair(hi', lo') == Pair(hi, lo) + Pair(bHi, bLo)
  {
    lo' := (lo + bLo) % W;
    hi' := hi;
    if lo' < bLo {
      hi' := (hi' + 1) % W;
    }
    hi' := (hi' + bHi) % W;
  }

  method DoublePair(bHi: UInt32, bLo: UInt32) returns (hi': UInt32, lo': UInt32)
    requires 2 * Pair(bHi, bLo) < W * W
    ensures Pair(hi', lo') == 2 * Pair(bHi, bLo)
  {
    hi' := (bHi * 2) % W;
    if bLo >= Top {
      hi' := hi' + 1;
    }
    lo' := (bLo * 2) % W;
  }

  // The int a holds what is left of the multiplier: exactly, or, if its top bit was set, with
  // copies of that bit shifted in.
  ghost predicate Shifted(a: int, r: nat, m: nat) {
    r < m && (a == r || a == r - m)
  }

  // One round of the loop keeps what remains in step with what has been added.
  lemma Round(acc: nat, r: nat, p: nat, m: nat, h: nat, x: nat, y: nat, a: int)
    requires Remaining(acc, r, p, m, x, y) && Shifted(a, r, m) && m == 2 * h && h >= 1 && x < W && y < W
    ensures 2 * p < W * W
    ensures a % 2 == 1 ==> acc + p < W * W
    ensures a % 2 == 1 ==> Remaining(acc + p, r / 2, 2 * p, h, x, y)
    ensures a % 2 == 0 ==> Remaining(acc, r / 2, 2 * p, h, x, y)
    ensures Shifted(a / 2, r / 2, h) && (a == 1 ==> acc + p == x * y)
  {
    Fits(acc, r, p, m, x, y);
    HalfRange(p, m, h, r, y);
    HalfShifted(a, r, m, h);
    if r % 2 == 1 {
      AddStep(acc, r, p, m, x, y);
    } else {
      ShiftStep(acc, r, p, m, x, y);
    }
    if a == 1 {
      LastBit(a, r, m, h);
    }
  }

  // The main loop: every bit of a, lowest first.
  method Loop(a0: Int32, b: Int32) returns (hi: UInt32, lo: UInt32)
    ensures Pair(hi, lo) == Unsigned(a0) * Unsigned(b)
  {
    var a: Int32 := a0;
    var bLo: UInt32, bHi: UInt32 := Unsigned(b), 0;
    lo, hi := 0, 0;
    ghost var x, y := Unsigned(a0), Unsigned(b);
    ghost var r, m := x, W;
    PowerOfWord();
    assert Remaining(Pair(hi, lo), r, Pair(bHi, bLo), m, x, y);
    assert Shifted(a, r, m);
    hide Remaining, Shifted;
    var i := 0;
    while i < 32
      invariant 0 <= i <= 32 && m == Pow2(32 - i) >= 1
      invariant Shifted(a, r, m)
      invariant Remaining(Pair(hi, lo), r, Pair(bHi, bLo), m, x, y)
    {
      ghost var h, p := Pow2(32 - i - 1), Pair(bHi, bLo);
      PowPositive(32 - i - 1);
      Round(Pair(hi, lo), r, p, m, h, x, y, a);
      if a % 2 == 1 {
        hi, lo := AddPair(hi, lo, bHi, bLo);
        if a == 1 {
          return;
        }
      }
      bHi, bLo := DoublePair(bHi, bLo);
      a := a / 2;
      r, m := r / 2, h;
      i := i + 1;
    }
    NothingLeft(Pair(hi, lo), r, Pair(bHi, bLo), m, x, y);
  }

  lemma {:induction false} PowPositive(n: nat)
    ensures Pow2(n) >= 1
    decreases n
  {
    if n > 0 {
      PowPositive(n - 1);
    }
  }

  lemma NothingLeft(acc: nat, r: nat, p: nat, m: nat, x: nat, y: nat)
    requires Remaining(acc, r, p, m, x, y) && m == 1
    ensures acc == x * y
  {
  }

  lemma LastBit(a: int, r: nat, m: nat, h: nat)
    requires Shifted(a, r, m) && a == 1
    ensures r == 1
  {
  }

  lemma HalfShifted(a: int, r: nat, m: nat, h: nat)
    requires Shifted(a, r, m) && m == 2 * h
    ensures Shifted(a / 2, r / 2, h) && a % 2 == r % 2
  {
  }

  // hi and lo get the exact double-word product: of the unsigned values, or of the signed
  // ones, the most negative included.
  method Mult(a0: Int32, b0: Int32, signedArith: bool) returns (hi: UInt32, lo: UInt32)
    ensures !signedArith ==> Pair(hi, lo) == Unsigned(a0) * Unsigned(b0)
    ensures signedArith ==> Signed64(hi, lo) == a0 * b0
  {
    var a, b := a0, b0;
    if a == 0 || b == 0 {
      return 0, 0;
    }
    var negative := false;
    if signedArith {
      if a < 0 {
        negative := !negative;
        a := Negate(a);
      }
      if b < 0 {
        negative := !negative;
        b := Negate(b);
      }
    }
    hi, lo := Loop(a, b);
    ghost var v := Pair(hi, lo);
    if signedArith {
      SmallProduct(a0, b0);
    }
    if negative {
      hi, lo := Complement(hi, lo);
    }
  }

  // ~hi, ~lo, lo++ with its carry: the two's complement of a double word.
  method Complement(hi0: UInt32, lo0: UInt32) returns (hi: UInt32, lo: UInt32)
    requires Pair(hi0, lo0) > 0
    ensures Pair(hi, lo) == W * W - Pair(hi0, lo0)
  {
    hi, lo := W - 1 - hi0, W - 1 - lo0;
    lo := (lo + 1) % W;
    if lo == 0 {
      hi := (hi + 1) % W;
    }
  }

  function Abs(x: int): nat {
    if x < 0 then -x else x
  }

  // The magnitudes multiply to at most 2^62, and carry the sign apart.
  lemma SmallProduct(a: Int32, b: Int32)
    requires a != 0 && b != 0
    ensures 0 < Abs(a) * Abs(b) <= Top * Top
    ensures a * b == if (a < 0) != (b < 0) then -(Abs(a) * Abs(b)) else Abs(a) * Abs(b)
  {
    MulMono(Abs(a), Top, Abs(b));
    MulMono(1, Abs(a), Abs(b));
  }
}
