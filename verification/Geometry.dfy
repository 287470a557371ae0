/** Sizes of the disk and of the multi-level file header.

    NumDirect (entries in one header) and SectorSize (bytes in one sector) stay symbolic:
    every proof holds for any header with at least two entries and any non-empty sector.
    The shipped values are 30 and 128. */
module Geometry {

  type Positive = n: nat | n >= 1 witness 1
  type Fanout = n: nat | n >= 2 witness 2

  const NumDirect: Fanout
  const SectorSize: Positive

  // The largest file a header of one, two or three levels can describe.
  // (Times keeps the products out of sight of the solver; LimitsAreProducts spells them out.)
  const Limit2: nat := Times(NumDirect, SectorSize)
  const Limit3: nat := Times(NumDirect, Limit2)
  const Limit4: nat := Times(NumDirect, Limit3)
  // The largest file a four-level header can describe.
  const MaxBytes: nat := Times(NumDirect, Limit4)

  function Times(a: nat, b: nat): nat {
    if a == 0 then 0 else b + Times(a - 1, b)
  }

  function Pow2(n: nat): nat {
    if n == 0 then 1 else 2 * Pow2(n - 1)
  }

  lemma {:induction false} TimesIsProduct(a: nat, b: nat)
    ensures Times(a, b) == a * b
    decreases a
  {
    if a > 0 {
      TimesIsProduct(a - 1, b);
    }
  }

  lemma LimitsAreProducts()
    ensures Limit2 == NumDirect * SectorSize
    ensures Limit3 == NumDirect * Limit2 == NumDirect * NumDirect * SectorSize
    ensures Limit4 == NumDirect * Limit3 == NumDirect * NumDirect * NumDirect * SectorSize
    ensures MaxBytes == NumDirect * Limit4
  {
    TimesIsProduct(NumDirect, SectorSize);
    TimesIsProduct(NumDirect, Limit2);
    TimesIsProduct(NumDirect, Limit3);
    TimesIsProduct(NumDirect, Limit4);
  }

  // n / s rounded up, n / s, and n mod s, by repeated subtraction. The code divides; these are
  // the forms the proofs unfold, and the lemmas below show that the two agree.
  function Ceil(n: nat, s: Positive): nat {
    if n == 0 then 0 else if n <= s then 1 else 1 + Ceil(n - s, s)
  }

  function Quot(n: nat, s: Positive): nat {
    if n < s then 0 else 1 + Quot(n - s, s)
  }

  function Rest(n: nat, s: Positive): nat {
    if n < s then n else Rest(n - s, s)
  }

  // The macro divRoundUp of the source, operation by operation.
  function DivRoundUp(n: nat, s: Positive): (r: nat)
    ensures r == Ceil(n, s)
  {
    RoundUpIsCeil(n, s);
    n / s + (if n % s > 0 then 1 else 0)
  }

  // The macro divRoundDown.
  function DivRoundDown(n: nat, s: Positive): (r: nat)
    ensures r == Quot(n, s)
  {
    QuotRest(n, s);
    n / s
  }

  lemma {:induction false} RoundUpIsCeil(n: nat, s: Positive)
    ensures n / s + (if n % s > 0 then 1 else 0) == Ceil(n, s)
    decreases n
  {
    DivModFacts(n, s);
    if n > s {
      RoundUpIsCeil(n - s, s);
      DivShift(n, 1, s);
      DivModFacts(n - s, s);
    } else if n == s {
      QuotientUnique(n, 1, s);
    } else if n > 0 {
      QuotientUnique(n, 0, s);
    }
  }

  lemma {:induction false} QuotRest(n: nat, s: Positive)
    ensures Quot(n, s) == n / s
    ensures Rest(n, s) == n - s * (n / s) && Rest(n, s) == n % s && Rest(n, s) < s
    decreases n
  {
    DivModFacts(n, s);
    if n < s {
      QuotientUnique(n, 0, s);
    } else {
      QuotRest(n - s, s);
      DivShift(n, 1, s);
      assert s * (n / s - 1) == s * (n / s) - s;
    }
  }

  lemma {:induction false} RestOf(n: nat, s: Positive)
    ensures n - s * Quot(n, s) == Rest(n, s)
    decreases n
  {
    if n >= s {
      RestOf(n - s, s);
      assert s * Quot(n, s) == s * Quot(n - s, s) + s;
    }
  }

  // Byte r of unit i is byte i * s + r of the whole, and the other way round.
  lemma {:induction false} UnitOffset(i: nat, r: nat, s: Positive)
    requires r < s
    ensures Quot(Times(i, s) + r, s) == i && Rest(Times(i, s) + r, s) == r
    decreases i
  {
    if i > 0 {
      UnitOffset(i - 1, r, s);
    }
  }

  lemma {:induction false} UnitOf(n: nat, s: Positive)
    ensures n == Times(Quot(n, s), s) + Rest(n, s) && Rest(n, s) < s
    decreases n
  {
    if n >= s {
      UnitOf(n - s, s);
    }
  }

  lemma {:induction false} TimesMono(a: nat, b: nat, s: nat)
    requires a <= b
    ensures Times(a, s) <= Times(b, s)
    decreases b
  {
    if a < b {
      TimesMono(a, b - 1, s);
    }
  }

  lemma {:induction false} TimesSub(a: nat, b: nat, s: nat)
    requires a <= b
    ensures Times(b - a, s) == Times(b, s) - Times(a, s)
    decreases b
  {
    if a < b {
      TimesSub(a, b - 1, s);
    }
  }

  lemma QuotMono(a: nat, b: nat, s: Positive)
    requires a <= b
    ensures Quot(a, s) <= Quot(b, s)
  {
    UnitOf(a, s);
    UnitOf(b, s);
    if Quot(b, s) < Quot(a, s) {
      TimesMono(Quot(b, s) + 1, Quot(a, s), s);
    }
  }

  lemma DivModFacts(n: nat, s: Positive)
    ensures n == (n / s) * s + n % s && 0 <= n % s < s && 0 <= n / s
    ensures ((n / s) + 1) * s == (n / s) * s + s
    ensures n == 0 ==> n / s == 0
    ensures n / s == 0 ==> n == n % s
  {
  }

  lemma MulMono(a: int, b: int, s: nat)
    requires a <= b
    ensures a * s <= b * s
  {
  }

  lemma MulPos(a: nat, b: nat)
    requires a >= 1
    ensures a * b >= b
  {
  }

  // A quotient is pinned down by the two inequalities that bracket it.
  lemma QuotientUnique(n: nat, q: nat, s: Positive)
    requires q * s <= n < q * s + s
    ensures n / s == q
  {
    DivModFacts(n, s);
    if n / s < q {
      MulMono(n / s + 1, q, s);
    } else if n / s > q {
      MulMono(q + 1, n / s, s);
    }
  }

  lemma {:induction false} CeilBracket(n: nat, s: Positive)
    ensures n <= Ceil(n, s) * s
    ensures Ceil(n, s) >= 1 ==> (Ceil(n, s) - 1) * s < n
    decreases n
  {
    if n > s {
      CeilBracket(n - s, s);
      var q := Ceil(n - s, s);
      assert (q + 1) * s == q * s + s;
      assert (q - 1) * s + s == q * s;
    }
  }

  lemma CeilUnique(n: nat, q: nat, s: Positive)
    requires n <= q * s
    requires q >= 1 ==> (q - 1) * s < n
    ensures Ceil(n, s) == q
  {
    CeilBracket(n, s);
    var r := Ceil(n, s);
    if r < q {
      MulMono(r, q - 1, s);
    } else if q < r {
      MulMono(q, r - 1, s);
    }
  }

  // A whole number of units in front of n adds that number to the rounded-up quotient.
  lemma {:induction false} CeilAddMultiple(k: nat, m: nat, n: nat, s: Positive)
    requires m == k * s
    ensures Ceil(m + n, s) == k + Ceil(n, s)
    decreases k
  {
    if k > 0 {
      assert (k - 1) * s == m - s;
      CeilAddMultiple(k - 1, m - s, n, s);
    }
  }

  lemma {:induction false} QuotSubMultiple(k: nat, m: nat, n: nat, s: Positive)
    requires m == k * s && n >= m
    ensures Quot(n, s) >= k && Quot(n - m, s) == Quot(n, s) - k
    decreases k
  {
    if k > 0 {
      assert (k - 1) * s == m - s;
      QuotSubMultiple(k - 1, m - s, n - s, s);
    }
  }

  lemma {:induction false} QuotBelowCeil(n: nat, bound: nat, s: Positive)
    requires n < bound
    ensures Quot(n, s) < Ceil(bound, s)
    decreases n
  {
    if n >= s {
      QuotBelowCeil(n - s, bound - s, s);
    }
  }

  lemma {:induction false} CeilMono(n: nat, k: nat, s: Positive)
    requires n <= Times(k, s)
    ensures Ceil(n, s) <= k
    decreases n
  {
    if n > s {
      CeilMono(n - s, k - 1, s);
    }
  }

  // Rounding up twice is rounding up once by the product.
  lemma CeilNested(n: nat, s: Positive, m: Positive)
    ensures Times(m, s) >= 1
    ensures Ceil(Ceil(n, s), m) == Ceil(n, Times(m, s))
  {
    TimesIsProduct(m, s);
    MulPos(m, s);
    CeilBracket(n, s);
    CeilBracket(Ceil(n, s), m);
    NestedBracket(n, Ceil(n, s), Ceil(Ceil(n, s), m), s, m);
    CeilUnique(n, Ceil(Ceil(n, s), m), m * s);
  }

  lemma NestedBracket(n: nat, a: nat, q: nat, s: Positive, m: Positive)
    requires n <= a * s && (a >= 1 ==> (a - 1) * s < n)
    requires a <= q * m && (q >= 1 ==> (q - 1) * m < a)
    ensures n <= q * (m * s) && (q >= 1 ==> (q - 1) * (m * s) < n)
  {
    Regroup(q, m, s);
    MulMono(a, q * m, s);
    if q >= 1 {
      Regroup(q - 1, m, s);
      MulMono((q - 1) * m, a - 1, s);
    }
  }

  lemma Regroup(q: nat, m: nat, s: nat)
    ensures (q * m) * s == q * (m * s)
  {
  }

  lemma DivShift(n: nat, k: nat, s: Positive)
    requires n >= k * s
    ensures (n - k * s) / s == n / s - k
  {
    DivModFacts(n, s);
    var q := n / s;
    if q < k {
      MulMono(q + 1, k, s);
    }
    assert (q - k) * s == q * s - k * s;
    QuotientUnique(n - k * s, q - k, s);
  }

  lemma {:induction false} TimesGrows(a: nat, b: Positive)
    requires a >= 2
    ensures b < Times(a, b)
    decreases a
  {
    if a > 2 {
      TimesGrows(a - 1, b);
    } else {
      assert Times(2, b) == b + Times(1, b) && Times(1, b) == b + Times(0, b);
    }
  }

  lemma LimitFacts()
    ensures SectorSize < Limit2 < Limit3 < Limit4 < MaxBytes
  {
    TimesGrows(NumDirect, SectorSize);
    TimesGrows(NumDirect, Limit2);
    TimesGrows(NumDirect, Limit3);
    TimesGrows(NumDirect, Limit4);
  }
}
