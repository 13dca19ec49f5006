/**
 Machine widths, powers of two and the two bit-counting instructions the
 decomposition loops rely on.
 */
module Bits {

  newtype u8 = x: int | 0 <= x < 0x100
  newtype u16 = x: int | 0 <= x < 0x1_0000
  newtype u32 = x: int | 0 <= x < 0x1_0000_0000
  newtype u64 = x: int | 0 <= x < 0x1_0000_0000_0000_0000
  newtype u128 = x: int | 0 <= x < 0x1_0000_0000_0000_0000_0000_0000_0000_0000

  function Pow2(n: nat): (p: nat)
    ensures p >= 1
  {
    if n == 0 then 1 else 2 * Pow2(n - 1)
  }

  /** `a` has at least `h` trailing zero bits. */
  predicate Aligned(a: nat, h: nat)
    decreases h
  {
    h == 0 || (a % 2 == 0 && Aligned(a / 2, h - 1))
  }

  lemma {:induction false} Pow2Add(m: nat, n: nat)
    ensures Pow2(m + n) == Pow2(m) * Pow2(n)
  {
    if m > 0 {
      Pow2Add(m - 1, n);
    }
  }

  lemma {:induction false} Pow2Monotone(m: nat, n: nat)
    requires m <= n
    ensures Pow2(m) <= Pow2(n)
  {
    if m < n {
      Pow2Monotone(m, n - 1);
    }
  }

  lemma Pow2Strict(m: nat, n: nat)
    requires Pow2(m) <= Pow2(n)
    ensures m <= n
  {
    if n < m {
      Pow2Monotone(n + 1, m);
    }
  }

  lemma Pow2Below(m: nat, n: nat)
    requires Pow2(m) < Pow2(n)
    ensures m < n
  {
    if n <= m {
      Pow2Monotone(n, m);
    }
  }

  lemma Pow2Double(n: nat, p: nat)
    requires Pow2(n) == p
    ensures Pow2(2 * n) == p * p
  {
    Pow2Add(n, n);
  }

  lemma Width32()
    ensures Pow2(32) == 0x1_0000_0000
  {
    Pow2Double(4, 0x10);
    Pow2Double(8, 0x100);
    Pow2Double(16, 0x1_0000);
  }

  lemma Width64()
    ensures Pow2(64) == 0x1_0000_0000_0000_0000
  {
    Width32();
    Pow2Double(32, 0x1_0000_0000);
  }

  lemma Width128()
    ensures Pow2(128) == 0x1_0000_0000_0000_0000_0000_0000_0000_0000
  {
    Width64();
    Pow2Double(64, 0x1_0000_0000_0000_0000);
  }

  lemma NotNegative(d: int, p: int)
    requires d >= 0 && p >= 0
    ensures d * p >= 0
  {
  }

  lemma Between(i: int, j: int, p: int)
    requires p > 0 && i * p < j * p
    ensures i * p + p <= j * p
  {
    if i >= j {
      NotNegative(i - j, p);
    } else {
      NotNegative(j - i - 1, p);
    }
  }

  lemma NextMultiple(j: int, m: int, q: int)
    requires q > 0
    requires j * q < m * q
    ensures j * q + q <= m * q
  {
    Between(j, m, q);
  }

  /** Aligned words are the multiples of the block size. */
  lemma {:induction false} Multiple(a: nat, h: nat) returns (k: nat)
    requires Aligned(a, h)
    ensures a == k * Pow2(h)
    decreases h
  {
    if h == 0 {
      k := a;
    } else {
      k := Multiple(a / 2, h - 1);
      assert a == 2 * (k * Pow2(h - 1));
    }
  }

  lemma {:induction false} MultipleAligned(k: nat, h: nat)
    ensures Aligned(k * Pow2(h), h)
    decreases h
  {
    if h > 0 {
      MultipleAligned(k, h - 1);
      assert k * Pow2(h) == 2 * (k * Pow2(h - 1));
    }
  }

  lemma AlignedMeansDivisible(a: nat, h: nat)
    ensures Aligned(a, h) <==> a % Pow2(h) == 0
  {
    var p := Pow2(h);
    if a % p == 0 {
      MultipleAligned(a / p, h);
    }
    if Aligned(a, h) {
      var k := Multiple(a, h);
      MulMod(k, p);
    }
  }

  lemma MulMod(k: nat, p: nat)
    requires p > 0
    ensures (k * p) % p == 0
  {
    var x := k * p;
    var q, r := x / p, x % p;
    assert (k - q) * p == r;
    assert k - q >= 1 ==> (k - q) * p >= p;
    assert k - q <= -1 ==> (k - q) * p + p <= 0;
  }

  lemma {:induction false} AlignedWeaken(a: nat, h: nat, g: nat)
    requires Aligned(a, h) && g <= h
    ensures Aligned(a, g)
    decreases h
  {
    if g > 0 {
      AlignedWeaken(a / 2, h - 1, g - 1);
    }
  }

  lemma {:induction false} ZeroAligned(h: nat)
    ensures Aligned(0, h)
  {
    if h > 0 {
      ZeroAligned(h - 1);
    }
  }

  lemma Alignments(a: nat)
    ensures forall g: nat, h: nat :: h <= g && Aligned(a, g) ==> Aligned(a, h)
  {
    forall g: nat, h: nat | h <= g && Aligned(a, g)
      ensures Aligned(a, h)
    {
      AlignedWeaken(a, g, h);
    }
  }

  lemma {:induction false} AlignedSum(a: nat, b: nat, h: nat)
    requires Aligned(a, h) && Aligned(b, h)
    ensures Aligned(a + b, h)
    decreases h
  {
    if h > 0 {
      AlignedSum(a / 2, b / 2, h - 1);
      assert (a + b) / 2 == a / 2 + b / 2;
    }
  }

  lemma {:induction false} AlignedDifference(a: nat, b: nat, h: nat)
    requires Aligned(a, h) && Aligned(b, h) && b <= a
    ensures Aligned(a - b, h)
    decreases h
  {
    if h > 0 {
      AlignedDifference(a / 2, b / 2, h - 1);
      assert (a - b) / 2 == a / 2 - b / 2;
    }
  }

  lemma {:induction false} PowerAligned(k: nat, h: nat)
    ensures Aligned(Pow2(k), h) <==> h <= k
    decreases h
  {
    if h > 0 && k > 0 {
      PowerAligned(k - 1, h - 1);
    }
  }

  /** `a` with its low `h` bits cleared. */
  function ClearLow(a: nat, h: nat): (r: nat)
    ensures r <= a < r + Pow2(h) && Aligned(r, h)
    ensures r == a <==> Aligned(a, h)
    decreases h
  {
    if h == 0 then a else 2 * ClearLow(a / 2, h - 1)
  }

  /** `trailing_zeros` of a non-zero word. */
  function TrailingZeros(x: nat): (z: nat)
    requires x > 0
    ensures Aligned(x, z) && !Aligned(x, z + 1)
  {
    if x % 2 == 1 then 0 else 1 + TrailingZeros(x / 2)
  }

  /** Position of the highest set bit. */
  function Log2(x: nat): (r: nat)
    requires x > 0
    ensures Pow2(r) <= x < Pow2(r + 1)
  {
    if x == 1 then 0 else 1 + Log2(x / 2)
  }

  /** `leading_zeros` of a non-zero word of `w` bits. */
  function LeadingZeros(w: nat, x: nat): (z: nat)
    requires 0 < x < Pow2(w)
    ensures z < w && Pow2(w - 1 - z) <= x < Pow2(w - z)
  {
    Pow2Below(Log2(x), w);
    w - 1 - Log2(x)
  }
}
