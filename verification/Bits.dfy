/** Binary arithmetic on natural numbers by repeated halving: powers of two, shifts, masks and single bits. */
module Bits {

  function Pow2(n: nat): (p: nat)
    ensures p > 0
  {
    if n == 0 then 1 else 2 * Pow2(n - 1)
  }

  /** `x` shifted right by `n` bits. */
  function Shr(x: nat, n: nat): nat
    decreases n
  {
    if n == 0 then x else Shr(x / 2, n - 1)
  }

  /** The `n` low bits of `x`. */
  function Low(x: nat, n: nat): nat
    decreases n
  {
    if n == 0 then 0 else x % 2 + 2 * Low(x / 2, n - 1)
  }

  /** Bit `n` of `x`, counting from the least significant. */
  function Bit(x: nat, n: nat): nat {
    Shr(x, n) % 2
  }

  lemma {:induction false} ShrIsDivision(x: nat, n: nat)
    ensures Shr(x, n) == x / Pow2(n)
    decreases n
  {
    if n > 0 {
      ShrIsDivision(x / 2, n - 1);
      HalveThenDivide(x, Pow2(n - 1));
    }
  }

  lemma HalveThenDivide(x: nat, d: nat)
    requires d > 0
    ensures x / 2 / d == x / (2 * d)
  {
    var q := x / 2 / d;
    var r := x / 2 % d;
    assert x / 2 == q * d + r;
    assert x == (2 * d) * q + (2 * r + x % 2) by {
      assert x == 2 * (x / 2) + x % 2;
      assert 2 * (q * d) == (2 * d) * q;
    }
    QuotientIs(x, 2 * d, q, 2 * r + x % 2);
  }

  lemma QuotientIs(x: nat, d: nat, q: nat, r: nat)
    requires x == d * q + r && r < d
    ensures x / d == q && x % d == r
  {
    DivisionIsUnique(d, q, r, x / d, x % d);
  }

  lemma DivisionIsUnique(d: nat, q: int, r: nat, q': int, r': nat)
    requires r < d && r' < d && d * q + r == d * q' + r'
    ensures q == q' && r == r'
  {
    if q > q' {
      AtLeastOnce(d, q, q');
    } else if q < q' {
      AtLeastOnce(d, q', q);
    }
  }

  lemma AtLeastOnce(d: nat, q: int, q': int)
    requires q > q'
    ensures d * q >= d * q' + d
  {
    assert d * q == d * q' + d + d * (q - q' - 1);
  }

  lemma {:induction false} LowIsRemainder(x: nat, n: nat)
    ensures Low(x, n) == x % Pow2(n) && Low(x, n) < Pow2(n)
    decreases n
  {
    if n > 0 {
      var d := Pow2(n - 1);
      LowIsRemainder(x / 2, n - 1);
      JoinHalves(x, d);
    }
  }

  lemma JoinHalves(x: nat, d: nat)
    requires d > 0
    ensures x % (2 * d) == x % 2 + 2 * (x / 2 % d)
  {
    var q, r := x / 2 / d, x / 2 % d;
    assert x / 2 == d * q + r;
    assert (2 * d) * q == 2 * (d * q);
    QuotientIs(x, 2 * d, q, x % 2 + 2 * r);
  }

  lemma {:induction false} ShrShr(x: nat, a: nat, b: nat)
    ensures Shr(Shr(x, a), b) == Shr(x, a + b)
    decreases a
  {
    if a > 0 {
      ShrShr(x / 2, a - 1, b);
    }
  }

  /** Widening the mask by one adds the next bit with its weight. */
  lemma {:induction false} LowGrows(x: nat, n: nat)
    ensures Low(x, n + 1) == Low(x, n) + Bit(x, n) * Pow2(n)
    decreases n
  {
    if n > 0 {
      LowGrows(x / 2, n - 1);
    }
  }

  lemma {:induction false} BitOfLow(x: nat, n: nat, j: nat)
    requires j < n
    ensures Bit(Low(x, n), j) == Bit(x, j)
    decreases n
  {
    if j > 0 {
      BitOfLow(x / 2, n - 1, j - 1);
    }
  }

  lemma {:induction false} LowOfSmall(x: nat, n: nat)
    requires x < Pow2(n)
    ensures Low(x, n) == x
    decreases n
  {
    if n > 0 {
      LowOfSmall(x / 2, n - 1);
    }
  }

  /** Numbers that agree on their low `n` bits have the same low part. */
  lemma {:induction false} SameBits(x: nat, y: nat, n: nat)
    requires forall j | 0 <= j < n :: Bit(x, j) == Bit(y, j)
    ensures Low(x, n) == Low(y, n)
    decreases n
  {
    if n > 0 {
      SameBits(x, y, n - 1);
      LowGrows(x, n - 1);
      LowGrows(y, n - 1);
    }
  }

  /** A number written on top of `k` lower bits keeps both parts apart. */
  lemma {:induction false} BitOfJoin(low: nat, high: nat, k: nat, j: nat)
    requires low < Pow2(k)
    ensures Bit(low + Pow2(k) * high, j) == if j < k then Bit(low, j) else Bit(high, j - k)
    decreases k
  {
    if k > 0 {
      var x := low + Pow2(k) * high;
      var p := Pow2(k - 1) * high;
      assert Pow2(k) * high == 2 * p;
      assert x / 2 == low / 2 + p && x % 2 == low % 2;
      if j > 0 {
        BitOfJoin(low / 2, high, k - 1, j - 1);
      }
    }
  }

  lemma {:induction false} Pow2Monotone(a: nat, b: nat)
    requires a <= b
    ensures Pow2(a) <= Pow2(b)
    decreases b
  {
    if a < b {
      Pow2Monotone(a, b - 1);
    }
  }

  lemma {:induction false} Pow2Add(a: nat, b: nat)
    ensures Pow2(a + b) == Pow2(a) * Pow2(b)
  {
    if a > 0 {
      Pow2Add(a - 1, b);
      assert Pow2(a) * Pow2(b) == 2 * (Pow2(a - 1) * Pow2(b));
    }
  }

  /** `x` with bit `k` replaced by `b`. */
  function PutBit(x: nat, k: nat, b: nat): nat
    requires b < 2
    decreases k
  {
    if k == 0 then x / 2 * 2 + b else x % 2 + 2 * PutBit(x / 2, k - 1, b)
  }

  lemma {:induction false} BitOfPut(x: nat, k: nat, b: nat, j: nat)
    requires b < 2
    ensures Bit(PutBit(x, k, b), j) == if j == k then b else Bit(x, j)
    decreases k
  {
    if k > 0 && j > 0 {
      BitOfPut(x / 2, k - 1, b, j - 1);
    }
  }

  lemma {:induction false} PutBitFits(x: nat, k: nat, b: nat, n: nat)
    requires b < 2 && k < n && x < Pow2(n)
    ensures PutBit(x, k, b) < Pow2(n)
    decreases k
  {
    var half := Pow2(n - 1);
    assert Pow2(n) == 2 * half && x / 2 < half;
    if k > 0 {
      PutBitFits(x / 2, k - 1, b, n - 1);
    }
  }
}
