/** Binary numerals, one bit at a time. */
module Bits {
  import opened Pio

  function Pow2(k: nat): (p: nat)
    ensures p > 0
  {
    if k == 0 then 1 else 2 * Pow2(k - 1)
  }

  lemma {:induction false} PowAdd(a: nat, b: nat)
    ensures Pow2(a + b) == Pow2(a) * Pow2(b)
  {
    if a == 0 {
      assert Pow2(0) == 1;
    } else {
      calc {
        Pow2(a + b);
        2 * Pow2(a - 1 + b);
        { PowAdd(a - 1, b); }
        2 * (Pow2(a - 1) * Pow2(b));
        { MulTwice(Pow2(a - 1), Pow2(b)); }
        (2 * Pow2(a - 1)) * Pow2(b);
        Pow2(a) * Pow2(b);
      }
    }
  }

  lemma MulTwice(p: nat, q: nat)
    ensures 2 * (p * q) == (2 * p) * q
  {
  }

  lemma DivModUnique(n: nat, h: nat, q: nat, r: nat)
    requires r < h && n == h * q + r
    ensures n / h == q && n % h == r
  {
    var d := n / h - q;
    assert h * d == r - n % h by { assert h * (n / h) == h * q + h * d; }
    assert d > 0 ==> h * d >= h;
    assert d < 0 ==> h * d + h <= 0;
  }

  /** The number that the k low bits of w spell. */
  function Value(w: Word, k: nat): nat {
    if k == 0 then 0 else Value(w, k - 1) + if Bit(w, k - 1) then Pow2(k - 1) else 0
  }

  lemma MulSplit(p: nat, h: nat, b: nat)
    ensures p * (2 * h + b) == (2 * p) * h + p * b
  {
  }

  lemma {:induction false} BitSum(w: Word, k: nat)
    ensures Value(w, k) < Pow2(k) && w == Pow2(k) * Shr(w, k) + Value(w, k)
  {
    if k > 0 {
      BitSum(w, k - 1);
      MulSplit(Pow2(k - 1), Shr(w, k), if Bit(w, k - 1) then 1 else 0);
      assert Shr(w, k - 1) == 2 * Shr(w, k) + if Bit(w, k - 1) then 1 else 0;
    }
  }

  lemma {:induction false} ShrIsDiv(w: Word, k: nat)
    ensures Shr(w, k) == w / Pow2(k)
  {
    BitSum(w, k);
    DivModUnique(w, Pow2(k), Shr(w, k), Value(w, k));
  }
}
