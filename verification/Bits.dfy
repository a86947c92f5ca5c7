/** Natural numbers as bit strings: shifts, low bits, and the bitwise operators of BigInt and Go's words. */
module Bits {
  function Shl(x: nat, k: nat): nat {
    if k == 0 then x else 2 * Shl(x, k - 1)
  }

  function Shr(x: nat, k: nat): nat {
    if k == 0 then x else Shr(x / 2, k - 1)
  }

  /** The low `k` bits of `x`. */
  function Low(x: nat, k: nat): nat {
    if k == 0 then 0 else x % 2 + 2 * Low(x / 2, k - 1)
  }

  function Pow2(k: nat): (p: nat)
    ensures p >= 1
  {
    if k == 0 then 1 else 2 * Pow2(k - 1)
  }

  function BitAnd(x: nat, y: nat): (r: nat)
    ensures r <= x && r <= y
    decreases x
  {
    if x == 0 || y == 0 then 0
    else (if x % 2 == 1 && y % 2 == 1 then 1 else 0) + 2 * BitAnd(x / 2, y / 2)
  }

  function BitOr(x: nat, y: nat): nat
    decreases x + y
  {
    if x == 0 then y
    else if y == 0 then x
    else (if x % 2 == 1 || y % 2 == 1 then 1 else 0) + 2 * BitOr(x / 2, y / 2)
  }

  function BitXor(x: nat, y: nat): nat
    decreases x + y
  {
    if x == 0 then y
    else if y == 0 then x
    else (if x % 2 == y % 2 then 0 else 1) + 2 * BitXor(x / 2, y / 2)
  }

  /** Go's `x &^ m` on words of `width` bits. */
  function AndNot(x: nat, m: nat, width: nat): nat
    requires m < Pow2(width)
  {
    BitAnd(x, Pow2(width) - 1 - m)
  }

  /** Shifts and low bits as the arithmetic they stand for. */
  lemma {:induction false} ShiftsAsArithmetic(x: nat, k: nat)
    ensures Shl(x, k) == x * Pow2(k)
    ensures Shr(x, k) == x / Pow2(k)
    ensures Low(x, k) == x % Pow2(k)
  {
    ShlIsProduct(x, k);
    ShlIsProduct(Shr(x, k), k);
    Split(x, k);
    QuotientUnique(x, Pow2(k), Shr(x, k), Low(x, k));
  }

  lemma {:induction false} ShlIsProduct(x: nat, k: nat)
    ensures Shl(x, k) == x * Pow2(k)
  {
    if k > 0 {
      ShlIsProduct(x, k - 1);
    }
  }

  lemma QuotientUnique(a: nat, d: nat, q: nat, r: nat)
    requires d > 0 && a == q * d + r && r < d
    ensures a / d == q && a % d == r
  {
    var q', r' := a / d, a % d;
    assert (q - q') * d == r' - r;
    assert (q' - q) * d == r - r';
    if q > q' {
      ProductGrows(q - q', d);
    } else if q < q' {
      ProductGrows(q' - q, d);
    }
  }

  lemma ProductGrows(k: int, d: int)
    requires k >= 1 && d >= 0
    ensures k * d >= d
  {
  }

  lemma {:induction false} Split(x: nat, k: nat)
    ensures x == Shl(Shr(x, k), k) + Low(x, k)
    ensures Low(x, k) < Pow2(k)
  {
    if k > 0 {
      Split(x / 2, k - 1);
    }
  }

  lemma {:induction false} Unsplit(h: nat, l: nat, k: nat)
    requires l < Pow2(k)
    ensures Shr(Shl(h, k) + l, k) == h
    ensures Low(Shl(h, k) + l, k) == l
  {
    if k > 0 {
      assert (Shl(h, k) + l) / 2 == Shl(h, k - 1) + l / 2;
      Unsplit(h, l / 2, k - 1);
    }
  }

  lemma {:induction false} ShrShr(x: nat, a: nat, b: nat)
    ensures Shr(Shr(x, a), b) == Shr(x, a + b)
  {
    if a > 0 {
      ShrShr(x / 2, a - 1, b);
    }
  }

  lemma {:induction false} ShlShl(x: nat, a: nat, b: nat)
    ensures Shl(Shl(x, a), b) == Shl(x, a + b)
  {
    if b > 0 {
      ShlShl(x, a, b - 1);
    }
  }

  lemma {:induction false} ShlSum(x: nat, y: nat, k: nat)
    ensures Shl(x + y, k) == Shl(x, k) + Shl(y, k)
  {
    if k > 0 {
      ShlSum(x, y, k - 1);
    }
  }

  lemma {:induction false} ShlMonotonic(x: nat, y: nat, k: nat)
    requires x <= y
    ensures Shl(x, k) <= Shl(y, k)
  {
    if k > 0 {
      ShlMonotonic(x, y, k - 1);
    }
  }

  lemma {:induction false} ShlOfOne(k: nat)
    ensures Shl(1, k) == Pow2(k) && Shl(0, k) == 0
  {
    if k > 0 {
      ShlOfOne(k - 1);
    }
  }

  lemma {:induction false} Pow2Sum(a: nat, b: nat)
    ensures Pow2(a + b) == Shl(Pow2(a), b)
  {
    if b > 0 {
      Pow2Sum(a, b - 1);
    }
  }

  lemma Pow2OfZero()
    ensures Pow2(0) == 1
  {
  }

  lemma {:induction false} Pow2Monotonic(a: nat, b: nat)
    requires a <= b
    ensures Pow2(a) <= Pow2(b)
    decreases b
  {
    if a < b {
      Pow2Monotonic(a, b - 1);
    }
  }

  lemma Shift8(x: nat)
    ensures Shl(x, 8) == 256 * x && Pow2(8) == 256
  {
    assert Shl(x, 1) == 2 * x && Pow2(1) == 2;
    assert Shl(x, 3) == 8 * x && Pow2(3) == 8;
    assert Shl(x, 5) == 32 * x && Pow2(5) == 32;
    assert Shl(x, 7) == 128 * x && Pow2(7) == 128;
  }

  lemma Pow2Of32()
    ensures Pow2(32) == 0x1_0000_0000
  {
    Shift8(Pow2(8));
    Pow2Sum(8, 8);
    Shift8(Pow2(16));
    Pow2Sum(16, 8);
    Shift8(Pow2(24));
    Pow2Sum(24, 8);
  }

  /** A number that already fits is its own low part. */
  lemma LowOfSmall(x: nat, k: nat)
    requires x < Pow2(k)
    ensures Low(x, k) == x && Shr(x, k) == 0
  {
    ShlOfOne(k);
    Unsplit(0, x, k);
  }

  /** The high part of a low part is the low part of the high part. */
  lemma {:induction false} LowShr(x: nat, a: nat, b: nat)
    ensures Shr(Low(x, a + b), a) == Low(Shr(x, a), b)
  {
    if a > 0 {
      assert Low(x, a + b) / 2 == Low(x / 2, a - 1 + b);
      LowShr(x / 2, a - 1, b);
    }
  }

  lemma {:induction false} LowLow(x: nat, a: nat, b: nat)
    ensures Low(Low(x, a + b), a) == Low(x, a)
  {
    if a > 0 {
      assert Low(x, a + b) / 2 == Low(x / 2, a - 1 + b) && Low(x, a + b) % 2 == x % 2;
      LowLow(x / 2, a - 1, b);
    }
  }

  /** Multiples of `2^k` do not show in the low `k` bits. */
  lemma {:induction false} LowOfSum(h: nat, x: nat, k: nat)
    ensures Low(Shl(h, k) + x, k) == Low(x, k)
  {
    if k > 0 {
      assert (Shl(h, k) + x) / 2 == Shl(h, k - 1) + x / 2;
      LowOfSum(h, x / 2, k - 1);
    }
  }

  lemma LowMaskHalf(k: nat)
    requires k > 0
    ensures (Pow2(k) - 1) % 2 == 1 && (Pow2(k) - 1) / 2 == Pow2(k - 1) - 1
  {
  }

  /** A mask of `k` low ones keeps the low `k` bits. */
  lemma {:induction false} AndLowMask(x: nat, k: nat)
    ensures BitAnd(x, Pow2(k) - 1) == Low(x, k)
    decreases k
  {
    if k > 0 {
      LowMaskHalf(k);
      AndLowMask(x / 2, k - 1);
      if x == 0 {
        LowOfSmall(0, k);
      }
      hide Pow2;
    }
  }

  lemma AndEvenMask(x: nat, m: nat)
    ensures BitAnd(x, 2 * m) == 2 * BitAnd(x / 2, m)
  {
    var y := 2 * m;
    assert y % 2 == 0 && y / 2 == m;
  }

  /** A mask of high ones above `k` low zeros clears the low `k` bits. */
  lemma {:induction false} AndHighMask(x: nat, width: nat, k: nat)
    requires k <= width && x < Pow2(width)
    ensures Pow2(k) <= Pow2(width)
    ensures BitAnd(x, Pow2(width) - Pow2(k)) == x - Low(x, k)
    decreases k
  {
    hide BitAnd;
    Pow2Monotonic(k, width);
    if k == 0 {
      AndLowMask(x, width);
      LowOfSmall(x, width);
    } else {
      AndHighMask(x / 2, width - 1, k - 1);
      var m := Pow2(width - 1) - Pow2(k - 1);
      AndEvenMask(x, m);
      assert Pow2(width) - Pow2(k) == 2 * m;
    }
  }

  /** Setting bits inside a hole of `k` zeros adds. */
  lemma {:induction false} OrIntoHole(x: nat, y: nat, k: nat)
    requires Low(x, k) == 0 && y < Pow2(k)
    ensures BitOr(x, y) == x + y
    decreases k
  {
    if k > 0 && x > 0 && y > 0 {
      OrIntoHole(x / 2, y / 2, k - 1);
    }
  }

  lemma XorHalves(x: nat, y: nat)
    ensures BitXor(x, y) % 2 == (if x % 2 == y % 2 then 0 else 1)
    ensures BitXor(x, y) / 2 == BitXor(x / 2, y / 2)
  {
    if x > 0 && y > 0 {
      DigitAndRest(if x % 2 == y % 2 then 0 else 1, BitXor(x / 2, y / 2));
    }
  }

  lemma DigitAndRest(b: nat, z: nat)
    requires b <= 1
    ensures (b + 2 * z) % 2 == b && (b + 2 * z) / 2 == z
  {
  }

  /** The low `k` bits of an exclusive or, when one side has none. */
  lemma {:induction false} XorLow(x: nat, y: nat, k: nat)
    requires Low(y, k) == 0
    ensures Low(BitXor(x, y), k) == Low(x, k)
    decreases k
  {
    if k > 0 {
      XorHalves(x, y);
      XorLow(x / 2, y / 2, k - 1);
    }
  }
}
