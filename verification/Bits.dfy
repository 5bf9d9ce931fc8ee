/** Shifts and masks of C on numbers without a width. */
module Bits {

  type Byte = n: nat | n < 256

  /** `n >> k` */
  function Shr(n: nat, k: nat): nat {
    if k == 0 then n else Shr(n / 2, k - 1)
  }

  /** `n << k` */
  function Shl(n: nat, k: nat): nat {
    if k == 0 then n else 2 * Shl(n, k - 1)
  }

  /** `(n >> k) & 1` */
  predicate Bit(n: nat, k: nat) {
    Shr(n, k) % 2 == 1
  }

  function Pow2(k: nat): (p: nat)
    ensures p > 0
  {
    if k == 0 then 1 else 2 * Pow2(k - 1)
  }

  /** `x & y` */
  function And(x: nat, y: nat): nat {
    if x == 0 || y == 0 then 0
    else (if x % 2 == 1 && y % 2 == 1 then 1 else 0) + 2 * And(x / 2, y / 2)
  }

  /** `x | y` */
  function Or(x: nat, y: nat): nat {
    if x == 0 then y
    else if y == 0 then x
    else (if x % 2 == 1 || y % 2 == 1 then 1 else 0) + 2 * Or(x / 2, y / 2)
  }

  /** The low eight bits of `256 * high + low` are those of `low`, the others those of `high`. */
  lemma {:induction false} SplitBits(high: nat, low: nat, width: nat, k: nat)
    requires low < Pow2(width)
    ensures Bit(Pow2(width) * high + low, k) == if k < width then Bit(low, k) else Bit(high, k - width)
    decreases width
  {
    if width == 0 {
      assert low == 0 && Pow2(width) * high + low == high;
    } else {
      var half := Pow2(width - 1) * high;
      assert Pow2(width) * high == 2 * half by {
        assert 2 * Pow2(width - 1) * high == 2 * (Pow2(width - 1) * high);
      }
      assert (2 * half + low) / 2 == half + low / 2 && (2 * half + low) % 2 == low % 2;
      if k > 0 {
        SplitBits(high, low / 2, width - 1, k - 1);
      }
    }
  }

  lemma Pow2Eight()
    ensures Pow2(8) == 256
  {
    assert Pow2(4) == 16;
    assert Pow2(6) == 64;
  }

  /** Adding a missing power of two sets that bit and no other. */
  lemma {:induction false} AddBit(n: nat, c: nat, k: nat)
    requires !Bit(n, c)
    ensures Bit(n + Pow2(c), k) <==> Bit(n, k) || k == c
    decreases c
  {
    if c == 0 {
      assert n % 2 == 0 && (n + 1) / 2 == n / 2;
    } else {
      var half := Pow2(c - 1);
      assert (n + 2 * half) / 2 == n / 2 + half && (n + 2 * half) % 2 == n % 2;
      if k > 0 {
        AddBit(n / 2, c - 1, k - 1);
      }
    }
  }

  // ---------------------------------------------------------------- shifts

  lemma {:induction false} ShrShr(n: nat, a: nat, b: nat)
    ensures Shr(Shr(n, a), b) == Shr(n, a + b)
    decreases a
  {
    if a > 0 {
      ShrShr(n / 2, a - 1, b);
    }
  }

  lemma {:induction false} ShrShl(n: nat, k: nat)
    ensures Shr(Shl(n, k), k) == n
    decreases k
  {
    if k > 0 {
      ShrShl(n, k - 1);
    }
  }

  lemma {:induction false} ShlShl(n: nat, a: nat, b: nat)
    ensures Shl(Shl(n, a), b) == Shl(n, a + b)
    decreases b
  {
    if b > 0 {
      ShlShl(n, a, b - 1);
    }
  }

  lemma {:induction false} ShlIsTimes(n: nat, k: nat)
    ensures Shl(n, k) == Pow2(k) * n
    decreases k
  {
    if k > 0 {
      ShlIsTimes(n, k - 1);
      assert Pow2(k) * n == 2 * (Pow2(k - 1) * n);
    }
  }

  lemma Powers()
    ensures Pow2(8) == 0x100 && Pow2(16) == 0x1_0000 && Pow2(24) == 0x100_0000
  {
    Pow2Eight();
    assert Pow2(12) == 0x1000;
    assert Pow2(16) == 0x1_0000;
    assert Pow2(20) == 0x10_0000;
  }

  lemma ShrTwo(n: nat)
    ensures Shr(n, 2) == n / 4
  {
    assert Shr(n, 2) == Shr(n / 2, 1) == Shr(n / 2 / 2, 0);
  }

  lemma ShrFour(n: nat)
    ensures Shr(n, 4) == n / 16
  {
    ShrTwo(n);
    ShrTwo(n / 4);
    ShrShr(n, 2, 2);
  }

  lemma ShrEight(n: nat)
    ensures Shr(n, 8) == n / 256
  {
    ShrFour(n);
    ShrFour(n / 16);
    ShrShr(n, 4, 4);
  }

  // ---------------------------------------------------------------- masks

  /** A shifted mask picks from further up. */
  lemma {:induction false} AndShifted(x: nat, m: nat, k: nat)
    ensures And(x, Shl(m, k)) == Shl(And(Shr(x, k), m), k)
    decreases k
  {
    if k > 0 {
      var half := Shl(m, k - 1);
      AndShifted(x / 2, m, k - 1);
      AndEven(x, half);
    }
  }

  lemma AndEven(x: nat, half: nat)
    ensures And(x, 2 * half) == 2 * And(x / 2, half)
  {
  }

  /** A mask of ones keeps the low bits. */
  lemma {:induction false} AndOnes(x: nat, n: nat)
    ensures x == And(x, Pow2(n) - 1) + Shl(Shr(x, n), n)
    decreases n
  {
    if n > 0 {
      AndOnes(x / 2, n - 1);
      AndOdd(x, Pow2(n - 1) - 1);
    }
  }

  lemma AndOdd(x: nat, half: nat)
    ensures And(x, 2 * half + 1) == x % 2 + 2 * And(x / 2, half)
  {
  }

  lemma AndByte(x: nat)
    ensures And(x, 0xFF) == x % 256
  {
    Pow2Eight();
    AndOnes(x, 8);
    ShrEight(x);
    ShlIsTimes(x / 256, 8);
  }

  /** What does not overlap adds up. */
  lemma {:induction false} OrApart(high: nat, low: nat, k: nat)
    requires low < Pow2(k)
    ensures Or(Shl(high, k), low) == Shl(high, k) + low
    decreases k
  {
    if k > 0 {
      OrApart(high, low / 2, k - 1);
      OrEven(Shl(high, k - 1), low);
    }
  }

  lemma OrEven(half: nat, low: nat)
    ensures Or(2 * half, low) == low % 2 + 2 * Or(half, low / 2)
  {
  }

  lemma {:induction false} OrShifted(x: nat, y: nat, k: nat)
    ensures Or(Shl(x, k), Shl(y, k)) == Shl(Or(x, y), k)
    decreases k
  {
    if k > 0 {
      OrShifted(x, y, k - 1);
      OrEvens(Shl(x, k - 1), Shl(y, k - 1));
    }
  }

  lemma OrEvens(x: nat, y: nat)
    ensures Or(2 * x, 2 * y) == 2 * Or(x, y)
  {
  }
}
