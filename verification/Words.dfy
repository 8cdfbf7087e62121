/** Bitwise words as natural numbers, and the macros of include/bitops.h and include/mm.h.
    The operators are defined digit by digit; every macro is written with them exactly as the C
    macro is, and the lemmas give the arithmetic each one amounts to. */
module Words {
  import opened Common

  const BITS_PER_LONG: nat := 32   // CONFIG64 is not defined

  function Pow2(n: nat): (r: nat)
    ensures r >= 1
  {
    if n == 0 then 1 else 2 * Pow2(n - 1)
  }

  function Shl(v: nat, k: nat): nat { if k == 0 then v else 2 * Shl(v, k - 1) }

  function Shr(v: nat, k: nat): nat { if k == 0 then v else Shr(v / 2, k - 1) }

  /** ~0 on `n` bits */
  function Ones(n: nat): nat { if n == 0 then 0 else 1 + 2 * Ones(n - 1) }

  /** The low `n` bits of v: conversion to an n-bit unsigned type. */
  function Low(v: nat, n: nat): nat { if n == 0 then 0 else v % 2 + 2 * Low(v / 2, n - 1) }

  function And(a: nat, b: nat): nat {
    if a == 0 || b == 0 then 0
    else (if a % 2 == 1 && b % 2 == 1 then 1 else 0) + 2 * And(a / 2, b / 2)
  }

  function Or(a: nat, b: nat): nat
    decreases a + b
  {
    if a == 0 && b == 0 then 0
    else (if a % 2 == 1 || b % 2 == 1 then 1 else 0) + 2 * Or(a / 2, b / 2)
  }

  /** ~m on a `width`-bit unsigned word */
  function Not(m: nat, width: nat): nat
    requires m <= Ones(width)
  {
    Ones(width) - m
  }

  // ----- The macros

  /** GENMASK(h, l), and GENMASK64 with width 64 */
  function GenMask(h: nat, l: nat, width: nat): nat
    requires l <= h < width
  {
    And(Low(Shl(Ones(width), l), width), Shr(Ones(width), width - h - 1))
  }

  /** GETVAL(v, GENMASK(h, l), l) */
  function GetVal(v: nat, h: nat, l: nat, width: nat := BITS_PER_LONG): nat
    requires l <= h < width
  {
    Shr(And(v, GenMask(h, l, width)), l)
  }

  /** SETVAL(v, value, GENMASK(h, l), l).  The complement of an unsigned 32-bit mask is itself
      32 bits wide, so on a 64-bit cell SETVAL also clears the upper half. */
  function SetVal(v: nat, value: nat, h: nat, l: nat): nat
    requires l <= h < BITS_PER_LONG
  {
    GenMaskValue(h, l, BITS_PER_LONG);
    var mask := GenMask(h, l, BITS_PER_LONG);
    Or(And(v, Not(mask, BITS_PER_LONG)), And(Shl(value, l), mask))
  }

  /** SETBIT(v, BIT(k)) and CLRBIT(v, BIT(k)) */
  function SetBit(v: nat, k: nat): nat { Or(v, Shl(1, k)) }

  function ClrBit(v: nat, k: nat): nat
    requires k < BITS_PER_LONG
  {
    ShlOnesBound(1, k, BITS_PER_LONG);
    And(v, Not(Shl(1, k), BITS_PER_LONG))
  }

  // ----- Bridges to division, remainder and multiplication

  lemma DivModDouble(v: nat, p: nat)
    requires p >= 1
    ensures v % (2 * p) == v % 2 + 2 * ((v / 2) % p)
    ensures v / (2 * p) == (v / 2) / p
  {
    var q, r := (v / 2) / p, (v / 2) % p;
    assert v == (2 * p) * q + (v % 2 + 2 * r) by {
      assert v / 2 == p * q + r;
      assert 2 * (p * q) == (2 * p) * q;
    }
    DivModUnique(v, 2 * p, q, v % 2 + 2 * r);
  }

  lemma {:induction false} ShrIsDiv(v: nat, k: nat)
    ensures Shr(v, k) == v / Pow2(k)
  {
    if k == 0 {
    } else {
      ShrIsDiv(v / 2, k - 1);
      DivModDouble(v, Pow2(k - 1));
    }
  }

  lemma {:induction false} LowIsMod(v: nat, n: nat)
    ensures Low(v, n) == v % Pow2(n)
  {
    if n == 0 {
    } else {
      LowIsMod(v / 2, n - 1);
      DivModDouble(v, Pow2(n - 1));
    }
  }

  lemma {:induction false} ShlIsMul(v: nat, k: nat)
    ensures Shl(v, k) == v * Pow2(k)
  {
    if k == 0 {
    } else {
      ShlIsMul(v, k - 1);
      assert v * (2 * Pow2(k - 1)) == 2 * (v * Pow2(k - 1));
    }
  }

  lemma {:induction false} OnesIsPow2(n: nat)
    ensures Ones(n) == Pow2(n) - 1
  {
    if n == 0 {
    } else {
      OnesIsPow2(n - 1);
    }
  }

  lemma {:induction false} Pow2Add(m: nat, n: nat)
    ensures Pow2(m + n) == Pow2(m) * Pow2(n)
  {
    if m == 0 {
    } else {
      Pow2Add(m - 1, n);
      assert (2 * Pow2(m - 1)) * Pow2(n) == 2 * (Pow2(m - 1) * Pow2(n));
    }
  }

  // ----- Masks

  lemma AndStep(a: nat, b: nat)
    ensures And(a, b) == (if a % 2 == 1 && b % 2 == 1 then 1 else 0) + 2 * And(a / 2, b / 2)
  {
  }

  lemma {:induction false} AndOnes(v: nat, n: nat)
    ensures And(v, Ones(n)) == Low(v, n)
  {
    if n == 0 {
    } else {
      AndOnes(v / 2, n - 1);
      AndStep(v, Ones(n));
    }
  }

  lemma {:induction false} AndShl(v: nat, m: nat, l: nat)
    ensures And(v, Shl(m, l)) == Shl(And(Shr(v, l), m), l)
  {
    if l == 0 {
    } else {
      AndShl(v / 2, m, l - 1);
      AndStep(v, Shl(m, l));
    }
  }

  lemma {:induction false} ShrShl(v: nat, l: nat)
    ensures Shr(Shl(v, l), l) == v
  {
    if l == 0 {
    } else {
      ShrShl(v, l - 1);
    }
  }

  lemma {:induction false} ShrOnes(n: nat, k: nat)
    requires k <= n
    ensures Shr(Ones(n), k) == Ones(n - k)
  {
    if k == 0 {
    } else {
      ShrOnes(n - 1, k - 1);
    }
  }

  lemma {:induction false} LowShlOnes(n: nat, l: nat, width: nat)
    requires l <= width <= n + l
    ensures Low(Shl(Ones(n), l), width) == Shl(Ones(width - l), l)
  {
    if width == 0 {
    } else if l == 0 {
      LowShlOnes(n - 1, 0, width - 1);
    } else {
      LowShlOnes(n, l - 1, width - 1);
    }
  }

  lemma {:induction false} ShlOnesBound(n: nat, l: nat, width: nat)
    requires n + l <= width
    ensures Shl(Ones(n), l) <= Ones(width)
    ensures n == 1 ==> Shl(1, l) == Shl(Ones(n), l)
  {
    if l == 0 && n == 0 {
    } else if l == 0 {
      ShlOnesBound(n - 1, 0, width - 1);
    } else {
      ShlOnesBound(n, l - 1, width - 1);
    }
  }

  /** GENMASK(h, l) has ones exactly at positions l..h. */
  lemma GenMaskValue(h: nat, l: nat, width: nat)
    requires l <= h < width
    ensures GenMask(h, l, width) == Shl(Ones(h - l + 1), l) <= Ones(width)
  {
    LowShlOnes(width, l, width);
    ShrOnes(width, width - h - 1);
    AndOnes(Shl(Ones(width - l), l), h + 1);
    LowShlOnes(width - l, l, h + 1);
    ShlOnesBound(h - l + 1, l, width);
  }

  lemma AndMask(v: nat, h: nat, l: nat, width: nat)
    requires l <= h < width
    ensures And(v, GenMask(h, l, width)) == Shl(Low(Shr(v, l), h - l + 1), l)
  {
    GenMaskValue(h, l, width);
    AndShl(v, Ones(h - l + 1), l);
    AndOnes(Shr(v, l), h - l + 1);
  }

  /** GETVAL extracts bits l..h. */
  lemma GetValIsField(v: nat, h: nat, l: nat, width: nat)
    requires l <= h < width
    ensures GetVal(v, h, l, width) == (v / Pow2(l)) % Pow2(h - l + 1)
  {
    AndMask(v, h, l, width);
    ShrShl(Low(Shr(v, l), h - l + 1), l);
    ShrIsDiv(v, l);
    LowIsMod(Shr(v, l), h - l + 1);
  }

  // ----- Field and bit update

  lemma {:induction false} AndNot(v: nat, m: nat, width: nat)
    requires v <= Ones(width) && m <= Ones(width)
    ensures And(v, m) <= v && And(v, Not(m, width)) == v - And(v, m)
  {
    if width == 0 {
    } else {
      AndNot(v / 2, m / 2, width - 1);
      AndStep(v, m);
      AndStep(v, Not(m, width));
      assert Not(m, width) / 2 == Not(m / 2, width - 1);
    }
  }

  lemma {:induction false} AndApart(v: nat, x: nat, m: nat, width: nat)
    requires m <= Ones(width)
    ensures And(And(v, Not(m, width)), And(x, m)) == 0
    decreases width
  {
    if width == 0 {
    } else {
      AndApart(v / 2, x / 2, m / 2, width - 1);
      AndStep(v, Not(m, width));
      AndStep(x, m);
      AndStep(And(v, Not(m, width)), And(x, m));
      assert Not(m, width) / 2 == Not(m / 2, width - 1);
    }
  }

  lemma {:induction false} AndBound(a: nat, b: nat)
    ensures And(a, b) <= b
  {
    if a == 0 || b == 0 {
    } else {
      AndBound(a / 2, b / 2);
    }
  }

  lemma {:induction false} OrSplit(a: nat, b: nat)
    ensures Or(a, b) + And(a, b) == a + b
    decreases a + b
  {
    if a == 0 && b == 0 {
    } else {
      AndStep(a, b);
      OrSplit(a / 2, b / 2);
    }
  }

  /** SETVAL replaces the field by the value cut to the width of the field, and nothing else. */
  lemma SetValReplacesField(v: nat, value: nat, h: nat, l: nat)
    requires l <= h < BITS_PER_LONG && v <= Ones(BITS_PER_LONG)
    ensures SetVal(v, value, h, l) <= Ones(BITS_PER_LONG)
    ensures SetVal(v, value, h, l) + Shl(Low(Shr(v, l), h - l + 1), l) == v + Shl(Low(value, h - l + 1), l)
  {
    var mask := GenMask(h, l, BITS_PER_LONG);
    GenMaskValue(h, l, BITS_PER_LONG);
    AndNot(v, mask, BITS_PER_LONG);
    AndMask(v, h, l, BITS_PER_LONG);
    AndMask(Shl(value, l), h, l, BITS_PER_LONG);
    ShrShl(value, l);
    AndApart(v, Shl(value, l), mask, BITS_PER_LONG);
    OrSplit(And(v, Not(mask, BITS_PER_LONG)), And(Shl(value, l), mask));
    AndBound(v, Not(mask, BITS_PER_LONG));
    AndBound(Shl(value, l), mask);
  }

  lemma AndBit(v: nat, k: nat)
    ensures And(v, Shl(1, k)) == (Shr(v, k) % 2) * Shl(1, k)
  {
    AndShl(v, Ones(1), k);
    AndOnes(Shr(v, k), 1);
    assert Low(Shr(v, k), 1) == Shr(v, k) % 2;
    ShlIsMul(Shr(v, k) % 2, k);
    ShlIsMul(1, k);
  }

  lemma SetBitValue(v: nat, k: nat)
    ensures SetBit(v, k) == if Shr(v, k) % 2 == 1 then v else v + Shl(1, k)
  {
    OrSplit(v, Shl(1, k));
    AndBit(v, k);
  }

  lemma ClrBitSum(v: nat, k: nat)
    requires k < BITS_PER_LONG && v <= Ones(BITS_PER_LONG)
    ensures ClrBit(v, k) + (Shr(v, k) % 2) * Shl(1, k) == v
  {
    ShlOnesBound(1, k, BITS_PER_LONG);
    AndNot(v, Shl(1, k), BITS_PER_LONG);
    AndBit(v, k);
  }

  lemma TimesBit(b: nat, x: nat)
    requires b < 2
    ensures b * x == if b == 1 then x else 0
  {
  }

  lemma ClrBitValue(v: nat, k: nat)
    requires k < BITS_PER_LONG && v <= Ones(BITS_PER_LONG)
    ensures ClrBit(v, k) == if Shr(v, k) % 2 == 1 then v - Shl(1, k) else v
  {
    ClrBitSum(v, k);
    TimesBit(Shr(v, k) % 2, Shl(1, k));
  }

  // ----- NBITS

  function NBits2(n: nat): nat { if And(n, 2) != 0 then 1 else 0 }
  function NBits4(n: nat): nat { if And(n, 0xC) != 0 then 2 + NBits2(Shr(n, 2)) else NBits2(n) }
  function NBits8(n: nat): nat { if And(n, 0xF0) != 0 then 4 + NBits4(Shr(n, 4)) else NBits4(n) }
  function NBits16(n: nat): nat { if And(n, 0xFF00) != 0 then 8 + NBits8(Shr(n, 8)) else NBits8(n) }
  function NBits32(n: nat): nat { if And(n, 0xFFFF_0000) != 0 then 16 + NBits16(Shr(n, 16)) else NBits16(n) }
  function NBits(n: nat): nat { if n == 0 then 0 else NBits32(n) }

  lemma {:induction false} ShrShr(n: nat, j: nat, k: nat)
    ensures Shr(Shr(n, j), k) == Shr(n, j + k)
  {
    if j == 0 {
    } else {
      ShrShr(n / 2, j - 1, k);
    }
  }

  lemma {:induction false} ShlZero(x: nat, l: nat)
    ensures Shl(x, l) == 0 <==> x == 0
  {
    if l == 0 {
    } else {
      ShlZero(x, l - 1);
    }
  }

  lemma {:induction false} LowFits(x: nat, n: nat)
    requires x <= Ones(n)
    ensures Low(x, n) == x
  {
    if n == 0 {
    } else {
      LowFits(x / 2, n - 1);
    }
  }

  lemma {:induction false} ShrFits(x: nat, w: nat, j: nat)
    requires x <= Ones(w + j)
    ensures Shr(x, w) <= Ones(j)
    ensures Shr(x, w) == 0 <==> x <= Ones(w)
  {
    if w == 0 {
    } else {
      ShrFits(x / 2, w - 1, j);
    }
  }

  /** One test of the nest: the mask sees the upper half of a 2w-bit word, and the half holding
      the top bit is a non-zero w-bit word. */
  lemma HalfTest(n: nat, w: nat, mask: nat)
    requires 0 < n <= Ones(w + w) && mask == Shl(Ones(w), w)
    ensures And(n, mask) != 0 ==> 0 < Shr(n, w) <= Ones(w)
    ensures And(n, mask) == 0 ==> n <= Ones(w)
  {
    AndShl(n, Ones(w), w);
    AndOnes(Shr(n, w), w);
    ShrFits(n, w, w);
    LowFits(Shr(n, w), w);
    ShlZero(Shr(n, w), w);
  }

  lemma OnesValues()
    ensures Ones(1) == 1 && Ones(2) == 3 && Ones(4) == 15 && Ones(8) == 255 && Ones(16) == 65535
    ensures Ones(32) == 0xFFFF_FFFF
    ensures Shl(1, 1) == 2 && Shl(3, 2) == 0xC && Shl(15, 4) == 0xF0
    ensures Shl(255, 8) == 0xFF00 && Shl(65535, 16) == 0xFFFF_0000
  {
    Pow2Values();
    OnesIsPow2(4); OnesIsPow2(8); OnesIsPow2(16); OnesIsPow2(32);
    ShlIsMul(15, 4); ShlIsMul(255, 8); ShlIsMul(65535, 16); ShlIsMul(3, 2);
    assert Ones(2) == 1 + 2 * Ones(1);
  }

  lemma Pow2Values()
    ensures Pow2(1) == 2 && Pow2(2) == 4 && Pow2(4) == 16 && Pow2(5) == 32 && Pow2(8) == 256
    ensures Pow2(9) == 512 && Pow2(12) == 0x1000 && Pow2(13) == 0x2000 && Pow2(14) == 0x4000
    ensures Pow2(16) == 0x1_0000 && Pow2(21) == 0x20_0000
    ensures Pow2(30) == 0x4000_0000 && Pow2(31) == 0x8000_0000 && Pow2(32) == 0x1_0000_0000
  {
    assert Pow2(4) == 2 * Pow2(3) == 4 * Pow2(2);
    Pow2Add(4, 1); Pow2Add(4, 4); Pow2Add(8, 1); Pow2Add(8, 4); Pow2Add(12, 1);
    Pow2Add(13, 1); Pow2Add(8, 8); Pow2Add(16, 5); Pow2Add(16, 14); Pow2Add(30, 1); Pow2Add(16, 16);
  }

  lemma NBits4IsLog2(n: nat)
    requires 0 < n <= Ones(4)
    ensures Shr(n, NBits4(n)) == 1
  {
    OnesValues();
    HalfTest(n, 2, 0xC);
    var m := if And(n, 0xC) != 0 then Shr(n, 2) else n;
    HalfTest(m, 1, 2);
    assert Shr(m, NBits2(m)) == 1 by { assert Shr(m, 1) == m / 2; }
    ShrShr(n, 2, NBits2(Shr(n, 2)));
  }

  lemma NBits8IsLog2(n: nat)
    requires 0 < n <= Ones(8)
    ensures Shr(n, NBits8(n)) == 1
  {
    OnesValues();
    HalfTest(n, 4, 0xF0);
    NBits4IsLog2(if And(n, 0xF0) != 0 then Shr(n, 4) else n);
    ShrShr(n, 4, NBits4(Shr(n, 4)));
  }

  lemma NBits16IsLog2(n: nat)
    requires 0 < n <= Ones(16)
    ensures Shr(n, NBits16(n)) == 1
  {
    OnesValues();
    HalfTest(n, 8, 0xFF00);
    NBits8IsLog2(if And(n, 0xFF00) != 0 then Shr(n, 8) else n);
    ShrShr(n, 8, NBits8(Shr(n, 8)));
  }

  /** NBITS is the floor of the base-2 logarithm on every non-zero 32-bit word. */
  lemma NBitsIsLog2(n: nat)
    requires 0 < n <= Ones(BITS_PER_LONG)
    ensures Pow2(NBits(n)) <= n < Pow2(NBits(n) + 1)
  {
    OnesValues();
    HalfTest(n, 16, 0xFFFF_0000);
    NBits16IsLog2(if And(n, 0xFFFF_0000) != 0 then Shr(n, 16) else n);
    ShrShr(n, 16, NBits16(Shr(n, 16)));
    ShrOneIsLog2(n, NBits(n));
  }

  lemma ShrOneIsLog2(n: nat, k: nat)
    requires Shr(n, k) == 1
    ensures Pow2(k) <= n < Pow2(k + 1)
  {
    ShrIsDiv(n, k);
    assert n == Pow2(k) * 1 + n % Pow2(k);
  }
}
