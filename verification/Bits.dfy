/** Bitwise arithmetic on unbounded naturals, as far as the kernel's C code needs it. */
module Bits {

  /** The powers of two. */
  predicate IsPow2(n: nat) {
    n == 1 || (n > 0 && n % 2 == 0 && IsPow2(n / 2))
  }

  /** C's `x >> k`. */
  function Shr(x: nat, k: nat): nat {
    if k == 0 then x else Shr(x / 2, k - 1)
  }

  /** C's `x << k`, before any truncation to a register. */
  function Shl(x: nat, k: nat): nat {
    if k == 0 then x else 2 * Shl(x, k - 1)
  }

  /** C's `a & b`. */
  function And(a: nat, b: nat): nat {
    if a == 0 || b == 0 then 0
    else 2 * And(a / 2, b / 2) + (if a % 2 == 1 && b % 2 == 1 then 1 else 0)
  }

  /** C's `a | b`. */
  function Or(a: nat, b: nat): nat {
    if a == 0 then b
    else if b == 0 then a
    else 2 * Or(a / 2, b / 2) + (if a % 2 == 1 || b % 2 == 1 then 1 else 0)
  }

  lemma {:induction false} AndSelf(a: nat)
    ensures And(a, a) == a
  {
    if a > 0 {
      AndSelf(a / 2);
    }
  }

  /** Below a zero low part, `|` is addition. */
  lemma {:induction false} OrIsSum(hi: nat, k: nat, lo: nat)
    requires Shr(lo, k) == 0
    ensures Or(Shl(hi, k), lo) == Shl(hi, k) + lo
  {
    if k > 0 {
      OrIsSum(hi, k - 1, lo / 2);
      OrStep(Shl(hi, k - 1), false, lo / 2, lo % 2 == 1);
    }
  }

  function Bit(b: bool): nat { if b then 1 else 0 }

  lemma OrStep(a: nat, p: bool, b: nat, q: bool)
    ensures Or(2 * a + Bit(p), 2 * b + Bit(q)) == 2 * Or(a, b) + Bit(p || q)
  {
    assert (2 * a + Bit(p)) / 2 == a && (2 * b + Bit(q)) / 2 == b;
  }

  // ---- the single-bit test `!(x & (x - 1))` ----

  function Check(x: nat): (r: bool)
    requires x > 0
    ensures r <==> IsPow2(x)
  {
    ClearLowestBit(x);
    And(x, x - 1) == 0
  }

  lemma {:induction false} ClearLowestBit(x: nat)
    requires x > 0
    ensures And(x, x - 1) == 0 <==> IsPow2(x)
  {
    AndSelf(x / 2);
    if x % 2 == 0 {
      ClearLowestBit(x / 2);
      assert (x - 1) / 2 == x / 2 - 1;
    } else {
      assert (x - 1) / 2 == x / 2;
    }
  }

  // ---- rounding up by smearing the top bit downwards ----

  /** Is one of the w lowest bits of x set? */
  ghost predicate AnyLow(x: nat, w: nat) {
    w > 0 && (x % 2 == 1 || AnyLow(x / 2, w - 1))
  }

  /** Bit i is set iff one of the bits i .. i+w-1 of x is. */
  ghost function Smear(x: nat, w: nat): nat {
    if x == 0 then 0 else 2 * Smear(x / 2, w) + (if AnyLow(x, w) then 1 else 0)
  }

  lemma {:induction false} SmearShr(x: nat, w: nat, k: nat)
    ensures Shr(Smear(x, w), k) == Smear(Shr(x, k), w)
  {
    if k > 0 {
      SmearShr(x / 2, w, k - 1);
      assert Smear(x, w) / 2 == Smear(x / 2, w);
    }
  }

  lemma {:induction false} AnyLowSplit(x: nat, v: nat, w: nat)
    ensures AnyLow(x, v + w) <==> AnyLow(x, v) || AnyLow(Shr(x, v), w)
  {
    if v > 0 {
      AnyLowSplit(x / 2, v - 1, w);
    }
  }

  lemma {:induction false} AnyLowOfZero(w: nat)
    ensures !AnyLow(0, w)
  {
    if w > 0 {
      AnyLowOfZero(w - 1);
    }
  }

  lemma {:induction false} ShrHalf(x: nat, w: nat)
    ensures Shr(x / 2, w) == Shr(x, w) / 2
  {
    if w > 0 {
      ShrHalf(x / 2, w - 1);
    }
  }

  /** One step `x |= x >> w` doubles the window. */
  lemma {:induction false} SmearDouble(x: nat, w: nat)
    ensures Or(Smear(x, w), Shr(Smear(x, w), w)) == Smear(x, w + w)
  {
    SmearShr(x, w, w);
    SmearOr(x, w);
  }

  lemma {:induction false} SmearOr(x: nat, w: nat)
    ensures Or(Smear(x, w), Smear(Shr(x, w), w)) == Smear(x, w + w)
  {
    if x > 0 {
      AnyLowSplit(x, w, w);
      ShrHalf(x, w);
      AnyLowOfZero(w);
      SmearOr(x / 2, w);
      OrStep(Smear(x / 2, w), AnyLow(x, w), Smear(Shr(x, w) / 2, w), AnyLow(Shr(x, w), w));
    } else {
      ShrOfZero(w);
    }
  }

  lemma {:induction false} ShrOfZero(w: nat)
    ensures Shr(0, w) == 0
  {
    if w > 0 {
      ShrOfZero(w - 1);
    }
  }

  lemma {:induction false} SmearOne(x: nat)
    ensures Smear(x, 1) == x
  {
    if x > 0 {
      SmearOne(x / 2);
      assert !AnyLow(x / 2, 0);
    }
  }

  /** A window as wide as the word leaves all ones below the top bit. */
  lemma {:induction false} SmearAll(x: nat, w: nat)
    requires x > 0 && Shr(x, w) == 0
    ensures IsPow2(Smear(x, w) + 1)
    ensures (Smear(x, w) + 1) / 2 <= x < Smear(x, w) + 1
  {
    AnyLowOfSmall(x, w);
    if x > 1 {
      ShrHalf(x, w);
      SmearAll(x / 2, w);
    }
  }

  lemma {:induction false} AnyLowOfSmall(x: nat, w: nat)
    requires x > 0 && Shr(x, w) == 0
    ensures AnyLow(x, w)
  {
    if x % 2 == 0 {
      AnyLowOfSmall(x / 2, w - 1);
    }
  }

  lemma {:induction false} ShrBound(x: nat, k: nat)
    ensures Shr(x, k) == 0 <==> x < Shl(1, k)
  {
    if k > 0 {
      ShrBound(x / 2, k - 1);
    }
  }

  lemma TwiceProduct(x: nat, y: nat)
    ensures 2 * (x * y) == (2 * x) * y
  {
  }

  lemma {:induction false} ShlAdd(j: nat, k: nat)
    ensures Shl(1, j + k) == Shl(1, j) * Shl(1, k)
  {
    if j > 0 {
      ShlAdd(j - 1, k);
      TwiceProduct(Shl(1, j - 1), Shl(1, k));
    }
  }

  lemma {:induction false} ShlShl(x: nat, j: nat, k: nat)
    ensures Shl(x, j + k) == Shl(Shl(x, j), k)
  {
    if k > 0 {
      ShlShl(x, j, k - 1);
    }
  }

  lemma WordSize()
    ensures Shl(1, 32) == 0x1_0000_0000
  {
    assert Shl(1, 2) == 4;
    ShlAdd(2, 2);
    ShlAdd(4, 4);
    ShlAdd(8, 8);
    ShlAdd(16, 16);
  }

  /** Each round doubles the window; the last one covers the register. */
  lemma SmearRounds(x: nat, w: nat, s: nat, s': nat)
    requires w > 0 && s == Smear(x, w) && s' == Or(s, Shr(s, w))
    ensures s' == Smear(x, 2 * w)
  {
    SmearDouble(x, w);
  }

  lemma FixSizeRounds(size: nat, s1: nat, s2: nat, s4: nat, s8: nat, s16: nat)
    requires 0 < size < 0x8000_0000 && s1 == Or(size, Shr(size, 1)) && s2 == Or(s1, Shr(s1, 2)) && s4 == Or(s2, Shr(s2, 4))
    requires s8 == Or(s4, Shr(s4, 8)) && s16 == Or(s8, Shr(s8, 16))
    ensures IsPow2(s16 + 1) && (s16 + 1) / 2 <= size < s16 + 1
  {
    SmearOne(size);
    SmearRounds(size, 1, size, s1);
    SmearRounds(size, 2, s1, s2);
    SmearRounds(size, 4, s2, s4);
    SmearRounds(size, 8, s4, s8);
    SmearRounds(size, 16, s8, s16);
    WordSize();
    ShrBound(size, 32);
    SmearAll(size, 32);
  }

  /** The least power of two above x, for a 32-bit x whose result fits the register. */
  function FixSize(size: nat): (r: nat)
    requires 0 < size < 0x8000_0000
    ensures IsPow2(r) && r / 2 <= size < r
  {
    var s1 := Or(size, Shr(size, 1));
    var s2 := Or(s1, Shr(s1, 2));
    var s4 := Or(s2, Shr(s2, 4));
    var s8 := Or(s4, Shr(s4, 8));
    var s16 := Or(s8, Shr(s8, 16));
    FixSizeRounds(size, s1, s2, s4, s8, s16);
    s16 + 1
  }
}
