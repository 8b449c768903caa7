/** The bit models of the range decoder: how they limit and adapt a probability, and that every setting keeps it one. */
module TekModels {
  import opened Basics
  import opened Bits
  import opened TekNumbers
  import opened RangeCoder

  datatype BitModel = BitModel(t: nat, m: nat, s: nat, prb0: nat, prb1: nat, tmsk: nat, ntm: nat, lt: nat, lt0: nat)

  /** tek_setbm5, in 32-bit registers: `-1 << k` is 2^32 - 2^k. */
  function SetBm5(bm: BitModel, t: nat, m: nat): BitModel
    requires t <= 14 && m <= 16
  {
    ShlBelowWord(m + t);
    ShlBelowWord(t);
    var high: nat := WORD - Shl(1, m + t);
    var tmsk := And(WORD - Shl(1, t), 0xffff);
    AndAtMost(WORD - Shl(1, t), 0xffff);
    bm.(t := t, m := m, tmsk := tmsk,
        prb0 := And(WORD - 1 - high, tmsk),
        prb1 := And(Or(high, Shl(1, t)), tmsk),
        ntm := WORD - 1 - tmsk)
  }

  lemma {:induction false} ShlBelowWord(k: nat)
    requires k <= 30
    ensures 0 < Shl(1, k) < WORD
  {
    WordSize();
    ShlGrows(k, 32);
  }

  lemma {:induction false} ShlGrows(j: nat, k: nat)
    requires j < k
    ensures 0 < Shl(1, j) < Shl(1, k)
  {
    if j < k - 1 { ShlGrows(j, k - 1); } else { ShlPositive(j); }
  }

  lemma {:induction false} ShlPositive(k: nat)
    ensures Shl(1, k) > 0
  {
    if k > 0 { ShlPositive(k - 1); }
  }

  /** The grain is 2^t; clamping to the model's limits and cutting to the grain leave a probability. */
  ghost predicate GoodModel(bm: BitModel) {
    && bm.m >= 1 && bm.t <= 14 && bm.tmsk + Shl(1, bm.t) == 0x1_0000 && bm.ntm + bm.tmsk == WORD - 1
    && 0 < bm.prb0 < 0x1_0000 && 0 < bm.prb1 < 0x1_0000
    && forall p: prob :: p >= bm.prb0 ==> 0 < And(p, bm.tmsk) < 0x1_0000
  }

  lemma {:induction false} AndAtMost(a: nat, b: nat)
    ensures And(a, b) <= a && And(a, b) <= b
  {
    if a > 0 && b > 0 {
      AndAtMost(a / 2, b / 2);
    }
  }

  lemma {:induction false} ShrAtMost(x: nat, k: nat)
    ensures Shr(x, k) <= x && (k >= 1 ==> Shr(x, k) <= x / 2)
  {
    if k > 0 { ShrAtMost(x / 2, k - 1); }
  }

  // ---- how a probability is limited and adapted ----

  /** Within the model's limits, and a multiple of its grain. */
  function Limited(bm: BitModel, p: prob): (r: prob)
    requires GoodModel(bm)
  {
    if p < bm.prb0 then bm.prb0
    else if p > bm.prb1 then bm.prb1
    else if And(p, bm.ntm) != 0 then And(p, bm.tmsk)
    else p
  }

  function Adapted(bm: BitModel, p: prob, bit: bool): (r: prob)
    requires bm.m >= 1
  {
    ShrAtMost(0x1_0000 - p, bm.m);
    AndAtMost(Shr(0x1_0000 - p, bm.m), bm.tmsk);
    ShrAtMost(p, bm.m);
    AndAtMost(Shr(p, bm.m), bm.tmsk);
    if bit then p + And(Shr(0x1_0000 - p, bm.m), bm.tmsk) else p - And(Shr(p, bm.m), bm.tmsk)
  }

  /** Cutting to the grain: down to a multiple of 2^t. */
  lemma GrainIs(x: nat, t: nat, mask: nat)
    requires x < 0x1_0000 && t <= 14 && mask + Shl(1, t) == 0x1_0000
    ensures And(x, mask) == Shl(Shr(x, t), t)
  {
    hide And, Shl, Shr, Ones;
    MaskSize(t);
    AndHigh(x, Ones(16 - t), t);
    Constants();
    OnesBelow(16);
    ShrBound(x, 16);
    ShrSplit(x, t, 16 - t);
    AndOnes(Shr(x, t), 16 - t);
  }

  /**
   * After a 1 the word goes up, after a 0 it goes down, by a 2^m-th of its distance to the end that it moves
   * towards, cut to the grain.
   */
  lemma AdaptedMoves(bm: BitModel, p: prob, bit: bool)
    requires GoodModel(bm)
    ensures bit ==> Adapted(bm, p, bit) == p + Shl(Shr(Shr(0x1_0000 - p, bm.m), bm.t), bm.t)
    ensures !bit ==> Adapted(bm, p, bit) == p - Shl(Shr(Shr(p, bm.m), bm.t), bm.t)
  {
    ShrAtMost(0x1_0000 - p, bm.m);
    ShrAtMost(p, bm.m);
    GrainIs(Shr(0x1_0000 - p, bm.m), bm.t, bm.tmsk);
    GrainIs(Shr(p, bm.m), bm.t, bm.tmsk);
  }

  /** A limited word lies between the limits, as a multiple of the grain that is at most a grain below the word. */
  lemma LimitedIs(bm: BitModel, p: prob)
    requires GoodModel(bm)
    ensures p < bm.prb0 ==> Limited(bm, p) == bm.prb0
    ensures bm.prb0 <= p && bm.prb1 < p ==> Limited(bm, p) == bm.prb1
    ensures bm.prb0 <= p <= bm.prb1 ==> Limited(bm, p) == Shl(Shr(p, bm.t), bm.t)
  {
    GrainIs(p, bm.t, bm.tmsk);
    if bm.prb0 <= p <= bm.prb1 && And(p, bm.ntm) == 0 {
      AndComplement(p, bm.tmsk, bm.ntm);
    }
  }

  /** A mask and its complement divide a number between them. */
  lemma AndComplement(x: nat, mask: nat, rest: nat)
    requires x < WORD && mask + rest == WORD - 1
    ensures And(x, mask) + And(x, rest) == x
  {
    WordSize();
    OnesBelow(32);
    AndSplit(x, mask, 32);
  }

  lemma {:induction false} AndSplit(x: nat, mask: nat, w: nat)
    requires mask <= Ones(w) && x <= Ones(w)
    ensures And(x, mask) + And(x, Ones(w) - mask) == x
  {
    if w > 0 {
      AndSplit(x / 2, mask / 2, w - 1);
      assert (Ones(w) - mask) / 2 == Ones(w - 1) - mask / 2;
    }
  }

  // ---- every setting gives a good model ----

  lemma {:induction false} AndSymmetric(a: nat, b: nat)
    ensures And(a, b) == And(b, a)
  {
    if a > 0 && b > 0 { AndSymmetric(a / 2, b / 2); }
  }

  lemma {:induction false} ShrOnes(w: nat, k: nat)
    requires k <= w
    ensures Shr(Ones(w), k) == Ones(w - k)
  {
    if k > 0 { ShrOnes(w - 1, k - 1); }
  }

  lemma {:induction false} ShrOnesAll(w: nat, k: nat)
    requires k >= w
    ensures Shr(Ones(w), k) == 0
  {
    if w > 0 { ShrOnesAll(w - 1, k - 1); } else { ShrOfZero(k); }
  }

  /** 2^w - 2^k as a mask. */
  lemma {:induction false} UpperOnes(w: nat, k: nat)
    requires k <= w
    ensures Shl(Ones(w - k), k) + Shl(1, k) == Shl(1, w)
  {
    if k > 0 { UpperOnes(w - 1, k - 1); } else { OnesBelow(w); }
  }

  lemma Constants()
    ensures Ones(16) == 0xffff && Shl(1, 32) == WORD
  {
    WordSize();
    OnesBelow(16);
    ShlEight(1);
    ShlEight(256);
    ShlShl(1, 8, 8);
  }

  lemma Grain(t: nat)
    requires t <= 14
    ensures Shl(1, t) <= WORD && And(WORD - Shl(1, t), 0xffff) == Shl(Ones(16 - t), t)
  {
    Constants();
    UpperOnes(32, t);
    AndSymmetric(Shl(Ones(32 - t), t), Ones(16));
    AndHigh(Ones(16), Ones(32 - t), t);
    ShrOnes(16, t);
    ShrOnesAll(16 - t, 32 - t);
    AndOnes(Ones(16 - t), 32 - t);
  }

  lemma {:induction false} ShrShl(x: nat, k: nat)
    ensures Shr(Shl(x, k), k) == x
  {
    if k > 0 {
      assert Shl(x, k) / 2 == Shl(x, k - 1);
      ShrShl(x, k - 1);
    }
  }

  lemma {:induction false} ShlAtLeast(x: nat, k: nat)
    requires x > 0
    ensures Shl(x, k) >= Shl(1, k) > 0
  {
    if k > 0 { ShlAtLeast(x, k - 1); }
  }

  lemma OddAnd(a: nat, b: nat)
    requires a % 2 == 1 && b % 2 == 1
    ensures And(a, b) > 0
  {
  }

  lemma OddOnes(w: nat)
    requires w > 0
    ensures Ones(w) % 2 == 1
  {
  }

  lemma LowerLimit(t: nat, m: nat)
    requires t <= 14 && 1 <= m
    ensures And(Ones(m + t), Shl(Ones(16 - t), t)) >= Shl(1, t) > 0
  {
    AndHigh(Ones(m + t), Ones(16 - t), t);
    ShrOnes(m + t, t);
    OddOnes(m);
    OddOnes(16 - t);
    OddAnd(Ones(m), Ones(16 - t));
    ShlAtLeast(And(Ones(m), Ones(16 - t)), t);
  }

  lemma {:induction false} ShlPlus(x: nat, y: nat, k: nat)
    ensures Shl(x + y, k) == Shl(x, k) + Shl(y, k)
  {
    if k > 0 { ShlPlus(x, y, k - 1); }
  }

  /** The lowest set bit of a mask comes through another mask that starts there. */
  lemma LowestThrough(x: nat, y: nat, t: nat)
    requires x % 2 == 1 && y % 2 == 1
    ensures And(Shl(x, t), Shl(y, t)) > 0
  {
    ShrShl(x, t);
    AndHigh(Shl(x, t), y, t);
    OddAnd(x, y);
    ShlAtLeast(And(x, y), t);
  }

  lemma UpperShape(t: nat, m: nat, hi: nat)
    requires 1 <= m
    ensures Or(Shl(hi, m + t), Shl(1, t)) == Shl(Shl(hi, m) + 1, t)
  {
    ShrBound(Shl(1, t), m + t);
    ShlGrows(t, m + t);
    OrIsSum(hi, m + t, Shl(1, t));
    ShlShl(hi, m, t);
    ShlPlus(Shl(hi, m), 1, t);
  }

  lemma UpperLimit(t: nat, m: nat)
    requires t <= 14 && 1 <= m && m + t <= 32
    ensures And(Or(Shl(Ones(32 - (m + t)), m + t), Shl(1, t)), Shl(Ones(16 - t), t)) > 0
  {
    var hi := Ones(32 - (m + t));
    UpperShape(t, m, hi);
    ShlOdd(hi, m);
    OddOnes(16 - t);
    LowestThrough(Shl(hi, m) + 1, Ones(16 - t), t);
  }

  lemma ShlOdd(x: nat, k: nat)
    requires k >= 1
    ensures (Shl(x, k) + 1) % 2 == 1
  {
    var h := Shl(x, k - 1);
    assert Shl(x, k) == 2 * h;
  }

  /** What survives the grain of p: everything from bit t up. */
  lemma GrainOf(p: prob, t: nat)
    requires t <= 14 && p >= Shl(1, t)
    ensures And(p, Shl(Ones(16 - t), t)) > 0
  {
    AndHigh(p, Ones(16 - t), t);
    Constants();
    OnesBelow(16);
    ShrBound(p, 16);
    ShrSplit(p, t, 16 - t);
    AndOnes(Shr(p, t), 16 - t);
    ShrBound(p, t);
    ShlAtLeast(Shr(p, t), t);
  }

  /** The masks of a setting: its grain is bit t and up, the limits lie m + t bits from either end. */
  lemma SetBm5Masks(bm: BitModel, t: nat, m: nat)
    requires t <= 14 && 1 <= m <= 16
    ensures var r := SetBm5(bm, t, m);
            && r.m == m && r.tmsk == Shl(Ones(16 - t), t)
            && r.prb0 == And(Ones(m + t), r.tmsk)
            && r.prb1 == And(Or(Shl(Ones(32 - (m + t)), m + t), Shl(1, t)), r.tmsk)
  {
    Constants();
    Grain(t);
    OnesBelow(m + t);
    UpperOnes(32, m + t);
  }

  lemma GrainKeeps(t: nat, low: nat, mask: nat)
    requires t <= 14 && low >= Shl(1, t) && mask == Shl(Ones(16 - t), t)
    ensures forall p: prob :: p >= low ==> 0 < And(p, mask) < 0x1_0000
  {
    forall p: prob | p >= low ensures 0 < And(p, mask) < 0x1_0000 {
      GrainOf(p, t);
      AndAtMost(p, mask);
    }
  }

  lemma GrainFits(t: nat)
    requires t <= 14
    ensures Shl(Ones(16 - t), t) < 0x1_0000
  {
    Grain(t);
    AndAtMost(WORD - Shl(1, t), 0xffff);
  }

  /** In numbers: the grain is 2^t, and the limits lie 2^(m + t) from either end, but for the grain, or as far as 2^16. */
  lemma SetBm5Limits(bm: BitModel, t: nat, m: nat)
    requires t <= 14 && 1 <= m <= 16
    ensures var r, far := SetBm5(bm, t, m), Shl(1, Min(m + t, 16));
            && r.t == t && r.m == m && r.tmsk == 0x1_0000 - Shl(1, t) && r.ntm == WORD - 1 - r.tmsk
            && r.prb0 == far - Shl(1, t) && r.prb1 == 0x1_0000 - far + Shl(1, t)
            && r.s == bm.s && r.lt == bm.lt && r.lt0 == bm.lt0
  {
    hide And, Shl, Ones;
    SetBm5Masks(bm, t, m);
    LimitNumbers(SetBm5(bm, t, m), t, m, 16 - t, 32 - (m + t), Shl(1, Min(m + t, 16)));
  }

  lemma LimitNumbers(r: BitModel, t: nat, m: nat, w: nat, v: nat, far: nat)
    requires t <= 14 && 1 <= m <= 16 && w == 16 - t && v == 32 - (m + t) && far == Shl(1, Min(m, w) + t)
    requires r.tmsk == Shl(Ones(w), t) && r.prb0 == And(Ones(m + t), r.tmsk)
    requires r.prb1 == And(Or(Shl(Ones(v), m + t), Shl(1, t)), r.tmsk)
    ensures r.tmsk == 0x1_0000 - Shl(1, t) && r.prb0 == far - Shl(1, t) && r.prb1 == 0x1_0000 - far + Shl(1, t)
  {
    hide And, Or, Ones;
    MaskSize(t);
    LowerNumber(t, m, w);
    UpperNumber(t, m, v, w, 16);
    UpperOnes(w + t, t);
  }

  lemma MaskSize(t: nat)
    requires t <= 16
    ensures Shl(Ones(16 - t), t) + Shl(1, t) == 0x1_0000
  {
    Constants();
    OnesBelow(16);
    UpperOnes(16, t);
  }

  lemma {:induction false} AndOfOnes(v: nat, w: nat)
    ensures And(Ones(v), Ones(w)) == Ones(Min(v, w))
  {
    if v > 0 && w > 0 {
      AndOfOnes(v - 1, w - 1);
      assert Ones(v) / 2 == Ones(v - 1) && Ones(w) / 2 == Ones(w - 1);
    }
  }

  lemma LowerNumber(t: nat, m: nat, w: nat)
    ensures And(Ones(m + t), Shl(Ones(w), t)) + Shl(1, t) == Shl(1, Min(m, w) + t)
  {
    AndHigh(Ones(m + t), Ones(w), t);
    ShrOnes(m + t, t);
    AndOfOnes(m, w);
    UpperOnes(Min(m, w) + t, t);
  }

  lemma {:induction false} LowBits(x: nat, w: nat)
    ensures And(x, Ones(w)) + Shl(Shr(x, w), w) == x
  {
    if w > 0 {
      LowBits(x / 2, w - 1);
      assert Ones(w) / 2 == Ones(w - 1) && Ones(w) % 2 == 1;
    }
  }

  /** The low w bits of a number are what is left of it below a multiple of 2^w. */
  lemma LowPart(q: nat, w: nat, r: nat)
    requires r < Shl(1, w)
    ensures And(Shl(q, w) + r, Ones(w)) == r
  {
    var y := Shl(q, w) + r;
    LowBits(y, w);
    AndAtMost(y, Ones(w));
    OnesBelow(w);
    var q' := Shr(y, w);
    ShlPlus(q, 1, w);
    ShlPlus(q', 1, w);
    if q < q' { ShlMonotone(q + 1, q', w); }
    if q' < q { ShlMonotone(q' + 1, q, w); }
  }

  lemma UpperNumber(t: nat, m: nat, v: nat, w: nat, k: nat)
    requires v + m == w + k && 1 <= m < w + k && 1 <= w && 1 <= k
    ensures And(Or(Shl(Ones(v), m + t), Shl(1, t)), Shl(Ones(w), t)) + Shl(1, Min(m, w) + t) == Shl(1, w + t) + Shl(1, t)
  {
    var y := Shl(Ones(v), m) + 1;
    UpperShape(t, m, Ones(v));
    ShrShl(y, t);
    AndHigh(Shl(y, t), Ones(w), t);
    UpperLow(v, m, w, k);
    ShiftSum(And(y, Ones(w)), Min(m, w), w, t);
  }

  lemma ShiftSum(low: nat, j: nat, w: nat, t: nat)
    requires low + Shl(1, j) == Shl(1, w) + 1
    ensures Shl(low, t) + Shl(1, j + t) == Shl(1, w + t) + Shl(1, t)
  {
    ShlPlus(low, Shl(1, j), t);
    ShlPlus(Shl(1, w), 1, t);
    ShlShl(1, j, t);
    ShlShl(1, w, t);
  }

  /** Of 2^(v + m) - 2^m + 1 the low w bits. */
  lemma UpperLow(v: nat, m: nat, w: nat, k: nat)
    requires v + m == w + k && 1 <= m < w + k && 1 <= w && 1 <= k
    ensures And(Shl(Ones(v), m) + 1, Ones(w)) + Shl(1, Min(m, w)) == Shl(1, w) + 1
  {
    hide And, Shl, Ones;
    UpperOnes(v + m, m);
    ShlShl(1, k, w);
    ShlPositive(k);
    if m < w {
      FewUpper(Shl(Ones(v), m), w, m, Shl(1, k));
    } else {
      ManyUpper(Shl(Ones(v), m), w, m, k);
    }
  }

  lemma FewUpper(all: nat, w: nat, m: nat, far: nat)
    requires 1 <= m < w && far > 0 && all + Shl(1, m) == Shl(far, w)
    ensures And(all + 1, Ones(w)) == Shl(1, w) - Shl(1, m) + 1
  {
    ShlGrows(m, w);
    ShlGrows(0, m);
    ShlPlus(far - 1, 1, w);
    LowPart(far - 1, w, Shl(1, w) - Shl(1, m) + 1);
  }

  lemma ManyUpper(all: nat, w: nat, m: nat, k: nat)
    requires 1 <= w <= m < w + k && all + Shl(1, m) == Shl(Shl(1, k), w)
    ensures And(all + 1, Ones(w)) == 1
  {
    var far := Shl(1, k);
    ShlGrows(0, w);
    ShlGrows(m - w, k);
    ShlShl(1, m - w, w);
    ShlPlus(far - Shl(1, m - w), Shl(1, m - w), w);
    LowPart(far - Shl(1, m - w), w, 1);
  }

  /** Whatever the stream sets, clamping and cutting leave a probability. */
  lemma SetBm5IsGood(bm: BitModel, t: nat, m: nat)
    requires t <= 14 && 1 <= m <= 16
    ensures GoodModel(SetBm5(bm, t, m))
  {
    var r := SetBm5(bm, t, m);
    SetBm5Masks(bm, t, m);
    GrainFits(t);
    MaskSize(t);
    LowerLimit(t, m);
    UpperLimit(t, m);
    AndAtMost(Ones(m + t), r.tmsk);
    AndAtMost(Or(Shl(Ones(32 - (m + t)), m + t), Shl(1, t)), r.tmsk);
    GrainKeeps(t, r.prb0, r.tmsk);
  }
}
