/** tek_rdget1 on its decoder: bits through the range coder, tables and models adapted in place. */
module TekRange {
  import opened Basics
  import opened Bits
  import opened TekNumbers
  import opened RangeCoder
  import opened TekModels
  import opened TekCall
  import opened TekChange

  /** The kinds of tek5: its flags are -1, -2 or a byte. */
  datatype Format = Stk | Z1 | Z2(flags: byte)

  /** Bit 6 of the flags. */
  predicate LtFlag(f: Format) { f.Z1? || (f.Z2? && f.flags / 0x40 % 2 == 1) }

  function StartProb(f: Format, k: nat): prob {
    if (k == FCHGLT && LtFlag(f)) || (k == REPG3 && !f.Stk?) then 0xffff else 0x8000
  }

  /** A model before its masks are set: t and m, no bit remembered, and whether and how often the stream may change it. */
  function Blank(f: Format, k: nat): BitModel {
    var t := if f.Stk? then 5 else if k == 2 then 9 else if (k == 3 && LtFlag(f)) || k == 22 then 0 else 5;
    var m := if f.Stk? then 5 else if k == 1 then 3 else if k == 2 then 2 else if (k == 3 && LtFlag(f)) || k == 22 then 1 else 5;
    var lt := if k < 4 || f.Stk? || (f.Z1? && k == 22) then 0 else 1;
    BitModel(t, m, 0, 0, 0, 0, 0, lt, if k < 24 then 16 * 1024 else 8 * 1024)
  }

  function Word(a: int, b: int, c: int, d: int): int { 0x100_0000 * a + 0x1_0000 * b + 0x100 * c + d }

  lemma BigEndian(a: byte, b: byte, c: byte, d: byte)
    ensures Or(Or(Or(Shl(a, 24), Shl(b, 16)), Shl(c, 8)), d) == Word(a, b, c, d)
  {
    OrByte(a, 16, b);
    OrByte(0x100 * a + b, 8, c);
    RefillStep(0x1_0000 * a + 0x100 * b + c, d);
  }

  lemma AllOnes(s: seq<byte>)
    requires |s| == 4
    ensures Word(s[0], s[1], s[2], s[3]) < WORD - 1 <==> s != [255, 255, 255, 255]
  {
    if s[0] == s[1] == s[2] == s[3] == 255 {
      assert s == [255, 255, 255, 255];
    }
  }

  lemma OrByte(x: nat, k: nat, b: byte)
    ensures Or(Shl(x, k + 8), Shl(b, k)) == Shl(256 * x + b, k)
  {
    ShlEight(x);
    ShlEight(1);
    ShlShl(x, 8, k);
    ShlShl(1, 8, k);
    ShlPlus(b, 256 - b, k);
    ShlAtLeast(256 - b, k);
    ShrBound(Shl(b, k), k + 8);
    OrIsSum(x, k + 8, Shl(b, k));
    ShlPlus(256 * x, b, k);
  }

  predicate SameSettings(bm: BitModel, blank: BitModel) {
    bm.t == blank.t && bm.m == blank.m && bm.s == blank.s && bm.lt == blank.lt && bm.lt0 == blank.lt0
  }

  /** All masks for the first time. */
  method SetMasks(bm: array<BitModel>, f: Format)
    requires bm.Length == 32 && forall k :: 0 <= k < 32 ==> bm[k] == Blank(f, k)
    modifies bm
    ensures forall k :: 0 <= k < 32 ==> bm[k] == SetBm5(Blank(f, k), Blank(f, k).t, Blank(f, k).m)
    ensures forall k :: 0 <= k < 32 ==> SameSettings(bm[k], Blank(f, k))
    ensures GoodModels(bm[..])
  {
    hide SetBm5, GoodModel;
    for i := 0 to 32
      invariant forall k :: 0 <= k < i ==> bm[k] == SetBm5(Blank(f, k), Blank(f, k).t, Blank(f, k).m) && GoodModel(bm[k])
      invariant forall k :: 0 <= k < i ==> SameSettings(bm[k], Blank(f, k))
      invariant forall k :: i <= k < 32 ==> bm[k] == Blank(f, k)
    {
      SetBm5IsGood(bm[i], bm[i].t, bm[i].m);
      SetBm5Limits(bm[i], bm[i].t, bm[i].m);
      bm[i] := SetBm5(bm[i], bm[i].t, bm[i].m);
    }
  }

  class RangeDecoder {
    const src: seq<byte>
    const rmsk: nat
    const probs: array<prob>   // the probability structure, as the words it consists of
    const bm: array<BitModel>
    var p: nat
    var range: nat
    var code: nat

    ghost predicate Valid()
      reads this, probs, bm
    {
      && GoodMask(rmsk) && p <= |src| && 256 <= range && code < range < WORD
      && probs as object != bm && probs.Length >= LIT && bm.Length == 32 && GoodModels(bm[..])
    }

    /**
     * The start of tek_decmain5, for a structure with the given number of words for literals: the decoder is in its
     * ranges unless the first four bytes are all 0xff.
     */
    constructor (f: Format, lits: nat, src: seq<byte>)
      requires |src| >= 4
      ensures fresh(probs) && fresh(bm) && this.src == src && p == 4 && range == WORD - 1
      ensures rmsk == (if f.Stk? then MASK_UPPER else MASK_ALL)
      ensures code == Word(src[0], src[1], src[2], src[3])
      ensures probs.Length == LIT + lits && forall k :: 0 <= k < LIT + lits ==> probs[k] == StartProb(f, k)
      ensures bm.Length == 32 && forall k :: 0 <= k < 32 ==> bm[k] == SetBm5(Blank(f, k), Blank(f, k).t, Blank(f, k).m)
      ensures forall k :: 0 <= k < 32 ==> bm[k].s == 0 && bm[k].lt0 == (if k < 24 then 16384 else 8192)
      ensures forall k :: 0 <= k < 32 ==> bm[k].lt == if k < 4 || f.Stk? || (f.Z1? && k == 22) then 0 else 1
      ensures forall k :: 0 <= k < 32 && (f.Stk? || k !in {1, 2, 3, 22}) ==> bm[k].t == bm[k].m == 5
      ensures !f.Stk? ==> bm[1].t == 5 && bm[1].m == 3 && bm[2].t == 9 && bm[2].m == 2 && bm[22].t == 0 && bm[22].m == 1
      ensures !f.Stk? ==> if f.Z1? || f.flags / 64 % 2 == 1 then bm[3].t == 0 && bm[3].m == 1 && probs[FCHGLT] == 0xffff
                          else bm[3].t == 5 && bm[3].m == 5 && probs[FCHGLT] == 0x8000
      ensures probs[REPG3] == if f.Stk? then 0x8000 else 0xffff
      ensures forall k :: 0 <= k < probs.Length && k != REPG3 && (k != FCHGLT || f.Stk?) ==> probs[k] == 0x8000
      ensures Valid() <==> src[..4] != [255, 255, 255, 255]
    {
      hide SetBm5, GoodModel, GoodModels, GoodMask;
      this.src, p, range := src, 4, WORD - 1;
      code := Or(Or(Or(Shl(src[0], 24), Shl(src[1], 16)), Shl(src[2], 8)), src[3]);
      BigEndian(src[0], src[1], src[2], src[3]);
      AllOnes(src[..4]);
      rmsk := if f.Stk? then MASK_UPPER else MASK_ALL;
      probs := new prob[LIT + lits](_ => 0x8000);
      bm := new BitModel[32](k => Blank(f, k));
      new;
      if !f.Stk? {
        if LtFlag(f) {
          probs[FCHGLT] := 0xffff;
        }
        probs[REPG3] := 0xffff;
      }
      SetMasks(bm, f);
      MasksAreGood();
    }

    ghost function C(): Coder
      reads this
      requires p <= |src|
    {
      Coder(range, code, src[p..])
    }

    /** Tables and models are those of the call. */
    ghost predicate Holds(s: Call)
      reads this, probs, bm
    {
      Good(s) && s.tab == probs[..] && s.bms == bm[..]
    }

    /** Bytes are taken while the range is below 2^24: at most two. */
    method FillUp()
      requires Valid() && p + 2 <= |src|
      modifies this`p, this`range, this`code
      ensures Valid() && old(p) <= p <= old(p) + 2 && range >= TOP && Refill(old(C())) == Some(C())
    {
      hide GoodMask, GoodModels, Or;
      ghost var c := C();
      TwoRefills(range);
      while range < TOP
        invariant p <= |src| && range > 0 && code < range < WORD && Refill(C()) == Refill(c)
        invariant p + Refills(range) <= old(p) + 2 && old(p) <= p
        decreases TOP - range
      {
        ShlEight(range);
        RefillStep(code, src[p]);
        assert src[p..][1..] == src[p + 1..];
        range, code, p := Shl(range, 8), Or(Shl(code, 8), src[p]), p + 1;
      }
    }

    /** The word moves towards the bit just taken. */
    method AdaptWord(at: nat, b: nat, pr: prob, bit: bool)
      requires Valid() && at < probs.Length && b < 32 && pr == probs[at]
      modifies probs
      ensures Valid() && probs[..] == old(probs[..])[at := Adapted(bm[b], pr, bit)]
      ensures bit ==> probs[at] == pr + Shl(Shr(Shr(0x1_0000 - pr, bm[b].m), bm[b].t), bm[b].t)
      ensures !bit ==> probs[at] == pr - Shl(Shr(Shr(pr, bm[b].m), bm[b].t), bm[b].t)
    {
      hide GoodMask, And, Shr, Shl;
      ghost var next := Adapted(bm[b], pr, bit);
      AdaptedMoves(bm[b], pr, bit);
      if bit {
        probs[at] := probs[at] + And(Shr(0x1_0000 - pr, bm[b].m), bm[b].tmsk);
      } else {
        probs[at] := probs[at] - And(Shr(pr, bm[b].m), bm[b].tmsk);
      }
    }

    /** One bit with the probability at the given place: at most two refills, the cut, and the adaptation of the word. */
    method GetBit(at: nat, b: nat, pr: prob) returns (bit: bool)
      requires Valid() && at < probs.Length && b < 32 && pr == probs[at] && p + 2 <= |src|
      modifies this`p, this`range, this`code, probs
      ensures Valid() && old(p) <= p <= old(p) + 2
      ensures DecodeBit(old(C()), rmsk, pr) == Some((bit, C()))
      ensures probs[..] == old(probs[..])[at := Adapted(bm[b], pr, bit)]
      ensures bit ==> probs[at] == pr + Shl(Shr(Shr(0x1_0000 - pr, bm[b].m), bm[b].t), bm[b].t)
      ensures !bit ==> probs[at] == pr - Shl(Shr(Shr(pr, bm[b].m), bm[b].t), bm[b].t)
    {
      hide GoodModels, GoodMask, Adapted, Refill, Cut, Shl, Shr;
      FillUp();
      CutBounds(range, rmsk, pr);
      var i := Cut(range, rmsk, pr);
      bit := code < i;
      if bit {
        range := i;
      } else {
        range, code := range - i, code - i;
      }
      AdaptWord(at, b, pr, bit);
    }

    /**
     * From `start` and s0 on just the given bits have been taken, the call stands at s, and the bytes left are
     * enough for all the bits it can still ask for.
     */
    ghost predicate Took(start: Coder, s0: Call, bits: seq<bool>, s: Call)
      reads this
    {
      && p <= |src| && Good(s0) && Taken(rmsk, start, s0, bits, C()) && Run(s0, bits) == s
      && p + 2 * BitsLeft(s) <= |src|
    }

    /** The next bit of the call, for whatever phase it is in; what the phase makes of it is still to be done. */
    method Take(ghost start: Coder, ghost s0: Call, ghost bits: seq<bool>, ghost s: Call,
                at: nat, b: nat, pr: prob) returns (bit: bool)
      requires Valid() && Took(start, s0, bits, s) && Holds(s) && !Final(s) && at == At(s) && b == ModelAt(s) && pr == probs[at]
      modifies this`p, this`range, this`code, probs
      ensures Valid() && Took(start, s0, bits + [bit], Step(s, bit))
      ensures probs[..] == Adapt(s, bit).tab && bm[..] == s.bms
    {
      ghost var mid := C();
      StepNearer(s, true);
      bit := GetBit(at, b, pr);
      StepNearer(s, bit);
      TakenOne(rmsk, start, s0, bits, mid, bit, C());
      RunOne(s0, bits, bit);
    }

    /** Of a call for four bits that began at `now` n are to go after prefix j; with the last of them comes AfterFour. */
    ghost predicate InFour(start: Coder, s0: Call, bits: seq<bool>, now: Call, s: Call, n: nat, j: nat)
      reads this, probs, bm
    {
      OfFour(now, s, n, j) && s.tab == probs[..] && s.bms == bm[..] && Took(start, s0, bits, AfterFour(s))
    }

    method FourBit(ghost start: Coder, ghost s0: Call, ghost bits: seq<bool>, ghost now: Call, ghost s: Call,
                   n: nat, j: nat, table: nat) returns (bit: bool, ghost s': Call)
      requires Valid() && Good(now) && InFour(start, s0, bits, now, s, n, j) && n > 0 && OnFour(now.phase, table)
      modifies this`p, this`range, this`code, probs
      ensures Valid() && InFour(start, s0, bits + [bit], now, s', n - 1, 2 * j + Value(bit))
    {
      OfFourAt(now, s, n, j, table);
      bit := Take(start, s0, bits, s, table + j - 1, 2, probs[table + j - 1]);
      OfFourNext(now, s, n, j, bit);
      s' := OneFewer(s, bit);
    }

    /** A call for four bits from prefix 1 on: those of the new t, or of the new m. */
    method GetFour(ghost start: Coder, ghost s0: Call, ghost bits0: seq<bool>, ghost now: Call, table: nat)
      returns (j: nat, ghost bits: seq<bool>, ghost s: Call)
      requires Valid() && Took(start, s0, bits0, now) && Holds(now) && OnFour(now.phase, table)
      modifies this`p, this`range, this`code, probs
      ensures Valid() && InFour(start, s0, bits, now, s, 0, j)
    {
      hide Fits, GoodModels, Limit, Recounted, Reset, Step;
      var n := 4;
      j, bits, s := 1, bits0, now;
      while n > 0
        invariant Valid() && n <= 4 && InFour(start, s0, bits, now, s, n, j)
      {
        var bit;
        bit, s := FourBit(start, s0, bits, now, s, n, j, table);
        bits := bits + [bit];
        j := 2 * j + Value(bit);
        n := n - 1;
      }
    }

    /** The stream has changed the model for the call at `now`: tables and models are those of u, still to be limited. */
    ghost predicate Ready(start: Coder, s0: Call, bits: seq<bool>, now: Call, u: Call)
      reads this, probs, bm
    {
      Settled(now, u) && u.tab == probs[..] && u.bms == bm[..] && Took(start, s0, bits, Limit(u))
    }

    /** The stream asks for what is not supported; C jumps out. */
    ghost predicate Broken(start: Coder, s0: Call, bits: seq<bool>, u: Call)
      reads this, probs, bm
    {
      Took(start, s0, bits, u) && u.phase.Failed? && Holds(u)
    }

    /** Is there a change at all? */
    method GetFlag(ghost start: Coder, ghost s0: Call, ghost bits: seq<bool>, ghost now: Call) returns (flag: bool, ghost s: Call)
      requires Valid() && Took(start, s0, bits, now) && Holds(now) && now.phase.Flag?
      modifies this`p, this`range, this`code, probs
      ensures Valid() && Took(start, s0, bits + [flag], s) && Holds(s)
      ensures s == now.(tab := s.tab, phase := if flag then Keep else Failed) && Apart(now.tab, s.tab)
    {
      flag := Take(start, s0, bits, now, FCHGLT, 3, probs[FCHGLT]);
      s := Step(now, flag);
    }

    /** Do t and m stay? If they do, the model counts anew. */
    method GetKeep(ghost start: Coder, ghost s0: Call, ghost bits: seq<bool>, ghost now: Call, b: nat)
      returns (keep: bool, ghost s: Call)
      requires Valid() && Took(start, s0, bits, now) && Holds(now) && now.phase.Keep? && b == now.b
      modifies this`p, this`range, this`code, probs, bm
      ensures Valid()
      ensures if keep then Ready(start, s0, bits + [keep], now, s) else
                Took(start, s0, bits + [keep], s) && Holds(s) && Renewing(now, s)
    {
      var at := FCHGPRM + 2 * b + bm[b].s;
      keep := Take(start, s0, bits, now, at, 1, probs[at]);
      KeepParts(now, keep);
      bm[b] := bm[b].(s := Value(keep));
      s := Kept(Adapt(now, keep), keep);
      if keep {
        bm[b] := bm[b].(lt := bm[b].lt0);
        s := Recounted(s);
      }
    }

    /** The new t; 15 of it is not supported. */
    method GetT(ghost start: Coder, ghost s0: Call, ghost bits0: seq<bool>, ghost now: Call)
      returns (t: nat, ghost bits: seq<bool>, ghost mid: Call)
      requires Valid() && Took(start, s0, bits0, now) && Holds(now) && now.phase == NewT(4, 1)
      modifies this`p, this`range, this`code, probs
      ensures Valid() && Took(start, s0, bits, mid) && Holds(mid) && t < 16
      ensures mid == now.(tab := mid.tab, phase := if t == 15 then Failed else NewM(t, 4, 1)) && Apart(now.tab, mid.tab)
    {
      hide Step, Fits, GoodModels, Limit;
      var j;
      ghost var s;
      j, bits, s := GetFour(start, s0, bits0, now, TBMT);
      TParts(now, s, j);
      return j % 16, bits, AfterFour(s);
    }

    /** The new m, with which the change is over but for the model itself. */
    method GetM(ghost start: Coder, ghost s0: Call, ghost bits0: seq<bool>, ghost now: Call, ghost mid: Call, ghost t: nat)
      returns (m: nat, ghost bits: seq<bool>, ghost s: Call)
      requires Valid() && Took(start, s0, bits0, mid) && Holds(mid) && t < 15
      requires now.n > 0 && mid == now.(tab := mid.tab, phase := NewM(t, 4, 1)) && Apart(now.tab, mid.tab)
      modifies this`p, this`range, this`code, probs
      ensures Valid() && Placed(s) && 4 <= s.b == now.b < 32 && 1 <= m <= 16 && s.tab == probs[..] && s.bms == bm[..]
      ensures var u := Recounted(Reset(s, t, m)); Settled(now, u) && Took(start, s0, bits, Limit(u))
    {
      hide Step, Fits, GoodModels, SetBm5;
      var j;
      OwnPlace(mid);
      j, bits, s := GetFour(start, s0, bits0, mid, TBMM);
      m := (j - 1) % 16 + 1;
      AnewParts(now, mid, s, t, m, j);
    }

    /** The model gets its new t and m and counts anew. */
    method SetModelAnew(ghost s: Call, b: nat, t: nat, m: nat)
      requires Valid() && Placed(s) && 4 <= b == s.b < 32 && s.bms == bm[..] && t < 15 && 1 <= m <= 16
      modifies bm
      ensures Valid() && bm[..] == Recounted(Reset(s, t, m)).bms
    {
      SetBm5IsGood(bm[b], t, m);
      SetBm5Limits(bm[b], t, m);
      hide SetBm5, Fits;
      bm[b] := SetBm5(bm[b], t, m);
      bm[b] := bm[b].(lt := bm[b].lt0);
    }

    /** New t and m. */
    method GetAnew(ghost start: Coder, ghost s0: Call, ghost bits0: seq<bool>, ghost now: Call, b: nat)
      returns (ok: bool, ghost bits: seq<bool>, ghost s: Call)
      requires Valid() && Took(start, s0, bits0, now) && Holds(now) && now.phase == NewT(4, 1) && b == now.b
      modifies this`p, this`range, this`code, probs, bm
      ensures Valid() && if ok then Ready(start, s0, bits, now, s) else Broken(start, s0, bits, s)
    {
      hide Step, Fits, GoodModels, SetBm5, Settled, Limit;
      var t, m;
      ghost var mid;
      t, bits, mid := GetT(start, s0, bits0, now);
      if t == 15 {
        return false, bits, mid;
      }
      m, bits, s := GetM(start, s0, bits, now, mid, t);
      SetModelAnew(s, b, t, m);
      return true, bits, Recounted(Reset(s, t, m));
    }

    /** The model's counter has run out: the stream may give it new parameters. */
    method ChangeModel(ghost start: Coder, ghost s0: Call, ghost bits0: seq<bool>, ghost now: Call, b: nat)
      returns (ok: bool, ghost bits: seq<bool>, ghost u: Call)
      requires Valid() && Took(start, s0, bits0, now) && Holds(now) && now.phase.Flag? && b == now.b
      modifies this`p, this`range, this`code, probs, bm
      ensures Valid() && if ok then Ready(start, s0, bits, now, u) else Broken(start, s0, bits, u)
    {
      bits := bits0;
      ok, u := GetFlag(start, s0, bits, now);
      bits := bits + [ok];
      if !ok {
        return;
      }
      var keep;
      ghost var kept;
      keep, kept := GetKeep(start, s0, bits, u, b);
      SettledOn(now, u, kept);
      bits, u := bits + [keep], kept;
      if !keep {
        ok, bits, u := GetAnew(start, s0, bits, kept, b);
        if ok { SettledOn(now, kept, u); }
      }
    }

    /** The own word is put between the model's limits. */
    method LimitWord(ghost u: Call, at: nat, b: nat, p0: prob) returns (pr: prob)
      requires Valid() && Placed(u) && u.n > 0 && u.tab == probs[..] && u.bms == bm[..] && at == u.root + u.j && b == u.b
      requires p0 == probs[at]
      modifies probs
      ensures Valid() && pr == probs[at] && probs[..] == Limit(u).tab
    {
      pr := p0;
      if pr < bm[b].prb0 {
        pr := bm[b].prb0;
        probs[at] := pr;
      } else if pr > bm[b].prb1 {
        pr := bm[b].prb1;
        probs[at] := pr;
      } else if And(pr, bm[b].ntm) != 0 {
        pr := And(pr, bm[b].tmsk);
        probs[at] := pr;
      }
    }

    /** The call is at the top of the loop, nothing counted down yet. */
    ghost predicate AtTop(start: Coder, s0: Call, bits: seq<bool>, pre: Call)
      reads this, probs, bm
    {
      Placed(pre) && pre.tab == probs[..] && pre.bms == bm[..] && Took(start, s0, bits, Begin(pre))
    }

    /** The call is ready for an own bit. */
    ghost predicate AtOwn(start: Coder, s0: Call, bits: seq<bool>, pre: Call, s: Call)
      reads this, probs, bm
    {
      Took(start, s0, bits, s) && Holds(s) && s == pre.(tab := s.tab, bms := s.bms, phase := Own)
    }

    /** The model's counter is down to 0: after a change of the model its word is limited; false where C jumps out. */
    method Renew(ghost start: Coder, ghost s0: Call, ghost bits0: seq<bool>, ghost now: Call, at: nat, b: nat, p0: prob)
      returns (ok: bool, pr: prob, ghost bits: seq<bool>, ghost s: Call)
      requires Valid() && Took(start, s0, bits0, now) && Holds(now) && now.phase.Flag?
      requires at == now.root + now.j && b == now.b && p0 == probs[at]
      modifies this`p, this`range, this`code, probs, bm
      ensures Valid()
      ensures if ok then pr == probs[at] && AtOwn(start, s0, bits, now, s) else Broken(start, s0, bits, s)
    {
      pr := p0;
      ok, bits, s := ChangeModel(start, s0, bits0, now, b);
      if ok {
        assert probs[at] == p0;
        pr := LimitWord(s, at, b, pr);
        s := Limit(s);
      }
    }

    /** The model counts down, may be changed, and limits the word. */
    method CountDown(ghost start: Coder, ghost s0: Call, ghost bits0: seq<bool>, ghost pre: Call, at: nat, b: nat)
      returns (ok: bool, pr: prob, ghost bits: seq<bool>, ghost s: Call)
      requires Valid() && AtTop(start, s0, bits0, pre) && pre.n > 0 && at == pre.root + pre.j && b == pre.b
      modifies this`p, this`range, this`code, probs, bm
      ensures Valid()
      ensures if ok then pr == probs[at] && AtOwn(start, s0, bits, pre, s) else Broken(start, s0, bits, s)
    {
      ok, pr, bits, s := true, probs[at], bits0, Begin(pre);
      CountedDown(pre);
      if bm[b].lt > 0 {
        bm[b] := bm[b].(lt := bm[b].lt - 1);
        if bm[b].lt == 0 {
          ok, pr, bits, s := Renew(start, s0, bits, s, at, b, pr);
        } else {
          pr := LimitWord(pre.(bms := bm[..]), at, b, pr);
        }
      }
    }

    /** One turn of the loop. */
    method Turn(ghost start: Coder, ghost s0: Call, ghost bits0: seq<bool>, ghost pre: Call, at: nat, b: nat)
      returns (ok: bool, bit: bool, ghost bits: seq<bool>, ghost s: Call)
      requires Valid() && AtTop(start, s0, bits0, pre) && pre.n > 0 && at == pre.root + pre.j && b == pre.b
      modifies this`p, this`range, this`code, probs, bm
      ensures Valid()
      ensures if ok then AtTop(start, s0, bits, s) && s == Onward(pre, bit, s.tab, s.bms) else Broken(start, s0, bits, s)
    {
      var pr;
      ok, pr, bits, s := CountDown(start, s0, bits0, pre, at, b);
      if !ok {
        return false, false, bits, s;
      }
      ghost var own := s;
      bit := Take(start, s0, bits, own, at, b, pr);
      OwnParts(pre, own, bit);
      bits, s := bits + [bit], Onward(pre, bit, probs[..], bm[..]);
    }

    lemma FirstTurn(pre: Call) returns (s: Call)
      requires Valid() && Placed(pre) && pre.n > 0 && p + 22 * pre.n <= |src| && pre.tab == probs[..] && pre.bms == bm[..]
      ensures s == Begin(pre) && s.root == pre.root && s.nm == pre.nm && AtTop(C(), s, [], pre)
    {
      s := Begin(pre);
      BeginIsGood(pre);
      BeginStays(pre);
    }

    /** In the loop: n bits to go after prefix j, under model b. */
    ghost predicate Along(start: Coder, s: Call, bits: seq<bool>, pre: Call, j: nat, n: nat, b: nat)
      reads this, probs, bm
    {
      AtTop(start, s, bits, pre) && pre.j == j && pre.n == n && pre.b == b && pre.root == s.root && pre.nm == s.nm
    }

    /**
     * tek_rdget1 in full. The bits taken, those of changes of models among them, are what decoding under the
     * call's history model gives; tables, models, result and failure are those of the machine after these bits.
     */
    method RdGet1(at: nat, count: nat, nm: nat, j0: nat, b0: nat) returns (j: nat, ok: bool, ghost bits: seq<bool>)
      requires Valid() && count > 0 && p + 22 * count <= |src|
      requires Fits(probs.Length, at - j0, j0, count, nm, b0)
      modifies this`p, this`range, this`code, probs, bm
      ensures Valid()
      ensures Answer(rmsk, old(C()), Begin(Call(old(probs[..]), old(bm[..]), at - j0, j0, count, nm, b0, Own)), bits,
                     C(), probs[..], bm[..], ok, j)
    {
      hide Step, BitsLeft, Complete, Fits, GoodModels, GoodModel, Run, Begin, Taken, Answer, Good;
      ghost var start := C();
      ghost var pre := Call(probs[..], bm[..], at - j0, j0, count, nm, b0, Own);
      ghost var s := FirstTurn(pre);
      var n: nat, b: nat := count, b0;
      j, bits, ok := j0, [], true;
      while n > 0
        invariant Valid() && Along(start, s, bits, pre, j, n, b)
      {
        var bit;
        OwnPlace(pre);
        ok, bit, bits, pre := Turn(start, s, bits, pre, at - j0 + j, b);
        if !ok {
          FailedAt(rmsk, start, s, bits, C(), j);
          return;
        }
        j := 2 * j + Value(bit);
        n, b := n - 1, NextModel(n, nm, b);
      }
      DoneAt(rmsk, start, s, bits, C(), pre);
    }
  }

  /**
   * What a call gives that starts at s: the given bits come to its end, decoding under its history takes them, and
   * the machine after these bits has the tables, the models and the number, or has failed.
   */
  ghost predicate Answer(rmsk: nat, start: Coder, s: Call, bits: seq<bool>, end: Coder,
                         tab: seq<prob>, bms: seq<BitModel>, ok: bool, j: nat) {
    && Good(s) && Complete(s, bits) && Taken(rmsk, start, s, bits, end)
    && Run(s, bits).tab == tab && Run(s, bits).bms == bms && (ok <==> Run(s, bits).phase.Done?)
    && (ok ==> Run(s, bits).j == j && Shl(s.j, s.n) <= j < Shl(s.j + 1, s.n))
  }

  predicate OnFour(phase: Phase, table: nat) {
    (phase == NewT(4, 1) && table == TBMT) || (phase.NewM? && phase == NewM(phase.t, 4, 1) && table == TBMM)
  }

  lemma OfFourAt(now: Call, s: Call, n: nat, j: nat, table: nat)
    requires Good(now) && OfFour(now, s, n, j) && n > 0 && OnFour(now.phase, table)
    ensures Good(s) && At(s) == table + j - 1 && AfterFour(s) == s
  {
  }

  /** After an own bit, with tables and models as given. */
  function Onward(c: Call, bit: bool, tab: seq<prob>, bms: seq<BitModel>): Call
    requires c.n > 0
  {
    Call(tab, bms, c.root, 2 * c.j + Value(bit), c.n - 1, c.nm, NextModel(c.n, c.nm, c.b), Own)
  }

  lemma OwnParts(pre: Call, s: Call, bit: bool)
    requires Good(s) && s == pre.(tab := s.tab, bms := s.bms, phase := Own)
    ensures var u := Onward(pre, bit, Adapt(s, bit).tab, s.bms); Placed(u) && Step(s, bit) == Begin(u)
  {
    hide GoodModels, Limit, AfterFour, Recounted, Kept, Adapted;
    var r := Adapt(s, bit);
    assert Fits(|r.tab|, r.root, 2 * r.j + Value(bit), r.n - 1, r.nm, NextModel(r.n, r.nm, r.b));
  }

  lemma OwnPlace(c: Call)
    requires Placed(c) && c.n > 0
    ensures 0 <= c.root + c.j < |c.tab| && c.b < 32
  {
  }

  /** What the top of the loop does, by the model's counter. */
  lemma CountedDown(pre: Call)
    requires Placed(pre) && pre.n > 0
    ensures Good(Begin(pre))
    ensures var lt := pre.bms[pre.b].lt;
            if lt == 0 then Begin(pre) == pre.(phase := Own) else
              var u := pre.(bms := pre.bms[pre.b := pre.bms[pre.b].(lt := lt - 1)]);
              Placed(u) && Begin(pre) == if lt == 1 then u.(phase := Flag) else Limit(u)
  {
    BeginIsGood(pre);
    if pre.bms[pre.b].lt > 0 {
      SetModel(pre.bms, pre.b, pre.bms[pre.b].(lt := pre.bms[pre.b].lt - 1));
    }
  }

  lemma BeginStays(pre: Call)
    requires Placed(pre) && pre.n > 0
    ensures BitsLeft(Begin(pre)) <= 11 * pre.n
    ensures Begin(pre) == pre.(tab := Begin(pre).tab, bms := Begin(pre).bms, phase := Begin(pre).phase)
  {
  }

  /** An encoded run, whatever changes of models are in it, comes back: the call gives its number and leaves what follows it. */
  lemma EncodedComesBack(rmsk: nat, range: nat, s: Call, coded: seq<bool>, rest: seq<byte>, bits: seq<bool>, end: Coder,
                         tab: seq<prob>, bms: seq<BitModel>, ok: bool, j: nat)
    requires 0 < range < WORD && GoodMask(rmsk) && Good(s) && Complete(s, coded)
    requires var e := Encode(range, rmsk, History(s), coded);
             Answer(rmsk, Coder(range, e.high, e.bytes + rest), s, bits, end, tab, bms, ok, j)
    ensures end.src == rest && bits == coded
    ensures (ok <==> Run(s, coded).phase.Done?) && (ok ==> j == Run(s, coded).j)
  {
    CallRoundTrip(rmsk, range, s, coded, rest, bits, end);
  }

  lemma FailedAt(rmsk: nat, start: Coder, s: Call, bits: seq<bool>, end: Coder, j: nat)
    requires Good(s) && Taken(rmsk, start, s, bits, end) && Run(s, bits).phase.Failed?
    ensures Answer(rmsk, start, s, bits, end, Run(s, bits).tab, Run(s, bits).bms, false, j)
  {
  }

  /** With no bits to go the call is done, and has its number. */
  lemma DoneAt(rmsk: nat, start: Coder, s: Call, bits: seq<bool>, end: Coder, pre: Call)
    requires Good(s) && Taken(rmsk, start, s, bits, end) && pre.n == 0 && Run(s, bits) == Begin(pre)
    ensures Answer(rmsk, start, s, bits, end, pre.tab, pre.bms, true, pre.j)
  {
    DoneInRange(s, bits);
  }
}
