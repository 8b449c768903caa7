/**
 * A call of the range decoder for some bits of its own, with every change of a model that the stream makes in
 * the middle of it: a machine over the bits taken, and the bits so far as a model in the sense of RangeCoder.
 */
module TekCall {
  import opened Basics
  import opened Bits
  import opened RangeCoder
  import opened TekModels

  // Where the probability structure, as an array of words, has its tables.

  const REPG3: nat := 16 * (12 * 2 + 2 * 8 + 2 * 8) + 12 * 4 + 2 * 2 + 2 * 256 + 4 * 64 + 64 + 3 * (2 + 4 + 8 + 16 + 32)
  const FCHGPRM: nat := REPG3 + 1
  const TBMT: nat := FCHGPRM + 2 * 32
  const TBMM: nat := TBMT + 16
  const FCHGLT: nat := TBMM + 16
  const LIT: nat := FCHGLT + 1

  /** The tables for changing a model. */
  predicate ForChanges(k: int) { FCHGPRM <= k <= FCHGLT }

  /** What the next bit is for: the call itself, or a change of the model in use. */
  datatype Phase =
    | Own
    | Flag                                // is there a change at all?
    | Keep                                // do t and m stay as they are?
    | NewT(n: nat, j: nat)                // n bits of t to go after prefix j
    | NewM(t: nat, n: nat, j: nat)
    | Done
    | Failed                              // C jumps out

  /** Where a call stands: the words, the models, place of the code tree's root, prefix, bits to go, grouping mask, model, phase. */
  datatype Call = Call(tab: seq<prob>, bms: seq<BitModel>, root: int, j: nat, n: nat, nm: nat, b: nat, phase: Phase)

  function Value(bit: bool): (r: nat)
    ensures r <= 1 && (r == 1 <==> bit)
  {
    if bit then 1 else 0
  }

  function NextModel(n: nat, nm: nat, b: nat): nat
    requires n > 0
  {
    if And(n - 1, nm) == 0 then b + 1 else b
  }

  /** Every entry that the call may touch, whatever the bits, is in the words and apart from the tables for changes. */
  ghost predicate Fits(words: nat, root: int, j: nat, n: nat, nm: nat, b: nat)
    decreases n
  {
    n > 0 ==>
      && 0 <= root + j < words && !ForChanges(root + j) && b < 32
      && forall bit: bool :: Fits(words, root, 2 * j + Value(bit), n - 1, nm, NextModel(n, nm, b))
  }

  ghost predicate GoodModels(bms: seq<BitModel>) {
    && |bms| == 32
    && (forall k :: 0 <= k < 32 ==> GoodModel(bms[k]) && bms[k].s <= 1)
    && (forall k :: 0 <= k < 4 ==> bms[k].lt == 0)
  }

  /** Prefix j has what n of four bits leave. */
  predicate InTree(n: nat, j: nat) {
    || (n == 4 && j == 1) || (n == 3 && 2 <= j < 4) || (n == 2 && 4 <= j < 8) || (n == 1 && 8 <= j < 16) || (n == 0 && 16 <= j < 32)
  }

  /** Tables and models are in order, and the call keeps to its own entries. */
  ghost predicate Placed(c: Call) {
    LIT <= |c.tab| && GoodModels(c.bms) && Fits(|c.tab|, c.root, c.j, c.n, c.nm, c.b)
  }

  ghost predicate Good(c: Call) {
    && Placed(c)
    && (c.n == 0 <==> c.phase.Done?)
    && match c.phase
       case Own => true
       case Flag => c.b >= 4
       case Keep => c.b >= 4
       case NewT(n, j) => c.b >= 4 && n > 0 && InTree(n, j)
       case NewM(t, n, j) => c.b >= 4 && n > 0 && InTree(n, j) && t < 15
       case Done => true
       case Failed => true
  }

  predicate Final(c: Call) { c.phase.Done? || c.phase.Failed? }

  /** The word with the next bit's probability. */
  function At(c: Call): (k: nat)
    requires Good(c) && !Final(c)
    ensures k < |c.tab| && (ForChanges(k) <==> !c.phase.Own?)
  {
    match c.phase
    case Own => c.root + c.j
    case Flag => FCHGLT
    case Keep => FCHGPRM + 2 * c.b + c.bms[c.b].s
    case NewT(n, j) => TBMT + j - 1
    case NewM(t, n, j) => TBMM + j - 1
  }

  /** The model by which that word adapts; 1, 2 and 3 have no limits. */
  function ModelAt(c: Call): (k: nat)
    requires Good(c) && !Final(c)
    ensures k < 32
  {
    match c.phase
    case Own => c.b
    case Flag => 3
    case Keep => 1
    case _ => 2
  }

  /** The own word limited by the model in use. */
  function Limit(c: Call): Call
    requires 0 <= c.root + c.j < |c.tab| && c.b < |c.bms| && GoodModel(c.bms[c.b])
  {
    c.(tab := c.tab[c.root + c.j := Limited(c.bms[c.b], c.tab[c.root + c.j])], phase := Own)
  }

  /** The top of the loop: the model counts down, and when its counter runs out the stream may change it. */
  function Begin(c: Call): Call
    requires c.n > 0 ==> 0 <= c.root + c.j < |c.tab| && c.b < |c.bms| && GoodModel(c.bms[c.b])
  {
    if c.n == 0 then c.(phase := Done)
    else
      var bm := c.bms[c.b];
      if bm.lt == 0 then c.(phase := Own)
      else if bm.lt == 1 then c.(bms := c.bms[c.b := bm.(lt := 0)], phase := Flag)
      else Limit(c.(bms := c.bms[c.b := bm.(lt := bm.lt - 1)]))
  }

  /** The change is over: the model counts anew. */
  function Recounted(c: Call): Call
    requires c.b < |c.bms|
  {
    c.(bms := c.bms[c.b := c.bms[c.b].(lt := c.bms[c.b].lt0)], phase := Own)
  }

  /** The model remembers whether its t and m were to stay. */
  function Kept(c: Call, keep: bool): Call
    requires c.b < |c.bms|
  {
    c.(bms := c.bms[c.b := c.bms[c.b].(s := Value(keep))], phase := NewT(4, 1))
  }

  function Reset(c: Call, t: nat, m: nat): Call
    requires c.b < |c.bms| && t < 15 && m <= 16
  {
    c.(bms := c.bms[c.b := SetBm5(c.bms[c.b], t, m)])
  }

  /** After the bit, its word not yet adapted. */
  function Advance(c: Call, bit: bool): Call
    requires Good(c) && !Final(c)
  {
    match c.phase
    case Own => NextOwn(c, bit)
    case Flag => c.(phase := if bit then Keep else Failed)
    case Keep => if bit then Limit(Recounted(Kept(c, bit))) else Kept(c, bit)
    case NewT(n, j) => AfterFour(c.(phase := NewT(n - 1, 2 * j + Value(bit))))
    case NewM(t, n, j) => AfterFour(c.(phase := NewM(t, n - 1, 2 * j + Value(bit))))
  }

  /** Once the four bits are there they are the new t, or the new m with which the change is over. */
  function AfterFour(c: Call): Call
    requires Placed(c) && c.n > 0 && (c.phase.NewT? || (c.phase.NewM? && c.phase.t < 15))
    requires InTree(c.phase.n, c.phase.j)
  {
    if c.phase.n > 0 then c
    else if c.phase.NewT? then c.(phase := if c.phase.j % 16 == 15 then Failed else NewM(c.phase.j % 16, 4, 1))
    else
      SetBm5IsGood(c.bms[c.b], c.phase.t, (c.phase.j - 1) % 16 + 1);
      Limit(Recounted(Reset(c, c.phase.t, (c.phase.j - 1) % 16 + 1)))
  }

  function NextOwn(c: Call, bit: bool): Call
    requires Good(c) && c.n > 0
  {
    var j, b := 2 * c.j + Value(bit), NextModel(c.n, c.nm, c.b);
    assert Fits(|c.tab|, c.root, j, c.n - 1, c.nm, b);
    Begin(c.(j := j, n := c.n - 1, b := b))
  }

  function Adapt(c: Call, bit: bool): (r: Call)
    requires Good(c) && !Final(c)
    ensures Good(r) && r.phase == c.phase
  {
    c.(tab := c.tab[At(c) := Adapted(c.bms[ModelAt(c)], c.tab[At(c)], bit)])
  }

  // ---- the machine keeps its tables in order, and comes to an end ----

  /** The models after one of them has changed, but for its settings of limits. */
  lemma SetModel(bms: seq<BitModel>, b: nat, bm: BitModel)
    requires GoodModels(bms) && b < 32 && GoodModel(bm) && bm.s <= 1 && (b < 4 ==> bm.lt == 0)
    ensures GoodModels(bms[b := bm])
  {
  }

  lemma BeginIsGood(c: Call)
    requires Placed(c)
    ensures Good(Begin(c))
  {
    if c.n > 0 && c.bms[c.b].lt > 0 {
      SetModel(c.bms, c.b, c.bms[c.b].(lt := c.bms[c.b].lt - 1));
    }
  }

  lemma RecountedIsGood(c: Call)
    requires Placed(c) && c.n > 0 && c.b >= 4
    ensures Good(Limit(Recounted(c)))
  {
    SetModel(c.bms, c.b, c.bms[c.b].(lt := c.bms[c.b].lt0));
  }

  lemma NextOwnIsGood(c: Call, bit: bool)
    requires Good(c) && c.n > 0
    ensures Good(NextOwn(c, bit))
  {
    var c' := c.(j := 2 * c.j + Value(bit), n := c.n - 1, b := NextModel(c.n, c.nm, c.b));
    assert Placed(c') by {
      assert Fits(|c.tab|, c.root, 2 * c.j + Value(bit), c.n - 1, c.nm, NextModel(c.n, c.nm, c.b));
    }
    BeginIsGood(c');
  }

  lemma KeepIsGood(c: Call, bit: bool)
    requires Good(c) && c.phase.Keep?
    ensures Good(Advance(c, bit))
  {
    SetModel(c.bms, c.b, c.bms[c.b].(s := Value(bit)));
    RecountedIsGood(Kept(c, bit));
  }

  lemma AfterFourIsGood(c: Call)
    requires Placed(c) && c.n > 0 && c.b >= 4 && (c.phase.NewT? || (c.phase.NewM? && c.phase.t < 15))
    requires InTree(c.phase.n, c.phase.j)
    ensures Good(AfterFour(c))
  {
    if c.phase.n == 0 && c.phase.NewM? {
      var t, m := c.phase.t, (c.phase.j - 1) % 16 + 1;
      SetBm5IsGood(c.bms[c.b], t, m);
      SetModel(c.bms, c.b, SetBm5(c.bms[c.b], t, m));
      RecountedIsGood(Reset(c, t, m));
    }
  }

  lemma NewTIsGood(c: Call, bit: bool)
    requires Good(c) && c.phase.NewT?
    ensures Good(Advance(c, bit))
  {
    AfterFourIsGood(c.(phase := NewT(c.phase.n - 1, 2 * c.phase.j + Value(bit))));
  }

  lemma NewMIsGood(c: Call, bit: bool)
    requires Good(c) && c.phase.NewM?
    ensures Good(Advance(c, bit))
  {
    AfterFourIsGood(c.(phase := NewM(c.phase.t, c.phase.n - 1, 2 * c.phase.j + Value(bit))));
  }

  lemma AdvanceIsGood(c: Call, bit: bool)
    requires Good(c) && !Final(c)
    ensures Good(Advance(c, bit))
  {
    match c.phase
    case Own => NextOwnIsGood(c, bit);
    case Keep => KeepIsGood(c, bit);
    case NewT(n, j) => NewTIsGood(c, bit);
    case NewM(t, n, j) => NewMIsGood(c, bit);
    case _ =>
  }

  /** At most how many bits a call has still to take. */
  function BitsLeft(c: Call): int {
    match c.phase
    case Own => 11 * c.n - 10
    case Flag => 11 * c.n
    case Keep => 11 * c.n - 1
    case NewT(n, j) => 11 * c.n - 6 + n
    case NewM(t, n, j) => 11 * c.n - 10 + n
    case Done => 0
    case Failed => 0
  }

  /** The machine's step; at its end it stays. */
  function Step(c: Call, bit: bool): (r: Call)
    requires Good(c)
    ensures Good(r)
  {
    if Final(c) then c
    else
      AdvanceIsGood(Adapt(c, bit), bit);
      Advance(Adapt(c, bit), bit)
  }

  // ---- the four bits of a new t or m ----

  /** Four bits are being taken: n to go after prefix j. */
  function Four(phase: Phase, n: nat, j: nat): Phase {
    if phase.NewM? then NewM(phase.t, n, j) else NewT(n, j)
  }

  /** The words differ in the tables for changes alone. */
  ghost predicate Apart(tab: seq<prob>, tab': seq<prob>) {
    |tab| == |tab'| && forall k :: 0 <= k < |tab| && !ForChanges(k) ==> tab[k] == tab'[k]
  }

  /** Of a call for four bits n are to go after prefix j. */
  ghost predicate OfFour(now: Call, s: Call, n: nat, j: nat) {
    && now.n > 0 && now.b >= 4 && (now.phase.NewT? || (now.phase.NewM? && now.phase.t < 15)) && Placed(s) && InTree(n, j)
    && s == now.(tab := s.tab, phase := Four(now.phase, n, j)) && Apart(now.tab, s.tab)
  }

  ghost function OneFewer(s: Call, bit: bool): Call
    requires Good(s) && (s.phase.NewT? || s.phase.NewM?)
  {
    Adapt(s, bit).(phase := Four(s.phase, s.phase.n - 1, 2 * s.phase.j + Value(bit)))
  }

  lemma OfFourNext(now: Call, s: Call, n: nat, j: nat, bit: bool)
    requires OfFour(now, s, n, j) && n > 0 && Good(s)
    ensures OfFour(now, OneFewer(s, bit), n - 1, 2 * j + Value(bit)) && Step(s, bit) == AfterFour(OneFewer(s, bit))
  {
    hide Fits, GoodModels, Limit, Recounted, Reset;
  }

  // ---- runs ----

  /** Any bit brings the end nearer. */
  lemma StepNearer(c: Call, bit: bool)
    requires Good(c) && !Final(c)
    ensures 0 <= BitsLeft(Step(c, bit)) < BitsLeft(c)
  {
  }

  function Run(c: Call, bits: seq<bool>): (r: Call)
    requires Good(c)
    ensures Good(r)
    decreases |bits|
  {
    if bits == [] then c else Run(Step(c, bits[0]), bits[1..])
  }

  lemma {:induction false} RunOn(c: Call, a: seq<bool>, b: seq<bool>)
    requires Good(c)
    ensures Run(c, a + b) == Run(Run(c, a), b)
    decreases |a|
  {
    if a == [] {
      assert a + b == b;
    } else {
      assert (a + b)[1..] == a[1..] + b;
      RunOn(Step(c, a[0]), a[1..], b);
    }
  }

  // ---- the bits so far as a model ----

  function NextProb(c: Call): prob
    requires Good(c)
  {
    if Final(c) then 1 else c.tab[At(c)]
  }

  /** The probability of each bit, from the tables and all bits taken before it. */
  function History(c: Call): seq<bool> -> prob
    requires Good(c)
  {
    (hist: seq<bool>) => NextProb(Run(c, hist))
  }

  /** At each of the bits the call still asks for one. */
  ghost predicate Asks(c: Call, bits: seq<bool>)
    requires Good(c)
    decreases |bits|
  {
    bits == [] || (!Final(c) && Asks(Step(c, bits[0]), bits[1..]))
  }

  /** The bits bring the call to its end, and no sooner than with the last of them. */
  ghost predicate Complete(c: Call, bits: seq<bool>)
    requires Good(c)
  {
    Asks(c, bits) && Final(Run(c, bits))
  }

  lemma {:induction false} AsksAtMost(c: Call, bits: seq<bool>)
    requires Good(c) && Asks(c, bits)
    ensures |bits| <= Max(BitsLeft(c), 0)
    decreases |bits|
  {
    if bits != [] {
      StepNearer(c, bits[0]);
      AsksAtMost(Step(c, bits[0]), bits[1..]);
    }
  }

  lemma {:induction false} AsksConcat(c: Call, a: seq<bool>, b: seq<bool>)
    requires Good(c)
    ensures Asks(c, a + b) <==> Asks(c, a) && Asks(Run(c, a), b)
    decreases |a|
  {
    if a == [] {
      assert a + b == b;
    } else {
      assert (a + b)[1..] == a[1..] + b;
      AsksConcat(Step(c, a[0]), a[1..], b);
    }
  }

  /** From `start` the decoder takes just these bits for the call, each cut by its probability, and stands at `end`. */
  ghost predicate Taken(rmsk: nat, start: Coder, c: Call, bits: seq<bool>, end: Coder)
    requires Good(c)
  {
    Asks(c, bits) && Decode(start, rmsk, History(c), [], |bits|) == Some((bits, end))
  }

  lemma RunOne(c: Call, bits: seq<bool>, bit: bool)
    requires Good(c)
    ensures Run(c, bits + [bit]) == Step(Run(c, bits), bit)
  {
    RunOn(c, bits, [bit]);
    assert [bit][1..] == [];
  }

  lemma TakenOne(rmsk: nat, start: Coder, c: Call, bits: seq<bool>, mid: Coder, bit: bool, end: Coder)
    requires Good(c) && Taken(rmsk, start, c, bits, mid) && !Final(Run(c, bits))
    requires DecodeBit(mid, rmsk, NextProb(Run(c, bits))) == Some((bit, end))
    ensures Taken(rmsk, start, c, bits + [bit], end)
  {
    AsksConcat(c, bits, [bit]);
    assert [bit][1..] == [] && [] + bits == bits;
    assert History(c)(bits) == NextProb(Run(c, bits));
    DecodeOneMore(start, rmsk, History(c), [], bits, mid, bit, end);
  }

  /** What a stream gives a call is determined: of two runs to the end neither goes on beyond the other. */
  lemma CompleteIsUnique(rmsk: nat, start: Coder, c: Call, bits: seq<bool>, end: Coder, bits': seq<bool>, end': Coder)
    requires Good(c) && Complete(c, bits) && Complete(c, bits')
    requires Taken(rmsk, start, c, bits, end) && Taken(rmsk, start, c, bits', end')
    ensures bits == bits' && end == end'
  {
    if |bits| <= |bits'| {
      DecodeFewer(start, rmsk, History(c), [], bits, end, bits', end');
      NoFurther(c, bits, bits');
    } else {
      DecodeFewer(start, rmsk, History(c), [], bits', end', bits, end);
      NoFurther(c, bits', bits);
    }
  }

  lemma NoFurther(c: Call, bits: seq<bool>, bits': seq<bool>)
    requires Good(c) && Complete(c, bits) && Asks(c, bits') && bits <= bits'
    ensures bits == bits'
  {
    assert bits' == bits + bits'[|bits|..];
    AsksConcat(c, bits, bits'[|bits|..]);
  }

  /** A call takes just the bits in whose interval the code and the bytes after it lie, changes of models included. */
  lemma CallIsInterval(rmsk: nat, start: Coder, c: Call, bits: seq<bool>, end: Coder)
    requires Ok(start) && GoodMask(rmsk) && Good(c) && Complete(c, bits)
    ensures Taken(rmsk, start, c, bits, end)
            <==> Ok(end) && Leaves(start, Interval(start.range, rmsk, History(c), [], bits), end)
  {
    DecodeIffInInterval(start, rmsk, History(c), bits, end);
  }

  /** Whatever complete run is encoded, a call takes exactly it from the stream, and exactly its bytes. */
  lemma CallRoundTrip(rmsk: nat, range: nat, c: Call, bits: seq<bool>, rest: seq<byte>, taken: seq<bool>, end: Coder)
    requires 0 < range < WORD && GoodMask(rmsk) && Good(c) && Complete(c, bits) && Complete(c, taken)
    ensures var e := Encode(range, rmsk, History(c), bits);
            e.high < range && (Taken(rmsk, Coder(range, e.high, e.bytes + rest), c, taken, end) ==> taken == bits && end.src == rest)
    ensures var e := Encode(range, rmsk, History(c), bits);
            exists end: Coder :: Taken(rmsk, Coder(range, e.high, e.bytes + rest), c, bits, end)
  {
    var e := Encode(range, rmsk, History(c), bits);
    var start := Coder(range, e.high, e.bytes + rest);
    RoundTrip(range, rmsk, History(c), bits, rest);
    var r := Decode(start, rmsk, History(c), [], |bits|).value.1;
    assert Taken(rmsk, start, c, bits, r);
    if Taken(rmsk, start, c, taken, end) {
      CompleteIsUnique(rmsk, start, c, bits, r, taken, end);
    }
  }

  // ---- where the call's number lies ----

  /** The leaves below prefix j with n bits to go are among those below j0 with count bits to go. */
  ghost predicate Below(j: nat, n: nat, j0: nat, count: nat) {
    Shl(j0, count) <= Shl(j, n) && Shl(j + 1, n) <= Shl(j0 + 1, count)
  }

  lemma BelowStep(j: nat, n: nat, j0: nat, count: nat, bit: bool)
    requires n > 0 && Below(j, n, j0, count)
    ensures Below(2 * j + Value(bit), n - 1, j0, count)
  {
    ShlOut(j, n);
    ShlOut(j + 1, n);
    ShlMonotone(2 * j, 2 * j + Value(bit), n - 1);
    ShlMonotone(2 * j + Value(bit) + 1, 2 * (j + 1), n - 1);
  }

  lemma {:induction false} ShlOut(x: nat, k: nat)
    requires k > 0
    ensures Shl(x, k) == Shl(2 * x, k - 1)
  {
    if k > 1 { ShlOut(x, k - 1); }
  }

  lemma {:induction false} ShlUp(x: nat, k: nat)
    ensures Shl(x, k) >= x
  {
    if k > 0 { ShlUp(x, k - 1); }
  }

  /** A call keeps to its own entries when its code tree lies before the tables for changes or after them. */
  lemma {:induction false} FitsWhen(words: nat, root: int, j: nat, n: nat, nm: nat, b: nat)
    requires n > 0 ==> var top := root + Shl(j + 1, n - 1);
                       0 <= root + j && top <= words && (top <= FCHGPRM || LIT <= root + j) && b + n <= 32
    ensures Fits(words, root, j, n, nm, b)
    decreases n
  {
    if n > 0 {
      ShlUp(j + 1, n - 1);
      forall bit: bool ensures Fits(words, root, 2 * j + Value(bit), n - 1, nm, NextModel(n, nm, b)) {
        if n > 1 {
          ShlOut(j + 1, n - 1);
          ShlMonotone(2 * j + Value(bit) + 1, 2 * (j + 1), n - 2);
        }
        FitsWhen(words, root, 2 * j + Value(bit), n - 1, nm, NextModel(n, nm, b));
      }
    }
  }

  lemma {:induction false} RunBelow(c: Call, bits: seq<bool>, j0: nat, count: nat)
    requires Good(c) && Below(c.j, c.n, j0, count)
    ensures Below(Run(c, bits).j, Run(c, bits).n, j0, count)
    decreases |bits|
  {
    if bits != [] {
      if c.phase.Own? { BelowStep(c.j, c.n, j0, count, bits[0]); }
      RunBelow(Step(c, bits[0]), bits[1..], j0, count);
    }
  }

  lemma BelowSelf(j: nat, n: nat)
    ensures Below(j, n, j, n)
  {
  }

  /** A call that is done has a number of as many bits below its first prefix as it was asked for. */
  lemma DoneInRange(c: Call, bits: seq<bool>)
    requires Good(c) && Run(c, bits).phase.Done?
    ensures Shl(c.j, c.n) <= Run(c, bits).j < Shl(c.j + 1, c.n)
  {
    hide Below, Fits, GoodModels;
    var end := Run(c, bits);
    BelowSelf(c.j, c.n);
    RunBelow(c, bits, c.j, c.n);
    BelowLeaf(end.j, c.j, c.n);
  }

  lemma BelowLeaf(j: nat, j0: nat, count: nat)
    requires Below(j, 0, j0, count)
    ensures Shl(j0, count) <= j < Shl(j0 + 1, count)
  {
  }
}
