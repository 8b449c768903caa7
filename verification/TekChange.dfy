/** What a call makes of its bits: its number, and what a change of model in its midst sets. */
module TekChange {
  import opened Basics
  import opened Bits
  import opened TekNumbers
  import opened RangeCoder
  import opened TekModels
  import opened TekCall

  /** Where the next bit's probability is, and under which model it adapts, by the layout of the probability structure. */
  lemma WhereBitsAre(c: Call)
    requires Good(c) && !Final(c)
    ensures c.phase.Own? ==> At(c) == c.root + c.j && ModelAt(c) == c.b
    ensures c.phase.Flag? ==> At(c) == 2063 && ModelAt(c) == 3
    ensures c.phase.Keep? ==> At(c) == 1967 + 2 * c.b + c.bms[c.b].s && ModelAt(c) == 1
    ensures c.phase.NewT? ==> At(c) == 2030 + c.phase.j && ModelAt(c) == 2
    ensures c.phase.NewM? ==> At(c) == 2046 + c.phase.j && ModelAt(c) == 2
  {
  }

  /** A grouping mask of i ones moves on to the next model whenever the bits still to go are a multiple of 2^i. */
  lemma ModelMoves(n: nat, i: nat, b: nat)
    requires n > 0
    ensures NextModel(n, Ones(i), b) == if Shl(Shr(n - 1, i), i) == n - 1 then b + 1 else b
  {
    LowBits(n - 1, i);
  }

  // ---- the number ----

  /** Those of the bits that are the call's own. */
  function OwnBits(c: Call, bits: seq<bool>): seq<bool>
    requires Good(c)
    decreases |bits|
  {
    if bits == [] then []
    else
      var more := OwnBits(Step(c, bits[0]), bits[1..]);
      if c.phase.Own? then [bits[0]] + more else more
  }

  /** Further bits after a prefix, most significant first. */
  function Number(j: nat, bits: seq<bool>): nat
    decreases |bits|
  {
    if bits == [] then j else Number(2 * j + Value(bits[0]), bits[1..])
  }

  lemma {:induction false} NumberBits(j: nat, bits: seq<bool>)
    ensures Shr(Number(j, bits), |bits|) == j
    ensures forall k :: 0 <= k < |bits| ==> (Shr(Number(j, bits), |bits| - 1 - k) % 2 == 1 <==> bits[k])
    decreases |bits|
  {
    if bits != [] {
      var n, j' := |bits| - 1, 2 * j + Value(bits[0]);
      NumberBits(j', bits[1..]);
      ShrSplit(Number(j, bits), n, 1);
      forall k | 0 <= k < |bits| ensures Shr(Number(j, bits), n - k) % 2 == 1 <==> bits[k] {
        if k > 0 {
          assert bits[k] == bits[1..][k - 1];
        }
      }
    }
  }

  lemma {:induction false} OwnNumber(c: Call, bits: seq<bool>) returns (r: Call, own: seq<bool>)
    requires Good(c)
    ensures r == Run(c, bits) && own == OwnBits(c, bits)
    ensures r.j == Number(c.j, own) && r.n + |own| == c.n
    decreases |bits|
  {
    hide Step;
    if bits == [] {
      r, own := c, [];
    } else {
      OwnStep(c, bits[0]);
      RunFirst(c, bits);
      var more;
      r, more := OwnNumber(Step(c, bits[0]), bits[1..]);
      if c.phase.Own? {
        NumberFirst(c.j, bits[0], more);
        own := [bits[0]] + more;
      } else {
        own := more;
      }
    }
  }

  lemma OwnStep(c: Call, bit: bool)
    requires Good(c)
    ensures Step(c, bit).j == (if c.phase.Own? then 2 * c.j + Value(bit) else c.j)
    ensures Step(c, bit).n == (if c.phase.Own? then c.n - 1 else c.n)
  {
  }

  lemma NumberFirst(j: nat, bit: bool, more: seq<bool>)
    ensures Number(j, [bit] + more) == Number(2 * j + Value(bit), more)
  {
    assert ([bit] + more)[1..] == more;
  }

  /** The number of a call that is done is its prefix followed by its own bits, most significant first. */
  lemma NumberOfCall(c: Call, bits: seq<bool>)
    requires Good(c) && Run(c, bits).phase.Done?
    ensures var j, own := Run(c, bits).j, OwnBits(c, bits);
            && |own| == c.n && Shr(j, |own|) == c.j
            && forall k :: 0 <= k < |own| ==> (Shr(j, |own| - 1 - k) % 2 == 1 <==> own[k])
  {
    var r, own := OwnNumber(c, bits);
    DoneHasNone(r);
    NumberBits(c.j, own);
  }

  lemma DoneHasNone(c: Call)
    requires Good(c) && c.phase.Done?
    ensures c.n == 0
  {
  }

  // ---- the change of a model, step by step ----

  /** Where the call stands at u with its model changed: the words for changes and the model are new, all else is as it was. */
  ghost predicate Settled(now: Call, u: Call) {
    now.n > 0 && Placed(u) && u == now.(tab := u.tab, bms := u.bms, phase := Own) && Apart(now.tab, u.tab)
  }

  /** The same with t and m still to come. */
  ghost predicate Renewing(now: Call, s: Call) {
    Good(s) && s == now.(tab := s.tab, bms := s.bms, phase := NewT(4, 1)) && Apart(now.tab, s.tab)
  }

  lemma SettledOn(now: Call, mid: Call, u: Call)
    requires mid == now.(tab := mid.tab, bms := mid.bms, phase := mid.phase) && Apart(now.tab, mid.tab)
    ensures Settled(mid, u) ==> Settled(now, u)
    ensures Renewing(mid, u) ==> Renewing(now, u)
  {
  }

  lemma KeepParts(now: Call, keep: bool)
    requires Good(now) && now.phase.Keep?
    ensures var s := Kept(Adapt(now, keep), keep);
            Renewing(now, s) && Settled(now, Recounted(s)) && Step(now, keep) == if keep then Limit(Recounted(s)) else s
  {
    var c := Adapt(now, keep);
    SetModel(c.bms, c.b, c.bms[c.b].(s := Value(keep)));
    RecountedIsGood(Kept(c, keep));
  }

  lemma ResetIsPlaced(s: Call, t: nat, m: nat)
    requires Placed(s) && 4 <= s.b < 32 && t < 15 && 1 <= m <= 16
    ensures Placed(Reset(s, t, m))
  {
    SetBm5IsGood(s.bms[s.b], t, m);
    SetModel(s.bms, s.b, SetBm5(s.bms[s.b], t, m));
  }

  lemma TParts(now: Call, s: Call, j: nat)
    requires OfFour(now, s, 0, j) && now.phase == NewT(4, 1)
    ensures Good(AfterFour(s))
    ensures AfterFour(s) == now.(tab := s.tab, phase := if j % 16 == 15 then Failed else NewM(j % 16, 4, 1))
  {
    AfterFourIsGood(s);
  }

  lemma AnewParts(now: Call, mid: Call, s: Call, t: nat, m: nat, j: nat)
    requires OfFour(mid, s, 0, j) && mid.phase == NewM(t, 4, 1) && t < 15 && m == (j - 1) % 16 + 1
    requires now.n > 0 && mid == now.(tab := mid.tab, phase := mid.phase) && Apart(now.tab, mid.tab)
    ensures var u := Recounted(Reset(s, t, m)); Settled(now, u) && AfterFour(s) == Limit(u)
  {
    ResetIsPlaced(s, t, m);
    RecountedIsGood(Reset(s, t, m));
  }

  // ---- and as a whole ----

  /** Everything but the tables for changes, the model and the own word is as it was. */
  ghost predicate OnlyChanged(c: Call, u: Call) {
    && Placed(u) && |c.bms| == 32 && |u.tab| == |c.tab| && (forall k :: 0 <= k < 32 && k != c.b ==> u.bms[k] == c.bms[k])
    && (u.root, u.j, u.n, u.nm, u.b) == (c.root, c.j, c.n, c.nm, c.b)
    && forall k :: 0 <= k < |c.tab| && !ForChanges(k) && k != c.root + c.j ==> u.tab[k] == c.tab[k]
  }

  /** The own word has been limited by the model as it now is. */
  ghost predicate OwnLimited(c: Call, u: Call) {
    && 0 <= c.root + c.j < |c.tab| == |u.tab| && c.b < |u.bms| == |c.bms| && GoodModel(u.bms[c.b])
    && u.tab[c.root + c.j] == Limited(u.bms[c.b], c.tab[c.root + c.j])
  }

  /** A 0 asks for something else than t and m: the call fails. */
  lemma ChangeRefused(c: Call)
    requires Good(c) && c.phase.Flag?
    ensures Run(c, [false]).phase.Failed?
  {
    assert [false][1..] == [];
  }

  /** 1 and 1: t and m stay, the model counts anew and remembers that they stayed. */
  lemma ChangeKept(c: Call)
    requires Good(c) && c.phase.Flag?
    ensures var u := Run(c, [true, true]);
            && u.phase.Own? && OnlyChanged(c, u) && OwnLimited(c, u)
            && u.bms[c.b] == c.bms[c.b].(s := 1, lt := c.bms[c.b].lt0)
  {
    hide OnlyChanged, OwnLimited, Limit;
    var c1 := Step(c, true);
    RunTwo(c, true, true);
    KeepParts(c1, true);
    ChangeEnds(c, c1, Recounted(Kept(Adapt(c1, true), true)));
  }

  /** The limiting that ends a change, seen from its beginning. */
  lemma ChangeEnds(c: Call, now: Call, r: Call)
    requires Good(c) && c.n > 0 && Settled(now, r) && Apart(c.tab, now.tab)
    requires now == c.(tab := now.tab, bms := now.bms, phase := now.phase)
    requires |r.bms| == 32 && forall k :: 0 <= k < 32 && k != c.b ==> r.bms[k] == c.bms[k]
    ensures Placed(r) && r.n > 0 && Placed(Limit(r)) && Limit(r).phase.Own? && Limit(r).bms == r.bms
    ensures OnlyChanged(c, Limit(r)) && OwnLimited(c, Limit(r))
  {
  }

  lemma RunTwo(c: Call, a: bool, b: bool)
    requires Good(c)
    ensures Run(c, [a, b]) == Step(Step(c, a), b)
  {
    RunOne(c, [], a);
    RunOne(c, [a], b);
    assert [] + [a] == [a] && [a] + [b] == [a, b];
  }

  lemma FourNext(now: Call, s: Call, n: nat, j: nat, bit: bool) returns (s': Call)
    requires Good(now) && OfFour(now, s, n, j) && n > 0 && Good(s)
    ensures OfFour(now, s', n - 1, 2 * j + Value(bit)) && Step(s, bit) == AfterFour(s')
    ensures n > 1 ==> Good(s') && AfterFour(s') == s' == Step(s, bit)
  {
    OfFourNext(now, s, n, j, bit);
    s' := OneFewer(s, bit);
  }

  lemma RunFirst(c: Call, bits: seq<bool>)
    requires Good(c) && bits != []
    ensures Run(c, bits) == Run(Step(c, bits[0]), bits[1..]) && (|bits| == 1 ==> Run(c, bits) == Step(c, bits[0]))
  {
  }

  /** The last n of four bits, after prefix j; r is the machine after them. */
  ghost predicate FourTaken(now: Call, s: Call, n: nat, j: nat, bits: seq<bool>, r: Call, s': Call, j': nat)
    requires Good(s)
  {
    Run(s, bits) == r && Number(j, bits) == j' && OfFour(now, s', 0, j') && r == AfterFour(s')
  }

  lemma FourLast(now: Call, s: Call, j: nat, bits: seq<bool>) returns (r: Call, s': Call, j': nat)
    requires Good(now) && OfFour(now, s, 1, j) && Good(s) && |bits| == 1
    ensures FourTaken(now, s, 1, j, bits, r, s', j')
  {
    s' := FourNext(now, s, 1, j, bits[0]);
    r, j' := Step(s, bits[0]), 2 * j + Value(bits[0]);
    assert bits == [bits[0]] + [];
    NumberFirst(j, bits[0], []);
    RunFirst(s, bits);
  }

  lemma FourMore(now: Call, s: Call, n: nat, j: nat, bits: seq<bool>, next: Call, r: Call, s': Call, j': nat)
    requires Good(s) && Good(next) && |bits| == n > 1 && next == Step(s, bits[0])
    requires FourTaken(now, next, n - 1, 2 * j + Value(bits[0]), bits[1..], r, s', j')
    ensures FourTaken(now, s, n, j, bits, r, s', j')
  {
    RunFirst(s, bits);
  }

  lemma {:induction false} FourRun(now: Call, s: Call, n: nat, j: nat, bits: seq<bool>) returns (r: Call, s': Call, j': nat)
    requires Good(now) && OfFour(now, s, n, j) && n > 0 && Good(s) && |bits| == n
    ensures FourTaken(now, s, n, j, bits, r, s', j')
    decreases n
  {
    hide Step, AfterFour;
    if n == 1 {
      r, s', j' := FourLast(now, s, j, bits);
    } else {
      var next := FourNext(now, s, n, j, bits[0]);
      r, s', j' := FourRun(now, next, n - 1, 2 * j + Value(bits[0]), bits[1..]);
      FourMore(now, s, n, j, bits, next, r, s', j');
    }
  }

  lemma {:induction false} NumberFrom(j: nat, bits: seq<bool>)
    ensures Number(j, bits) == Shl(j, |bits|) + Number(0, bits) && Number(0, bits) < Shl(1, |bits|)
    decreases |bits|
  {
    if bits != [] {
      var n, v := |bits| - 1, Value(bits[0]);
      NumberFrom(2 * j + v, bits[1..]);
      NumberFrom(v, bits[1..]);
      ShlPlus(2 * j, v, n);
      ShlOut(j, n + 1);
    }
  }

  lemma FourNumber(bits: seq<bool>)
    requires |bits| == 4
    ensures Number(1, bits) == 16 + Number(0, bits) && Number(0, bits) < 16
  {
    NumberFrom(1, bits);
    ShlFour(1);
  }

  lemma ChangeToNew(c: Call) returns (now: Call)
    requires Good(c) && c.phase.Flag?
    ensures now == Run(c, [true, false]) && Renewing(c, now) && now.bms == c.bms[c.b := c.bms[c.b].(s := 0)]
  {
    var c1 := Step(c, true);
    RunTwo(c, true, false);
    KeepParts(c1, false);
    now := Step(c1, false);
  }

  /** 1, 0 and four bits for t, which if they are all 1 fail the call. */
  lemma ChangeToT(c: Call, t: seq<bool>) returns (mid: Call)
    requires Good(c) && c.phase.Flag? && |t| == 4
    ensures Run(c, [true, false] + t) == mid && Good(mid) && Apart(c.tab, mid.tab)
    ensures mid == c.(tab := mid.tab, bms := c.bms[c.b := c.bms[c.b].(s := 0)], phase := mid.phase)
    ensures mid.phase == if Number(0, t) == 15 then Failed else NewM(Number(0, t), 4, 1)
  {
    var now := ChangeToNew(c);
    RunOn(c, [true, false], t);
    FourNumber(t);
    mid := NewT4(now, t);
  }

  lemma NewT4(now: Call, t: seq<bool>) returns (mid: Call)
    requires Good(now) && now.phase == NewT(4, 1) && |t| == 4 && Number(1, t) == 16 + Number(0, t) && Number(0, t) < 16
    ensures mid == Run(now, t) && Good(mid) && Apart(now.tab, mid.tab)
    ensures mid == now.(tab := mid.tab, phase := if Number(0, t) == 15 then Failed else NewM(Number(0, t), 4, 1))
  {
    hide Step, Fits, GoodModels;
    var s, j;
    mid, s, j := FourRun(now, now, 4, 1, t);
    TParts(now, s, j);
  }

  /** And four more for m, 0 standing for 16: the model gets its new t and m and counts anew. */
  lemma ChangeAnew(c: Call, t: seq<bool>, m: seq<bool>)
    requires Good(c) && c.phase.Flag? && |t| == |m| == 4
    ensures Number(0, t) < 16 && Number(0, m) < 16
    ensures Number(0, t) == 15 ==> Run(c, [true, false] + t).phase.Failed?
    ensures Number(0, t) < 15 ==>
              var u := Run(c, [true, false] + t + m);
              && u.phase.Own? && OnlyChanged(c, u) && OwnLimited(c, u)
              && u.bms[c.b] == SetBm5(c.bms[c.b].(s := 0), Number(0, t), if Number(0, m) > 0 then Number(0, m) else 16).(lt := c.bms[c.b].lt0)
  {
    var mid := ChangeToT(c, t);
    FourNumber(t);
    FourNumber(m);
    if Number(0, t) < 15 {
      RunOn(c, [true, false] + t, m);
      ChangeToM(c, mid, Number(0, t), m);
    }
  }

  lemma SixteenForNone(j: nat, v: nat)
    requires j == 16 + v && v < 16
    ensures (j - 1) % 16 + 1 == if v > 0 then v else 16
  {
  }

  lemma ChangeToM(c: Call, mid: Call, t: nat, m: seq<bool>)
    requires Good(c) && c.n > 0 && Good(mid) && Apart(c.tab, mid.tab) && mid.phase == NewM(t, 4, 1) && t < 15 && |m| == 4
    requires mid == c.(tab := mid.tab, bms := c.bms[c.b := c.bms[c.b].(s := 0)], phase := mid.phase)
    ensures var u := Run(mid, m);
            && u.phase.Own? && OnlyChanged(c, u) && OwnLimited(c, u) && Number(0, m) < 16
            && u.bms[c.b] == SetBm5(c.bms[c.b].(s := 0), t, if Number(0, m) > 0 then Number(0, m) else 16).(lt := c.bms[c.b].lt0)
  {
    assert c.b < 32 == |c.bms|;
    hide Fits, GoodModels, SetBm5, OnlyChanged, OwnLimited;
    var s := NewM4(mid, t, m);
    var v := if Number(0, m) > 0 then Number(0, m) else 16;
    AnewModel(c, mid, s, t, v);
    ChangeEnds(c, mid, Recounted(Reset(s, t, v)));
  }

  lemma NewM4(mid: Call, t: nat, m: seq<bool>) returns (s: Call)
    requires Good(mid) && mid.n > 0 && mid.phase == NewM(t, 4, 1) && |m| == 4
    ensures Number(0, m) < 16 && s.b == mid.b < |s.bms| && s.bms == mid.bms
    ensures var u := Recounted(Reset(s, t, if Number(0, m) > 0 then Number(0, m) else 16));
            Settled(mid, u) && Run(mid, m) == Limit(u)
  {
    assert mid.b < 32 == |mid.bms|;
    hide Step, Fits, GoodModels, SetBm5;
    var r, j;
    r, s, j := FourRun(mid, mid, 4, 1, m);
    FourNumber(m);
    SixteenForNone(j, Number(0, m));
    AnewParts(mid, mid, s, t, (j - 1) % 16 + 1, j);
  }

  lemma AnewModel(c: Call, mid: Call, s: Call, t: nat, m: nat)
    requires |c.bms| == 32 && c.b < 32 && s.b == c.b && t < 15 && 1 <= m <= 16
    requires s.bms == mid.bms == c.bms[c.b := c.bms[c.b].(s := 0)]
    ensures var r := Recounted(Reset(s, t, m)).bms;
            && |r| == 32 && (forall k :: 0 <= k < 32 && k != c.b ==> r[k] == c.bms[k])
            && r[c.b] == SetBm5(c.bms[c.b].(s := 0), t, m).(lt := c.bms[c.b].lt0)
  {
    SetBm5Limits(c.bms[c.b].(s := 0), t, m);
  }
}
