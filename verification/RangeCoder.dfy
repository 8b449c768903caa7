/**
 * The binary range decoder of the tek5 format, bit by bit, and the interval encoder that it undoes.
 * A model is any function that gives the probability of the next bit from the bits so far.
 */
module RangeCoder {
  import opened Basics
  import opened Bits
  import opened TekNumbers

  const TOP: nat := 0x100_0000

  /** A 16-bit probability that is neither 0 nor 1. */
  type prob = x: int | 0 < x < 0x1_0000 witness 1

  datatype Coder = Coder(range: nat, code: nat, src: seq<byte>)

  predicate Ok(c: Coder) { 0 <= c.code < c.range < WORD }

  /** A mask on the range that keeps its upper bits. */
  ghost predicate GoodMask(rmsk: nat) {
    forall r :: TOP <= r < WORD ==> TOP <= And(r, rmsk) <= r
  }

  /** Where the range is cut: below is bit 1. The product is 64 bits wide in C. */
  function Cut(range: nat, rmsk: nat, p: prob): nat {
    And(range, rmsk) * p / 0x1_0000
  }

  /** The refill loop; None when the bytes run out. */
  function Refill(c: Coder): Option<Coder>
    decreases |c.src|
  {
    if c.range >= TOP then Some(c)
    else if c.src == [] then None
    else Refill(Coder(Shl(c.range, 8), Or(Shl(c.code, 8), c.src[0]), c.src[1..]))
  }

  /** One bit. */
  function DecodeBit(c: Coder, rmsk: nat, p: prob): Option<(bool, Coder)> {
    match Refill(c)
    case None => None
    case Some(c') =>
      var i := Cut(c'.range, rmsk, p);
      if c'.code < i then Some((true, Coder(i, c'.code, c'.src)))
      else if c'.range >= i then Some((false, Coder(c'.range - i, c'.code - i, c'.src)))
      else None
  }

  /** n bits, each with the probability that the model gives for the bits before it. */
  function Decode(c: Coder, rmsk: nat, model: seq<bool> -> prob, hist: seq<bool>, n: nat): Option<(seq<bool>, Coder)>
    decreases n
  {
    if n == 0 then Some(([], c))
    else match DecodeBit(c, rmsk, model(hist))
      case None => None
      case Some((bit, c')) =>
        match Decode(c', rmsk, model, hist + [bit], n - 1)
        case None => None
        case Some((bits, c'')) => Some(([bit] + bits, c''))
  }

  // ---- the cut ----

  lemma ProductBounds(a: nat, r: nat, p: prob)
    requires TOP <= a <= r
    ensures 256 <= a * p / 0x1_0000 && a * p / 0x1_0000 + 256 <= r
  {
    assert a * p >= a;
    assert a * p <= a * 0xffff;
  }

  /** Both parts of a cut range keep at least 256, so two refills are enough. */
  lemma CutBounds(range: nat, rmsk: nat, p: prob)
    requires GoodMask(rmsk) && TOP <= range < WORD
    ensures 256 <= Cut(range, rmsk, p) && Cut(range, rmsk, p) + 256 <= range
  {
    ProductBounds(And(range, rmsk), range, p);
  }

  /** Side 1 has the share p / 2^16 of the masked range, to the next number below, so it is no narrower for a larger p. */
  lemma CutShare(range: nat, rmsk: nat, p: prob, q: prob)
    ensures 0x1_0000 * Cut(range, rmsk, p) <= And(range, rmsk) * p < 0x1_0000 * (Cut(range, rmsk, p) + 1)
    ensures p <= q ==> Cut(range, rmsk, p) <= Cut(range, rmsk, q)
  {
    if p <= q {
      ProductGrows(And(range, rmsk), p, q);
    }
  }

  lemma ProductGrows(a: nat, p: nat, q: nat)
    requires p <= q
    ensures a * p <= a * q
  {
  }

  lemma RefillStep(code: nat, b: byte)
    ensures Or(Shl(code, 8), b) == 256 * code + b
  {
    ShrBound(b, 8);
    ShlEight(1);
    ShlEight(code);
    OrIsSum(code, 8, b);
  }

  function Lift(x: nat, k: nat): nat
    decreases k
  {
    if k == 0 then x else Lift(256 * x, k - 1)
  }

  /** How many refills a range needs. */
  function Refills(range: nat): nat
    requires range > 0
    decreases TOP - range
  {
    if range >= TOP then 0 else 1 + Refills(256 * range)
  }

  /** The number made of a code and further bytes. */
  function Val(code: nat, bytes: seq<byte>): nat
    decreases |bytes|
  {
    if bytes == [] then code else Val(256 * code + bytes[0], bytes[1..])
  }

  /** The refill loop shifts range and code by as many bytes as the range needs, and keeps within 32 bits. */
  lemma {:induction false} RefillShifts(c: Coder)
    requires Ok(c) && |c.src| >= Refills(c.range)
    ensures var k := Refills(c.range);
            && Refill(c) == Some(Coder(Lift(c.range, k), Val(c.code, c.src[..k]), c.src[k..]))
            && TOP <= Lift(c.range, k) < WORD && Val(c.code, c.src[..k]) < Lift(c.range, k)
    decreases |c.src|
  {
    if c.range < TOP {
      ShlEight(c.range);
      RefillStep(c.code, c.src[0]);
      var c' := Coder(256 * c.range, 256 * c.code + c.src[0], c.src[1..]);
      RefillShifts(c');
      var k := Refills(c.range);
      assert c.src[..k][1..] == c'.src[..k - 1];
      assert c.src[k..] == c'.src[k - 1..];
    } else {
      assert c.src[..0] == [] && c.src[0..] == c.src;
    }
  }

  /**
   * One bit in numbers: code and range take the bytes that the range needs; below the cut the bit is 1 and what is
   * below stays, from the cut on it is 0 and what is above stays.
   */
  lemma DecodeBitIs(c: Coder, rmsk: nat, p: prob)
    requires Ok(c) && GoodMask(rmsk) && |c.src| >= Refills(c.range)
    ensures var k := Refills(c.range);
            var wide, number, cut := Lift(c.range, k), Val(c.code, c.src[..k]), And(Lift(c.range, k), rmsk) * p / 0x1_0000;
            && (number < cut ==> DecodeBit(c, rmsk, p) == Some((true, Coder(cut, number, c.src[k..]))))
            && (number >= cut ==> cut <= wide && DecodeBit(c, rmsk, p) == Some((false, Coder(wide - cut, number - cut, c.src[k..]))))
  {
    RefillShifts(c);
    CutBounds(Lift(c.range, Refills(c.range)), rmsk, p);
  }

  /** From any range that a cut can leave, two refills reach the top. */
  lemma TwoRefills(range: nat)
    requires range >= 256
    ensures Refills(range) <= 2
  {
    if range < TOP && 256 * range < TOP {
      assert Refills(256 * (256 * range)) == 0;
    }
  }

  // ---- numbers in base 256 ----

  lemma {:induction false} LiftMonotone(x: nat, y: nat, k: nat)
    requires x <= y
    ensures Lift(x, k) <= Lift(y, k)
    ensures x < y ==> Lift(x, k) < Lift(y, k)
    decreases k
  {
    if k > 0 {
      LiftMonotone(256 * x, 256 * y, k - 1);
    }
  }

  lemma {:induction false} LiftSum(x: nat, y: nat, k: nat)
    ensures Lift(x + y, k) == Lift(x, k) + Lift(y, k)
    decreases k
  {
    if k > 0 {
      LiftSum(256 * x, 256 * y, k - 1);
    }
  }

  lemma {:induction false} LiftLift(x: nat, j: nat, k: nat)
    ensures Lift(Lift(x, j), k) == Lift(x, j + k)
    decreases j
  {
    if j > 0 {
      LiftLift(256 * x, j - 1, k);
    }
  }

  lemma {:induction false} ValBounds(code: nat, bytes: seq<byte>)
    ensures Lift(code, |bytes|) <= Val(code, bytes) < Lift(code + 1, |bytes|)
    decreases |bytes|
  {
    if bytes != [] {
      ValBounds(256 * code + bytes[0], bytes[1..]);
      LiftMonotone(256 * code, 256 * code + bytes[0], |bytes| - 1);
      LiftMonotone(256 * code + bytes[0] + 1, 256 * (code + 1), |bytes| - 1);
    }
  }

  lemma {:induction false} ValMinus(code: nat, d: nat, bytes: seq<byte>)
    requires d <= code
    ensures Val(code - d, bytes) == Val(code, bytes) - Lift(d, |bytes|)
    decreases |bytes|
  {
    if bytes != [] {
      ValMinus(256 * code + bytes[0], 256 * d, bytes[1..]);
    }
  }

  lemma {:induction false} ValConcat(code: nat, a: seq<byte>, b: seq<byte>)
    ensures Val(code, a + b) == Val(Val(code, a), b)
    decreases |a|
  {
    if a == [] {
      assert a + b == b;
    } else {
      assert (a + b)[1..] == a[1..] + b;
      ValConcat(256 * code + a[0], a[1..], b);
    }
  }

  // ---- the interval encoder ----

  /** What a bit leaves of a range: it begins there, and is so wide. */
  datatype Side = Side(begin: nat, width: nat)

  /** The numbers that stand for some bits: from low on, so many, with so many bytes after the code. */
  datatype Numbers = Numbers(low: nat, width: nat, more: nat)

  function SideOf(range: nat, rmsk: nat, p: prob, bit: bool): (r: Side)
    requires 0 < range < WORD && GoodMask(rmsk)
    ensures 0 < r.width < WORD && r.begin + r.width <= Lift(range, Refills(range))
  {
    var wide := Lift(range, Refills(range));
    WideRange(range);
    CutBounds(wide, rmsk, p);
    var i := Cut(wide, rmsk, p);
    if bit then Side(0, i) else Side(i, wide - i)
  }

  /** The numbers for a bit and more: those for what follows the bit, moved to the bit's side of the cut. */
  function Prefixed(range: nat, rmsk: nat, p: prob, bit: bool, rest: Numbers): (r: Numbers)
    requires 0 < range < WORD && GoodMask(rmsk)
  {
    Numbers(Lift(SideOf(range, rmsk, p, bit).begin, rest.more) + rest.low, rest.width, Refills(range) + rest.more)
  }

  /** The interval of numbers that stand for the given bits, when coding starts at 0 with the given range. */
  function Interval(range: nat, rmsk: nat, model: seq<bool> -> prob, hist: seq<bool>, bits: seq<bool>): (r: Numbers)
    requires 0 < range < WORD && GoodMask(rmsk)
    ensures 0 < r.width < WORD
    decreases |bits|
  {
    if bits == [] then Numbers(0, range, 0)
    else
      var side := SideOf(range, rmsk, model(hist), bits[0]);
      Prefixed(range, rmsk, model(hist), bits[0], Interval(side.width, rmsk, model, hist + [bits[0]], bits[1..]))
  }

  lemma {:induction false} WideRange(range: nat)
    requires 0 < range < WORD
    ensures TOP <= Lift(range, Refills(range)) < WORD
    decreases TOP - range
  {
    if range < TOP {
      WideRange(256 * range);
    }
  }

  lemma DecodeFirst(c: Coder, rmsk: nat, model: seq<bool> -> prob, hist: seq<bool>, bits: seq<bool>, c': Coder, end: Coder)
    requires bits != [] && DecodeBit(c, rmsk, model(hist)) == Some((bits[0], c'))
    requires Decode(c', rmsk, model, hist + [bits[0]], |bits| - 1) == Some((bits[1..], end))
    ensures Decode(c, rmsk, model, hist, |bits|) == Some((bits, end))
  {
    assert bits == [bits[0]] + bits[1..];
  }

  lemma FirstAndRest(bit: bool, more: seq<bool>, bits: seq<bool>)
    requires bits != []
    ensures [bit] + more == bits <==> bit == bits[0] && more == bits[1..]
  {
    assert ([bit] + more)[1..] == more;
    assert bits == [bits[0]] + bits[1..];
  }

  lemma DecodeAhead(c: Coder, rmsk: nat, model: seq<bool> -> prob, hist: seq<bool>, bits: seq<bool>, bit: bool, c': Coder, end: Coder)
    requires bits != [] && DecodeBit(c, rmsk, model(hist)) == Some((bit, c'))
    ensures Decode(c, rmsk, model, hist, |bits|) == Some((bits, end))
            <==> bit == bits[0] && Decode(c', rmsk, model, hist + [bit], |bits| - 1) == Some((bits[1..], end))
  {
    var r := Decode(c', rmsk, model, hist + [bit], |bits| - 1);
    if r.Some? {
      FirstAndRest(bit, r.value.0, bits);
    }
  }

  lemma {:induction false} DecodeOneMore(c: Coder, rmsk: nat, model: seq<bool> -> prob, hist: seq<bool>, bits: seq<bool>,
                                         mid: Coder, bit: bool, end: Coder)
    requires Decode(c, rmsk, model, hist, |bits|) == Some((bits, mid))
    requires DecodeBit(mid, rmsk, model(hist + bits)) == Some((bit, end))
    ensures Decode(c, rmsk, model, hist, |bits| + 1) == Some((bits + [bit], end))
    decreases |bits|
  {
    if bits == [] {
      assert hist + bits == hist && bits + [bit] == [bit] && [bit][1..] == [];
      DecodeAhead(c, rmsk, model, hist, [bit], bit, end, end);
    } else {
      var one := DecodeBit(c, rmsk, model(hist)).value;
      DecodeAhead(c, rmsk, model, hist, bits, one.0, one.1, mid);
      assert (bits + [bit])[1..] == bits[1..] + [bit];
      assert hist + bits == hist + [one.0] + bits[1..];
      DecodeOneMore(one.1, rmsk, model, hist + [one.0], bits[1..], mid, bit, end);
      DecodeAhead(c, rmsk, model, hist, bits + [bit], one.0, one.1, end);
    }
  }

  /** Fewer bits from the same place are the first of the more. */
  lemma {:induction false} DecodeFewer(c: Coder, rmsk: nat, model: seq<bool> -> prob, hist: seq<bool>, bits: seq<bool>, end: Coder,
                                       bits': seq<bool>, end': Coder)
    requires |bits| <= |bits'| && Decode(c, rmsk, model, hist, |bits|) == Some((bits, end))
    requires Decode(c, rmsk, model, hist, |bits'|) == Some((bits', end'))
    ensures bits <= bits'
    decreases |bits|
  {
    if bits != [] {
      var one := DecodeBit(c, rmsk, model(hist)).value;
      DecodeAhead(c, rmsk, model, hist, bits, one.0, one.1, end);
      DecodeAhead(c, rmsk, model, hist, bits', one.0, one.1, end');
      DecodeFewer(one.1, rmsk, model, hist + [one.0], bits[1..], end, bits'[1..], end');
      assert bits == [bits[0]] + bits[1..] && bits' == [bits'[0]] + bits'[1..];
    }
  }

  /** Each interval lies inside what coding started with. */
  lemma {:induction false} IntervalInside(range: nat, rmsk: nat, model: seq<bool> -> prob, hist: seq<bool>, bits: seq<bool>)
    requires 0 < range < WORD && GoodMask(rmsk)
    ensures var all := Interval(range, rmsk, model, hist, bits); all.low + all.width <= Lift(range, all.more)
    decreases |bits|
  {
    if bits != [] {
      var k := Refills(range);
      var side := SideOf(range, rmsk, model(hist), bits[0]);
      IntervalInside(side.width, rmsk, model, hist + [bits[0]], bits[1..]);
      var more := Interval(side.width, rmsk, model, hist + [bits[0]], bits[1..]).more;
      LiftLift(range, k, more);
      LiftSum(side.begin, side.width, more);
      if side.begin + side.width < Lift(range, k) { LiftMonotone(side.begin + side.width, Lift(range, k), more); }
    }
  }

  lemma {:induction false} LiftZero(k: nat)
    ensures Lift(0, k) == 0
  {
    if k > 0 {
      LiftZero(k - 1);
    }
  }

  /** The first bit of a number's interval tells on which side of the cut its code is, and where it is there. */
  lemma FirstBit(code: nat, bytes: seq<byte>, i: nat, wide: nat, bit: bool, low: nat, width: nat)
    requires i <= wide && low + width <= Lift(if bit then i else wide - i, |bytes|)
    requires Lift(if bit then 0 else i, |bytes|) + low <= Val(code, bytes) < Lift(if bit then 0 else i, |bytes|) + low + width
    ensures bit <==> code < i
    ensures low <= Val(if bit then code else code - i, bytes) < low + width
    ensures Val(if bit then code else code - i, bytes) == Val(code, bytes) - Lift(if bit then 0 else i, |bytes|)
  {
    ValBounds(code, bytes);
    LiftZero(|bytes|);
    if bit {
      if code >= i { LiftMonotone(i, code, |bytes|); }
    } else {
      if code < i { LiftMonotone(code + 1, i, |bytes|); }
      ValMinus(code, i, bytes);
    }
  }

  /** The refilled coder, cut, on the side of the given bit. */
  function After(c: Coder, rmsk: nat, p: prob, bit: bool): (r: Coder)
    requires Ok(c) && GoodMask(rmsk) && |c.src| >= Refills(c.range)
    requires bit <==> Val(c.code, c.src[..Refills(c.range)]) < Cut(Lift(c.range, Refills(c.range)), rmsk, p)
    ensures Ok(r)
  {
    var k := Refills(c.range);
    var wide := Lift(c.range, k);
    var i := Cut(wide, rmsk, p);
    var code := Val(c.code, c.src[..k]);
    RefillShifts(c);
    CutBounds(wide, rmsk, p);
    if bit then Coder(i, code, c.src[k..]) else Coder(wide - i, code - i, c.src[k..])
  }

  lemma DecodesBit(c: Coder, rmsk: nat, p: prob)
    requires Ok(c) && GoodMask(rmsk) && |c.src| >= Refills(c.range)
    ensures var bit := Val(c.code, c.src[..Refills(c.range)]) < Cut(Lift(c.range, Refills(c.range)), rmsk, p);
            DecodeBit(c, rmsk, p) == Some((bit, After(c, rmsk, p, bit)))
  {
    RefillShifts(c);
    CutBounds(Lift(c.range, Refills(c.range)), rmsk, p);
  }

  lemma WholeVal(code: nat, src: seq<byte>, k: nat, more: nat)
    requires k + more <= |src|
    ensures Val(code, src[..k + more]) == Val(Val(code, src[..k]), src[k..][..more])
    ensures src[k..][more..] == src[k + more..]
  {
    assert src[..k + more] == src[..k] + src[k..][..more];
    ValConcat(code, src[..k], src[k..][..more]);
  }

  /** Coder `end` is what c becomes when one of the numbers is taken from it: the number's bytes gone, its place as the code. */
  ghost predicate Leaves(c: Coder, all: Numbers, end: Coder) {
    && all.more <= |c.src| && end.src == c.src[all.more..]
    && end.range == all.width && Val(c.code, c.src[..all.more]) == all.low + end.code
  }

  lemma ValAfter(c: Coder, rmsk: nat, p: prob, bit: bool, more: nat)
    requires Ok(c) && GoodMask(rmsk) && |c.src| >= Refills(c.range) + more
    requires bit <==> Val(c.code, c.src[..Refills(c.range)]) < Cut(Lift(c.range, Refills(c.range)), rmsk, p)
    ensures var c' := After(c, rmsk, p, bit); var side := SideOf(c.range, rmsk, p, bit);
            && c'.range == side.width && more <= |c'.src|
            && Val(c.code, c.src[..Refills(c.range) + more]) == Lift(side.begin, more) + Val(c'.code, c'.src[..more])
            && c'.src[more..] == c.src[Refills(c.range) + more..]
  {
    var k := Refills(c.range);
    WholeVal(c.code, c.src, k, more);
    LiftZero(more);
    if !bit { ValMinus(Val(c.code, c.src[..k]), Cut(Lift(c.range, k), rmsk, p), c.src[k..][..more]); }
  }

  /** Taking a number is taking its first bit and then the number that the rest of it is. */
  lemma LeavesFirst(c: Coder, rmsk: nat, p: prob, bit: bool, rest: Numbers, end: Coder)
    requires Ok(c) && GoodMask(rmsk) && |c.src| >= Refills(c.range)
    requires bit <==> Val(c.code, c.src[..Refills(c.range)]) < Cut(Lift(c.range, Refills(c.range)), rmsk, p)
    ensures After(c, rmsk, p, bit).range == SideOf(c.range, rmsk, p, bit).width
    ensures Leaves(After(c, rmsk, p, bit), rest, end) <==> Leaves(c, Prefixed(c.range, rmsk, p, bit, rest), end)
  {
    ValAfter(c, rmsk, p, bit, 0);
    if Refills(c.range) + rest.more <= |c.src| {
      ValAfter(c, rmsk, p, bit, rest.more);
    }
  }

  /** The side of the cut on which a number lies. */
  lemma FirstBitOf(c: Coder, rmsk: nat, p: prob, bit: bool, rest: Numbers, end: Coder)
    requires Ok(c) && GoodMask(rmsk) && Ok(end) && Leaves(c, Prefixed(c.range, rmsk, p, bit, rest), end)
    requires rest.low + rest.width <= Lift(SideOf(c.range, rmsk, p, bit).width, rest.more)
    ensures bit <==> Val(c.code, c.src[..Refills(c.range)]) < Cut(Lift(c.range, Refills(c.range)), rmsk, p)
  {
    var k := Refills(c.range);
    var wide := Lift(c.range, k);
    WideRange(c.range);
    CutBounds(wide, rmsk, p);
    WholeVal(c.code, c.src, k, rest.more);
    FirstBit(Val(c.code, c.src[..k]), c.src[k..][..rest.more], Cut(wide, rmsk, p), wide, bit, rest.low, rest.width);
  }

  /** Decoding gives the bits in whose interval the number lies, and takes the number. */
  lemma {:induction false} DecodesInterval(c: Coder, rmsk: nat, model: seq<bool> -> prob, hist: seq<bool>, bits: seq<bool>, end: Coder)
    requires Ok(c) && GoodMask(rmsk) && Ok(end) && Leaves(c, Interval(c.range, rmsk, model, hist, bits), end)
    ensures Decode(c, rmsk, model, hist, |bits|) == Some((bits, end))
    decreases |bits|
  {
    if bits == [] {
      assert c.src[..0] == [] && c.src[0..] == c.src;
    } else {
      var bit, p := bits[0], model(hist);
      var side := SideOf(c.range, rmsk, p, bit);
      var rest := Interval(side.width, rmsk, model, hist + [bit], bits[1..]);
      IntervalInside(side.width, rmsk, model, hist + [bit], bits[1..]);
      FirstBitOf(c, rmsk, p, bit, rest, end);
      LeavesFirst(c, rmsk, p, bit, rest, end);
      DecodesBit(c, rmsk, p);
      var c' := After(c, rmsk, p, bit);
      DecodesInterval(c', rmsk, model, hist + [bit], bits[1..], end);
      DecodeFirst(c, rmsk, model, hist, bits, c', end);
    }
  }

  /** Conversely, whatever bits are decoded, what was taken is a number of their interval. */
  lemma {:induction false} DecodedInInterval(c: Coder, rmsk: nat, model: seq<bool> -> prob, hist: seq<bool>, n: nat)
    requires Ok(c) && GoodMask(rmsk) && Decode(c, rmsk, model, hist, n).Some?
    ensures var (bits, end) := Decode(c, rmsk, model, hist, n).value;
            |bits| == n && Ok(end) && Leaves(c, Interval(c.range, rmsk, model, hist, bits), end)
    decreases n
  {
    if n == 0 {
      assert c.src[..0] == [] && c.src[0..] == c.src;
    } else {
      EnoughForRefill(c);
      var p, k := model(hist), Refills(c.range);
      DecodesBit(c, rmsk, p);
      var bit := Val(c.code, c.src[..k]) < Cut(Lift(c.range, k), rmsk, p);
      var c' := After(c, rmsk, p, bit);
      DecodedInInterval(c', rmsk, model, hist + [bit], n - 1);
      var (rest, end) := Decode(c', rmsk, model, hist + [bit], n - 1).value;
      var bits := [bit] + rest;
      assert bits[0] == bit && bits[1..] == rest;
      DecodeFirst(c, rmsk, model, hist, bits, c', end);
      LeavesFirst(c, rmsk, p, bit, Interval(c'.range, rmsk, model, hist + [bit], rest), end);
    }
  }

  /** The decoder finds the unique bits in whose interval the code and the bytes after it lie. */
  lemma DecodeIffInInterval(c: Coder, rmsk: nat, model: seq<bool> -> prob, bits: seq<bool>, end: Coder)
    requires Ok(c) && GoodMask(rmsk)
    ensures Decode(c, rmsk, model, [], |bits|) == Some((bits, end))
            <==> Ok(end) && Leaves(c, Interval(c.range, rmsk, model, [], bits), end)
  {
    if Ok(end) && Leaves(c, Interval(c.range, rmsk, model, [], bits), end) {
      DecodesInterval(c, rmsk, model, [], bits, end);
    }
    if Decode(c, rmsk, model, [], |bits|) == Some((bits, end)) {
      DecodedInInterval(c, rmsk, model, [], |bits|);
    }
  }

  // ---- encoding ----

  /** The digits of v in base 256: a leading part and k bytes. */
  function Digits(v: nat, k: nat): (r: Coded)
    ensures |r.bytes| == k
    decreases k
  {
    if k == 0 then Coded(v, [])
    else Coded(Digits(v / 256, k - 1).high, Digits(v / 256, k - 1).bytes + [v % 256])
  }

  lemma {:induction false} DigitsVal(v: nat, k: nat)
    ensures Val(Digits(v, k).high, Digits(v, k).bytes) == v
  {
    if k > 0 {
      DigitsVal(v / 256, k - 1);
      ValConcat(Digits(v / 256, k - 1).high, Digits(v / 256, k - 1).bytes, [v % 256]);
    }
  }

  /** Code word and bytes for some bits: the low end of their interval. */
  function Encode(range: nat, rmsk: nat, model: seq<bool> -> prob, bits: seq<bool>): Coded
    requires 0 < range < WORD && GoodMask(rmsk)
  {
    var all := Interval(range, rmsk, model, [], bits);
    Digits(all.low, all.more)
  }

  /** Decoding what was encoded gives back the bits, for every model, and takes exactly the bytes of the encoding. */
  lemma RoundTrip(range: nat, rmsk: nat, model: seq<bool> -> prob, bits: seq<bool>, rest: seq<byte>)
    requires 0 < range < WORD && GoodMask(rmsk)
    ensures var e := Encode(range, rmsk, model, bits);
            && e.high < range
            && var r := Decode(Coder(range, e.high, e.bytes + rest), rmsk, model, [], |bits|);
               r.Some? && r.value.0 == bits && r.value.1.src == rest
  {
    var all := Interval(range, rmsk, model, [], bits);
    var e := Digits(all.low, all.more);
    DigitsVal(all.low, all.more);
    IntervalInside(range, rmsk, model, [], bits);
    ValBounds(e.high, e.bytes);
    if e.high >= range { LiftMonotone(range, e.high, all.more); }
    var c, end := Coder(range, e.high, e.bytes + rest), Coder(all.width, 0, rest);
    assert c.src[..all.more] == e.bytes && c.src[all.more..] == rest;
    assert Leaves(c, all, end);
    DecodesInterval(c, rmsk, model, [], bits, end);
  }

  // ---- the two masks in use ----

  lemma {:induction false} AndHigh(x: nat, m: nat, k: nat)
    ensures And(x, Shl(m, k)) == Shl(And(Shr(x, k), m), k)
  {
    if k > 0 {
      AndHigh(x / 2, m, k - 1);
    }
  }

  ghost function Ones(w: nat): nat { if w == 0 then 0 else 2 * Ones(w - 1) + 1 }

  lemma {:induction false} AndOnes(x: nat, w: nat)
    requires Shr(x, w) == 0
    ensures And(x, Ones(w)) == x
  {
    if w > 0 {
      AndOnes(x / 2, w - 1);
      assert Ones(w) / 2 == Ones(w - 1) && Ones(w) % 2 == 1;
    }
  }

  lemma {:induction false} OnesBelow(w: nat)
    ensures Ones(w) + 1 == Shl(1, w)
  {
    if w > 0 { OnesBelow(w - 1); }
  }

  /** `-1` and `-1 << 11` in 32 bits. */
  const MASK_ALL: nat := 0xffff_ffff
  const MASK_UPPER: nat := 0xffff_f800

  lemma MasksAreGood()
    ensures GoodMask(MASK_ALL) && GoodMask(MASK_UPPER)
  {
    forall r: nat | TOP <= r < WORD
      ensures TOP <= And(r, MASK_ALL) <= r && TOP <= And(r, MASK_UPPER) <= r
    {
      MaskAll(r);
      MaskUpper(r);
    }
  }

  lemma MaskAll(r: nat)
    requires r < WORD
    ensures And(r, MASK_ALL) == r
  {
    WordSize();
    OnesBelow(32);
    ShrBound(r, 32);
    AndOnes(r, 32);
  }

  lemma MaskUpper(r: nat)
    requires TOP <= r < WORD
    ensures r - 2048 < And(r, MASK_UPPER) <= r && TOP <= And(r, MASK_UPPER)
  {
    WordSize();
    ShlEleven(Ones(21));
    OnesBelow(21);
    TwentyOne();
    ShrBound(r, 32);
    ShrSplit(r, 11, 21);
    AndOnes(Shr(r, 11), 21);
    AndHigh(r, Ones(21), 11);
    ShiftBack(r);
  }

  lemma TwentyOne()
    ensures Shl(1, 21) == 0x20_0000
  {
    ShlEleven(1);
    ShlShl(1, 11, 10);
    ShlShl(2048, 8, 2);
    ShlEight(2048);
    ShlShl(0x8_0000, 1, 1);
    assert Shl(0x8_0000, 1) == 0x10_0000 && Shl(0x10_0000, 1) == 0x20_0000;
  }

  lemma {:induction false} ShrSplit(x: nat, j: nat, k: nat)
    ensures Shr(x, j + k) == Shr(Shr(x, j), k)
  {
    if j > 0 {
      ShrSplit(x / 2, j - 1, k);
    }
  }

  lemma {:induction false} ShiftedBack(x: nat, k: nat)
    ensures Shl(Shr(x, k), k) <= x < Shl(Shr(x, k) + 1, k)
  {
    if k > 0 {
      ShiftedBack(x / 2, k - 1);
    }
  }

  lemma {:induction false} ShlMonotone(x: nat, y: nat, k: nat)
    requires x <= y
    ensures Shl(x, k) <= Shl(y, k)
  {
    if k > 0 { ShlMonotone(x, y, k - 1); }
  }

  lemma ShiftBack(r: nat)
    requires r >= TOP
    ensures r - 2048 < Shl(Shr(r, 11), 11) <= r && TOP <= Shl(Shr(r, 11), 11)
  {
    ShiftedBack(r, 11);
    ShiftedBack(TOP, 11);
    ShlEleven(Shr(r, 11));
    ShlEleven(Shr(r, 11) + 1);
  }

  lemma ShlEleven(x: nat)
    ensures Shl(x, 11) == 2048 * x
  {
    ShlShl(x, 4, 7);
    ShlFour(x);
    ShlSeven(16 * x);
  }

  lemma {:induction false} EnoughForRefill(c: Coder)
    requires Ok(c) && Refill(c).Some?
    ensures |c.src| >= Refills(c.range)
    decreases |c.src|
  {
    if c.range < TOP {
      ShlEight(c.range);
      RefillStep(c.code, c.src[0]);
      EnoughForRefill(Coder(256 * c.range, 256 * c.code + c.src[0], c.src[1..]));
    }
  }
}
