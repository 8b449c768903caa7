/**
 * The copies of the second LZ format: distances coded by their place among the four used last, relative to
 * the last one, or outright.
 */
module TekCache {
  import opened Basics
  import opened Bits
  import opened TekNumbers

  /** Distances used last, the latest first, as offsets; the one at place i, or the oldest, gives way to ds. */
  function Pushed(cache: seq<int>, i: nat, ds: int): (r: seq<int>)
    requires |cache| == 4
    ensures |r| == 4
  {
    var m := if i < 3 then i else 3;
    [ds] + cache[..m] + cache[m + 1..]
  }

  /** Where every distance is afterwards: ds first, those before its place one place later, those after it where they were. */
  lemma PushedPlaces(cache: seq<int>, i: nat, ds: int)
    requires |cache| == 4
    ensures Pushed(cache, i, ds)[0] == ds
    ensures forall j :: 0 < j < 4 && j <= i ==> Pushed(cache, i, ds)[j] == cache[j - 1]
    ensures forall j :: i < j < 4 ==> Pushed(cache, i, ds)[j] == cache[j]
  {
  }

  lemma MovedOut(cache: seq<int>, m: nat)
    requires m < |cache|
    ensures multiset(cache) == multiset(cache[..m]) + multiset{cache[m]} + multiset(cache[m + 1..])
  {
    assert cache == cache[..m] + [cache[m]] + cache[m + 1..];
  }

  /** Naming a cached distance only moves it to the front; any other one drives out the oldest. */
  lemma PushedKeeps(cache: seq<int>, i: nat, ds: int)
    requires |cache| == 4 && (i < 4 ==> ds == cache[i])
    ensures i < 4 ==> multiset(Pushed(cache, i, ds)) == multiset(cache)
    ensures i >= 4 ==> multiset(Pushed(cache, i, ds)) == multiset(cache) - multiset{cache[3]} + multiset{ds}
  {
    var m := if i < 3 then i else 3;
    MovedOut(cache, m);
    assert multiset(Pushed(cache, i, ds)) == multiset{ds} + multiset(cache[..m]) + multiset(cache[m + 1..]);
  }

  /** The nested shifts of the C code. */
  method Remember(repdis: array<int>, i: nat, ds: int)
    requires repdis.Length == 4 && (i < 4 ==> ds == repdis[i])
    modifies repdis
    ensures repdis[..] == Pushed(old(repdis[..]), i, ds)
    ensures repdis[0] == ds
    ensures forall j :: 0 < j < 4 && j <= i ==> repdis[j] == old(repdis[j - 1])
    ensures forall j :: i < j < 4 ==> repdis[j] == old(repdis[j])
  {
    if i > 0 {
      if i > 1 {
        if i > 2 {
          repdis[3] := repdis[2];
        }
        repdis[2] := repdis[1];
      }
      repdis[1] := repdis[0];
      repdis[0] := ds;
    }
  }

  /** The code of a distance: 0 .. 3 a place in the cache, 4 and 5 farther and nearer than the last, 6 and up itself. */
  function Code(nibble: nat, src: seq<byte>): Option<(int, seq<byte>)> {
    if nibble % 2 == 1 then Some((nibble / 2, src))
    else match S7(src)
      case None => None
      case Some((v, rest)) => Some((Signed(Or(Shl(v + 1, 4) % WORD, nibble)) / 2, rest))
  }

  /** The offset for a code, and what follows; None where C would read outside the cache or the stream. */
  function Offset(code: int, cache: seq<int>, src: seq<byte>): Option<(int, seq<byte>)>
    requires |cache| == 4
  {
    if code < 0 then None
    else if code < 4 then Some((cache[code], src))
    else if code > 5 then Some((5 - code, src))
    else match S7(src)
      case None => None
      case Some((v, rest)) => Some((Signed(if code == 4 then cache[0] - v - 1 else cache[0] + v + 1), rest))
  }

  /** The length: a nibble and one, or if that is 0 a number and 17 in a signed register. */
  function Length(high: nat, src: seq<byte>): Option<(int, seq<byte>)> {
    if high > 0 then Some((high + 1, src))
    else match S7(src)
      case None => None
      case Some((v, rest)) => Some((Signed(v + 17), rest))
  }

  datatype Copied = Copied(ds: int, len: int, cache: seq<int>, rest: seq<byte>)

  function ReadCopy(cache: seq<int>, src: seq<byte>): Option<Copied>
    requires |cache| == 4
  {
    if src == [] then None else ReadFrom(cache, src[0], src[1..])
  }

  function ReadFrom(cache: seq<int>, first: byte, src: seq<byte>): Option<Copied>
    requires |cache| == 4
  {
    match Code(first % 16, src)
    case None => None
    case Some((code, src1)) =>
      match Offset(code, cache, src1)
      case None => None
      case Some((ds, src2)) =>
        match Length(first / 16, src2)
        case None => None
        case Some((cp, src3)) => Some(Copied(ds, cp, Pushed(cache, code, ds), src3))
  }

  /**
   * A header byte by byte. An odd low nibble is a code by itself: a place in the cache, 4 or 5 for a number of bytes
   * farther or nearer than the distance used last, 6 or 7 for offset -1 or -2; the high nibble, if not 0, is the
   * length less one, and a number less 17 follows if it is.
   */
  lemma ShortHeader(cache: seq<int>, first: byte, src: seq<byte>, number: nat, rest: seq<byte>)
    requires |cache| == 4 && first % 2 == 1 && S7(src) == Some((number, rest))
    ensures var code, copy := first % 16 / 2, ReadFrom(cache, first, src);
            && (code < 4 && first >= 16 ==> copy == Some(Copied(cache[code], first / 16 + 1, Pushed(cache, code, cache[code]), src)))
            && (code < 4 && first < 16 ==> copy == Some(Copied(cache[code], Signed(number + 17), Pushed(cache, code, cache[code]), rest)))
            && (code == 4 && first >= 16 ==>
                  copy == Some(Copied(Signed(cache[0] - number - 1), first / 16 + 1, Pushed(cache, 4, Signed(cache[0] - number - 1)), rest)))
            && (code == 5 && first >= 16 ==>
                  copy == Some(Copied(Signed(cache[0] + number + 1), first / 16 + 1, Pushed(cache, 5, Signed(cache[0] + number + 1)), rest)))
            && (code == 6 && first >= 16 ==> copy == Some(Copied(-1, first / 16 + 1, Pushed(cache, 6, -1), src)))
            && (code == 7 && first >= 16 ==> copy == Some(Copied(-2, first / 16 + 1, Pushed(cache, 7, -2), src)))
  {
  }

  /** An even low nibble has a number before all that: the offset is then 5 less eight of the number and one, and half the nibble. */
  lemma LongHeader(cache: seq<int>, first: byte, src: seq<byte>, number: nat, rest: seq<byte>)
    requires |cache| == 4 && first % 2 == 0 && first >= 16 && S7(src) == Some((number, rest)) && number + 1 < FAR / 8
    ensures var ds := 5 - (8 * (number + 1) + first % 16 / 2);
            ReadFrom(cache, first, src) == Some(Copied(ds, first / 16 + 1, Pushed(cache, 5 - ds, ds), rest))
  {
    CodeOfNumber(first % 16, src, number, rest);
    CodeRegister(number, first % 16);
    HalfRegister(number, first % 16 / 2);
  }

  // ---- encoding ----

  /** How a distance may be written. */
  datatype Spelling = Place(i: nat) | Farther | Nearer | Plain

  /** What a spelling can say of the offset ds. */
  ghost predicate Says(s: Spelling, cache: seq<int>, ds: int)
    requires |cache| == 4
  {
    match s
    case Place(i) => i < 4 && cache[i] == ds
    case Farther => ds < cache[0]
    case Nearer => ds > cache[0]
    case Plain => ds < 0
  }

  /** Distances that the numbers of the format carry. */
  ghost predicate Reaches(s: Spelling, cache: seq<int>, ds: int)
    requires |cache| == 4
  {
    match s
    case Place(i) => true
    case Farther => cache[0] - ds <= WORD / 2 + FIVE_BYTES
    case Nearer => ds - cache[0] <= WORD / 2 + FIVE_BYTES
    case Plain => 5 - ds < FAR
  }

  function CodeOf(s: Spelling, ds: int): int {
    match s
    case Place(i) => i
    case Farther => 4
    case Nearer => 5
    case Plain => 5 - ds
  }

  /** The nibble of a code, and the bytes that follow the first. */
  function EncodeCode(code: nat): (r: Coded)
    ensures r.high < 16
  {
    if code < 8 then Coded(2 * code + 1, []) else Coded(2 * (code % 8), EncodeS7(code / 8 - 1))
  }

  function EncodeLength(len: nat): (r: Coded)
    requires len >= 2
    ensures r.high < 16
  {
    if len <= 16 then Coded(len - 1, []) else Coded(0, EncodeS7(len - 17))
  }

  function EncodeOffset(s: Spelling, cache: seq<int>, ds: int): seq<byte>
    requires |cache| == 4 && Says(s, cache, ds)
  {
    match s
    case Farther => EncodeS7(cache[0] - ds - 1)
    case Nearer => EncodeS7(ds - cache[0] - 1)
    case _ => []
  }

  function Assembled(c: Coded, offset: seq<byte>, l: Coded): seq<byte>
    requires c.high < 16 && l.high < 16
  {
    [c.high + 16 * l.high] + c.bytes + offset + l.bytes
  }

  function EncodeCopy(s: Spelling, cache: seq<int>, ds: int, len: nat): seq<byte>
    requires |cache| == 4 && Says(s, cache, ds) && len >= 2
  {
    Assembled(EncodeCode(CodeOf(s, ds)), EncodeOffset(s, cache, ds), EncodeLength(len))
  }

  /** What a 32-bit register can hold. */
  predicate Fits(v: int) { -(WORD / 2) <= v < WORD / 2 }

  lemma SignedFits(v: int)
    requires Fits(v)
    ensures Signed(v) == v
  {
  }

  /** Codes from here on do not come back out of their register. */
  const FAR: nat := 0x4000_0000

  lemma CodeRegister(v: nat, nibble: nat)
    requires v + 1 < FAR / 8 && nibble < 16
    ensures Or(Shl(v + 1, 4) % WORD, nibble) == 16 * (v + 1) + nibble
  {
    var x := Shl(v + 1, 4);
    assert x == 16 * (v + 1) by { ShlFour(v + 1); }
    assert x % WORD == x;
    assert Shr(nibble, 4) == 0 by { ShrBound(nibble, 4); ShlFour(1); }
    OrIsSum(v + 1, 4, nibble);
  }

  lemma HalfRegister(v: nat, d: nat)
    requires v + 1 < FAR / 8 && d < 8
    ensures Signed(16 * (v + 1) + 2 * d) / 2 == 8 * (v + 1) + d
  {
  }

  lemma CodeOfNumber(nibble: nat, src: seq<byte>, v: nat, rest: seq<byte>)
    requires nibble % 2 == 0 && S7(src) == Some((v, rest))
    ensures Code(nibble, src) == Some((Signed(Or(Shl(v + 1, 4) % WORD, nibble)) / 2, rest))
  {
  }

  lemma CodeEven(v: nat, d: nat, rest: seq<byte>)
    requires v + 1 < FAR / 8 && d < 8
    ensures Code(2 * d, EncodeS7(v) + rest) == Some((8 * (v + 1) + d, rest))
  {
    S7RoundTrip(v, rest);
    CodeOfNumber(2 * d, EncodeS7(v) + rest, v, rest);
    CodeRegister(v, 2 * d);
    HalfRegister(v, d);
  }

  lemma CodeRoundTrip(code: nat, rest: seq<byte>)
    requires code < FAR
    ensures Code(EncodeCode(code).high, EncodeCode(code).bytes + rest) == Some((code, rest))
  {
    if code < 8 {
      assert EncodeCode(code).bytes + rest == rest;
    } else {
      CodeEven(code / 8 - 1, code % 8, rest);
    }
  }

  lemma OffsetRoundTrip(s: Spelling, cache: seq<int>, ds: int, rest: seq<byte>)
    requires |cache| == 4 && Says(s, cache, ds) && Fits(ds) && Reaches(s, cache, ds)
    ensures Offset(CodeOf(s, ds), cache, EncodeOffset(s, cache, ds) + rest) == Some((ds, rest))
  {
    match s
    case Farther => S7RoundTrip(cache[0] - ds - 1, rest); SignedFits(ds);
    case Nearer => S7RoundTrip(ds - cache[0] - 1, rest); SignedFits(ds);
    case _ => assert EncodeOffset(s, cache, ds) + rest == rest;
  }

  lemma CodeFits(s: Spelling, cache: seq<int>, ds: int)
    requires |cache| == 4 && Says(s, cache, ds) && Reaches(s, cache, ds)
    ensures 0 <= CodeOf(s, ds) < FAR
  {
  }

  /** However a copy is spelt, it is read back, its distance now first in the cache. */
  lemma RoundTrip(s: Spelling, cache: seq<int>, ds: int, len: nat, rest: seq<byte>)
    requires |cache| == 4 && Says(s, cache, ds) && Fits(ds) && Reaches(s, cache, ds) && 2 <= len && Fits(len)
    ensures ReadCopy(cache, EncodeCopy(s, cache, ds, len) + rest) == Some(Copied(ds, len, Pushed(cache, CodeOf(s, ds), ds), rest))
  {
    CodeFits(s, cache, ds);
    var offset, l := EncodeOffset(s, cache, ds), EncodeLength(len);
    var last := l.bytes + rest;
    LengthRoundTrip(len, rest);
    OffsetRoundTrip(s, cache, ds, last);
    CodeRoundTrip(CodeOf(s, ds), offset + last);
    AssembledComesBack(cache, CodeOf(s, ds), EncodeCode(CodeOf(s, ds)), offset, l, ds, len, rest);
  }

  lemma AssembledComesBack(cache: seq<int>, code: int, c: Coded, offset: seq<byte>, l: Coded, ds: int, len: nat, rest: seq<byte>)
    requires |cache| == 4 && c.high < 16 && l.high < 16 && Fits(len)
    requires Code(c.high, c.bytes + (offset + (l.bytes + rest))) == Some((code, offset + (l.bytes + rest)))
    requires Offset(code, cache, offset + (l.bytes + rest)) == Some((ds, l.bytes + rest)) && code >= 0
    requires Length(l.high, l.bytes + rest) == Some((len, rest))
    ensures ReadCopy(cache, Assembled(c, offset, l) + rest) == Some(Copied(ds, len, Pushed(cache, code, ds), rest))
  {
    var last := l.bytes + rest;
    ReadAssembled(cache, c, offset, l, rest);
    FromParts(cache, c.high, l.high, c.bytes + (offset + last), offset + last, code, ds, len, last, rest);
  }

  lemma LengthRoundTrip(len: nat, rest: seq<byte>)
    requires 2 <= len && Fits(len)
    ensures Length(EncodeLength(len).high, EncodeLength(len).bytes + rest) == Some((len, rest))
  {
    if len > 16 { S7RoundTrip(len - 17, rest); SignedFits(len); } else { assert EncodeLength(len).bytes + rest == rest; }
  }

  lemma Regroup(h: seq<byte>, a: seq<byte>, b: seq<byte>, c: seq<byte>, rest: seq<byte>)
    ensures h + a + b + c + rest == h + (a + (b + (c + rest)))
  {
  }

  lemma ReadAssembled(cache: seq<int>, c: Coded, offset: seq<byte>, l: Coded, rest: seq<byte>)
    requires |cache| == 4 && c.high < 16 && l.high < 16
    ensures ReadCopy(cache, Assembled(c, offset, l) + rest)
            == ReadFrom(cache, c.high + 16 * l.high, c.bytes + (offset + (l.bytes + rest)))
  {
    var first: byte, tail := c.high + 16 * l.high, c.bytes + (offset + (l.bytes + rest));
    Regroup([first], c.bytes, offset, l.bytes, rest);
    ReadFirst(cache, first, tail);
  }

  lemma FromParts(cache: seq<int>, nibble: nat, high: nat, tail: seq<byte>, mid: seq<byte>, code: nat, ds: int,
                  len: int, last: seq<byte>, rest: seq<byte>)
    requires |cache| == 4 && nibble < 16 && high < 16
    requires Code(nibble, tail) == Some((code, mid)) && Offset(code, cache, mid) == Some((ds, last))
    requires Length(high, last) == Some((len, rest))
    ensures ReadFrom(cache, nibble + 16 * high, tail) == Some(Copied(ds, len, Pushed(cache, code, ds), rest))
  {
    NibblesApart(nibble, high);
  }

  lemma ReadFirst(cache: seq<int>, first: byte, tail: seq<byte>)
    requires |cache| == 4
    ensures ReadCopy(cache, [first] + tail) == ReadFrom(cache, first, tail)
  {
    assert ([first] + tail)[1..] == tail;
  }

  method GetCode(src: seq<byte>, p0: nat) returns (i: int, p: nat)
    requires p0 < |src| && Code(src[p0] % 16, src[p0 + 1..]).Some?
    ensures p0 < p <= |src| && Code(src[p0] % 16, src[p0 + 1..]) == Some((i, src[p..]))
  {
    i, p := src[p0] % 16, p0 + 1;
    if i % 2 == 0 {
      var v: nat;
      v, p := GetNumS7(src, p);
      i := Signed(Or(Shl(v + 1, 4) % WORD, i));
    }
    i := i / 2;
  }

  method GetOffset(src: seq<byte>, p0: nat, i: nat, repdis: array<int>) returns (ds: int, p: nat)
    requires p0 <= |src| && repdis.Length == 4 && Offset(i, repdis[..], src[p0..]).Some?
    ensures p0 <= p <= |src| && Offset(i, repdis[..], src[p0..]) == Some((ds, src[p..]))
  {
    var v: nat;
    ds, p := 5 - i, p0;
    if i < 4 {
      ds := repdis[i];
    }
    if i == 4 {
      v, p := GetNumS7(src, p);
      ds := Signed(repdis[0] - v - 1);
    }
    if i == 5 {
      v, p := GetNumS7(src, p);
      ds := Signed(repdis[0] + v + 1);
    }
  }

  lemma SignedNext(v: int)
    ensures Signed(Signed(v) + 1) == Signed(v + 1)
  {
  }

  method GetLength(src: seq<byte>, p0: nat, high: nat) returns (cp: int, p: nat)
    requires p0 <= |src| && high < 16 && Length(high, src[p0..]).Some?
    ensures p0 <= p <= |src| && Length(high, src[p0..]) == Some((cp, src[p..]))
  {
    cp, p := high, p0;
    if cp == 0 {
      var v: nat;
      v, p := GetNumS7(src, p);
      cp := Signed(v + 16);
      SignedNext(v + 16);
    }
    cp := Signed(cp + 1);
  }

  /** The whole of a copy's header, with the cache in place. */
  method GetCopy(src: seq<byte>, p0: nat, repdis: array<int>) returns (ds: int, cp: int, p: nat)
    requires p0 <= |src| && repdis.Length == 4 && ReadCopy(repdis[..], src[p0..]).Some?
    modifies repdis
    ensures p0 < p <= |src|
    ensures ReadCopy(old(repdis[..]), src[p0..]) == Some(Copied(ds, cp, repdis[..], src[p..]))
  {
    assert src[p0..][1..] == src[p0 + 1..];
    var i;
    i, p := GetCode(src, p0);
    ds, p := GetOffset(src, p, i, repdis);
    cp, p := GetLength(src, p, src[p0] / 16);
    Remember(repdis, i, ds);
  }
}
