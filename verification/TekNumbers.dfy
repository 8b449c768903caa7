/**
 * The variable-length integers of the tek formats: 7 bits a byte, most significant first,
 * the low bit of a byte set on the last one. Arithmetic is that of 32-bit registers.
 */
module TekNumbers {
  import opened Basics
  import opened Bits

  /** `s << 7 | b` in a 32-bit register. */
  function Push(s: nat, b: byte): nat {
    Or(Shl(s, 7) % WORD, b)
  }

  /** Before the last byte s is even, so the byte's eighth bit lands on a zero and `|` loses nothing. */
  lemma PushIsSum(s: nat, b: byte)
    requires s % 2 == 0 && s < WORD
    ensures Push(s, b) == (128 * s) % WORD + b < WORD
  {
    ShlSeven(s);
    var hi := (128 * s) % WORD / 256;
    assert (128 * s) % WORD == 256 * hi;
    ShlSeven(2 * hi);
    ShlShl(2 * hi, 0, 7);
    ShlEight(hi);
    ShrBound(b, 8);
    ShlEight(1);
    OrIsSum(hi, 8, b);
  }

  lemma ShlSeven(x: nat)
    ensures Shl(x, 7) == 128 * x
  {
    ShlFour(x);
    ShlShl(x, 4, 2);
    ShlShl(x, 6, 1);
    assert Shl(16 * x, 1) == 32 * x && Shl(32 * x, 1) == 64 * x;
    ShlShl(16 * x, 1, 1);
    assert Shl(64 * x, 1) == 128 * x;
  }

  lemma ShlEight(x: nat)
    ensures Shl(x, 8) == 256 * x
  {
    ShlSeven(x);
    ShlShl(x, 7, 1);
    assert Shl(128 * x, 1) == 256 * x;
  }

  lemma ShlFour(x: nat)
    ensures Shl(x, 4) == 16 * x
  {
    assert Shl(x, 1) == 2 * x && Shl(2 * x, 1) == 4 * x && Shl(4 * x, 1) == 8 * x && Shl(8 * x, 1) == 16 * x;
    ShlShl(x, 1, 1);
    ShlShl(x, 2, 1);
    ShlShl(x, 3, 1);
  }

  lemma NibblesApart(lo: nat, hi: nat)
    requires lo < 16
    ensures (lo + 16 * hi) % 16 == lo && (lo + 16 * hi) / 16 == hi
  {
  }

  /** The loop `do s = s << 7 | *p++; while ((s & 1) == 0)`: the register at the end and what follows; None if the bytes run out. */
  function Scan(s: nat, src: seq<byte>): Option<(nat, seq<byte>)>
    decreases |src|
  {
    if src == [] then None
    else
      var s' := Push(s, src[0]);
      if s' % 2 == 1 then Some((s', src[1..])) else Scan(s', src[1..])
  }

  /** The number of tek_getnum_s7s, and what follows it. */
  function S7s(src: seq<byte>): Option<(nat, seq<byte>)> {
    match Scan(0, src)
    case None => None
    case Some((s, rest)) => Some((s / 2, rest))
  }

  /** The loop itself, from position p0 on and from a register that is even. */
  method ScanFrom(src: seq<byte>, p0: nat, s0: nat) returns (s: nat, p: nat)
    requires p0 <= |src| && s0 % 2 == 0 && s0 < WORD && Scan(s0, src[p0..]).Some?
    ensures p0 < p <= |src| && Scan(s0, src[p0..]) == Some((s, src[p..]))
  {
    s, p := s0, p0;
    while true
      invariant p0 <= p <= |src| && s % 2 == 0 && s < WORD
      invariant Scan(s, src[p..]) == Scan(s0, src[p0..])
      decreases |src| - p
    {
      PushIsSum(s, src[p]);
      assert src[p..][1..] == src[p + 1..];
      s, p := Push(s, src[p]), p + 1;
      if s % 2 == 1 {
        return;
      }
    }
  }

  method GetNumS7s(src: seq<byte>, p0: nat) returns (v: nat, p: nat)
    requires p0 <= |src| && S7s(src[p0..]).Some?
    ensures p0 < p <= |src| && S7s(src[p0..]) == Some((v, src[p..]))
  {
    var s;
    s, p := ScanFrom(src, p0, 0);
    v := s / 2;
  }

  // ---- encoding ----

  /** A number in part: what a nibble or a register is given of it, and the bytes for the rest. */
  datatype Coded = Coded(high: nat, bytes: seq<byte>)

  /**
   * All but the lowest seven bits of a number, when what is below `base` goes into the register and not
   * into bytes (base 1: nothing; base 8: three bits in a nibble).
   */
  function Leading(v: nat, base: nat): Coded
    requires base > 0
  {
    if v < base then Coded(2 * v, [])
    else Coded(Leading(v / 128, base).high, Leading(v / 128, base).bytes + [2 * (v % 128)])
  }

  function EncodeS7s(v: nat): seq<byte> {
    Leading(v / 128, 1).bytes + [2 * (v % 128) + 1]
  }

  lemma PushDigit(t: nat, d: nat, last: bool)
    requires d < 128 && 256 * t + 256 <= WORD
    ensures Push(2 * t, 2 * d + Bit(last)) == 2 * (128 * t + d) + Bit(last)
  {
    PushIsSum(2 * t, 2 * d + Bit(last));
  }

  lemma ScanOne(s: nat, b: byte, rest: seq<byte>)
    ensures Scan(s, [b] + rest) == if Push(s, b) % 2 == 1 then Some((Push(s, b), rest)) else Scan(Push(s, b), rest)
  {
    assert ([b] + rest)[1..] == rest;
  }

  lemma ScanDigit(t: nat, d: nat, rest: seq<byte>)
    requires d < 128 && 256 * t + 256 <= WORD
    ensures Scan(2 * t, [2 * d] + rest) == Scan(2 * (128 * t + d), rest)
  {
    PushDigit(t, d, false);
    ScanOne(2 * t, 2 * d, rest);
  }

  lemma {:induction false} LeadingSmall(v: nat, base: nat)
    requires base > 0
    ensures Leading(v, base).high < 2 * base && Leading(v, base).high % 2 == 0
  {
    if v >= base {
      LeadingSmall(v / 128, base);
    }
  }

  lemma {:induction false} ScanLeading(v: nat, base: nat, rest: seq<byte>)
    requires base > 0 && 2 * v < WORD
    ensures Scan(Leading(v, base).high, Leading(v, base).bytes + rest) == Scan(2 * v, rest)
  {
    if v < base {
      assert Leading(v, base).bytes + rest == rest;
    } else {
      var t, d := v / 128, v % 128;
      var bytes := Leading(t, base).bytes;
      ScanLeading(t, base, [2 * d] + rest);
      assert bytes + [2 * d] + rest == bytes + ([2 * d] + rest);
      ScanDigit(t, d, rest);
    }
  }

  lemma ScanLast(t: nat, d: nat, rest: seq<byte>)
    requires d < 128 && 256 * t + 256 <= WORD
    ensures Scan(2 * t, [2 * d + 1] + rest) == Some((2 * (128 * t + d) + 1, rest))
  {
    PushDigit(t, d, true);
    ScanOne(2 * t, 2 * d + 1, rest);
  }

  /** A number whose upper bits are coded comes back once its lowest seven follow. */
  lemma ScanWhole(v: nat, base: nat, rest: seq<byte>)
    requires base > 0 && v < WORD / 2
    ensures Scan(Leading(v / 128, base).high, Leading(v / 128, base).bytes + ([2 * (v % 128) + 1] + rest)) == Some((2 * v + 1, rest))
  {
    ScanLeading(v / 128, base, [2 * (v % 128) + 1] + rest);
    ScanLast(v / 128, v % 128, rest);
  }

  /** Whatever follows, a number below 2^31 comes back, and exactly its own bytes are taken. */
  lemma S7sRoundTrip(v: nat, rest: seq<byte>)
    requires v < WORD / 2
    ensures S7s(EncodeS7s(v) + rest) == Some((v, rest))
  {
    var bytes, last := Leading(v / 128, 1).bytes, [2 * (v % 128) + 1];
    LeadingSmall(v / 128, 1);
    ScanWhole(v, 1, rest);
    assert bytes + last + rest == bytes + (last + rest);
  }

  // ---- what any stream of bytes decodes to ----

  /** Bytes of one number: the low bit is set on the last and only there. */
  ghost predicate Terminated(bytes: seq<byte>) {
    bytes != [] && forall k :: 0 <= k < |bytes| ==> (bytes[k] % 2 == 1 <==> k == |bytes| - 1)
  }

  /** Their upper seven bits as a number, most significant first. */
  function Base128(bytes: seq<byte>): nat {
    if bytes == [] then 0 else 128 * Base128(bytes[..|bytes| - 1]) + bytes[|bytes| - 1] / 2
  }

  ghost predicate AllEven(bytes: seq<byte>) {
    forall k :: 0 <= k < |bytes| ==> bytes[k] % 2 == 0
  }

  lemma SplitLast(bytes: seq<byte>, rest: seq<byte>)
    requires bytes != []
    ensures var n := |bytes| - 1;
            bytes == bytes[..n] + [bytes[n]] && bytes + rest == bytes[..n] + ([bytes[n]] + rest)
  {
  }

  lemma ScanEvenOne(t: nat, b: byte, rest: seq<byte>)
    requires b % 2 == 0
    ensures Scan((2 * t) % WORD, [b] + rest) == Scan((2 * (128 * t + b / 2)) % WORD, rest)
  {
    PushWraps(t, b);
    EvenLeft(128 * t + b / 2);
    ScanOne((2 * t) % WORD, b, rest);
  }

  lemma {:induction false} ScanEven(bytes: seq<byte>, rest: seq<byte>)
    requires AllEven(bytes)
    ensures Scan(0, bytes + rest) == Scan((2 * Base128(bytes)) % WORD, rest)
  {
    if bytes == [] {
      assert bytes + rest == rest;
    } else {
      var n := |bytes| - 1;
      SplitLast(bytes, rest);
      ScanEven(bytes[..n], [bytes[n]] + rest);
      ScanEvenOne(Base128(bytes[..n]), bytes[n], rest);
    }
  }

  /** Pushing commutes with the truncation to 32 bits. */
  lemma PushWraps(t: nat, b: byte)
    ensures Push((2 * t) % WORD, b) == (2 * (128 * t + b / 2) + b % 2) % WORD
  {
    WrapSum(t, b);
    PushGives((2 * t) % WORD, b, (2 * (128 * t + b / 2) + b % 2) % WORD);
  }

  lemma PushGives(s: nat, b: byte, v: nat)
    requires s % 2 == 0 && s < WORD && (128 * s) % WORD + b == v
    ensures Push(s, b) == v
  {
    PushIsSum(s, b);
  }

  lemma ModUnique(x: nat, q: nat, r: nat)
    requires x == WORD * q + r && r < WORD
    ensures x % WORD == r
  {
  }

  lemma WrapSum(t: nat, b: byte)
    ensures (2 * t) % WORD % 2 == 0
    ensures (128 * ((2 * t) % WORD)) % WORD + b == (2 * (128 * t + b / 2) + b % 2) % WORD
  {
    var q, r := t / 0x8000_0000, t % 0x8000_0000;
    ModUnique(2 * t, q, 2 * r);
    var u, v := r / 0x100_0000, r % 0x100_0000;
    ModUnique(256 * r, u, 256 * v);
    ModUnique(256 * t + b, 128 * q + u, 256 * v + b);
  }

  lemma ScanOdd(t: nat, b: byte, rest: seq<byte>)
    requires b % 2 == 1
    ensures Scan((2 * t) % WORD, [b] + rest) == Some(((2 * (128 * t + b / 2) + 1) % WORD, rest))
  {
    PushWraps(t, b);
    ScanOne((2 * t) % WORD, b, rest);
  }

  lemma ScanTerminated(bytes: seq<byte>, rest: seq<byte>)
    requires Terminated(bytes)
    ensures Scan(0, bytes + rest) == Some(((2 * Base128(bytes) + 1) % WORD, rest))
  {
    var n := |bytes| - 1;
    var init, b := bytes[..n], bytes[n];
    assert AllEven(init);
    ScanEven(init, [b] + rest);
    assert bytes + rest == init + ([b] + rest);
    ScanOdd(Base128(init), b, rest);
  }

  /** Any number in the stream is read as its base-128 value, cut to the register. */
  lemma S7sValue(bytes: seq<byte>, rest: seq<byte>)
    requires Terminated(bytes)
    ensures S7s(bytes + rest) == Some(((2 * Base128(bytes) + 1) % WORD / 2, rest))
    ensures Base128(bytes) < WORD / 2 ==> S7s(bytes + rest) == Some((Base128(bytes), rest))
  {
    ScanTerminated(bytes, rest);
    HalfOdd(Base128(bytes));
  }

  lemma HalfOdd(y: nat)
    ensures y < WORD / 2 ==> (2 * y + 1) % WORD / 2 == y
  {
  }

  // ---- the second code, in which no number has two encodings ----

  datatype Registers = Registers(s: nat, b: nat, rest: seq<byte>)

  /** The loop of tek_getnum_s7: the registers s and b at the end, and what follows. */
  function ScanS7(s: nat, b: nat, a: nat, src: seq<byte>): Option<Registers>
    decreases |src|
  {
    if src == [] then None
    else
      var s' := Push(s, src[0]);
      if s' % 2 == 1 then Some(Registers(s', b, src[1..]))
      else
        var a' := Shl(a, 7) % WORD;
        ScanS7(s', (b + a') % WORD, a', src[1..])
  }

  /** The number of tek_getnum_s7, and what follows it. */
  function S7(src: seq<byte>): Option<(nat, seq<byte>)> {
    match ScanS7(0, 0, 1, src)
    case None => None
    case Some(r) => Some(((r.s / 2 + r.b) % WORD, r.rest))
  }

  method GetNumS7(src: seq<byte>, p0: nat) returns (v: nat, p: nat)
    requires p0 <= |src| && S7(src[p0..]).Some?
    ensures p0 < p <= |src| && S7(src[p0..]) == Some((v, src[p..]))
  {
    var s: nat, b: nat, a: nat := 0, 0, 1;
    p := p0;
    while true
      invariant p0 <= p <= |src| && s % 2 == 0 && s < WORD
      invariant ScanS7(s, b, a, src[p..]) == ScanS7(0, 0, 1, src[p0..])
      decreases |src| - p
    {
      PushIsSum(s, src[p]);
      assert src[p..][1..] == src[p + 1..];
      s, p := Push(s, src[p]), p + 1;
      if s % 2 == 1 {
        break;
      }
      a := Shl(a, 7) % WORD;
      b := (b + a) % WORD;
    }
    v := (s / 2 + b) % WORD;
  }

  /** Numeration with the digits 1 .. 128 instead of 0 .. 127: every number has exactly one notation. */
  function Bijective(bytes: seq<byte>): nat {
    if bytes == [] then 0 else 128 * Bijective(bytes[..|bytes| - 1]) + bytes[|bytes| - 1] / 2 + 1
  }

  /** The bytes, all even, whose Bijective value is w. */
  function Notation(w: nat): seq<byte> {
    if w == 0 then [] else Notation((w - 1) / 128) + [2 * ((w - 1) % 128)]
  }

  function EncodeS7(v: nat): seq<byte> {
    Notation(v / 128) + [2 * (v % 128) + 1]
  }

  lemma {:induction false} NotationOfValue(w: nat)
    ensures AllEven(Notation(w)) && Bijective(Notation(w)) == w
  {
    if w > 0 {
      NotationOfValue((w - 1) / 128);
      var n := Notation((w - 1) / 128);
      assert Notation(w)[..|n|] == n;
    }
  }

  lemma {:induction false} ValueOfNotation(bytes: seq<byte>)
    requires AllEven(bytes)
    ensures Notation(Bijective(bytes)) == bytes
  {
    if bytes != [] {
      var n := |bytes| - 1;
      ValueOfNotation(bytes[..n]);
      assert (Bijective(bytes) - 1) / 128 == Bijective(bytes[..n]);
      assert bytes == bytes[..n] + [bytes[n]];
    }
  }

  /** The value of a terminated string of bytes under the second code. */
  function ValueS7(bytes: seq<byte>): int {
    Bijective(bytes) - 1
  }

  /** Encoding and value are inverse to each other: a bijection between numbers and terminated strings. */
  lemma S7Bijection(v: nat, bytes: seq<byte>)
    requires Terminated(bytes)
    ensures Terminated(EncodeS7(v)) && ValueS7(EncodeS7(v)) == v
    ensures ValueS7(bytes) >= 0 && EncodeS7(ValueS7(bytes)) == bytes
  {
    EncodedValue(v);
    ValueEncoded(bytes);
  }

  lemma EncodedValue(v: nat)
    ensures Terminated(EncodeS7(v)) && ValueS7(EncodeS7(v)) == v
  {
    NotationOfValue(v / 128);
    var m := Notation(v / 128);
    var e := EncodeS7(v);
    assert e[..|m|] == m && e[|m|] == 2 * (v % 128) + 1;
    assert Bijective(e) == 128 * Bijective(m) + v % 128 + 1;
  }

  lemma ValueEncoded(bytes: seq<byte>)
    requires Terminated(bytes)
    ensures ValueS7(bytes) >= 0 && EncodeS7(ValueS7(bytes)) == bytes
  {
    var n := |bytes| - 1;
    var init, b := bytes[..n], bytes[n];
    assert AllEven(init);
    ValueOfNotation(init);
    var v := ValueS7(bytes);
    assert v == 128 * Bijective(init) + b / 2;
    assert v / 128 == Bijective(init) && v % 128 == b / 2;
    assert bytes == init + [b];
  }

  function Power(k: nat): nat { if k == 0 then 1 else 128 * Power(k - 1) }

  /** 1 + 128 + .. : what the carries of the digits 1 .. 128 add up to over k bytes. */
  function Carries(k: nat): nat { if k == 0 then 0 else Carries(k - 1) + Power(k - 1) }

  lemma {:induction false} BijectiveIsShifted(bytes: seq<byte>)
    ensures Bijective(bytes) == Base128(bytes) + Carries(|bytes|)
  {
    if bytes != [] {
      BijectiveIsShifted(bytes[..|bytes| - 1]);
      CarriesStep(|bytes| - 1);
    }
  }

  lemma {:induction false} BaseBelowPower(bytes: seq<byte>)
    ensures Base128(bytes) < Power(|bytes|)
  {
    if bytes != [] {
      BaseBelowPower(bytes[..|bytes| - 1]);
    }
  }

  lemma {:induction false} CarriesStep(k: nat)
    ensures Carries(k + 1) == 128 * Carries(k) + 1
  {
    if k > 0 { CarriesStep(k - 1); }
  }

  /** The registers after some even bytes: all three are what they count, cut to 32 bits. */
  ghost predicate Registered(s: nat, b: nat, a: nat, bytes: seq<byte>) {
    && s == (2 * Base128(bytes)) % WORD && a == Power(|bytes|) % WORD
    && b == (Carries(|bytes| + 1) - 1) % WORD
  }

  lemma ScanS7One(s: nat, c: nat, a: nat, b: byte, rest: seq<byte>)
    ensures ScanS7(s, c, a, [b] + rest) ==
            if Push(s, b) % 2 == 1 then Some(Registers(Push(s, b), c, rest))
            else ScanS7(Push(s, b), (c + Shl(a, 7) % WORD) % WORD, Shl(a, 7) % WORD, rest)
  {
    assert ([b] + rest)[1..] == rest;
  }

  lemma TimesWraps(a: nat, x: nat)
    requires a == x % WORD
    ensures (128 * a) % WORD == (128 * x) % WORD
  {
    var q := x / WORD;
    ModUnique(128 * x, 128 * q + 128 * a / WORD, 128 * a % WORD);
  }

  lemma SumWraps(x: int, y: int)
    ensures (x % WORD + y % WORD) % WORD == (x + y) % WORD
  {
    var q, r := (x % WORD + y % WORD) / WORD, (x % WORD + y % WORD) % WORD;
    ModOf(x + y, x / WORD + y / WORD + q, r);
  }

  lemma ModOf(x: int, q: int, r: int)
    requires x == WORD * q + r && 0 <= r < WORD
    ensures x % WORD == r
  {
  }

  lemma NextRegisters(s: nat, c: nat, a: nat, bytes: seq<byte>, b: byte)
    requires Registered(s, c, a, bytes) && b % 2 == 0
    ensures Push(s, b) % 2 == 0
    ensures Registered(Push(s, b), (c + Shl(a, 7) % WORD) % WORD, Shl(a, 7) % WORD, bytes + [b])
  {
    var k := |bytes|;
    assert (bytes + [b])[..k] == bytes;
    PushWraps(Base128(bytes), b);
    EvenLeft(128 * Base128(bytes) + b / 2);
    ShlSeven(a);
    TimesWraps(a, Power(k));
    SumWraps(Carries(k + 1) - 1, Power(k + 1));
  }

  lemma EvenLeft(x: nat)
    ensures (2 * x) % WORD % 2 == 0
  {
    ModUnique(2 * x, x / (WORD / 2), 2 * (x % (WORD / 2)));
  }

  /** An even byte is taken into the registers. */
  lemma ScanS7Next(s: nat, c: nat, a: nat, bytes: seq<byte>, b: byte, rest: seq<byte>) returns (s': nat, c': nat, a': nat)
    requires Registered(s, c, a, bytes) && b % 2 == 0
    ensures Registered(s', c', a', bytes + [b]) && ScanS7(s, c, a, [b] + rest) == ScanS7(s', c', a', rest)
  {
    NextRegisters(s, c, a, bytes, b);
    ScanS7One(s, c, a, b, rest);
    s', c', a' := Push(s, b), (c + Shl(a, 7) % WORD) % WORD, Shl(a, 7) % WORD;
  }

  lemma {:induction false} ScanS7Even(bytes: seq<byte>, rest: seq<byte>) returns (s: nat, c: nat, a: nat)
    requires AllEven(bytes)
    ensures Registered(s, c, a, bytes) && ScanS7(0, 0, 1, bytes + rest) == ScanS7(s, c, a, rest)
  {
    if bytes == [] {
      assert bytes + rest == rest;
      s, c, a := 0, 0, 1;
    } else {
      var n := |bytes| - 1;
      SplitLast(bytes, rest);
      s, c, a := ScanS7Even(bytes[..n], [bytes[n]] + rest);
      s, c, a := ScanS7Next(s, c, a, bytes[..n], bytes[n], rest);
    }
  }

  lemma LastRegisters(s: nat, c: nat, a: nat, bytes: seq<byte>, b: byte)
    requires Registered(s, c, a, bytes) && b % 2 == 1
    ensures Push(s, b) == 2 * (Base128(bytes + [b]) % (WORD / 2)) + 1 && c == (Carries(|bytes + [b]|) - 1) % WORD
  {
    assert (bytes + [b])[..|bytes|] == bytes;
    PushWraps(Base128(bytes), b);
    OddLeft(Base128(bytes + [b]));
  }

  /** The odd byte that ends a number. */
  lemma ScanS7Last(s: nat, c: nat, a: nat, bytes: seq<byte>, b: byte, rest: seq<byte>)
    requires Registered(s, c, a, bytes) && b % 2 == 1
    ensures ScanS7(s, c, a, [b] + rest)
            == Some(Registers(2 * (Base128(bytes + [b]) % (WORD / 2)) + 1, (Carries(|bytes + [b]|) - 1) % WORD, rest))
  {
    LastRegisters(s, c, a, bytes, b);
    ScanS7One(s, c, a, b, rest);
  }

  lemma ScanS7Terminated(bytes: seq<byte>, rest: seq<byte>) returns (x: nat, y: int)
    requires Terminated(bytes)
    ensures x == Base128(bytes) % (WORD / 2) && x < WORD && y == Carries(|bytes|) - 1
    ensures ScanS7(0, 0, 1, bytes + rest) == Some(Registers(2 * x + 1, y % WORD, rest))
  {
    var n := |bytes| - 1;
    SplitLast(bytes, rest);
    var s, c, a := ScanS7Even(bytes[..n], [bytes[n]] + rest);
    ScanS7Last(s, c, a, bytes[..n], bytes[n], rest);
    x, y := Base128(bytes) % (WORD / 2), Carries(|bytes|) - 1;
  }

  lemma OddLeft(x: nat)
    ensures (2 * x + 1) % WORD == 2 * (x % (WORD / 2)) + 1
  {
    ModUnique(2 * x + 1, x / (WORD / 2), 2 * (x % (WORD / 2)) + 1);
  }

  /** What a number in the stream is read as: its digits are cut to 31 bits, their sum with the carries to 32. */
  function ReadS7(bytes: seq<byte>): nat {
    (Base128(bytes) % (WORD / 2) + Carries(|bytes|) - 1) % WORD
  }

  lemma HalfAndMod(x: nat)
    requires x < WORD
    ensures (2 * x + 1) / 2 == x && x % WORD == x
  {
  }

  lemma S7Of(src: seq<byte>, x: nat, y: int, rest: seq<byte>)
    requires x < WORD && ScanS7(0, 0, 1, src) == Some(Registers(2 * x + 1, y % WORD, rest))
    ensures S7(src) == Some(((x + y) % WORD, rest))
  {
    HalfAndMod(x);
    SumWraps(x, y);
  }

  lemma ReadS7Is(bytes: seq<byte>, x: nat, y: int)
    requires x == Base128(bytes) % (WORD / 2) && y == Carries(|bytes|) - 1
    ensures ReadS7(bytes) == (x + y) % WORD
  {
    assert x + Carries(|bytes|) - 1 == x + y;
  }

  lemma S7Value(bytes: seq<byte>, rest: seq<byte>)
    requires Terminated(bytes)
    ensures S7(bytes + rest) == Some((ReadS7(bytes), rest))
  {
    var x, y := ScanS7Terminated(bytes, rest);
    ReadS7Is(bytes, x, y);
    S7Of(bytes + rest, x, y, rest);
  }

  /** It is read exactly just when its digits fit 31 bits and its value 32. */
  lemma S7ReadsIff(bytes: seq<byte>, rest: seq<byte>)
    requires Terminated(bytes)
    ensures S7(bytes + rest) == Some((ValueS7(bytes), rest)) <==> Base128(bytes) < WORD / 2 && ValueS7(bytes) < WORD
  {
    S7Value(bytes, rest);
    BijectiveIsShifted(bytes);
    CutIff(Base128(bytes), Carries(|bytes|) - 1);
  }

  lemma HalfCut(x: nat)
    requires x < WORD
    ensures x % (WORD / 2) == if x < WORD / 2 then x else x - WORD / 2
  {
  }

  lemma CutIff(x: nat, c: int)
    requires c >= 0
    ensures (x % (WORD / 2) + c) % WORD == x + c <==> x < WORD / 2 && x + c < WORD
  {
    if x < WORD {
      HalfCut(x);
    }
  }

  lemma PowersToFive()
    ensures Power(1) == 128 && Power(2) == 16384 && Power(3) == 2097152 && Power(4) == 268435456
    ensures Carries(1) == 1 && Carries(4) == 2113665 && Carries(5) == 270549121 && Carries(6) == 34630287489
  {
    assert Power(5) == 34359738368;
  }

  lemma {:induction false} CarriesGrow(j: nat, k: nat)
    requires j <= k
    ensures Carries(j) <= Carries(k) && Power(j) <= Power(k)
  {
    if j < k { CarriesGrow(j, k - 1); }
  }

  /** 128 + 128^2 + 128^3 + 128^4: from there on the second code has five bytes. */
  const FIVE_BYTES: nat := 270549120

  /** Where digits that fit 31 bits end: among the numbers of five bytes. */
  lemma DigitsFit(bytes: seq<byte>)
    requires Terminated(bytes)
    ensures Base128(bytes) < WORD / 2 && ValueS7(bytes) < WORD <==> ValueS7(bytes) < WORD / 2 + FIVE_BYTES
  {
    var n := |bytes|;
    BijectiveIsShifted(bytes);
    BaseBelowPower(bytes);
    PowersToFive();
    if n <= 4 {
      CarriesGrow(n, 4);
    } else if n >= 6 {
      CarriesGrow(6, n);
    }
  }

  /** The numbers that come back, with exactly their own bytes taken, are those below 2^31 + FIVE_BYTES. */
  lemma S7RoundTrip(v: nat, rest: seq<byte>)
    ensures S7(EncodeS7(v) + rest) == Some((v, rest)) <==> v < WORD / 2 + FIVE_BYTES
  {
    EncodedValue(v);
    S7ReadsIff(EncodeS7(v), rest);
    DigitsFit(EncodeS7(v));
  }
}
