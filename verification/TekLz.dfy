/** The stk1 format: runs of literal bytes and copies from what has been written, nibble-packed. */
module TekLz {
  import opened Basics
  import opened TekNumbers

  // ---- what a stream stands for ----

  /** Copy `len` bytes from `dist` bytes back. */
  datatype Copy = Copy(dist: nat, len: nat)

  /** A run of literal bytes, then copies. */
  datatype Group = Group(literals: seq<byte>, copies: seq<Copy>)

  /** Byte by byte, so that a copy may run into its own output. */
  function CopyBack(out: seq<byte>, dist: nat, len: nat): (r: seq<byte>)
    requires 0 < dist <= |out|
    ensures |r| == |out| + len
    decreases len
  {
    if len == 0 then out else CopyBack(out + [out[|out| - dist]], dist, len - 1)
  }

  /** It keeps what was there, and every new byte equals the one dist before it. */
  lemma {:induction false} CopyBackRepeats(out: seq<byte>, dist: nat, len: nat, i: nat)
    requires 0 < dist <= |out| && i < |out| + len
    ensures CopyBack(out, dist, len)[i] == if i < |out| then out[i] else CopyBack(out, dist, len)[i - dist]
    decreases len
  {
    if len > 0 {
      var out' := out + [out[|out| - dist]];
      CopyBackRepeats(out', dist, len - 1, i);
      CopyBackRepeats(out', dist, len - 1, |out| - dist);
    }
  }

  /** Such a continuation is unique. */
  lemma {:induction false} CopyBackUnique(out: seq<byte>, dist: nat, len: nat, r: seq<byte>)
    requires 0 < dist <= |out| && |r| == |out| + len && r[..|out|] == out
    requires forall i :: |out| <= i < |r| ==> r[i] == r[i - dist]
    ensures r == CopyBack(out, dist, len)
    decreases len
  {
    if len > 0 {
      var out' := out + [out[|out| - dist]];
      assert r[|out| - dist] == r[..|out|][|out| - dist];
      assert r[..|out'|] == out';
      CopyBackUnique(out', dist, len - 1, r);
    }
  }

  function ExpandCopies(out: seq<byte>, copies: seq<Copy>): Option<seq<byte>>
    decreases |copies|
  {
    if copies == [] then Some(out)
    else if !(0 < copies[0].dist <= |out|) || copies[0].len == 0 then None
    else ExpandCopies(CopyBack(out, copies[0].dist, copies[0].len), copies[1..])
  }

  /** What the groups expand to, if every run and copy has a byte, every copy stays inside, and only the last group lacks copies. */
  function Expand(out: seq<byte>, groups: seq<Group>): Option<seq<byte>>
    decreases |groups|
  {
    if groups == [] then Some(out)
    else if groups[0].literals == [] || (groups[0].copies == [] && |groups| > 1) then None
    else match ExpandCopies(out + groups[0].literals, groups[0].copies)
      case None => None
      case Some(out') => Expand(out', groups[1..])
  }

  // ---- decoding, as the nested loops of the C code run ----

  /** Status 0 with the output; status 1 for a copy from before the start; or a run past an end, which C leaves undefined. */
  datatype Outcome = Done(out: seq<byte>) | BadDistance | Overrun

  /** How often `do .. while (--n)` runs for a 32-bit n. */
  function Times(n: nat): (r: nat)
    ensures r > 0 && (r - n) % 0x1_0000_0000 == 0 && (n < 0x1_0000_0000 ==> r <= 0x1_0000_0000)
  {
    if n == 0 then WORD else n
  }

  /** A count in a nibble, or if that is 0 in the number that follows. */
  function Count(nibble: nat, src: seq<byte>): Option<(nat, seq<byte>)> {
    if nibble == 0 then S7s(src) else Some((nibble, src))
  }

  lemma {:induction false} ScanShortens(s: nat, src: seq<byte>)
    requires s % 2 == 0 && s < WORD
    ensures Scan(s, src).Some? ==> |Scan(s, src).value.1| < |src| && Scan(s, src).value.0 < WORD
    decreases |src|
  {
    if src != [] {
      PushIsSum(s, src[0]);
      if Push(s, src[0]) % 2 == 0 {
        ScanShortens(Push(s, src[0]), src[1..]);
      }
    }
  }

  /** Twice the distance less one, plus one: started in a nibble, and if that is even continued in bytes. */
  function DistanceCode(nibble: nat, src: seq<byte>): (r: Option<(nat, seq<byte>)>)
    requires nibble < 16
    ensures r.Some? ==> |r.value.1| <= |src| && r.value.0 < WORD
  {
    ScanShortens(0, src);
    if nibble % 2 == 0 then ScanShortens(nibble, src); Scan(nibble, src) else Some((nibble, src))
  }

  /** Twice the length less one, plus one or not: a nibble, or if that is 0 a number in bytes. */
  function LengthCode(nibble: nat, src: seq<byte>): (r: Option<(nat, seq<byte>)>)
    requires nibble < 16
    ensures r.Some? ==> |r.value.1| <= |src| && r.value.0 < WORD
  {
    ScanShortens(0, src);
    if nibble == 0 then Scan(0, src) else Some((2 * nibble, src))
  }

  /** A group's header: how many literals, how many copies. */
  function ReadHeader(src: seq<byte>): (r: Option<(nat, nat, seq<byte>)>)
    ensures r.Some? ==> |r.value.2| < |src|
  {
    if src == [] then None
    else match Count(src[0] % 16, src[1..])
      case None => None
      case Some((literals, src1)) =>
        ScanShortens(0, src[1..]);
        ScanShortens(0, src1);
        match Count(src[0] / 16, src1)
        case None => None
        case Some((copies, src2)) => Some((literals, copies, src2))
  }

  /** A copy: how far back, how long. Both are signed in C. */
  function ReadCopy(src: seq<byte>): (r: Option<(int, int, seq<byte>)>)
    ensures r.Some? ==> |r.value.2| < |src|
  {
    if src == [] then None
    else match DistanceCode(src[0] % 16, src[1..])
      case None => None
      case Some((ds, src1)) =>
        match LengthCode(src[0] / 16, src1)
        case None => None
        case Some((cp, src2)) => Some((Signed(ds) / 2 + 1, Signed(cp) / 2 + 1, src2))
  }

  /** The outer loop: a header byte, literals, copies. n is the size of the output. */
  function Groups(src: seq<byte>, out: seq<byte>, n: nat): Outcome
    decreases |src|, 1
  {
    match ReadHeader(src)
    case None => Overrun
    case Some((literals, copies, src')) =>
      if Times(literals) > |src'| || |out| + Times(literals) > n then Overrun
      else
        var out' := out + src'[..Times(literals)];
        if |out'| >= n then Done(out') else Copies(Times(copies), src'[Times(literals)..], out', n)
  }

  /** The length of a copy as far as there is room for it. */
  function Cut(k: nat, len: int, n: nat): (r: int)
    ensures r <= len && k + r <= n && (r == len || k + r == n)
  {
    if k + len > n then n - k else len
  }

  /** The inner loop: `count` copies, then on with the outer loop. */
  function Copies(count: nat, src: seq<byte>, out: seq<byte>, n: nat): Outcome
    decreases |src|, 0
  {
    match ReadCopy(src)
    case None => Overrun
    case Some((dist, len, src')) =>
      if |out| - dist < 0 then BadDistance
      else
        var cut := Cut(|out|, len, n);
        if dist <= 0 || cut <= 0 then Overrun
        else
          var out' := CopyBack(out, dist, cut);
          if count > 1 then Copies(count - 1, src', out', n)
          else if |out'| < n then Groups(src', out', n)
          else Done(out')
  }

  // ---- what the bytes of a stream say, in numbers ----

  lemma CountIs(nibble: nat, a: seq<byte>, rest: seq<byte>)
    requires Terminated(a) && Base128(a) < WORD / 2
    ensures Count(nibble, if nibble == 0 then a + rest else rest) == Some((if nibble == 0 then Base128(a) else nibble, rest))
  {
    S7sValue(a, rest);
  }

  /** The low nibble is the number of literals and the high one that of copies; for a 0 the number is in bytes of its own. */
  lemma HeaderIs(first: byte, a: seq<byte>, b: seq<byte>, rest: seq<byte>)
    requires Terminated(a) && Terminated(b) && Base128(a) < WORD / 2 && Base128(b) < WORD / 2
    ensures var more := if first / 16 == 0 then b + rest else rest;
            ReadHeader([first] + if first % 16 == 0 then a + more else more)
            == Some((if first % 16 == 0 then Base128(a) else first % 16, if first / 16 == 0 then Base128(b) else first / 16, rest))
  {
    var more := if first / 16 == 0 then b + rest else rest;
    CountIs(first % 16, a, more);
    CountIs(first / 16, b, rest);
    var tail := if first % 16 == 0 then a + more else more;
    assert ([first] + tail)[1..] == tail;
  }

  /** A nibble that goes on in bytes counts as the first of them. */
  lemma ScanFromNibble(nibble: nat, a: seq<byte>, rest: seq<byte>)
    requires nibble < 16 && nibble % 2 == 0 && Terminated(a) && Base128([nibble] + a) < WORD / 4
    ensures Scan(nibble, a + rest) == Some((2 * Base128([nibble] + a) + 1, rest))
  {
    hide Base128, Scan, Push;
    var all: seq<byte> := [nibble] + a;
    assert Terminated(all);
    ScanTerminated(all, rest);
    PushIsSum(0, nibble);
    assert all + rest == [nibble] + (a + rest);
    ScanOne(0, nibble, a + rest);
  }

  lemma LengthCodeIs(nibble: nat, b: seq<byte>, rest: seq<byte>) returns (code: nat)
    requires nibble < 16 && Terminated(b) && Base128(b) < WORD / 4
    ensures LengthCode(nibble, if nibble == 0 then b + rest else rest) == Some((code, rest))
    ensures Signed(code) / 2 == if nibble == 0 then Base128(b) else nibble
  {
    hide Base128, Scan;
    ScanTerminated(b, rest);
    code := if nibble == 0 then 2 * Base128(b) + 1 else 2 * nibble;
  }

  lemma DistanceCodeIs(nibble: nat, a: seq<byte>, rest: seq<byte>) returns (ds: nat)
    requires nibble < 16 && Terminated(a) && Base128([nibble] + a) < WORD / 4
    ensures DistanceCode(nibble, if nibble % 2 == 0 then a + rest else rest) == Some((ds, rest))
    ensures Signed(ds) / 2 == if nibble % 2 == 0 then Base128([nibble] + a) else nibble / 2
  {
    hide Base128, Scan, Terminated;
    if nibble % 2 == 0 {
      ScanFromNibble(nibble, a, rest);
      ds := 2 * Base128([nibble] + a) + 1;
    } else {
      ds := nibble;
    }
    SignedSmall(ds);
  }

  /**
   * How far back: one more than the low nibble's upper three bits, carried on in more bytes if its lowest bit is 0.
   * How long: one more than the high nibble, or than the number in bytes if it is 0.
   */
  lemma CopyIs(lo: nat, hi: nat, a: seq<byte>, b: seq<byte>, rest: seq<byte>)
    requires lo < 16 && hi < 16 && Terminated(a) && Terminated(b) && Base128([lo] + a) < WORD / 4 && Base128(b) < WORD / 4
    ensures var more := if hi == 0 then b + rest else rest;
            ReadCopy([lo + 16 * hi] + if lo % 2 == 0 then a + more else more)
            == Some((1 + if lo % 2 == 0 then Base128([lo] + a) else lo / 2, 1 + if hi == 0 then Base128(b) else hi, rest))
  {
    hide Base128, Terminated, ReadCopy, LengthCode, DistanceCode;
    var more := if hi == 0 then b + rest else rest;
    var code := LengthCodeIs(hi, b, rest);
    var ds := DistanceCodeIs(lo, a, more);
    CopyFrom(lo, hi, if lo % 2 == 0 then a + more else more, ds, more, code, rest);
  }

  // ---- encoding ----

  function EncodeCount(n: nat): Coded {
    if 0 < n < 16 then Coded(n, []) else Coded(0, EncodeS7s(n))
  }

  /** The nibble and the bytes of a distance. */
  function EncodeDistance(dist: nat): (r: Coded)
    requires dist > 0
    ensures r.high < 16
  {
    var v := dist - 1;
    if v < 8 then Coded(2 * v + 1, [])
    else
      LeadingSmall(v / 128, 8);
      Coded(Leading(v / 128, 8).high, Leading(v / 128, 8).bytes + [2 * (v % 128) + 1])
  }

  function EncodeCopy(c: Copy): seq<byte>
    requires c.dist > 0 && c.len > 0
  {
    var d, l := EncodeDistance(c.dist), EncodeCount(c.len - 1);
    [d.high + 16 * l.high] + d.bytes + l.bytes
  }

  function EncodeCopies(copies: seq<Copy>): seq<byte>
    requires forall c :: c in copies ==> c.dist > 0 && c.len > 0
  {
    if copies == [] then [] else EncodeCopy(copies[0]) + EncodeCopies(copies[1..])
  }

  /** A last group without copies still announces some; they are never read. */
  function EncodeGroup(g: Group): seq<byte>
    requires forall c :: c in g.copies ==> c.dist > 0 && c.len > 0
  {
    EncodeHeader(|g.literals|, if g.copies == [] then 1 else |g.copies|) + g.literals + EncodeCopies(g.copies)
  }

  function EncodeHeader(literals: nat, copies: nat): seq<byte> {
    var n, m := EncodeCount(literals), EncodeCount(copies);
    [n.high + 16 * m.high] + n.bytes + m.bytes
  }

  ghost predicate Plain(groups: seq<Group>) {
    forall g, c :: g in groups && c in g.copies ==> c.dist > 0 && c.len > 0
  }

  function Encode(groups: seq<Group>): seq<byte>
    requires Plain(groups)
  {
    if groups == [] then []
    else
      assert groups[0] in groups && forall g :: g in groups[1..] ==> g in groups;
      EncodeGroup(groups[0]) + Encode(groups[1..])
  }

  // ---- the round trip ----

  lemma CountRoundTrip(n: nat, rest: seq<byte>)
    requires 0 < n < WORD / 2
    ensures EncodeCount(n).high < 16 && Count(EncodeCount(n).high, EncodeCount(n).bytes + rest) == Some((n, rest))
  {
    if n < 16 {
      assert EncodeCount(n).bytes + rest == rest;
    } else {
      S7sRoundTrip(n, rest);
    }
  }

  lemma LengthRoundTrip(n: nat, rest: seq<byte>) returns (code: nat)
    requires n < WORD / 4
    ensures EncodeCount(n).high < 16 && LengthCode(EncodeCount(n).high, EncodeCount(n).bytes + rest) == Some((code, rest))
    ensures Signed(code) / 2 == n
  {
    if 0 < n < 16 {
      assert EncodeCount(n).bytes + rest == rest;
      code := 2 * n;
    } else {
      S7sRoundTrip(n, rest);
      code := Scan(0, EncodeCount(n).bytes + rest).value.0;
    }
    SignedSmall(code);
  }

  lemma Regroup(h: seq<byte>, a: seq<byte>, b: seq<byte>, rest: seq<byte>)
    ensures h + a + b + rest == h + (a + (b + rest))
  {
  }

  lemma DistanceRoundTrip(dist: nat, rest: seq<byte>)
    requires 0 < dist < WORD / 2
    ensures DistanceCode(EncodeDistance(dist).high, EncodeDistance(dist).bytes + rest) == Some((2 * (dist - 1) + 1, rest))
  {
    var v := dist - 1;
    if v < 8 {
      assert EncodeDistance(dist).bytes + rest == rest;
    } else {
      ScanWhole(v, 8, rest);
      LeadingSmall(v / 128, 8);
      assert EncodeDistance(dist).bytes + rest == Leading(v / 128, 8).bytes + ([2 * (v % 128) + 1] + rest);
    }
  }

  /** What is written is never taken back, and every copy and group adds to it. */
  lemma {:induction false} ExpandGrows(out: seq<byte>, groups: seq<Group>)
    requires Expand(out, groups).Some?
    ensures |out| + |groups| <= |Expand(out, groups).value|
    decreases |groups|
  {
    if groups != [] {
      CopiesGrow(out + groups[0].literals, groups[0].copies);
      ExpandGrows(ExpandCopies(out + groups[0].literals, groups[0].copies).value, groups[1..]);
    }
  }

  lemma {:induction false} CopiesGrow(out: seq<byte>, copies: seq<Copy>)
    requires ExpandCopies(out, copies).Some?
    ensures |out| + |copies| <= |ExpandCopies(out, copies).value|
    ensures forall c :: c in copies ==> c.dist > 0 && 0 < c.len <= |ExpandCopies(out, copies).value| - |out|
    decreases |copies|
  {
    if copies != [] {
      CopiesGrow(CopyBack(out, copies[0].dist, copies[0].len), copies[1..]);
    }
  }

  lemma {:induction false} ExpandPlain(out: seq<byte>, groups: seq<Group>)
    requires Expand(out, groups).Some?
    ensures Plain(groups)
    decreases |groups|
  {
    if groups != [] {
      CopiesGrow(out + groups[0].literals, groups[0].copies);
      ExpandPlain(ExpandCopies(out + groups[0].literals, groups[0].copies).value, groups[1..]);
    }
  }

  lemma SignedSmall(x: nat)
    requires x < WORD / 2
    ensures Signed(x) / 2 == x / 2
  {
  }

  lemma ReadCopyRoundTrip(c: Copy, src: seq<byte>)
    requires 0 < c.dist < WORD / 4 && 0 < c.len < WORD / 4
    ensures ReadCopy(EncodeCopy(c) + src) == Some((c.dist, c.len, src))
  {
    hide ReadCopy, EncodeCopy, DistanceCode, LengthCode;
    var d, l := EncodeDistance(c.dist), EncodeCount(c.len - 1);
    var code := LengthRoundTrip(c.len - 1, src);
    DistanceRoundTrip(c.dist, l.bytes + src);
    SignedSmall(2 * (c.dist - 1) + 1);
    EncodedCopy(c, src);
    CopyFrom(d.high, l.high, d.bytes + (l.bytes + src), 2 * (c.dist - 1) + 1, l.bytes + src, code, src);
  }

  lemma EncodedCopy(c: Copy, src: seq<byte>)
    requires c.dist > 0 && c.len > 0
    ensures var d, l := EncodeDistance(c.dist), EncodeCount(c.len - 1);
            EncodeCopy(c) + src == [d.high + 16 * l.high] + (d.bytes + (l.bytes + src))
  {
    var d, l := EncodeDistance(c.dist), EncodeCount(c.len - 1);
    Regroup([d.high + 16 * l.high], d.bytes, l.bytes, src);
  }

  lemma CopyFrom(d: nat, l: nat, tail: seq<byte>, ds: nat, mid: seq<byte>, cp: nat, rest: seq<byte>)
    requires d < 16 && l < 16 && DistanceCode(d, tail) == Some((ds, mid)) && LengthCode(l, mid) == Some((cp, rest))
    ensures ReadCopy([d + 16 * l] + tail) == Some((Signed(ds) / 2 + 1, Signed(cp) / 2 + 1, rest))
  {
    NibblesApart(d, l);
    var all := [d + 16 * l] + tail;
    assert all[1..] == tail;
  }

  lemma ReadHeaderRoundTrip(a: nat, b: nat, src: seq<byte>)
    requires 0 < a < WORD / 2 && 0 < b < WORD / 2
    ensures ReadHeader(EncodeHeader(a, b) + src) == Some((a, b, src))
  {
    var p, q := EncodeCount(a), EncodeCount(b);
    CountRoundTrip(a, q.bytes + src);
    CountRoundTrip(b, src);
    Regroup([p.high + 16 * q.high], p.bytes, q.bytes, src);
    HeaderFrom(p.high, q.high, p.bytes + (q.bytes + src), a, q.bytes + src, b, src);
  }

  lemma HeaderFrom(p: nat, q: nat, tail: seq<byte>, a: nat, mid: seq<byte>, b: nat, rest: seq<byte>)
    requires p < 16 && q < 16 && Count(p, tail) == Some((a, mid)) && Count(q, mid) == Some((b, rest))
    ensures ReadHeader([p + 16 * q] + tail) == Some((a, b, rest))
  {
    NibblesApart(p, q);
    var all := [p + 16 * q] + tail;
    assert all[1..] == tail;
  }

  /** After one of `count` copies. */
  function Onward(count: nat, src: seq<byte>, out: seq<byte>, n: nat): Outcome {
    if count > 1 then Copies(count - 1, src, out, n) else if |out| < n then Groups(src, out, n) else Done(out)
  }

  lemma CopiesFrom(count: nat, src: seq<byte>, out: seq<byte>, n: nat, dist: int, len: int, rest: seq<byte>)
    requires ReadCopy(src) == Some((dist, len, rest))
    ensures var cut := Cut(|out|, len, n);
            Copies(count, src, out, n) ==
              if |out| - dist < 0 then BadDistance
              else if dist <= 0 || cut <= 0 then Overrun
              else Onward(count, rest, CopyBack(out, dist, cut), n)
  {
  }

  lemma CopiesCase(result: Outcome, count: nat, src: seq<byte>, out: seq<byte>, n: nat, ds: int, len: int, rest: seq<byte>)
    requires result == Copies(count, src, out, n) && !result.Overrun? && ReadCopy(src) == Some((-ds, len, rest))
    ensures if |out| + ds < 0 then result == BadDistance
            else ds < 0 && Cut(|out|, len, n) > 0
                 && result == Onward(count, rest, CopyBack(out, -ds, Cut(|out|, len, n)), n)
  {
    CopiesFrom(count, src, out, n, -ds, len, rest);
  }

  /** One copy of the stream does what it stands for. */
  lemma CopyStep(c: Copy, count: nat, src: seq<byte>, out: seq<byte>, n: nat)
    requires n < WORD / 4 && 0 < c.dist <= |out| && 0 < c.len && |out| + c.len <= n
    ensures Copies(count, EncodeCopy(c) + src, out, n) == Onward(count, src, CopyBack(out, c.dist, c.len), n)
  {
    ReadCopyRoundTrip(c, src);
    CopiesFrom(count, EncodeCopy(c) + src, out, n, c.dist, c.len, src);
  }

  /** The header and the literals of a group. */
  lemma GroupStep(g: Group, src: seq<byte>, out: seq<byte>, n: nat)
    requires n < WORD / 4 && g.literals != [] && |out| + |g.literals| <= n && |g.copies| < WORD / 2
    requires forall c :: c in g.copies ==> c.dist > 0 && c.len > 0
    ensures Groups(EncodeGroup(g) + src, out, n) ==
            var out' := out + g.literals;
            if |out'| >= n then Done(out')
            else Copies(if g.copies == [] then 1 else |g.copies|, EncodeCopies(g.copies) + src, out', n)
  {
    hide Groups, Copies, ReadHeader, EncodeHeader, EncodeCopies;
    var k := if g.copies == [] then 1 else |g.copies|;
    var body := g.literals + (EncodeCopies(g.copies) + src);
    ReadHeaderRoundTrip(|g.literals|, k, body);
    assert EncodeGroup(g) + src == EncodeHeader(|g.literals|, k) + body;
    assert body[..|g.literals|] == g.literals && body[|g.literals|..] == EncodeCopies(g.copies) + src;
    GroupFrom(EncodeGroup(g) + src, |g.literals|, k, body, out, n);
  }

  lemma GroupFrom(src: seq<byte>, literals: nat, copies: nat, body: seq<byte>, out: seq<byte>, n: nat)
    requires ReadHeader(src) == Some((literals, copies, body)) && 0 < literals <= |body| && copies > 0 && |out| + literals <= n
    requires literals < WORD / 2 && copies < WORD / 2
    ensures Groups(src, out, n) ==
            var out' := out + body[..literals];
            if |out'| >= n then Done(out') else Copies(copies, body[literals..], out', n)
  {
  }

  lemma GroupCase(result: Outcome, src: seq<byte>, out: seq<byte>, n: nat)
    requires result == Groups(src, out, n) && !result.Overrun?
    ensures ReadHeader(src).Some?
    ensures var h := ReadHeader(src).value;
            && Times(h.0) <= |h.2| && |out| + Times(h.0) <= n
            && var out' := out + h.2[..Times(h.0)];
               result == if |out'| < n then Copies(Times(h.1), h.2[Times(h.0)..], out', n) else Done(out')
  {
  }

  lemma CopiesHead(copies: seq<Copy>, tail: seq<byte>, out: seq<byte>, n: nat)
    requires n < WORD / 4 && copies != [] && forall c :: c in copies ==> c.dist > 0 && c.len > 0
    requires copies[0].dist <= |out| && |out| + copies[0].len <= n
    ensures Copies(|copies|, EncodeCopies(copies) + tail, out, n)
            == Onward(|copies|, EncodeCopies(copies[1..]) + tail, CopyBack(out, copies[0].dist, copies[0].len), n)
  {
    CopyStep(copies[0], |copies|, EncodeCopies(copies[1..]) + tail, out, n);
    Associate(EncodeCopy(copies[0]), EncodeCopies(copies[1..]), tail);
  }

  /** All copies of a group, then on with what follows. */
  lemma {:induction false} CopiesRoundTrip(copies: seq<Copy>, tail: seq<byte>, out: seq<byte>, n: nat)
    requires n < WORD / 4 && copies != [] && ExpandCopies(out, copies).Some?
    requires |ExpandCopies(out, copies).value| <= n
    requires forall c :: c in copies ==> c.dist > 0 && c.len > 0
    ensures var out' := ExpandCopies(out, copies).value;
            Copies(|copies|, EncodeCopies(copies) + tail, out, n) == if |out'| < n then Groups(tail, out', n) else Done(out')
    decreases |copies|
  {
    var c, more := copies[0], copies[1..];
    var out' := CopyBack(out, c.dist, c.len);
    CopiesGrow(out', more);
    CopiesHead(copies, tail, out, n);
    if more != [] {
      CopiesRoundTrip(more, tail, out', n);
    } else {
      assert EncodeCopies(more) + tail == tail;
    }
  }

  lemma Associate(a: seq<byte>, b: seq<byte>, c: seq<byte>)
    ensures a + b + c == a + (b + c)
  {
  }

  lemma {:induction false} GroupsRoundTrip(groups: seq<Group>, rest: seq<byte>, out: seq<byte>, n: nat)
    requires n < WORD / 4 && groups != [] && Expand(out, groups).Some? && |Expand(out, groups).value| == n
    ensures Plain(groups)
    ensures Groups(Encode(groups) + rest, out, n) == Done(Expand(out, groups).value)
    decreases |groups|
  {
    var g, more := groups[0], groups[1..];
    var out' := out + g.literals;
    ExpandPlain(out, groups);
    CopiesGrow(out', g.copies);
    var out'' := ExpandCopies(out', g.copies).value;
    ExpandGrows(out'', more);
    ExpandPlain(out'', more);
    Associate(EncodeGroup(g), Encode(more), rest);
    GroupStep(g, Encode(more) + rest, out, n);
    if g.copies != [] {
      CopiesRoundTrip(g.copies, Encode(more) + rest, out', n);
    }
    if more != [] {
      GroupsRoundTrip(more, rest, out'', n);
    }
  }

  /** Decoding the encoding of any groups gives exactly what they stand for, whatever follows in the stream. */
  lemma RoundTrip(groups: seq<Group>, rest: seq<byte>)
    requires groups != [] && Expand([], groups).Some? && |Expand([], groups).value| < WORD / 4
    ensures Plain(groups)
    ensures Groups(Encode(groups) + rest, [], |Expand([], groups).value|) == Done(Expand([], groups).value)
  {
    GroupsRoundTrip(groups, rest, [], |Expand([], groups).value|);
  }

  // ---- the loops ----

  method GetHeader(src: seq<byte>, p0: nat) returns (literals: nat, copies: nat, p: nat)
    requires p0 <= |src| && ReadHeader(src[p0..]).Some?
    ensures p0 < p <= |src| && ReadHeader(src[p0..]) == Some((literals, copies, src[p..]))
  {
    p := p0 + 1;
    assert src[p0..][1..] == src[p..];
    copies := src[p0];
    literals := copies % 16;
    if literals == 0 {
      literals, p := GetNumS7s(src, p);
    }
    copies := copies / 16;
    if copies == 0 {
      copies, p := GetNumS7s(src, p);
    }
  }

  method GetCopy(src: seq<byte>, p0: nat) returns (ds: int, cp: int, p: nat)
    requires p0 <= |src| && ReadCopy(src[p0..]).Some?
    ensures p0 < p <= |src| && ReadCopy(src[p0..]) == Some((-ds, cp, src[p..]))
  {
    p := p0 + 1;
    assert src[p0..][1..] == src[p..];
    var s: nat, c: nat := src[p0] % 16, src[p0] / 16;
    if s % 2 == 0 {
      s, p := ScanFrom(src, p, s);
    }
    ds := -(Signed(s) / 2) - 1;
    if c == 0 {
      c, p := ScanFrom(src, p, 0);
      cp := Signed(c) / 2;
    } else {
      cp := c;
    }
    cp := cp + 1;
  }

  /** `do *q++ = *s7ptr++; while (--by);` */
  method CopyLiterals(src: seq<byte>, p: nat, q: array<byte>, k: nat, count: nat)
    requires count > 0 && p + count <= |src| && k + count <= q.Length
    modifies q
    ensures q[..k + count] == old(q[..k]) + src[p..p + count]
  {
    var i := 0;
    while i < count
      invariant i <= count
      invariant q[..k + i] == old(q[..k]) + src[p..p + i]
    {
      q[k + i] := src[p + i];
      i := i + 1;
    }
  }

  /** `do { *q = *(q + ds); q++; } while (--cp);` */
  method CopyBytesBack(q: array<byte>, k: nat, dist: nat, count: nat)
    requires 0 < dist <= k && k + count <= q.Length
    modifies q
    ensures q[..k + count] == CopyBack(old(q[..k]), dist, count)
  {
    var i := 0;
    while i < count
      invariant i <= count
      invariant CopyBack(q[..k + i], dist, count - i) == CopyBack(old(q[..k]), dist, count)
    {
      ghost var out := q[..k + i];
      q[k + i] := q[k + i - dist];
      assert q[..k + i + 1] == out + [out[|out| - dist]];
      i := i + 1;
    }
  }

  /** Status 0 with the output in the buffer, or 1 for a distance that reaches back before its start. */
  predicate Reports(result: Outcome, status: int, q: seq<byte>) {
    match result
    case Done(out) => status == 0 && q == out
    case BadDistance => status == 1
    case Overrun => false
  }

  /** tek_lzrestore_stk1, for any stream on which it stays inside its two buffers. */
  method LzRestoreStk1(src: seq<byte>, outsiz: nat, q: array<byte>) returns (status: int)
    requires q.Length == outsiz && !Groups(src, [], outsiz).Overrun?
    modifies q
    ensures Reports(Groups(src, [], outsiz), status, q[..])
  {
    var p: nat, k: nat := 0, 0;
    assert src[0..] == src && q[..0] == [];
    ghost var result := Groups(src[p..], q[..k], outsiz);
    while true
      invariant p <= |src| && k <= outsiz && Groups(src[p..], q[..k], outsiz) == result
      decreases |src| - p
    {
      var copies: nat;
      copies, p, k := BeginGroup(src, p, q, k, result);
      if k >= outsiz {
        break;
      }
      var bad;
      bad, p, k := CopyAll(src, p, q, k, Times(copies), result);
      if bad {
        return 1;
      }
      if k >= outsiz {
        break;
      }
    }
    assert q[..k] == q[..];
    return 0;
  }

  /** The header and the literals of one group. */
  method GetLiterals(src: seq<byte>, p0: nat, q: array<byte>, k: nat) returns (literals: nat, copies: nat, p: nat)
    requires p0 <= |src| && k <= q.Length && ReadHeader(src[p0..]).Some?
    requires var h := ReadHeader(src[p0..]).value; Times(h.0) <= |h.2| && k + Times(h.0) <= q.Length
    modifies q
    ensures var h := ReadHeader(src[p0..]).value;
            && p0 < p <= |src| && literals == Times(h.0) && copies == h.1 && src[p..] == h.2[literals..]
            && k + literals <= q.Length && q[..k + literals] == old(q[..k]) + h.2[..literals]
  {
    literals, copies, p := GetHeader(src, p0);
    literals := Times(literals);
    CopyLiterals(src, p, q, k, literals);
    assert src[p..][..literals] == src[p..p + literals];
    assert src[p..][literals..] == src[p + literals..];
    p := p + literals;
  }

  /** A group up to its copies. */
  method BeginGroup(src: seq<byte>, p0: nat, q: array<byte>, k0: nat, ghost result: Outcome) returns (copies: nat, p: nat, k: nat)
    requires p0 <= |src| && k0 <= q.Length && !result.Overrun? && Groups(src[p0..], q[..k0], q.Length) == result
    modifies q
    ensures p0 < p <= |src| && k <= q.Length
    ensures result == if k < q.Length then Copies(Times(copies), src[p..], q[..k], q.Length) else Done(q[..k])
  {
    hide Groups, Copies, ReadHeader;
    ghost var out := q[..k0];
    GroupCase(result, src[p0..], out, q.Length);
    ghost var h := ReadHeader(src[p0..]).value;
    assert result == if k0 + Times(h.0) < q.Length then Copies(Times(h.1), h.2[Times(h.0)..], out + h.2[..Times(h.0)], q.Length)
                     else Done(out + h.2[..Times(h.0)]);
    var literals;
    literals, copies, p := GetLiterals(src, p0, q, k0);
    k := k0 + literals;
  }

  /** One copy, cut to what the buffer has room for. */
  method CopyOne(q: array<byte>, k0: nat, ds: int, cp0: int) returns (bad: bool, k: nat)
    requires k0 <= q.Length && (k0 + ds >= 0 ==> ds < 0 && Cut(k0, cp0, q.Length) > 0)
    modifies q
    ensures (bad <==> k0 + ds < 0) && k <= q.Length
    ensures !bad ==> q[..k] == CopyBack(old(q[..k0]), -ds, Cut(k0, cp0, q.Length))
  {
    var cp := cp0;
    if k0 + ds < 0 {
      return true, k0;
    }
    if k0 + cp > q.Length {
      cp := q.Length - k0;
    }
    CopyBytesBack(q, k0, -ds, cp);
    return false, k0 + cp;
  }

  /** The copies of one group; `bad` when one of them reaches back before the start. */
  method CopyAll(src: seq<byte>, p0: nat, q: array<byte>, k0: nat, count: nat, ghost result: Outcome)
    returns (bad: bool, p: nat, k: nat)
    requires p0 <= |src| && k0 < q.Length && count > 0 && !result.Overrun?
    requires Copies(count, src[p0..], q[..k0], q.Length) == result
    modifies q
    ensures p0 < p <= |src| && k <= q.Length
    ensures bad ==> result == BadDistance
    ensures !bad ==> result == Onward(1, src[p..], q[..k], q.Length)
  {
    p, k := p0, k0;
    var lz := count;
    while true
      invariant p0 <= p <= |src| && k <= q.Length && lz > 0
      invariant Copies(lz, src[p..], q[..k], q.Length) == result
      decreases |src| - p
    {
      ghost var before, out := src[p..], q[..k];
      var ds, cp;
      ds, cp, p := GetCopy(src, p);
      CopiesCase(result, lz, before, out, q.Length, ds, cp, src[p..]);
      bad, k := CopyOne(q, k, ds, cp);
      if bad {
        return;
      }
      lz := lz - 1;
      if lz == 0 {
        return;
      }
    }
  }

  /** What was encoded is what the buffer holds afterwards, whatever follows it in the stream. */
  method LzRestoreEncoded(ghost groups: seq<Group>, src: seq<byte>, ghost rest: seq<byte>, q: array<byte>) returns (status: int)
    requires groups != [] && Expand([], groups).Some? && |Expand([], groups).value| == q.Length < WORD / 4
    requires Plain(groups) && src == Encode(groups) + rest
    modifies q
    ensures status == 0 && q[..] == Expand([], groups).value
  {
    RoundTrip(groups, rest);
    status := LzRestoreStk1(src, q.Length, q);
  }
}
