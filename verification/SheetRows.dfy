/**
 * The row loops of the compositor, on byte arrays. A row is addressed as in the C code:
 * column bx of a sheet is byte row + bx of the screen arrays and byte brow + bx of its buffer.
 */
module SheetRows {
  import opened Basics
  import opened Scene
  import Bits

  // ---- 32-bit words in a byte array, least significant byte first ----

  function WordOf(b0: byte, b1: byte, b2: byte, b3: byte): nat {
    b0 + 0x100 * b1 + 0x1_0000 * b2 + 0x100_0000 * b3
  }

  lemma Shl8(x: nat)
    ensures Bits.Shl(x, 8) == 0x100 * x
  {
    Bits.ShlShl(x, 2, 2);
    Bits.ShlShl(x, 4, 4);
    Bits.ShlShl(x, 1, 1);
    assert Bits.Shl(x, 1) == 2 * x;
    assert Bits.Shl(2 * x, 1) == 4 * x;
    assert Bits.Shl(4 * x, 1) == 8 * x && Bits.Shl(8 * x, 1) == 16 * x;
    Bits.ShlShl(4 * x, 1, 1);
    Bits.ShlShl(16 * x, 2, 2);
    Bits.ShlShl(16 * x, 1, 1);
    Bits.ShlShl(64 * x, 1, 1);
  }

  lemma ByteFits(lo: nat)
    ensures lo < 0x100 ==> Bits.Shr(lo, 8) == 0
    ensures lo < 0x1_0000 ==> Bits.Shr(lo, 16) == 0
    ensures lo < 0x100_0000 ==> Bits.Shr(lo, 24) == 0
  {
    Shl8(1);
    Shl8(0x100);
    Shl8(0x1_0000);
    Bits.ShlShl(1, 8, 8);
    Bits.ShlShl(1, 16, 8);
    Bits.ShrBound(lo, 8);
    Bits.ShrBound(lo, 16);
    Bits.ShrBound(lo, 24);
  }

  /** `sid | sid << 8 | sid << 16 | sid << 24`. */
  function Sid4(sid: byte): (w: nat)
    ensures w == WordOf(sid, sid, sid, sid)
  {
    var low := Bits.Or(Bits.Shl(sid, 8), sid);
    var mid := Bits.Or(Bits.Shl(sid, 16), low);
    assert Bits.Or(Bits.Shl(sid, 24), mid) == WordOf(sid, sid, sid, sid) by {
      Shl8(sid);
      Shl8(0x100 * sid);
      Shl8(0x1_0000 * sid);
      Bits.ShlShl(sid, 8, 8);
      Bits.ShlShl(sid, 16, 8);
      ByteFits(sid);
      Bits.OrIsSum(sid, 8, sid);
      ByteFits(low);
      Bits.OrIsSum(sid, 16, low);
      ByteFits(mid);
      Bits.OrIsSum(sid, 24, mid);
    }
    Bits.Or(Bits.Shl(sid, 24), mid)
  }

  method LoadWord(a: array<byte>, i: nat) returns (w: nat)
    requires i + 4 <= a.Length
    ensures w == WordOf(a[i], a[i + 1], a[i + 2], a[i + 3])
  {
    w := WordOf(a[i], a[i + 1], a[i + 2], a[i + 3]);
  }

  method StoreWord(a: array<byte>, i: nat, w: nat)
    requires i + 4 <= a.Length
    modifies a
    ensures forall b0: byte, b1: byte, b2: byte, b3: byte :: w == WordOf(b0, b1, b2, b3) ==>
              a[i] == b0 && a[i + 1] == b1 && a[i + 2] == b2 && a[i + 3] == b3
    ensures forall p :: 0 <= p < a.Length && !(i <= p < i + 4) ==> a[p] == old(a[p])
  {
    var w1 := w / 0x100;
    var w2 := w1 / 0x100;
    var w3 := w2 / 0x100;
    forall b0: byte, b1: byte, b2: byte, b3: byte | w == WordOf(b0, b1, b2, b3)
      ensures w % 0x100 == b0 && w1 % 0x100 == b1 && w2 % 0x100 == b2 && w3 % 0x100 == b3
    {
      assert w1 == b1 + 0x100 * b2 + 0x1_0000 * b3;
      assert w2 == b2 + 0x100 * b3;
    }
    a[i], a[i + 1], a[i + 2], a[i + 3] := w % 0x100, w1 % 0x100, w2 % 0x100, w3 % 0x100;
  }

  // ---- owner map rows ----

  method FillBytes(ids: array<byte>, row: int, bx0: int, bx1: int, sid: byte)
    requires bx0 < bx1 ==> 0 <= row + bx0 && row + bx1 <= ids.Length
    modifies ids
    ensures forall p :: 0 <= p < ids.Length ==>
              ids[p] == if row + bx0 <= p < row + bx1 then sid else old(ids[p])
  {
    var bx := bx0;
    while bx < bx1
      invariant bx0 == bx || bx0 < bx <= bx1
      invariant forall p :: 0 <= p < ids.Length ==>
                  ids[p] == if row + bx0 <= p < row + bx then sid else old(ids[p])
    {
      ids[row + bx] := sid;
      bx := bx + 1;
    }
  }

  method FillWords(ids: array<byte>, row: int, bx0: int, bx1: int, sid: byte)
    requires bx0 < bx1 ==> 0 <= row + bx0 && row + bx1 <= ids.Length
    requires bx0 % 4 == 0 && bx1 % 4 == 0
    modifies ids
    ensures forall p :: 0 <= p < ids.Length ==>
              ids[p] == if row + bx0 <= p < row + bx1 then sid else old(ids[p])
  {
    var words := (bx1 - bx0) / 4;
    var sid4 := Sid4(sid);
    var bx := 0;
    while bx < words
      invariant bx == 0 || 0 < bx <= words
      invariant forall p :: 0 <= p < ids.Length ==>
                  ids[p] == if row + bx0 <= p < row + bx0 + 4 * bx then sid else old(ids[p])
    {
      StoreWord(ids, row + bx0 + 4 * bx, sid4);
      bx := bx + 1;
    }
  }

  method FillKeyed(ids: array<byte>, row: int, bx0: int, bx1: int, sid: byte, buf: seq<byte>, brow: int, inv: int)
    requires bx0 < bx1 ==> 0 <= row + bx0 && row + bx1 <= ids.Length
    requires bx0 < bx1 ==> 0 <= brow + bx0 && brow + bx1 <= |buf|
    modifies ids
    ensures forall p :: 0 <= p < ids.Length ==>
              ids[p] == if row + bx0 <= p < row + bx1 && buf[brow + (p - row)] != inv then sid else old(ids[p])
  {
    var bx := bx0;
    while bx < bx1
      invariant bx0 == bx || bx0 < bx <= bx1
      invariant forall p :: 0 <= p < ids.Length ==>
                  ids[p] == if row + bx0 <= p < row + bx && buf[brow + (p - row)] != inv then sid else old(ids[p])
    {
      if buf[brow + bx] != inv {
        ids[row + bx] := sid;
      }
      bx := bx + 1;
    }
  }

  // ---- screen rows ----

  /** The plain byte row: columns lo .. hi-1 that the map gives to sid take the buffer's colours. */
  function ByteRow(ids: seq<byte>, vram: seq<byte>, row: int, lo: int, hi: int, sid: byte, buf: seq<byte>, brow: int): seq<byte>
    requires |ids| == |vram|
    requires lo < hi ==> 0 <= brow + lo && brow + hi <= |buf|
  {
    seq(|vram|, p requires 0 <= p < |vram| =>
      if row + lo <= p < row + hi && ids[p] == sid then buf[brow + (p - row)] else vram[p])
  }

  method CopyBytes(ids: array<byte>, vram: array<byte>, row: int, bx0: int, bx1: int, sid: byte, buf: seq<byte>, brow: int)
    requires ids != vram && ids.Length == vram.Length
    requires bx0 < bx1 ==> 0 <= row + bx0 && row + bx1 <= ids.Length
    requires bx0 < bx1 ==> 0 <= brow + bx0 && brow + bx1 <= |buf|
    modifies vram
    ensures vram[..] == ByteRow(ids[..], old(vram[..]), row, bx0, bx1, sid, buf, brow)
  {
    var bx := bx0;
    while bx < bx1
      invariant bx0 == bx || bx0 < bx <= bx1
      invariant forall p :: 0 <= p < ids.Length ==>
                  vram[p] == if row + bx0 <= p < row + bx && ids[p] == sid then buf[brow + (p - row)] else old(vram[p])
    {
      if ids[row + bx] == sid {
        vram[row + bx] := buf[brow + bx];
      }
      bx := bx + 1;
    }
  }

  /** C's division by 4, which truncates towards zero. */
  function Quarter(x: int): int { if x >= 0 then x / 4 else -((-x) / 4) }

  /** How many whole words the word row copies; negative when the columns hold no word boundary pair. */
  function WordCount(bx0: int, bx1: int): int { Quarter(bx1) - (bx0 + 3) / 4 }

  /**
   * The first column a word row touches. It is bx0 unless the word count is negative: then the
   * trailing loop starts that many words back from where the leading loop stopped.
   */
  function FirstColumn(bx0: int, bx1: int): int {
    if WordCount(bx0, bx1) >= 0 then bx0
    else (if bx0 < bx1 then bx1 else bx0) + 4 * WordCount(bx0, bx1)
  }

  lemma LowByte(b: byte, c: byte, hi: nat, hi': nat)
    requires b + 0x100 * hi == c + 0x100 * hi'
    ensures b == c && hi == hi'
  {
  }

  /** A word of the map holds sid four times iff each of its bytes is sid. */
  lemma WordMatches(b0: byte, b1: byte, b2: byte, b3: byte, sid: byte)
    ensures WordOf(b0, b1, b2, b3) == WordOf(sid, sid, sid, sid) <==> b0 == b1 == b2 == b3 == sid
  {
    if WordOf(b0, b1, b2, b3) == WordOf(sid, sid, sid, sid) {
      LowByte(b0, sid, b1 + 0x100 * b2 + 0x1_0000 * b3, sid + 0x100 * sid + 0x1_0000 * sid);
      LowByte(b1, sid, b2 + 0x100 * b3, sid + 0x100 * sid);
      LowByte(b2, sid, b3, sid);
    }
  }

  /** Where the leading loop of a word row stops. */
  lemma HeadStop(bx0: int, bx1: int, bx: int)
    requires 0 <= bx0 <= bx <= 4 * ((bx0 + 3) / 4) && (bx == bx0 || bx <= bx1) && (bx >= bx1 || bx % 4 == 0)
    ensures WordCount(bx0, bx1) >= 0 ==> bx0 <= bx + 4 * WordCount(bx0, bx1)
    ensures WordCount(bx0, bx1) > 0 ==> bx + 4 * WordCount(bx0, bx1) <= bx1
    ensures WordCount(bx0, bx1) == 0 && bx0 < bx1 ==> bx <= bx1
    ensures WordCount(bx0, bx1) < 0 ==> bx + 4 * WordCount(bx0, bx1) == FirstColumn(bx0, bx1)
    ensures bx0 < bx1 ==> FirstColumn(bx0, bx1) <= bx0
  {
  }

  /** One whole word of the row. */
  method CopyWord(ids: array<byte>, vram: array<byte>, at: nat, sid: byte, buf: seq<byte>, from: nat)
    requires ids != vram && ids.Length == vram.Length && at + 4 <= ids.Length && from + 4 <= |buf|
    modifies vram
    ensures forall p :: 0 <= p < ids.Length ==>
              vram[p] == if at <= p < at + 4 && ids[p] == sid then buf[from + (p - at)] else old(vram[p])
  {
    var word := LoadWord(ids, at);
    WordMatches(ids[at], ids[at + 1], ids[at + 2], ids[at + 3], sid);
    if word == Sid4(sid) {
      StoreWord(vram, at, WordOf(buf[from], buf[from + 1], buf[from + 2], buf[from + 3]));
    } else {
      if ids[at] == sid { vram[at] := buf[from]; }
      if ids[at + 1] == sid { vram[at + 1] := buf[from + 1]; }
      if ids[at + 2] == sid { vram[at + 2] := buf[from + 2]; }
      if ids[at + 3] == sid { vram[at + 3] := buf[from + 3]; }
    }
  }

  /** The leading loop of a word row: byte columns up to a word boundary. */
  method CopyHead(ids: array<byte>, vram: array<byte>, row: int, bx0: int, bx1: int, sid: byte, buf: seq<byte>, brow: int)
    returns (bx: int)
    requires ids != vram && ids.Length == vram.Length && bx0 >= 0
    requires bx0 < bx1 ==> 0 <= row + bx0 && row + bx1 <= ids.Length
    requires bx0 < bx1 ==> 0 <= brow + bx0 && brow + bx1 <= |buf|
    modifies vram
    ensures bx0 <= bx <= 4 * ((bx0 + 3) / 4) && (bx == bx0 || bx <= bx1) && (bx >= bx1 || bx % 4 == 0)
    ensures vram[..] == ByteRow(ids[..], old(vram[..]), row, bx0, bx, sid, buf, brow)
  {
    bx := bx0;
    while bx < bx1 && bx % 4 != 0
      invariant bx0 <= bx <= 4 * ((bx0 + 3) / 4) && (bx == bx0 || bx <= bx1)
      invariant forall p :: 0 <= p < ids.Length ==>
                  vram[p] == if row + bx0 <= p < row + bx && ids[p] == sid then buf[brow + (p - row)] else old(vram[p])
    {
      if ids[row + bx] == sid {
        vram[row + bx] := buf[brow + bx];
      }
      bx := bx + 1;
    }
  }

  /** The middle loop of a word row. */
  method CopyBody(ids: array<byte>, vram: array<byte>, row: int, bx: int, words: int, sid: byte, buf: seq<byte>, brow: int)
    requires ids != vram && ids.Length == vram.Length
    requires words > 0 ==> 0 <= row + bx && row + bx + 4 * words <= ids.Length
    requires words > 0 ==> 0 <= brow + bx && brow + bx + 4 * words <= |buf|
    modifies vram
    ensures vram[..] == ByteRow(ids[..], old(vram[..]), row, bx, bx + 4 * words, sid, buf, brow)
  {
    var i := 0;
    while i < words
      invariant i == 0 || 0 < i <= words
      invariant forall p :: 0 <= p < ids.Length ==>
                  vram[p] == if row + bx <= p < row + bx + 4 * i && ids[p] == sid then buf[brow + (p - row)] else old(vram[p])
    {
      CopyWord(ids, vram, row + bx + 4 * i, sid, buf, brow + bx + 4 * i);
      i := i + 1;
    }
  }

  /** Leading bytes, whole words, trailing bytes: a plain byte row, from FirstColumn on. */
  method CopyWords(ids: array<byte>, vram: array<byte>, row: int, bx0: int, bx1: int, sid: byte, buf: seq<byte>, brow: int)
    requires ids != vram && ids.Length == vram.Length && bx0 >= 0
    requires FirstColumn(bx0, bx1) < bx1 ==> 0 <= row + FirstColumn(bx0, bx1) && row + bx1 <= ids.Length
    requires FirstColumn(bx0, bx1) < bx1 ==> 0 <= brow + FirstColumn(bx0, bx1) && brow + bx1 <= |buf|
    modifies vram
    ensures vram[..] == ByteRow(ids[..], old(vram[..]), row, FirstColumn(bx0, bx1), bx1, sid, buf, brow)
  {
    var words := WordCount(bx0, bx1);
    assert bx0 < bx1 ==> FirstColumn(bx0, bx1) <= bx0;
    var bx := CopyHead(ids, vram, row, bx0, bx1, sid, buf, brow);
    HeadStop(bx0, bx1, bx);
    CopyBody(ids, vram, row, bx, words, sid, buf, brow);
    CopyBytes(ids, vram, row, bx + 4 * words, bx1, sid, buf, brow);
  }

  /** The row's columns from lo on lie inside the screen arrays and the buffer. */
  ghost predicate RowFits(ids: seq<byte>, vram: seq<byte>, row: int, lo: int, hi: int, buf: seq<byte>, brow: int) {
    |ids| == |vram| && (lo < hi ==> 0 <= row + lo && row + hi <= |ids| && 0 <= brow + lo && brow + hi <= |buf|)
  }

  /** Starting at column `from` or at bx0 makes no difference to any row. */
  ghost predicate SameRow(from: int, bx0: int, bx1: int) {
    forall ids, vram, row, sid, buf, brow ::
      RowFits(ids, vram, row, from, bx1, buf, brow) && RowFits(ids, vram, row, bx0, bx1, buf, brow) ==>
        ByteRow(ids, vram, row, from, bx1, sid, buf, brow) == ByteRow(ids, vram, row, bx0, bx1, sid, buf, brow)
  }

  /** The word row does what the plain byte row does exactly when its word count is not negative or it touches nothing. */
  lemma WordRowExact(bx0: int, bx1: int)
    requires bx0 >= 0
    ensures SameRow(FirstColumn(bx0, bx1), bx0, bx1) <==> WordCount(bx0, bx1) >= 0 || FirstColumn(bx0, bx1) >= bx1
  {
    var from := FirstColumn(bx0, bx1);
    if WordCount(bx0, bx1) < 0 && from < bx1 {
      var ids, vram, row, buf := WordRowOverrun(bx0, bx1, 0);
      assert RowFits(ids, vram, row, bx0, bx1, buf, row);
    } else if WordCount(bx0, bx1) < 0 {
      assert bx0 >= bx1;
    }
  }

  /** Otherwise some map, screen and buffer tell the two apart: the word row also writes columns before bx0. */
  lemma WordRowOverrun(bx0: int, bx1: int, sid: byte)
    returns (ids: seq<byte>, vram: seq<byte>, row: int, buf: seq<byte>)
    requires bx0 >= 0 && WordCount(bx0, bx1) < 0 && FirstColumn(bx0, bx1) < bx1
    ensures |ids| == |vram| && 0 <= row + FirstColumn(bx0, bx1) && row + bx1 <= |ids| == |buf|
    ensures ByteRow(ids, vram, row, FirstColumn(bx0, bx1), bx1, sid, buf, row)
            != ByteRow(ids, vram, row, bx0, bx1, sid, buf, row)
  {
    var from := FirstColumn(bx0, bx1);
    row := -from;
    ids, vram, buf := seq(bx1 - from, _ => sid), seq(bx1 - from, _ => 0), seq(bx1 - from, _ => 1);
    assert ByteRow(ids, vram, row, from, bx1, sid, buf, row)[0] == 1;
    assert ByteRow(ids, vram, row, bx0, bx1, sid, buf, row)[0] == 0;
  }
}
